/** The bookkeeping of a scheduler on values: a coroutine is taken out of one container and put into another.
    `place` says where each submitted coroutine is; the invariant ties it to the containers and to the
    coroutine's state. */
module ScheduleMoves {

  import opened Basics
  import opened CoroutineStates

  type Id = nat

  /** Where a submitted coroutine is. `InHand` is a coroutine that runs or is being moved. */
  datatype Place = InReady | InHeap | InTable | InHand | Finished | Dropped

  /** The ready queue, the heap of suspended coroutines with their timestamps, the system call table, its
      timers, and the last clock reading. `owed` is the time before which a coroutine must not be resumed. */
  datatype Sched = Sched(cos: map<Id, CoState>, ready: seq<Id>, suspend: map<Id, nat>, table: set<Id>,
                         timers: multiset<(nat, Id)>, place: map<Id, Place>, owed: map<Id, nat>, now: nat)

  ghost predicate FitsReady(s: CoState, now: nat) {
    s == Ready || (s.Suspend? && s.deadline <= now) || (s.Syscall? && (s.phase == Callback || s.phase == Timeout))
  }

  /** The state of a coroutine fits the place it is in; a parked one has a timer for its deadline. */
  ghost predicate Fits(w: Sched, id: Id)
    requires id in w.cos && id in w.place
  {
    var s := w.cos[id];
    match w.place[id]
    case InReady => FitsReady(s, w.now) && (id in w.owed ==> w.owed[id] <= w.now)
    case InHeap => id in w.suspend && s == Suspend(w.suspend[id]) && id in w.owed && w.owed[id] == w.suspend[id]
    case InTable => s.Syscall? && s.phase.SuspendUntil? && (s.phase.deadline, id) in w.timers && id !in w.owed
    case Finished => s.Complete? || s.Error?
    case _ => true
  }

  /** Coroutine `id` is in exactly the container that `place` says, once, or in none if it was not submitted. */
  ghost predicate Home(w: Sched, id: Id) {
    var p := if id in w.place then Some(w.place[id]) else None;
    && (id in w.cos <==> id in w.place)
    && Occurs(w.ready, id) == (if p == Some(InReady) then 1 else 0)
    && (id in w.suspend <==> p == Some(InHeap))
    && (id in w.table <==> p == Some(InTable))
    && (id in w.owed ==> id in w.cos)
    && (id in w.cos ==> Fits(w, id))
  }

  ghost predicate Inv(w: Sched) { forall id :: Home(w, id) }

  /** The coroutines that run or are being moved. */
  ghost function Hands(w: Sched): set<Id> { set id | id in w.place && w.place[id] == InHand }

  /** Coroutines are never forgotten, and a finished or dropped one stays as it is. */
  ghost predicate Keeps(w: Sched, w': Sched) {
    && w.cos.Keys <= w'.cos.Keys
    && forall id | id in w.place && id in w.cos && (w.place[id] == Finished || w.place[id] == Dropped) ::
         id in w'.place && id in w'.cos && w'.place[id] == w.place[id] && w'.cos[id] == w.cos[id]
  }

  predicate Away(p: Place) { p == Finished || p == Dropped }

  /** Only the coroutines `ids` have newly been put away, or into the heap, or into the table. */
  ghost predicate OnlyNew(w: Sched, w': Sched, ids: set<Id>) {
    && (forall o | o in w'.place && o !in ids && Away(w'.place[o]) :: o in w.place && w.place[o] == w'.place[o])
    && (forall o | o in w'.suspend && o !in ids :: o in w.suspend && w.suspend[o] == w'.suspend[o])
    && (forall o | o in w'.table && o !in ids :: o in w.table && o in w.cos && o in w'.cos && w.cos[o] == w'.cos[o])
  }

  lemma OnlyNewThen(a: Sched, b: Sched, c: Sched, ids: set<Id>, more: set<Id>)
    requires OnlyNew(a, b, ids) && OnlyNew(b, c, more)
    ensures OnlyNew(a, c, ids + more)
  {
  }

  /** A sequence of moves, from `w` to `w'`, that leaves nothing more in hand, put away or parked than before. */
  ghost predicate Sound(w: Sched, w': Sched) {
    Inv(w') && Keeps(w, w') && Hands(w') == Hands(w) && OnlyNew(w, w', {})
  }

  lemma SoundStart(w: Sched)
    requires Inv(w)
    ensures Sound(w, w)
  {
    TableIsKnown(w);
  }

  lemma SoundThen(a: Sched, b: Sched, c: Sched)
    requires Sound(a, b) && Sound(b, c)
    ensures Sound(a, c)
  {
    OnlyNewThen(a, b, c, {}, {});
  }

  /** A coroutine in hand is in no container. */
  lemma InHandIsKnown(w: Sched, id: Id)
    requires Inv(w) && id in Hands(w)
    ensures id in w.cos && id in w.place && w.place[id] == InHand
    ensures id !in w.table && id !in w.suspend && id !in w.ready
  {
    assert Home(w, id);
  }

  /** A ready coroutine is in no other container. */
  lemma ReadyIsKnown(w: Sched, n: nat)
    requires Inv(w) && n < |w.ready|
    ensures w.ready[n] in w.cos && w.ready[n] !in w.suspend && w.ready[n] !in w.table
  {
    assert Home(w, w.ready[n]);
    assert Occurs(w.ready, w.ready[n]) > 0;
  }

  lemma KeepsTransitive(a: Sched, b: Sched, c: Sched)
    requires Keeps(a, b) && Keeps(b, c)
    ensures Keeps(a, c)
  {
  }

  lemma SoundParts(w: Sched, w': Sched)
    requires Sound(w, w')
    ensures Inv(w') && Keeps(w, w') && Hands(w') == Hands(w) && OnlyNew(w, w', {})
  {
  }

  lemma SoundSame(w: Sched, w': Sched)
    requires Inv(w') && Keeps(w, w') && Hands(w') == Hands(w) && OnlyNew(w, w', {})
    ensures Sound(w, w')
  {
  }

  /** A coroutine that was not there before. */
  lemma NewIsKept(w: Sched, w': Sched)
    requires Inv(w) && Inv(w')
    requires exists id: Id :: id !in w.cos && w'.cos == w.cos[id := Ready] && w'.place == w.place[id := InReady]
    requires w'.suspend == w.suspend
    ensures Sound(w, w')
  {
    var id: Id :| id !in w.cos && w'.cos == w.cos[id := Ready] && w'.place == w.place[id := InReady];
    assert Home(w, id);
    forall o | o in w'.table ensures o in w.table && o in w.cos {
      assert Home(w', o);
      assert Home(w, o);
    }
    forall o | o in w'.suspend ensures o in w.suspend {
      assert Home(w', o);
      assert Home(w, o);
    }
  }

  /** Taking out and putting back. */
  lemma SoundMove(a: Sched, b: Sched, c: Sched, id: Id)
    requires Keeps(a, b) && Hands(b) == Hands(a) + {id} && id !in Hands(a)
    requires Inv(c) && Keeps(b, c) && Hands(c) == Hands(b) - {id}
    requires OnlyNew(a, b, {}) && OnlyNew(b, c, {})
    ensures Sound(a, c)
  {
    OnlyNewThen(a, b, c, {}, {});
  }

  // ---- Moves ----

  ghost function PutReady(w: Sched, id: Id, s: CoState): Sched {
    w.(cos := w.cos[id := s], ready := w.ready + [id], place := w.place[id := InReady])
  }

  ghost function PutHeap(w: Sched, id: Id, ts: nat): Sched {
    w.(cos := w.cos[id := Suspend(ts)], suspend := w.suspend[id := ts],
       place := w.place[id := InHeap], owed := w.owed[id := ts])
  }

  ghost function PutTable(w: Sched, id: Id, name: SyscallName, ts: nat): Sched {
    w.(cos := w.cos[id := Syscall(name, SuspendUntil(ts))], table := w.table + {id},
       timers := w.timers + multiset{(ts, id)}, place := w.place[id := InTable])
  }

  ghost function PutAway(w: Sched, id: Id, s: CoState, p: Place): Sched {
    w.(cos := w.cos[id := s], place := w.place[id := p])
  }

  ghost function TakeReady(w: Sched, n: nat): Sched
    requires n < |w.ready|
  {
    w.(ready := Without(w.ready, n), place := w.place[w.ready[n] := InHand])
  }

  ghost function TakeHeap(w: Sched, id: Id): Sched {
    w.(suspend := w.suspend - {id}, place := w.place[id := InHand])
  }

  ghost function TakeTable(w: Sched, id: Id): Sched {
    w.(table := w.table - {id}, place := w.place[id := InHand])
  }

  lemma TableIsKnown(w: Sched)
    requires Inv(w)
    ensures w.table <= w.cos.Keys
  {
    forall o | o in w.table ensures o in w.cos {
      assert Home(w, o);
    }
  }

  lemma PutReadyNew(w: Sched, id: Id, s: CoState)
    requires Inv(w) && (id in w.place ==> w.place[id] == InHand)
    ensures OnlyNew(w, PutReady(w, id, s), {})
  {
    TableIsKnown(w);
    assert Home(w, id);
    hide Inv;
  }

  lemma PutAwayNew(w: Sched, id: Id, s: CoState, p: Place)
    requires Inv(w) && id in w.place && w.place[id] == InHand
    requires p == Dropped || p == InHand || p == Finished
    ensures OnlyNew(w, PutAway(w, id, s, p), if p == InHand then {} else {id})
  {
    TableIsKnown(w);
    assert Home(w, id);
    hide Inv;
  }

  lemma PutReadyKeeps(w: Sched, id: Id, s: CoState)
    requires Inv(w) && (id in w.place ==> w.place[id] == InHand) && FitsReady(s, w.now)
    requires id in w.owed ==> w.owed[id] <= w.now
    ensures Inv(PutReady(w, id, s)) && Keeps(w, PutReady(w, id, s))
    ensures Hands(PutReady(w, id, s)) == Hands(w) - {id} && OnlyNew(w, PutReady(w, id, s), {})
  {
    PutReadyNew(w, id, s);
    hide OnlyNew;
    forall o ensures Home(PutReady(w, id, s), o) {
      assert Home(w, o);
      OccursConcat(w.ready, [id], o);
    }
  }

  lemma PutHeapKeeps(w: Sched, id: Id, ts: nat)
    requires Inv(w) && id in w.place && w.place[id] == InHand
    ensures Inv(PutHeap(w, id, ts)) && Keeps(w, PutHeap(w, id, ts))
    ensures Hands(PutHeap(w, id, ts)) == Hands(w) - {id} && OnlyNew(w, PutHeap(w, id, ts), {id})
  {
    TableIsKnown(w);
    forall o ensures Home(PutHeap(w, id, ts), o) {
      assert Home(w, o);
    }
  }

  lemma PutTableKeeps(w: Sched, id: Id, name: SyscallName, ts: nat)
    requires Inv(w) && id in w.place && w.place[id] == InHand && id !in w.owed
    ensures Inv(PutTable(w, id, name, ts)) && Keeps(w, PutTable(w, id, name, ts))
    ensures Hands(PutTable(w, id, name, ts)) == Hands(w) - {id} && OnlyNew(w, PutTable(w, id, name, ts), {id})
  {
    TableIsKnown(w);
    forall o ensures Home(PutTable(w, id, name, ts), o) {
      assert Home(w, o);
    }
  }

  lemma PutAwayKeeps(w: Sched, id: Id, s: CoState, p: Place)
    requires Inv(w) && id in w.place && w.place[id] == InHand
    requires p == Dropped || p == InHand || (p == Finished && (s.Complete? || s.Error?))
    ensures Inv(PutAway(w, id, s, p)) && Keeps(w, PutAway(w, id, s, p))
    ensures Hands(PutAway(w, id, s, p)) == if p == InHand then Hands(w) else Hands(w) - {id}
    ensures OnlyNew(w, PutAway(w, id, s, p), if p == InHand then {} else {id})
  {
    PutAwayNew(w, id, s, p);
    hide OnlyNew;
    assert Home(w, id);
    forall o ensures Home(PutAway(w, id, s, p), o) {
      assert Home(w, o);
    }
  }

  lemma TakeReadyKeeps(w: Sched, n: nat)
    requires Inv(w) && n < |w.ready|
    ensures Inv(TakeReady(w, n)) && Keeps(w, TakeReady(w, n))
    ensures Hands(TakeReady(w, n)) == Hands(w) + {w.ready[n]} && OnlyNew(w, TakeReady(w, n), {})
    ensures var id := w.ready[n];
            && id in w.place && w.place[id] == InReady && id in w.cos && id !in Hands(w)
            && FitsReady(w.cos[id], w.now) && (id in w.owed ==> w.owed[id] <= w.now)
  {
    TableIsKnown(w);
    var id := w.ready[n];
    OccursWithout(w.ready, n, id);
    assert Home(w, id);
    forall o ensures Home(TakeReady(w, n), o) {
      hide Occurs;
      assert Home(w, o);
      OccursWithout(w.ready, n, o);
    }
  }

  lemma TakeHeapKeeps(w: Sched, id: Id)
    requires Inv(w) && id in w.suspend
    ensures Inv(TakeHeap(w, id)) && Keeps(w, TakeHeap(w, id))
    ensures Hands(TakeHeap(w, id)) == Hands(w) + {id} && OnlyNew(w, TakeHeap(w, id), {})
    ensures id in w.place && id in w.cos && w.cos[id] == Suspend(w.suspend[id]) && id !in Hands(w)
    ensures id in w.owed && w.owed[id] == w.suspend[id]
  {
    TableIsKnown(w);
    assert Home(w, id);
    forall o ensures Home(TakeHeap(w, id), o) {
      assert Home(w, o);
    }
  }

  lemma TakeTableKeeps(w: Sched, id: Id)
    requires Inv(w) && id in w.table
    ensures Inv(TakeTable(w, id)) && Keeps(w, TakeTable(w, id))
    ensures Hands(TakeTable(w, id)) == Hands(w) + {id} && OnlyNew(w, TakeTable(w, id), {})
    ensures id in w.place && id in w.cos && w.cos[id].Syscall? && w.cos[id].phase.SuspendUntil? && id !in Hands(w)
    ensures (w.cos[id].phase.deadline, id) in w.timers && id !in w.owed
  {
    TableIsKnown(w);
    assert Home(w, id);
    forall o ensures Home(TakeTable(w, id), o) {
      assert Home(w, o);
    }
  }

  /** Time passes. */
  lemma AdvanceKeeps(w: Sched, now: nat)
    requires Inv(w) && w.now <= now
    ensures Sound(w, w.(now := now))
  {
    TableIsKnown(w);
    forall o ensures Home(w.(now := now), o) {
      assert Home(w, o);
    }
  }

  /** A timer whose coroutine is not in the table, or waits for another deadline, may go. */
  lemma DropTimerKeeps(w: Sched, t: (nat, Id))
    requires Inv(w) && t in w.timers && t.1 !in w.table
    ensures Sound(w, w.(timers := w.timers - multiset{t}))
  {
    TableIsKnown(w);
    forall o ensures Home(w.(timers := w.timers - multiset{t}), o) {
      assert Home(w, o);
      if o in w.table {
        assert o in w.place && w.place[o] == InTable;
        assert o != t.1;
      }
    }
  }

  lemma ForgetOwedKeeps(w: Sched, id: Id)
    requires Inv(w) && (id in w.place ==> w.place[id] == InHand)
    ensures Sound(w, w.(owed := w.owed - {id}))
  {
    TableIsKnown(w);
    forall o ensures Home(w.(owed := w.owed - {id}), o) {
      assert Home(w, o);
    }
  }

  lemma OweKeeps(w: Sched, id: Id, ts: nat)
    requires Inv(w) && id in w.place && w.place[id] == InHand
    ensures Sound(w, w.(owed := w.owed[id := ts]))
  {
    TableIsKnown(w);
    var w' := w.(owed := w.owed[id := ts]);
    forall o ensures Home(w', o) {
      assert Home(w, o);
    }
  }

  // ---- Waking in the order of the deadlines ----

  /** `moved` has left the heap `s0`, which is now `s`: expired, in the order of the deadlines, the earliest first. */
  ghost predicate MovedInOrder(s0: map<Id, nat>, s: map<Id, nat>, moved: seq<Id>, now: nat) {
    && s == s0 - (set id | id in moved)
    && (forall id | id in moved :: id in s0 && s0[id] <= now)
    && (forall i, j | 0 <= i < j < |moved| :: s0[moved[i]] <= s0[moved[j]])
    && (forall id, o | id in moved && o in s :: s0[id] <= s[o])
  }

  lemma AppendAll(a: seq<Id>, b: seq<Id>, c: seq<Id>)
    ensures a + b + c == a + (b + c)
  {
  }

  lemma Append(a: seq<Id>, b: seq<Id>, id: Id)
    ensures a + b + [id] == a + (b + [id])
  {
  }

  lemma MovedStart(s: map<Id, nat>, now: nat)
    ensures MovedInOrder(s, s, [], now)
  {
  }

  lemma MovedLater(s0: map<Id, nat>, s: map<Id, nat>, moved: seq<Id>, now: nat, now': nat)
    requires MovedInOrder(s0, s, moved, now) && now <= now'
    ensures MovedInOrder(s0, s, moved, now')
  {
  }

  lemma MovedStep(s0: map<Id, nat>, s: map<Id, nat>, moved: seq<Id>, now: nat, id: Id, now': nat)
    requires MovedInOrder(s0, s, moved, now) && id in s && s[id] <= now' && now <= now'
    requires forall o | o in s :: s[id] <= s[o]
    ensures MovedInOrder(s0, s - {id}, moved + [id], now')
  {
    assert (set o | o in moved + [id]) == (set o | o in moved) + {id};
  }

  // ---- Who asked to be left alone until when ----

  datatype Event = Yielded(id: Id, deadline: nat) | Resumed(id: Id, at: nat)

  /** The deadlines of the coroutines that have yielded and were not resumed since. */
  ghost function Owing(trace: seq<Event>): map<Id, nat> {
    if trace == [] then map[]
    else
      var before := Owing(trace[..|trace| - 1]);
      match trace[|trace| - 1]
      case Yielded(id, d) => before[id := d]
      case Resumed(id, _) => before - {id}
  }

  /** No coroutine was resumed before the time it had asked for. */
  ghost predicate NoneEarly(trace: seq<Event>) {
    forall j | 0 <= j < |trace| && trace[j].Resumed? ::
      trace[j].id in Owing(trace[..j]) ==> Owing(trace[..j])[trace[j].id] <= trace[j].at
  }

  lemma TraceStep(trace: seq<Event>, e: Event)
    requires NoneEarly(trace)
    requires e.Resumed? && e.id in Owing(trace) ==> Owing(trace)[e.id] <= e.at
    ensures NoneEarly(trace + [e])
    ensures Owing(trace + [e]) == if e.Yielded? then Owing(trace)[e.id := e.deadline] else Owing(trace) - {e.id}
  {
    var t := trace + [e];
    assert t[..|trace|] == trace;
    assert forall j | 0 <= j < |trace| :: t[..j] == trace[..j] && t[j] == trace[j];
  }

  /** A coroutine that yields until `d` is not resumed before: its next resume is at or after `d`. */
  lemma {:induction false} NextResumeIsDue(trace: seq<Event>, i: nat, j: nat)
    requires NoneEarly(trace) && i < j < |trace| && trace[i].Yielded? && trace[j].Resumed? && trace[j].id == trace[i].id
    requires forall n | i < n < j :: trace[n].id != trace[i].id
    ensures trace[i].deadline <= trace[j].at
  {
    StillOwing(trace, i, j);
  }

  lemma {:induction false} StillOwing(trace: seq<Event>, i: nat, j: nat)
    requires i < j <= |trace| && trace[i].Yielded? && forall n | i < n < j :: trace[n].id != trace[i].id
    ensures trace[i].id in Owing(trace[..j]) && Owing(trace[..j])[trace[i].id] == trace[i].deadline
  {
    assert trace[..j][..j - 1] == trace[..j - 1];
    if i < j - 1 {
      StillOwing(trace, i, j - 1);
    }
  }

  // ---- What the invariant means ----

  /** Between two calls, every submitted coroutine is exactly once in the ready queue, in the heap, in the table,
      among the finished or among the dropped. */
  ghost predicate InExactlyOnePlace(w: Sched, id: Id) {
    Occurs(w.ready, id) + (if id in w.suspend then 1 else 0) + (if id in w.table then 1 else 0)
    + (if id in w.place && w.place[id] == Finished then 1 else 0)
    + (if id in w.place && w.place[id] == Dropped then 1 else 0) == 1
  }

  /** Its state fits that place. */
  ghost predicate StateFitsPlace(w: Sched, id: Id)
    requires id in w.cos
  {
    var s := w.cos[id];
    && (id in w.ready ==> FitsReady(s, w.now))
    && (id in w.suspend ==> s == Suspend(w.suspend[id]))
    && (id in w.table ==> s.Syscall? && s.phase.SuspendUntil? && (s.phase.deadline, id) in w.timers)
    && (id in w.place && w.place[id] == Finished ==> s.Complete? || s.Error?)
  }

  lemma PlacesAreExact(w: Sched)
    requires Inv(w) && Hands(w) == {}
    ensures forall id | id in w.cos :: InExactlyOnePlace(w, id) && StateFitsPlace(w, id)
  {
    forall id | id in w.cos ensures InExactlyOnePlace(w, id) && StateFitsPlace(w, id) {
      assert Home(w, id);
      assert id in w.ready <==> Occurs(w.ready, id) > 0;
      assert id !in Hands(w);
    }
  }

  /** A coroutine in the table has a timer for exactly the deadline it waits for. */
  lemma ParkedHasTimer(w: Sched, id: Id)
    requires Inv(w) && id in w.table
    ensures id in w.cos && w.cos[id].Syscall? && w.cos[id].phase.SuspendUntil?
    ensures (w.cos[id].phase.deadline, id) in w.timers
  {
    assert Home(w, id);
  }

  /** With no expired suspension and no expired timer left, every deadline still waited for is later than `t`. */
  ghost predicate OnlyFuture(w: Sched, t: nat) {
    && (forall id | id in w.suspend :: w.suspend[id] > t)
    && (forall id | id in w.table ::
          id in w.cos && w.cos[id].Syscall? && w.cos[id].phase.SuspendUntil? && w.cos[id].phase.deadline > t)
  }

  /** The same for all but the coroutines `ids`. */
  ghost predicate OnlyFutureBut(w: Sched, t: nat, ids: set<Id>) {
    && (forall id | id in w.suspend && id !in ids :: w.suspend[id] > t)
    && (forall id | id in w.table && id !in ids ::
          id in w.cos && w.cos[id].Syscall? && w.cos[id].phase.SuspendUntil? && w.cos[id].phase.deadline > t)
  }

  lemma StillFuture(w: Sched, w': Sched, t: nat, ids: set<Id>)
    requires OnlyFuture(w, t) && OnlyNew(w, w', ids)
    ensures OnlyFutureBut(w', t, ids)
  {
  }

  lemma TimersCoverTable(w: Sched, t: nat)
    requires Inv(w)
    requires forall id | id in w.suspend :: w.suspend[id] > t
    requires forall x | x in w.timers :: x.0 > t
    ensures OnlyFuture(w, t)
  {
    forall id | id in w.table
      ensures id in w.cos && w.cos[id].Syscall? && w.cos[id].phase.SuspendUntil? && w.cos[id].phase.deadline > t
    {
      ParkedHasTimer(w, id);
    }
  }

  ghost predicate HasTimerBy(timers: multiset<(nat, Id)>, id: Id, t: nat) {
    exists ts: nat :: (ts, id) in timers && ts <= t
  }

  /** Timers of `w0` have fired until `w`: `late` are the coroutines they took out of the table, each for a timer
      that was due, a timer that has fired leaves nobody in the table, and a timer that is not due stays. */
  ghost predicate Fired(w0: Sched, w: Sched, late: seq<Id>) {
    && w.timers <= w0.timers
    && (forall x | x in w0.timers && x !in w.timers :: x.1 !in w.table)
    && w.table == w0.table - (set id | id in late)
    && (forall x: (nat, Id) | x.0 > w.now :: w.timers[x] == w0.timers[x])
    && forall id | id in late :: id in w0.table && HasTimerBy(w0.timers, id, w.now)
  }

  lemma FiredStart(w: Sched)
    ensures Fired(w, w, [])
  {
  }

  lemma FiredLater(w0: Sched, w: Sched, w': Sched, late: seq<Id>)
    requires Fired(w0, w, late) && w.now <= w'.now && w'.timers == w.timers && w'.table == w.table
    ensures Fired(w0, w', late)
  {
  }

  lemma FiredStep(w0: Sched, w: Sched, w': Sched, late: seq<Id>, t: (nat, Id))
    requires Fired(w0, w, late) && t in w.timers && t.0 <= w'.now && w.now <= w'.now
    requires w'.timers == w.timers - multiset{t} && w'.table == w.table - {t.1}
    ensures Fired(w0, w', late + if t.1 in w.table then [t.1] else [])
  {
    var late' := late + if t.1 in w.table then [t.1] else [];
    assert (set id | id in late') == (set id | id in late) + if t.1 in w.table then {t.1} else {};
    assert t in w0.timers;
    assert t.1 in w.table ==> HasTimerBy(w0.timers, t.1, w'.now);
  }

  /** Why the coroutines `late` are timed out by a pass that first reads the clock at `t` and last at `now`: each
      was in the table and had a timer that was due, and whoever had one due at the first reading is among them. */
  ghost predicate TimedOutFor(table: set<Id>, timers: multiset<(nat, Id)>, late: seq<Id>, t: nat, now: nat) {
    && (forall id | id in late :: id in table && HasTimerBy(timers, id, now))
    && (forall id | id in table && HasTimerBy(timers, id, t) :: id in late)
  }

  lemma FiredForReason(w0: Sched, w: Sched, late: seq<Id>, t: nat)
    requires Fired(w0, w, late) && forall x | x in w.timers :: x.0 > t
    ensures TimedOutFor(w0.table, w0.timers, late, t, w.now)
  {
  }

  /** No deadline and no timer has come by `now`. */
  ghost predicate NothingDue(w: Sched, now: nat) {
    (forall id | id in w.suspend :: w.suspend[id] > now) && (forall x | x in w.timers :: x.0 > now)
  }

  lemma NoneMoved(s0: map<Id, nat>, s: map<Id, nat>, moved: seq<Id>, now: nat)
    requires MovedInOrder(s0, s, moved, now) && forall id | id in s0 :: s0[id] > now
    ensures moved == []
  {
    HeadIsIn(moved);
  }

  lemma HeadIsIn(s: seq<Id>)
    ensures s != [] ==> s[0] in s
  {
  }

  lemma NoneFired(w0: Sched, w: Sched, late: seq<Id>)
    requires Fired(w0, w, late) && forall x | x in w0.timers :: x.0 > w.now
    ensures w.timers == w0.timers
  {
    forall x: (nat, Id) ensures w.timers[x] == w0.timers[x] {
      if x.0 <= w.now {
        assert x !in w0.timers;
      }
    }
  }

  /** Coroutines other than `moved` are in the state they were in. */
  ghost predicate OthersKept(cos: map<Id, CoState>, cos': map<Id, CoState>, moved: seq<Id>) {
    forall id | id in cos && id !in moved :: id in cos' && cos'[id] == cos[id]
  }

  lemma OthersKeptThen(a: map<Id, CoState>, b: map<Id, CoState>, c: map<Id, CoState>, moved: seq<Id>, more: seq<Id>)
    requires OthersKept(a, b, moved) && OthersKept(b, c, more)
    ensures OthersKept(a, c, moved + more)
  {
  }

  /** The deadline a coroutine in the table waits for. */
  ghost function Deadline(w: Sched, id: Id): nat
    requires Inv(w) && id in w.table
  {
    ParkedHasTimer(w, id);
    w.cos[id].phase.deadline
  }

  /** A timer of a coroutine in the table that is earlier than the deadline it waits for now. */
  ghost predicate HasLeftover(w: Sched, id: Id, t: nat)
    requires Inv(w) && id in w.table
  {
    exists ts: nat :: (ts, id) in w.timers && ts <= t && ts < Deadline(w, id)
  }

  /** A coroutine that waits until later than `now` is timed out all the same only if it has a leftover timer that
      is due by `now`, and it is timed out if that timer is due at the first reading. */
  ghost predicate EarlyForLeftover(w: Sched, late: seq<Id>, t: nat, now: nat)
    requires Inv(w)
  {
    forall id | id in w.table ::
      && (Deadline(w, id) > now && id in late ==> HasLeftover(w, id, now))
      && (HasLeftover(w, id, t) ==> id in late)
  }

  lemma EarlyOnlyByLeftover(w: Sched, late: seq<Id>, t: nat, now: nat)
    requires Inv(w) && TimedOutFor(w.table, w.timers, late, t, now) && t <= now
    ensures EarlyForLeftover(w, late, t, now)
  {
    forall id | id in w.table
      ensures Deadline(w, id) > now && id in late ==> HasLeftover(w, id, now)
      ensures HasLeftover(w, id, t) ==> id in late
    {
      hide Inv, Deadline;
      if Deadline(w, id) > now && id in late {
        assert HasTimerBy(w.timers, id, now);
      }
      if HasLeftover(w, id, t) {
        var ts: nat :| (ts, id) in w.timers && ts <= t && ts < Deadline(w, id);
        assert HasTimerBy(w.timers, id, t);
      }
    }
  }

  /** When the whole pass reads one time, a coroutine is timed out before its deadline exactly for a leftover timer. */
  lemma EarlyIffLeftover(w: Sched, late: seq<Id>, now: nat, id: Id)
    requires Inv(w) && TimedOutFor(w.table, w.timers, late, now, now) && id in w.table
    ensures Deadline(w, id) > now ==> (id in late <==> HasLeftover(w, id, now))
    ensures Deadline(w, id) <= now ==> id in late
  {
    EarlyOnlyByLeftover(w, late, now, now);
    ParkedHasTimer(w, id);
    assert Deadline(w, id) <= now ==> HasTimerBy(w.timers, id, now);
  }
}
