/** One scheduler and its coroutines: the ready queue, the heap of suspended coroutines, the table of
    coroutines in a system call with its timers. Which ready coroutine runs next, what a body does and what
    other code submits, resumes or cancels meanwhile is left open. */
module Schedulers {

  import opened Basics
  import opened Clocks
  import opened CoroutineStates
  import opened CoroutineBodies
  import opened ScheduleMoves
  import opened Turns

  lemma {:induction false} Smallest(m: map<Id, nat>) returns (id: Id)
    requires m != map[]
    ensures id in m && forall o | o in m :: m[id] <= m[o]
    decreases |m|
  {
    var k :| k in m;
    var rest := m - {k};
    if rest == map[] {
      assert forall o | o in m :: o == k || o in rest;
      return k;
    }
    var j := Smallest(rest);
    assert forall o | o in m :: o == k || o in rest;
    id := if m[k] <= m[j] then k else j;
  }

  lemma {:induction false} SmallestTimer(m: multiset<(nat, Id)>) returns (t: (nat, Id))
    requires m != multiset{}
    ensures t in m && forall o | o in m :: t.0 <= o.0
    decreases |m|
  {
    t :| t in m;
    var rest := m - multiset{t};
    assert forall o | o in m :: o == t || o in rest;
    if rest != multiset{} {
      var j := SmallestTimer(rest);
      t := if t.0 <= j.0 then t else j;
    }
  }

  /** What other code may do to the scheduler while a body runs. */
  datatype OtherCall = SubmitCall(id: Id) | ResumeCall(id: Id) | CancelCall(id: Id)

  function CancelIds(calls: seq<OtherCall>): set<Id> { set c | c in calls && c.CancelCall? :: c.id }

  /** What `do_schedule` has come to after the rounds it was followed for. */
  datatype Outcome = Returned(left: nat) | StillRunning

  /** A call on the scheduler from outside. */
  datatype Command = Act(call: OtherCall) | Schedule(timeout: nat, rounds: nat)

  class Scheduler {
    const clock: Clock
    var cos: map<Id, CoState>
    var ready: seq<Id>
    var suspend: map<Id, nat>
    var table: set<Id>
    var timers: multiset<(nat, Id)>
    /** `CANCEL_COROUTINES`. */
    var cancels: set<Id>
    /** The thread-local deadlines pushed by `until` and the thread-local marks pushed by `cancel`. */
    var timestamps: seq<nat>
    var cancelMarks: seq<bool>
    ghost var place: map<Id, Place>
    ghost var owed: map<Id, nat>
    /** Every yield with a deadline and every resume so far. */
    ghost var trace: seq<Event>

    ghost function View(): Sched
      reads this, clock
    {
      Sched(cos, ready, suspend, table, timers, place, owed, clock.now)
    }

    static ghost predicate Traced(trace: seq<Event>, owed: map<Id, nat>) { NoneEarly(trace) && owed == Owing(trace) }

    ghost predicate Valid()
      reads this, clock
    {
      Inv(View()) && Traced(trace, owed) && cancelMarks == []
    }

    constructor (clock: Clock)
      ensures Valid() && this.clock == clock && Hands(View()) == {} && timestamps == [] && cancels == {}
      ensures View() == Sched(map[], [], map[], {}, multiset{}, map[], map[], clock.now) && trace == []
    {
      this.clock := clock;
      cos, ready, suspend, table, timers := map[], [], map[], {}, multiset{};
      cancels, timestamps, cancelMarks := {}, [], [];
      place, owed, trace := map[], map[], [];
      new;
      assert forall id :: Home(View(), id);
    }

    method ReadClock() returns (t: nat)
      requires Inv(View())
      modifies clock
      ensures t == clock.now >= old(clock.now) && View() == old(View()).(now := t)
      ensures Sound(old(View()), View())
    {
      hide Inv, Sound, OnlyNew;
      ghost var w := View();
      t := clock.Read();
      AdvanceKeeps(w, t);
    }

    method Submit(id: Id)
      requires Inv(View()) && id !in cos
      modifies this`cos, this`ready, this`place
      ensures Sound(old(View()), View()) && View() == PutReady(old(View()), id, Ready)
    {
      ghost var w := View();
      assert Home(w, id);
      hide Inv, Keeps, OnlyNew;
      PutReadyKeeps(w, id, Ready);
      cos := cos[id := Ready];
      ready := ready + [id];
      place := place[id := InReady];
      NewIsKept(w, View());
    }

    /** An event of the selector: a coroutine in the table becomes ready in phase `Callback`. Its timer stays
        behind. Any other id is ignored. */
    method TryResume(id: Id)
      requires Inv(View())
      modifies this`cos, this`ready, this`place, this`table
      ensures Sound(old(View()), View())
      ensures id !in old(table) ==> View() == old(View())
      ensures id in old(table) ==>
                && id in old(cos) && old(cos)[id].Syscall?
                && View() == PutReady(TakeTable(old(View()), id), id, Syscall(old(cos)[id].name, Callback))
    {
      hide Inv, Keeps, Sound, OnlyNew;
      ghost var w := View();
      SoundStart(w);
      if id in table {
        TakeTableKeeps(w, id);
        table := table - {id};
        place := place[id := InHand];
        match cos[id] {
          case Syscall(name, SuspendUntil(_)) =>
            var o := Attempt(cos[id], ToSyscall(name, Callback), 0);
            assert o == Changed(Syscall(name, Callback));
            PutReadyKeeps(TakeTable(w, id), id, o.state);
            cos := cos[id := o.state];
          case _ => assert false;
        }
        ready := ready + [id];
        place := place[id := InReady];
        SoundMove(w, TakeTable(w, id), View(), id);
      }
    }

    method TryCancel(id: Id)
      modifies this`cancels
      ensures cancels == old(cancels) + {id}
    {
      cancels := cancels + {id};
    }

    /** An expired coroutine leaves the heap for the tail of the ready queue; its own check of the clock, made
        later, cannot fail. */
    method MoveExpired(id: Id)
      requires Inv(View()) && id in suspend && suspend[id] <= clock.now
      modifies this`cos, this`ready, this`suspend, this`place, clock
      ensures Sound(old(View()), View())
      ensures clock.now >= old(clock.now)
      ensures View() == PutReady(TakeHeap(old(View()).(now := clock.now), id), id, Ready)
    {
      hide Inv, Keeps, Sound, OnlyNew;
      var now := ReadClock();
      ghost var w := View();
      assert Inv(w) by { SoundParts(old(View()), w); }
      TakeHeapKeeps(w, id);
      suspend := suspend - {id};
      place := place[id := InHand];
      var o := Attempt(cos[id], ToReady, now);
      assert o == Changed(Ready);
      PutReadyKeeps(TakeHeap(w, id), id, Ready);
      cos := cos[id := o.state];
      ready := ready + [id];
      place := place[id := InReady];
      SoundMove(w, TakeHeap(w, id), View(), id);
      SoundThen(old(View()), w, View());
    }

    /** One turn of the first loop of `check_ready`: look at a coroutine with the earliest deadline, read the
        clock, and make it ready unless its deadline is still to come. */
    method WakeEarliest() returns (woke: bool, ghost id: Id, ghost reading: nat)
      requires Inv(View()) && suspend != map[]
      modifies this`cos, this`ready, this`suspend, this`place, clock
      ensures Sound(old(View()), View())
      ensures id in old(suspend) && forall o | o in old(suspend) :: old(suspend)[id] <= old(suspend)[o]
      ensures old(clock.now) <= reading <= clock.now
      ensures woke <==> old(suspend)[id] <= reading
      ensures woke ==> ready == old(ready) + [id] && suspend == old(suspend) - {id} && OthersKept(old(cos), cos, [id])
      ensures !woke ==> View() == old(View()).(now := clock.now)
    {
      hide Inv, Sound, OnlyNew;
      ghost var least := Smallest(suspend);
      var top :| top in suspend && forall o | o in suspend :: suspend[top] <= suspend[o];
      id := top;
      var now := ReadClock();
      reading := now;
      woke := suspend[top] <= now;
      if woke {
        ghost var w := View();
        SoundParts(old(View()), w);
        MoveExpired(top);
        SoundThen(old(View()), w, View());
      }
    }

    /** The first loop of `check_ready`. `first` is its first clock reading, if it made one; `moved` are the
        coroutines it made ready, in the order of their deadlines. */
    method WakeSuspended() returns (ghost first: Option<nat>, ghost moved: seq<Id>)
      requires Inv(View())
      modifies this`cos, this`ready, this`suspend, this`place, clock
      ensures Sound(old(View()), View())
      ensures ready == old(ready) + moved && MovedInOrder(old(suspend), suspend, moved, clock.now)
      ensures first == None ==> clock.now == old(clock.now) && suspend == map[]
      ensures first.Some? ==>
                old(clock.now) <= first.value <= clock.now && forall id | id in suspend :: suspend[id] > first.value
      ensures OthersKept(old(cos), cos, moved) && (moved == [] ==> View() == old(View()).(now := clock.now))
    {
      hide Inv, Sound, MovedInOrder, OthersKept, OnlyNew;
      first, moved := None, [];
      SoundStart(View());
      MovedStart(suspend, clock.now);
      SameAreKept(cos);
      var woke := true;
      while suspend != map[] && woke
        invariant Sound(old(View()), View())
        invariant ready == old(ready) + moved && MovedInOrder(old(suspend), suspend, moved, clock.now)
        invariant first == None ==> clock.now == old(clock.now) && woke
        invariant first.Some? ==> old(clock.now) <= first.value <= clock.now
        invariant !woke ==> forall id | id in suspend :: suspend[id] > first.value
        invariant OthersKept(old(cos), cos, moved) && (moved == [] ==> View() == old(View()).(now := clock.now))
        decreases |suspend|, woke
      {
        ghost var w := View();
        SoundParts(old(View()), w);
        ghost var id, reading;
        woke, id, reading := WakeEarliest();
        SoundThen(old(View()), w, View());
        first := if first == None then Some(reading) else first;
        if woke {
          MovedStep(old(suspend), w.suspend, moved, w.now, id, clock.now);
          Append(old(ready), moved, id);
          OthersKeptThen(old(cos), w.cos, cos, moved, [id]);
          moved := moved + [id];
          assert |w.suspend - {id}| < |w.suspend|;
        } else {
          MovedLater(old(suspend), w.suspend, moved, w.now, clock.now);
        }
      }
    }

    /** A due timer: if its coroutine is still in the table it becomes ready in phase `Timeout`, whatever
        deadline it waits for now; otherwise the timer was left behind and is just dropped. */
    method FireTimer(t: (nat, Id))
      requires Inv(View()) && t in timers
      modifies this`cos, this`ready, this`table, this`timers, this`place
      ensures Sound(old(View()), View())
      ensures timers == old(timers) - multiset{t}
      ensures t.1 in old(table) ==>
                && t.1 in old(cos) && old(cos)[t.1].Syscall?
                && View().(timers := old(timers))
                   == PutReady(TakeTable(old(View()), t.1), t.1, Syscall(old(cos)[t.1].name, Timeout))
      ensures t.1 !in old(table) ==> View().(timers := old(timers)) == old(View())
    {
      hide Inv, Keeps, Sound, OnlyNew;
      ghost var w := View();
      SoundStart(w);
      timers := timers - multiset{t};
      var id := t.1;
      if id in table {
        TakeTableKeeps(w, id);
        table := table - {id};
        place := place[id := InHand];
        match cos[id] {
          case Syscall(name, SuspendUntil(_)) =>
            var o := Attempt(cos[id], ToSyscall(name, Timeout), 0);
            assert o == Changed(Syscall(name, Timeout));
            PutReadyKeeps(TakeTable(w, id), id, o.state);
            cos := cos[id := o.state];
          case _ => assert false;
        }
        ready := ready + [id];
        place := place[id := InReady];
        SoundMove(w, TakeTable(w, id), View().(timers := w.timers), id);
      }
      SoundParts(w, View().(timers := w.timers));
      DropTimerKeeps(View().(timers := w.timers), t);
      SoundThen(w, View().(timers := w.timers), View());
    }

    /** One turn of the second loop of `check_ready`. */
    method FireEarliest() returns (fired: bool, ghost t: (nat, Id), ghost reading: nat, ghost add: seq<Id>)
      requires Inv(View()) && timers != multiset{}
      modifies this`cos, this`ready, this`table, this`timers, this`place, clock
      ensures Sound(old(View()), View()) && suspend == old(suspend)
      ensures t in old(timers) && forall o | o in old(timers) :: t.0 <= o.0
      ensures old(clock.now) <= reading <= clock.now
      ensures fired <==> t.0 <= reading
      ensures fired ==>
                && timers == old(timers) - multiset{t} && |timers| < |old(timers)| && table == old(table) - {t.1}
                && ready == old(ready) + add && OthersKept(old(cos), cos, add)
      ensures add == if fired && t.1 in old(table) then [t.1] else []
      ensures !fired ==> View() == old(View()).(now := clock.now) && forall o | o in timers :: o.0 > reading
    {
      hide Inv, Sound, OnlyNew;
      ghost var least := SmallestTimer(timers);
      var top :| top in timers && forall o | o in timers :: top.0 <= o.0;
      t := top;
      var now := ReadClock();
      reading := now;
      fired := top.0 <= now;
      add := if fired && top.1 in table then [top.1] else [];
      if fired {
        ghost var w := View();
        SoundParts(old(View()), w);
        FireTimer(top);
        SoundThen(old(View()), w, View());
      }
    }

    /** The second loop of `check_ready`; `late` are the coroutines it took out of the table. */
    method WakeTimedOut() returns (ghost first: Option<nat>, ghost late: seq<Id>)
      requires Inv(View())
      modifies this`cos, this`ready, this`table, this`timers, this`place, clock
      ensures Sound(old(View()), View()) && suspend == old(suspend)
      ensures ready == old(ready) + late && Fired(old(View()), View(), late)
      ensures first == None ==> clock.now == old(clock.now) && timers == multiset{}
      ensures first.Some? ==> old(clock.now) <= first.value <= clock.now && forall x | x in timers :: x.0 > first.value
      ensures OthersKept(old(cos), cos, late)
      ensures |timers| == |old(timers)| ==> View() == old(View()).(now := clock.now)
    {
      hide Inv, Sound, Fired, OthersKept, OnlyNew, Keeps, Hands;
      first, late := None, [];
      SoundStart(View());
      FiredStart(View());
      SameAreKept(cos);
      var fired := true;
      while timers != multiset{} && fired
        invariant Sound(old(View()), View()) && suspend == old(suspend)
        invariant ready == old(ready) + late && Fired(old(View()), View(), late)
        invariant first == None ==> clock.now == old(clock.now) && fired
        invariant first.Some? ==> old(clock.now) <= first.value <= clock.now
        invariant !fired ==> forall x | x in timers :: x.0 > first.value
        invariant OthersKept(old(cos), cos, late)
        invariant |timers| <= |old(timers)|
        invariant |timers| == |old(timers)| ==> View() == old(View()).(now := clock.now)
        decreases |timers|, fired
      {
        ghost var w := View();
        SoundParts(old(View()), w);
        ghost var t, reading, add;
        fired, t, reading, add := FireEarliest();
        SoundThen(old(View()), w, View());
        first := if first == None then Some(reading) else first;
        if fired {
          AppendAll(old(ready), late, add);
          FiredStep(old(View()), w, View(), late, t);
          OthersKeptThen(old(cos), w.cos, cos, late, add);
          late := late + add;
        } else {
          FiredLater(old(View()), w, View(), late);
        }
      }
    }

    /** `check_ready`. Afterwards nothing that is still parked has a deadline at or before `t`, its first
        clock reading; the suspended coroutines it wakes join the ready queue in the order of their
        deadlines, the timed-out ones after them, each for a timer that was due. Timers that are not due stay,
        and so does everything if nothing is due. It never fails. */
    method CheckReady() returns (ghost t: nat, ghost moved: seq<Id>, ghost late: seq<Id>)
      requires Inv(View())
      modifies this`cos, this`ready, this`suspend, this`table, this`timers, this`place, clock
      ensures Sound(old(View()), View())
      ensures ready == old(ready) + moved + late && OthersKept(old(cos), cos, moved + late)
      ensures MovedInOrder(old(suspend), suspend, moved, clock.now) && table == old(table) - (set id | id in late)
      ensures old(clock.now) <= t <= clock.now && OnlyFuture(View(), t)
      ensures TimedOutFor(old(table), old(timers), late, t, clock.now)
      ensures old(Inv(View())) && EarlyForLeftover(old(View()), late, t, clock.now)
      ensures forall x: (nat, Id) | x.0 > clock.now :: timers[x] == old(timers)[x]
      ensures NothingDue(old(View()), clock.now) ==> View() == old(View()).(now := clock.now)
    {
      hide Inv, Sound, MovedInOrder, TimedOutFor, OthersKept, EarlyForLeftover, OnlyNew;
      ghost var a, b;
      a, moved := WakeSuspended();
      ghost var w := View();
      SoundParts(old(View()), w);
      b, late := WakeTimedOut();
      SoundThen(old(View()), w, View());
      SoundParts(old(View()), View());
      MovedLater(old(suspend), suspend, moved, w.now, clock.now);
      OthersKeptThen(old(cos), w.cos, cos, moved, late);
      t := if a.Some? then a.value else if b.Some? then b.value else clock.now;
      TimersCoverTable(View(), t);
      FiredForReason(w, View(), late, t);
      EarlyOnlyByLeftover(old(View()), late, t, clock.now);
      if NothingDue(old(View()), clock.now) {
        NoneMoved(old(suspend), suspend, moved, clock.now);
        NoneFired(w, View(), late);
      }
    }

    static lemma SameAreKept(cos: map<Id, CoState>)
      ensures OthersKept(cos, cos, [])
    {
    }

    /** Other code acts while coroutine `id` runs. */
    method OthersAct(calls: seq<OtherCall>, id: Id)
      requires Inv(View()) && id in Hands(View())
      modifies this`cos, this`ready, this`table, this`place, this`cancels
      ensures Sound(old(View()), View())
      ensures id in cos && id in old(cos) && cos[id] == old(cos)[id]
      ensures calls == [] ==> View() == old(View())
      ensures cancels == old(cancels) + CancelIds(calls)
    {
      hide Inv, Sound, OnlyNew;
      InHandIsKnown(View(), id);
      SoundStart(View());
      for n := 0 to |calls|
        invariant Sound(old(View()), View())
        invariant id in cos && cos[id] == old(cos)[id]
        invariant n == 0 ==> View() == old(View())
        invariant cancels == old(cancels) + CancelIds(calls[..n])
      {
        ghost var w := View();
        SoundParts(old(View()), w);
        InHandIsKnown(w, id);
        assert calls[..n + 1] == calls[..n] + [calls[n]];
        match calls[n] {
          case SubmitCall(o) =>
            if o !in cos {
              Submit(o);
              SoundThen(old(View()), w, View());
            }
          case ResumeCall(o) =>
            TryResume(o);
            SoundThen(old(View()), w, View());
          case CancelCall(o) => TryCancel(o);
        }
      }
      assert calls[..|calls|] == calls;
    }

    /** The switch back from a body: `raw_resume` after the coroutine has yielded or returned. */
    method BodyEnds(s1: CoState, end: End) returns (st: CoState)
      requires MayEnd(s1, end) && cancelMarks == []
      modifies this`timestamps, this`cancelMarks
      ensures cancelMarks == [] && Ended(s1, end, old(timestamps), st, timestamps)
    {
      match end {
        case Return(r) =>
          var o := Attempt(s1, ToComplete(r), 0);
          assert o.Changed?;
          return o.state;
        case Panic(m) =>
          var o := Attempt(s1, ToError(m), 0);
          assert o.Changed?;
          return o.state;
        case YieldUntil(d) => timestamps := [d] + timestamps;
        case YieldCancel => cancelMarks := [true] + cancelMarks;
        case YieldPlain =>
      }
      match s1 {
        case Running =>
          var cancelled := cancelMarks != [] && cancelMarks[0];
          cancelMarks := if cancelMarks == [] then [] else cancelMarks[1..];
          if cancelled {
            var o := Attempt(s1, ToCancelled, 0);
            assert o == Changed(Cancelled);
            return Cancelled;
          }
          var ts := if timestamps == [] then 0 else timestamps[0];
          timestamps := if timestamps == [] then [] else timestamps[1..];
          var o := Attempt(s1, ToSuspend(ts), 0);
          assert o == Changed(Suspend(ts));
          return Suspend(ts);
        case Syscall(_, _) => return s1;
        case _ => assert false;
      }
    }

    /** Replaces the state of a coroutine in hand. */
    method SetState(id: Id, s: CoState)
      requires Inv(View()) && id in Hands(View())
      modifies this`cos
      ensures Sound(old(View()), View()) && cos == old(cos)[id := s]
    {
      hide Inv, Sound, Keeps, OnlyNew;
      ghost var w := View();
      InHandIsKnown(w, id);
      PutAwayKeeps(w, id, s, InHand);
      assert w.place[id := InHand] == w.place;
      cos := cos[id := s];
      SoundSame(w, View());
    }

    static lemma ReadyRuns(s: CoState, t: nat, now: nat)
      requires FitsReady(s, t) && t <= now
      ensures var o := Attempt(s, ToRunning, now);
              && o != CoroutineStates.Refused
              && var s' := After(s, o); s' == Running || (s'.Syscall? && (s'.phase == Callback || s'.phase == Timeout))
    {
    }

    /** The way into the body: changing to running is never refused, and what was owed is due. */
    method StartRunning(id: Id) returns (s: CoState)
      requires Inv(View()) && Traced(trace, owed) && id in Hands(View())
      requires id in cos && FitsReady(cos[id], clock.now) && (id in owed ==> owed[id] <= clock.now)
      modifies this`cos, this`owed, this`trace, clock
      ensures Sound(old(View()), View()) && Traced(trace, owed) && clock.now >= old(clock.now)
      ensures s == Running || (s.Syscall? && (s.phase == Callback || s.phase == Timeout))
      ensures s == After(old(cos)[id], Attempt(old(cos)[id], ToRunning, clock.now))
      ensures View() == old(View()).(cos := cos, owed := owed, now := clock.now)
      ensures cos == old(cos)[id := s] && owed == old(owed) - {id}
      ensures trace == old(trace) + [Resumed(id, clock.now)]
    {
      hide Inv, Sound, Keeps, Hands, Attempt, After, FitsReady, NoneEarly, Owing, OnlyNew;
      ghost var w0 := View();
      var now := ReadClock();
      ghost var w1 := View();
      SoundParts(w0, w1);
      ReadyRuns(cos[id], old(clock.now), now);
      var o := Attempt(cos[id], ToRunning, now);
      assert o != CoroutineStates.Refused;
      s := After(cos[id], o);
      TraceStep(trace, Resumed(id, now));
      trace := trace + [Resumed(id, now)];
      SetState(id, s);
      ghost var w2 := View();
      SoundThen(w0, w1, w2);
      SoundParts(w0, w2);
      InHandIsKnown(w2, id);
      ForgetOwedKeeps(w2, id);
      owed := owed - {id};
      SoundThen(w0, w2, View());
    }

    /** A legal body runs from state `s0`, other code acts meanwhile, and the body switches back. */
    method RunBody(id: Id, s0: CoState, body: Body, calls: seq<OtherCall>) returns (st: CoState)
      requires Inv(View()) && cancelMarks == [] && id in Hands(View())
      requires id in cos && cos[id] == s0 && LegalBody(s0, body)
      modifies this`cos, this`ready, this`table, this`place, this`cancels, this`timestamps, this`cancelMarks
      ensures Sound(old(View()), View()) && cancelMarks == []
      ensures id in cos && cos[id] == st
      ensures Ended(AfterAll(s0, body.own), body.end, old(timestamps), st, timestamps)
      ensures calls == [] ==> View() == old(View()).(cos := old(cos)[id := st])
      ensures cancels == old(cancels) + CancelIds(calls)
    {
      hide Inv, Sound, Keeps, Ended, Hands, AfterAll, OnlyNew;
      ghost var w0 := View();
      OthersAct(calls, id);
      ghost var w1 := View();
      st := BodyEnds(AfterAll(s0, body.own), body.end);
      SoundParts(w0, w1);
      SetState(id, st);
      SoundThen(w0, w1, View());
    }

    /** `resume_with`: the coroutine in hand becomes running, or stays in the wake-up phase of its call, its body
        runs with any other code acting meanwhile, and `st` is the state it comes back in. */
    method Resume(id: Id) returns (st: CoState, ghost turn: Turn)
      requires Inv(View()) && Traced(trace, owed) && cancelMarks == [] && id in Hands(View())
      requires id in cos && FitsReady(cos[id], clock.now) && (id in owed ==> owed[id] <= clock.now)
      modifies this`cos, this`ready, this`table, this`place, this`owed, this`trace
      modifies this`cancels, this`timestamps, this`cancelMarks, clock
      ensures Sound(old(View()), View()) && Traced(trace, owed) && cancelMarks == []
      ensures old(clock.now) <= turn.at <= clock.now
      ensures id in cos && cos[id] == st && id !in owed
      ensures turn.id == id && turn.head == Head(old(timestamps)) && MayEnd(turn.from, turn.end)
      ensures Ended(turn.from, turn.end, old(timestamps), st, timestamps)
      ensures trace == old(trace) + [Resumed(id, turn.at)] && cancels == old(cancels) + turn.marked
    {
      hide Inv, Sound, Keeps, Ended, Hands, AfterAll, FitsReady, Traced, OnlyNew;
      ghost var w0 := View();
      ghost var head := Head(timestamps);
      var s0 := StartRunning(id);
      ghost var at := clock.now;
      ghost var w1 := View();
      SoundParts(w0, w1);
      SomeLegalBody(s0);
      var body: Body :| LegalBody(s0, body);
      var calls: seq<OtherCall> := *;
      turn := Turn(id, at, AfterAll(s0, body.own), body.end, head, CancelIds(calls));
      st := RunBody(id, s0, body, calls);
      SoundThen(w0, w1, View());
    }

    /** Notes what a yielding coroutine has asked for. */
    ghost method Owe(id: Id, ts: nat)
      requires Inv(View()) && id in Hands(View()) && Traced(trace, owed)
      modifies this`owed, this`trace
      ensures Sound(old(View()), View()) && Traced(trace, owed)
      ensures owed == old(owed)[id := ts] && trace == old(trace) + [Yielded(id, ts)]
    {
      hide Inv, Keeps, Sound, OnlyNew;
      InHandIsKnown(View(), id);
      OweKeeps(View(), id, ts);
      TraceStep(trace, Yielded(id, ts));
      owed, trace := owed[id := ts], trace + [Yielded(id, ts)];
    }

    /** A coroutine that has suspended itself until `ts` is in the heap exactly if that time is still to come, and
        otherwise at the tail of the ready queue. */
    static ghost predicate Parked(w: Sched, id: Id, ts: nat) {
      if ts > w.now then id in w.suspend && w.suspend[id] == ts
      else id !in w.suspend && w.ready != [] && w.ready[|w.ready| - 1] == id
    }

    static lemma NewAtMost(w: Sched, w': Sched, id: Id)
      requires OnlyNew(w, w', {})
      ensures OnlyNew(w, w', {id})
    {
    }

    /** A coroutine suspended until `ts` goes into the heap, or to the tail of the ready queue if that time
        has come already. */
    method ParkSuspended(id: Id, ts: nat)
      requires Inv(View()) && id in Hands(View()) && id in cos && cos[id] == Suspend(ts) && Traced(trace, owed)
      modifies this`ready, this`suspend, this`place, this`owed, this`trace, clock
      ensures Inv(View()) && Keeps(old(View()), View()) && Hands(View()) == Hands(old(View())) - {id}
      ensures clock.now >= old(clock.now) && id in place && !Away(place[id]) && OnlyNew(old(View()), View(), {id})
      ensures Traced(trace, owed) && trace == old(trace) + [Yielded(id, ts)]
      ensures if id in suspend then suspend[id] == ts > clock.now else ts <= clock.now && ready == old(ready) + [id]
      ensures Parked(View(), id, ts)
    {
      hide Inv, Keeps, Sound, Hands, Traced, OnlyNew;
      ghost var w := View();
      Owe(id, ts);
      ghost var w1 := View();
      SoundParts(w, w1);
      var now := ReadClock();
      ghost var w2 := View();
      SoundThen(w, w1, w2);
      SoundParts(w, w2);
      InHandIsKnown(w2, id);
      assert cos[id := Suspend(ts)] == cos && owed[id := ts] == owed;
      if ts > now {
        PutHeapKeeps(w2, id, ts);
        suspend := suspend[id := ts];
        place := place[id := InHeap];
      } else {
        PutReadyKeeps(w2, id, Suspend(ts));
        ready := ready + [id];
        place := place[id := InReady];
        NewAtMost(w2, View(), id);
      }
      OnlyNewThen(w, w2, View(), {}, {id});
      assert {} + {id} == {id};
      KeepsTransitive(w, w2, View());
    }

    /** What `do_schedule` does with a coroutine that has come back: into the table with a timer, into the heap,
        to the tail of the ready queue, or away. A result is never overwritten. */
    method Dispatch(id: Id, st: CoState, results: map<Id, CoState>) returns (results': map<Id, CoState>)
      requires Inv(View()) && id in Hands(View()) && id in cos && cos[id] == st && id !in owed && CameBack(st)
      requires id !in results && Traced(trace, owed)
      modifies this`ready, this`suspend, this`table, this`timers, this`place, this`owed, this`trace, clock
      ensures Inv(View()) && Keeps(old(View()), View()) && Hands(View()) == Hands(old(View())) - {id}
      ensures cos == old(cos) && clock.now >= old(clock.now) && id in place
      ensures Traced(trace, owed) && trace == old(trace) + if st.Suspend? then [Yielded(id, st.deadline)] else []
      ensures results' == if st.Complete? || st.Error? then results[id := st] else results
      ensures place[id] == Finished <==> st.Complete? || st.Error?
      ensures place[id] == Dropped <==> st == Cancelled
      ensures OnlyNew(old(View()), View(), {id})
      ensures st.Syscall? ==> View() == PutTable(old(View()), id, st.name, st.phase.deadline)
      ensures st.Suspend? ==> Parked(View(), id, st.deadline)
    {
      hide Inv, Keeps, Hands, Traced, Parked, OnlyNew;
      ghost var w := View();
      InHandIsKnown(w, id);
      assert cos[id := st] == cos && trace + [] == trace;
      results' := results;
      match st {
        case Syscall(name, phase) =>
          PutTableKeeps(w, id, name, phase.deadline);
          table := table + {id};
          timers := timers + multiset{(phase.deadline, id)};
          place := place[id := InTable];
        case Suspend(ts) => ParkSuspended(id, ts);
        case Cancelled =>
          PutAwayKeeps(w, id, st, Dropped);
          place := place[id := Dropped];
        case Complete(_) =>
          PutAwayKeeps(w, id, st, Finished);
          place := place[id := Finished];
          results' := results[id := st];
        case Error(_) =>
          PutAwayKeeps(w, id, st, Finished);
          place := place[id := Finished];
          results' := results[id := st];
        case _ => assert false;
      }
    }

    /** The turns were taken between the two readings of the clock. */
    static ghost predicate TurnsWithin(turns: seq<Turn>, from: nat, to: nat) {
      forall t | t in turns :: from <= t.at <= to
    }

    static ghost predicate NewlyFinished(w0: Sched, w: Sched, id: Id) {
      id in w.place && id in w.cos && w.place[id] == Finished && !(id in w0.place && w0.place[id] == Finished)
    }

    /** The results are those of exactly the coroutines that have finished since `w0`. */
    static ghost predicate ResultsMatch(w0: Sched, w: Sched, results: map<Id, CoState>) {
      && (forall id :: id in results <==> NewlyFinished(w0, w, id))
      && (forall id | id in results :: results[id] == w.cos[id])
    }

    static lemma KeepsResults(w0: Sched, w: Sched, w': Sched, results: map<Id, CoState>)
      requires ResultsMatch(w0, w, results) && Keeps(w, w') && OnlyNew(w, w', {}) && Inv(w) && Inv(w')
      ensures ResultsMatch(w0, w', results)
    {
      forall id ensures NewlyFinished(w0, w, id) <==> NewlyFinished(w0, w', id) {
        assert Home(w, id) && Home(w', id);
      }
    }

    /** The coroutine in hand is put away; if it is finished its result is added. */
    static lemma ResultsAfter(w0: Sched, w: Sched, w': Sched, results: map<Id, CoState>, id: Id)
      requires ResultsMatch(w0, w, results) && Keeps(w0, w) && Keeps(w, w') && OnlyNew(w, w', {id})
      requires Inv(w0) && Inv(w) && Inv(w') && id in Hands(w) && id in w'.place && id in w'.cos
      ensures id !in results
      ensures ResultsMatch(w0, w', if w'.place[id] == Finished then results[id := w'.cos[id]] else results)
    {
      assert Home(w0, id) && Home(w, id);
      forall o | o != id ensures NewlyFinished(w0, w, o) <==> NewlyFinished(w0, w', o) {
        assert Home(w, o) && Home(w', o);
      }
      assert !NewlyFinished(w0, w, id);
      hide Inv, OnlyNew, Home;
    }

    static lemma NotYet(w0: Sched, w: Sched, results: map<Id, CoState>, id: Id)
      requires ResultsMatch(w0, w, results) && id in Hands(w)
      ensures id !in results
    {
      assert !NewlyFinished(w0, w, id);
    }

    /** The `n`-th ready coroutine is taken. */
    method Take(n: nat) returns (id: Id)
      requires Inv(View()) && Hands(View()) == {} && n < |ready|
      modifies this`ready, this`place
      ensures Inv(View()) && Keeps(old(View()), View()) && Hands(View()) == {id} && OnlyNew(old(View()), View(), {})
      ensures id == old(ready)[n] && View() == TakeReady(old(View()), n)
      ensures id in cos && FitsReady(cos[id], clock.now) && (id in owed ==> owed[id] <= clock.now)
    {
      hide Inv, Keeps, OnlyNew;
      id := ready[n];
      TakeReadyKeeps(View(), n);
      ready := Without(ready, n);
      place := place[id := InHand];
    }

    /** Some ready coroutine is taken; which one is up to the queue. */
    method TakeNext() returns (id: Id)
      requires Inv(View()) && Hands(View()) == {} && ready != []
      modifies this`ready, this`place
      ensures Inv(View()) && Keeps(old(View()), View()) && Hands(View()) == {id} && id in old(ready)
      ensures OnlyNew(old(View()), View(), {}) && cos == old(cos)
      ensures id in cos && FitsReady(cos[id], clock.now) && (id in owed ==> owed[id] <= clock.now)
    {
      hide Inv, Keeps, OnlyNew;
      assert 0 < |ready|;
      var n: nat :| n < |ready|;
      id := Take(n);
    }

    /** The cancel set: a coroutine that is taken while its id is in it is dropped, once. */
    method DropCancelled(id: Id)
      requires Inv(View()) && id in Hands(View()) && id in cancels
      modifies this`cancels, this`place
      ensures Inv(View()) && Keeps(old(View()), View()) && Hands(View()) == Hands(old(View())) - {id}
      ensures cancels == old(cancels) - {id} && id in place && place[id] == Dropped
      ensures OnlyNew(old(View()), View(), {id})
    {
      hide Inv, Keeps, OnlyNew;
      InHandIsKnown(View(), id);
      PutAwayKeeps(View(), id, cos[id], Dropped);
      assert cos[id := cos[id]] == cos;
      cancels := cancels - {id};
      place := place[id := Dropped];
    }

    /** The taken coroutine is resumed and put where it belongs. The trace gains its resume and, if it suspended
        itself, the time it asked for. */
    method RunTaken(id: Id, results: map<Id, CoState>, ghost w0: Sched)
      returns (results': map<Id, CoState>, ghost turn: Turn)
      requires Valid() && Hands(View()) == {id} && Inv(w0) && Keeps(w0, View()) && ResultsMatch(w0, View(), results)
      requires id in cos && FitsReady(cos[id], clock.now) && (id in owed ==> owed[id] <= clock.now)
      modifies this, clock
      ensures Valid() && Hands(View()) == {} && Keeps(old(View()), View())
      ensures ResultsMatch(w0, View(), results') && old(clock.now) <= turn.at <= clock.now
      ensures turn.id == id && turn.head == Head(old(timestamps)) && trace == old(trace) + EventsOf(turn)
      ensures Asked(turn).Some? ==> Parked(View(), id, Asked(turn).value)
      ensures cancels == old(cancels) + turn.marked
      ensures OnlyNew(old(View()), View(), {id}) && LeftFor(old(View()), View(), [turn], {})
      ensures id in results' <==> Final(turn).Some? && Final(turn) != Some(Cancelled)
      ensures turn.from == Running && turn.end == YieldPlain ==>
                (id in suspend <==> old(timestamps) != [] && old(timestamps)[0] > clock.now)
    {
      hide Inv, Keeps, Sound, Traced, Ended, Hands, FitsReady, CameBack, OnlyNew, ResultsMatch, LeftFor, Parked;
      hide Final;
      ghost var w := View();
      var st;
      st, turn := Resume(id);
      ghost var w1 := View();
      SoundParts(w, w1);
      KeepsTransitive(w0, w, w1);
      KeepsResults(w0, w, w1, results);
      InHandIsKnown(w1, id);
      NotYet(w0, w1, results, id);
      EndedComesBack(turn.from, turn.end, old(timestamps), st, timestamps);
      EndedAsks(turn, old(timestamps), st, timestamps);
      results' := Dispatch(id, st, results);
      KeepsTransitive(w, w1, View());
      OnlyNewThen(w, w1, View(), {}, {id});
      assert {} + {id} == {id};
      ResultsAfter(w0, w1, View(), results, id);
      OneLeft(w, View(), turn);
      WhereParked(View(), turn, old(timestamps));
      assert id in results' <==> st.Complete? || st.Error?;
    }

    static lemma WhereParked(w: Sched, turn: Turn, timestamps: seq<nat>)
      requires turn.head == Head(timestamps) && (Asked(turn).Some? ==> Parked(w, turn.id, Asked(turn).value))
      ensures turn.from == Running && turn.end == YieldPlain ==>
                (turn.id in w.suspend <==> timestamps != [] && timestamps[0] > w.now)
    {
    }

    static lemma OneLeft(w: Sched, w': Sched, turn: Turn)
      requires OnlyNew(w, w', {turn.id}) && turn.id in w'.cos && turn.id in w'.place
      requires Final(turn) == if w'.cos[turn.id].Terminal() then Some(w'.cos[turn.id]) else None
      requires w'.place[turn.id] == Finished <==> w'.cos[turn.id].Complete? || w'.cos[turn.id].Error?
      requires w'.place[turn.id] == Dropped <==> w'.cos[turn.id] == Cancelled
      ensures LeftFor(w, w', [turn], {})
    {
      assert turn in [turn];
    }

    static lemma EndedAsks(turn: Turn, timestamps: seq<nat>, st: CoState, timestamps': seq<nat>)
      requires MayEnd(turn.from, turn.end) && turn.head == Head(timestamps)
      requires Ended(turn.from, turn.end, timestamps, st, timestamps')
      ensures Asked(turn) == if st.Suspend? then Some(st.deadline) else None
      ensures Final(turn) == if st.Terminal() then Some(st) else None
    {
    }

    /** An id that was put into the cancel set is in it still, or its coroutine was dropped. */
    static ghost predicate CancelledOr(ids: set<Id>, cancels: set<Id>, place: map<Id, Place>) {
      forall id | id in ids :: id in cancels || (id in place && place[id] == Dropped)
    }

    static lemma CancelsKept(ids: set<Id>, cancels: set<Id>, w: Sched, cancels': set<Id>, w': Sched)
      requires Inv(w) && CancelledOr(ids, cancels, w.place)
      requires Keeps(w, w') && CancelledOr(cancels, cancels', w'.place)
      ensures CancelledOr(ids, cancels', w'.place)
    {
      forall id | id in ids ensures id in cancels' || (id in w'.place && w'.place[id] == Dropped) {
        assert Home(w, id);
      }
    }

    /** One round of `do_schedule` after the clock and `check_ready`: some ready coroutine is taken; if it is in the
        cancel set it is dropped, otherwise it has its turn. */
    method RunOne(results: map<Id, CoState>, ghost w0: Sched)
      returns (results': map<Id, CoState>, ghost id: Id, ghost turns: seq<Turn>)
      requires Valid() && Hands(View()) == {} && ready != []
      requires Inv(w0) && Keeps(w0, View()) && ResultsMatch(w0, View(), results)
      modifies this, clock
      ensures Valid() && Hands(View()) == {} && Keeps(old(View()), View())
      ensures ResultsMatch(w0, View(), results') && clock.now >= old(clock.now)
      ensures id in old(ready) && OnlyNew(old(View()), View(), {id})
      ensures if id in old(cancels)
              then turns == [] && cancels == old(cancels) - {id} && id in place && place[id] == Dropped
              else |turns| == 1 && turns[0].id == id && cancels == old(cancels) + turns[0].marked
      ensures TurnsWithin(turns, old(clock.now), clock.now) && trace == old(trace) + AllEvents(turns)
      ensures forall t | t in turns :: Asked(t).Some? ==> Parked(View(), t.id, Asked(t).value)
      ensures LeftFor(old(View()), View(), turns, old(cancels))
    {
      hide Inv, Keeps, Traced, Hands, FitsReady, Parked, ResultsMatch, AllEvents, EventsOf, TurnsWithin, OnlyNew;
      hide LeftFor;
      NoTurns(old(clock.now));
      ghost var w := View();
      var taken := TakeNext();
      id := taken;
      ghost var w1 := View();
      KeepsTransitive(w0, w, w1);
      KeepsResults(w0, w, w1, results);
      if taken in cancels {
        DropCancelled(taken);
        results', turns := results, [];
        InHandIsKnown(w1, taken);
        ResultsAfter(w0, w1, View(), results, taken);
        OneDropped(w1, View(), taken, old(cancels));
      } else {
        ghost var turn;
        results', turn := RunTaken(taken, results, w0);
        turns := [turn];
        AloneTurn(turn, old(clock.now), clock.now);
        LeftForMore(w1, View(), turns, {}, old(cancels));
      }
      KeepsTransitive(w, w1, View());
      OnlyNewThen(w, w1, View(), {}, {id});
      assert {} + {id} == {id} && [] + turns == turns && {} + old(cancels) == old(cancels);
      NobodyLeft(w, w1);
      LeftForThen(w, w1, View(), [], turns, {}, old(cancels));
    }

    static lemma OneDropped(w: Sched, w': Sched, id: Id, marks: set<Id>)
      requires OnlyNew(w, w', {id}) && id in marks && id in w'.place && w'.place[id] == Dropped
      ensures LeftFor(w, w', [], marks)
    {
    }

    static lemma AloneTurn(turn: Turn, from: nat, to: nat)
      requires from <= turn.at <= to
      ensures AllEvents([turn]) == EventsOf(turn) && TurnsWithin([turn], from, to) && Marks([turn]) == turn.marked
    {
      OneMoreTurn([], turn);
      assert [] + [turn] == [turn];
    }

    static lemma CancelsOneLess(cancels: set<Id>, id: Id, place: map<Id, Place>, marked: set<Id>)
      requires id in cancels ==> id in place && place[id] == Dropped
      ensures CancelledOr(cancels, cancels - {id}, place) && CancelledOr(cancels, cancels + marked, place)
    {
    }

    /** What a round leaves of the cancel set. */
    static lemma RoundCancels(marks: set<Id>, cancels: set<Id>, w: Sched, turns: seq<Turn>, id: Id,
                              cancels': set<Id>, w': Sched)
      requires Inv(w) && Keeps(w, w') && CancelledOr(marks, cancels, w.place) && cancels <= marks
      requires if id in cancels
               then turns == [] && cancels' == cancels - {id} && id in w'.place && w'.place[id] == Dropped
               else |turns| == 1 && cancels' == cancels + turns[0].marked
      ensures CancelledOr(marks + Marks(turns), cancels', w'.place) && cancels' <= marks + Marks(turns)
    {
      if turns == [] {
        CancelsOneLess(cancels, id, w'.place, {});
      } else {
        assert turns == [turns[0]] && Marks(turns) == turns[0].marked;
        StillCancelled(cancels, w'.place);
        assert CancelledOr(cancels, cancels', w'.place);
      }
      CancelsKept(marks, cancels, w, cancels', w');
    }

    /** `do_schedule`, followed for at most `rounds` rounds. It never fails. If it returns with time left, no
        coroutine is ready and everything still parked waits for a time later than a reading of the clock in the
        last round; it returns without exactly when a round begins with the time over. Every round that goes on
        takes one coroutine, and leaves nobody else parked who was due at its reading of the clock. */
    method DoSchedule(timeout: nat, rounds: nat) returns (outcome: Outcome, results: map<Id, CoState>, ghost log: Log)
      requires Valid() && Hands(View()) == {}
      modifies this, clock
      ensures Valid() && Hands(View()) == {} && Keeps(old(View()), View()) && ResultsMatch(old(View()), View(), results)
      ensures trace == old(trace) + AllEvents(log.turns) && TurnsWithin(log.turns, old(clock.now), clock.now)
      ensures clock.now >= old(clock.now)
      ensures outcome.Returned? && outcome.left > 0 ==>
                && ready == [] && OnlyFuture(View(), log.checked)
                && old(clock.now) <= log.began == timeout - outcome.left && log.began <= log.checked <= clock.now
      ensures outcome == Returned(0) ==> timeout <= log.began <= clock.now
      ensures outcome == StillRunning && rounds > 0 ==>
                && old(clock.now) <= log.began < timeout && log.began <= log.checked <= clock.now
                && OnlyFutureBut(View(), log.checked, {log.last})
      ensures var taken := |log.turns| + |log.drops|;
              if outcome == StillRunning then taken == rounds else taken < rounds
      ensures var marks := old(cancels) + Marks(log.turns);
              && CancelledOr(marks, cancels, place) && cancels <= marks
              && LeftFor(old(View()), View(), log.turns, marks)
              && DroppedFrom(log.drops, marks, place)
    {
      hide Inv, Keeps, Sound, Traced, OnlyFuture, OnlyFutureBut, AllEvents, OnlyNew, Done, Marks, Hands;
      hide ResultsMatch, LeftFor, CancelledOr, DroppedFrom, TurnsWithin, TimedOutFor, EarlyForLeftover, OthersKept;
      hide MovedInOrder, NothingDue, Parked;
      results, outcome, log := map[], StillRunning, Log([], [], clock.now, clock.now, 0);
      ghost var w0, marks := View(), cancels;
      NothingDone(w0, cancels);
      for n := 0 to rounds
        invariant Valid() && Hands(View()) == {} && Inv(w0) && clock.now >= old(clock.now)
        invariant marks == old(cancels) + Marks(log.turns)
        invariant Done(w0, View(), results, log.turns, log.drops, marks, cancels)
        invariant trace == old(trace) + AllEvents(log.turns) && |log.turns| + |log.drops| == n
        invariant n > 0 ==>
                    && old(clock.now) <= log.began < timeout && log.began <= log.checked <= clock.now
                    && OnlyFutureBut(View(), log.checked, {log.last})
      {
        ghost var w := View();
        var now := ReadClock();
        ghost var w1 := View();
        SoundParts(w, w1);
        var left := SatSub(timeout, now);
        log := log.(began := now);
        Idles(w0, w, w1, results, log.turns, log.drops, marks, cancels);
        if left == 0 {
          DoneMeans(w0, w1, results, log.turns, log.drops, marks, cancels);
          return Returned(0), results, log;
        }
        ghost var t, moved, late;
        t, moved, late := CheckReady();
        ghost var w2 := View();
        SoundParts(w1, w2);
        log := log.(checked := t);
        Idles(w0, w1, w2, results, log.turns, log.drops, marks, cancels);
        DoneMeans(w0, w2, results, log.turns, log.drops, marks, cancels);
        if ready == [] {
          return Returned(left), results, log;
        }
        ghost var before, results0 := cancels, results;
        ghost var more, id;
        results, id, more := RunOne(results, w0);
        StillFuture(w2, View(), t, {id});
        RoundDone(w0, w2, results0, log.turns, log.drops, marks, before, View(), results, more, id, cancels);
        MarksMore(log.turns, more);
        MoreTurns(log.turns, more);
        Associative(old(trace), AllEvents(log.turns), AllEvents(more));
        marks := marks + Marks(more);
        log := Log(log.turns + more, log.drops + Drops(more, id), now, t, id);
      }
      DoneMeans(w0, View(), results, log.turns, log.drops, marks, cancels);
    }

    static function Drops(turns: seq<Turn>, id: Id): seq<Id> { if turns == [] then [id] else [] }

    /** What has been done since `w0`. */
    static ghost predicate Done(w0: Sched, w: Sched, results: map<Id, CoState>, turns: seq<Turn>, drops: seq<Id>,
                                marks: set<Id>, cancels: set<Id>)
    {
      && Keeps(w0, w) && ResultsMatch(w0, w, results) && LeftFor(w0, w, turns, marks) && cancels <= marks
      && CancelledOr(marks, cancels, w.place) && DroppedFrom(drops, marks, w.place) && TurnsWithin(turns, w0.now, w.now)
    }

    static lemma DoneMeans(w0: Sched, w: Sched, results: map<Id, CoState>, turns: seq<Turn>, drops: seq<Id>,
                           marks: set<Id>, cancels: set<Id>)
      requires Done(w0, w, results, turns, drops, marks, cancels)
      ensures Keeps(w0, w) && ResultsMatch(w0, w, results) && LeftFor(w0, w, turns, marks) && cancels <= marks
      ensures CancelledOr(marks, cancels, w.place) && DroppedFrom(drops, marks, w.place)
      ensures TurnsWithin(turns, w0.now, w.now)
    {
    }

    static lemma RoundDone(w0: Sched, w: Sched, results: map<Id, CoState>, turns: seq<Turn>, drops: seq<Id>,
                           marks: set<Id>, cancels: set<Id>,
                           w': Sched, results': map<Id, CoState>, more: seq<Turn>, id: Id, cancels': set<Id>)
      requires Inv(w) && Done(w0, w, results, turns, drops, marks, cancels) && w0.now <= w.now <= w'.now
      requires Keeps(w, w') && ResultsMatch(w0, w', results') && LeftFor(w, w', more, cancels)
      requires TurnsWithin(more, w.now, w'.now)
      requires if id in cancels
               then more == [] && cancels' == cancels - {id} && id in w'.place && w'.place[id] == Dropped
               else |more| == 1 && cancels' == cancels + more[0].marked
      ensures Done(w0, w', results', turns + more, drops + Drops(more, id), marks + Marks(more), cancels')
    {
      hide Inv, Keeps, ResultsMatch, LeftFor, TurnsWithin, Marks, CancelledOr;
      KeepsTransitive(w0, w, w');
      RoundCancels(marks, cancels, w, more, id, cancels', w');
      LeftForThen(w0, w, w', turns, more, marks, cancels);
      LeftForMore(w0, w', turns + more, marks + cancels, marks + Marks(more));
      WithinMore(turns, more, w0.now, w.now, w'.now);
      DropsMore(drops, marks, marks + Marks(more), w, w', Drops(more, id));
    }

    /** The ids were in the cancel set, and their coroutines have been dropped. */
    static ghost predicate DroppedFrom(drops: seq<Id>, marks: set<Id>, place: map<Id, Place>) {
      forall id | id in drops :: id in marks && id in place && place[id] == Dropped
    }

    static lemma DropsMore(drops: seq<Id>, marks: set<Id>, marks': set<Id>, w: Sched, w': Sched, more: seq<Id>)
      requires Inv(w) && Keeps(w, w') && DroppedFrom(drops, marks, w.place) && marks <= marks'
      requires DroppedFrom(more, marks', w'.place)
      ensures DroppedFrom(drops + more, marks', w'.place)
    {
      forall id | id in drops ensures id in w'.place && w'.place[id] == Dropped {
        assert Home(w, id);
      }
    }

    static lemma NothingDone(w: Sched, cancels: set<Id>)
      requires Inv(w)
      ensures Done(w, w, map[], [], [], cancels, cancels) && Keeps(w, w) && LeftFor(w, w, [], cancels)
      ensures CancelledOr(cancels, cancels, w.place) && Marks([]) == {} && TurnsWithin([], w.now, w.now)
      ensures forall trace: seq<Event> :: trace + AllEvents([]) == trace
    {
    }

    /** Time passes, and coroutines may become ready. */
    static lemma Idles(w0: Sched, w: Sched, w': Sched, results: map<Id, CoState>, turns: seq<Turn>, drops: seq<Id>,
                       marks: set<Id>, cancels: set<Id>)
      requires Inv(w) && Inv(w') && Keeps(w, w') && OnlyNew(w, w', {}) && w.now <= w'.now
      requires Done(w0, w, results, turns, drops, marks, cancels)
      ensures Done(w0, w', results, turns, drops, marks, cancels)
    {
      KeepsTransitive(w0, w, w');
      KeepsResults(w0, w, w', results);
      NobodyLeft(w, w');
      LeftForThen(w0, w, w', turns, [], marks, {});
      assert turns + [] == turns && marks + {} == marks;
      StillCancelled(cancels, w'.place);
      CancelsKept(marks, cancels, w, cancels, w');
      DropsMore(drops, marks, marks, w, w', []);
      assert drops + [] == drops;
      hide Inv, Keeps, OnlyNew, ResultsMatch, LeftFor, CancelledOr, DroppedFrom;
    }

    static lemma StillCancelled(cancels: set<Id>, place: map<Id, Place>)
      ensures CancelledOr(cancels, cancels, place)
    {
    }

    static lemma CosKept(w: Sched, w': Sched)
      requires Keeps(w, w')
      ensures w.cos.Keys <= w'.cos.Keys
    {
    }

    static lemma NoTurns(now: nat)
      ensures (forall trace: seq<Event> :: trace + AllEvents([]) == trace) && TurnsWithin([], now, now)
      ensures Marks([]) == {}
    {
    }

    /** One call from outside. */
    method Perform(c: Command) returns (ghost answer: Answer)
      requires Valid() && Hands(View()) == {}
      modifies this, clock
      ensures Valid() && Hands(View()) == {} && Keeps(old(View()), View()) && clock.now >= old(clock.now)
      ensures trace == old(trace) + AllEvents(answer.turns) && TurnsWithin(answer.turns, old(clock.now), clock.now)
      ensures c.Act? && c.call.SubmitCall? ==> c.call.id in cos
      ensures c.Act? && c.call.ResumeCall? ==>
                && c.call.id !in table
                && ready == old(ready) + if c.call.id in old(table) then [c.call.id] else []
      ensures var marks := old(cancels) + CancelledBy(c) + Marks(answer.turns);
              && CancelledOr(marks, cancels, place) && cancels <= marks
              && LeftFor(old(View()), View(), answer.turns, marks)
      ensures Answers(c, answer, clock.now)
    {
      hide Inv, Keeps, Sound, NoneEarly, Hands, AllEvents, CancelledOr, OnlyNew, LeftFor, Marks, TurnsWithin;
      hide ResultsMatch, DroppedFrom, Done;
      ghost var w := View();
      answer := Answer(None, [], 0);
      NothingDone(w, cancels);
      SoundStart(w);
      match c {
        case Act(SubmitCall(id)) =>
          if id !in cos {
            Submit(id);
          }
        case Act(ResumeCall(id)) => TryResume(id);
        case Act(CancelCall(id)) => TryCancel(id);
        case Schedule(timeout, rounds) =>
          ghost var log;
          var o, results;
          o, results, log := DoSchedule(timeout, rounds);
          answer := Answer(Some(o), log.turns, |log.drops|);
          assert old(cancels) + CancelledBy(c) + Marks(log.turns) == old(cancels) + Marks(log.turns);
      }
      if c.Act? {
        SoundParts(w, View());
        NobodyLeft(w, View());
        LeftForMore(w, View(), [], {}, cancels);
        StillCancelled(cancels, place);
        NoTurns(w.now);
        assert old(cancels) + CancelledBy(c) + {} == cancels;
      }
    }

    static function CancelledBy(c: Command): set<Id> {
      if c.Act? && c.call.CancelCall? then {c.call.id} else {}
    }

    /** Any sequence of `submit`, `try_resume`, `try_cancel` and `do_schedule`: afterwards every submitted coroutine
        is in exactly one place with a fitting state, no coroutine has had its next turn before the time it had
        asked for with `delay`, `until` or a plain `suspend`, a cancelled one is marked still or was dropped,
        nobody was dropped without having been cancelled nor finished without having returned or panicked, and
        nothing failed on the way. */
    method AnyRun(commands: seq<Command>) returns (ghost turns: seq<Turn>, ghost answers: seq<Answer>)
      requires Valid() && Hands(View()) == {}
      modifies this, clock
      ensures Valid() && Hands(View()) == {} && Keeps(old(View()), View())
      ensures forall id | id in cos :: InExactlyOnePlace(View(), id) && StateFitsPlace(View(), id)
      ensures trace == old(trace) + AllEvents(turns) && TurnsWithin(turns, old(clock.now), clock.now)
      ensures NeverEarly(turns)
      ensures forall id | Act(SubmitCall(id)) in commands :: id in cos
      ensures forall id | Act(CancelCall(id)) in commands :: id in cancels || (id in place && place[id] == Dropped)
      ensures LeftFor(old(View()), View(), turns, old(cancels) + AllCancelled(commands) + Marks(turns))
      ensures |answers| == |commands| && forall n | 0 <= n < |commands| :: Answers(commands[n], answers[n], clock.now)
      ensures turns == AllTurns(answers)
    {
      hide Inv, Keeps, Sound, NoneEarly, Hands, InExactlyOnePlace, StateFitsPlace, AllEvents, NeverEarly, OnlyNew;
      hide CancelledOr, TurnsWithin, LeftFor, Marks, AllTurns, Answers, AllCancelled, Done;
      turns, answers := [], [];
      ghost var w0, marks := View(), cancels;
      NothingDone(w0, cancels);
      NothingAsked();
      for n := 0 to |commands|
        invariant Valid() && Hands(View()) == {} && Keeps(w0, View()) && clock.now >= old(clock.now)
        invariant trace == old(trace) + AllEvents(turns) && TurnsWithin(turns, old(clock.now), clock.now)
        invariant forall id | Act(SubmitCall(id)) in commands[..n] :: id in cos
        invariant marks == old(cancels) + AllCancelled(commands[..n]) + Marks(turns)
        invariant CancelledOr(marks, cancels, place) && cancels <= marks && LeftFor(w0, View(), turns, marks)
        invariant |answers| == n && forall m | 0 <= m < n :: Answers(commands[m], answers[m], clock.now)
        invariant turns == AllTurns(answers)
      {
        ghost var w, before, marked := View(), cancels, marks;
        ghost var c := commands[n];
        ghost var answer := Perform(commands[n]);
        assert commands[..n + 1] == commands[..n] + [c];
        KeepsTransitive(w0, w, View());
        CosKept(w, View());
        var more := answer.turns;
        ghost var added := CancelledBy(c) + Marks(more);
        assert before + CancelledBy(c) + Marks(more) == before + added;
        marks := marked + added;
        OneMoreCancelled(marked, before, w.place, added);
        CancelsKept(marks, before + added, w, cancels, View());
        MarksMore(turns, more);
        CancelledMore(commands[..n], c);
        LeftForThen(w0, w, View(), turns, more, marked, before + added);
        LeftForMore(w0, View(), turns + more, marked + (before + added), marks);
        MoreTurns(turns, more);
        Associative(old(trace), AllEvents(turns), AllEvents(more));
        WithinMore(turns, more, old(clock.now), w.now, clock.now);
        AnsweredStill(commands, answers, w.now, clock.now, n);
        OneMoreAnswer(answers, answer);
        turns, answers := turns + more, answers + [answer];
      }
      assert commands[..|commands|] == commands;
      MarkedAre(marks, cancels, place);
      CancelledAre(commands);
      PlacesAreExact(View());
      TurnsAreDue(old(trace), turns);
    }

    static lemma OneMoreCancelled(ids: set<Id>, cancels: set<Id>, place: map<Id, Place>, more: set<Id>)
      requires CancelledOr(ids, cancels, place)
      ensures CancelledOr(ids + more, cancels + more, place)
    {
    }

    static lemma MarkedAre(ids: set<Id>, cancels: set<Id>, place: map<Id, Place>)
      requires CancelledOr(ids, cancels, place)
      ensures forall id | id in ids :: id in cancels || (id in place && place[id] == Dropped)
    {
    }

    static lemma WithinMore(turns: seq<Turn>, more: seq<Turn>, from: nat, mid: nat, to: nat)
      requires from <= mid <= to && TurnsWithin(turns, from, mid) && TurnsWithin(more, mid, to)
      ensures TurnsWithin(turns + more, from, to)
    {
    }

    static function AllCancelled(commands: seq<Command>): set<Id> {
      set c, id | c in commands && id in CancelledBy(c) :: id
    }

    static lemma CancelledMore(commands: seq<Command>, c: Command)
      ensures AllCancelled(commands + [c]) == AllCancelled(commands) + CancelledBy(c)
    {
    }

    static lemma CancelledAre(commands: seq<Command>)
      ensures forall id | Act(CancelCall(id)) in commands :: id in AllCancelled(commands)
    {
      forall id | Act(CancelCall(id)) in commands ensures id in AllCancelled(commands) {
        assert id in CancelledBy(Act(CancelCall(id)));
      }
    }

    static lemma NothingAsked()
      ensures AllCancelled([]) == {} && AllTurns([]) == []
    {
    }

    static lemma AnsweredStill(commands: seq<Command>, answers: seq<Answer>, now: nat, now': nat, n: nat)
      requires n <= |commands| && |answers| == n && now <= now'
      requires forall m | 0 <= m < n :: Answers(commands[m], answers[m], now)
      ensures forall m | 0 <= m < n :: Answers(commands[m], answers[m], now')
    {
      forall m | 0 <= m < n ensures Answers(commands[m], answers[m], now') {
        assert Answers(commands[m], answers[m], now);
      }
    }
  }

  /** What the rounds of one `do_schedule` have done: the turns, the ids dropped for the cancel set, the clock reading
      with which the last round began, that of its `check_ready`, and the coroutine the last full round took. */
  datatype Log = Log(turns: seq<Turn>, drops: seq<Id>, began: nat, checked: nat, last: Id)

  /** What came of a call from outside: the outcome of a `do_schedule`, the turns it gave and how many it dropped. */
  datatype Answer = Answer(outcome: Option<Outcome>, turns: seq<Turn>, drops: nat)

  /** Only `do_schedule` gives turns. It takes one coroutine in each round it is followed for, until it returns; and it
      returns without time left only when the time is over. */
  ghost predicate Answers(c: Command, a: Answer, now: nat) {
    if c.Act? then a == Answer(None, [], 0)
    else
      && a.outcome.Some?
      && (if a.outcome == Some(StillRunning) then |a.turns| + a.drops == c.rounds else |a.turns| + a.drops < c.rounds)
      && (a.outcome == Some(Returned(0)) ==> now >= c.timeout)
  }

  function AllTurns(answers: seq<Answer>): seq<Turn> {
    if answers == [] then [] else AllTurns(answers[..|answers| - 1]) + answers[|answers| - 1].turns
  }

  lemma OneMoreAnswer(answers: seq<Answer>, a: Answer)
    ensures AllTurns(answers + [a]) == AllTurns(answers) + a.turns
  {
    assert (answers + [a])[..|answers|] == answers;
  }
}
