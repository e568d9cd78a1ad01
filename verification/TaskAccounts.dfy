/** The accounts of one coroutine pool on values: where each submitted task is, how often its function was
    started and how often its result was handed out. */
module TaskAccounts {

  import opened Basics

  type TaskId = nat
  type CoId = nat

  /** What a task function returned: a value, or the message it panicked with. */
  datatype TaskResult = Value(value: Option<nat>) | Panicked(message: string)

  /** `Lost` is a task whose coroutine was cancelled, failed or was dropped in the middle of it. */
  datatype TaskPlace = Queued | Running(on: CoId) | Cancelled | Discarded | Stored | Taken | Lost

  /** A live coroutine of the pool: a worker, or one submitted by other code. The tasks it is in the middle of
      are stacked, because waiting for a result inside a coroutine runs other tasks. */
  datatype Co = Co(worker: bool, stack: seq<TaskId>)

  datatype Accounts = Accounts(queue: seq<TaskId>, cos: map<CoId, Co>, results: map<TaskId, TaskResult>,
                               noWaits: set<TaskId>, place: map<TaskId, TaskPlace>,
                               started: seq<TaskId>, handed: seq<TaskId>)

  predicate HasStarted(p: TaskPlace) { p.Running? || p == Discarded || p == Stored || p == Taken || p == Lost }

  /** Task `id` is in exactly one place: once in the queue, once on the stack of one coroutine, in the results, or
      gone. Its function was started at most once, its result handed out at most once, and a task whose
      result is stored is not marked as one nobody waits for. */
  ghost predicate Accounted(a: Accounts, id: TaskId) {
    var p := if id in a.place then Some(a.place[id]) else None;
    && Occurs(a.queue, id) == (if p == Some(Queued) then 1 else 0)
    && (forall c | c in a.cos :: Occurs(a.cos[c].stack, id) == if p == Some(Running(c)) then 1 else 0)
    && (p.Some? && p.value.Running? ==> p.value.on in a.cos)
    && (id in a.results <==> p == Some(Stored))
    && (id in a.results ==> id !in a.noWaits)
    && Occurs(a.started, id) == (if p.Some? && HasStarted(p.value) then 1 else 0)
    && Occurs(a.handed, id) == (if p == Some(Taken) then 1 else 0)
  }

  ghost predicate Inv(a: Accounts) { forall id :: Accounted(a, id) }

  // ---- Moves ----

  ghost function Submitted(a: Accounts, id: TaskId): Accounts {
    a.(queue := a.queue + [id], place := a.place[id := Queued])
  }

  ghost function DroppedFromQueue(a: Accounts, n: nat): Accounts
    requires n < |a.queue|
  {
    a.(queue := Without(a.queue, n), place := a.place[a.queue[n] := Cancelled])
  }

  ghost function Began(a: Accounts, n: nat, c: CoId): Accounts
    requires n < |a.queue| && c in a.cos
  {
    var id := a.queue[n];
    a.(queue := Without(a.queue, n), cos := a.cos[c := a.cos[c].(stack := [id] + a.cos[c].stack)],
       place := a.place[id := Running(c)], started := a.started + [id])
  }

  /** The coroutine has left its innermost task, which is now at `p`. */
  ghost function Popped(a: Accounts, c: CoId, p: TaskPlace): Accounts
    requires c in a.cos && a.cos[c].stack != []
  {
    a.(cos := a.cos[c := a.cos[c].(stack := a.cos[c].stack[1..])], place := a.place[a.cos[c].stack[0] := p])
  }

  ghost function Ended(a: Accounts, c: CoId, r: TaskResult): Accounts
    requires c in a.cos && a.cos[c].stack != []
  {
    var id := a.cos[c].stack[0];
    if id in a.noWaits then Popped(a, c, Discarded).(noWaits := a.noWaits - {id})
    else Popped(a, c, Stored).(results := a.results[id := r])
  }

  ghost function HandedOut(a: Accounts, id: TaskId): Accounts {
    a.(results := a.results - {id}, place := a.place[id := Taken], handed := a.handed + [id])
  }

  ghost function CleanedUp(a: Accounts, id: TaskId): Accounts {
    if id in a.results then a.(results := a.results - {id}, place := a.place[id := Discarded])
    else a.(noWaits := a.noWaits + {id})
  }

  /** A coroutine goes and takes the tasks it is in the middle of with it. */
  ghost function Gone(a: Accounts, c: CoId): Accounts
    requires c in a.cos
  {
    a.(cos := a.cos - {c}, place := map id | id in a.place :: if a.place[id] == Running(c) then Lost else a.place[id])
  }

  // ---- What the moves mean, field by field ----

  /** A task that has ended is off its coroutine. If somebody may wait for it, the result it ended with is stored;
      otherwise it is discarded and the mark used up. All other results stay. */
  lemma EndedMeans(a: Accounts, c: CoId, r: TaskResult, o: TaskId)
    requires c in a.cos && a.cos[c].stack != []
    ensures var id := a.cos[c].stack[0]; var b := Ended(a, c, r);
            && id in b.place && c in b.cos
            && (id !in a.noWaits ==> id in b.results && b.results[id] == r && b.place[id] == Stored)
            && (id in a.noWaits ==> b.results == a.results && b.place[id] == Discarded && id !in b.noWaits)
            && (o != id && o in a.results ==> o in b.results && b.results[o] == a.results[o])
            && (o != id ==> (o in b.noWaits <==> o in a.noWaits))
            && a.cos[c].stack == [id] + b.cos[c].stack && b.cos[c].worker == a.cos[c].worker
            && b.queue == a.queue && b.started == a.started && b.handed == a.handed
  {
  }

  /** A task that begins leaves the queue, whose order stays, and is innermost on its coroutine; a cancelled one only
      leaves the queue. */
  lemma BeganMeans(a: Accounts, n: nat, c: CoId)
    requires n < |a.queue| && c in a.cos
    ensures var id := a.queue[n]; var b, d := Began(a, n, c), DroppedFromQueue(a, n);
            && id in b.place && id in d.place && c in b.cos && |b.queue| + 1 == |a.queue|
            && a.queue == b.queue[..n] + [id] + b.queue[n..] && d.queue == b.queue
            && b.cos[c].stack == [id] + a.cos[c].stack && b.place[id] == Running(c) && b.started == a.started + [id]
            && d.cos == a.cos && d.place[id] == Cancelled && d.started == a.started
            && b.results == a.results == d.results
  {
  }

  /** A result that is taken is gone. Cleaning up drops the result that is there, or sees to it that none will be
      stored; it hands nothing out. */
  lemma TakenMeans(a: Accounts, id: TaskId, o: TaskId)
    ensures var b, d := HandedOut(a, id), CleanedUp(a, id);
            && id !in b.results && id !in d.results && b.handed == a.handed + [id] && d.handed == a.handed
            && (o != id && o in a.results ==> o in b.results && b.results[o] == a.results[o])
            && (o != id && o in a.results ==> o in d.results && d.results[o] == a.results[o])
            && (id in a.results ==> d.noWaits == a.noWaits) && (id !in a.results ==> d.noWaits == a.noWaits + {id})
            && b.queue == a.queue == d.queue && b.cos == a.cos == d.cos
  {
  }

  /** A coroutine that goes takes exactly the tasks it was in the middle of with it. */
  lemma GoneMeans(a: Accounts, c: CoId, o: TaskId)
    requires c in a.cos && o in a.place
    ensures var b := Gone(a, c);
            && c !in b.cos && o in b.place && (forall d | d in a.cos && d != c :: d in b.cos && b.cos[d] == a.cos[d])
            && (a.place[o] == Running(c) ==> b.place[o] == Lost)
            && (a.place[o] != Running(c) ==> b.place[o] == a.place[o])
            && b.queue == a.queue && b.results == a.results
  {
  }

  lemma SubmittedKeeps(a: Accounts, id: TaskId)
    requires Inv(a) && id !in a.place
    ensures Inv(Submitted(a, id))
  {
    assert Accounted(a, id);
    forall o ensures Accounted(Submitted(a, id), o) {
      hide Occurs;
      assert Accounted(a, o);
      OccursConcat(a.queue, [id], o);
      OccursOne(id, o);
    }
  }

  lemma InResults(a: Accounts, id: TaskId)
    requires Inv(a) && id in a.results
    ensures id in a.place && a.place[id] == Stored
  {
    assert Accounted(a, id);
  }

  /** The innermost task of a coroutine has no result yet, and none was handed out. */
  lemma OnStackIsNew(a: Accounts, c: CoId)
    requires Inv(a) && c in a.cos && a.cos[c].stack != []
    ensures var id := a.cos[c].stack[0]; id !in a.results && id !in a.handed
  {
    var id := a.cos[c].stack[0];
    OnStack(a, c);
    assert Accounted(a, id);
    assert Occurs(a.handed, id) == 0;
  }

  lemma InQueue(a: Accounts, n: nat)
    requires Inv(a) && n < |a.queue|
    ensures a.queue[n] in a.place && a.place[a.queue[n]] == Queued
  {
    assert Accounted(a, a.queue[n]);
    OccursWithout(a.queue, n, a.queue[n]);
  }

  lemma DroppedKeeps(a: Accounts, n: nat)
    requires Inv(a) && n < |a.queue|
    ensures Inv(DroppedFromQueue(a, n))
  {
    InQueue(a, n);
    forall o ensures Accounted(DroppedFromQueue(a, n), o) {
      hide Occurs;
      assert Accounted(a, o);
      OccursWithout(a.queue, n, o);
    }
  }

  lemma BeganKeeps(a: Accounts, n: nat, c: CoId)
    requires Inv(a) && n < |a.queue| && c in a.cos
    ensures Inv(Began(a, n, c))
  {
    InQueue(a, n);
    var id := a.queue[n];
    forall o ensures Accounted(Began(a, n, c), o) {
      hide Occurs;
      assert Accounted(a, o);
      OccursWithout(a.queue, n, o);
      OccursConcat([id], a.cos[c].stack, o);
      OccursConcat(a.started, [id], o);
      OccursOne(id, o);
    }
  }

  /** The innermost task of a coroutine is running on it, and no result of it is stored. */
  lemma OnStack(a: Accounts, c: CoId)
    requires Inv(a) && c in a.cos && a.cos[c].stack != []
    ensures var id := a.cos[c].stack[0]; id in a.place && a.place[id] == Running(c) && id !in a.results
  {
    assert Accounted(a, a.cos[c].stack[0]);
    OccursWithout(a.cos[c].stack, 0, a.cos[c].stack[0]);
  }

  lemma PoppedOthers(a: Accounts, c: CoId, p: TaskPlace, o: TaskId)
    requires Accounted(a, o) && c in a.cos && a.cos[c].stack != [] && o != a.cos[c].stack[0]
    ensures Accounted(Popped(a, c, p), o)
  {
    var s := a.cos[c].stack;
    assert Without(s, 0) == s[1..];
    OccursWithout(s, 0, o);
    hide Occurs;
  }

  lemma EndedKeeps(a: Accounts, c: CoId, r: TaskResult)
    requires Inv(a) && c in a.cos && a.cos[c].stack != []
    ensures Inv(Ended(a, c, r))
  {
    var id := a.cos[c].stack[0];
    forall o ensures Accounted(Ended(a, c, r), o) {
      assert Accounted(a, o);
      if o == id {
        OnStack(a, c);
        EndedItself(a, c, r);
      } else {
        EndedOthers(a, c, r, o);
      }
    }
  }

  lemma EndedOthers(a: Accounts, c: CoId, r: TaskResult, o: TaskId)
    requires Accounted(a, o) && c in a.cos && a.cos[c].stack != [] && o != a.cos[c].stack[0]
    ensures Accounted(Ended(a, c, r), o)
  {
    hide Occurs, Popped, HasStarted;
    var p := if a.cos[c].stack[0] in a.noWaits then Discarded else Stored;
    PoppedOthers(a, c, p, o);
    assert Popped(a, c, p).results == a.results && Popped(a, c, p).noWaits == a.noWaits by { PoppedFrame(a, c, p); }
  }

  lemma PoppedFrame(a: Accounts, c: CoId, p: TaskPlace)
    requires c in a.cos && a.cos[c].stack != []
    ensures Popped(a, c, p).results == a.results && Popped(a, c, p).noWaits == a.noWaits
  {
  }

  lemma EndedItself(a: Accounts, c: CoId, r: TaskResult)
    requires c in a.cos && a.cos[c].stack != [] && Accounted(a, a.cos[c].stack[0])
    requires a.cos[c].stack[0] in a.place && a.place[a.cos[c].stack[0]] == Running(c)
    ensures Accounted(Ended(a, c, r), a.cos[c].stack[0])
  {
    var s := a.cos[c].stack;
    assert Without(s, 0) == s[1..];
    OccursWithout(s, 0, s[0]);
    hide Occurs;
  }

  lemma HandedOutKeeps(a: Accounts, id: TaskId)
    requires Inv(a) && id in a.results
    ensures Inv(HandedOut(a, id))
  {
    assert Accounted(a, id);
    forall o ensures Accounted(HandedOut(a, id), o) {
      hide Occurs;
      assert Accounted(a, o);
      OccursConcat(a.handed, [id], o);
      OccursOne(id, o);
    }
  }

  lemma CleanedUpKeeps(a: Accounts, id: TaskId)
    requires Inv(a)
    ensures Inv(CleanedUp(a, id))
  {
    forall o ensures Accounted(CleanedUp(a, id), o) {
      assert Accounted(a, o);
      CleanedUpOne(a, id, o);
    }
  }

  lemma CleanedUpOne(a: Accounts, id: TaskId, o: TaskId)
    requires Accounted(a, o)
    ensures Accounted(CleanedUp(a, id), o)
  {
    hide Occurs;
  }

  lemma GoneKeeps(a: Accounts, c: CoId)
    requires Inv(a) && c in a.cos
    ensures Inv(Gone(a, c))
  {
    forall o ensures Accounted(Gone(a, c), o) {
      assert Accounted(a, o);
      GoneOne(a, c, o);
    }
  }

  lemma GoneOne(a: Accounts, c: CoId, o: TaskId)
    requires Accounted(a, o) && c in a.cos
    ensures Accounted(Gone(a, c), o)
  {
    hide Occurs;
  }

  /** A coroutine with no task in hand may join or leave. */
  lemma JoinKeeps(a: Accounts, c: CoId, worker: bool)
    requires Inv(a) && c !in a.cos
    ensures Inv(a.(cos := a.cos[c := Co(worker, [])]))
  {
    var a' := a.(cos := a.cos[c := Co(worker, [])]);
    forall o ensures Accounted(a', o) {
      assert Accounted(a, o);
    }
  }

  lemma LeaveKeeps(a: Accounts, c: CoId)
    requires Inv(a) && c in a.cos && a.cos[c].stack == []
    ensures Inv(a.(cos := a.cos - {c}))
  {
    var a' := a.(cos := a.cos - {c});
    forall o ensures Accounted(a', o) {
      assert Accounted(a, o);
      assert Occurs(a.cos[c].stack, o) == 0;
    }
  }

  // ---- What the accounts mean ----

  /** No function runs twice, no result is handed out twice, `results` and `no_waits` are disjoint, and the
      started tasks are exactly those that run, have a result stored or taken, were discarded or lost. */
  lemma AtMostOnce(a: Accounts)
    requires Inv(a)
    ensures forall i, j | 0 <= i < j < |a.started| :: a.started[i] != a.started[j]
    ensures forall i, j | 0 <= i < j < |a.handed| :: a.handed[i] != a.handed[j]
    ensures a.results.Keys !! a.noWaits
    ensures forall id | id in a.handed :: id in a.started && id !in a.results && id !in a.queue
  {
    forall i, j | 0 <= i < j < |a.started| ensures a.started[i] != a.started[j] {
      assert Accounted(a, a.started[i]);
      if a.started[i] == a.started[j] {
        Duplicate(a.started, i, j);
      }
    }
    forall i, j | 0 <= i < j < |a.handed| ensures a.handed[i] != a.handed[j] {
      assert Accounted(a, a.handed[i]);
      if a.handed[i] == a.handed[j] {
        Duplicate(a.handed, i, j);
      }
    }
    forall id | id in a.handed ensures id in a.started && id !in a.results && id !in a.queue {
      assert Accounted(a, id);
      assert Occurs(a.handed, id) > 0;
      assert Occurs(a.started, id) > 0;
      assert id in a.queue ==> Occurs(a.queue, id) > 0;
    }
    forall id | id in a.results ensures id !in a.noWaits {
      assert Accounted(a, id);
    }
  }

  lemma Duplicate(s: seq<TaskId>, i: nat, j: nat)
    requires i < j < |s| && s[i] == s[j]
    ensures Occurs(s, s[i]) >= 2
  {
    OccursWithout(s, j, s[i]);
    assert Without(s, j)[i] == s[i];
    OccursWithout(Without(s, j), i, s[i]);
  }
}
