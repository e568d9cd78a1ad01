/** One `CoroutinePool`: its task queue, its worker coroutines counted through a listener, the results, and
    stopping. What a coroutine does between two switches is one step. Which task the queue gives, what a task
    does and whether a coroutine can be created is left open. */
module CoPool {

  import opened Basics
  import opened TaskAccounts

  datatype PoolState = PoolRunning | Stopping | Stopped

  /** A call of other code. */
  datatype Call =
    | Submit
    | SubmitJob(canCreate: bool)
    | TakeResult(id: TaskId)
    | CleanResult(id: TaskId)
    | CancelTask(id: TaskId)

  /** A step of a coroutine of the pool, or a call of other code. */
  datatype Slice =
    | Begin(co: CoId, nth: nat)
    | End(co: CoId, result: TaskResult)
    | Switch(canCreate: bool)
    | Retire(co: CoId, keptAlive: bool)
    | FinishJob(co: CoId)
    | Abort(co: CoId, canCreate: bool)
    | Drop(co: CoId)
    | Other(call: Call)

  /** Every attempt to create a worker succeeds. */
  predicate Creates(s: Slice) { s.Switch? || s.Abort? ==> s.canCreate }

  /** One pass of the loop of `do_stop`: whether a worker can be created, what happens, and whether the scheduling
      pass reports an error in the end. */
  datatype Round = Round(canCreate: bool, slices: seq<Slice>, fails: bool)

  /** How `stop` ends: with the count at zero, with the time up, or with the error of a pass. */
  datatype StopEnd = AlreadyStopped | Idle | TimedOut | Failed

  predicate CreatesAll(rs: seq<Round>) {
    forall r | r in rs :: r.canCreate && forall s | s in r.slices :: Creates(s)
  }

  predicate HasWorker(cos: map<CoId, Co>) { exists c | c in cos :: cos[c].worker }

  /** Somebody is there for the waiting tasks, or the count cannot come down to zero any more. */
  predicate Attended(queue: seq<TaskId>, cos: map<CoId, Co>, droppedCos: nat) {
    queue == [] || HasWorker(cos) || droppedCos > 0
  }

  /** `RUNNING_TASKS` holds the tasks that run, and those whose coroutine was lost in the middle of them. */
  ghost predicate Marked(runningTasks: set<TaskId>, place: map<TaskId, TaskPlace>) {
    forall id :: id in runningTasks <==> id in place && Marks(place[id])
  }

  ghost predicate Below(ids: set<nat>, n: nat) { forall id | id in ids :: id < n }

  lemma BelowMore(place: map<TaskId, TaskPlace>, n: nat)
    requires Below(place.Keys, n)
    ensures n !in place && place[n := Queued].Keys == place.Keys + {n} && Below(place[n := Queued].Keys, n + 1)
  {
    assert place[n := Queued].Keys == place.Keys + {n};
  }

  predicate Marks(p: TaskPlace) { p.Running? || p == Lost }

  lemma MarkedMove(runningTasks: set<TaskId>, place: map<TaskId, TaskPlace>, id: TaskId, p: TaskPlace)
    requires Marked(runningTasks, place)
    ensures Marked(if Marks(p) then runningTasks + {id} else runningTasks - {id}, place[id := p])
    ensures (id in place ==> !Marks(place[id])) && !Marks(p) ==> Marked(runningTasks, place[id := p])
    ensures id in place ==> place[id := p].Keys == place.Keys
  {
    assert id in place ==> place[id := p].Keys == place.Keys;
  }

  lemma MarkedGone(runningTasks: set<TaskId>, place: map<TaskId, TaskPlace>, c: CoId)
    requires Marked(runningTasks, place)
    ensures Marked(runningTasks, map id | id in place :: if place[id] == Running(c) then Lost else place[id])
  {
  }

  /** A step adds a task to the known ones, under the next id, exactly if it submits one to a running pool. */
  ghost predicate Submitting(next: TaskId, ids: set<TaskId>, s: Slice, state: PoolState,
                             next': TaskId, ids': set<TaskId>)
  {
    if state == PoolRunning && s == Other(Submit) then next' == next + 1 && ids' == ids + {next}
    else next' == next && ids' == ids
  }

  lemma SubmitsNothing(next: TaskId, ids: set<TaskId>, s: Slice, state: PoolState)
    requires s != Other(Submit)
    ensures Submitting(next, ids, s, state, next, ids)
  {
  }

  /** Exactly the ids below `n`. */
  ghost predicate Counted(ids: set<TaskId>, n: nat) { forall id: nat :: id in ids <==> id < n }

  function Submits(script: seq<Slice>): nat {
    if script == [] then 0
    else Submits(script[..|script| - 1]) + if script[|script| - 1] == Other(Submit) then 1 else 0
  }

  /** A result that is stored, or was handed out, is the one its task has ended with. */
  ghost predicate Honest(results: map<TaskId, TaskResult>, ended: map<TaskId, TaskResult>,
                         given: map<TaskId, TaskResult>, handed: seq<TaskId>)
  {
    && (forall id | id in results :: id in ended && results[id] == ended[id])
    && (forall id | id in given :: id in ended && given[id] == ended[id])
    && given.Keys == set id | id in handed
  }

  lemma HonestEnd(results: map<TaskId, TaskResult>, ended: map<TaskId, TaskResult>, given: map<TaskId, TaskResult>,
                  handed: seq<TaskId>, id: TaskId, r: TaskResult)
    requires Honest(results, ended, given, handed) && id !in results && id !in handed
    ensures Honest(results, ended[id := r], given, handed) && Honest(results[id := r], ended[id := r], given, handed)
  {
  }

  lemma HonestTake(results: map<TaskId, TaskResult>, ended: map<TaskId, TaskResult>, given: map<TaskId, TaskResult>,
                   handed: seq<TaskId>, id: TaskId)
    requires Honest(results, ended, given, handed) && id in results
    ensures Honest(results - {id}, ended, given, handed)
    ensures Honest(results - {id}, ended, given[id := results[id]], handed + [id])
  {
    assert (set o | o in handed + [id]) == (set o | o in handed) + {id};
  }

  /** What the tasks have ended with after the steps `script`, of which step `n` has brought task `overs[n]` to its
      end. */
  function EndedAfter(ended: map<TaskId, TaskResult>, script: seq<Slice>, overs: seq<Option<TaskId>>)
    : map<TaskId, TaskResult>
    requires |overs| == |script|
  {
    if script == [] then ended
    else
      var n := |script| - 1;
      var before := EndedAfter(ended, script[..n], overs[..n]);
      if overs[n].Some? && script[n].End? then before[overs[n].value := script[n].result] else before
  }

  lemma OneMoreEnd(ended: map<TaskId, TaskResult>, script: seq<Slice>, overs: seq<Option<TaskId>>, s: Slice,
                   over: Option<TaskId>)
    requires |overs| == |script|
    ensures var before := EndedAfter(ended, script, overs);
            EndedAfter(ended, script + [s], overs + [over])
            == if over.Some? && s.End? then before[over.value := s.result] else before
  {
    assert (script + [s])[..|script|] == script && (overs + [over])[..|overs|] == overs;
  }

  lemma NothingEnded(ended: map<TaskId, TaskResult>)
    ensures EndedAfter(ended, [], []) == ended
  {
  }

  /** Step `n` has brought task `id` to its end with result `r`. */
  predicate EndedAt(script: seq<Slice>, overs: seq<Option<TaskId>>, n: nat, id: TaskId, r: TaskResult)
    requires |overs| == |script|
  {
    n < |script| && overs[n] == Some(id) && script[n].End? && script[n].result == r
  }

  lemma {:induction false} EndHasStep(script: seq<Slice>, overs: seq<Option<TaskId>>, id: TaskId)
    requires |overs| == |script| && id in EndedAfter(map[], script, overs)
    ensures exists n: nat :: EndedAt(script, overs, n, id, EndedAfter(map[], script, overs)[id])
  {
    var n := |script| - 1;
    var script', overs' := script[..n], overs[..n];
    if overs[n] == Some(id) && script[n].End? {
      assert EndedAt(script, overs, n, id, script[n].result);
    } else {
      EndHasStep(script', overs', id);
      var r := EndedAfter(map[], script', overs')[id];
      var m: nat :| EndedAt(script', overs', m, id, r);
      assert EndedAt(script, overs, m, id, r);
    }
  }

  /** The steps of coroutines that come to their end: they leave a task, or are done. */
  predicate Quiet(s: Slice) { s.End? || s.FinishJob? }

  function CosAfter(cos: map<CoId, Co>, s: Slice): map<CoId, Co> {
    match s
    case End(c, _) => if c in cos && cos[c].stack != [] then cos[c := cos[c].(stack := cos[c].stack[1..])] else cos
    case FinishJob(c) => if c in cos && cos[c] == Co(false, []) then cos - {c} else cos
    case _ => cos
  }

  function CosAfterAll(cos: map<CoId, Co>, ss: seq<Slice>): map<CoId, Co> {
    if ss == [] then cos else CosAfter(CosAfterAll(cos, ss[..|ss| - 1]), ss[|ss| - 1])
  }

  class CoroutinePool {
    const minSize: nat
    const maxSize: nat
    var state: PoolState
    var queue: seq<TaskId>
    var nextTask: TaskId
    var cos: map<CoId, Co>
    var nextCo: CoId
    var running: nat
    var results: map<TaskId, TaskResult>
    var noWaits: set<TaskId>
    /** `CANCEL_TASKS`. */
    var cancelTasks: set<TaskId>
    /** The keys of `RUNNING_TASKS`. */
    var runningTasks: set<TaskId>
    ghost var place: map<TaskId, TaskPlace>
    ghost var started: seq<TaskId>
    ghost var handed: seq<TaskId>
    /** What each task that came to its end has ended with, and the results handed out. */
    ghost var ended: map<TaskId, TaskResult>
    ghost var given: map<TaskId, TaskResult>
    /** Coroutines that were dropped by the scheduler's cancel set: no listener hears of it. */
    ghost var droppedCos: nat

    ghost function View(): Accounts
      reads this
    {
      Accounts(queue, cos, results, noWaits, place, started, handed)
    }

    ghost predicate Valid()
      reads this
    {
      Sums() && Honest(results, ended, given, handed)
    }

    /** The accounts are right, and `running` counts the live coroutines and the silently dropped ones. */
    ghost predicate Sums()
      reads this
    {
      && Inv(View())
      && running == |cos| + droppedCos
      && running <= maxSize
      && Below(cos.Keys, nextCo) && Below(place.Keys, nextTask)
      && Marked(runningTasks, place)
    }

    /** The waiting tasks can be reached: unless coroutines submitted by other code fill the whole pool. */
    ghost predicate Drainable()
      reads this
    {
      Attended(queue, cos, droppedCos) || running < maxSize
    }

    constructor (minSize: nat, maxSize: nat)
      ensures Valid() && state == PoolRunning && View() == Accounts([], map[], map[], {}, map[], [], [])
      ensures running == 0 && droppedCos == 0 && cancelTasks == {} && nextTask == 0
      ensures ended == map[] && given == map[]
      ensures this.minSize == minSize && this.maxSize == maxSize
    {
      this.minSize, this.maxSize := minSize, maxSize;
      state, queue, nextTask, cos, nextCo, running := PoolRunning, [], 0, map[], 0, 0;
      results, noWaits, cancelTasks, runningTasks := map[], {}, {}, {};
      place, started, handed, droppedCos := map[], [], [], 0;
      ended, given := map[], map[];
      new;
      assert forall id :: Accounted(View(), id);
    }

    method ChangeState(from: PoolState, to: PoolState) returns (ok: bool)
      modifies this`state
      ensures old(Valid()) ==> Valid()
      ensures ok == (old(state) == from || old(state) == to)
      ensures state == if ok then to else old(state)
    {
      hide Inv, Marked, Below, Honest;
      if state == to {
        return true;
      }
      ok := state == from;
      if ok {
        state := to;
      }
    }

    /** `submit_task` is refused unless the pool is running. */
    method SubmitTask() returns (r: Option<TaskId>)
      requires Valid()
      modifies this`queue, this`nextTask, this`place
      ensures Valid() && r.Some? == (state == PoolRunning)
      ensures r.Some? ==> r.value == old(nextTask) && r.value !in old(place)
      ensures nextTask == old(nextTask) + if r.Some? then 1 else 0
      ensures place.Keys == old(place).Keys + if r.Some? then {r.value} else {}
      ensures View() == if r.Some? then Submitted(old(View()), r.value) else old(View())
    {
      hide Inv, Marked, Below, Honest;
      if state != PoolRunning {
        return None;
      }
      BelowMore(place, nextTask);
      SubmittedKeeps(View(), nextTask);
      r := Some(nextTask);
      queue := queue + [nextTask];
      MarkedMove(runningTasks, place, nextTask, Queued);
      place := place[nextTask := Queued];
      nextTask := nextTask + 1;
    }

    /** `submit_co`: a new coroutine, unless the pool is full or it cannot be created. */
    method SubmitCo(worker: bool, canCreate: bool) returns (ok: bool)
      requires Valid()
      modifies this`cos, this`nextCo, this`running
      ensures Valid() && ok == (old(running) < maxSize && canCreate)
      ensures ok ==> running == old(running) + 1 && old(nextCo) !in old(cos)
      ensures ok ==> cos == old(cos)[old(nextCo) := Co(worker, [])]
      ensures !ok ==> running == old(running) && cos == old(cos)
      ensures HasWorker(cos) <==> HasWorker(old(cos)) || (ok && worker)
    {
      hide Inv, Marked, Honest;
      if running >= maxSize || !canCreate {
        return false;
      }
      JoinKeeps(View(), nextCo, worker);
      WorkersAfterJoin(cos, nextCo, Co(worker, []));
      cos := cos[nextCo := Co(worker, [])];
      nextCo := nextCo + 1;
      running := running + 1;
      return true;
    }

    /** `try_grow`: a worker for waiting tasks. */
    method TryGrow(canCreate: bool)
      requires Valid()
      modifies this`cos, this`nextCo, this`running
      ensures Valid()
      ensures var grows := queue != [] && old(running) < maxSize && canCreate;
              && running == old(running) + (if grows then 1 else 0)
              && cos == (if grows then old(cos)[old(nextCo) := Co(true, [])] else old(cos))
              && (HasWorker(cos) <==> HasWorker(old(cos)) || grows)
    {
      if queue != [] {
        var _ := SubmitCo(true, canCreate);
      }
    }

    /** The first half of `try_run` on coroutine `c`: a task is taken; a cancelled one is dropped, any other
        begins to run. */
    method BeginTask(c: CoId, n: nat)
      requires Valid() && c in cos && n < |queue|
      modifies this`queue, this`cos, this`cancelTasks, this`runningTasks, this`place, this`started
      ensures Valid() && cos.Keys == old(cos).Keys && |queue| == |old(queue)| - 1 && place.Keys == old(place).Keys
      ensures HasWorker(cos) == HasWorker(old(cos))
      ensures if old(queue)[n] in old(cancelTasks)
              then View() == DroppedFromQueue(old(View()), n) && cancelTasks == old(cancelTasks) - {old(queue)[n]}
              else View() == Began(old(View()), n, c) && cancelTasks == old(cancelTasks)
    {
      hide Inv, Marked, Below, HasWorker, Honest;
      var id := queue[n];
      InQueue(View(), n);
      queue := Without(queue, n);
      if id in cancelTasks {
        DroppedKeeps(old(View()), n);
        cancelTasks := cancelTasks - {id};
        MarkedMove(runningTasks, place, id, Cancelled);
        place := place[id := Cancelled];
      } else {
        BeganKeeps(old(View()), n, c);
        SameWorkers(cos, c, [id] + cos[c].stack);
        cos := cos[c := cos[c].(stack := [id] + cos[c].stack)];
        MarkedMove(runningTasks, place, id, Running(c));
        runningTasks := runningTasks + {id};
        place := place[id := Running(c)];
        started := started + [id];
      }
    }

    /** The innermost task of the coroutine is left. */
    method LeaveTask(c: CoId, r: TaskResult)
      requires Sums() && c in cos && cos[c].stack != []
      modifies this`cos, this`results, this`noWaits, this`runningTasks, this`place
      ensures Sums() && View() == Ended(old(View()), c, r) && place.Keys == old(place).Keys
      ensures cos.Keys == old(cos).Keys && HasWorker(cos) == HasWorker(old(cos))
    {
      hide Inv, Marked, Below, HasWorker;
      var id := cos[c].stack[0];
      OnStack(View(), c);
      EndedKeeps(View(), c, r);
      SameWorkers(cos, c, cos[c].stack[1..]);
      MarkedMove(runningTasks, place, id, if id in noWaits then Discarded else Stored);
      runningTasks := runningTasks - {id};
      cos := cos[c := cos[c].(stack := cos[c].stack[1..])];
      if id in noWaits {
        noWaits := noWaits - {id};
        place := place[id := Discarded];
      } else {
        assert id !in results;
        results := results[id := r];
        place := place[id := Stored];
      }
    }

    /** The second half of `try_run`: the result is discarded if nobody waits for it, otherwise stored; there is
        never an earlier result in the way. */
    method EndTask(c: CoId, r: TaskResult)
      requires Valid() && c in cos && cos[c].stack != []
      modifies this`cos, this`results, this`noWaits, this`runningTasks, this`place, this`ended
      ensures Valid() && View() == Ended(old(View()), c, r) && place.Keys == old(place).Keys
      ensures cos == old(cos)[c := old(cos)[c].(stack := old(cos)[c].stack[1..])]
      ensures cos.Keys == old(cos).Keys && HasWorker(cos) == HasWorker(old(cos))
      ensures var id := old(cos)[c].stack[0];
              && results == (if id in old(noWaits) then old(results) else old(results)[id := r])
              && ended == old(ended)[id := r]
    {
      ghost var id := cos[c].stack[0];
      OnStackIsNew(View(), c);
      hide Inv, Marked, Below, HasWorker, Honest, Sums;
      HonestEnd(results, ended, given, handed, id, r);
      LeaveTask(c, r);
      ended := ended[id := r];
    }

    /** The listener on `Complete`: one less, and the counter is never clipped. */
    method LeavePool(c: CoId)
      requires Valid() && c in cos && cos[c].stack == []
      modifies this`cos, this`running
      ensures Valid() && cos == old(cos) - {c} && running + 1 == old(running)
      ensures !old(cos)[c].worker && HasWorker(old(cos)) ==> HasWorker(cos)
    {
      hide Inv, Marked, Honest;
      WorkersAfterLeave(cos, c);
      LeaveKeeps(View(), c);
      assert |cos - {c}| == |cos| - 1;
      cos := cos - {c};
      running := SatSub(running, 1);
    }

    /** A worker that finds no task retires if it has been kept alive long enough and there are more than
        `min_size`, or if the pool is stopping. While the pool runs, the count stays at `min_size` or above. */
    method RetireWorker(c: CoId, keptAlive: bool) returns (retired: bool)
      requires Valid() && c in cos && cos[c] == Co(true, []) && queue == []
      modifies this`cos, this`running
      ensures Valid() && retired == ((keptAlive && old(running) > minSize) || state != PoolRunning)
      ensures retired ==> cos == old(cos) - {c} && running + 1 == old(running)
      ensures !retired ==> cos == old(cos) && running == old(running)
      ensures retired && state == PoolRunning ==> running >= minSize
    {
      retired := (keptAlive && running > minSize) || state != PoolRunning;
      if retired {
        LeavePool(c);
      }
    }

    /** The listener on `Cancelled` and `Error`: the coroutine is gone with the tasks it was in the middle of,
        and a worker replaces it if tasks are waiting. */
    method AbortCo(c: CoId, canCreate: bool)
      requires Valid() && c in cos
      modifies this`cos, this`nextCo, this`running, this`place
      ensures Valid()
      ensures var grows := queue != [] && canCreate; var left := old(cos) - {c};
              && running + 1 == old(running) + (if grows then 1 else 0)
              && cos == (if grows then left[old(nextCo) := Co(true, [])] else left)
              && (grows ==> HasWorker(cos))
      ensures View().(cos := old(cos) - {c}) == Gone(old(View()), c) && place.Keys == old(place).Keys
    {
      hide Inv, Marked, Honest;
      GoneKeeps(View(), c);
      assert |cos - {c}| == |cos| - 1;
      cos := cos - {c};
      MarkedGone(runningTasks, place, c);
      place := map id | id in place :: if place[id] == Running(c) then Lost else place[id];
      running := SatSub(running, 1);
      TryGrow(canCreate);
    }

    /** The scheduler's cancel set drops a coroutine silently: it stays counted. */
    method DropCo(c: CoId)
      requires Valid() && c in cos
      modifies this`cos, this`place, this`droppedCos
      ensures Valid() && View() == Gone(old(View()), c) && droppedCos == old(droppedCos) + 1
      ensures place.Keys == old(place).Keys && cos == old(cos) - {c}
    {
      hide Inv, Marked, Honest;
      GoneKeeps(View(), c);
      assert |cos - {c}| == |cos| - 1;
      cos := cos - {c};
      MarkedGone(runningTasks, place, c);
      place := map id | id in place :: if place[id] == Running(c) then Lost else place[id];
      droppedCos := droppedCos + 1;
    }

    method TakeStored(id: TaskId)
      requires Sums() && id in results
      modifies this`results, this`place, this`handed
      ensures Sums() && View() == HandedOut(old(View()), id) && place.Keys == old(place).Keys
    {
      hide Inv, Marked, Below;
      HandedOutKeeps(View(), id);
      InResults(View(), id);
      results := results - {id};
      MarkedMove(runningTasks, place, id, Taken);
      place := place[id := Taken];
      handed := handed + [id];
    }

    method TryTakeTaskResult(id: TaskId) returns (r: Option<TaskResult>)
      requires Valid()
      modifies this`results, this`place, this`handed, this`given
      ensures given == (if r.Some? then old(given)[id := r.value] else old(given))
      ensures Valid() && r == if id in old(results) then Some(old(results)[id]) else None
      ensures View() == if r.Some? then HandedOut(old(View()), id) else old(View())
      ensures place.Keys == old(place).Keys
    {
      hide Inv, Marked, Below, Honest;
      if id !in results {
        return None;
      }
      HonestTake(results, ended, given, handed, id);
      r := Some(results[id]);
      TakeStored(id);
      given := given[id := r.value];
    }

    method CleanUp(id: TaskId)
      requires Sums()
      modifies this`results, this`noWaits, this`place
      ensures Sums() && View() == CleanedUp(old(View()), id) && place.Keys == old(place).Keys
    {
      hide Inv, Marked, Below;
      CleanedUpKeeps(View(), id);
      if id in results {
        InResults(View(), id);
        MarkedMove(runningTasks, place, id, Discarded);
        results := results - {id};
        place := place[id := Discarded];
      } else {
        noWaits := noWaits + {id};
      }
    }

    method CleanTaskResult(id: TaskId)
      requires Valid()
      modifies this`results, this`noWaits, this`cancelTasks, this`place
      ensures Valid() && View() == CleanedUp(old(View()), id) && place.Keys == old(place).Keys
      ensures cancelTasks == if id in old(results) then old(cancelTasks) else old(cancelTasks) - {id}
    {
      hide Inv, Marked, Below, Honest;
      var stored := id in results;
      if stored {
        HonestTake(results, ended, given, handed, id);
      }
      CleanUp(id);
      if !stored {
        cancelTasks := cancelTasks - {id};
      }
    }

    /** `try_cancel_task`: a task that is running is stopped through its coroutine (`Abort`, `Drop`); any other is
        marked. A task that was lost with its coroutine still counts as running here. */
    method TryCancelTask(id: TaskId)
      requires Valid()
      modifies this`cancelTasks
      ensures Valid()
      ensures cancelTasks == old(cancelTasks) + if id in runningTasks then {} else {id}
      ensures id in runningTasks <==> id in place && Marks(place[id])
    {
      if id !in runningTasks {
        cancelTasks := cancelTasks + {id};
      }
    }

    method Serve(call: Call)
      requires Valid()
      modifies this
      ensures Valid() && state == old(state) && droppedCos == old(droppedCos)
      ensures state != PoolRunning ==> queue == old(queue)
      ensures HasWorker(cos) == HasWorker(old(cos))
      ensures Submitting(old(nextTask), old(place).Keys, Other(call), state, nextTask, place.Keys)
      ensures ended == old(ended)
      ensures given == if call.TakeResult? && call.id in old(results) then old(given)[call.id := old(results)[call.id]]
                       else old(given)
      ensures call.TakeResult? || call.CleanResult? ==> call.id !in results
      ensures call.CancelTask? ==> call.id in cancelTasks || call.id in runningTasks
    {
      hide Inv, HasWorker, HandedOut, CleanedUp, Submitted, Valid;
      if call.TakeResult? || call.CleanResult? {
        TakenMeans(View(), call.id, call.id);
      }
      match call {
        case Submit =>
          var _ := SubmitTask();
        case SubmitJob(canCreate) =>
          var _ := SubmitCo(false, canCreate);
        case TakeResult(id) =>
          var _ := TryTakeTaskResult(id);
        case CleanResult(id) =>
          CleanTaskResult(id);
        case CancelTask(id) =>
          TryCancelTask(id);
      }
    }

    lemma LiveIsOld(c: CoId)
      requires Valid() && c in cos
      ensures c < nextCo
    {
    }

    /** A step of a coroutine with a task. `over` is the task that has come to its end. */
    method TaskStep(s: Slice) returns (ghost over: Option<TaskId>)
      requires Valid() && (s.Begin? || s.End?)
      modifies this
      ensures Valid() && state == old(state) && droppedCos == old(droppedCos) && HasWorker(cos) == HasWorker(old(cos))
      ensures nextTask == old(nextTask) && place.Keys == old(place).Keys && |queue| <= |old(queue)|
      ensures over == if s.End? && s.co in old(cos) && old(cos)[s.co].stack != [] then Some(old(cos)[s.co].stack[0])
                      else None
      ensures ended == if over.Some? then old(ended)[over.value := s.result] else old(ended)
      ensures s.End? ==> cos == CosAfter(old(cos), s) && queue == old(queue)
      ensures s.Begin? && s.co in old(cos) && s.nth < |old(queue)| ==>
                var id := old(queue)[s.nth];
                |queue| + 1 == |old(queue)| && id in place
                && place[id] == if id in old(cancelTasks) then Cancelled else Running(s.co)
    {
      hide Inv, HasWorker, Began, Ended, DroppedFromQueue, Valid;
      over := None;
      match s {
        case Begin(c, n) =>
          if c in cos && n < |queue| {
            BeganMeans(View(), n, c);
            BeginTask(c, n);
          }
        case End(c, r) =>
          if c in cos && cos[c].stack != [] {
            over := Some(cos[c].stack[0]);
            EndedMeans(View(), c, r, 0);
            EndTask(c, r);
          }
      }
    }

    /** A step in which a coroutine joins or leaves. */
    method CoStep(s: Slice)
      requires Valid() && !s.Begin? && !s.End? && !s.Other?
      modifies this
      ensures Valid() && state == old(state) && queue == old(queue) && ended == old(ended)
      ensures nextTask == old(nextTask) && place.Keys == old(place).Keys
      ensures state != PoolRunning && old(Attended(queue, cos, droppedCos)) && Creates(s)
              ==> Attended(queue, cos, droppedCos)
      ensures droppedCos == old(droppedCos) + if s.Drop? && s.co in old(cos) then 1 else 0
      ensures s.FinishJob? ==> cos == CosAfter(old(cos), s)
      ensures s.Switch? ==>
                running == old(running) + if queue != [] && old(running) < maxSize && s.canCreate then 1 else 0
      ensures s.Retire? && s.co in old(cos) && old(cos)[s.co] == Co(true, []) && queue == [] ==>
                (s.co !in cos <==> (s.keptAlive && old(running) > minSize) || state != PoolRunning)
      ensures (s.Abort? || s.Drop?) && s.co in old(cos) ==> s.co !in cos
    {
      hide Inv, HasWorker, Gone, Valid;
      match s {
        case Switch(canCreate) =>
          TryGrow(canCreate);
        case Retire(c, keptAlive) =>
          if c in cos && cos[c] == Co(true, []) && queue == [] {
            var _ := RetireWorker(c, keptAlive);
          }
        case FinishJob(c) =>
          if c in cos && cos[c] == Co(false, []) {
            LeavePool(c);
          }
        case Abort(c, canCreate) =>
          if c in cos {
            LiveIsOld(c);
            AbortCo(c, canCreate);
          }
        case Drop(c) =>
          if c in cos {
            DropCo(c);
          }
      }
    }

    /** A step that cannot be taken now is skipped. Once the pool is stopping no task is added, and waiting tasks
        stay attended. */
    method Step(s: Slice) returns (ghost over: Option<TaskId>)
      requires Valid()
      modifies this
      ensures Valid() && state == old(state)
      ensures state != PoolRunning ==> |queue| <= |old(queue)|
      ensures state != PoolRunning && old(Attended(queue, cos, droppedCos)) && Creates(s)
              ==> Attended(queue, cos, droppedCos)
      ensures Quiet(s) ==> cos == CosAfter(old(cos), s) && queue == old(queue) && droppedCos == old(droppedCos)
      ensures Submitting(old(nextTask), old(place).Keys, s, state, nextTask, place.Keys)
      ensures over == if s.End? && s.co in old(cos) && old(cos)[s.co].stack != [] then Some(old(cos)[s.co].stack[0])
                      else None
      ensures ended == if over.Some? then old(ended)[over.value := s.result] else old(ended)
      ensures s.Begin? && s.co in old(cos) && s.nth < |old(queue)| ==> |queue| + 1 == |old(queue)|
      ensures (s.Abort? || s.Drop?) && s.co in old(cos) ==> s.co !in cos
    {
      hide Inv, HasWorker, Valid, Submitting;
      SubmitsNothing(nextTask, place.Keys, if s.Other? then Switch(true) else s, state);
      over := None;
      match s {
        case Begin(_, _) => over := TaskStep(s);
        case End(_, _) => over := TaskStep(s);
        case Other(call) => Serve(call);
        case _ => CoStep(s);
      }
    }

    method Steps(script: seq<Slice>) returns (ghost overs: seq<Option<TaskId>>)
      requires Valid()
      modifies this
      ensures |overs| == |script| && ended == EndedAfter(old(ended), script, overs)
      ensures Valid() && state == old(state)
      ensures state != PoolRunning ==> |queue| <= |old(queue)|
      ensures state != PoolRunning && old(Attended(queue, cos, droppedCos)) && (forall s | s in script :: Creates(s))
              ==> Attended(queue, cos, droppedCos)
      ensures (forall s | s in script :: Quiet(s)) ==>
                cos == CosAfterAll(old(cos), script) && queue == old(queue) && droppedCos == old(droppedCos)
      ensures state == PoolRunning && Counted(old(place).Keys, old(nextTask)) ==>
                nextTask == old(nextTask) + Submits(script) && Counted(place.Keys, nextTask)
    {
      hide Inv, CosAfter, Valid, Attended, EndedAfter;
      assert EndedAfter(ended, [], []) == ended by { NothingEnded(ended); }
      overs := [];
      for i := 0 to |script|
        invariant |overs| == i && ended == EndedAfter(old(ended), script[..i], overs)
        invariant Valid() && state == old(state)
        invariant state != PoolRunning ==> |queue| <= |old(queue)|
        invariant state != PoolRunning && (forall s | s in script :: Creates(s))
                  ==> (old(Attended(queue, cos, droppedCos)) ==> Attended(queue, cos, droppedCos))
        invariant (forall s | s in script :: Quiet(s)) ==>
                    && cos == CosAfterAll(old(cos), script[..i])
                    && queue == old(queue) && droppedCos == old(droppedCos)
        invariant state == PoolRunning && Counted(old(place).Keys, old(nextTask)) ==>
                    nextTask == old(nextTask) + Submits(script[..i]) && Counted(place.Keys, nextTask)
      {
        ghost var over := Step(script[i]);
        OneMoreEnd(old(ended), script[..i], overs, script[i], over);
        assert script[..i + 1] == script[..i] + [script[i]];
        assert script[..i + 1][..i] == script[..i];
        overs := overs + [over];
      }
      assert script[..|script|] == script;
    }

    lemma RunningMeans()
      requires Valid()
      ensures running == 0 ==> cos == map[] && droppedCos == 0 && !HasWorker(cos)
      ensures cos == map[] && droppedCos == 0 ==> running == 0
    {
    }

    /** `stop`. The loop of `do_stop` ends when the count is zero, or when the time is up, here after `rounds`, or
        with an error of the scheduling pass, which leaves the pool stopping. When it ends with the count zero,
        all tasks have been drained, provided workers could be created and the pool was not filled by
        coroutines of other code when it began. If it was, and these come to their end in the first pass, the
        tasks are still waiting. */
    method Stop(rounds: seq<Round>) returns (end: StopEnd, ghost passes: nat)
      requires Valid() && rounds != []
      modifies this
      ensures Valid() && (end == AlreadyStopped <==> old(state) == Stopped)
      ensures state == if end == Failed then Stopping else Stopped
      ensures end == AlreadyStopped ==> View() == old(View()) && running == old(running)
      ensures end == Idle ==> running == 0 && cos == map[]
      ensures end == TimedOut ==> passes == |rounds| && running > 0
      ensures end == Failed || end == Idle ==> 0 < passes <= |rounds| && rounds[passes - 1].fails == (end == Failed)
      ensures forall n | 0 <= n < passes - 1 && n < |rounds| :: !rounds[n].fails
      ensures |queue| <= |old(queue)|
      ensures end == Idle && old(Drainable()) && CreatesAll(rounds) ==> queue == []
      ensures end != AlreadyStopped && !old(Drainable()) && Empties(old(cos), rounds[0]) ==>
                end == Idle && queue == old(queue) && queue != []
    {
      hide Inv, CosAfterAll, Valid, HasWorker;
      if state == Stopped {
        return AlreadyStopped, 0;
      }
      passes := 0;
      var stopping := ChangeState(PoolRunning, Stopping);
      assert stopping;
      end := TimedOut;
      for i := 0 to |rounds|
        invariant Valid() && state == Stopping && end == TimedOut && |queue| <= |old(queue)|
        invariant i == 0 ==> View() == old(View()) && running == old(running) && droppedCos == old(droppedCos)
        invariant i > 0 && old(Drainable()) && CreatesAll(rounds) ==> Attended(queue, cos, droppedCos)
        invariant i > 0 && !old(Drainable()) ==> !Empties(old(cos), rounds[0])
        invariant passes == i && (i > 0 ==> running > 0) && forall n | 0 <= n < i :: !rounds[n].fails
      {
        TryGrow(rounds[i].canCreate);
        assert rounds[i] in rounds;
        ghost var overs := Steps(rounds[i].slices);
        passes := i + 1;
        if rounds[i].fails {
          return Failed, passes;
        }
        RunningMeans();
        if running == 0 {
          end := Idle;
          break;
        }
      }
      var stopped := ChangeState(Stopping, Stopped);
      assert stopped;
    }

    /** Whenever the coroutines of other code fill the whole pool and tasks wait, a pass in which these coroutines
        come to their end makes `stop` end with the count at zero and all the tasks still waiting. */
    method StopUndrained() returns (round: Round)
      requires Valid() && state != Stopped && !Drainable()
      modifies this
      ensures Valid() && state == Stopped && running == 0 && queue == old(queue) && queue != []
      ensures round.canCreate && Empties(old(cos), round)
    {
      hide Inv;
      var slices := EmptyingSlices(cos);
      round := Round(true, slices, false);
      ghost var passes;
      var end;
      end, passes := Stop([round]);
    }
  }

  /** In this pass all coroutines come to their end, and nothing else happens. */
  predicate Empties(cos: map<CoId, Co>, r: Round) {
    !r.fails && (forall s | s in r.slices :: Quiet(s)) && CosAfterAll(cos, r.slices) == map[]
  }

  /** Coroutines of other code can all come to their end. */
  method EmptyingSlices(cos: map<CoId, Co>) returns (ss: seq<Slice>)
    requires !HasWorker(cos)
    ensures (forall s | s in ss :: Quiet(s)) && CosAfterAll(cos, ss) == map[]
  {
    var left := cos;
    ss := [];
    while left != map[]
      invariant left == CosAfterAll(cos, ss) && left.Keys <= cos.Keys && forall s | s in ss :: Quiet(s)
      invariant forall c | c in left :: !left[c].worker
      decreases |left|
    {
      var c :| c in left;
      ghost var live := left.Keys;
      while left[c].stack != []
        invariant left == CosAfterAll(cos, ss) && left.Keys == live && forall s | s in ss :: Quiet(s)
        invariant forall o | o in left :: !left[o].worker
        decreases |left[c].stack|
      {
        ss, left := OneMoreSlice(cos, ss, left, End(c, Value(None)));
      }
      ss, left := OneMoreSlice(cos, ss, left, FinishJob(c));
      assert left.Keys == live - {c};
      assert |left| == |left.Keys|;
    }
  }

  method OneMoreSlice(cos: map<CoId, Co>, ss: seq<Slice>, left: map<CoId, Co>, s: Slice)
    returns (ss': seq<Slice>, left': map<CoId, Co>)
    requires left == CosAfterAll(cos, ss)
    ensures ss' == ss + [s] && left' == CosAfter(left, s) == CosAfterAll(cos, ss')
  {
    ss', left' := ss + [s], CosAfter(left, s);
    assert ss'[..|ss|] == ss;
  }

  /** A run from a new pool, of any size: other code fills it with its own coroutines, submits a task and stops
      it, and the task is still waiting when the pool has stopped idle. */
  method FilledByOthers(minSize: nat, maxSize: nat) returns (p: CoroutinePool, round: Round)
    ensures p.Valid() && p.minSize == minSize && p.maxSize == maxSize
    ensures p.state == Stopped && p.running == 0 && p.queue != [] && round.canCreate && !round.fails
  {
    p := new CoroutinePool(minSize, maxSize);
    hide Inv;
    for n := 0 to maxSize
      invariant fresh(p) && p.Valid() && p.state == PoolRunning && p.maxSize == maxSize && p.minSize == minSize
      invariant p.running == n && p.droppedCos == 0 && !HasWorker(p.cos)
    {
      var ok := p.SubmitCo(false, true);
    }
    var id := p.SubmitTask();
    round := p.StopUndrained();
  }

  lemma WorkersAfterJoin(cos: map<CoId, Co>, c: CoId, co: Co)
    requires c !in cos
    ensures HasWorker(cos) || co.worker <==> HasWorker(cos[c := co])
  {
    if HasWorker(cos) {
      var w :| w in cos && cos[w].worker;
      assert cos[c := co][w].worker;
    }
    if co.worker {
      assert cos[c := co][c].worker;
    }
  }

  lemma WorkersAfterLeave(cos: map<CoId, Co>, c: CoId)
    requires c in cos
    ensures !cos[c].worker && HasWorker(cos) ==> HasWorker(cos - {c})
  {
    if !cos[c].worker && HasWorker(cos) {
      var w :| w in cos && cos[w].worker;
      assert w in cos - {c};
    }
  }

  lemma SameWorkers(cos: map<CoId, Co>, c: CoId, stack: seq<TaskId>)
    requires c in cos
    ensures var cos' := cos[c := cos[c].(stack := stack)]; cos'.Keys == cos.Keys && HasWorker(cos') == HasWorker(cos)
  {
    var cos' := cos[c := cos[c].(stack := stack)];
    assert cos'.Keys == cos.Keys;
    assert forall o | o in cos :: cos'[o].worker == cos[o].worker;
    if HasWorker(cos) {
      var w :| w in cos && cos[w].worker;
      assert cos'[w].worker;
    }
  }

  /** Every run of a pool that has not been stopped: the tasks are those that were submitted, the accounts are right,
      and no more coroutines are live than counted, nor counted than allowed. */
  method AnyRun(minSize: nat, maxSize: nat, script: seq<Slice>)
    returns (p: CoroutinePool, ghost overs: seq<Option<TaskId>>)
    ensures p.Valid() && p.state == PoolRunning && p.minSize == minSize && p.maxSize == maxSize
    ensures |p.cos| <= p.running <= maxSize && (p.droppedCos == 0 ==> p.running == |p.cos|)
    ensures forall id :: Accounted(p.View(), id)
    ensures forall i, j | 0 <= i < j < |p.started| :: p.started[i] != p.started[j]
    ensures forall i, j | 0 <= i < j < |p.handed| :: p.handed[i] != p.handed[j]
    ensures p.results.Keys !! p.noWaits
    ensures forall id: nat :: id in p.place <==> id < Submits(script)
    ensures |overs| == |script| && p.ended == EndedAfter(map[], script, overs)
    ensures forall id | id in p.ended :: exists n: nat :: EndedAt(script, overs, n, id, p.ended[id])
    ensures forall id | id in p.results :: id in p.ended && p.results[id] == p.ended[id]
    ensures forall id | id in p.handed :: id in p.given && id in p.ended && p.given[id] == p.ended[id]
  {
    p := new CoroutinePool(minSize, maxSize);
    overs := p.Steps(script);
    forall id | id in p.ended ensures exists n: nat :: EndedAt(script, overs, n, id, p.ended[id]) {
      EndHasStep(script, overs, id);
    }
    AtMostOnce(p.View());
    hide EndedAfter, EndedAt;
  }
}
