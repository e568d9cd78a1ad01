/** No item of the shared queue starves: the forced look on every 61st tick, over whole runs. */
module OrderedFairness {

  import opened Basics
  import opened SkipMaps
  import opened OrderedQueues
  import opened OrderedRuns

  /** How many ticks from `t` on until the next forced look, counting it. The tick is a `u32` that goes on
      with 0 after its maximum, and 0 is a multiple of 61 too. */
  function UntilForced(t: nat): (d: nat)
    requires t <= U32_MAX
    ensures 1 <= d <= FORCED_PERIOD
  {
    Min(FORCED_PERIOD - t % FORCED_PERIOD, U32_MAX + 1 - t)
  }

  lemma TickCountsDown(t: nat)
    requires t <= U32_MAX
    ensures NextTick(t) <= U32_MAX
    ensures UntilForced(t) == 1 <==> NextTick(t) % FORCED_PERIOD == 0
    ensures UntilForced(t) > 1 ==> UntilForced(NextTick(t)) == UntilForced(t) - 1
  {
    var d := FORCED_PERIOD;
    assert t == d * (t / d) + t % d;
    if t % d == d - 1 {
      assert t + 1 == d * (t / d + 1);
      assert (t + 1) % d == 0;
    } else {
      assert t + 1 == d * (t / d) + (t % d + 1);
      assert (t + 1) % d == t % d + 1;
    }
  }

  function TicksLater(t: nat, n: nat): nat { if n == 0 then t else NextTick(TicksLater(t, n - 1)) }

  /** Among any 61 consecutive ticks of a handle, across the wrap of the counter too, one is forced. */
  lemma ForcedWithin61(t: nat) returns (n: nat)
    requires t <= U32_MAX
    ensures 1 <= n <= 61 && TicksLater(t, n) % FORCED_PERIOD == 0
  {
    n := UntilForced(t);
    var m := 0;
    while m < n - 1
      invariant m <= n - 1
      invariant TicksLater(t, m) <= U32_MAX && UntilForced(TicksLater(t, m)) == n - m
    {
      TickCountsDown(TicksLater(t, m));
      m := m + 1;
    }
    TickCountsDown(TicksLater(t, n - 1));
  }

  // ---- One item of the shared queue, followed through a run ----

  /** How many items leave the shared queue before the one at position `idx` of key `k`. */
  ghost function Ahead<T>(q: Queues<T>, k: int, idx: nat): nat { SizeBelow(q.shared, k) + idx }

  /** A call takes the first item of the shared queue. */
  ghost predicate SharedTaken<T>(q: Queues<T>, q': Queues<T>, out: Option<(int, T)>) {
    && out.Some? && PopFirst(q.shared).0 == out && q'.shared == PopFirst(q.shared).1
  }

  /** A call at most appends to the queues of the shared queue. */
  ghost predicate SharedGrown<T>(q: Queues<T>, q': Queues<T>) {
    forall l :: Get(q.shared, l) <= Get(q'.shared, l)
  }

  ghost predicate SameTicks<T>(q: Queues<T>, q': Queues<T>) {
    |q'.handles| == |q.handles| && forall v | 0 <= v < |q.handles| :: q'.handles[v].tick == q.handles[v].tick
  }

  /** Local pops, steals and shared pops tick no handle; only the last touches the shared queue. */
  lemma FramesOfPop<T>(q: Queues<T>, i: nat)
    requires i < |q.handles|
    ensures SameTicks(q, LocalPop(q, i).0) && LocalPop(q, i).0.shared == q.shared
    ensures SameTicks(q, SharedPop(q).0)
    ensures SharedPop(q).0.shared == if SharedPop(q).1 == None then q.shared else PopFirst(q.shared).1
    ensures SharedPop(q).1 == None || SharedPop(q).1 == PopFirst(q.shared).0
  {
  }

  lemma FrameOfSteal<T>(q: Queues<T>, i: nat, v: nat)
    requires i < |q.handles| && v < |q.handles| && HasItems(q.handles[v].queue)
    ensures SameTicks(q, Steal(q, i, v)) && Steal(q, i, v).shared == q.shared
  {
  }

  /** What a `pop` does to the shared queue and to the ticks of all handles. */
  lemma PopAndShared<T(00)>(q: Queues<T>, i: nat, start: nat)
    requires Inv(q) && i < |q.handles| && start < |q.handles|
    ensures var (q', out) := OrderedQueues.Pop(q, i, start);
            && (SharedTaken(q, q', out) || q'.shared == q.shared)
            && (NextTick(q.handles[i].tick) % FORCED_PERIOD == 0 && Size(q.shared) > 0 ==> SharedTaken(q, q', out))
            && |q'.handles| == |q.handles| && q'.handles[i].tick == NextTick(q.handles[i].tick)
            && forall v | 0 <= v < |q.handles| && v != i :: q'.handles[v].tick == q.handles[v].tick
  {
    hide PopFirst, Size, Inv, Count, FirstVictim, HasItems, LocalPop, SharedPop, Steal;
    var x: T :| true;
    var q1 := Ticked(q, i);
    TickedKeeps(q, i, 0, x);
    SharedPopKeeps(q1, 0, x);
    FramesOfPop(q1, i);
    var n := FirstVictim(q1, start, 0);
    if n < |q1.handles| {
      var v := Scanned(start, n, |q1.handles|);
      FrameOfSteal(q1, i, v);
      FramesOfPop(Steal(q1, i, v), i);
    }
  }

  lemma SharedGrowsOrGives<T(00)>(q: Queues<T>, op: Op<T>, out: Option<(int, T)>, q': Queues<T>)
    requires Inv(q) && Step(q, op, out, q')
    ensures SharedTaken(q, q', out) || SharedGrown(q, q')
  {
    match op
    case Pop(i, start) => PopAndShared(q, i, start);
    case PushShared(k, x) =>
      forall l ensures Get(q.shared, l) <= Get(q'.shared, l) {
        PushBackMeaning(q.shared, k, [x], l);
      }
    case _ =>
  }

  lemma {:induction false} GetInSizeBelow<T>(m: SkipMap<T>, k: int, l: int)
    requires k < l
    ensures |Get(m, k)| <= SizeBelow(m, l)
  {
    if m != [] && m[0].key != k {
      GetInSizeBelow(m[1..], k, l);
    }
  }

  /** Where the followed item is after the first item of the shared queue has been taken. */
  lemma TakenMovesUp<T>(m: SkipMap<T>, k: int, idx: nat)
    requires Sorted(m) && PopFirst(m).0.Some? && idx < |Get(m, k)|
    ensures var (l, y) := PopFirst(m).0.value; var r := PopFirst(m).1;
            if l == k && idx == 0 then y == Get(m, k)[0]
            else
              var idx' := if l == k then idx - 1 else idx;
              && idx' < |Get(r, k)| && Get(r, k)[idx'] == Get(m, k)[idx]
              && SizeBelow(r, k) + idx' + 1 == SizeBelow(m, k) + idx
  {
    PopFirstMeaning(m, k);
    var (l, y) := PopFirst(m).0.value;
    if k < l {
      GetInSizeBelow(m, k, l);
    }
  }

  /** Calls of a run that take an item of key `k` from the shared queue. */
  ghost function TakenOf<T>(qs: seq<Queues<T>>, outs: seq<Option<(int, T)>>, k: int): nat
    requires |qs| == |outs| + 1
  {
    if outs == [] then 0
    else (if Takes(qs[0], qs[1], outs[0], k) then 1 else 0) + TakenOf(qs[1..], outs[1..], k)
  }

  ghost predicate Takes<T>(q: Queues<T>, q': Queues<T>, out: Option<(int, T)>, k: int) {
    SharedTaken(q, q', out) && out.value.0 == k
  }

  ghost function PopsBy<T>(ops: seq<Op<T>>, h: nat): nat {
    if ops == [] then 0 else (if ops[0].Pop? && ops[0].handle == h then 1 else 0) + PopsBy(ops[1..], h)
  }

  /** An upper bound of the pops of handle `h` before the item has left. */
  ghost function Patience<T>(q: Queues<T>, h: nat, k: int, idx: nat): nat
    requires h < |q.handles| && q.handles[h].tick <= U32_MAX
  {
    61 * Ahead(q, k, idx) + UntilForced(q.handles[h].tick)
  }

  /** The followed item is the one at position `idx` of key `k`. */
  ghost predicate Waits<T>(q: Queues<T>, h: nat, k: int, idx: nat, x: T) {
    Inv(q) && h < |q.handles| && idx < |Get(q.shared, k)| && Get(q.shared, k)[idx] == x
  }

  /** No item of a higher precedence than `k` arrives in the shared queue. */
  ghost predicate NoneArrivesBelow<T>(q: Queues<T>, q': Queues<T>, k: int) {
    SizeBelow(q'.shared, k) <= SizeBelow(q.shared, k)
  }

  lemma TicksOfOthers<T(00)>(q: Queues<T>, op: Op<T>, out: Option<(int, T)>, q': Queues<T>, h: nat)
    requires Inv(q) && Step(q, op, out, q') && h < |q.handles|
    ensures |q'.handles| == |q.handles|
    ensures q'.handles[h].tick == if op.Pop? && op.handle == h then NextTick(q.handles[h].tick) else q.handles[h].tick
  {
    if op.Pop? {
      hide OrderedQueues.Pop;
      PopAndShared(q, op.handle, op.start);
    }
  }

  /** One call: either it takes the followed item, or the item waits on and each pop of `h` costs patience. */
  lemma FollowStep<T(00)>(q: Queues<T>, op: Op<T>, out: Option<(int, T)>, q': Queues<T>, h: nat, k: int, idx: nat, x: T)
    returns (idx': nat)
    requires Waits(q, h, k, idx, x) && Step(q, op, out, q') && NoneArrivesBelow(q, q', k)
    ensures if Takes(q, q', out, k) && idx == 0 then out == Some((k, x))
            else
              && idx' + (if Takes(q, q', out, k) then 1 else 0) == idx
              && Waits(q', h, k, idx', x)
              && Patience(q', h, k, idx') + (if op.Pop? && op.handle == h then 1 else 0) <= Patience(q, h, k, idx)
  {
    StepKeeps(q, op, out, q', k, x);
    SharedGrowsOrGives(q, op, out, q');
    TicksOfOthers(q, op, out, q', h);
    idx' := if Takes(q, q', out, k) && idx > 0 then idx - 1 else idx;
    assert q.handles[h].tick <= U32_MAX by { assert HandleInv(q.handles[h], q.capacity); }
    var forced := op.Pop? && op.handle == h && UntilForced(q.handles[h].tick) == 1;
    TickCountsDown(q.handles[h].tick);
    if forced {
      BucketInSize(q.shared, k);
      PopAndShared(q, op.handle, op.start);
    }
    hide Step, Inv, Size, PopFirst, UntilForced, NextTick;
    if SharedTaken(q, q', out) {
      assert Sorted(q.shared) by { WellFormedShared(q); }
      TakenMovesUp(q.shared, k, idx);
    } else {
      assert Get(q.shared, k) <= Get(q'.shared, k);
    }
  }

  lemma WellFormedShared<T>(q: Queues<T>)
    requires Inv(q)
    ensures Sorted(q.shared)
  {
  }

  /** Following the item through a run in which handle `h` pops often enough: call `j` takes it, after
      exactly the `idx` items that were before it in the queue of its key. */
  lemma {:induction false} LeavesWithinPatience<T(00)>(qs: seq<Queues<T>>, ops: seq<Op<T>>, outs: seq<Option<(int, T)>>,
                                         h: nat, k: int, idx: nat, x: T) returns (j: nat)
    requires Run(qs, ops, outs) && Waits(qs[0], h, k, idx, x)
    requires forall n | 0 <= n < |ops| :: NoneArrivesBelow(qs[n], qs[n + 1], k)
    requires PopsBy(ops, h) >= Patience(qs[0], h, k, idx)
    ensures j < |ops| && outs[j] == Some((k, x)) && Takes(qs[j], qs[j + 1], outs[j], k)
    ensures TakenOf(qs[..j + 1], outs[..j], k) == idx
    decreases |ops|
  {
    hide Waits, Step, Patience, Takes, NoneArrivesBelow;
    PatiencePositive(qs[0], h, k, idx, x);
    assert Step(qs[0], ops[0], outs[0], qs[1]) && NoneArrivesBelow(qs[0], qs[1], k);
    var idx' := FollowStep(qs[0], ops[0], outs[0], qs[1], h, k, idx, x);
    if Takes(qs[0], qs[1], outs[0], k) && idx == 0 {
      j := 0;
    } else {
      var qs', ops', outs' := qs[1..], ops[1..], outs[1..];
      forall n | 0 <= n < |ops'|
        ensures Step(qs'[n], ops'[n], outs'[n], qs'[n + 1]) && NoneArrivesBelow(qs'[n], qs'[n + 1], k)
      {
        assert Step(qs[n + 1], ops[n + 1], outs[n + 1], qs[n + 2]) && NoneArrivesBelow(qs[n + 1], qs[n + 2], k);
      }
      var m := LeavesWithinPatience(qs', ops', outs', h, k, idx', x);
      j := m + 1;
      assert qs[..j + 1][1..] == qs'[..m + 1] && outs[..j][1..] == outs'[..m];
    }
  }

  lemma PatiencePositive<T>(q: Queues<T>, h: nat, k: int, idx: nat, x: T)
    requires Waits(q, h, k, idx, x)
    ensures h < |q.handles| && q.handles[h].tick <= U32_MAX
    ensures 1 <= Patience(q, h, k, idx) <= 61 * (Ahead(q, k, idx) + 1)
  {
    assert HandleInv(q.handles[h], q.capacity);
  }

  /** An item of the shared queue with `r` items ahead of it leaves within `61 * (r + 1)` pops of any one
      handle, whatever the other handles do, if no higher precedence arrives in the shared queue. */
  lemma NoStarvation<T(00)>(qs: seq<Queues<T>>, ops: seq<Op<T>>, outs: seq<Option<(int, T)>>,
                            h: nat, k: int, idx: nat, x: T)
    returns (j: nat)
    requires Run(qs, ops, outs) && Waits(qs[0], h, k, idx, x)
    requires forall n | 0 <= n < |ops| :: NoneArrivesBelow(qs[n], qs[n + 1], k)
    requires PopsBy(ops, h) >= 61 * (Ahead(qs[0], k, idx) + 1)
    ensures j < |ops| && outs[j] == Some((k, x)) && Takes(qs[j], qs[j + 1], outs[j], k)
    ensures TakenOf(qs[..j + 1], outs[..j], k) == idx
  {
    PatiencePositive(qs[0], h, k, idx, x);
    j := LeavesWithinPatience(qs, ops, outs, h, k, idx, x);
  }
}
