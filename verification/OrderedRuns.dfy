/** Every run of whole `push` and `pop` calls by any number of handles: nothing is lost or duplicated, and the
    hand-kept counters stay right. */
module OrderedRuns {

  import opened Basics
  import opened SkipMaps
  import opened OrderedQueues

  datatype Op<T> =
    | Push(handle: nat, key: int, item: T)
    | Pop(handle: nat, start: nat)
    | PushShared(key: int, item: T)
    | PopShared

  /** One completed call and what it returned. */
  ghost predicate Step<T>(q: Queues<T>, op: Op<T>, out: Option<(int, T)>, q': Queues<T>) {
    match op
    case Push(i, k, x) => i < |q.handles| && out == None && Pushed(q, i, k, x, q')
    case Pop(i, start) => i < |q.handles| && start < |q.handles| && (q', out) == OrderedQueues.Pop(q, i, start)
    case PushShared(k, x) => out == None && q' == SharedPush(q, k, x)
    case PopShared => (q', out) == SharedPop(q)
  }

  /** The states `qs` are passed one after the other by the calls `ops`. */
  ghost predicate Run<T>(qs: seq<Queues<T>>, ops: seq<Op<T>>, outs: seq<Option<(int, T)>>) {
    && |qs| == |ops| + 1 && |outs| == |ops|
    && forall j | 0 <= j < |ops| :: Step(qs[j], ops[j], outs[j], qs[j + 1])
  }

  /** The items with key `k` that are in the shared queue or in some local queue. */
  ghost function Held<T>(q: Queues<T>, k: int): multiset<T> {
    multiset(Get(q.shared, k)) + LocallyHeld(q.handles, k)
  }

  ghost function LocallyHeld<T>(hs: seq<Handle<T>>, k: int): multiset<T> {
    if hs == [] then multiset{} else multiset(Get(hs[0].queue, k)) + LocallyHeld(hs[1..], k)
  }

  /** What one call brings in, and takes out, under key `k`. */
  ghost function In<T>(op: Op<T>, k: int): multiset<T> {
    if (op.Push? || op.PushShared?) && op.key == k then multiset{op.item} else multiset{}
  }

  ghost function Out<T>(out: Option<(int, T)>, k: int): multiset<T> {
    if out.Some? && out.value.0 == k then multiset{out.value.1} else multiset{}
  }

  ghost function AllIn<T>(ops: seq<Op<T>>, k: int): multiset<T> {
    if ops == [] then multiset{} else AllIn(ops[..|ops| - 1], k) + In(ops[|ops| - 1], k)
  }

  ghost function AllOut<T>(outs: seq<Option<(int, T)>>, k: int): multiset<T> {
    if outs == [] then multiset{} else AllOut(outs[..|outs| - 1], k) + Out(outs[|outs| - 1], k)
  }

  /** How often `x` is held under key `k`. */
  ghost function Count<T>(q: Queues<T>, k: int, x: T): nat { Held(q, k)[x] }

  lemma {:induction false} HeldSetHandle<T>(hs: seq<Handle<T>>, i: nat, h: Handle<T>, k: int, x: T)
    requires i < |hs|
    ensures LocallyHeld(hs[i := h], k)[x] + Occurs(Get(hs[i].queue, k), x)
         == LocallyHeld(hs, k)[x] + Occurs(Get(h.queue, k), x)
  {
    if i == 0 {
      assert hs[i := h][1..] == hs[1..];
    } else {
      assert hs[i := h][1..] == hs[1..][i - 1 := h];
      HeldSetHandle(hs[1..], i - 1, h, k, x);
    }
  }

  /** Replacing one handle by one that keeps the handle invariant. */
  lemma SetHandleKeeps<T>(q: Queues<T>, i: nat, h: Handle<T>, k: int, x: T)
    requires Inv(q) && i < |q.handles| && Sorted(h.queue) && HandleInv(h, q.capacity)
    ensures Inv(SetHandle(q, i, h))
    ensures Count(SetHandle(q, i, h), k, x) + Occurs(Get(q.handles[i].queue, k), x)
         == Count(q, k, x) + Occurs(Get(h.queue, k), x)
  {
    HeldSetHandle(q.handles, i, h, k, x);
  }

  lemma SharedPushKeeps<T>(q: Queues<T>, l: int, y: T, k: int, x: T)
    requires Inv(q)
    ensures Inv(SharedPush(q, l, y))
    ensures Count(SharedPush(q, l, y), k, x) == Count(q, k, x) + In(PushShared(l, y), k)[x]
  {
    PushBackMeaning(q.shared, l, [y], k);
    OccursConcat(Get(q.shared, k), if k == l then [y] else [], x);
  }

  /** A shared `pop` fails only on an empty shared queue, and its counter is never clipped at zero. */
  lemma SharedPopKeeps<T>(q: Queues<T>, k: int, x: T)
    requires Inv(q)
    ensures var (q', out) := SharedPop(q);
            && Inv(q')
            && (out == None <==> Size(q.shared) == 0)
            && (out == None ==> q' == q)
            && (out.Some? ==> q'.sharedLen + 1 == q.sharedLen)
            && Count(q, k, x) == Count(q', k, x) + Out(out, k)[x]
  {
    PopFirstFails(q.shared);
    var (q', out) := SharedPop(q);
    if out.Some? {
      PopFirstMeaning(q.shared, k);
      OccursConcat(if k == out.value.0 then [out.value.1] else [], Get(q'.shared, k), x);
    }
  }

  /** Taking from the own queue never clips the handle's counter at zero. */
  lemma LocalPopKeeps<T>(q: Queues<T>, i: nat, k: int, x: T)
    requires Inv(q) && i < |q.handles|
    ensures var (q', out) := LocalPop(q, i);
            && Inv(q')
            && (out == None <==> Size(q.handles[i].queue) == 0)
            && (out == None ==> q' == q)
            && (out.Some? ==> q'.handles[i].len + 1 == q.handles[i].len)
            && Count(q, k, x) == Count(q', k, x) + Out(out, k)[x]
  {
    var m := q.handles[i].queue;
    PopFirstFails(m);
    var (q', out) := LocalPop(q, i);
    if out.Some? {
      PopFirstMeaning(m, k);
      SetHandleKeeps(q, i, q'.handles[i], k, x);
      OccursConcat(if k == out.value.0 then [out.value.1] else [], Get(PopFirst(m).1, k), x);
    }
  }

  lemma TickedKeeps<T>(q: Queues<T>, i: nat, k: int, x: T)
    requires Inv(q) && i < |q.handles|
    ensures Inv(Ticked(q, i)) && Count(Ticked(q, i), k, x) == Count(q, k, x)
  {
    SetHandleKeeps(q, i, Ticked(q, i).handles[i], k, x);
  }

  /** A handle that does not look full has room in each of its workers: the fallback of `push` is dead. */
  lemma WorkerNeverFull<T>(q: Queues<T>, i: nat, k: int)
    requires Inv(q) && i < |q.handles| && !LocalFull(q.handles[i], q.capacity)
    ensures !WorkerFull(q, i, k)
  {
    BucketInSize(q.handles[i].queue, k);
  }

  lemma LocalPushKeeps<T>(q: Queues<T>, i: nat, l: int, y: T, k: int, x: T)
    requires Inv(q) && i < |q.handles| && !LocalFull(q.handles[i], q.capacity)
    ensures Inv(LocalPush(q, i, l, y))
    ensures Count(LocalPush(q, i, l, y), k, x) == Count(q, k, x) + In(Push(i, l, y), k)[x]
  {
    var m := q.handles[i].queue;
    PushBackMeaning(m, l, [y], k);
    SetHandleKeeps(q, i, LocalPush(q, i, l, y).handles[i], k, x);
    OccursConcat(Get(m, k), if k == l then [y] else [], x);
  }

  lemma DropFrontsSorted<T>(m: SkipMap<T>, g: seq<nat>)
    requires Sorted(m) && Fits(m, g)
    ensures Sorted(DropFronts(m, g))
  {
    assert forall j | 0 <= j < |m| :: DropFronts(m, g)[j].key == m[j].key;
  }

  /** The overflow moves exactly half of `len`, without clipping the counter. */
  lemma OverflowKeeps<T>(q: Queues<T>, i: nat, l: int, y: T, q': Queues<T>, g: seq<nat>, k: int, x: T)
    requires Inv(q) && i < |q.handles| && Overflowed(q, i, l, y, q', g)
    ensures Inv(q') && SameShape(q, q')
    ensures Count(q', k, x) == Count(q, k, x) + In(Push(i, l, y), k)[x]
    ensures q'.handles[i].len + q.handles[i].len / 2 == q.handles[i].len
    ensures Size(q'.handles[i].queue) + q.handles[i].len / 2 == Size(q.handles[i].queue)
  {
    var m := q.handles[i].queue;
    var moved := Given(m, g, k);
    SizeDropFronts(m, g);
    DropFrontsSorted(m, g);
    SetHandleKeeps(q, i, q'.handles[i], k, x);
    GetDropFronts(m, g, k);
    OccursConcat(moved, Get(DropFronts(m, g), k), x);
    OccursConcat(Get(q.shared, k), moved, x);
    OccursConcat(Get(q.shared, k) + moved, if k == l then [y] else [], x);
  }

  /** How many of `n` items a handle that may steal takes. */
  function Loot<T>(h: Handle<T>, capacity: nat, n: nat): nat {
    Min((n + 1) / 2, SatSub((capacity + 1) / 2, h.len))
  }

  /** What one steal from `v` does: it takes the front of the smallest key of `v`, at least one item and
      at most half rounded up, into the same key of the empty queue of `i`, oldest first. */
  lemma StealMeaning<T>(q: Queues<T>, i: nat, v: nat)
    requires Inv(q) && i < |q.handles| && v < |q.handles|
    requires Size(q.handles[i].queue) == 0 && HasItems(q.handles[v].queue)
    requires CanSteal(q.handles[i], q.capacity)
    ensures v != i
    ensures var h, m := q.handles[i], q.handles[v].queue;
            var j := FirstNonEmpty(m);
            var Bucket(k, xs) := m[j];
            var c := Loot(h, q.capacity, |xs|);
            && 1 <= c <= |xs| && h.len + c <= q.capacity && SizeBelow(m, k) == 0
            && Steal(q, i, v)
            == SetHandle(SetHandle(q, v, q.handles[v].(queue := SetItems(m, j, xs[c..]))),
                         i, h.(queue := PushBack(h.queue, k, xs[..c]), len := h.len + c))
  {
    var h, m := q.handles[i], q.handles[v].queue;
    SizeZero(h.queue);
    var j := FirstNonEmpty(m);
    var Bucket(k, xs) := m[j];
    EmptyGet(h.queue, k);
    NothingBelow(m, j);
    var c := StealCount(h, q.capacity, |xs|, Get(h.queue, k));
    PushBackMeaning(h.queue, k, xs[..c], k);
    assert [] + xs[..c] == xs[..c];
  }

  /** Moving a front of bucket `j` of `v` to the same key of another handle, counted by its `len`. */
  lemma TransferKeeps<T>(q: Queues<T>, i: nat, v: nat, j: nat, c: nat, l: int, x: T)
    requires Inv(q) && i < |q.handles| && v < |q.handles| && v != i
    requires j < |q.handles[v].queue| && c <= |q.handles[v].queue[j].items|
    requires q.handles[i].len + c <= q.capacity
    ensures var h, m := q.handles[i], q.handles[v].queue;
            var Bucket(k, xs) := m[j];
            var q1 := SetHandle(q, v, q.handles[v].(queue := SetItems(m, j, xs[c..])));
            var q2 := SetHandle(q1, i, h.(queue := PushBack(h.queue, k, xs[..c]), len := h.len + c));
            && Inv(q2) && Count(q2, l, x) == Count(q, l, x)
            && Size(q2.handles[i].queue) == Size(h.queue) + c
  {
    hide Get, Size, PushBack, SizeBelow, Sorted, Count;
    var h, m := q.handles[i], q.handles[v].queue;
    var Bucket(k, xs) := m[j];
    var robbed := q.handles[v].(queue := SetItems(m, j, xs[c..]));
    var fed := h.(queue := PushBack(h.queue, k, xs[..c]), len := h.len + c);
    PushBackMeaning(h.queue, k, xs[..c], l);
    SetItemsMeaning(m, j, xs[c..], l);
    SetHandleKeeps(q, v, robbed, l, x);
    SetHandleKeeps(SetHandle(q, v, robbed), i, fed, l, x);
    GetAt(m, j);
    OccursConcat(Get(h.queue, l), if l == k then xs[..c] else [], x);
    assert xs == xs[..c] + xs[c..];
    OccursConcat(xs[..c], xs[c..], x);
  }

  lemma StealKeeps<T>(q: Queues<T>, i: nat, v: nat, l: int, x: T)
    requires Inv(q) && i < |q.handles| && v < |q.handles|
    requires Size(q.handles[i].queue) == 0 && HasItems(q.handles[v].queue)
    requires CanSteal(q.handles[i], q.capacity)
    ensures Inv(Steal(q, i, v)) && Size(Steal(q, i, v).handles[i].queue) > 0
    ensures Count(Steal(q, i, v), l, x) == Count(q, l, x)
  {
    hide Get, Size, PushBack, SizeBelow, Sorted, Count, Inv, Steal;
    StealMeaning(q, i, v);
    var j := FirstNonEmpty(q.handles[v].queue);
    var n := |q.handles[v].queue[j].items|;
    TransferKeeps(q, i, v, j, Loot(q.handles[i], q.capacity, n), l, x);
  }

  // ---- Whole calls and whole runs ----

  lemma HasItemsIff<T>(m: SkipMap<T>)
    ensures HasItems(m) <==> Size(m) > 0
  {
    SizeZero(m);
  }

  lemma PopKeeps<T>(q: Queues<T>, i: nat, start: nat, k: int, x: T)
    requires Inv(q) && i < |q.handles| && start < |q.handles|
    ensures var (q', out) := OrderedQueues.Pop(q, i, start);
            Inv(q') && Count(q, k, x) == Count(q', k, x) + Out(out, k)[x]
  {
    hide Size, Count, Inv, Steal, LocalPop, SharedPop, FirstVictim, HasItems, Ticked;
    var q1 := Ticked(q, i);
    TickedKeeps(q, i, k, x);
    SharedPopKeeps(q1, k, x);
    LocalPopKeeps(q1, i, k, x);
    var h := q1.handles[i];
    HasItemsIff(h.queue);
    var n := FirstVictim(q1, start, 0);
    if !HasItems(h.queue) && CanSteal(h, q1.capacity) && n < |q1.handles| {
      var v := Scanned(start, n, |q1.handles|);
      StealKeeps(q1, i, v, k, x);
      LocalPopKeeps(Steal(q1, i, v), i, k, x);
    }
  }

  /** One completed call keeps the invariant and neither loses nor duplicates an item. */
  lemma StepKeeps<T>(q: Queues<T>, op: Op<T>, out: Option<(int, T)>, q': Queues<T>, k: int, x: T)
    requires Inv(q) && Step(q, op, out, q')
    ensures Inv(q') && SameShape(q, q')
    ensures Count(q, k, x) + In(op, k)[x] == Count(q', k, x) + Out(out, k)[x]
  {
    hide Count, Inv, Overflowed, OrderedQueues.Pop, SharedPop, SharedPush, LocalPush, WorkerFull, SameShape;
    match op
    case Push(i, l, y) =>
      if LocalFull(q.handles[i], q.capacity) || WorkerFull(q, i, l) {
        var g :| Overflowed(q, i, l, y, q', g);
        OverflowKeeps(q, i, l, y, q', g, k, x);
      } else {
        LocalPushKeeps(q, i, l, y, k, x);
      }
    case Pop(i, start) => PopKeeps(q, i, start, k, x);
    case PushShared(l, y) => SharedPushKeeps(q, l, y, k, x);
    case PopShared => SharedPopKeeps(q, k, x);
  }

  lemma {:induction false} RunCounts<T>(qs: seq<Queues<T>>, ops: seq<Op<T>>, outs: seq<Option<(int, T)>>, k: int, x: T)
    requires Run(qs, ops, outs) && Inv(qs[0])
    ensures Inv(qs[|ops|]) && SameShape(qs[0], qs[|ops|])
    ensures Count(qs[0], k, x) + AllIn(ops, k)[x] == Count(qs[|ops|], k, x) + AllOut(outs, k)[x]
  {
    hide Inv, Step, Count, In, Out;
    if ops != [] {
      var n := |ops| - 1;
      RunCounts(qs[..|ops|], ops[..n], outs[..n], k, x);
      assert Step(qs[n], ops[n], outs[n], qs[n + 1]);
      StepKeeps(qs[n], ops[n], outs[n], qs[n + 1], k, x);
    }
  }

  /** The invariant holds in every state of a run. */
  lemma InvInRun<T(00)>(qs: seq<Queues<T>>, ops: seq<Op<T>>, outs: seq<Option<(int, T)>>, j: nat)
    requires Run(qs, ops, outs) && Inv(qs[0]) && j <= |ops|
    ensures Inv(qs[j]) && SameShape(qs[0], qs[j])
  {
    hide Inv, Step;
    var x: T :| true;
    RunCounts(qs[..j + 1], ops[..j], outs[..j], 0, x);
  }

  lemma {:induction false} NothingHeld<T>(hs: seq<Handle<T>>, k: int)
    requires forall i | 0 <= i < |hs| :: hs[i].queue == []
    ensures LocallyHeld(hs, k) == multiset{}
  {
    if hs != [] {
      NothingHeld(hs[1..], k);
    }
  }

  lemma SameMultiset<T>(a: multiset<T>, b: multiset<T>)
    requires forall x :: a[x] == b[x]
    ensures a == b
  {
  }

  lemma NewMeaning<T>(n: nat, capacity: nat, k: int)
    ensures Inv(New<T>(n, capacity)) && Held(New<T>(n, capacity), k) == multiset{}
  {
    NothingHeld(New<T>(n, capacity).handles, k);
  }

  /** In every run from new queues, for every key: the items pushed are the items returned by `pop` and the
      items still held, as multisets. The shared `len` is exact and every handle's `len` lies between
      what it holds and the capacity. */
  lemma NothingLost<T(00)>(qs: seq<Queues<T>>, ops: seq<Op<T>>, outs: seq<Option<(int, T)>>,
                           n: nat, capacity: nat, k: int)
    requires Run(qs, ops, outs) && qs[0] == New(n, capacity)
    ensures AllIn(ops, k) == AllOut(outs, k) + Held(qs[|ops|], k)
    ensures var last := qs[|ops|];
            && last.sharedLen == Size(last.shared)
            && forall i | 0 <= i < |last.handles| :: Size(last.handles[i].queue) <= last.handles[i].len <= capacity
  {
    hide Step, AllIn, AllOut, Held, New;
    NewMeaning<T>(n, capacity, k);
    var pushed, accounted := AllIn(ops, k), AllOut(outs, k) + Held(qs[|ops|], k);
    forall x ensures pushed[x] == accounted[x] {
      hide Inv;
      RunCounts(qs, ops, outs, k, x);
      assert Held(qs[0], k)[x] == 0;
    }
    SameMultiset(pushed, accounted);
    InvInRun(qs, ops, outs, |ops|);
    assert qs[0].capacity == capacity;
  }
}
