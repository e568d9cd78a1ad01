/** What the overflow of a full handle moves, when it ends, and a reachable state in which it does not. */
module OrderedOverflow {

  import opened Basics
  import opened SkipMaps
  import opened OrderedQueues
  import opened OrderedRuns

  lemma {:induction false} SumStrict(a: seq<nat>, b: seq<nat>)
    requires |a| == |b| && Sum(a) == Sum(b) && forall j | 0 <= j < |a| :: a[j] <= b[j]
    ensures a == b
  {
    if a != [] {
      SumMonotone(a[1..], b[1..]);
      SumStrict(a[1..], b[1..]);
      assert a == [a[0]] + a[1..] && b == [b[0]] + b[1..];
    }
  }

  /** The round robin fixes what is moved: two balanced splits of the same size are equal. */
  lemma BalancedIsUnique<T>(m: SkipMap<T>, g: seq<nat>, g': seq<nat>)
    requires Fits(m, g) && Fits(m, g') && Balanced(m, g) && Balanced(m, g')
    requires Sum(g) == Sum(g')
    ensures g == g'
  {
    if j :| 0 <= j < |m| && g[j] > g'[j] {
      forall i | 0 <= i < |m| ensures g'[i] <= g[i] {
        assert i < j ==> g[i] <= g[j] || g[j] == |m[j].items|;
      }
      SumStrict(g', g);
    } else {
      SumStrict(g, g');
    }
  }

  /** A completed overflow determines the new state, up to empty buckets of the shared queue. */
  lemma OverflowIsDetermined<T>(q: Queues<T>, i: nat, k: int, x: T,
                                a: Queues<T>, b: Queues<T>, g: seq<nat>, g': seq<nat>)
    requires i < |q.handles| && Overflowed(q, i, k, x, a, g) && Overflowed(q, i, k, x, b, g')
    ensures a.handles == b.handles && a.sharedLen == b.sharedLen && forall l :: Get(a.shared, l) == Get(b.shared, l)
  {
    BalancedIsUnique(q.handles[i].queue, g, g');
  }

  /** The items that leave a bucket are its oldest, in order, and a higher precedence (a smaller key) gives
      no more than a lower one that still has items. */
  lemma OverflowMoves<T>(q: Queues<T>, i: nat, k: int, x: T, q': Queues<T>, g: seq<nat>, j: nat)
    requires i < |q.handles| && WellFormed(q) && Overflowed(q, i, k, x, q', g) && j < |g|
    ensures var Bucket(l, xs) := q.handles[i].queue[j];
            && g[j] <= |xs|
            && Get(q'.handles[i].queue, l) == xs[g[j]..]
            && Get(q'.shared, l) == Get(q.shared, l) + xs[..g[j]] + (if l == k then [x] else [])
            && forall i' | 0 <= i' < j :: Get(q'.handles[i].queue, l) != [] ==> g[i'] <= g[j]
    ensures Sum(g) == q.handles[i].len / 2
  {
    var m := q.handles[i].queue;
    GetAt(m, j);
    DropFrontsSorted(m, g);
    GetAt(DropFronts(m, g), j);
    GivenAt(m, g, j);
  }

  lemma {:induction false} GivenAt<T>(m: SkipMap<T>, g: seq<nat>, j: nat)
    requires Sorted(m) && Fits(m, g) && j < |m|
    ensures Given(m, g, m[j].key) == m[j].items[..g[j]]
  {
    if j > 0 {
      GivenAt(m[1..], g[1..], j - 1);
      assert m[0].key < m[j].key;
    }
  }

  /** A completed `push` puts the item at the tail of its key's local queue, and touches nothing else, exactly while
      `len` is below the capacity; otherwise it overflows. */
  lemma PushTakesRoom<T>(q: Queues<T>, i: nat, k: int, x: T, q': Queues<T>, l: int)
    requires Inv(q) && i < |q.handles| && Pushed(q, i, k, x, q')
    ensures q.handles[i].len < q.capacity ==>
              && q'.shared == q.shared && q'.sharedLen == q.sharedLen && SameShape(q, q')
              && Get(q'.handles[i].queue, l) == Get(q.handles[i].queue, l) + (if l == k then [x] else [])
              && q'.handles[i].len == q.handles[i].len + 1
              && forall v | 0 <= v < |q.handles| && v != i :: q'.handles[v] == q.handles[v]
    ensures q.handles[i].len >= q.capacity ==> exists g :: Overflowed(q, i, k, x, q', g)
  {
    if q.handles[i].len < q.capacity {
      WorkerNeverFull(q, i, k);
      assert Sorted(q.handles[i].queue);
      PushBackMeaning(q.handles[i].queue, k, [x], l);
      hide Inv, Overflowed, PushBack, Get, Size, WorkerFull;
    }
  }

  /** A completed overflow shows that half of `len` was really there. */
  lemma OverflowNeedsItems<T>(q: Queues<T>, i: nat, k: int, x: T, q': Queues<T>, g: seq<nat>)
    requires i < |q.handles| && Overflowed(q, i, k, x, q', g)
    ensures Size(q.handles[i].queue) >= q.handles[i].len / 2
  {
    SizeDropFronts(q.handles[i].queue, g);
  }

  // ---- A sibling steals, and the victim's `len` stays behind ----

  function H(xs: seq<int>, len: nat, tick: nat): Handle<int> { Handle([Bucket(0, xs)], len, tick, false) }

  function Two(a: Handle<int>, b: Handle<int>): Queues<int> { Queues([], 0, 2, [a, b]) }

  lemma PushOnEmpty(m: SkipMap<int>, x: int)
    requires m == [] || m == [Bucket(0, [])]
    ensures PushBack(m, 0, [x]) == [Bucket(0, [x])] && Get(m, 0) == []
    ensures Get(PushBack(m, 0, [x]), 0) == [x] && !HasItems(m)
  {
    assert [] + [x] == [x];
    if m != [] {
      assert m[1..] == [];
    }
  }

  lemma PopSingle(x: int)
    ensures FirstNonEmpty([Bucket(0, [x])]) == 0
    ensures PopFirst([Bucket(0, [x])]) == (Some((0, x)), [Bucket(0, [])])
  {
    assert [x][1..] == [];
    assert [Bucket(0, [x])][0 := Bucket(0, [])] == [Bucket(0, [])];
  }

  /** The second handle steals the only item of the first. */
  lemma RobStep(x: int, len: nat, tick: nat, b: Handle<int>)
    requires 1 <= len <= 2 && tick < 10
    requires b == Handle([], 0, tick, false) || b == H([], 0, tick)
    ensures Step(Two(H([x], len, 0), b), Pop(1, 0), Some((0, x)), Two(H([], len, 0), H([], 0, tick + 1)))
  {
    var q := Two(H([x], len, 0), b);
    var q1 := Ticked(q, 1);
    var h := b.(tick := tick + 1);
    assert q1 == Two(H([x], len, 0), h);
    PushOnEmpty(b.queue, x);
    PopSingle(x);
    assert Scanned(0, 0, 2) == 0;
    assert FirstVictim(q1, 0, 0) == 0;
    assert [x][..1] == [x] && [x][1..] == [];
    assert StealCount(h, 2, 1, []) == 1;
    var q2 := Steal(q1, 1, 0);
    assert q2.handles[0] == H([], len, 0);
    assert q2.handles[1] == H([x], 1, tick + 1);
    assert q2 == Two(H([], len, 0), H([x], 1, tick + 1));
    assert LocalPop(q2, 1).0 == Two(H([], len, 0), H([], 0, tick + 1));
  }

  lemma PushStep(q: Queues<int>, i: nat, x: int)
    requires i < |q.handles| && q.capacity == 2 && q.handles[i].len < 2
    requires q.handles[i].queue == [] || q.handles[i].queue == [Bucket(0, [])]
    ensures var h := q.handles[i].(queue := [Bucket(0, [x])], len := q.handles[i].len + 1);
            Step(q, Push(i, 0, x), None, SetHandle(q, i, h))
  {
    PushOnEmpty(q.handles[i].queue, x);
  }

  /** A handle that has been robbed of its only item believes to be half full and does not steal. */
  lemma RobbedPopStep(y: int)
    ensures Step(Two(H([], 1, 0), H([y], 1, 1)), Pop(0, 0), None, Two(H([], 1, 1), H([y], 1, 1)))
  {
    var q := Two(H([], 1, 0), H([y], 1, 1));
    assert Ticked(q, 0) == Two(H([], 1, 1), H([y], 1, 1));
    PushOnEmpty([Bucket(0, [])], 0);
  }

  /** A run that ends with an empty-handed `pop` while a sibling holds an item. */
  lemma EmptyHandedWhileItemsExist() returns (qs: seq<Queues<int>>, ops: seq<Op<int>>, outs: seq<Option<(int, int)>>)
    ensures Run(qs, ops, outs) && qs[0] == New(2, 2) && |ops| == 4 && |qs[4].handles| == 2
    ensures ops[3] == Pop(0, 0) && outs[3] == None && Get(qs[4].handles[1].queue, 0) == [8]
  {
    hide Step;
    var empty := Handle([], 0, 0, false);
    var q0: Queues<int> := Two(empty, empty);
    assert New<int>(2, 2).handles == [empty, empty];
    var q1 := Two(H([7], 1, 0), empty);
    PushStep(q0, 0, 7);
    assert q1.handles == q0.handles[0 := H([7], 1, 0)];
    var q2 := Two(H([], 1, 0), H([], 0, 1));
    RobStep(7, 1, 0, empty);
    var q3 := Two(H([], 1, 0), H([8], 1, 1));
    PushStep(q2, 1, 8);
    assert q3.handles == q2.handles[1 := H([8], 1, 1)];
    var q4 := Two(H([], 1, 1), H([8], 1, 1));
    RobbedPopStep(8);
    qs := [q0, q1, q2, q3, q4];
    ops, outs := [Push(0, 0, 7), Pop(1, 0), Push(1, 0, 8), Pop(0, 0)], [None, Some((0, 7)), None, None];
  }

  /** A run after which the next `push` on handle 0 never ends: its `len` has reached the capacity although
      everything was stolen, so no number of passes finds the item to move. */
  lemma EndlessPush() returns (qs: seq<Queues<int>>, ops: seq<Op<int>>, outs: seq<Option<(int, int)>>)
    ensures Run(qs, ops, outs) && qs[0] == New(2, 2) && |qs[|ops|].handles| == 2
    ensures var h := qs[|ops|].handles[0];
            LocalFull(h, 2) && forall passes: nat :: Taken(h.queue, passes) < h.len / 2
  {
    hide Step;
    var empty := Handle([], 0, 0, false);
    var q0: Queues<int> := Two(empty, empty);
    assert New<int>(2, 2).handles == [empty, empty];
    var q1 := Two(H([7], 1, 0), empty);
    PushStep(q0, 0, 7);
    assert q1.handles == q0.handles[0 := H([7], 1, 0)];
    var q2 := Two(H([], 1, 0), H([], 0, 1));
    RobStep(7, 1, 0, empty);
    var q3 := Two(H([8], 2, 0), H([], 0, 1));
    PushStep(q2, 0, 8);
    assert q3.handles == q2.handles[0 := H([8], 2, 0)];
    var q4 := Two(H([], 2, 0), H([], 0, 2));
    RobStep(8, 2, 1, H([], 0, 1));
    qs := [q0, q1, q2, q3, q4];
    ops, outs := [Push(0, 0, 7), Pop(1, 0), Push(0, 0, 8), Pop(1, 0)], [None, Some((0, 7)), None, Some((0, 8))];
    OverflowEndsIff(q4.handles[0].queue, 1);
    SizeZero(q4.handles[0].queue);
  }
}
