/** What one call on the ordered work-stealing queues does, on values: a shared queue with a hand-kept
    length, and one bounded local queue per handle. A call is taken as a whole. */
module OrderedQueues {

  import opened Basics
  import opened SkipMaps

  /** `OrderedLocalQueue` together with the local queue it is the only handle of. */
  datatype Handle<T> = Handle(queue: SkipMap<T>, len: nat, tick: nat, stealing: bool)

  datatype Queues<T> =
    Queues(shared: SkipMap<T>, sharedLen: nat, capacity: nat, handles: seq<Handle<T>>)

  const FORCED_PERIOD: nat := 61

  ghost predicate WellFormed<T>(q: Queues<T>) {
    && Sorted(q.shared)
    && forall i | 0 <= i < |q.handles| :: Sorted(q.handles[i].queue)
  }

  /** The handle's `len` is an upper bound: a sibling that steals does not lower it. */
  ghost predicate HandleInv<T>(h: Handle<T>, capacity: nat) {
    && Size(h.queue) <= h.len <= capacity
    && h.tick <= U32_MAX
    && !h.stealing
  }

  ghost predicate Inv<T>(q: Queues<T>) {
    && WellFormed(q)
    && q.sharedLen == Size(q.shared)
    && forall i | 0 <= i < |q.handles| :: HandleInv(q.handles[i], q.capacity)
  }

  /** No call adds a local queue or changes the capacity. */
  predicate SameShape<T>(q: Queues<T>, q': Queues<T>) {
    |q'.handles| == |q.handles| && q'.capacity == q.capacity
  }

  function New<T>(localQueues: nat, capacity: nat): (q: Queues<T>)
    ensures |q.handles| == localQueues && q.capacity == capacity
  {
    Queues([], 0, capacity, seq(localQueues, _ => Handle([], 0, 0, false)))
  }

  function Pow2(e: nat): (p: nat)
    ensures 1 <= p
  {
    if e == 0 then 1 else 2 * Pow2(e - 1)
  }

  function Doubled(p: nat, n: nat): (c: nat)
    requires 1 <= p
    ensures n <= c && 1 <= c
    decreases n - p
  {
    if n <= p then p else Doubled(2 * p, n)
  }

  /** `st3` rounds the capacity of a `Worker` up to a power of two. */
  function WorkerCapacity(n: nat): (c: nat)
    ensures n <= c && 1 <= c
  {
    Doubled(1, n)
  }

  lemma {:induction false} Pow2Grows(a: nat, b: nat)
    requires a < b
    ensures Pow2(a) < Pow2(b)
    decreases b
  {
    if a < b - 1 {
      Pow2Grows(a, b - 1);
    }
  }

  /** The capacity of a worker is the least power of two that is large enough. */
  lemma WorkerCapacityIsLeast(n: nat) returns (e: nat)
    ensures WorkerCapacity(n) == Pow2(e) && n <= Pow2(e)
    ensures forall d: nat :: n <= Pow2(d) ==> e <= d
  {
    e := 0;
    while Pow2(e) < n
      invariant WorkerCapacity(n) == Doubled(Pow2(e), n)
      invariant e > 0 ==> Pow2(e - 1) < n
      decreases n - Pow2(e)
    {
      e := e + 1;
    }
    forall d: nat | n <= Pow2(d) ensures e <= d {
      if d < e - 1 {
        Pow2Grows(d, e - 1);
      }
    }
  }

  function NextTick(t: nat): nat { if t == U32_MAX then 0 else t + 1 }

  predicate LocalFull<T>(h: Handle<T>, capacity: nat) { h.len >= capacity }

  predicate CanSteal<T>(h: Handle<T>, capacity: nat) { h.len < (capacity + 1) / 2 }

  function MaxSteal<T>(h: Handle<T>, capacity: nat): nat { SatSub((capacity + 1) / 2, h.len) }

  /** How many of the `n` items of a victim's queue move into the queue `into`. */
  function StealCount<T>(h: Handle<T>, capacity: nat, n: nat, into: seq<T>): nat {
    Min(Min(n, Min(MaxSteal(h, capacity), (n + 1) / 2)), SatSub(WorkerCapacity(capacity), |into|))
  }

  predicate HasItems<T>(m: SkipMap<T>) { FirstNonEmpty(m) < |m| }

  function SharedPush<T>(q: Queues<T>, k: int, x: T): (q': Queues<T>)
    ensures SameShape(q, q')
  {
    q.(shared := PushBack(q.shared, k, [x]), sharedLen := q.sharedLen + 1)
  }

  function SharedPop<T>(q: Queues<T>): (r: (Queues<T>, Option<(int, T)>))
    ensures SameShape(q, r.0)
  {
    var (out, m) := PopFirst(q.shared);
    if q.sharedLen == 0 || out == None then (q, None)
    else (q.(shared := m, sharedLen := SatSub(q.sharedLen, 1)), out)
  }

  function SetHandle<T>(q: Queues<T>, i: nat, h: Handle<T>): (q': Queues<T>)
    requires i < |q.handles|
    ensures SameShape(q, q')
  {
    q.(handles := q.handles[i := h])
  }

  function LocalPop<T>(q: Queues<T>, i: nat): (r: (Queues<T>, Option<(int, T)>))
    requires i < |q.handles|
    ensures SameShape(q, r.0)
  {
    var h := q.handles[i];
    var (out, m) := PopFirst(h.queue);
    if out == None then (q, None)
    else (SetHandle(q, i, h.(queue := m, len := SatSub(h.len, 1))), out)
  }

  /** The `n`-th queue the scan looks at. */
  function Scanned(start: nat, n: nat, num: nat): (v: nat)
    requires start < num
    ensures v < num
  {
    (start + n) % num
  }

  /** The first queue that holds an item, from the `n`-th scanned on;
      the number of queues when all the remaining ones are empty. */
  function FirstVictim<T>(q: Queues<T>, start: nat, n: nat): (r: nat)
    requires start < |q.handles| && n <= |q.handles|
    ensures n <= r <= |q.handles|
    ensures forall l | n <= l < r :: !HasItems(q.handles[Scanned(start, l, |q.handles|)].queue)
    ensures r < |q.handles| ==> HasItems(q.handles[Scanned(start, r, |q.handles|)].queue)
    decreases |q.handles| - n
  {
    if n == |q.handles| || HasItems(q.handles[Scanned(start, n, |q.handles|)].queue) then n
    else FirstVictim(q, start, n + 1)
  }

  /** Moves the front of the first non-empty queue of `v` into the same key of `i`. */
  function Steal<T>(q: Queues<T>, i: nat, v: nat): (q': Queues<T>)
    requires i < |q.handles| && v < |q.handles| && HasItems(q.handles[v].queue)
    ensures SameShape(q, q')
  {
    var h, another := q.handles[i], q.handles[v];
    var j := FirstNonEmpty(another.queue);
    var Bucket(k, xs) := another.queue[j];
    var c := StealCount(h, q.capacity, |xs|, Get(h.queue, k));
    var into := PushBack(h.queue, k, xs[..c]);
    var q1 := SetHandle(q, v, another.(queue := SetItems(another.queue, j, xs[c..])));
    SetHandle(q1, i, h.(queue := into, len := h.len + |Get(into, k)|))
  }

  /** The lock is not seen by the steal it protects. */
  lemma StealUnderLock<T>(q: Queues<T>, i: nat, v: nat)
    requires i < |q.handles| && v < |q.handles| && i != v
    requires HasItems(q.handles[v].queue) && !q.handles[i].stealing
    ensures var locked := SetHandle(q, i, q.handles[i].(stealing := true));
            var q' := Steal(locked, i, v);
            SetHandle(q', i, q'.handles[i].(stealing := false)) == Steal(q, i, v)
  {
  }

  function Ticked<T>(q: Queues<T>, i: nat): (q': Queues<T>)
    requires i < |q.handles|
    ensures SameShape(q, q')
  {
    SetHandle(q, i, q.handles[i].(tick := NextTick(q.handles[i].tick)))
  }

  /** `pop`: a forced look at the shared queue on every 61st tick, then the own queue, then one steal
      from the siblings beginning at the random `start`, then the shared queue. */
  function Pop<T>(q: Queues<T>, i: nat, start: nat): (r: (Queues<T>, Option<(int, T)>))
    requires i < |q.handles| && start < |q.handles|
    ensures SameShape(q, r.0)
  {
    var q1 := Ticked(q, i);
    var h := q1.handles[i];
    var n := FirstVictim(q1, start, 0);
    if h.tick % FORCED_PERIOD == 0 && SharedPop(q1).1.Some? then SharedPop(q1)
    else if HasItems(h.queue) then LocalPop(q1, i)
    else if !h.stealing && CanSteal(h, q1.capacity) && n < |q1.handles|
    then LocalPop(Steal(q1, i, Scanned(start, n, |q1.handles|)), i)
    else SharedPop(q1)
  }

  // ---- Overflow ----

  ghost function Sum(g: seq<nat>): nat { if g == [] then 0 else g[0] + Sum(g[1..]) }

  /** `g[j]` items are taken from the front of bucket `j`. */
  ghost predicate Fits<T>(m: SkipMap<T>, g: seq<nat>) {
    && |g| == |m|
    && forall j | 0 <= j < |m| :: g[j] <= |m[j].items|
  }

  /** Round robin from the lowest precedence: a higher precedence gives no more than a lower one that
      still has items, and a lower one is at most one ahead of a higher one that still has items. */
  ghost predicate Balanced<T>(m: SkipMap<T>, g: seq<nat>)
    requires Fits(m, g)
  {
    forall i, j | 0 <= i < j < |m| ::
      && (g[i] <= g[j] || g[j] == |m[j].items|)
      && (g[j] <= g[i] + 1 || g[i] == |m[i].items|)
  }

  ghost function DropFronts<T>(m: SkipMap<T>, g: seq<nat>): SkipMap<T>
    requires Fits(m, g)
  {
    seq(|m|, j requires 0 <= j < |m| => Bucket(m[j].key, m[j].items[g[j]..]))
  }

  /** The items that leave the queue of key `l`, oldest first. */
  ghost function Given<T>(m: SkipMap<T>, g: seq<nat>, l: int): seq<T>
    requires Fits(m, g)
  {
    if m == [] then []
    else if m[0].key == l then m[0].items[..g[0]]
    else Given(m[1..], g[1..], l)
  }

  /** On the way: the fronts `g` have moved to the shared queue and nothing else has changed. */
  ghost predicate Overflowing<T>(q: Queues<T>, i: nat, q': Queues<T>, g: seq<nat>)
    requires i < |q.handles|
  {
    var h := q.handles[i];
    && Fits(h.queue, g)
    && q'.capacity == q.capacity
    && q'.handles == q.handles[i := h.(queue := DropFronts(h.queue, g))]
    && Sorted(q'.shared)
    && (forall l :: Get(q'.shared, l) == Get(q.shared, l) + Given(h.queue, g, l))
    && Size(q'.shared) == Size(q.shared) + Sum(g)
    && q'.sharedLen == q.sharedLen + Sum(g)
  }

  /** `push_to_global` has moved the fronts `g` and then the new item to the shared queue. */
  ghost predicate Overflowed<T>(q: Queues<T>, i: nat, k: int, x: T, q': Queues<T>, g: seq<nat>)
    requires i < |q.handles|
  {
    var h := q.handles[i];
    var count := h.len / 2;
    && Fits(h.queue, g) && Sum(g) == count && Balanced(h.queue, g)
    && q'.capacity == q.capacity
    && q'.handles == q.handles[i := h.(queue := DropFronts(h.queue, g), len := SatSub(h.len, count))]
    && Sorted(q'.shared)
    && (forall l :: Get(q'.shared, l)
                 == Get(q.shared, l) + Given(h.queue, g, l) + if l == k then [x] else [])
    && Size(q'.shared) == Size(q.shared) + count + 1
    && q'.sharedLen == q.sharedLen + count + 1
  }

  /** The `Worker` of key `k` has no room, although the handle does not look full. */
  predicate WorkerFull<T>(q: Queues<T>, i: nat, k: int)
    requires i < |q.handles|
  {
    |Get(q.handles[i].queue, k)| >= WorkerCapacity(q.capacity)
  }

  function LocalPush<T>(q: Queues<T>, i: nat, k: int, x: T): (q': Queues<T>)
    requires i < |q.handles|
    ensures SameShape(q, q')
  {
    var h := q.handles[i];
    SetHandle(q, i, h.(queue := PushBack(h.queue, k, [x]), len := h.len + 1))
  }

  /** A completed `push_with_priority` on handle `i`. */
  ghost predicate Pushed<T>(q: Queues<T>, i: nat, k: int, x: T, q': Queues<T>)
    requires i < |q.handles|
  {
    if LocalFull(q.handles[i], q.capacity) || WorkerFull(q, i, k)
    then exists g :: Overflowed(q, i, k, x, q', g)
    else q' == LocalPush(q, i, k, x)
  }

  // ---- The counting behind the overflow loop ----

  /** What has been taken after `r` whole passes and one pass that has come down to bucket `p`. */
  ghost function Fronts<T>(m: SkipMap<T>, r: nat, p: nat): (g: seq<nat>)
    ensures Fits(m, g)
  {
    seq(|m|, j requires 0 <= j < |m| => Min(if j >= p then r + 1 else r, |m[j].items|))
  }

  /** How many items `r` whole passes take. */
  ghost function Taken<T>(m: SkipMap<T>, r: nat): nat { Sum(Fronts(m, r, |m|)) }

  lemma FrontsBalanced<T>(m: SkipMap<T>, r: nat, p: nat)
    ensures Balanced(m, Fronts(m, r, p))
  {
    var g := Fronts(m, r, p);
    assert forall j | 0 <= j < |m| :: g[j] == Min(if j >= p then r + 1 else r, |m[j].items|);
  }

  lemma FrontsNextPass<T>(m: SkipMap<T>, r: nat)
    ensures Fronts(m, r, 0) == Fronts(m, r + 1, |m|)
  {
  }

  lemma FrontsNextBucket<T>(m: SkipMap<T>, r: nat, j: nat)
    requires j < |m|
    ensures var g := Fronts(m, r, j + 1);
            && g[j] == Min(r, |m[j].items|)
            && Fronts(m, r, j) == if r < |m[j].items| then g[j := g[j] + 1] else g
  {
  }

  lemma {:induction false} SumMonotone(a: seq<nat>, b: seq<nat>)
    requires |a| == |b| && forall j | 0 <= j < |a| :: a[j] <= b[j]
    ensures Sum(a) <= Sum(b)
  {
    if a != [] {
      SumMonotone(a[1..], b[1..]);
    }
  }

  lemma {:induction false} SumUpdate(g: seq<nat>, j: nat, v: nat)
    requires j < |g|
    ensures Sum(g[j := v]) == Sum(g) - g[j] + v
  {
    if j == 0 {
      assert g[j := v][1..] == g[1..];
    } else {
      assert g[j := v][1..] == g[1..][j - 1 := v];
      SumUpdate(g[1..], j - 1, v);
    }
  }

  lemma TakenMonotone<T>(m: SkipMap<T>, r: nat, p: nat, s: nat)
    requires r < s || (r == s && p >= |m|)
    ensures Sum(Fronts(m, r, p)) <= Taken(m, s)
  {
    SumMonotone(Fronts(m, r, p), Fronts(m, s, |m|));
  }

  lemma {:induction false} TakenAtMostSize<T>(m: SkipMap<T>, r: nat)
    ensures Taken(m, r) <= Size(m)
    ensures (forall j | 0 <= j < |m| :: |m[j].items| <= r) ==> Taken(m, r) == Size(m)
    ensures forall j | 0 <= j < |m| && r <= |m[j].items| :: r <= Taken(m, r)
  {
    if m != [] {
      assert Fronts(m, r, |m|)[1..] == Fronts(m[1..], r, |m[1..]|);
      TakenAtMostSize(m[1..], r);
      assert forall j | 0 < j < |m| :: m[j] == m[1..][j - 1];
    }
  }

  /** The overflow loop ends after some number of passes exactly when the local queue really holds the
      items it is to give away; the caller can compare `len / 2` with what it holds. */
  lemma OverflowEndsIff<T>(m: SkipMap<T>, count: nat)
    ensures (exists passes: nat :: Taken(m, passes) >= count) <==> Size(m) >= count
    ensures Size(m) >= count ==> Taken(m, count) >= count
  {
    TakenAtMostSize(m, count);
    forall passes: nat ensures Taken(m, passes) <= Size(m) {
      TakenAtMostSize(m, passes);
    }
    assert forall j | 0 <= j < |m| && !(|m[j].items| <= count) :: count <= |m[j].items|;
  }

  /** Giving away one more item of bucket `j`. */
  lemma {:induction false} GiveOneMore<T>(m: SkipMap<T>, g: seq<nat>, j: nat, l: int)
    requires Sorted(m) && Fits(m, g) && j < |m| && g[j] < |m[j].items|
    ensures var g' := g[j := g[j] + 1];
            && Fits(m, g')
            && Given(m, g', l) == Given(m, g, l) + if l == m[j].key then [m[j].items[g[j]]] else []
  {
    var g' := g[j := g[j] + 1];
    if j == 0 {
      assert g'[1..] == g[1..];
    } else {
      assert g'[1..] == g[1..][j - 1 := g[1..][j - 1] + 1];
      GiveOneMore(m[1..], g[1..], j - 1, l);
      assert m[0].key < m[j].key;
    }
  }

  lemma DropOneMore<T>(m: SkipMap<T>, g: seq<nat>, j: nat)
    requires Fits(m, g) && j < |m| && g[j] < |m[j].items|
    ensures Fits(m, g[j := g[j] + 1])
    ensures DropFronts(m, g)[j].items[0] == m[j].items[g[j]]
    ensures DropFronts(m, g[j := g[j] + 1])
         == SetItems(DropFronts(m, g), j, DropFronts(m, g)[j].items[1..])
  {
  }

  /** Moves the oldest item of bucket `j` of handle `i` to the shared queue. */
  function MoveOne<T>(q: Queues<T>, i: nat, j: nat): Queues<T>
    requires i < |q.handles| && j < |q.handles[i].queue| && q.handles[i].queue[j].items != []
  {
    var h := q.handles[i];
    var Bucket(k, xs) := h.queue[j];
    SharedPush(SetHandle(q, i, h.(queue := SetItems(h.queue, j, xs[1..]))), k, xs[0])
  }

  lemma OverflowingStep<T>(q: Queues<T>, i: nat, q': Queues<T>, g: seq<nat>, j: nat)
    requires i < |q.handles| && Sorted(q.handles[i].queue) && Overflowing(q, i, q', g)
    requires j < |g| && g[j] < |q.handles[i].queue[j].items|
    ensures q'.handles[i].queue[j].items != []
    ensures Overflowing(q, i, MoveOne(q', i, j), g[j := g[j] + 1])
    ensures Sum(g[j := g[j] + 1]) == Sum(g) + 1
  {
    var m := q.handles[i].queue;
    var g' := g[j := g[j] + 1];
    var k, x := m[j].key, m[j].items[g[j]];
    DropOneMore(m, g, j);
    SumUpdate(g, j, g[j] + 1);
    forall l ensures Get(MoveOne(q', i, j).shared, l) == Get(q.shared, l) + Given(m, g', l) {
      PushBackMeaning(q'.shared, k, [x], l);
      GiveOneMore(m, g, j, l);
    }
    PushBackMeaning(q'.shared, k, [x], k);
  }

  lemma OverflowingStart<T>(q: Queues<T>, i: nat)
    requires i < |q.handles| && WellFormed(q)
    ensures Overflowing(q, i, q, Fronts(q.handles[i].queue, 0, |q.handles[i].queue|))
    ensures Taken(q.handles[i].queue, 0) == 0
  {
    var m := q.handles[i].queue;
    var g := Fronts(m, 0, |m|);
    assert DropFronts(m, g) == m;
    NothingGiven(m, g);
  }

  lemma {:induction false} NothingGiven<T>(m: SkipMap<T>, g: seq<nat>)
    requires Fits(m, g) && forall j | 0 <= j < |g| :: g[j] == 0
    ensures Sum(g) == 0 && forall l :: Given(m, g, l) == []
  {
    if m != [] {
      NothingGiven(m[1..], g[1..]);
    }
  }

  lemma OverflowingEnd<T>(q: Queues<T>, i: nat, q': Queues<T>, g: seq<nat>, k: int, x: T)
    requires i < |q.handles| && Overflowing(q, i, q', g)
    requires Sum(g) == q.handles[i].len / 2 && Balanced(q.handles[i].queue, g)
    ensures var h := q'.handles[i];
            var count := q.handles[i].len / 2;
            Overflowed(q, i, k, x, SharedPush(SetHandle(q', i, h.(len := SatSub(h.len, count))), k, x), g)
  {
    forall l ensures Get(PushBack(q'.shared, k, [x]), l) == Get(q'.shared, l) + if l == k then [x] else [] {
      PushBackMeaning(q'.shared, k, [x], l);
    }
    PushBackMeaning(q'.shared, k, [x], k);
  }

  lemma {:induction false} SizeDropFronts<T>(m: SkipMap<T>, g: seq<nat>)
    requires Fits(m, g)
    ensures Size(DropFronts(m, g)) + Sum(g) == Size(m)
  {
    if m != [] {
      assert DropFronts(m, g)[1..] == DropFronts(m[1..], g[1..]);
      SizeDropFronts(m[1..], g[1..]);
    }
  }

  lemma {:induction false} GetDropFronts<T>(m: SkipMap<T>, g: seq<nat>, l: int)
    requires Fits(m, g)
    ensures Given(m, g, l) + Get(DropFronts(m, g), l) == Get(m, l)
  {
    if m != [] {
      assert DropFronts(m, g)[1..] == DropFronts(m[1..], g[1..]);
      if m[0].key != l {
        GetDropFronts(m[1..], g[1..], l);
      }
    }
  }
}
