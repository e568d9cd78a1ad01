/** When a `pop` comes back empty-handed, and what a steal returns. */
module OrderedPops {

  import opened Basics
  import opened SkipMaps
  import opened OrderedQueues
  import opened OrderedRuns

  /** The scan reaches every local queue, whatever the random start. */
  lemma ScanCovers(start: nat, v: nat, num: nat) returns (n: nat)
    requires start < num && v < num
    ensures n < num && Scanned(start, n, num) == v
  {
    n := if start <= v then v - start else v + num - start;
    if v < start {
      OnceAround(v, num);
    }
  }

  lemma OnceAround(v: nat, num: nat)
    requires v < num
    ensures (v + num) % num == v
  {
    var a, k := v + num, (v + num) / num;
    assert a == num * k + a % num;
    Multiples(num, k);
  }

  lemma Multiples(num: nat, k: int)
    ensures k >= 2 ==> num * k >= num * 2
    ensures k <= 0 ==> num * k <= 0
  {
  }

  lemma NoVictimIff<T>(q: Queues<T>, start: nat)
    requires start < |q.handles|
    ensures FirstVictim(q, start, 0) == |q.handles| <==>
            forall v | 0 <= v < |q.handles| :: Size(q.handles[v].queue) == 0
  {
    forall v | 0 <= v < |q.handles| ensures HasItems(q.handles[v].queue) <==> Size(q.handles[v].queue) > 0 {
      HasItemsIff(q.handles[v].queue);
    }
    var num := |q.handles|;
    if FirstVictim(q, start, 0) == num {
      forall v | 0 <= v < num ensures !HasItems(q.handles[v].queue) {
        var n := ScanCovers(start, v, num);
        assert !HasItems(q.handles[Scanned(start, n, num)].queue);
      }
    }
  }

  /** Counting a tick changes nothing else. */
  lemma TickedFacts<T(00)>(q: Queues<T>, i: nat)
    requires Inv(q) && i < |q.handles|
    ensures var q1 := Ticked(q, i);
            && Inv(q1) && |q1.handles| == |q.handles| && q1.capacity == q.capacity && q1.shared == q.shared
            && !q1.handles[i].stealing && q1.handles[i].len == q.handles[i].len
            && (forall v | 0 <= v < |q.handles| :: q1.handles[v].queue == q.handles[v].queue)
            && (forall v | 0 <= v < |q.handles| && v != i :: q1.handles[v] == q.handles[v])
  {
    var x: T :| true;
    TickedKeeps(q, i, 0, x);
  }

  /** A `pop` that does not look at the shared queue first, on an empty own queue. */
  lemma PopOnEmpty<T(00)>(q: Queues<T>, i: nat, start: nat)
    requires Inv(q) && i < |q.handles| && start < |q.handles|
    requires Size(q.handles[i].queue) == 0
    requires NextTick(q.handles[i].tick) % FORCED_PERIOD != 0 || Size(q.shared) == 0
    ensures var q1 := Ticked(q, i);
            var n := FirstVictim(q1, start, 0);
            OrderedQueues.Pop(q, i, start)
            == if CanSteal(q1.handles[i], q1.capacity) && n < |q1.handles|
               then LocalPop(Steal(q1, i, Scanned(start, n, |q1.handles|)), i)
               else SharedPop(q1)
  {
    hide Inv, Size, SharedPop, LocalPop, Steal, FirstVictim, Count;
    var x: T :| true;
    TickedFacts(q, i);
    SharedPopKeeps(Ticked(q, i), 0, x);
    HasItemsIff(q.handles[i].queue);
  }

  /** `pop` returns nothing exactly when the shared queue and the own queue are empty and either every local
      queue is empty or the handle's own `len` forbids it to steal. */
  lemma PopNoneIff<T(00)>(q: Queues<T>, i: nat, start: nat)
    requires Inv(q) && i < |q.handles| && start < |q.handles|
    ensures OrderedQueues.Pop(q, i, start).1 == None <==>
            && Size(q.shared) == 0
            && Size(q.handles[i].queue) == 0
            && (q.handles[i].len >= (q.capacity + 1) / 2
                || forall v | 0 <= v < |q.handles| :: Size(q.handles[v].queue) == 0)
  {
    hide Inv, Size, SharedPop, LocalPop, Steal, FirstVictim, Count, Ticked, HasItems;
    var x: T :| true;
    var q1 := Ticked(q, i);
    TickedFacts(q, i);
    SharedPopKeeps(q1, 0, x);
    LocalPopKeeps(q1, i, 0, x);
    HasItemsIff(q.handles[i].queue);
    NoVictimIff(q1, start);
    var n := FirstVictim(q1, start, 0);
    if Size(q.handles[i].queue) == 0 && CanSteal(q1.handles[i], q1.capacity) && n < |q1.handles| {
      var v := Scanned(start, FirstVictim(q1, start, 0), |q1.handles|);
      FirstVictimHasItems(q1, start);
      StealKeeps(q1, i, v, 0, x);
      LocalPopKeeps(Steal(q1, i, v), i, 0, x);
    }
  }

  /** With an exact `len` and a capacity of at least one, nothing returned means nothing held anywhere. */
  lemma PopNoneMeansEmpty<T(00)>(q: Queues<T>, i: nat, start: nat)
    requires Inv(q) && i < |q.handles| && start < |q.handles|
    requires q.handles[i].len == Size(q.handles[i].queue) && q.capacity >= 1
    ensures OrderedQueues.Pop(q, i, start).1 == None <==>
            Size(q.shared) == 0 && forall v | 0 <= v < |q.handles| :: Size(q.handles[v].queue) == 0
  {
    PopNoneIff(q, i, start);
  }

  lemma PopAfterPushBack<T>(m: SkipMap<T>, k: int, ys: seq<T>)
    requires Sorted(m) && Size(m) == 0 && ys != []
    ensures PopFirst(PushBack(m, k, ys)).0 == Some((k, ys[0]))
    ensures Get(PopFirst(PushBack(m, k, ys)).1, k) == ys[1..]
    ensures Size(PopFirst(PushBack(m, k, ys)).1) == |ys| - 1
  {
    var r := PushBack(m, k, ys);
    PushBackMeaning(m, k, ys, k);
    PopFirstFails(r);
    var (l, x) := PopFirst(r).0.value;
    PushBackMeaning(m, k, ys, l);
    PopFirstMeaning(r, l);
    PopFirstMeaning(r, k);
    BucketInSize(m, l);
    BucketInSize(m, k);
    assert Get(m, l) == [] && Get(m, k) == [];
  }

  /** Stealing from `v` and then popping: with `xs` the queue of the smallest key of `v`, it returns the
      oldest of `xs`, keeps the following ones (at most half of `xs` leaves, rounded up) and leaves
      `v` the rest; nothing else changes. */
  ghost predicate StoleFrom<T>(q: Queues<T>, i: nat, v: nat, q': Queues<T>, out: Option<(int, T)>)
    requires i < |q.handles| && v < |q.handles| && HasItems(q.handles[v].queue)
  {
    var m := q.handles[v].queue;
    var j := FirstNonEmpty(m);
    var Bucket(k, xs) := m[j];
    var c := Loot(q.handles[i], q.capacity, |xs|);
    && v != i && 1 <= c <= |xs| && SizeBelow(m, k) == 0
    && out == Some((k, xs[0]))
    && SameShape(q, q') && q'.shared == q.shared && q'.sharedLen == q.sharedLen
    && Get(q'.handles[i].queue, k) == xs[1..c]
    && Size(q'.handles[i].queue) == c - 1
    && q'.handles[i].len == q.handles[i].len + c - 1
    && q'.handles[v] == q.handles[v].(queue := SetItems(m, j, xs[c..]))
    && forall u | 0 <= u < |q.handles| && u != i && u != v :: q'.handles[u] == q.handles[u]
  }

  lemma StealThenPop<T>(q: Queues<T>, i: nat, v: nat)
    requires Inv(q) && i < |q.handles| && v < |q.handles|
    requires Size(q.handles[i].queue) == 0 && CanSteal(q.handles[i], q.capacity) && HasItems(q.handles[v].queue)
    ensures var (q', out) := LocalPop(Steal(q, i, v), i); StoleFrom(q, i, v, q', out)
  {
    StealMeaning(q, i, v);
    WellFormedHandle(q, i);
    hide Inv, Size, Steal, Sorted, PushBack, Get, LocalPop, SizeBelow, Loot;
    var m := q.handles[v].queue;
    var Bucket(k, xs) := m[FirstNonEmpty(m)];
    var c := Loot(q.handles[i], q.capacity, |xs|);
    var q2 := Steal(q, i, v);
    var (q', out) := LocalPop(q2, i);
    PopFed(q2, i, q.handles[i].queue, k, xs[..c]);
    assert xs[..c][1..] == xs[1..c];
    assert q2.shared == q.shared && q2.sharedLen == q.sharedLen && q2.handles[i].len == q.handles[i].len + c;
    assert q2.handles[v] == q.handles[v].(queue := SetItems(m, FirstNonEmpty(m), xs[c..]));
    assert forall u | 0 <= u < |q.handles| && u != i && u != v :: q2.handles[u] == q.handles[u];
    assert forall u | 0 <= u < |q.handles| && u != i :: q'.handles[u] == q2.handles[u];
  }

  lemma PopFed<T>(q: Queues<T>, i: nat, m: SkipMap<T>, k: int, ys: seq<T>)
    requires i < |q.handles| && Sorted(m) && Size(m) == 0 && ys != []
    requires q.handles[i].queue == PushBack(m, k, ys)
    ensures var (q', out) := LocalPop(q, i);
            && out == Some((k, ys[0]))
            && q' == SetHandle(q, i, q'.handles[i])
            && Get(q'.handles[i].queue, k) == ys[1..] && Size(q'.handles[i].queue) == |ys| - 1
            && q'.handles[i].len == SatSub(q.handles[i].len, 1)
  {
    hide Size, Sorted, PushBack, Get, PopFirst;
    PopAfterPushBack(m, k, ys);
  }

  lemma WellFormedHandle<T>(q: Queues<T>, i: nat)
    requires Inv(q) && i < |q.handles|
    ensures Sorted(q.handles[i].queue)
  {
  }

  /** A `pop` on an empty own queue that may steal takes from the first non-empty sibling. */
  lemma PopSteals<T(00)>(q: Queues<T>, i: nat, start: nat)
    requires Inv(q) && i < |q.handles| && start < |q.handles|
    requires Size(q.handles[i].queue) == 0 && CanSteal(q.handles[i], q.capacity)
    requires NextTick(q.handles[i].tick) % FORCED_PERIOD != 0 || Size(q.shared) == 0
    requires FirstVictim(Ticked(q, i), start, 0) < |q.handles|
    ensures var q1 := Ticked(q, i);
            var v := Scanned(start, FirstVictim(q1, start, 0), |q1.handles|);
            var (q', out) := OrderedQueues.Pop(q, i, start);
            && HasItems(q1.handles[v].queue) && StoleFrom(q1, i, v, q', out)
  {
    hide Inv, Size, Steal, LocalPop, SharedPop, OrderedQueues.Pop, HasItems, FirstVictim, StoleFrom, Ticked;
    var q1 := Ticked(q, i);
    TickedFacts(q, i);
    FirstVictimHasItems(q1, start);
    PopOnEmpty(q, i, start);
    StealThenPop(q1, i, Scanned(start, FirstVictim(q1, start, 0), |q1.handles|));
  }

  /** The next tick of a handle is a multiple of 61, the `u32` counter going on with 0 after its maximum. */
  predicate Forced(tick: nat) { (if tick == 0xFFFF_FFFF then 0 else tick + 1) % 61 == 0 }

  /** A `pop` that is not forced to look at the shared queue, or finds it empty, takes the oldest item of the smallest
      key of the handle's own queue; nothing else changes. */
  lemma PopTakesOwn<T(00)>(q: Queues<T>, i: nat, start: nat, l: int)
    requires Inv(q) && i < |q.handles| && start < |q.handles| && Size(q.handles[i].queue) > 0
    requires !Forced(q.handles[i].tick) || Size(q.shared) == 0
    ensures var (q', out) := OrderedQueues.Pop(q, i, start);
            && out.Some? && SameShape(q, q') && q'.shared == q.shared && q'.sharedLen == q.sharedLen
            && var (k, x) := out.value; var own, own' := q.handles[i].queue, q'.handles[i].queue;
               && SizeBelow(own, k) == 0
               && Get(own, l) == (if l == k then [x] else []) + Get(own', l)
               && Size(own) == Size(own') + 1 && q.handles[i].len == q'.handles[i].len + 1
               && forall v | 0 <= v < |q.handles| && v != i :: q'.handles[v] == q.handles[v]
  {
    var h := q.handles[i];
    assert Sorted(h.queue) && Size(h.queue) <= h.len by { assert HandleInv(h, q.capacity); }
    PopFirstFails(h.queue);
    PopFirstMeaning(h.queue, l);
    PopIsLocal(q, i, start);
    hide Inv, Size, PopFirst, Get, SizeBelow, Sorted, OrderedQueues.Pop, Forced;
  }

  lemma PopIsLocal<T(00)>(q: Queues<T>, i: nat, start: nat)
    requires Inv(q) && i < |q.handles| && start < |q.handles| && Size(q.handles[i].queue) > 0
    requires !Forced(q.handles[i].tick) || Size(q.shared) == 0
    ensures OrderedQueues.Pop(q, i, start) == LocalPop(Ticked(q, i), i)
  {
    TickedFacts(q, i);
    HasItemsIff(q.handles[i].queue);
    PopFirstFails(q.shared);
    hide Inv, Size, PopFirst, HasItems, FirstVictim;
  }

  /** A `pop` takes the oldest item of the smallest key of the shared queue, and leaves all local queues alone, when
      it is forced to look there, or has nothing of its own and nobody to steal from. */
  lemma PopTakesShared<T(00)>(q: Queues<T>, i: nat, start: nat, l: int)
    requires Inv(q) && i < |q.handles| && start < |q.handles| && Size(q.shared) > 0
    requires || Forced(q.handles[i].tick)
             || (&& Size(q.handles[i].queue) == 0
                 && (|| q.handles[i].len >= (q.capacity + 1) / 2
                     || forall v | 0 <= v < |q.handles| :: Size(q.handles[v].queue) == 0))
    ensures var (q', out) := OrderedQueues.Pop(q, i, start);
            && out.Some? && SameShape(q, q') && q.sharedLen == q'.sharedLen + 1
            && var (k, x) := out.value;
               && SizeBelow(q.shared, k) == 0
               && Get(q.shared, l) == (if l == k then [x] else []) + Get(q'.shared, l)
               && forall v | 0 <= v < |q.handles| ::
                    q'.handles[v].queue == q.handles[v].queue && q'.handles[v].len == q.handles[v].len
  {
    var q1 := Ticked(q, i);
    TickedFacts(q, i);
    HasItemsIff(q.handles[i].queue);
    NoVictimIff(q1, start);
    PopFirstFails(q.shared);
    assert Sorted(q.shared);
    PopFirstMeaning(q.shared, l);
    hide Inv, Size, PopFirst, Get, SizeBelow, HasItems, FirstVictim, Sorted;
  }

  lemma FirstVictimHasItems<T>(q: Queues<T>, start: nat)
    requires start < |q.handles| && FirstVictim(q, start, 0) < |q.handles|
    ensures HasItems(q.handles[Scanned(start, FirstVictim(q, start, 0), |q.handles|)].queue)
  {
  }
}
