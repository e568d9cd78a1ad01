/** A handle on its own is a stable priority queue: smallest key first, first in first out within a key. */
module OrderedStable {

  import opened Basics
  import opened SkipMaps
  import opened OrderedQueues
  import opened OrderedRuns
  import opened OrderedPops

  /** The reference: the waiting items in the order in which they were pushed. */
  type Arrivals<T> = seq<(int, T)>

  /** The first position whose key no other item undercuts. */
  ghost predicate IsNext<T>(s: Arrivals<T>, n: nat) {
    && n < |s|
    && (forall j | 0 <= j < |s| :: s[n].0 <= s[j].0)
    && (forall j | 0 <= j < n :: s[n].0 < s[j].0)
  }

  ghost predicate RefPop<T>(s: Arrivals<T>, out: Option<(int, T)>, s': Arrivals<T>) {
    if s == [] then out == None && s' == s
    else exists n: nat | IsNext(s, n) :: out == Some(s[n]) && s' == Without(s, n)
  }

  /** The arrivals under key `k`, in order. */
  ghost function Under<T>(s: Arrivals<T>, k: int): seq<T> {
    if s == [] then []
    else if s[0].0 == k then [s[0].1] + Under(s[1..], k)
    else Under(s[1..], k)
  }

  lemma {:induction false} UnderConcat<T>(a: Arrivals<T>, b: Arrivals<T>, k: int)
    ensures Under(a + b, k) == Under(a, k) + Under(b, k)
  {
    if a == [] {
      assert a + b == b;
    } else {
      assert (a + b)[1..] == a[1..] + b;
      UnderConcat(a[1..], b, k);
      if a[0].0 == k {
        var u, v := Under(a[1..], k), Under(b, k);
        assert [a[0].1] + (u + v) == [a[0].1] + u + v;
      }
    }
  }

  lemma {:induction false} UnderNone<T>(s: Arrivals<T>, k: int)
    ensures Under(s, k) == [] <==> forall j | 0 <= j < |s| :: s[j].0 != k
  {
    if s != [] {
      UnderNone(s[1..], k);
      assert forall j | 0 < j < |s| :: s[j] == s[1..][j - 1];
    }
  }

  /** Removing the first arrival of its key removes the head of that key's queue and nothing else. */
  lemma UnderWithout<T>(s: Arrivals<T>, n: nat, k: int)
    requires n < |s| && forall j | 0 <= j < n :: s[j].0 != s[n].0
    ensures Under(s, k) == (if s[n].0 == k then [s[n].1] else []) + Under(Without(s, n), k)
  {
    var a, b := s[..n], s[n + 1..];
    assert s == a + ([s[n]] + b);
    UnderConcat(a, [s[n]] + b, k);
    UnderConcat([s[n]], b, k);
    UnderConcat(a, b, k);
    assert Under([s[n]], k) == if s[n].0 == k then [s[n].1] else [];
    if s[n].0 == k {
      UnderNone(a, k);
    }
  }

  /** The local queue holds, per key, exactly the arrivals of that key. */
  ghost predicate Holds<T>(m: SkipMap<T>, s: Arrivals<T>) {
    Size(m) == |s| && forall k :: Get(m, k) == Under(s, k)
  }

  lemma HoldsPush<T>(m: SkipMap<T>, s: Arrivals<T>, k: int, x: T)
    requires Sorted(m) && Holds(m, s)
    ensures Holds(PushBack(m, k, [x]), s + [(k, x)])
  {
    forall l ensures Get(PushBack(m, k, [x]), l) == Under(s + [(k, x)], l) {
      PushBackMeaning(m, k, [x], l);
      UnderConcat(s, [(k, x)], l);
      assert Under([(k, x)], l) == if l == k then [x] else [];
    }
    PushBackMeaning(m, k, [x], k);
  }

  lemma FirstOfKey<T>(s: Arrivals<T>, k: int) returns (n: nat)
    requires Under(s, k) != []
    ensures n < |s| && s[n].0 == k && s[n].1 == Under(s, k)[0] && forall j | 0 <= j < n :: s[j].0 != k
  {
    n := 0;
    assert s[0..] == s;
    while n < |s| && s[n].0 != k
      invariant n <= |s| && Under(s[n..], k) == Under(s, k)
      invariant forall j | 0 <= j < n :: s[j].0 != k
    {
      assert s[n..][1..] == s[n + 1..];
      n := n + 1;
    }
    assert s[n..] != [];
  }

  /** Popping the smallest key is popping the reference. */
  lemma HoldsPop<T>(m: SkipMap<T>, s: Arrivals<T>) returns (s': Arrivals<T>)
    requires Sorted(m) && Holds(m, s)
    ensures RefPop(s, PopFirst(m).0, s') && Holds(PopFirst(m).1, s')
  {
    PopFirstFails(m);
    if s == [] {
      return s;
    }
    var (k, x) := PopFirst(m).0.value;
    PopFirstMeaning(m, k);
    assert Under(s, k) != [];
    var n := FirstOfKey(s, k);
    forall j | 0 <= j < |s| ensures k <= s[j].0 {
      UnderNone(s, s[j].0);
      assert Get(m, s[j].0) != [];
      PopFirstMeaning(m, s[j].0);
      if s[j].0 < k {
        BelowIsEmpty(m, s[j].0, k);
      }
    }
    assert IsNext(s, n);
    s' := Without(s, n);
    forall l ensures Get(PopFirst(m).1, l) == Under(s', l) {
      PopFirstMeaning(m, l);
      UnderWithout(s, n, l);
      var head := if l == k then [x] else [];
      assert Get(PopFirst(m).1, l) == Get(m, l)[|head|..];
      assert Under(s', l) == Under(s, l)[|head|..];
    }
  }

  lemma {:induction false} BelowIsEmpty<T>(m: SkipMap<T>, l: int, k: int)
    requires l < k && SizeBelow(m, k) == 0
    ensures Get(m, l) == []
  {
    if m != [] && m[0].key != l {
      BelowIsEmpty(m[1..], l, k);
    }
  }

  /** Handle `i` holds the arrivals `s`, its `len` is exact and every other queue is empty. */
  ghost predicate Alone<T>(q: Queues<T>, i: nat, s: Arrivals<T>) {
    && Inv(q) && i < |q.handles| && Size(q.shared) == 0
    && (forall v | 0 <= v < |q.handles| && v != i :: Size(q.handles[v].queue) == 0)
    && Holds(q.handles[i].queue, s) && q.handles[i].len == |s|
  }

  ghost predicate RefStep<T>(s: Arrivals<T>, op: Op<T>, out: Option<(int, T)>, s': Arrivals<T>) {
    match op
    case Push(_, k, x) => out == None && s' == s + [(k, x)]
    case Pop(_, _) => RefPop(s, out, s')
    case _ => false
  }

  lemma AlonePush<T(00)>(q: Queues<T>, i: nat, s: Arrivals<T>, k: int, x: T)
    requires Alone(q, i, s) && !LocalFull(q.handles[i], q.capacity)
    ensures Alone(LocalPush(q, i, k, x), i, s + [(k, x)]) && !WorkerFull(q, i, k)
  {
    LocalPushKeeps(q, i, k, x, k, x);
    WorkerNeverFull(q, i, k);
    hide Inv, Size, PushBack, Get, Count;
    assert Sorted(q.handles[i].queue) by { WellFormedHandle(q, i); }
    HoldsPush(q.handles[i].queue, s, k, x);
  }

  lemma AlonePop<T(00)>(q: Queues<T>, i: nat, s: Arrivals<T>, start: nat) returns (s': Arrivals<T>)
    requires Alone(q, i, s) && start < |q.handles|
    ensures var (q', out) := OrderedQueues.Pop(q, i, start); RefPop(s, out, s') && Alone(q', i, s')
  {
    hide Inv, Size, PopFirst, Get, Count, FirstVictim, SharedPop, HasItems, RefPop, Holds;
    var x: T :| true;
    var q1 := Ticked(q, i);
    var m := q.handles[i].queue;
    TickedFacts(q, i);
    SharedPopKeeps(q1, 0, x);
    LocalPopKeeps(q1, i, 0, x);
    HasItemsIff(m);
    WellFormedHandle(q, i);
    s' := HoldsPop(m, s);
    PopFirstFails(m);
    HoldsSize(m, s);
    HoldsSize(PopFirst(m).1, s');
    if s == [] {
      NoVictimIff(q1, start);
    } else {
      PopFirstMeaning(m, 0);
    }
  }

  lemma HoldsSize<T>(m: SkipMap<T>, s: Arrivals<T>)
    requires Holds(m, s)
    ensures Size(m) == |s|
  {
  }

  lemma AloneStep<T(00)>(q: Queues<T>, op: Op<T>, out: Option<(int, T)>, q': Queues<T>, i: nat, s: Arrivals<T>)
    returns (s': Arrivals<T>)
    requires Alone(q, i, s) && Step(q, op, out, q') && (op.Push? || op.Pop?) && op.handle == i
    requires op.Push? ==> !LocalFull(q.handles[i], q.capacity)
    ensures RefStep(s, op, out, s') && Alone(q', i, s')
  {
    hide Alone, RefPop, OrderedQueues.Pop, LocalPush, WorkerFull;
    match op {
      case Push(_, k, x) =>
        AlonePush(q, i, s, k, x);
        s' := s + [(k, x)];
      case Pop(_, start) =>
        s' := AlonePop(q, i, s, start);
    }
  }

  /** Every sequence of pushes and pops of one handle, with the shared queue and the siblings empty and no
      push on a full queue, returns what the stable priority queue returns. */
  lemma StablePriorityQueue<T(00)>(qs: seq<Queues<T>>, ops: seq<Op<T>>, outs: seq<Option<(int, T)>>,
                                   i: nat, s: Arrivals<T>)
    returns (ss: seq<Arrivals<T>>)
    requires Run(qs, ops, outs) && Alone(qs[0], i, s)
    requires forall n | 0 <= n < |ops| :: (ops[n].Push? || ops[n].Pop?) && ops[n].handle == i
    requires forall n | 0 <= n < |ops| ::
               ops[n].Push? ==> i < |qs[n].handles| && !LocalFull(qs[n].handles[i], qs[n].capacity)
    ensures |ss| == |ops| + 1 && ss[0] == s
    ensures forall n | 0 <= n < |ops| :: RefStep(ss[n], ops[n], outs[n], ss[n + 1])
    ensures Alone(qs[|ops|], i, ss[|ops|])
  {
    hide Alone, Step, RefStep, LocalFull;
    ss := [s];
    for n := 0 to |ops|
      invariant |ss| == n + 1 && ss[0] == s
      invariant forall m | 0 <= m < n :: RefStep(ss[m], ops[m], outs[m], ss[m + 1])
      invariant Alone(qs[n], i, ss[n])
    {
      var s' := AloneStep(qs[n], ops[n], outs[n], qs[n + 1], i, ss[n]);
      ss := ss + [s'];
    }
  }
}
