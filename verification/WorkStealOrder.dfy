/** Which item the unordered queue gives: first in, first out, from the own queue, a robbed sibling or the shared queue,
    call by call and over whole runs. */
module WorkStealOrder {

  import opened Basics
  import opened WorkSteal
  import OrderedQueues
  import opened OrderedPops
  import opened OrderedFairness
  import opened WorkStealRuns

  // ---- One call ----

  ghost predicate OthersSame<T>(q: Plain<T>, q': Plain<T>, i: nat) {
    && |q'.locals| == |q.locals| && q'.capacity == q.capacity
    && forall v | 0 <= v < |q.locals| && v != i :: q'.locals[v] == q.locals[v]
  }

  /** A `push` puts the item at the tail of the own queue while that has room. Otherwise the older half of the own
      queue, rounded down, goes to the tail of the shared queue, oldest first, and then the new item. */
  lemma PushOrder<T>(q: Plain<T>, i: nat, x: T)
    requires WorkSteal.Inv(q) && i < |q.locals|
    ensures var q' := WorkSteal.Push(q, i, x); var own, own' := q.locals[i].items, q'.locals[i].items;
            && OthersSame(q, q', i)
            && (|own| < q.capacity ==> own' == own + [x] && q'.shared == q.shared)
            && (|own| >= q.capacity ==>
                  exists moved :: own == moved + own' && |moved| == |own| / 2 && q'.shared == q.shared + moved + [x])
  {
    var own := q.locals[i].items;
    if |own| >= q.capacity {
      var moved := own[..|own| / 2];
      assert own == moved + own[|own| / 2..];
    }
  }

  /** A `pop` that is not forced to look at the shared queue, or finds it empty, takes the oldest item of the own
      queue. */
  lemma PopOwnOrder<T>(q: Plain<T>, i: nat, start: nat)
    requires WorkSteal.Inv(q) && i < |q.locals| && start < |q.locals| && q.locals[i].items != []
    requires !Forced(q.locals[i].tick) || q.shared == []
    ensures var (q', out) := WorkSteal.Pop(q, i, start);
            && out.Some? && q.locals[i].items == [out.value] + q'.locals[i].items
            && q'.shared == q.shared && q'.len == q.len && OthersSame(q, q', i)
  {
  }

  /** A `pop` on an empty own queue robs the first non-empty sibling of the older half of its items, rounded up and at
      most half of the own capacity, returns the oldest and keeps the rest in order. */
  lemma PopStealOrder<T>(q: Plain<T>, i: nat, start: nat, n: nat)
    requires WorkSteal.Inv(q) && i < |q.locals| && start < |q.locals| && q.locals[i].items == []
    requires !Forced(q.locals[i].tick) || q.shared == []
    requires n < |q.locals| && q.locals[(start + n) % |q.locals|].items != []
    requires forall m | 0 <= m < n :: q.locals[OrderedQueues.Scanned(start, m, |q.locals|)].items == []
    ensures var v := (start + n) % |q.locals|;
            var (q', out) := WorkSteal.Pop(q, i, start); var xs := q.locals[v].items;
            var c := Min((|xs| + 1) / 2, (q.capacity + 1) / 2);
            && out == Some(xs[0]) && q'.locals[i].items == xs[1..c] && q'.locals[v].items == xs[c..]
            && q'.shared == q.shared && q'.len == q.len && |q'.locals| == |q.locals|
            && forall u | 0 <= u < |q.locals| && u != i && u != v :: q'.locals[u] == q.locals[u]
  {
    var q1 := WorkSteal.Ticked(q, i);
    var v := OrderedQueues.Scanned(start, n, |q.locals|);
    FirstIsVictim(q, i, start, n);
    var xs := q1.locals[v].items;
    assert xs == q.locals[v].items && v != i;
    assert CanSteal(q1.locals[i], q1.capacity);
    var c := Min((|xs| + 1) / 2, (q.capacity + 1) / 2);
    assert StealCount(q1.locals[i], q1.capacity, |xs|) == c >= 1;
    var q2 := WorkSteal.Steal(q1, i, v);
    assert q2.locals[i].items == xs[..c] && xs[..c][1..] == xs[1..c];
    hide WorkSteal.FirstVictim, OrderedQueues.Scanned;
    assert WorkSteal.Pop(q, i, start) == WorkSteal.LocalPop(q2, i);
  }

  lemma FirstIsVictim<T>(q: Plain<T>, i: nat, start: nat, n: nat)
    requires i < |q.locals| && start < |q.locals|
    requires n < |q.locals| && q.locals[OrderedQueues.Scanned(start, n, |q.locals|)].items != []
    requires forall m | 0 <= m < n :: q.locals[OrderedQueues.Scanned(start, m, |q.locals|)].items == []
    ensures WorkSteal.FirstVictim(WorkSteal.Ticked(q, i), start, 0) == n
  {
    var q1 := WorkSteal.Ticked(q, i);
    assert forall u | 0 <= u < |q.locals| :: q1.locals[u].items == q.locals[u].items;
  }

  /** A `pop` takes the head of the shared queue, and leaves all local queues alone, when it is forced to look there,
      or finds all local queues empty. */
  lemma PopSharedOrder<T>(q: Plain<T>, i: nat, start: nat)
    requires WorkSteal.Inv(q) && i < |q.locals| && start < |q.locals| && q.shared != []
    requires Forced(q.locals[i].tick) || forall v | 0 <= v < |q.locals| :: q.locals[v].items == []
    ensures var (q', out) := WorkSteal.Pop(q, i, start);
            && out.Some? && q.shared == [out.value] + q'.shared
            && |q'.locals| == |q.locals| && forall v | 0 <= v < |q.locals| :: q'.locals[v].items == q.locals[v].items
  {
    var q1 := WorkSteal.Ticked(q, i);
    assert forall u | 0 <= u < |q.locals| :: q1.locals[u].items == q.locals[u].items;
  }

  // ---- A handle on its own ----

  /** Handle `i` holds `s` and every other queue is empty. */
  ghost predicate HoldsAlone<T>(q: Plain<T>, i: nat, s: seq<T>) {
    && WorkSteal.Inv(q) && i < |q.locals| && q.shared == [] && q.locals[i].items == s
    && forall v | 0 <= v < |q.locals| && v != i :: q.locals[v].items == []
  }

  ghost predicate FifoStep<T>(s: seq<T>, c: Call<T>, out: Option<T>, s': seq<T>) {
    match c
    case PushCall(_, x) => out == None && s' == s + [x]
    case PopCall(_, _) => if s == [] then out == None && s' == [] else out == Some(s[0]) && s' == s[1..]
    case _ => false
  }

  lemma AloneCall<T>(q: Plain<T>, c: Call<T>, out: Option<T>, q': Plain<T>, i: nat, s: seq<T>) returns (s': seq<T>)
    requires HoldsAlone(q, i, s) && CallStep(q, c, out, q') && (c.PushCall? || c.PopCall?) && c.handle == i
    requires c.PushCall? ==> |s| < q.capacity
    ensures FifoStep(s, c, out, s') && HoldsAlone(q', i, s')
  {
    match c {
      case PushCall(_, x) =>
        s' := s + [x];
      case PopCall(_, start) =>
        s' := if s == [] then [] else s[1..];
        if s == [] {
          NobodyHome(q, i, start);
        } else {
          PopOwnOrder(q, i, start);
        }
    }
  }

  lemma NobodyHome<T>(q: Plain<T>, i: nat, start: nat)
    requires HoldsAlone(q, i, []) && start < |q.locals|
    ensures WorkSteal.Pop(q, i, start) == (WorkSteal.Ticked(q, i), None)
  {
    var q1 := WorkSteal.Ticked(q, i);
    assert forall u | 0 <= u < |q.locals| :: q1.locals[u].items == [];
  }

  /** Every sequence of pushes and pops of one handle, with all other queues empty and no push on a full queue, returns
      what a first-in-first-out queue returns. */
  lemma FirstInFirstOut<T>(qs: seq<Plain<T>>, cs: seq<Call<T>>, outs: seq<Option<T>>, i: nat, s: seq<T>)
    returns (ss: seq<seq<T>>)
    requires CallRun(qs, cs, outs) && HoldsAlone(qs[0], i, s)
    requires forall n | 0 <= n < |cs| :: (cs[n].PushCall? || cs[n].PopCall?) && cs[n].handle == i
    requires forall n | 0 <= n < |cs| ::
               cs[n].PushCall? ==> i < |qs[n].locals| && |qs[n].locals[i].items| < qs[n].capacity
    ensures |ss| == |cs| + 1 && ss[0] == s
    ensures forall n | 0 <= n < |cs| :: FifoStep(ss[n], cs[n], outs[n], ss[n + 1])
    ensures HoldsAlone(qs[|cs|], i, ss[|cs|])
  {
    hide CallStep, FifoStep;
    ss := [s];
    for n := 0 to |cs|
      invariant |ss| == n + 1 && ss[0] == s
      invariant forall m | 0 <= m < n :: FifoStep(ss[m], cs[m], outs[m], ss[m + 1])
      invariant HoldsAlone(qs[n], i, ss[n])
    {
      var s' := AloneCall(qs[n], cs[n], outs[n], qs[n + 1], i, ss[n]);
      ss := ss + [s'];
    }
  }

  // ---- An item of the shared queue ----

  /** The call takes the head of the shared queue. */
  ghost predicate HeadTaken<T>(q: Plain<T>, q': Plain<T>, out: Option<T>) {
    out.Some? && q.shared == [out.value] + q'.shared
  }

  /** The followed item is at position `idx` of the shared queue. */
  ghost predicate WaitsAt<T>(q: Plain<T>, h: nat, idx: nat, x: T) {
    WorkSteal.Inv(q) && h < |q.locals| && idx < |q.shared| && q.shared[idx] == x
  }

  ghost function Patient<T>(q: Plain<T>, h: nat, idx: nat): nat
    requires h < |q.locals| && q.locals[h].tick <= U32_MAX
  {
    61 * idx + UntilForced(q.locals[h].tick)
  }

  ghost function PopCallsBy<T>(cs: seq<Call<T>>, h: nat): nat {
    if cs == [] then 0 else (if cs[0].PopCall? && cs[0].handle == h then 1 else 0) + PopCallsBy(cs[1..], h)
  }

  ghost function HeadsTaken<T>(qs: seq<Plain<T>>, outs: seq<Option<T>>): nat
    requires |qs| == |outs| + 1
  {
    if outs == [] then 0
    else (if HeadTaken(qs[0], qs[1], outs[0]) then 1 else 0) + HeadsTaken(qs[1..], outs[1..])
  }

  /** A call takes the head of the shared queue or at most appends to it; a forced pop takes the head; only the handle
      that pops ticks. */
  lemma CallAndShared<T>(q: Plain<T>, c: Call<T>, out: Option<T>, q': Plain<T>, h: nat)
    requires WorkSteal.Inv(q) && CallStep(q, c, out, q') && h < |q.locals|
    ensures HeadTaken(q, q', out) || q.shared <= q'.shared
    ensures c.PopCall? && c.handle == h && Forced(q.locals[h].tick) && q.shared != [] ==> HeadTaken(q, q', out)
    ensures |q'.locals| == |q.locals|
    ensures q'.locals[h].tick
         == if c.PopCall? && c.handle == h then OrderedQueues.NextTick(q.locals[h].tick) else q.locals[h].tick
  {
    if c.PopCall? {
      PopAndHead(q, c.handle, c.start, h);
    }
  }

  lemma PopAndHead<T>(q: Plain<T>, i: nat, start: nat, h: nat)
    requires WorkSteal.Inv(q) && i < |q.locals| && start < |q.locals| && h < |q.locals|
    ensures var (q', out) := WorkSteal.Pop(q, i, start);
            && (HeadTaken(q, q', out) || q'.shared == q.shared)
            && (Forced(q.locals[i].tick) && q.shared != [] ==> HeadTaken(q, q', out))
            && |q'.locals| == |q.locals|
            && q'.locals[h].tick == if h == i then OrderedQueues.NextTick(q.locals[h].tick) else q.locals[h].tick
  {
    hide WorkSteal.FirstVictim, OrderedQueues.Scanned, StealCount;
  }

  lemma FollowCall<T>(q: Plain<T>, c: Call<T>, out: Option<T>, q': Plain<T>, h: nat, idx: nat, x: T) returns (idx': nat)
    requires WaitsAt(q, h, idx, x) && CallStep(q, c, out, q')
    ensures if HeadTaken(q, q', out) && idx == 0 then out == Some(x)
            else
              && idx' + (if HeadTaken(q, q', out) then 1 else 0) == idx
              && WaitsAt(q', h, idx', x)
              && Patient(q', h, idx') + (if c.PopCall? && c.handle == h then 1 else 0) <= Patient(q, h, idx)
  {
    PlainStep(q, c, out, q', x);
    CallAndShared(q, c, out, q', h);
    TickCountsDown(q.locals[h].tick);
    idx' := if HeadTaken(q, q', out) && idx > 0 then idx - 1 else idx;
    hide CallStep, UntilForced;
  }

  /** An item of the shared queue with `idx` items before it leaves within `61 * (idx + 1)` pops of any one handle,
      after exactly these items, whatever the others do. */
  lemma {:induction false} SharedLeaves<T>(qs: seq<Plain<T>>, cs: seq<Call<T>>, outs: seq<Option<T>>,
                                           h: nat, idx: nat, x: T) returns (j: nat)
    requires CallRun(qs, cs, outs) && WaitsAt(qs[0], h, idx, x)
    requires PopCallsBy(cs, h) >= Patient(qs[0], h, idx)
    ensures j < |cs| && outs[j] == Some(x) && HeadTaken(qs[j], qs[j + 1], outs[j])
    ensures HeadsTaken(qs[..j + 1], outs[..j]) == idx
    decreases |cs|
  {
    hide CallStep, HeadTaken, WorkSteal.Inv;
    assert CallStep(qs[0], cs[0], outs[0], qs[1]);
    var idx' := FollowCall(qs[0], cs[0], outs[0], qs[1], h, idx, x);
    if HeadTaken(qs[0], qs[1], outs[0]) && idx == 0 {
      j := 0;
    } else {
      var qs', cs', outs' := qs[1..], cs[1..], outs[1..];
      forall n | 0 <= n < |cs'| ensures CallStep(qs'[n], cs'[n], outs'[n], qs'[n + 1]) {
        assert CallStep(qs[n + 1], cs[n + 1], outs[n + 1], qs[n + 2]);
      }
      var m := SharedLeaves(qs', cs', outs', h, idx', x);
      j := m + 1;
      assert qs[..j + 1][1..] == qs'[..m + 1] && outs[..j][1..] == outs'[..m];
    }
  }

  lemma SharedNeverStarves<T>(qs: seq<Plain<T>>, cs: seq<Call<T>>, outs: seq<Option<T>>, h: nat, idx: nat, x: T)
    returns (j: nat)
    requires CallRun(qs, cs, outs) && WaitsAt(qs[0], h, idx, x)
    requires PopCallsBy(cs, h) >= 61 * (idx + 1)
    ensures j < |cs| && outs[j] == Some(x) && HeadTaken(qs[j], qs[j + 1], outs[j])
    ensures HeadsTaken(qs[..j + 1], outs[..j]) == idx
  {
    j := SharedLeaves(qs, cs, outs, h, idx, x);
  }
}
