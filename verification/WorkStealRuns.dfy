/** Every run of the unordered queue: nothing is lost, and an empty-handed `pop` means that everything is
    empty. Here the length of a local queue is read off the queue itself, so it is always exact. */
module WorkStealRuns {

  import opened Basics
  import opened WorkSteal
  import OrderedPops
  import OrderedQueues
  import opened OrderedRuns

  datatype Call<T> =
    | PushCall(handle: nat, item: T)
    | PopCall(handle: nat, start: nat)
    | SharedPushCall(item: T)
    | SharedPopCall

  ghost predicate CallStep<T>(q: Plain<T>, c: Call<T>, out: Option<T>, q': Plain<T>) {
    match c
    case PushCall(i, x) => i < |q.locals| && out == None && q' == WorkSteal.Push(q, i, x)
    case PopCall(i, start) => i < |q.locals| && start < |q.locals| && (q', out) == WorkSteal.Pop(q, i, start)
    case SharedPushCall(x) => out == None && q' == q.(shared := q.shared + [x], len := q.len + 1)
    case SharedPopCall => (q', out) == WorkSteal.SharedPop(q)
  }

  ghost predicate CallRun<T>(qs: seq<Plain<T>>, cs: seq<Call<T>>, outs: seq<Option<T>>) {
    && |qs| == |cs| + 1 && |outs| == |cs|
    && forall j | 0 <= j < |cs| :: CallStep(qs[j], cs[j], outs[j], qs[j + 1])
  }

  ghost function LocalCount<T>(ls: seq<Local<T>>, x: T): nat {
    if ls == [] then 0 else Occurs(ls[0].items, x) + LocalCount(ls[1..], x)
  }

  /** How often `x` is held in the shared queue and in all local queues. */
  ghost function HeldCount<T>(q: Plain<T>, x: T): nat { Occurs(q.shared, x) + LocalCount(q.locals, x) }

  ghost function Brought<T>(c: Call<T>, x: T): nat {
    if (c.PushCall? || c.SharedPushCall?) && c.item == x then 1 else 0
  }

  ghost function Returned<T>(out: Option<T>, x: T): nat { if out == Some(x) then 1 else 0 }

  ghost function AllBrought<T>(cs: seq<Call<T>>, x: T): nat {
    if cs == [] then 0 else AllBrought(cs[..|cs| - 1], x) + Brought(cs[|cs| - 1], x)
  }

  ghost function AllReturned<T>(outs: seq<Option<T>>, x: T): nat {
    if outs == [] then 0 else AllReturned(outs[..|outs| - 1], x) + Returned(outs[|outs| - 1], x)
  }

  lemma {:induction false} CountSetLocal<T>(ls: seq<Local<T>>, i: nat, l: Local<T>, x: T)
    requires i < |ls|
    ensures LocalCount(ls[i := l], x) + Occurs(ls[i].items, x) == LocalCount(ls, x) + Occurs(l.items, x)
  {
    if i == 0 {
      assert ls[i := l][1..] == ls[1..];
    } else {
      assert ls[i := l][1..] == ls[1..][i - 1 := l];
      CountSetLocal(ls[1..], i - 1, l, x);
    }
  }

  lemma OccursFront<T>(s: seq<T>, c: nat, x: T)
    requires c <= |s|
    ensures Occurs(s, x) == Occurs(s[..c], x) + Occurs(s[c..], x)
  {
    assert s == s[..c] + s[c..];
    OccursConcat(s[..c], s[c..], x);
  }

  lemma SharedPopCounts<T>(q: Plain<T>, x: T)
    requires WorkSteal.Inv(q)
    ensures var (q', out) := WorkSteal.SharedPop(q);
            && WorkSteal.Inv(q') && HeldCount(q, x) == HeldCount(q', x) + Returned(out, x)
            && (out == None <==> q.shared == []) && q'.locals == q.locals && q'.capacity == q.capacity
  {
    if q.shared != [] {
      OccursFront(q.shared, 1, x);
      assert q.shared[..1] == [q.shared[0]];
    }
  }

  lemma LocalPopCounts<T>(q: Plain<T>, i: nat, x: T)
    requires WorkSteal.Inv(q) && i < |q.locals|
    ensures var (q', out) := WorkSteal.LocalPop(q, i);
            && WorkSteal.Inv(q') && HeldCount(q, x) == HeldCount(q', x) + Returned(out, x)
            && (out == None <==> q.locals[i].items == [])
            && |q'.locals| == |q.locals| && q'.capacity == q.capacity
  {
    var s := q.locals[i].items;
    if s != [] {
      OccursFront(s, 1, x);
      assert s[..1] == [s[0]];
      CountSetLocal(q.locals, i, q.locals[i].(items := s[1..]), x);
    }
  }

  /** One steal takes at least one item and at most half, rounded up, from the front of the victim. */
  lemma StealCounts<T>(q: Plain<T>, i: nat, v: nat, x: T)
    requires WorkSteal.Inv(q) && i < |q.locals| && v < |q.locals|
    requires q.locals[i].items == [] && q.locals[v].items != []
    ensures var q' := WorkSteal.Steal(q, i, v);
            var n := |q.locals[v].items|;
            var c := WorkSteal.StealCount(q.locals[i], q.capacity, n);
            && WorkSteal.Inv(q') && HeldCount(q', x) == HeldCount(q, x)
            && 1 <= c <= (n + 1) / 2
            && q'.locals[i].items == q.locals[v].items[..c] && q'.locals[v].items == q.locals[v].items[c..]
            && |q'.locals| == |q.locals| && q'.capacity == q.capacity
  {
    var l, another := q.locals[i], q.locals[v];
    var c := WorkSteal.StealCount(l, q.capacity, |another.items|);
    var robbed := another.(items := another.items[c..]);
    var fed := l.(items := l.items + another.items[..c]);
    OccursFront(another.items, c, x);
    CountSetLocal(q.locals, v, robbed, x);
    CountSetLocal(q.locals[v := robbed], i, fed, x);
    assert l.items + another.items[..c] == another.items[..c];
  }

  lemma PushCounts<T>(q: Plain<T>, i: nat, y: T, x: T)
    requires WorkSteal.Inv(q) && i < |q.locals|
    ensures WorkSteal.Inv(WorkSteal.Push(q, i, y))
    ensures HeldCount(WorkSteal.Push(q, i, y), x) == HeldCount(q, x) + Brought(PushCall(i, y), x)
  {
    var l := q.locals[i];
    if |l.items| < q.capacity {
      OccursConcat(l.items, [y], x);
      CountSetLocal(q.locals, i, l.(items := l.items + [y]), x);
    } else {
      var count := |l.items| / 2;
      OccursFront(l.items, count, x);
      OccursConcat(q.shared, l.items[..count], x);
      OccursConcat(q.shared + l.items[..count], [y], x);
      CountSetLocal(q.locals, i, l.(items := l.items[count..]), x);
    }
  }

  /** A `pop` keeps every other item, and returns nothing exactly when all queues are empty, for every tick
      and every random start. */
  lemma PlainPop<T>(q: Plain<T>, i: nat, start: nat, x: T)
    requires WorkSteal.Inv(q) && i < |q.locals| && start < |q.locals|
    ensures var (q', out) := WorkSteal.Pop(q, i, start);
            && WorkSteal.Inv(q') && HeldCount(q, x) == HeldCount(q', x) + Returned(out, x)
            && (out == None <==> q.shared == [] && forall v | 0 <= v < |q.locals| :: q.locals[v].items == [])
  {
    hide WorkSteal.SharedPop, WorkSteal.LocalPop, WorkSteal.Steal, WorkSteal.FirstVictim, HeldCount;
    var q1 := WorkSteal.Ticked(q, i);
    assert WorkSteal.Inv(q1) && HeldCount(q1, x) == HeldCount(q, x) by { PlainTick(q, i, x); }
    assert forall v | 0 <= v < |q.locals| :: q1.locals[v].items == q.locals[v].items;
    SharedPopCounts(q1, x);
    LocalPopCounts(q1, i, x);
    var n := WorkSteal.FirstVictim(q1, start, 0);
    if q1.locals[i].items == [] {
      if n < |q1.locals| {
        var v := OrderedQueues.Scanned(start, n, |q1.locals|);
        StealCounts(q1, i, v, x);
        LocalPopCounts(WorkSteal.Steal(q1, i, v), i, x);
      } else {
        forall v | 0 <= v < |q1.locals| ensures q1.locals[v].items == [] {
          var l := OrderedPops.ScanCovers(start, v, |q1.locals|);
        }
      }
    }
  }

  lemma PlainTick<T>(q: Plain<T>, i: nat, x: T)
    requires WorkSteal.Inv(q) && i < |q.locals|
    ensures WorkSteal.Inv(WorkSteal.Ticked(q, i)) && HeldCount(WorkSteal.Ticked(q, i), x) == HeldCount(q, x)
  {
    CountSetLocal(q.locals, i, WorkSteal.Ticked(q, i).locals[i], x);
  }

  lemma {:induction false} PlainRunCounts<T>(qs: seq<Plain<T>>, cs: seq<Call<T>>, outs: seq<Option<T>>, x: T)
    requires CallRun(qs, cs, outs) && WorkSteal.Inv(qs[0])
    ensures WorkSteal.Inv(qs[|cs|])
    ensures HeldCount(qs[0], x) + AllBrought(cs, x) == HeldCount(qs[|cs|], x) + AllReturned(outs, x)
  {
    hide WorkSteal.Inv, HeldCount, CallStep;
    if cs != [] {
      var n := |cs| - 1;
      PlainRunCounts(qs[..|cs|], cs[..n], outs[..n], x);
      PlainStep(qs[n], cs[n], outs[n], qs[n + 1], x);
    }
  }

  /** One call neither loses nor duplicates an item and keeps the shared length exact. */
  lemma PlainStep<T>(q: Plain<T>, c: Call<T>, out: Option<T>, q': Plain<T>, x: T)
    requires WorkSteal.Inv(q) && CallStep(q, c, out, q')
    ensures WorkSteal.Inv(q')
    ensures HeldCount(q, x) + Brought(c, x) == HeldCount(q', x) + Returned(out, x)
  {
    hide WorkSteal.Push, WorkSteal.Pop, WorkSteal.SharedPop;
    match c
    case PushCall(i, y) => PushCounts(q, i, y, x);
    case PopCall(i, start) => PlainPop(q, i, start, x);
    case SharedPushCall(y) => OccursConcat(q.shared, [y], x);
    case SharedPopCall => SharedPopCounts(q, x);
  }

  /** In every run that starts with empty queues, every item was pushed as often as it was returned by `pop`
      or is still held. */
  lemma PlainNothingLost<T>(qs: seq<Plain<T>>, cs: seq<Call<T>>, outs: seq<Option<T>>, x: T)
    requires CallRun(qs, cs, outs) && WorkSteal.Inv(qs[0])
    requires qs[0].shared == [] && forall i | 0 <= i < |qs[0].locals| :: qs[0].locals[i].items == []
    ensures AllBrought(cs, x) == AllReturned(outs, x) + HeldCount(qs[|cs|], x)
    ensures qs[|cs|].len == |qs[|cs|].shared|
  {
    PlainRunCounts(qs, cs, outs, x);
    NoneLocal(qs[0].locals, x);
  }

  lemma {:induction false} NoneLocal<T>(ls: seq<Local<T>>, x: T)
    requires forall i | 0 <= i < |ls| :: ls[i].items == []
    ensures LocalCount(ls, x) == 0
  {
    if ls != [] {
      NoneLocal(ls[1..], x);
    }
  }
}
