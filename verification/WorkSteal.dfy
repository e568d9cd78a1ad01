/** The unordered `WorkStealQueue`: a shared FIFO with a hand-kept length and one bounded FIFO per handle. */
module WorkSteal {

  import opened Basics
  import OrderedQueues

  datatype Local<T> = Local(items: seq<T>, tick: nat, stealing: bool)

  datatype Plain<T> = Plain(shared: seq<T>, len: nat, capacity: nat, locals: seq<Local<T>>)

  ghost predicate Inv<T>(q: Plain<T>) {
    && q.len == |q.shared| && q.capacity >= 1
    && forall i | 0 <= i < |q.locals| ::
         |q.locals[i].items| <= q.capacity && q.locals[i].tick <= U32_MAX && !q.locals[i].stealing
  }

  function SetLocal<T>(q: Plain<T>, i: nat, l: Local<T>): Plain<T>
    requires i < |q.locals|
  {
    q.(locals := q.locals[i := l])
  }

  function SharedPop<T>(q: Plain<T>): (Plain<T>, Option<T>) {
    if q.len == 0 || q.shared == [] then (q, None)
    else (q.(shared := q.shared[1..], len := SatSub(q.len, 1)), Some(q.shared[0]))
  }

  /** A full local queue gives its older half to the shared queue, followed by the new item. */
  function Push<T>(q: Plain<T>, i: nat, x: T): Plain<T>
    requires i < |q.locals|
  {
    var l := q.locals[i];
    if |l.items| < q.capacity then SetLocal(q, i, l.(items := l.items + [x]))
    else
      var count := |l.items| / 2;
      var q' := SetLocal(q, i, l.(items := l.items[count..]));
      q'.(shared := q.shared + l.items[..count] + [x], len := q.len + count + 1)
  }

  /** `can_steal` and the number of items one steal moves out of `n`. */
  predicate CanSteal<T>(l: Local<T>, capacity: nat) { SatSub(capacity, |l.items|) >= (capacity + 1) / 2 }

  function StealCount<T>(l: Local<T>, capacity: nat, n: nat): nat {
    Min(Min(n, Min(SatSub((capacity + 1) / 2, |l.items|), (n + 1) / 2)), SatSub(capacity, |l.items|))
  }

  /** The first non-empty sibling from the `n`-th scanned on. */
  function FirstVictim<T>(q: Plain<T>, start: nat, n: nat): (r: nat)
    requires start < |q.locals| && n <= |q.locals|
    ensures n <= r <= |q.locals|
    ensures forall l | n <= l < r :: q.locals[OrderedQueues.Scanned(start, l, |q.locals|)].items == []
    ensures r < |q.locals| ==> q.locals[OrderedQueues.Scanned(start, r, |q.locals|)].items != []
    decreases |q.locals| - n
  {
    if n == |q.locals| || q.locals[OrderedQueues.Scanned(start, n, |q.locals|)].items != [] then n
    else FirstVictim(q, start, n + 1)
  }

  function LocalPop<T>(q: Plain<T>, i: nat): (Plain<T>, Option<T>)
    requires i < |q.locals|
  {
    var l := q.locals[i];
    if l.items == [] then (q, None) else (SetLocal(q, i, l.(items := l.items[1..])), Some(l.items[0]))
  }

  function Steal<T>(q: Plain<T>, i: nat, v: nat): Plain<T>
    requires i < |q.locals| && v < |q.locals|
  {
    var l, another := q.locals[i], q.locals[v];
    var c := StealCount(l, q.capacity, |another.items|);
    SetLocal(SetLocal(q, v, another.(items := another.items[c..])), i, l.(items := l.items + another.items[..c]))
  }

  function Ticked<T>(q: Plain<T>, i: nat): Plain<T>
    requires i < |q.locals|
  {
    SetLocal(q, i, q.locals[i].(tick := OrderedQueues.NextTick(q.locals[i].tick)))
  }

  function Pop<T>(q: Plain<T>, i: nat, start: nat): (Plain<T>, Option<T>)
    requires i < |q.locals| && start < |q.locals|
  {
    var q1 := Ticked(q, i);
    var l := q1.locals[i];
    var n := FirstVictim(q1, start, 0);
    if l.tick % OrderedQueues.FORCED_PERIOD == 0 && SharedPop(q1).1.Some? then SharedPop(q1)
    else if l.items != [] then LocalPop(q1, i)
    else if !l.stealing && CanSteal(l, q1.capacity) && n < |q1.locals|
    then LocalPop(Steal(q1, i, OrderedQueues.Scanned(start, n, |q1.locals|)), i)
    else SharedPop(q1)
  }

  // ---- The mutable queue ----

  class WorkStealQueue<T> {
    var shared: seq<T>
    var len: nat
    const capacity: nat
    var locals: seq<Local<T>>

    ghost function View(): Plain<T>
      reads this
    {
      Plain(shared, len, capacity, locals)
    }

    constructor (localQueues: nat, localCapacity: nat)
      ensures Inv(View()) && shared == [] && |locals| == localQueues
      ensures capacity == OrderedQueues.WorkerCapacity(localCapacity)
      ensures forall i | 0 <= i < |locals| :: locals[i] == Local([], 0, false)
    {
      shared, len := [], 0;
      capacity := OrderedQueues.WorkerCapacity(localCapacity);
      locals := seq(localQueues, _ => Local([], 0, false));
    }

    method PushShared(x: T)
      modifies this
      ensures View() == old(View()).(shared := old(shared) + [x], len := old(len) + 1)
    {
      shared := shared + [x];
      len := len + 1;
    }

    method PopShared() returns (r: Option<T>)
      modifies this
      ensures (View(), r) == SharedPop(old(View()))
    {
      if len == 0 || shared == [] {
        return None;
      }
      r := Some(shared[0]);
      shared, len := shared[1..], SatSub(len, 1);
    }

    method PushLocal(i: nat, x: T)
      requires i < |locals|
      modifies this
      ensures View() == Push(old(View()), i, x)
    {
      var l := locals[i];
      if |l.items| < capacity {
        locals := locals[i := l.(items := l.items + [x])];
        return;
      }
      var count := |l.items| / 2;
      for n := 0 to count
        invariant |locals| == |old(locals)| && locals == old(locals)[i := l.(items := l.items[n..])]
        invariant shared == old(shared) + l.items[..n] && len == old(len) + n
      {
        var item := locals[i].items[0];
        locals := locals[i := locals[i].(items := locals[i].items[1..])];
        PushShared(item);
      }
      PushShared(x);
    }

    method PopLocal(i: nat) returns (r: Option<T>)
      requires i < |locals|
      modifies this
      ensures (View(), r) == LocalPop(old(View()), i)
    {
      var l := locals[i];
      if l.items == [] {
        return None;
      }
      locals := locals[i := l.(items := l.items[1..])];
      r := Some(l.items[0]);
    }

    method StealScan(i: nat, start: nat) returns (stolen: bool)
      requires i < |locals| && start < |locals| && capacity >= 1
      requires locals[i].items == [] && !locals[i].stealing
      modifies this
      ensures var n := FirstVictim(old(View()), start, 0);
              && (stolen <==> n < |old(locals)|)
              && (stolen ==> View() == Steal(old(View()), i, OrderedQueues.Scanned(start, n, |old(locals)|)))
              && (!stolen ==> View() == old(View()))
    {
      locals := locals[i := locals[i].(stealing := true)];
      var n := 0;
      while n < |locals|
        invariant n <= |locals| == |old(locals)|
        invariant View() == SetLocal(old(View()), i, old(locals)[i].(stealing := true))
        invariant n <= FirstVictim(old(View()), start, 0)
      {
        if !CanSteal(locals[i], capacity) {
          break;
        }
        var v := OrderedQueues.Scanned(start, n, |locals|);
        var another := locals[v];
        if another.items != [] {
          var c := StealCount(locals[i], capacity, |another.items|);
          if c > 0 {
            locals := locals[v := another.(items := another.items[c..])];
            locals := locals[i := locals[i].(items := locals[i].items + another.items[..c])];
            locals := locals[i := locals[i].(stealing := false)];
            assert locals == Steal(old(View()), i, v).locals;
            return true;
          }
        }
        n := n + 1;
      }
      locals := locals[i := locals[i].(stealing := false)];
      stolen := false;
    }

    method PopItem(i: nat, start: nat) returns (r: Option<T>)
      requires i < |locals| && start < |locals| && capacity >= 1
      modifies this
      ensures (View(), r) == Pop(old(View()), i, start)
    {
      locals := locals[i := locals[i].(tick := OrderedQueues.NextTick(locals[i].tick))];
      if locals[i].tick % OrderedQueues.FORCED_PERIOD == 0 {
        r := PopShared();
        if r.Some? {
          return;
        }
      }
      r := PopLocal(i);
      if r.Some? {
        return;
      }
      if !locals[i].stealing {
        var stolen := StealScan(i, start);
        if stolen {
          r := PopLocal(i);
          return;
        }
      }
      r := PopShared();
    }
  }
}
