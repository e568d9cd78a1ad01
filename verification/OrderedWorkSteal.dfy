/** `OrderedWorkStealQueue` and its handles as mutable objects. The per-handle fields (`tick`, `len`,
    `stealing`) stand next to the local queue they belong to. */
module OrderedWorkSteal {

  import opened Basics
  import opened SkipMaps
  import opened OrderedQueues

  function Item<T>(o: Option<(int, T)>): Option<T> {
    match o case None => None case Some((_, x)) => Some(x)
  }

  class OrderedWorkStealQueue<T> {
    var shared: SkipMap<T>
    var len: nat
    const capacity: nat
    var handles: seq<Handle<T>>

    ghost function View(): Queues<T>
      reads this
    {
      Queues(shared, len, capacity, handles)
    }

    constructor (localQueues: nat, capacity: nat)
      ensures View() == New(localQueues, capacity) && shared == [] && len == 0
      ensures |handles| == localQueues && forall i | 0 <= i < localQueues :: handles[i] == Handle([], 0, 0, false)
    {
      shared, len := [], 0;
      this.capacity := capacity;
      handles := seq(localQueues, _ => Handle([], 0, 0, false));
    }

    method PushShared(k: int, x: T)
      modifies this
      ensures View() == SharedPush(old(View()), k, x)
    {
      shared := PushBack(shared, k, [x]);
      len := len + 1;
    }

    method PopShared() returns (r: Option<T>)
      modifies this
      ensures View() == SharedPop(old(View())).0
      ensures r == Item(SharedPop(old(View())).1)
    {
      if len == 0 {
        return None;
      }
      var j := 0;
      while j < |shared|
        invariant j <= FirstNonEmpty(shared)
        invariant View() == old(View())
      {
        var xs := shared[j].items;
        if xs != [] {
          shared := SetItems(shared, j, xs[1..]);
          len := SatSub(len, 1);
          return Some(xs[0]);
        }
        j := j + 1;
      }
      return None;
    }

    method PopLocal(i: nat) returns (r: Option<T>)
      requires i < |handles|
      modifies this
      ensures View() == LocalPop(old(View()), i).0
      ensures r == Item(LocalPop(old(View()), i).1)
    {
      var h := handles[i];
      var j := 0;
      while j < |h.queue|
        invariant j <= FirstNonEmpty(h.queue)
        invariant View() == old(View())
      {
        var xs := h.queue[j].items;
        if xs != [] {
          handles := handles[i := h.(queue := SetItems(h.queue, j, xs[1..]), len := SatSub(h.len, 1))];
          return Some(xs[0]);
        }
        j := j + 1;
      }
      return None;
    }

    /** The scan of one sibling `v`: stops at its first non-empty queue. The test that is to skip the
        handle's own queue compares addresses of references and never does; it is harmless because
        the own queue is empty here. */
    method TrySteal(i: nat, v: nat) returns (stolen: bool)
      requires i < |handles| && v < |handles|
      requires !HasItems(handles[i].queue) && CanSteal(handles[i], capacity)
      modifies this
      ensures stolen == HasItems(old(handles)[v].queue)
      ensures stolen ==> View() == Steal(old(View()), i, v)
      ensures !stolen ==> View() == old(View())
    {
      var h, another := handles[i], handles[v];
      var j := 0;
      while j < |another.queue|
        invariant j <= FirstNonEmpty(another.queue)
        invariant View() == old(View())
      {
        var Bucket(k, xs) := another.queue[j];
        if xs != [] {
          EmptyGet(h.queue, k);
          var c := StealCount(h, capacity, |xs|, Get(h.queue, k));
          if c > 0 {
            var into := PushBack(h.queue, k, xs[..c]);
            handles := handles[v := another.(queue := SetItems(another.queue, j, xs[c..]))];
            handles := handles[i := h.(queue := into, len := h.len + |Get(into, k)|)];
            return true;
          }
        }
        j := j + 1;
      }
      return false;
    }

    /** The scan of the siblings under the `stealing` lock, beginning at the random `start`. */
    method StealScan(i: nat, start: nat) returns (stolen: bool)
      requires i < |handles| && start < |handles|
      requires !HasItems(handles[i].queue) && !handles[i].stealing
      modifies this
      ensures var n := FirstVictim(old(View()), start, 0);
              && (stolen <==> CanSteal(old(handles)[i], capacity) && n < |old(handles)|)
              && (stolen ==> View() == Steal(old(View()), i, Scanned(start, n, |old(handles)|)))
              && (!stolen ==> View() == old(View()))
    {
      handles := handles[i := handles[i].(stealing := true)];
      var n := 0;
      while n < |handles|
        invariant n <= |handles| && |handles| == |old(handles)|
        invariant View() == SetHandle(old(View()), i, old(handles)[i].(stealing := true))
        invariant n <= FirstVictim(old(View()), start, 0)
        invariant n > 0 ==> CanSteal(old(handles)[i], capacity)
      {
        if !CanSteal(handles[i], capacity) {
          break;
        }
        var v := Scanned(start, n, |handles|);
        stolen := TrySteal(i, v);
        if stolen {
          StealUnderLock(old(View()), i, v);
          handles := handles[i := handles[i].(stealing := false)];
          return;
        }
        n := n + 1;
      }
      handles := handles[i := handles[i].(stealing := false)];
      stolen := false;
    }

    method Pop(i: nat, start: nat) returns (r: Option<T>)
      requires i < |handles| && start < |handles|
      modifies this
      ensures View() == OrderedQueues.Pop(old(View()), i, start).0
      ensures r == Item(OrderedQueues.Pop(old(View()), i, start).1)
    {
      handles := handles[i := handles[i].(tick := NextTick(handles[i].tick))];
      if handles[i].tick % FORCED_PERIOD == 0 {
        r := PopShared();
        if r.Some? {
          return;
        }
      }
      r := PopLocal(i);
      if r.Some? {
        return;
      }
      if !handles[i].stealing {
        var stolen := StealScan(i, start);
        if stolen {
          r := PopLocal(i);
          return;
        }
      }
      r := PopShared();
    }

    method MoveToShared(i: nat, j: nat)
      requires i < |handles| && j < |handles[i].queue| && handles[i].queue[j].items != []
      modifies this
      ensures View() == MoveOne(old(View()), i, j)
    {
      var h := handles[i];
      var Bucket(key, xs) := h.queue[j];
      handles := handles[i := h.(queue := SetItems(h.queue, j, xs[1..]))];
      PushShared(key, xs[0]);
    }

    /** One pass over the buckets, from the lowest precedence up: the oldest item of each moves to the
        shared queue until `count` have moved. */
    method OverflowPass(i: nat, count: nat, done: nat, ghost q: Queues<T>, ghost pass: nat)
      returns (done': nat, ghost p: nat)
      requires i < |q.handles| && Sorted(q.handles[i].queue) && done < count
      requires var m := q.handles[i].queue; done == Taken(m, pass) && Overflowing(q, i, View(), Fronts(m, pass, |m|))
      modifies this
      ensures var m := q.handles[i].queue; var g := Fronts(m, pass, p);
              && p <= |m| && done' == Sum(g) <= count
              && Overflowing(q, i, View(), g)
              && (done' < count ==> p == 0)
    {
      ghost var m := q.handles[i].queue;
      ghost var g := Fronts(m, pass, |m|);
      var j: nat := |handles[i].queue|;
      done' := done;
      while j > 0 && done' < count
        invariant j <= |m| && done' == Sum(g) <= count
        invariant g == Fronts(m, pass, j)
        invariant Overflowing(q, i, View(), g)
      {
        j := j - 1;
        FrontsNextBucket(m, pass, j);
        if handles[i].queue[j].items != [] {
          OverflowingStep(q, i, View(), g, j);
          MoveToShared(i, j);
          done' := done' + 1;
          g := g[j := g[j] + 1];
        }
      }
      p := j;
    }

    /** Moves half of the local items to the shared queue, then the new item. The loop is followed for at
        most `passes` passes over the buckets: it has ended by then exactly when that many passes find
        enough items. */
    method PushToGlobal(i: nat, k: int, x: T, passes: nat) returns (finished: bool, ghost g: seq<nat>)
      requires WellFormed(View()) && i < |handles|
      modifies this
      ensures finished <==> Taken(old(handles)[i].queue, passes) >= old(handles)[i].len / 2
      ensures finished ==> Overflowed(old(View()), i, k, x, View(), g)
      ensures !finished ==> Overflowing(old(View()), i, View(), g)
    {
      ghost var m := handles[i].queue;
      var count := handles[i].len / 2;
      var done, pass := 0, 0;
      ghost var r: nat, p: nat := 0, |m|;
      OverflowingStart(View(), i);
      while done < count && pass < passes
        invariant pass <= passes && done == Sum(Fronts(m, r, p)) <= count
        invariant done < count ==> r == pass && p == |m|
        invariant done == count ==> r < pass || done == 0
        invariant Overflowing(old(View()), i, View(), Fronts(m, r, p))
        decreases passes - pass
      {
        done, p := OverflowPass(i, count, done, old(View()), pass);
        r, pass := pass, pass + 1;
        if done < count {
          FrontsNextPass(m, r);
          r, p := pass, |m|;
        }
      }
      g := Fronts(m, r, p);
      finished := done >= count;
      if finished {
        if done > 0 {
          TakenMonotone(m, r, p, passes);
        }
        FrontsBalanced(m, r, p);
        OverflowingEnd(old(View()), i, View(), g, k, x);
        handles := handles[i := handles[i].(len := SatSub(handles[i].len, count))];
        PushShared(k, x);
      }
    }

    method Push(i: nat, k: int, x: T, passes: nat) returns (finished: bool)
      requires WellFormed(View()) && i < |handles|
      modifies this
      ensures finished ==> Pushed(old(View()), i, k, x, View())
      ensures LocalFull(old(handles)[i], capacity) || WorkerFull(old(View()), i, k) ==>
                (finished <==> Taken(old(handles)[i].queue, passes) >= old(handles)[i].len / 2)
      ensures !LocalFull(old(handles)[i], capacity) && !WorkerFull(old(View()), i, k) ==> finished
    {
      ghost var g;
      if LocalFull(handles[i], capacity) {
        finished, g := PushToGlobal(i, k, x, passes);
        return;
      }
      var h := handles[i];
      if |Get(h.queue, k)| >= WorkerCapacity(capacity) {
        finished, g := PushToGlobal(i, k, x, passes);
      } else {
        handles := handles[i := h.(queue := PushBack(h.queue, k, [x]), len := h.len + 1)];
        finished := true;
      }
    }
  }
}
