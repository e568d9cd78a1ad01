/** The abstract meaning of `SkipMap<c_longlong, _>` with a FIFO queue per key: buckets in strictly
    increasing key order. A smaller key is a higher precedence; empty buckets may stay behind. */
module SkipMaps {

  import opened Basics

  datatype Bucket<T> = Bucket(key: int, items: seq<T>)

  type SkipMap<T> = seq<Bucket<T>>

  ghost predicate Sorted<T>(m: SkipMap<T>) {
    forall i, j | 0 <= i < j < |m| :: m[i].key < m[j].key
  }

  /** The number of items in all buckets. */
  ghost function Size<T>(m: SkipMap<T>): nat {
    if m == [] then 0 else |m[0].items| + Size(m[1..])
  }

  /** The number of items whose key is smaller than `k`. */
  ghost function SizeBelow<T>(m: SkipMap<T>, k: int): nat {
    if m == [] then 0 else (if m[0].key < k then |m[0].items| else 0) + SizeBelow(m[1..], k)
  }

  /** The queue stored under `k`, empty when there is no bucket for `k`. */
  function Get<T>(m: SkipMap<T>, k: int): seq<T> {
    if m == [] then [] else if m[0].key == k then m[0].items else Get(m[1..], k)
  }

  /** `get_or_insert_with(k, ..)` followed by pushing `xs` at the tail of that queue. */
  function PushBack<T>(m: SkipMap<T>, k: int, xs: seq<T>): SkipMap<T> {
    if m == [] || k < m[0].key then [Bucket(k, xs)] + m
    else if m[0].key == k then [Bucket(k, m[0].items + xs)] + m[1..]
    else [m[0]] + PushBack(m[1..], k, xs)
  }

  /** The first bucket, in key order, that holds an item; `|m|` when there is none. */
  function FirstNonEmpty<T>(m: SkipMap<T>): (j: nat)
    ensures j <= |m|
    ensures forall l | 0 <= l < j :: m[l].items == []
    ensures j < |m| ==> m[j].items != []
  {
    if m == [] || m[0].items != [] then 0
    else
      var j := FirstNonEmpty(m[1..]);
      assert forall l | 0 < l < |m| :: m[l] == m[1..][l - 1];
      j + 1
  }

  /** Replaces the queue of bucket `j`. */
  function SetItems<T>(m: SkipMap<T>, j: nat, xs: seq<T>): SkipMap<T>
    requires j < |m|
  {
    m[j := Bucket(m[j].key, xs)]
  }

  /** Iterating in key order and popping the oldest item of the first non-empty queue. */
  function PopFirst<T>(m: SkipMap<T>): (Option<(int, T)>, SkipMap<T>) {
    var j := FirstNonEmpty(m);
    if j == |m| then (None, m)
    else (Some((m[j].key, m[j].items[0])), SetItems(m, j, m[j].items[1..]))
  }

  lemma {:induction false} GetAbsent<T>(m: SkipMap<T>, k: int)
    requires forall j | 0 <= j < |m| :: m[j].key != k
    ensures Get(m, k) == []
  {
    if m != [] {
      GetAbsent(m[1..], k);
    }
  }

  lemma {:induction false} GetAt<T>(m: SkipMap<T>, j: nat)
    requires Sorted(m) && j < |m|
    ensures Get(m, m[j].key) == m[j].items
  {
    if j > 0 {
      GetAt(m[1..], j - 1);
    }
  }

  /** Replacing one queue changes that key only, and each measure by the difference. */
  lemma {:induction false} SetItemsMeaning<T>(m: SkipMap<T>, j: nat, xs: seq<T>, k: int)
    requires Sorted(m) && j < |m|
    ensures Sorted(SetItems(m, j, xs))
    ensures Get(SetItems(m, j, xs), k) == if k == m[j].key then xs else Get(m, k)
    ensures Size(SetItems(m, j, xs)) == Size(m) - |m[j].items| + |xs|
    ensures SizeBelow(SetItems(m, j, xs), k)
         == SizeBelow(m, k) + if m[j].key < k then |xs| - |m[j].items| else 0
  {
    var r := SetItems(m, j, xs);
    if j == 0 {
      assert r[1..] == m[1..];
    } else {
      assert m[0].key < m[j].key;
      assert r[1..] == SetItems(m[1..], j - 1, xs);
      SetItemsMeaning(m[1..], j - 1, xs, k);
    }
  }

  lemma {:induction false} PushBackKeys<T>(m: SkipMap<T>, k: int, xs: seq<T>, low: int)
    requires low < k && forall j | 0 <= j < |m| :: low < m[j].key
    ensures forall j | 0 <= j < |PushBack(m, k, xs)| :: low < PushBack(m, k, xs)[j].key
  {
    if !(m == [] || k <= m[0].key) {
      PushBackKeys(m[1..], k, xs, low);
    }
  }

  lemma {:induction false} PushBackSorted<T>(m: SkipMap<T>, k: int, xs: seq<T>)
    requires Sorted(m)
    ensures Sorted(PushBack(m, k, xs))
  {
    if !(m == [] || k <= m[0].key) {
      PushBackSorted(m[1..], k, xs);
      PushBackKeys(m[1..], k, xs, m[0].key);
    }
  }

  lemma {:induction false} PushBackSizes<T>(m: SkipMap<T>, k: int, xs: seq<T>, l: int)
    ensures Size(PushBack(m, k, xs)) == Size(m) + |xs|
    ensures SizeBelow(PushBack(m, k, xs), l) == SizeBelow(m, l) + if k < l then |xs| else 0
  {
    var r := PushBack(m, k, xs);
    if m == [] || k < m[0].key {
      assert r[1..] == m;
    } else if m[0].key == k {
      assert r[1..] == m[1..];
    } else {
      assert r[1..] == PushBack(m[1..], k, xs);
      PushBackSizes(m[1..], k, xs, l);
    }
  }

  lemma {:induction false} PushBackGet<T>(m: SkipMap<T>, k: int, xs: seq<T>, l: int)
    requires Sorted(m)
    ensures Get(PushBack(m, k, xs), l) == Get(m, l) + if l == k then xs else []
  {
    var r := PushBack(m, k, xs);
    if m == [] || k < m[0].key {
      assert r[1..] == m;
      if l == k {
        GetAbsent(m, k);
      }
    } else if m[0].key != k {
      assert r[1..] == PushBack(m[1..], k, xs);
      PushBackGet(m[1..], k, xs, l);
    } else {
      assert r[1..] == m[1..];
    }
  }

  /** Appending under `k` extends exactly that queue and counts its items. */
  lemma PushBackMeaning<T>(m: SkipMap<T>, k: int, xs: seq<T>, l: int)
    requires Sorted(m)
    ensures Sorted(PushBack(m, k, xs))
    ensures Get(PushBack(m, k, xs), l) == Get(m, l) + if l == k then xs else []
    ensures Size(PushBack(m, k, xs)) == Size(m) + |xs|
    ensures SizeBelow(PushBack(m, k, xs), l) == SizeBelow(m, l) + if k < l then |xs| else 0
  {
    PushBackSorted(m, k, xs);
    PushBackGet(m, k, xs, l);
    PushBackSizes(m, k, xs, l);
  }

  lemma {:induction false} SizeZero<T>(m: SkipMap<T>)
    ensures Size(m) == 0 <==> forall j | 0 <= j < |m| :: m[j].items == []
  {
    if m != [] {
      SizeZero(m[1..]);
      assert forall j | 0 < j < |m| :: m[j] == m[1..][j - 1];
    }
  }

  /** A bucket never holds more than the whole map. */
  lemma {:induction false} BucketInSize<T>(m: SkipMap<T>, k: int)
    ensures |Get(m, k)| <= Size(m)
  {
    if m != [] && m[0].key != k {
      BucketInSize(m[1..], k);
    }
  }

  lemma {:induction false} EmptyGet<T>(m: SkipMap<T>, k: int)
    requires forall j | 0 <= j < |m| && m[j].key == k :: m[j].items == []
    ensures Get(m, k) == []
  {
    if m != [] && m[0].key != k {
      EmptyGet(m[1..], k);
    }
  }

  lemma {:induction false} NothingBelow<T>(m: SkipMap<T>, j: nat)
    requires Sorted(m) && j < |m|
    requires forall l | 0 <= l < j :: m[l].items == []
    ensures SizeBelow(m, m[j].key) == 0
  {
    if j > 0 {
      NothingBelow(m[1..], j - 1);
    } else {
      NothingBelowFirst(m, m[0].key);
    }
  }

  lemma {:induction false} NothingBelowFirst<T>(m: SkipMap<T>, k: int)
    requires forall j | 0 <= j < |m| :: k <= m[j].key
    ensures SizeBelow(m, k) == 0
  {
    if m != [] {
      NothingBelowFirst(m[1..], k);
    }
  }

  lemma PopFirstFails<T>(m: SkipMap<T>)
    ensures PopFirst(m).0 == None <==> Size(m) == 0
    ensures PopFirst(m).0 == None ==> PopFirst(m).1 == m
  {
    SizeZero(m);
  }

  /** A successful pop removes the oldest item of the smallest key that has one, and nothing else. */
  lemma PopFirstMeaning<T>(m: SkipMap<T>, l: int)
    requires Sorted(m) && PopFirst(m).0.Some?
    ensures var (k, x) := PopFirst(m).0.value; var r := PopFirst(m).1;
            && Sorted(r)
            && SizeBelow(m, k) == 0
            && Get(m, l) == (if l == k then [x] else []) + Get(r, l)
            && Size(r) + 1 == Size(m)
            && SizeBelow(m, l) == SizeBelow(r, l) + if k < l then 1 else 0
  {
    var j := FirstNonEmpty(m);
    NothingBelow(m, j);
    SetItemsMeaning(m, j, m[j].items[1..], l);
    GetAt(m, j);
    assert m[j].items == [m[j].items[0]] + m[j].items[1..];
  }
}
