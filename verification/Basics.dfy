/** Small arithmetic and option types shared by the models. */
module Basics {

  datatype Option<+T> = None | Some(value: T)

  const U32_MAX: nat := 0xFFFF_FFFF
  const U64_MAX: nat := 0xFFFF_FFFF_FFFF_FFFF

  /** `SLICE`, 10 ms in ns: no wait in the event loop is longer. */
  const SLICE: nat := 10_000_000

  function Min(a: nat, b: nat): nat { if a <= b then a else b }

  /** `saturating_sub` on an unsigned counter. */
  function SatSub(a: nat, b: nat): nat { if a <= b then 0 else a - b }

  /** `saturating_add` on `u64`. */
  function SatAdd(a: nat, b: nat): nat { Min(a + b, U64_MAX) }

  // ---- Sequences counted by item ----

  ghost function Occurs<T>(s: seq<T>, x: T): nat { multiset(s)[x] }

  function Without<T>(s: seq<T>, n: nat): seq<T>
    requires n < |s|
  {
    s[..n] + s[n + 1..]
  }

  lemma OccursConcat<T>(a: seq<T>, b: seq<T>, x: T)
    ensures Occurs(a + b, x) == Occurs(a, x) + Occurs(b, x)
  {
    assert multiset(a + b) == multiset(a) + multiset(b);
  }

  lemma OccursOne<T>(y: T, x: T)
    ensures Occurs([y], x) == if x == y then 1 else 0
  {
  }

  lemma OccursWithout<T>(s: seq<T>, n: nat, x: T)
    requires n < |s|
    ensures Occurs(s, x) == Occurs(Without(s, n), x) + if x == s[n] then 1 else 0
  {
    assert s == s[..n] + ([s[n]] + s[n + 1..]);
    OccursConcat(s[..n], [s[n]] + s[n + 1..], x);
    OccursConcat([s[n]], s[n + 1..], x);
    OccursConcat(s[..n], s[n + 1..], x);
  }
}
