/** Shared by all: options, bytes, and lists without repetitions. */
module Wrappers {
  datatype Option<T> = None | Some(value: T)

  type byte = b: int | 0 <= b < 256

  function Min(a: nat, b: nat): nat { if a <= b then a else b }

  ghost predicate Distinct<T(!new)>(s: seq<T>) {
    forall i, j | 0 <= i < j < |s| :: s[i] != s[j]
  }

  /** list_delete of the i-th entry */
  function RemoveAt<T>(s: seq<T>, i: nat): seq<T>
    requires i < |s|
  {
    s[..i] + s[i + 1..]
  }

  lemma RemoveAtIs<T(!new)>(s: seq<T>, i: nat)
    requires i < |s| && Distinct(s)
    ensures Distinct(RemoveAt(s, i)) && s[i] !in RemoveAt(s, i)
    ensures forall t :: t in RemoveAt(s, i) <==> t in s && t != s[i]
  {
    var r := RemoveAt(s, i);
    forall t | t in s && t != s[i] ensures t in r {
      var j :| 0 <= j < |s| && s[j] == t;
      assert t == if j < i then r[j] else r[j - 1];
    }
    forall t | t in r ensures t in s && t != s[i] {
      var j :| 0 <= j < |r| && r[j] == t;
      assert t == if j < i then s[j] else s[j + 1];
    }
  }

  /** list_add of `x` in front of the i-th entry */
  function InsertAt<T>(s: seq<T>, i: nat, x: T): seq<T>
    requires i <= |s|
  {
    s[..i] + [x] + s[i..]
  }

  /** list_delete of `x`, wherever it is */
  function Without<T(==)>(s: seq<T>, x: T): (r: seq<T>)
    ensures forall y | y in r :: y in s
  {
    if s == [] then [] else if s[0] == x then s[1..] else [s[0]] + Without(s[1..], x)
  }

  lemma {:induction false} WithoutNone<T>(s: seq<T>, x: T)
    requires x !in s
    ensures Without(s, x) == s
  {
    if s != [] { WithoutNone(s[1..], x); }
  }

  lemma {:induction false} WithoutOne<T(!new)>(s: seq<T>, x: T, p: nat)
    requires Distinct(s) && p < |s| && s[p] == x
    ensures Without(s, x) == RemoveAt(s, p)
  {
    if p > 0 {
      assert Distinct(s[1..]);
      WithoutOne(s[1..], x, p - 1);
      RemoveLater(s, p);
    }
  }

  lemma RemoveLater<T>(s: seq<T>, p: nat)
    requires 0 < p < |s|
    ensures [s[0]] + RemoveAt(s[1..], p - 1) == RemoveAt(s, p)
  {
  }

  lemma WithoutIs<T(!new)>(s: seq<T>, x: T)
    requires Distinct(s)
    ensures Distinct(Without(s, x)) && (x in s ==> |Without(s, x)| == |s| - 1)
    ensures forall y :: y in Without(s, x) <==> y in s && y != x
  {
    if x in s {
      var p :| 0 <= p < |s| && s[p] == x;
      WithoutOne(s, x, p);
      RemoveAtIs(s, p);
    } else {
      WithoutNone(s, x);
    }
  }

  /** Seals: `forall u :: Open(u) ==> E` is known to hold where `E` is, and says `E` only where
      `Open(0)` is asserted, which keeps the solver away from `E` elsewhere. */
  ghost predicate Open(u: int) { true }
}
