/** Small definitions and facts that several components share. */
module Basics {

  datatype Option<+T> = None | Some(value: T)

  type byte = b: int | 0 <= b < 256

  /** The text before the first occurrence of `c`, or all of it. */
  function UpTo(s: string, c: char): (r: string)
    ensures r <= s && c !in r
    ensures |r| < |s| ==> s[|r|] == c
  {
    if s == "" || s[0] == c then "" else [s[0]] + UpTo(s[1..], c)
  }

  /** What the contract of UpTo says determines it. */
  lemma UpToUnique(s: string, c: char, r: string)
    requires |r| <= |s| && s[..|r|] == r && (|r| < |s| ==> s[|r|] == c)
    requires forall k | 0 <= k < |r| :: r[k] != c
    ensures UpTo(s, c) == r
  {
    var u := UpTo(s, c);
    forall k | 0 <= k < |u| ensures s[k] != c { assert u[k] in u; }
    forall k | 0 <= k < |r| ensures s[k] != c { assert s[..|r|][k] == r[k]; }
    assert |u| == |r|;
  }

  lemma UpToAt(a: string, c: char, b: string)
    requires c !in a
    ensures UpTo(a + [c] + b, c) == a
  {
    UpToUnique(a + [c] + b, c, a);
  }

  lemma UpToAbsent(a: string, c: char)
    requires c !in a
    ensures UpTo(a, c) == a
  {
    UpToUnique(a, c, a);
  }

  lemma MulMonotone(a: nat, b: nat, n: nat)
    ensures a <= b ==> a * n <= b * n
  {
  }

  lemma DivBounds(a: nat, n: nat)
    requires n >= 1
    ensures a / n * n <= a < a / n * n + n
  {
    assert a == n * (a / n) + a % n;
  }

  lemma DivMonotone(a: nat, b: nat, n: nat)
    requires a <= b && n >= 1
    ensures a / n <= b / n
  {
    DivBounds(a, n);
    DivBounds(b, n);
    MulMonotone(b / n + 1, a / n, n);
  }
}
