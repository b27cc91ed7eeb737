/** Division facts and positional numerals, shared by the base-32 codec and the one-time codes. */
module Arithmetic {

  lemma AtLeast(e: int, m: nat)
    requires e >= 1
    ensures e * m >= m
  {
  }

  lemma Quotient(n: nat, m: nat, q: nat, r: nat)
    requires m > 0 && r < m && n == q * m + r
    ensures n / m == q && n % m == r
  {
    var e := n / m - q;
    assert e * m == r - n % m && (-e) * m == n % m - r;
    if e >= 1 {
      AtLeast(e, m);
      assert false;
    } else if e <= -1 {
      AtLeast(-e, m);
      assert false;
    }
  }

  function Pow(b: nat, n: nat): nat {
    if n == 0 then 1 else Pow(b, n - 1) * b
  }

  /** The number whose digits in base `b`, most significant first, are `s`. */
  function FromBase(b: nat, s: seq<nat>): nat {
    if s == [] then 0 else FromBase(b, s[..|s| - 1]) * b + s[|s| - 1]
  }

  /** The last `n` digits of `v` in base `b`. */
  function ToBase(b: nat, n: nat, v: nat): (s: seq<nat>)
    requires b > 0
    ensures |s| == n && forall i :: 0 <= i < n ==> s[i] < b
  {
    if n == 0 then [] else ToBase(b, n - 1, v / b) + [v % b]
  }

  lemma {:induction false} DigitsBack(b: nat, s: seq<nat>)
    requires b > 0 && forall i :: 0 <= i < |s| ==> s[i] < b
    ensures ToBase(b, |s|, FromBase(b, s)) == s
  {
    if s == [] {
    } else {
      var n := |s| - 1;
      DigitsBack(b, s[..n]);
      Quotient(FromBase(b, s), b, FromBase(b, s[..n]), s[n]);
    }
  }

  lemma DropDigit(b: nat, p: nat, v: nat)
    requires b > 0 && v < p * b
    ensures v / b < p
  {
    if v / b >= p {
      assert (v / b) * b >= p * b by { MulMonotone(p, v / b, b); }
      assert false;
    }
  }

  lemma MulMonotone(x: nat, y: nat, m: nat)
    requires x <= y
    ensures x * m <= y * m
  {
    assert (y - x) * m == y * m - x * m;
  }

  lemma Rebuild(v: nat, b: nat)
    requires b > 0
    ensures (v / b) * b + v % b == v
  {
  }

  lemma AppendDigit(b: nat, s: seq<nat>, d: nat)
    ensures FromBase(b, s + [d]) == FromBase(b, s) * b + d
  {
    assert (s + [d])[..|s|] == s;
  }

  lemma {:induction false} NumberBack(b: nat, n: nat, v: nat)
    requires b > 0 && v < Pow(b, n)
    ensures FromBase(b, ToBase(b, n, v)) == v
  {
    if n == 0 {
    } else {
      DropDigit(b, Pow(b, n - 1), v);
      NumberBack(b, n - 1, v / b);
      AppendDigit(b, ToBase(b, n - 1, v / b), v % b);
      Rebuild(v, b);
    }
  }

  lemma {:induction false} NumberBound(b: nat, s: seq<nat>)
    requires b > 0 && forall i :: 0 <= i < |s| ==> s[i] < b
    ensures FromBase(b, s) < Pow(b, |s|)
  {
    if s == [] {
    } else {
      var n := |s| - 1;
      NumberBound(b, s[..n]);
      MulMonotone(FromBase(b, s[..n]) + 1, Pow(b, n), b);
      assert (FromBase(b, s[..n]) + 1) * b == FromBase(b, s[..n]) * b + b;
    }
  }
}
