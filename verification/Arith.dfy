// Sums of sequences of naturals, the counters' saturating subtraction and a few
// index facts.  Everything the shared-memory models add up goes through Total.
module Arith {

  /** Subtraction that stops at zero, as `u64::saturating_sub` does. */
  function SatSub(a: nat, b: nat): nat {
    if a < b then 0 else a - b
  }

  function Max(a: int, b: int): int {
    if a < b then b else a
  }

  function Min(a: int, b: int): int {
    if a < b then a else b
  }

  function Clamp(x: int, lo: int, hi: int): int {
    if x < lo then lo else if x > hi then hi else x
  }

  function Total(s: seq<nat>): nat {
    if |s| == 0 then 0 else Total(s[..|s| - 1]) + s[|s| - 1]
  }

  lemma {:induction false} TotalUpdate(s: seq<nat>, i: nat, v: nat)
    requires i < |s|
    ensures Total(s[i := v]) == Total(s) - s[i] + v
    ensures s[i] <= Total(s)
  {
    var n := |s| - 1;
    if i == n {
      assert s[i := v][..n] == s[..n];
    } else {
      assert s[i := v][..n] == s[..n][i := v];
      TotalUpdate(s[..n], i, v);
    }
  }

  lemma {:induction false} TotalMonotone(s: seq<nat>, t: seq<nat>)
    requires |s| == |t|
    requires forall i :: 0 <= i < |s| ==> s[i] <= t[i]
    ensures Total(s) <= Total(t)
  {
    if |s| > 0 {
      TotalMonotone(s[..|s| - 1], t[..|t| - 1]);
    }
  }

  lemma {:induction false} TotalAdd(s: seq<nat>, t: seq<nat>, u: seq<nat>)
    requires |s| == |t| == |u|
    requires forall i :: 0 <= i < |s| ==> u[i] == s[i] + t[i]
    ensures Total(u) == Total(s) + Total(t)
  {
    if |s| > 0 {
      TotalAdd(s[..|s| - 1], t[..|t| - 1], u[..|u| - 1]);
    }
  }

  lemma {:induction false} TotalZero(s: seq<nat>)
    requires forall i :: 0 <= i < |s| ==> s[i] == 0
    ensures Total(s) == 0
  {
    if |s| > 0 {
      TotalZero(s[..|s| - 1]);
    }
  }

  /** At most `b` per entry bounds the sum. */
  lemma {:induction false} TotalBound(s: seq<nat>, b: nat)
    requires forall i :: 0 <= i < |s| ==> s[i] <= b
    ensures Total(s) <= |s| * b
  {
    if |s| > 0 {
      TotalBound(s[..|s| - 1], b);
      assert |s| * b == (|s| - 1) * b + b;
    }
  }

  /** Pushing one more element onto a prefix. */
  lemma TotalPrefix(s: seq<nat>, i: nat)
    requires i < |s|
    ensures Total(s[..i + 1]) == Total(s[..i]) + s[i]
  {
    assert s[..i + 1][..i] == s[..i];
  }

  /** The product of two reals, named so that a proof can keep it as one quantity. */
  function Times(x: real, y: real): real {
    x * y
  }

  lemma TimesMono(x: real, y: real, k: real)
    requires x <= y && k >= 0.0
    ensures Times(x, k) <= Times(y, k)
  {
  }

  lemma TimesStrict(x: real, y: real, k: real)
    requires x < y && k > 0.0
    ensures Times(x, k) < Times(y, k)
  {
  }

  lemma TimesSum(x: real, y: real, k: real)
    ensures Times(x + y, k) == Times(x, k) + Times(y, k)
    ensures Times(x - y, k) == Times(x, k) - Times(y, k)
  {
  }

  lemma TimesUnit(k: real)
    ensures Times(1.0, k) == k && Times(0.0, k) == 0.0 && Times(100.0, k) == 100.0 * k && Times(101.0, k) == 101.0 * k
  {
  }

  lemma TimesSwap(x: real, y: real, z: real)
    ensures Times(x, y) == Times(y, x)
    ensures Times(Times(x, y), z) == Times(x, Times(y, z)) == Times(Times(x, z), y)
  {
  }

  lemma TimesCast(x: nat, y: nat)
    ensures (x * y) as real == Times(x as real, y as real)
  {
  }

  lemma FloorOf(y: real, n: int)
    requires n as real <= y < n as real + 1.0
    ensures y.Floor == n
  {
  }

  lemma FloorIn(y: real, n: nat)
    requires 0.0 <= y < n as real
    ensures 0 <= y.Floor < n && y.Floor as real <= y < y.Floor as real + 1.0
  {
  }

  lemma MulMono(a: int, b: int, c: int, d: int)
    requires 0 <= a <= b && 0 <= c <= d
    ensures 0 <= a * c <= b * d
  {
    assert a * c <= b * c;
    assert b * c <= b * d;
  }
}
