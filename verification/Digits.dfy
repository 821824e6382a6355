/**
 The machine words of the 64-bit support routines: 16-bit digits, 32-bit
 words and 64-bit values, with the wrap-around of C's unsigned types written
 out, and the value of a big-endian sequence of digits.
 */
module Digits {

  /** Digit base: one more than the largest half word. */
  const B: int := 0x1_0000

  /** One more than the largest 32-bit word. */
  const W: int := 0x1_0000_0000

  /** One more than the largest 64-bit value. */
  const Q: int := 0x1_0000_0000_0000_0000

  /** Upper and lower half of a 32-bit word (HHALF and LHALF). */
  function HHalf(x: int): int { x / B }

  function LHalf(x: int): int { x % B }

  /** The lower half moved to the upper half (LHUP). */
  function LHup(x: int): int { x % B * B }

  predicate IsDigit(x: int) { 0 <= x < B }

  predicate IsWord(x: int) { 0 <= x < W }

  predicate IsQuad(x: int) { 0 <= x < Q }

  /** A C conversion to a 32-bit or 64-bit unsigned type. */
  function Word(x: int): int { x % W }

  function Quad(x: int): int { x % Q }

  /** The two's-complement reading of a 64-bit pattern. */
  function Signed(x: int): (r: int)
    requires IsQuad(x)
    ensures -(Q / 2) <= r < Q / 2
    ensures Quad(r) == x
  {
    if x < Q / 2 then x else x - Q
  }

  predicate IsLongLong(x: int) { -(Q / 2) <= x < Q / 2 }

  ghost predicate Digital(s: seq<int>) { forall i :: 0 <= i < |s| ==> IsDigit(s[i]) }

  /** B to the k-th power. */
  ghost function Pow(k: nat): (r: int)
    ensures r > 0
  {
    if k == 0 then 1 else Pow(k - 1) * B
  }

  /** The number whose base-B digits, most significant first, are s. */
  ghost function Val(s: seq<int>): int {
    if s == [] then 0 else Val(s[..|s| - 1]) * B + s[|s| - 1]
  }

  lemma {:induction false} PowAdd(a: nat, b: nat)
    ensures Pow(a + b) == Pow(a) * Pow(b)
  {
    if b == 0 {
    } else {
      PowAdd(a, b - 1);
      assert Pow(a) * (Pow(b - 1) * B) == (Pow(a) * Pow(b - 1)) * B;
    }
  }

  lemma {:induction false} ValConcat(s: seq<int>, t: seq<int>)
    ensures Val(s + t) == Val(s) * Pow(|t|) + Val(t)
  {
    if t == [] {
      assert s + t == s;
    } else {
      var t' := t[..|t| - 1];
      assert (s + t)[..|s + t| - 1] == s + t';
      ValConcat(s, t');
      assert Val(s) * (Pow(|t'|) * B) == (Val(s) * Pow(|t'|)) * B;
    }
  }

  lemma {:induction false} ValCons(x: int, t: seq<int>)
    ensures Val([x] + t) == x * Pow(|t|) + Val(t)
  {
    ValConcat([x], t);
    assert Val([x][..0]) == 0;
  }

  lemma {:induction false} ValBound(s: seq<int>)
    requires Digital(s)
    ensures 0 <= Val(s) < Pow(|s|)
  {
    if s != [] {
      ValBound(s[..|s| - 1]);
    }
  }

  /** Leading zero digits do not change the value. */
  lemma {:induction false} ValZeros(z: seq<int>, t: seq<int>)
    requires forall i :: 0 <= i < |z| ==> z[i] == 0
    ensures Val(z) == 0
    ensures Val(z + t) == Val(t)
  {
    ValConcat(z, t);
    if z != [] {
      ValZeros(z[..|z| - 1], []);
    }
  }

  lemma MulGe(x: int, y: int)
    requires x >= 1 && y >= 0
    ensures x * y >= y
  {
    assert (x - 1) * y >= 0;
  }

  /** A number below B^|t| has only zero digits before its last |t| ones. */
  lemma {:induction false} SmallHasZeros(z: seq<int>, t: seq<int>)
    requires Digital(z) && Digital(t)
    requires Val(z + t) < Pow(|t|)
    ensures forall i :: 0 <= i < |z| ==> z[i] == 0
  {
    if Val(z) > 0 {
      ValConcat(z, t);
      ValBound(t);
      MulGe(Val(z), Pow(|t|));
    } else {
      ZeroValue(z);
    }
  }

  lemma {:induction false} ZeroValue(z: seq<int>)
    requires Digital(z) && Val(z) <= 0
    ensures forall i :: 0 <= i < |z| ==> z[i] == 0
  {
    if z != [] {
      ValBound(z[..|z| - 1]);
      ZeroValue(z[..|z| - 1]);
    }
  }

  lemma {:induction false} PowMono(a: nat, b: nat)
    requires a <= b
    ensures Pow(a) <= Pow(b)
  {
    if a < b {
      PowMono(a, b - 1);
    }
  }

  /** The quotient and remainder of a nonnegative number are the only pair
      that satisfies the division equation. */
  lemma {:induction false} DivisionUnique(u: int, v: int, q: int, r: int)
    requires v > 0 && u == q * v + r && 0 <= r < v
    ensures q == u / v && r == u % v
  {
    var q', r' := u / v, u % v;
    DistribSub(q, q', v);
    if q > q' {
      MulGe(q - q', v);
    } else if q < q' {
      DistribSub(q', q, v);
      MulGe(q' - q, v);
    }
  }

  lemma DistribSub(x: int, y: int, v: int)
    ensures (x - y) * v == x * v - y * v
  {
  }
}
