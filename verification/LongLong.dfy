/**
 The signed 64-bit operations built on __qdivrem, and the 64-bit product of
 Knuth, volume 2, section 4.3.3, with its hand-made carries.
 */
module LongLong {
  import opened Digits
  import Qdivrem

  datatype Outcome = Trap | Value(value: int)

  function Abs(x: int): int { if x < 0 then -x else x }

  /** Section 6.5.5 of ISO C99: the quotient with its fraction discarded. */
  function TruncDiv(a: int, b: int): int
    requires b != 0
  {
    if (a < 0) != (b < 0) then -(Abs(a) / Abs(b)) else Abs(a) / Abs(b)
  }

  /** The remainder that goes with it. */
  function TruncMod(a: int, b: int): int
    requires b != 0
  {
    if a < 0 then -(Abs(a) % Abs(b)) else Abs(a) % Abs(b)
  }

  /** The C99 law: quotient and remainder recover a, and the remainder is
      smaller than b and has the sign of a. They are the only such pair. */
  lemma TruncLaw(a: int, b: int)
    requires b != 0
    ensures a == TruncDiv(a, b) * b + TruncMod(a, b)
    ensures Abs(TruncMod(a, b)) < Abs(b)
    ensures TruncMod(a, b) == 0 || (TruncMod(a, b) < 0 <==> a < 0)
  {
    Qdivrem.DivFacts(Abs(a), Abs(b));
    SignedProduct(Abs(a) / Abs(b), b);
  }

  lemma TruncUnique(a: int, b: int, q: int, r: int)
    requires b != 0 && a == q * b + r && Abs(r) < Abs(b) && (r == 0 || (r < 0 <==> a < 0))
    ensures q == TruncDiv(a, b) && r == TruncMod(a, b)
  {
    var q' := if (a < 0) != (b < 0) then -q else q;
    SignedProduct(q, b);
    assert Abs(a) == q' * Abs(b) + Abs(r);
    DivisionUnique(Abs(a), Abs(b), q', Abs(r));
  }

  lemma SignedProduct(x: int, y: int)
    ensures (-x) * y == -(x * y) && x * (-y) == -(x * y) && (-x) * (-y) == x * y
  {
  }

  /** The unsigned pattern of the magnitude; the most negative value too. */
  method Magnitude(a: int) returns (ua: int)
    requires IsLongLong(a)
    ensures ua == Abs(a) && IsQuad(ua)
  {
    ua := Quad(a);
    if a < 0 { ua := Quad(-ua); }
  }

  /** A magnitude negated as an unsigned value and read back as signed. */
  method Restore(x: int, neg: bool) returns (r: int)
    requires 0 <= x <= Q / 2
    ensures r == Signed(Quad(if neg then -x else x))
  {
    var p := x;
    if neg { p := Quad(-p); }
    r := Signed(Quad(p));
  }

  /** __divdi3: truncating division, modulo 2^64. */
  method Divdi3(a: int, b: int) returns (r: Outcome)
    requires IsLongLong(a) && IsLongLong(b)
    ensures r.Trap? <==> b == 0
    ensures b != 0 ==> r == Value(Signed(Quad(TruncDiv(a, b))))
  {
    var ua := Magnitude(a);
    var ub := Magnitude(b);
    var neg := (a < 0) != (b < 0);
    var o := Qdivrem.Qdivrem(ua, ub, false);
    if o.Trap? {
      return Trap;
    }
    QuotientRange(ua, ub);
    var q := Restore(o.quot, neg);
    r := Value(q);
  }

  /** __moddi3: the remainder of truncating division, always exact. */
  method Moddi3(a: int, b: int) returns (r: Outcome)
    requires IsLongLong(a) && IsLongLong(b)
    ensures r.Trap? <==> b == 0
    ensures b != 0 ==> r == Value(TruncMod(a, b))
  {
    var ua := Magnitude(a);
    var ub := Magnitude(b);
    var o := Qdivrem.Qdivrem(ua, ub, true);
    if o.Trap? {
      return Trap;
    }
    QuotientRange(ua, ub);
    var m := Restore(o.rem, a < 0);
    SmallSigned(if a < 0 then -o.rem else o.rem);
    r := Value(m);
  }

  lemma SmallSigned(x: int)
    requires IsLongLong(x)
    ensures Signed(Quad(x)) == x
  {
  }

  lemma QuotientRange(u: int, v: int)
    requires 0 <= u && 0 < v
    ensures 0 <= u / v <= u && 0 <= u % v <= u && u % v < v
  {
    Qdivrem.DivFacts(u, v);
    var q := u / v;
    if q > 0 { MulGe(v, q); }
    Qdivrem.MulMono(0, q, v);
  }

  /** Division wraps for exactly one pair of operands. */
  lemma DivisionOverflow(a: int, b: int)
    requires IsLongLong(a) && IsLongLong(b) && b != 0
    ensures Signed(Quad(TruncDiv(a, b))) != TruncDiv(a, b) <==> a == -(Q / 2) && b == -1
  {
    QuotientRange(Abs(a), Abs(b));
    var q := Abs(a) / Abs(b);
    if Abs(b) >= 2 {
      Qdivrem.DivFacts(Abs(a), Abs(b));
      Qdivrem.MulMono(2, Abs(b), q);
      SmallSigned(q);
      SmallSigned(-q);
    } else {
      DivisionUnique(Abs(a), Abs(b), Abs(a), 0);
      if a != -(Q / 2) || b > 0 {
        SmallSigned(TruncDiv(a, b));
      }
    }
  }

  // ------------------------------------------------------------------
  // Multiplication

  /** prod += x << 16, with the carry out of the low word detected by
      comparing it with what it was. */
  method AddShifted(prodh: int, prodl: int, x: int) returns (h: int, l: int)
    requires IsWord(prodh) && IsWord(prodl) && IsWord(x)
    ensures IsWord(h) && IsWord(l)
    ensures h * W + l == Quad(prodh * W + prodl + x * B)
  {
    l := Word(prodl + LHup(x));
    var carry := if l < prodl then 1 else 0;
    h := Word(prodh + HHalf(x) + carry);
    assert l + carry * W == prodl + LHup(x);
    assert x * B == HHalf(x) * W + LHup(x);
    assert h == prodh + HHalf(x) + carry || h == prodh + HHalf(x) + carry - W;
  }

  /** prod -= x << 16, with the borrow detected in the same way. */
  method SubtractShifted(prodh: int, prodl: int, x: int) returns (h: int, l: int)
    requires IsWord(prodh) && IsWord(prodl) && IsWord(x)
    ensures IsWord(h) && IsWord(l)
    ensures h * W + l == Quad(prodh * W + prodl - x * B)
  {
    l := Word(prodl - LHup(x));
    var borrow := if l > prodl then 1 else 0;
    h := Word(prodh - (HHalf(x) + borrow));
    assert l == prodl - LHup(x) + borrow * W;
    assert x * B == HHalf(x) * W + LHup(x);
    assert h == prodh - HHalf(x) - borrow || h == prodh - HHalf(x) - borrow + W;
  }

  /** Distance of two half words, with the sign of the product they feed. */
  method Differences(u1: int, u0: int, v1: int, v0: int) returns (udiff: int, vdiff: int, neg: bool)
    ensures udiff == Abs(u1 - u0) && vdiff == Abs(v0 - v1)
    ensures (if neg then -(udiff * vdiff) else udiff * vdiff) == (u1 - u0) * (v0 - v1)
  {
    if u1 >= u0 { udiff, neg := u1 - u0, false; } else { udiff, neg := u0 - u1, true; }
    if v0 >= v1 { vdiff := v0 - v1; } else { vdiff, neg := v1 - v0, !neg; }
    SignedProduct(u1 - u0, v0 - v1);
  }

  lemma HalfProduct(x: int, y: int)
    requires 0 <= x < B && 0 <= y < B
    ensures 0 <= x * y <= (B - 1) * (B - 1)
  {
    Qdivrem.DigitProduct(x, y);
  }

  /** The identity behind the three half products, for a split at n. */
  lemma ThreeProducts(u1: int, u0: int, v1: int, v0: int, n: int)
    ensures (u1 * n + u0) * (v1 * n + v0)
         == u1 * v1 * n * n + (u1 * v1 + (u1 - u0) * (v0 - v1) + u0 * v0) * n + u0 * v0
  {
    var hh, hl, lh, ll := u1 * v1, u1 * v0, u0 * v1, u0 * v0;
    assert (u1 - u0) * (v0 - v1) == hl - hh - ll + lh;
    assert (u1 * n + u0) * (v1 * n + v0) == hh * n * n + (hl + lh) * n + ll by { Foil(u1, u0, v1, v0, n); }
  }

  lemma Foil(u1: int, u0: int, v1: int, v0: int, n: int)
    ensures (u1 * n + u0) * (v1 * n + v0) == u1 * v1 * n * n + (u1 * v0 + u0 * v1) * n + u0 * v0
  {
    var a, b := u1 * n, v1 * n;
    assert (a + u0) * (b + v0) == a * b + a * v0 + u0 * b + u0 * v0;
    assert a * b == u1 * v1 * n * n;
    assert a * v0 == u1 * v0 * n && u0 * b == u0 * v1 * n;
    assert (u1 * v0 + u0 * v1) * n == u1 * v0 * n + u0 * v1 * n;
  }

  /** __lmulq: the exact 64-bit product of two 32-bit words. */
  method Lmulq(u: int, v: int) returns (p: int)
    requires IsWord(u) && IsWord(v)
    ensures p == u * v
    ensures IsQuad(p)
  {
    var u1, u0, v1, v0 := HHalf(u), LHalf(u), HHalf(v), LHalf(v);
    HalfProduct(u0, v0);
    HalfProduct(u1, v1);
    var low := u0 * v0;
    ThreeProducts(u1, u0, v1, v0, B);
    if u1 == 0 && v1 == 0 {
      return low;
    }
    var udiff, vdiff, neg := Differences(u1, u0, v1, v0);
    HalfProduct(udiff, vdiff);
    p := Assemble(u1 * v1, udiff * vdiff, neg, low);
    WordProduct(u, v);
    assert u == u1 * B + u0 && v == v1 * B + v0;
    SmallQuad(u * v);
  }

  lemma SmallQuad(x: int)
    requires IsQuad(x)
    ensures Quad(x) == x
  {
  }

  lemma WordProduct(u: int, v: int)
    requires IsWord(u) && IsWord(v)
    ensures 0 <= u * v < Q
  {
    Qdivrem.MulMono(0, u, v);
    Qdivrem.MulMono(u, W - 1, v);
  }

  lemma HighTwice(high: int)
    requires 0 <= high <= (B - 1) * (B - 1)
    ensures Word(high + HHalf(high)) == high + HHalf(high) && IsWord(high + HHalf(high)) && IsWord(LHup(high))
    ensures (high + HHalf(high)) * W + LHup(high) == high * W + high * B
  {
  }

  /** prod += low, with the carry detected against the addend. */
  method AddLow(prodh: int, prodl: int, low: int) returns (h: int, l: int)
    requires IsWord(prodh) && IsWord(prodl) && IsWord(low)
    ensures IsWord(h) && IsWord(l)
    ensures h * W + l == Quad(prodh * W + prodl + low)
  {
    h, l := prodh, Word(prodl + low);
    if l < low { h := Word(prodh + 1); }
  }

  method AddTwice(prodh: int, prodl: int, low: int) returns (p: int)
    requires IsWord(prodh) && IsWord(prodl) && IsWord(low)
    ensures IsQuad(p) && p == Quad(Quad(prodh * W + prodl + low * B) + low)
  {
    var h, l := AddShifted(prodh, prodl, low);
    h, l := AddLow(h, l, low);
    p := h * W + l;
  }

  /** The shifted sum of the half products, low word first, with its carries. */
  method Assemble(high: int, mid: int, neg: bool, low: int) returns (p: int)
    requires 0 <= high <= (B - 1) * (B - 1) && IsWord(mid) && IsWord(low)
    ensures IsQuad(p)
    ensures p == Quad(high * B * B + (high + (if neg then -mid else mid) + low) * B + low)
  {
    HighTwice(high);
    var prodh, prodl := Word(high + HHalf(high)), LHup(high);
    ghost var m := if neg then -mid else mid;
    if neg {
      prodh, prodl := SubtractShifted(prodh, prodl, mid);
    } else {
      prodh, prodl := AddShifted(prodh, prodl, mid);
    }
    p := AddTwice(prodh, prodl, low);
    ProductModQ(high, m, low, p);
  }

  lemma ProductModQ(high: int, mid: int, low: int, p: int)
    requires p == Quad(Quad(Quad(high * W + high * B + mid * B) + low * B) + low)
    ensures p == Quad(high * B * B + (high + mid + low) * B + low)
  {
    var x := high * W + high * B + mid * B;
    QuadAdd(x, low * B);
    QuadAdd(x + low * B, low);
  }

  lemma QuadAdd(x: int, y: int)
    ensures Quad(Quad(x) + y) == Quad(x + y)
  {
    var k := x / Q;
    assert x + y == Quad(x) + y + k * Q;
    QuadShift(Quad(x) + y, k);
  }

  lemma QuadShift(z: int, k: int)
    ensures Quad(z + k * Q) == Quad(z)
  {
    DropQ(Quad(z), z / Q + k);
  }

  /** The product of two magnitudes given by their words, modulo 2^64. */
  method ModularProduct(u1: int, u0: int, v1: int, v0: int) returns (prod: int)
    requires IsWord(u1) && IsWord(u0) && IsWord(v1) && IsWord(v0)
    ensures prod == Quad((u1 * W + u0) * (v1 * W + v0))
  {
    var low := Lmulq(u0, v0);
    if u1 == 0 && v1 == 0 {
      SmallQuad(u0 * v0);
      return low;
    }
    ThreeProducts(u1, u0, v1, v0, W);
    var udiff, vdiff, negmid := Differences(u1, u0, v1, v0);
    var mid := Word(udiff * vdiff);
    var high := Word(u1 * v1);
    var h := Word(high + (if negmid then Word(-mid) else mid) + low % W + low / W);
    prod := h * W + low % W;
    HighWord(u1 * v1, if negmid then -(udiff * vdiff) else udiff * vdiff, low, negmid, mid, high, h, prod);
  }

  /** __muldi3: the product modulo 2^64, for all signed operands. */
  method Muldi3(a: int, b: int) returns (r: int)
    requires IsLongLong(a) && IsLongLong(b)
    ensures r == Signed(Quad(a * b))
  {
    var u := Magnitude(a);
    var v := Magnitude(b);
    var negall := (a < 0) != (b < 0);
    SignedProduct(a, b);
    var u1, u0, v1, v0 := u / W, u % W, v / W, v % W;
    var prod := ModularProduct(u1, u0, v1, v0);
    assert u == u1 * W + u0 && v == v1 * W + v0;
    NegateProduct(u * v, prod);
    var p := prod;
    if negall { p := Quad(-p); }
    r := Signed(p);
  }

  lemma NegateProduct(x: int, prod: int)
    requires prod == Quad(x)
    ensures Quad(-prod) == Quad(-x)
  {
    assert -prod == -x + x / Q * Q;
    QuadShift(-x, x / Q);
  }

  /** Multiples of 2^64 vanish, so the high word may be summed modulo 2^32. */
  lemma HighWord(hp: int, mp: int, low: int, negmid: bool, mid: int, high: int, h: int, prod: int)
    requires IsQuad(low) && high == Word(hp) && mid == Word(if negmid then -mp else mp)
    requires h == Word(high + (if negmid then Word(-mid) else mid) + low % W + low / W)
    requires prod == h * W + low % W
    ensures prod == Quad(hp * W * W + (hp + mp + low) * W + low)
  {
    WordSum(hp, mp, low % W + low / W, negmid);
    DropMultiples(hp, mp, low % W, low / W, h);
  }

  lemma WordSum(hp: int, mp: int, x: int, negmid: bool)
    ensures var mid := Word(if negmid then -mp else mp);
      Word(Word(hp) + (if negmid then Word(-mid) else mid) + x) == Word(hp + mp + x)
  {
    WordAdd(hp, mp);
    WordAdd(Word(hp) + Word(mp), x);
    WordAdd(hp + mp, x);
    if negmid { NegWord(mp); }
  }

  lemma WordAdd(x: int, y: int)
    ensures Word(Word(x) + Word(y)) == Word(x + y) && Word(Word(x) + y) == Word(x + y)
  {
  }

  lemma NegWord(x: int)
    ensures Word(-Word(-x)) == Word(x)
  {
  }

  lemma DropMultiples(hp: int, mp: int, l: int, lh: int, h: int)
    requires 0 <= l < W && 0 <= lh < W && h == Word(hp + mp + l + lh)
    ensures h * W + l == Quad(hp * W * W + (hp + mp + (lh * W + l)) * W + (lh * W + l))
  {
    var s := hp + mp + l + lh;
    var k := s / W;
    assert s == k * W + h;
    DropQ(h * W + l, hp + lh + k);
  }

  lemma DropQ(x: int, k: int)
    requires IsQuad(x)
    ensures Quad(x + k * Q) == x
  {
  }
}
