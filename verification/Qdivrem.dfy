/**
 Division of 64-bit values on a 32-bit machine: Algorithm D of Knuth, "The Art
 of Computer Programming", volume 2, second edition, section 4.3.1, on arrays
 of base-B digits. Pointers into uspace, vspace and qspace are offsets; every
 unsigned subtraction that can go below zero wraps explicitly.
 */
module Qdivrem {
  import opened Digits

  /** What a division yields: a zero divisor traps. */
  datatype Outcome = Trap | Quotient(quot: int, rem: int)

  // ------------------------------------------------------------------
  // Shifts

  function Pow2(k: nat): (r: int)
    ensures r > 0
  {
    if k == 0 then 1 else 2 * Pow2(k - 1)
  }

  lemma {:induction false} Pow2Add(a: nat, b: nat)
    ensures Pow2(a + b) == Pow2(a) * Pow2(b)
  {
    if a > 0 {
      Pow2Add(a - 1, b);
      Expand2(2, Pow2(a - 1), Pow2(b), 0);
    }
  }

  /** The two shift counts used together multiply to the digit base. */
  lemma {:induction false} ShiftPair(sh: nat)
    requires sh <= 16
    ensures Pow2(sh) * Pow2(16 - sh) == B
  {
    Pow2Add(sh, 16 - sh);
    Pow2Add(8, 8);
    Pow2Add(4, 4);
  }

  lemma DivModShift(x: int, k: int, c: int)
    requires k > 0 && c > 0 && k * c == B && IsDigit(x)
    ensures x * k == x / c * B + x % c * k
    ensures 0 <= x % c * k <= B - k
    ensures 0 <= x / c < k
  {
    var h, l := x / c, x % c;
    assert x == h * c + l;
    assert x * k == h * (k * c) + l * k by { Expand(h, c, l, k); }
    assert l * k <= (c - 1) * k == c * k - k by { MulMono(l, c - 1, k); }
    if h >= k { MulMono(k, h, c); }
  }

  lemma Expand(h: int, c: int, l: int, k: int)
    ensures (h * c + l) * k == h * (k * c) + l * k
  {
  }

  lemma MulMono(x: int, y: int, k: int)
    requires x <= y && k >= 0
    ensures x * k <= y * k
  {
  }

  /** A left shift splits a digit into the bits that fall out and the rest. */
  lemma ShiftLeftDigit(x: int, k: int, c: int)
    requires k > 0 && c > 0 && k * c == B && IsDigit(x)
    ensures x * k == x / c * B + LHalf(x * k)
    ensures 0 <= LHalf(x * k) <= B - k
    ensures 0 <= x / c < k
  {
    DivModShift(x, k, c);
  }

  /** After the first i digits at off have been shifted left; top is what the
      first digit loses. */
  ghost predicate ShiftedBelow(cur: seq<int>, s: seq<int>, off: nat, i: nat, top: int, k: int, c: int) {
    && |cur| == |s| && off + i < |s| && k > 0 && c > 0 && k * c == B && Digital(cur) && Digital(s)
    && cur[..off] == s[..off] && cur[off + i..] == s[off + i..]
    && Val(cur[off..off + i]) + top * Pow(i) == Val(s[off..off + i]) * k + s[off + i] / c
  }

  lemma ShiftNext(cur: seq<int>, s: seq<int>, off: nat, i: nat, top: int, k: int, c: int, x: int, carry: int)
    requires ShiftedBelow(cur, s, off, i, top, k, c)
    requires x == LHalf(s[off + i] * k) + carry
    ensures Val(cur[off..off + i] + [x]) + top * Pow(i + 1) == Val(s[off..off + i + 1]) * k + carry
  {
    ShiftLeftDigit(s[off + i], k, c);
    var before, a := cur[off..off + i], Val(s[off..off + i]);
    assert (before + [x])[..i] == before;
    assert s[off..off + i + 1][..i] == s[off..off + i];
    ShiftNextAlgebra(Val(before), top, Pow(i), a, k, s[off + i], s[off + i] / c, LHalf(s[off + i] * k), carry);
  }

  lemma ShiftNextAlgebra(v: int, top: int, p: int, a: int, k: int, y: int, h: int, l: int, carry: int)
    requires v + top * p == a * k + h && y * k == h * B + l
    ensures (v * B + (l + carry)) + top * (p * B) == (a * B + y) * k + carry
  {
    assert top * (p * B) == (top * p) * B;
    assert (a * B + y) * k == (a * k) * B + y * k;
  }

  /** One digit of shl. */
  method ShiftedLeft(x: int, below: int, sh: nat) returns (r: int)
    requires IsDigit(x) && IsDigit(below) && 0 < sh < 16
    ensures IsDigit(r) && r == LHalf(x * Pow2(sh)) + below / Pow2(16 - sh)
  {
    ShiftPair(sh);
    ShiftLeftDigit(x, Pow2(sh), Pow2(16 - sh));
    ShiftLeftDigit(below, Pow2(sh), Pow2(16 - sh));
    r := LHalf(x * Pow2(sh)) + below / Pow2(16 - sh);
  }

  /** shl: shifts the len + 1 digits at off left by sh bits, in place; the
      bits of the first digit that fall out are lost. */
  method Shl(p: array<int>, off: nat, len: nat, sh: nat, ghost k: int, ghost c: int)
    requires 0 < sh < 16 && off + len < p.Length && Digital(p[..]) && k == Pow2(sh) && c == Pow2(16 - sh)
    modifies p
    ensures Digital(p[..])
    ensures p[..off] == old(p[..off]) && p[off + len + 1..] == old(p[off + len + 1..])
    ensures Val(p[off..off + len + 1]) + old(p[off]) / c * Pow(len + 1) == Val(old(p[off..off + len + 1])) * k
  {
    ghost var s, cur := p[..], p[..];
    ghost var top := s[off] / c;
    ShiftPair(sh);
    assert s[off..off] == [];
    var i := 0;
    while i < len
      invariant 0 <= i <= len && p[..] == cur
      invariant ShiftedBelow(cur, s, off, i, top, k, c)
    {
      assert cur[off + i] == cur[off + i..][0] == s[off + i] && cur[off + i + 1] == cur[off + i..][1] == s[off + i + 1];
      var x := ShiftedLeft(p[off + i], p[off + i + 1], sh);
      ShiftNext(cur, s, off, i, top, k, c, x, s[off + i + 1] / c);
      p[off + i] := x;
      cur := ShiftedOne(cur, s, off, i, top, k, c, x);
      i := i + 1;
    }
    assert cur[off + i] == cur[off + i..][0] == s[off + i];
    var x := ShiftedLeft(p[off + i], 0, sh);
    ZeroDiv(c);
    ShiftNext(cur, s, off, i, top, k, c, x, 0);
    p[off + i] := x;
    assert p[off..off + len + 1] == cur[off..off + i] + [x];
    assert p[off + len + 1..] == cur[off + i..][1..] == s[off + i..][1..] == s[off + len + 1..];
  }

  lemma ZeroDiv(c: int)
    requires c > 0
    ensures 0 / c == 0 && 0 % c == 0
  {
    DivisionUnique(0, c, 0, 0);
  }

  lemma ShiftedOne(cur: seq<int>, s: seq<int>, off: nat, i: nat, top: int, k: int, c: int, x: int)
    returns (next: seq<int>)
    requires ShiftedBelow(cur, s, off, i, top, k, c) && off + i + 1 < |s| && IsDigit(x)
    requires Val(cur[off..off + i] + [x]) + top * Pow(i + 1)
          == Val(s[off..off + i + 1]) * k + s[off + i + 1] / c
    ensures next == cur[off + i := x] && ShiftedBelow(next, s, off, i + 1, top, k, c)
  {
    next := cur[off + i := x];
    assert next[off..off + i + 1] == cur[off..off + i] + [x];
    assert next[off + i + 1..] == cur[off + i..][1..] == s[off + i..][1..] == s[off + i + 1..];
  }

  // ------------------------------------------------------------------
  // D3: the estimated quotient digit

  /** While the test of step D3 succeeds, qhat is above the true digit. */
  lemma TooBig(x: int, V: int, P: int, u2: int, v2: int, xl: int, vl: int, qhat: int)
    requires P > 0 && 0 <= xl < P && 0 <= vl < P && v2 >= 0 && qhat >= 0
    requires x == u2 * P + xl && V == v2 * P + vl
    requires qhat * v2 > u2
    ensures qhat * V > x
  {
    assert qhat * V == (qhat * v2) * P + qhat * vl by { Expand2(qhat, v2, P, vl); }
    assert qhat * vl >= 0;
    assert (qhat * v2) * P >= (u2 + 1) * P == u2 * P + P by { MulMono(u2 + 1, qhat * v2, P); }
  }

  lemma Expand2(q: int, v: int, p: int, l: int)
    ensures q * (v * p + l) == (q * v) * p + q * l
  {
  }

  /** When step D3 stops, qhat is at most one above the true digit. */
  lemma CloseEnough(x: int, V: int, P: int, u2: int, v2: int, xl: int, vl: int, qhat: int)
    requires P > 0 && 0 <= xl < P && 0 <= vl < P
    requires x == u2 * P + xl && V == v2 * P + vl
    requires 0 <= qhat < B && qhat * v2 <= u2 && v2 >= B
    ensures qhat * V < x + V
  {
    assert qhat * V == (qhat * v2) * P + qhat * vl by { Expand2(qhat, v2, P, vl); }
    assert (qhat * v2) * P <= u2 * P by { MulMono(qhat * v2, u2, P); }
    assert qhat * vl <= qhat * P <= B * P by { MulMono(vl, P, qhat); MulMono(qhat, B, P); }
    assert qhat * vl < B * P by { if qhat > 0 { MulMono(vl, P - 1, qhat); } }
    assert v2 * P >= B * P by { MulMono(B, v2, P); }
  }

  /** The first estimate, from the leading digits alone, is not too small. */
  lemma FirstEstimate(x: int, V: int, P: int, nn: int, u2: int, v1: int, v2: int, v: int, q: int, xl: int, vl: int)
    requires P > 0 && 0 <= xl < P && 0 <= vl < P && IsDigit(u2) && v2 >= 0 && v1 > 0
    requires x == (nn * B + u2) * P + xl && V == v * P + vl && v == v1 * B + v2
    requires q >= 0 && q * V <= x
    ensures q * v1 <= nn
  {
    if q * v1 > nn {
      assert q * v == (q * v1) * B + q * v2 by { Expand2(q, v1, B, v2); }
      assert q * v2 >= 0;
      assert q * v >= (nn + 1) * B > nn * B + u2;
      TooBig(x, V, P, nn * B + u2, v, xl, vl, q);
    }
  }

  /** qhat and rhat are a quotient and remainder of the two leading digits nn
      by v1, with qhat a digit no smaller than the true one, q. */
  ghost predicate Estimate(qhat: int, rhat: int, nn: int, v1: int, q: int) {
    0 <= qhat < B && q <= qhat && 0 <= rhat && qhat * v1 + rhat == nn
  }

  /** Decrementing qhat is right whenever the test of D3 says so. */
  lemma StepDown(qhat: int, rhat: int, nn: int, u2: int, v1: int, v2: int,
                 x: int, V: int, P: int, xl: int, vl: int, q: int)
    requires Estimate(qhat, rhat, nn, v1, q) && v1 >= 0 && v2 >= 0 && 0 <= u2
    requires P > 0 && 0 <= xl < P && 0 <= vl < P
    requires x == (nn * B + u2) * P + xl && V == (v1 * B + v2) * P + vl && V > 0
    requires q * V <= x && q >= 0 && v2 * qhat > rhat * B + u2
    ensures Estimate(qhat - 1, rhat + v1, nn, v1, q)
  {
    Expand2(qhat, v1, B, v2);
    TooBig(x, V, P, nn * B + u2, v1 * B + v2, xl, vl, qhat);
    if q >= qhat { MulMono(qhat, q, V); }
    assert (qhat - 1) * v1 == qhat * v1 - v1;
  }

  /** When the test fails, or rhat is no longer a digit, qhat is close. */
  lemma StopHere(qhat: int, rhat: int, nn: int, u2: int, v1: int, v2: int,
                 x: int, V: int, P: int, xl: int, vl: int, q: int)
    requires Estimate(qhat, rhat, nn, v1, q) && v1 > 0 && IsDigit(v2) && IsDigit(u2)
    requires P > 0 && 0 <= xl < P && 0 <= vl < P
    requires x == (nn * B + u2) * P + xl && V == (v1 * B + v2) * P + vl && V > 0
    requires x < q * V + V && (rhat >= B || v2 * qhat <= rhat * B + u2)
    ensures qhat <= q + 1
  {
    Expand2(qhat, v1, B, v2);
    if rhat >= B { MulMono(v2, B - 1, qhat); }
    CloseEnough(x, V, P, nn * B + u2, v1 * B + v2, xl, vl, qhat);
    if qhat > q + 1 {
      MulMono(q + 2, qhat, V);
    }
  }

  /** The estimate of D3 before its loop, in both of its branches. */
  lemma StartEstimate(uj0: int, uj1: int, u2: int, v1: int, v2: int,
                      x: int, V: int, P: int, xl: int, vl: int, q: int)
    requires IsDigit(uj0) && IsDigit(uj1) && IsDigit(u2) && 0 < v1 < B && IsDigit(v2)
    requires P > 0 && 0 <= xl < P && 0 <= vl < P
    requires x == ((uj0 * B + uj1) * B + u2) * P + xl && V == (v1 * B + v2) * P + vl
    requires q * V <= x < V * B && 0 <= q < B
    ensures uj0 <= v1
    ensures uj0 == v1 ==> Estimate(B - 1, uj1 + v1, uj0 * B + uj1, v1, q)
    ensures uj0 != v1 ==> Estimate((uj0 * B + uj1) / v1, (uj0 * B + uj1) % v1, uj0 * B + uj1, v1, q)
  {
    var nn := uj0 * B + uj1;
    if uj0 > v1 {
      LeadingBound(uj0, nn, nn * B + u2, v1, v1 * B + v2, P, xl, vl);
    } else if uj0 < v1 {
      FirstEstimate(x, V, P, nn, u2, v1, v2, v1 * B + v2, q, xl, vl);
      LeadingQuotient(uj0, uj1, v1, q);
    }
  }

  /** The loop test of D3, on 32-bit words. */
  predicate D3Test(v2: int, qhat: int, rhat: int, uj2: int) { Word(v2 * qhat) > Word(rhat * B + uj2) }

  /** Neither side wraps. */
  ghost predicate D3Exact(v2: int, qhat: int, rhat: int, uj2: int) {
    && IsWord(v2 * qhat) && IsWord(rhat * B + uj2)
    && (D3Test(v2, qhat, rhat, uj2) <==> v2 * qhat > rhat * B + uj2)
  }

  lemma D3IsExact(v2: int, qhat: int, rhat: int, uj2: int)
    requires IsDigit(v2) && IsDigit(qhat) && 0 <= rhat && IsDigit(uj2)
    ensures rhat < B ==> D3Exact(v2, qhat, rhat, uj2)
  {
    DigitProduct(v2, qhat);
  }

  /**
   Step D3. The window holds x, whose three leading digits are uj0, uj1, uj2;
   the normalised divisor V has leading digits v1, v2. The result is the true
   quotient digit q of x by V or one more, and always a digit. The loop test
   is made on 32-bit words; its two sides never wrap, as the invariant says of
   every evaluation.
   */
  method EstimateQhat(uj0: int, uj1: int, uj2: int, v1: int, v2: int,
                      ghost x: int, ghost V: int, ghost P: int, ghost xl: int, ghost vl: int, ghost q: int)
    returns (qhat: int)
    requires IsDigit(uj0) && IsDigit(uj1) && IsDigit(uj2) && 0 < v1 < B && IsDigit(v2)
    requires P > 0 && 0 <= xl < P && 0 <= vl < P && V > 0
    requires x == ((uj0 * B + uj1) * B + uj2) * P + xl && V == (v1 * B + v2) * P + vl
    requires q * V <= x < q * V + V && 0 <= q < B && x < V * B
    ensures IsDigit(qhat)
    ensures q <= qhat <= q + 1
  {
    var nn := uj0 * B + uj1;
    StartEstimate(uj0, uj1, uj2, v1, v2, x, V, P, xl, vl, q);
    var rhat: int;
    if uj0 == v1 {
      qhat, rhat := B, uj1;
      qhat, rhat := qhat - 1, rhat + v1;
    } else {
      qhat, rhat := nn / v1, nn % v1;
    }
    D3IsExact(v2, qhat, rhat, uj2);
    while rhat < B && D3Test(v2, qhat, rhat, uj2)
      invariant Estimate(qhat, rhat, nn, v1, q)
      invariant rhat < B ==> D3Exact(v2, qhat, rhat, uj2)
      decreases qhat
    {
      StepDown(qhat, rhat, nn, uj2, v1, v2, x, V, P, xl, vl, q);
      qhat, rhat := qhat - 1, rhat + v1;
      D3IsExact(v2, qhat, rhat, uj2);
    }
    StopHere(qhat, rhat, nn, uj2, v1, v2, x, V, P, xl, vl, q);
  }

  lemma DivFacts(x: int, v: int)
    requires v > 0 && x >= 0
    ensures x / v * v <= x < x / v * v + v
    ensures x == x / v * v + x % v && 0 <= x % v < v
    ensures x / v >= 0
    ensures x < v * B ==> x / v < B
  {
    var q := x / v;
    assert x == q * v + x % v;
    if q < 0 { MulMono(q, -1, v); }
    if x < v * B && q >= B { MulMono(B, q, v); }
  }

  lemma LeadingBound(uj0: int, nn: int, u3: int, v1: int, vv: int, P: int, xl: int, vl: int)
    requires P > 0 && 0 <= xl && vl < P && 0 <= v1
    requires uj0 > v1 && nn >= uj0 * B && u3 >= nn * B && vv < v1 * B + B
    ensures u3 * P + xl >= (vv * P + vl) * B
  {
    assert u3 >= (vv + 1) * B;
    assert u3 * P >= ((vv + 1) * B) * P by { MulMono((vv + 1) * B, u3, P); }
    assert ((vv + 1) * B) * P == (vv * P + P) * B;
  }

  lemma LeadingQuotient(uj0: int, uj1: int, v1: int, q: int)
    requires IsDigit(uj1) && 0 <= uj0 < v1 && q * v1 <= uj0 * B + uj1
    ensures Estimate((uj0 * B + uj1) / v1, (uj0 * B + uj1) % v1, uj0 * B + uj1, v1, q)
  {
    var nn := uj0 * B + uj1;
    DivFacts(nn, v1);
    var h := nn / v1;
    if q > h { MulMono(h + 1, q, v1); }
  }

  // ------------------------------------------------------------------
  // D4: multiply and subtract; D6: add back

  lemma DigitProduct(x: int, y: int)
    requires IsDigit(x) && IsDigit(y)
    ensures 0 <= x * y <= (B - 1) * (B - 1)
  {
    MulMono(0, x, y);
    MulMono(x, B - 1, y);
  }

  /** One digit of step D4: x - y * qhat - t, computed in a word that wraps.
      The borrow handed on is exactly the number of units of B it took. */
  method SubtractDigit(x: int, y: int, qhat: int, t: int) returns (d: int, borrow: int)
    requires IsDigit(x) && IsDigit(y) && IsDigit(qhat) && IsDigit(t)
    ensures IsDigit(d) && IsDigit(borrow)
    ensures d == x - y * qhat - t + borrow * B
  {
    DigitProduct(y, qhat);
    var p := y * qhat;
    var w := Word(x - p - t);
    assert w == if x - p - t >= 0 then x - p - t else x - p - t + W;
    d := LHalf(w);
    borrow := LHalf(B - HHalf(w));
  }

  /** The last digit of step D4, where only a borrow is subtracted. */
  method SubtractTop(x: int, t: int) returns (d: int, borrow: bool)
    requires IsDigit(x) && IsDigit(t)
    ensures IsDigit(d)
    ensures d == x - t + (if borrow then 1 else 0) * B
  {
    var w := Word(x - t);
    assert w == if x >= t then x - t else x - t + W;
    d := LHalf(w);
    borrow := HHalf(w) != 0;
  }

  /** One digit of step D6; g is the negated carry in, h the negated carry out. */
  method AddDigit(x: int, y: int, t: int, ghost f: int, ghost g: int) returns (d: int, carry: int, ghost h: int)
    requires IsDigit(x) && IsDigit(y) && 0 <= t <= 1 && f == -1 && g == -t
    ensures IsDigit(d) && 0 <= carry <= 1 && h == -carry
    ensures d == x - y * f - g + h * B
  {
    d := LHalf(t + x + y);
    carry := HHalf(t + x + y);
    h := -carry;
  }

  lemma DifferenceAlgebra(x: int, s: int, d: int, f: int, t0: int, t: int, p: int, xl: int, sl: int, dl: int)
    requires x == s - d * f - t0 + t * B
    requires xl == sl - f * dl + t0 * p
    ensures x * p + xl == (s * p + sl) - f * (d * p + dl) + t * (p * B)
  {
    var e := d * f;
    assert x * p == (s - e - t0 + t * B) * p;
    assert (s - e - t0 + t * B) * p == s * p - e * p - t0 * p + t * (p * B) by { ExpandDigit(s, e, t0, t, p); }
    assert f * (d * p + dl) == e * p + f * dl by { Expand2(f, d, p, dl); }
  }

  lemma ExpandDigit(s: int, e: int, t0: int, t: int, p: int)
    ensures (s - e - t0 + t * B) * p == s * p - e * p - t0 * p + t * (p * B)
  {
  }

  /** The lowest k digits of the n + 1 digits at o (of u) and of the n digits
      after w (of the divisor). */
  ghost function Low(s: seq<int>, o: nat, n: nat, k: nat): int
    requires k <= n + 1 && o + n < |s|
  {
    Val(s[o + n + 1 - k..o + n + 1])
  }

  /** After k digits of a multiply-and-add with factor -f, the low k digits of
      cur are those of s minus f times those of d, plus t units of B^k. */
  ghost predicate Progress(cur: seq<int>, s: seq<int>, d: seq<int>, o: nat, w: nat, n: nat, k: nat, f: int, t: int) {
    && |cur| == |s| && o + n < |s| && w + n < |d| && k <= n && Digital(cur)
    && cur[..o + n + 1 - k] == s[..o + n + 1 - k] && cur[o + n + 1..] == s[o + n + 1..]
    && Low(cur, o, n, k) == Low(s, o, n, k) - f * Low(d, w, n, k) + t * Pow(k)
  }

  lemma LowStep(s: seq<int>, o: nat, n: nat, k: nat)
    requires k <= n && o + n < |s|
    ensures Low(s, o, n, k + 1) == s[o + n - k] * Pow(k) + Low(s, o, n, k)
  {
    var i := o + n - k;
    assert s[i..o + n + 1] == [s[i]] + s[i + 1..o + n + 1];
    ValCons(s[i], s[i + 1..o + n + 1]);
  }

  lemma NextDigit(cur: seq<int>, s: seq<int>, d: seq<int>, o: nat, w: nat, n: nat, k: nat, f: int, t0: int, t: int,
                  x: int)
    requires k < n && Progress(cur, s, d, o, w, n, k, f, t0) && IsDigit(x)
    requires x == s[o + n - k] - d[w + n - k] * f - t0 + t * B
    ensures Progress(cur[o + n - k := x], s, d, o, w, n, k + 1, f, t)
  {
    var next := cur[o + n - k := x];
    LowStep(next, o, n, k);
    LowStep(s, o, n, k);
    LowStep(d, w, n, k);
    assert Low(next, o, n, k) == Low(cur, o, n, k) by {
      assert next[o + n + 1 - k..o + n + 1] == cur[o + n + 1 - k..o + n + 1];
    }
    DifferenceAlgebra(x, s[o + n - k], d[w + n - k], f, t0, t, Pow(k), Low(cur, o, n, k), Low(s, o, n, k),
                      Low(d, w, n, k));
  }

  lemma LastDigit(cur: seq<int>, s: seq<int>, d: seq<int>, o: nat, w: nat, n: nat, f: int, t0: int, t: int, x: int)
    requires Progress(cur, s, d, o, w, n, n, f, t0) && IsDigit(x)
    requires x == s[o] - t0 + t * B
    ensures var next := cur[o := x];
      && Digital(next) && next[..o] == s[..o] && next[o + n + 1..] == s[o + n + 1..]
      && Val(next[o..o + n + 1]) == Val(s[o..o + n + 1]) - f * Val(d[w + 1..w + n + 1]) + t * Pow(n + 1)
  {
    var next := cur[o := x];
    assert next[o..o + n + 1] == [x] + cur[o + 1..o + n + 1];
    assert s[o..o + n + 1] == [s[o]] + s[o + 1..o + n + 1];
    ValCons(x, cur[o + 1..o + n + 1]);
    ValCons(s[o], s[o + 1..o + n + 1]);
    DifferenceAlgebra(x, s[o], 0, f, t0, t, Pow(n), Low(cur, o, n, n), Low(s, o, n, n), Low(d, w, n, n));
    assert next[..o] == s[..o] by { assert cur[..o + 1][..o] == s[..o + 1][..o]; }
  }

  /** Step D4 on the window u[o..o+n]. The result says whether the final word
      had a nonzero upper half; the window then holds the difference plus
      B^(n+1), and the difference is negative. */
  method MultiplySubtract(u: array<int>, o: nat, v: array<int>, w: nat, n: nat, qhat: int) returns (borrow: bool)
    requires u != v && o + n < u.Length && w + n < v.Length && n > 0
    requires Digital(u[..]) && Digital(v[..]) && IsDigit(qhat)
    modifies u
    ensures Digital(u[..])
    ensures u[..o] == old(u[..o]) && u[o + n + 1..] == old(u[o + n + 1..])
    ensures Val(u[o..o + n + 1]) == Val(old(u[o..o + n + 1])) - qhat * Val(v[w + 1..w + n + 1])
                                    + (if borrow then Pow(n + 1) else 0)
    ensures borrow <==> Val(old(u[o..o + n + 1])) < qhat * Val(v[w + 1..w + n + 1])
  {
    ghost var s, d, cur := u[..], v[..], u[..];
    var t, i := 0, n;
    while i > 0
      invariant 0 <= i <= n && IsDigit(t)
      invariant v[..] == d && u[..] == cur
      invariant Progress(cur, s, d, o, w, n, n - i, qhat, t)
    {
      assert u[o + i] == cur[..o + i + 1][o + i] == s[o + i];
      var x, b := SubtractDigit(u[o + i], v[w + i], qhat, t);
      NextDigit(cur, s, d, o, w, n, n - i, qhat, t, b, x);
      u[o + i], t := x, b;
      cur := cur[o + i := u[o + i]];
      i := i - 1;
    }
    assert u[o] == cur[..o + 1][o] == s[o];
    var x;
    x, borrow := SubtractTop(u[o], t);
    LastDigit(cur, s, d, o, w, n, qhat, t, if borrow then 1 else 0, x);
    u[o] := x;
    cur := cur[o := u[o]];
    assert u[..] == cur;
    WindowFacts(cur, s, d, o, w, n);
  }

  lemma WindowFacts(cur: seq<int>, s: seq<int>, d: seq<int>, o: nat, w: nat, n: nat)
    requires |cur| == |s| && o + n < |s| && w + n < |d| && Digital(cur) && Digital(s) && Digital(d)
    ensures 0 <= Val(cur[o..o + n + 1]) < Pow(n + 1)
    ensures 0 <= Val(s[o..o + n + 1]) < Pow(n + 1)
    ensures 0 <= Val(d[w + 1..w + n + 1]) < Pow(n)
  {
    ValBound(cur[o..o + n + 1]);
    ValBound(s[o..o + n + 1]);
    ValBound(d[w + 1..w + n + 1]);
  }

  /** Step D6: adds the divisor back to the window; -c is the carry out, which
      the code drops. */
  method AddBack(u: array<int>, o: nat, v: array<int>, w: nat, n: nat, ghost f: int) returns (ghost c: int)
    requires u != v && o + n < u.Length && w + n < v.Length && n > 0
    requires Digital(u[..]) && Digital(v[..]) && f == -1
    modifies u
    ensures Digital(u[..])
    ensures u[..o] == old(u[..o]) && u[o + n + 1..] == old(u[o + n + 1..])
    ensures -1 <= c <= 0
    ensures Val(u[o..o + n + 1]) == Val(old(u[o..o + n + 1])) - f * Val(v[w + 1..w + n + 1]) + c * Pow(n + 1)
  {
    ghost var s, d, cur := u[..], v[..], u[..];
    var t, i := 0, n;
    c := 0;
    while i > 0
      invariant 0 <= i <= n && 0 <= t <= 1 && c == -t
      invariant v[..] == d && u[..] == cur
      invariant Progress(cur, s, d, o, w, n, n - i, f, c)
    {
      assert u[o + i] == cur[..o + i + 1][o + i] == s[o + i];
      var x, b, h := AddDigit(u[o + i], v[w + i], t, f, c);
      NextDigit(cur, s, d, o, w, n, n - i, f, c, h, x);
      u[o + i], t, c := x, b, h;
      cur := cur[o + i := u[o + i]];
      i := i - 1;
    }
    assert u[o] == cur[..o + 1][o] == s[o];
    var x, b, h := AddDigit(u[o], 0, t, f, c);
    LastDigit(cur, s, d, o, w, n, f, c, h, x);
    u[o], c := x, h;
    cur := cur[o := u[o]];
    assert u[..] == cur;
  }

  /** Whatever the borrow, adding the divisor back once is enough. */
  lemma OneAddBack(x: int, V: int, q: int, qhat: int, p: int, y: int, z: int, borrow: bool, f: int, c: int)
    requires q * V <= x < q * V + V && q <= qhat <= q + 1 && 0 < V < p
    requires borrow <==> x < qhat * V
    requires y == x - qhat * V + (if borrow then p else 0) && 0 <= y < p
    requires borrow ==> -1 <= c <= 0 && f == -1 && z == y - f * V + c * p && 0 <= z < p
    ensures borrow <==> qhat == q + 1
    ensures (if borrow then z else y) == x - q * V
  {
    assert (q + 1) * V == q * V + V;
    assert qhat == q || qhat == q + 1;
  }

  /** Steps D4 to D6: whichever of the two possible values qhat has, the true
      digit q and the exact partial remainder come out. */
  method SubtractAndFix(u: array<int>, o: nat, v: array<int>, w: nat, n: nat, qhat: int,
                        ghost x: int, ghost V: int, ghost q: int) returns (digit: int)
    requires u != v && o + n < u.Length && w + n < v.Length && n > 0
    requires Digital(u[..]) && Digital(v[..]) && IsDigit(qhat)
    requires x == Val(u[o..o + n + 1]) && V == Val(v[w + 1..w + n + 1]) > 0
    requires q * V <= x < q * V + V && q <= qhat <= q + 1
    modifies u
    ensures Digital(u[..]) && digit == q
    ensures u[..o] == old(u[..o]) && u[o + n + 1..] == old(u[o + n + 1..])
    ensures Val(u[o..o + n + 1]) == x - q * V
  {
    var borrow := MultiplySubtract(u, o, v, w, n, qhat);
    ghost var y, f, c := Val(u[o..o + n + 1]), -1, 0;
    WindowFacts(u[..], u[..], v[..], o, w, n);
    digit := qhat;
    if borrow {
      digit := qhat - 1;
      c := AddBack(u, o, v, w, n, f);
      WindowFacts(u[..], u[..], v[..], o, w, n);
    }
    OneAddBack(x, V, q, qhat, Pow(n + 1), y, Val(u[o..o + n + 1]), borrow, f, c);
  }

  /**
   Steps D3 to D6 on one window: the digit is the true quotient digit and the
   window is left with the exact partial remainder.
   */
  method DivideDigit(u: array<int>, o: nat, v: array<int>, w: nat, n: nat) returns (digit: int)
    requires u != v && o + n < u.Length && w + n < v.Length && n >= 2
    requires Digital(u[..]) && Digital(v[..]) && v[w + 1] >= B / 2
    requires Val(u[o..o + n + 1]) < Val(v[w + 1..w + n + 1]) * B
    modifies u
    ensures Digital(u[..]) && IsDigit(digit)
    ensures u[..o] == old(u[..o]) && u[o + n + 1..] == old(u[o + n + 1..])
    ensures Val(old(u[o..o + n + 1])) == digit * Val(v[w + 1..w + n + 1]) + Val(u[o..o + n + 1])
    ensures 0 <= Val(u[o..o + n + 1]) < Val(v[w + 1..w + n + 1])
  {
    ghost var us, vs := u[o..o + n + 1], v[w + 1..w + n + 1];
    ghost var x, V := Val(us), Val(vs);
    ghost var q := WindowDivides(us, vs);
    var qhat := EstimateQhat(u[o], u[o + 1], u[o + 2], v[w + 1], v[w + 2], x, V, Pow(n - 2), Val(us[3..]),
                             Val(vs[2..]), q);
    digit := SubtractAndFix(u, o, v, w, n, qhat, x, V, q);
    assert v[w + 1..w + n + 1] == vs;
  }

  /** The facts about a window and a normalised divisor that D3 rests on. */
  lemma WindowDivides(us: seq<int>, vs: seq<int>) returns (q: int)
    requires |vs| >= 2 && |us| == |vs| + 1 && Digital(us) && Digital(vs) && vs[0] >= B / 2
    requires Val(us) < Val(vs) * B
    ensures Val(us) == ((us[0] * B + us[1]) * B + us[2]) * Pow(|vs| - 2) + Val(us[3..])
    ensures Val(vs) == (vs[0] * B + vs[1]) * Pow(|vs| - 2) + Val(vs[2..])
    ensures 0 <= Val(us[3..]) < Pow(|vs| - 2) && 0 <= Val(vs[2..]) < Pow(|vs| - 2)
    ensures Val(vs) > 0
    ensures q * Val(vs) <= Val(us) < q * Val(vs) + Val(vs) && 0 <= q < B
  {
    LeadingThree(us);
    LeadingTwo(vs);
    ValBound(us);
    ValBound(us[3..]);
    ValBound(vs[2..]);
    MulGe(vs[0] * B + vs[1], Pow(|vs| - 2));
    DivFacts(Val(us), Val(vs));
    q := Val(us) / Val(vs);
  }

  lemma LeadingThree(s: seq<int>)
    requires |s| >= 3
    ensures Val(s) == ((s[0] * B + s[1]) * B + s[2]) * Pow(|s| - 3) + Val(s[3..])
  {
    assert s == s[..3] + s[3..];
    ValConcat(s[..3], s[3..]);
    assert s[..3] == [s[0]] + [s[1]] + [s[2]];
    assert Val([s[0]]) == s[0] by { ValCons(s[0], []); assert [s[0]] + [] == [s[0]]; }
    assert ([s[0]] + [s[1]])[..1] == [s[0]];
    assert ([s[0]] + [s[1]] + [s[2]])[..2] == [s[0]] + [s[1]];
  }

  lemma LeadingTwo(s: seq<int>)
    requires |s| >= 2
    ensures Val(s) == (s[0] * B + s[1]) * Pow(|s| - 2) + Val(s[2..])
  {
    assert s == s[..2] + s[2..];
    ValConcat(s[..2], s[2..]);
    assert s[..2] == [s[0]] + [s[1]];
    assert Val([s[0]]) == s[0] by { ValCons(s[0], []); assert [s[0]] + [] == [s[0]]; }
    assert ([s[0]] + [s[1]])[..1] == [s[0]];
  }

  // ------------------------------------------------------------------
  // D2 to D7: the loop over the quotient digits

  /** The j digits already divided away are zero, and the next window is
      below the divisor in its first n digits. */
  ghost predicate Cleared(u: seq<int>, ou: nat, n: nat, j: nat, V: int) {
    && ou + j + n <= |u| && Digital(u)
    && (forall i :: ou <= i < ou + j ==> u[i] == 0)
    && Val(u[ou + j..ou + j + n]) < V
  }

  /** What the digits qs have divided out plus what is left is U. */
  ghost predicate Balanced(rest: seq<int>, qs: seq<int>, k: nat, U: int, V: int) {
    U == Val(qs) * Pow(k) * V + Val(rest)
  }

  /** The state of the loop after j digits. */
  ghost predicate DividedSoFar(u: seq<int>, ou: nat, q: seq<int>, oq: nat, m: nat, n: nat, j: nat, U: int, V: int) {
    && j <= m + 1 && ou + m + n < |u| && oq + m < |q| && Digital(q)
    && Cleared(u, ou, n, j, V)
    && Balanced(u[ou + j..ou + m + n + 1], q[oq..oq + j], m + 1 - j, U, V)
  }

  /** Replacing a window by one below B^n clears its first digit; what
      follows the window keeps its weight. */
  lemma ShrinkWindow(u: seq<int>, u': seq<int>, o: nat, n: nat, e: nat)
    requires o + n < e <= |u| == |u'| && Digital(u) && Digital(u')
    requires u'[o + n + 1..] == u[o + n + 1..]
    requires Val(u'[o..o + n + 1]) < Pow(n)
    ensures u'[o] == 0 && Val(u'[o + 1..o + n + 1]) == Val(u'[o..o + n + 1])
    ensures Val(u[o..e]) == Val(u[o..o + n + 1]) * Pow(e - o - n - 1) + Val(u[o + n + 1..e])
    ensures Val(u'[o + 1..e]) == Val(u'[o..o + n + 1]) * Pow(e - o - n - 1) + Val(u[o + n + 1..e])
  {
    var win, win', tail, z := u[o..o + n + 1], u'[o..o + n + 1], u[o + n + 1..e], [u'[o]];
    assert u'[o + n + 1..e] == tail by { assert u'[o + n + 1..][..|tail|] == u[o + n + 1..][..|tail|]; }
    assert win' == z + u'[o + 1..o + n + 1];
    SmallHasZeros(z, u'[o + 1..o + n + 1]);
    assert z[0] == 0;
    ValZeros(z, u'[o + 1..o + n + 1]);
    assert u'[o + 1..e] == u'[o + 1..o + n + 1] + tail;
    ValConcat(u'[o + 1..o + n + 1], tail);
    assert u[o..e] == win + tail;
    ValConcat(win, tail);
  }

  lemma OneMoreValue(u: seq<int>, u': seq<int>, o: nat, n: nat, e: nat, qs: seq<int>, digit: int, U: int, V: int)
    requires o + n < e <= |u| == |u'| && Digital(u) && Digital(u')
    requires u'[o + n + 1..] == u[o + n + 1..]
    requires Val(u[o..o + n + 1]) == digit * V + Val(u'[o..o + n + 1])
    requires Val(u'[o..o + n + 1]) < Pow(n)
    requires Balanced(u[o..e], qs, e - o - n, U, V)
    ensures Balanced(u'[o + 1..e], qs + [digit], e - o - n - 1, U, V)
  {
    ShrinkWindow(u, u', o, n, e);
    assert (qs + [digit])[..|qs|] == qs;
    DivideAlgebra(Val(qs), digit, Pow(e - o - n - 1), V,
                  Val(u[o..o + n + 1]), Val(u'[o..o + n + 1]), Val(u[o + n + 1..e]));
  }

  lemma OneMoreCleared(u: seq<int>, u': seq<int>, ou: nat, n: nat, j: nat, V: int)
    requires Cleared(u, ou, n, j, V) && ou + j + n < |u| == |u'| && Digital(u') && u'[..ou + j] == u[..ou + j]
    requires u'[ou + j + n + 1..] == u[ou + j + n + 1..]
    requires Val(u'[ou + j..ou + j + n + 1]) < V <= Pow(n)
    ensures Cleared(u', ou, n, j + 1, V)
  {
    ShrinkWindow(u, u', ou + j, n, ou + j + n + 1);
    forall i | ou <= i < ou + j + 1 ensures u'[i] == 0 {
      if i < ou + j { assert u'[i] == u'[..ou + j][i] == u[..ou + j][i] == u[i]; }
    }
  }

  /** One more digit keeps the accounting. */
  lemma {:induction false} OneMoreDigit(u: seq<int>, u': seq<int>, ou: nat, q: seq<int>, oq: nat, m: nat, n: nat,
                                        j: nat,
                     U: int, V: int, digit: int)
    requires j <= m && DividedSoFar(u, ou, q, oq, m, n, j, U, V) && IsDigit(digit) && n > 0
    requires |u'| == |u| && Digital(u') && u'[..ou + j] == u[..ou + j] && u'[ou + j + n + 1..] == u[ou + j + n + 1..]
    requires Val(u[ou + j..ou + j + n + 1]) == digit * V + Val(u'[ou + j..ou + j + n + 1])
    requires Val(u'[ou + j..ou + j + n + 1]) < V <= Pow(n)
    ensures DividedSoFar(u', ou, q[oq + j := digit], oq, m, n, j + 1, U, V)
  {
    OneMoreCleared(u, u', ou, n, j, V);
    OneMoreValue(u, u', ou + j, n, ou + m + n + 1, q[oq..oq + j], digit, U, V);
    assert q[oq + j := digit][oq..oq + j + 1] == q[oq..oq + j] + [digit];
  }

  lemma DivideAlgebra(q: int, d: int, p: int, V: int, x: int, y: int, t: int)
    requires x == d * V + y
    ensures q * (p * B) * V + (x * p + t) == (q * B + d) * p * V + (y * p + t)
  {
    assert (d * V + y) * p == (d * p) * V + y * p;
    assert (q * B + d) * p == q * (p * B) + d * p;
    assert (q * (p * B) + d * p) * V == q * (p * B) * V + (d * p) * V;
  }

  lemma NextWindow(u: seq<int>, o: nat, n: nat, V: int)
    requires o + n < |u| && Digital(u) && Val(u[o..o + n]) < V
    ensures Val(u[o..o + n + 1]) < V * B
  {
    assert u[o..o + n + 1][..n] == u[o..o + n];
  }

  lemma NothingDivided(u: seq<int>, ou: nat, q: seq<int>, oq: nat, m: nat, n: nat, U: int, V: int)
    requires ou + m + n < |u| && oq + m < |q| && Digital(u) && Digital(q)
    requires U == Val(u[ou..ou + m + n + 1]) && Val(u[ou..ou + n]) < V
    ensures DividedSoFar(u, ou, q, oq, m, n, 0, U, V)
  {
    assert q[oq..oq] == [];
    assert 0 * Pow(m + 1) * V == 0;
  }

  /** One turn of the loop D3 to D7. */
  method DivideStep(u: array<int>, ou: nat, v: array<int>, ov: nat, q: array<int>, oq: nat, m: nat, n: nat, j: nat,
                    ghost U: int, ghost V: int)
    requires u != v && u != q && v != q && n >= 2 && j <= m
    requires ou + m + n < u.Length && ov + n < v.Length && oq + m < q.Length
    requires Digital(v[..]) && v[ov + 1] >= B / 2 && V == Val(v[ov + 1..ov + n + 1]) <= Pow(n)
    requires DividedSoFar(u[..], ou, q[..], oq, m, n, j, U, V)
    modifies u, q
    ensures DividedSoFar(u[..], ou, q[..], oq, m, n, j + 1, U, V)
    ensures u[..ou] == old(u[..ou]) && q[..oq] == old(q[..oq])
  {
    ghost var us, qs := u[..], q[..];
    NextWindow(us, ou + j, n, V);
    assert u[ou + j..ou + j + n + 1] == us[ou + j..ou + j + n + 1];
    var digit := DivideDigit(u, ou + j, v, ov, n);
    ghost var us' := u[..];
    assert us'[..ou + j] == us[..ou + j] && us'[ou + j + n + 1..] == us[ou + j + n + 1..];
    OneMoreDigit(us, us', ou, qs, oq, m, n, j, U, V, digit);
    q[oq + j] := digit;
    assert q[..] == qs[oq + j := digit] && u[..] == us';
    assert us'[..ou] == us'[..ou + j][..ou] == us[..ou];
  }

  /** D2 to D7: m + 1 quotient digits of U by V, and the remainder in u. */
  method DivideLoop(u: array<int>, ou: nat, v: array<int>, ov: nat, q: array<int>, oq: nat, m: nat, n: nat,
                    ghost U: int, ghost V: int)
    requires u != v && u != q && v != q && n >= 2
    requires ou + m + n < u.Length && ov + n < v.Length && oq + m < q.Length
    requires Digital(u[..]) && Digital(v[..]) && Digital(q[..]) && v[ov + 1] >= B / 2
    requires U == Val(u[ou..ou + m + n + 1]) && Val(u[ou..ou + n]) < V == Val(v[ov + 1..ov + n + 1])
    modifies u, q
    ensures DividedSoFar(u[..], ou, q[..], oq, m, n, m + 1, U, V)
    ensures u[..ou] == old(u[..ou]) && q[..oq] == old(q[..oq])
  {
    ghost var vs, u0, q0 := v[..], u[..], q[..];
    ValBound(v[ov + 1..ov + n + 1]);
    NothingDivided(u0, ou, q0, oq, m, n, U, V);
    var j := 0;
    while j <= m
      invariant 0 <= j <= m + 1
      invariant v[..] == vs
      invariant DividedSoFar(u[..], ou, q[..], oq, m, n, j, U, V)
      invariant u[..ou] == u0[..ou] && q[..oq] == q0[..oq]
      decreases m + 1 - j
    {
      assert v[ov + 1..ov + n + 1] == vs[ov + 1..ov + n + 1];
      DivideStep(u, ou, v, ov, q, oq, m, n, j, U, V);
      j := j + 1;
    }
  }

  // ------------------------------------------------------------------
  // Undoing the normalisation

  /** After the digits above position i have been shifted right. */
  ghost predicate ShiftedAbove(cur: seq<int>, s: seq<int>, o: nat, n: nat, i: nat, k: int) {
    && |cur| == |s| && i <= n && o + n < |s| && k > 0 && Digital(cur)
    && cur[..o + i + 1] == s[..o + i + 1]
    && k * Val(cur[o + i + 1..o + n + 1]) + s[o + n] % k
       == Val(s[o + i + 1..o + n + 1]) + s[o + i] % k * Pow(n - i)
  }

  lemma ShiftRightDigit(cur: seq<int>, s: seq<int>, o: nat, n: nat, i: nat, k: int, c: int, x: int)
    requires 0 < i && ShiftedAbove(cur, s, o, n, i, k) && Digital(s) && c > 0 && k * c == B && IsDigit(x)
    requires x == s[o + i] / k + s[o + i - 1] % k * c
    ensures ShiftedAbove(cur[o + i := x], s, o, n, i - 1, k)
  {
    var next := cur[o + i := x];
    assert next[o + i..o + n + 1] == [x] + cur[o + i + 1..o + n + 1];
    assert s[o + i..o + n + 1] == [s[o + i]] + s[o + i + 1..o + n + 1];
    assert next[..o + i] == s[..o + i] by { assert cur[..o + i + 1][..o + i] == s[..o + i + 1][..o + i]; }
    ValCons(x, cur[o + i + 1..o + n + 1]);
    ValCons(s[o + i], s[o + i + 1..o + n + 1]);
    DivFacts(s[o + i], k);
    ShiftAlgebra(x, s[o + i] / k, s[o + i] % k, s[o + i - 1] % k, k, c, Pow(n - i),
                 Val(cur[o + i + 1..o + n + 1]), Val(s[o + i + 1..o + n + 1]), s[o + n] % k);
  }

  lemma ShiftAlgebra(x: int, h: int, l: int, up: int, k: int, c: int, p: int, a: int, b: int, r: int)
    requires k * c == B && x == h + up * c
    requires k * a + r == b + l * p
    ensures k * (x * p + a) + r == ((h * k + l) * p + b) + up * (p * B)
  {
    assert k * (x * p) == (h * k) * p + up * (p * (k * c)) by { ShiftExpand(x, h, up, k, c, p); }
    assert (h * k + l) * p == (h * k) * p + l * p;
    assert k * (x * p + a) == k * (x * p) + k * a;
  }

  lemma ShiftExpand(x: int, h: int, up: int, k: int, c: int, p: int)
    requires x == h + up * c
    ensures k * (x * p) == (h * k) * p + up * (p * (k * c))
  {
    assert x * p == h * p + (up * c) * p;
    assert k * ((up * c) * p) == up * (p * (k * c)) by { Permute(k, up, c, p); }
    assert k * (h * p) == (h * k) * p;
  }

  lemma Permute(k: int, up: int, c: int, p: int)
    ensures k * ((up * c) * p) == up * (p * (k * c))
  {
    calc {
      k * ((up * c) * p);
      ((up * c) * p) * k;
      (up * c) * (p * k);
      up * (c * (p * k));
      { assert c * (p * k) == p * (k * c); }
      up * (p * (k * c));
    }
  }

  lemma AllShifted(cur: seq<int>, s: seq<int>, o: nat, n: nat, k: int)
    requires ShiftedAbove(cur, s, o, n, 0, k) && Digital(s) && s[o] == 0
    ensures cur[..o] == s[..o] && cur[o] == 0
    ensures Val(cur[o + 1..o + n + 1]) == Val(s[o + 1..o + n + 1]) / k
  {
    assert cur[o] == cur[..o + 1][o] == s[o];
    assert cur[..o] == cur[..o + 1][..o] == s[..o + 1][..o] == s[..o];
    ZeroDiv(k);
    DivFacts(s[o + n], k);
    ShiftExact(Val(s[o + 1..o + n + 1]), k, Val(cur[o + 1..o + n + 1]), s[o + n] % k, Pow(n));
  }

  lemma ShiftExact(x: int, k: int, y: int, r: int, p: int)
    requires k > 0 && 0 <= r < k && k * y + r == x + 0 * p
    ensures y == x / k
  {
    DivisionUnique(x, k, y, r);
  }

  /** One digit shifted right, taking in the low bits of its neighbour. */
  method ShiftedDigit(x: int, up: int, d: nat) returns (r: int)
    requires IsDigit(x) && IsDigit(up) && 0 < d < 16
    ensures IsDigit(r) && r == x / Pow2(d) + up % Pow2(d) * Pow2(16 - d)
  {
    ShiftPair(d);
    DivModShift(x, Pow2(16 - d), Pow2(d));
    DivModShift(up, Pow2(16 - d), Pow2(d));
    r := x / Pow2(d) + LHalf(up * Pow2(16 - d));
  }

  /** The final loop: shifts the n + 1 digits at o, the first of them zero,
      right by d bits. */
  method Unnormalise(u: array<int>, o: nat, n: nat, d: nat)
    requires 0 < d < 16 && o + n < u.Length && Digital(u[..]) && u[o] == 0
    modifies u
    ensures Digital(u[..]) && u[..o] == old(u[..o]) && u[o] == 0
    ensures Val(u[o + 1..o + n + 1]) == Val(old(u[o + 1..o + n + 1])) / Pow2(d)
  {
    ghost var s, cur, k := u[..], u[..], Pow2(d);
    ShiftPair(d);
    var i := n;
    assert u[o + n + 1..o + n + 1] == [];
    while i > 0
      invariant 0 <= i <= n && u[..] == cur
      invariant ShiftedAbove(cur, s, o, n, i, k)
    {
      assert u[o + i] == cur[..o + i + 1][o + i] == s[o + i];
      assert u[o + i - 1] == cur[..o + i + 1][o + i - 1] == s[o + i - 1];
      var x := ShiftedDigit(u[o + i], u[o + i - 1], d);
      ShiftRightDigit(cur, s, o, n, i, k, Pow2(16 - d), x);
      u[o + i] := x;
      cur := cur[o + i := x];
      i := i - 1;
    }
    AllShifted(cur, s, o, n, k);
    u[o] := 0;
    assert u[..] == cur;
  }

  // ------------------------------------------------------------------
  // The whole routine

  lemma FourDigits(a: int, b: int, c: int, d: int)
    ensures Val([a, b, c, d]) == ((a * B + b) * B + c) * B + d
  {
    LeadingThree([a, b, c, d]);
    assert [a, b, c, d][3..] == [d];
    ValCons(d, []);
    assert [d] + [] == [d];
  }

  /** The high and low words split into digits, after a zero digit. */
  method ToDigits(x: int) returns (a: array<int>)
    requires IsQuad(x)
    ensures fresh(a) && a.Length == 5 && Digital(a[..]) && a[0] == 0 && Val(a[1..5]) == x
  {
    var hi, lo := x / W, x % W;
    a := new int[5](_ => 0);
    a[1], a[2], a[3], a[4] := HHalf(hi), LHalf(hi), HHalf(lo), LHalf(lo);
    FourDigits(a[1], a[2], a[3], a[4]);
    assert a[1..5] == [a[1], a[2], a[3], a[4]];
  }

  /** Four digits put back together, two at a time (COMBINE). */
  method Combine(a: array<int>) returns (x: int)
    requires a.Length == 5 && Digital(a[..])
    ensures x == Val(a[1..5]) && IsQuad(x)
  {
    FourDigits(a[1], a[2], a[3], a[4]);
    assert a[1..5] == [a[1], a[2], a[3], a[4]];
    assert IsDigit(a[1]) && IsDigit(a[2]) && IsDigit(a[3]) && IsDigit(a[4]);
    x := (a[1] * B + a[2]) * W + (a[3] * B + a[4]);
  }

  /** One turn of the single-digit division: the partial dividend is a word. */
  method ShortStep(r: int, u: int, t: int) returns (q: int, r': int)
    requires 0 < t < B && 0 <= r < t && IsDigit(u)
    ensures r * B + u == q * t + r' && 0 <= r' < t && IsDigit(q)
  {
    var rbj := r * B + u;
    assert IsWord(rbj);
    DivFacts(rbj, t);
    q, r' := rbj / t, rbj % t;
  }

  lemma ShortAlgebra(u1: int, u2: int, u3: int, u4: int, t: int, q1: int, q2: int, q3: int, q4: int, r1: int, r2: int,
                     r3: int, r4: int)
    requires u1 == q1 * t + r1 && r1 * B + u2 == q2 * t + r2 && r2 * B + u3 == q3 * t + r3 && r3 * B + u4 == q4 * t + r4
    ensures ((u1 * B + u2) * B + u3) * B + u4 == (((q1 * B + q2) * B + q3) * B + q4) * t + r4
  {
    assert (q1 * B + q2) * t == q1 * t * B + q2 * t;
    assert ((q1 * B + q2) * B + q3) * t == (q1 * B + q2) * t * B + q3 * t;
    assert (((q1 * B + q2) * B + q3) * B + q4) * t == ((q1 * B + q2) * B + q3) * t * B + q4 * t;
  }

  /** Division by a single digit, the routine of Knuth's exercise 16. */
  method ShortDivide(u: array<int>, t: int) returns (q: int, r: int)
    requires u.Length == 5 && Digital(u[..]) && 0 < t < B
    ensures Val(u[1..5]) == q * t + r && 0 <= r < t
  {
    assert IsDigit(u[1]) && IsDigit(u[2]) && IsDigit(u[3]) && IsDigit(u[4]);
    FourDigits(u[1], u[2], u[3], u[4]);
    assert u[1..5] == [u[1], u[2], u[3], u[4]];
    var q1, r1 := ShortStep(0, u[1], t);
    var q2, r2 := ShortStep(r1, u[2], t);
    var q3, r3 := ShortStep(r2, u[3], t);
    var q4, r4 := ShortStep(r3, u[4], t);
    ShortAlgebra(u[1], u[2], u[3], u[4], t, q1, q2, q3, q4, r1, r2, r3, r4);
    q, r := (q1 * B + q2) * W + (q3 * B + q4), r4;
  }

  /** Digits that are zero up to position z leave the value to the rest. */
  lemma SkipZeros(s: seq<int>, z: nat)
    requires |s| == 5 && z <= 4 && Digital(s) && forall i :: 0 <= i <= z ==> s[i] == 0
    ensures Val(s[1..5]) == Val(s[z + 1..5]) < Pow(4 - z)
    ensures Val(s[1..5]) == Val(s[z..5])
  {
    assert s[1..5] == s[1..z + 1] + s[z + 1..5];
    ValZeros(s[1..z + 1], s[z + 1..5]);
    ValBound(s[z + 1..5]);
    assert s[z..5] == [s[z]] + s[z + 1..5];
    ValZeros([s[z]], s[z + 1..5]);
  }

  lemma LeadingDigit(s: seq<int>)
    requires s != [] && Digital(s)
    ensures s[0] * Pow(|s| - 1) <= Val(s) < (s[0] + 1) * Pow(|s| - 1)
  {
    assert s == [s[0]] + s[1..];
    ValCons(s[0], s[1..]);
    ValBound(s[1..]);
  }

  /** Counting the dividend's leading zeros stops before the divisor's. */
  lemma EnoughDigits(us: seq<int>, vs: seq<int>, z: nat, n: nat)
    requires |us| == |vs| == 5 && 1 <= n <= 4 && z + n <= 4
    requires Digital(us) && Digital(vs) && vs[5 - n] > 0
    requires forall i :: 0 <= i <= z + 1 && i < 5 ==> us[i] == 0
    requires forall i :: 0 <= i < 5 - n ==> vs[i] == 0
    requires Val(us[1..5]) >= Val(vs[1..5])
    ensures z + n < 4
  {
    if z + n == 4 {
      SkipZeros(us, if z == 4 then 4 else z + 1);
      SkipZeros(vs, 4 - n);
      LeadingDigit(vs[5 - n..5]);
      MulGe(vs[5 - n], Pow(n - 1));
    }
  }

  /** D1: the shift that brings the leading digit of the divisor to at least
      half the base. */
  method NormalisingShift(v1: int) returns (d: nat)
    requires 0 < v1 < B
    ensures d < 16 && B / 2 <= v1 * Pow2(d) < B
  {
    d := 0;
    var t := v1;
    while t < B / 2
      invariant 0 < t < B && t == v1 * Pow2(d)
      decreases B - t
    {
      Expand2(v1, 2, Pow2(d), 0);
      t, d := t * 2, d + 1;
    }
    SmallShift(v1, d);
  }

  lemma SmallShift(v1: int, d: nat)
    requires v1 >= 1 && v1 * Pow2(d) < B
    ensures d < 16
  {
    if d >= 16 {
      Pow2Add(d - 16, 16);
      ShiftPair(0);
      MulGe(Pow2(d - 16), Pow2(16));
      MulGe(v1, Pow2(d));
    }
  }

  /** A multiple by 2^d of both operands has the same quotient. */
  lemma ScaledDivision(u: int, v: int, k: int, q: int, r: int)
    requires k > 0 && v > 0 && u >= 0 && u * k == q * (v * k) + r && 0 <= r < v * k
    ensures q == u / v && r / k == u % v
  {
    var s := u - q * v;
    assert q * (v * k) == (q * v) * k;
    assert r == s * k;
    if s < 0 { MulMono(s, -1, k); }
    if s >= v { MulMono(v, s, k); }
    DivisionUnique(u, v, q, s);
    DivisionUnique(r, k, s, 0);
  }

  /** D1 for both operands: the value of each is multiplied by 2^d, nothing
      falls out, and the leading digit of the divisor becomes large. */
  method Normalise(u: array<int>, ou: nat, v: array<int>, ov: nat, m: nat, n: nat) returns (d: nat)
    requires u != v && u.Length == v.Length == 5 && ou + m + n == 4 && ov + n == 4 && n >= 2
    requires Digital(u[..]) && Digital(v[..]) && u[ou] == 0 && v[ov + 1] > 0
    modifies u, v
    ensures d < 16 && Digital(u[..]) && Digital(v[..])
    ensures u[..ou] == old(u[..ou])
    ensures Val(u[ou..5]) == Val(old(u[ou..5])) * Pow2(d)
    ensures Val(v[ov + 1..5]) == Val(old(v[ov + 1..5])) * Pow2(d)
    ensures v[ov + 1] >= B / 2
  {
    ghost var us, vs := u[..], v[..];
    d := NormalisingShift(v[ov + 1]);
    if d > 0 {
      ShiftPair(d);
      NothingFallsOut(us[ou], vs[ov + 1], Pow2(d), Pow2(16 - d));
      ghost var k, c := Pow2(d), Pow2(16 - d);
      Shl(u, ou, m + n, d, k, c);
      assert v[..] == vs;
      Shl(v, ov + 1, n - 1, d, k, c);
      assert v[ov + 1..5] == v[ov + 1..ov + 1 + n];
      LargeLead(vs[ov + 1..5], v[ov + 1..5], Pow2(d));
    }
  }

  lemma NothingFallsOut(x: int, v1: int, k: int, c: int)
    requires x == 0 && 0 < v1 < B && k > 0 && c > 0 && k * c == B && v1 * k < B
    ensures x / c == 0 && v1 / c == 0
  {
    DivisionUnique(0, c, 0, 0);
    if v1 >= c { MulMono(c, v1, k); }
    DivisionUnique(v1, c, 0, v1);
  }

  lemma LargeLead(s: seq<int>, t: seq<int>, k: int)
    requires s != [] && |t| == |s| && Digital(s) && Digital(t) && k > 0
    requires Val(t) == Val(s) * k && s[0] * k >= B / 2
    ensures t[0] >= B / 2
  {
    LeadingDigit(s);
    LeadingDigit(t);
    LargeLeadAlgebra(s[0], Pow(|s| - 1), Val(s), t[0], k);
  }

  lemma LargeLeadAlgebra(s0: int, p: int, x: int, t0: int, k: int)
    requires p > 0 && k > 0 && s0 * p <= x && x * k < (t0 + 1) * p && s0 * k >= B / 2
    ensures t0 >= B / 2
  {
    if t0 < B / 2 {
      MulMono(t0 + 1, s0 * k, p);
      Swap(s0, k, p);
      MulMono(s0 * p, x, k);
    }
  }

  lemma Swap(a: int, b: int, c: int)
    ensures (a * b) * c == (a * c) * b
  {
  }

  /** The first n digits of the normalised dividend are below the divisor. */
  lemma FirstPrefix(us: seq<int>, vs: seq<int>, u0: int, v0: int, k: int, m: nat, n: nat)
    requires |us| == m + n + 1 && |vs| == n >= 2 && Digital(us) && Digital(vs) && k > 0
    requires Val(us) == u0 * k && Val(vs) == v0 * k && 0 <= u0 < Pow(m + n) && v0 >= Pow(n - 1)
    ensures Val(us[..n]) < Val(vs)
  {
    assert us == us[..n] + us[n..];
    ValConcat(us[..n], us[n..]);
    ValBound(us[n..]);
    PowAdd(n - 1, m + 1);
    FirstPrefixAlgebra(Val(us[..n]), Pow(m + 1), Val(us[n..]), u0, k, Pow(n - 1), v0);
  }

  lemma FirstPrefixAlgebra(x: int, p: int, r: int, u0: int, k: int, p1: int, v0: int)
    requires p > 0 && k > 0 && p1 > 0 && r >= 0 && x * p + r == u0 * k && u0 < p1 * p && p1 <= v0
    ensures x < v0 * k
  {
    if x >= v0 * k {
      MulMono(p1, v0, k);
      MulMono(p1 * k, x, p);
      Swap(p1, k, p);
      MulMono(u0 + 1, p1 * p, k);
      DistribSub(u0 + 1, u0, k);
    }
  }

  /** From the loop's final accounting to the quotient and remainder. */
  lemma Accounting(us: seq<int>, ou: nat, qs: seq<int>, m: nat, n: nat, k: int, u0: int, v0: int)
    requires |us| == |qs| == 5 && ou + m + n == 4 && n >= 2 && k > 0 && v0 > 0 && u0 >= 0
    requires DividedSoFar(us, ou, qs, 4 - m, m, n, m + 1, u0 * k, v0 * k)
    requires forall i :: 0 <= i < ou ==> us[i] == 0
    requires forall i :: 0 <= i < 4 - m ==> qs[i] == 0
    ensures us[ou + m] == 0
    ensures Val(qs[1..5]) == u0 / v0
    ensures Val(us[ou + m + 1..5]) / k == u0 % v0
  {
    assert qs[0..5] == qs[0..4 - m] + qs[4 - m..5];
    ValZeros(qs[0..4 - m], qs[4 - m..5]);
    assert qs[0..5] == [qs[0]] + qs[1..5];
    ValZeros([qs[0]], qs[1..5]);
    assert qs[4 - m..4 - m + m + 1] == qs[4 - m..5];
    assert us[ou + m + 1..ou + m + n + 1] == us[ou + m + 1..5];
    ValBound(us[ou + m + 1..5]);
    assert us[ou + m + 1..ou + m + 1 + n] == us[ou + m + 1..5];
    assert Pow(0) == 1;
    ScaledDivision(u0, v0, k, Val(qs[4 - m..5]), Val(us[ou + m + 1..5]));
  }

  /** Algorithm D on operands already multiplied by k = 2^d. */
  method DivideNormalised(u: array<int>, ou: nat, v: array<int>, ov: nat, m: nat, n: nat,
                          ghost k: int, ghost u0: int, ghost v0: int) returns (quot: int)
    requires u != v && u.Length == v.Length == 5 && ou + m + n == 4 && ov + n == 4 && n >= 2
    requires Digital(u[..]) && Digital(v[..]) && v[ov + 1] >= B / 2 && k > 0
    requires Val(u[ou..5]) == u0 * k && Val(v[ov + 1..5]) == v0 * k
    requires 0 <= u0 < Pow(m + n) && v0 >= Pow(n - 1)
    requires forall i :: 0 <= i < ou ==> u[i] == 0
    modifies u
    ensures quot == u0 / v0
    ensures Digital(u[..]) && forall i :: 0 <= i <= ou + m ==> u[i] == 0
    ensures Val(u[ou + m + 1..5]) / k == u0 % v0
  {
    ghost var us := u[..];
    var q := new int[5](_ => 0);
    FirstPrefix(u[ou..5], v[ov + 1..5], u0, v0, k, m, n);
    assert u[ou..5][..n] == u[ou..ou + n] && u[ou..5] == u[ou..ou + m + n + 1] && v[ov + 1..5] == v[ov + 1..ov + n + 1];
    DivideLoop(u, ou, v, ov, q, 4 - m, m, n, u0 * k, v0 * k);
    ghost var fin := u[..];
    assert forall i :: 0 <= i < ou ==> fin[i] == fin[..ou][i] == us[..ou][i] == us[i];
    assert forall i :: 0 <= i < 4 - m ==> q[i] == q[..4 - m][i] == 0;
    Accounting(fin, ou, q[..], m, n, k, u0, v0);
    quot := Combine(q);
    assert u[ou + m + 1..5] == fin[ou + m + 1..5];
  }

  /** Algorithm D once m and n are known: the quotient of the values at
      entry, and their remainder if the caller asked for it. */
  method LongDivide(u: array<int>, ou: nat, v: array<int>, ov: nat, m: nat, n: nat, wantRem: bool)
    returns (quot: int, rem: int)
    requires u != v && u.Length == v.Length == 5 && ou + m + n == 4 && ov + n == 4 && n >= 2
    requires Digital(u[..]) && Digital(v[..]) && v[ov + 1] > 0
    requires forall i :: 0 <= i <= ou ==> u[i] == 0
    requires forall i :: 0 <= i <= ov ==> v[i] == 0
    modifies u, v
    ensures Val(old(v[1..5])) > 0
    ensures quot == Val(old(u[1..5])) / Val(old(v[1..5]))
    ensures wantRem ==> rem == Val(old(u[1..5])) % Val(old(v[1..5]))
  {
    ghost var us, vs, u0, v0 := u[..], v[..], Val(u[1..5]), Val(v[1..5]);
    assert u[1..5] == us[1..5] && v[1..5] == vs[1..5] && u[ou..5] == us[ou..5] && v[ov + 1..5] == vs[ov + 1..5];
    OperandFacts(us, vs, ou, ov, m, n);
    var d := Normalise(u, ou, v, ov, m, n);
    assert forall i :: 0 <= i < ou ==> u[i] == u[..ou][i] == us[..ou][i] == us[i];
    quot := DivideNormalised(u, ou, v, ov, m, n, Pow2(d), u0, v0);
    rem := 0;
    if wantRem {
      rem := ReadRemainder(u, ou + m, n, d);
    }
  }

  /** The remainder: what is left in u, with the normalising shift undone. */
  method ReadRemainder(u: array<int>, o: nat, n: nat, d: nat) returns (rem: int)
    requires u.Length == 5 && o + n == 4 && d < 16 && Digital(u[..])
    requires forall i :: 0 <= i <= o ==> u[i] == 0
    modifies u
    ensures rem == Val(old(u[o + 1..5])) / Pow2(d)
  {
    ghost var s := u[..];
    assert u[o + 1..5] == s[o + 1..5];
    if d > 0 {
      assert u[o + 1..o + n + 1] == s[o + 1..5];
      Unnormalise(u, o, n, d);
      assert forall i :: 0 <= i < o ==> u[i] == u[..o][i] == s[..o][i] == s[i] == 0;
    }
    SkipZeros(u[..], o);
    assert u[..][1..5] == u[1..5] && u[..][o + 1..5] == u[o + 1..5];
    rem := Combine(u);
  }

  /** What the leading-zero counts say about the two operands. */
  lemma OperandFacts(us: seq<int>, vs: seq<int>, ou: nat, ov: nat, m: nat, n: nat)
    requires |us| == |vs| == 5 && ou + m + n == 4 && ov + n == 4 && n >= 2
    requires Digital(us) && Digital(vs) && vs[ov + 1] > 0
    requires forall i :: 0 <= i <= ou ==> us[i] == 0
    requires forall i :: 0 <= i <= ov ==> vs[i] == 0
    ensures Val(us[ou..5]) == Val(us[1..5]) && 0 <= Val(us[1..5]) < Pow(m + n)
    ensures Val(vs[ov + 1..5]) == Val(vs[1..5]) >= Pow(n - 1)
  {
    SkipZeros(us, ou);
    SkipZeros(vs, ov);
    ValBound(us[1..5]);
    LeadingDigit(vs[ov + 1..5]);
    MulGe(vs[ov + 1], Pow(n - 1));
  }

  lemma SingleDigit(vs: seq<int>)
    requires |vs| == 5 && Digital(vs) && forall i :: 0 <= i <= 3 ==> vs[i] == 0
    ensures Val(vs[1..5]) == vs[4]
  {
    SkipZeros(vs, 3);
    assert vs[4..5] == [vs[4]] + [];
    ValCons(vs[4], []);
  }

  /**
   __qdivrem: for every 64-bit dividend and nonzero divisor, the quotient and,
   if asked for, the remainder. A zero divisor traps.
   */
  method Qdivrem(ull: int, vll: int, wantRem: bool) returns (r: Outcome)
    requires IsQuad(ull) && IsQuad(vll)
    ensures r.Trap? <==> vll == 0
    ensures vll != 0 ==> r.quot == ull / vll
    ensures vll != 0 && wantRem ==> r.rem == ull % vll
  {
    if vll == 0 {
      return Trap;
    }
    if ull < vll {
      DivisionUnique(ull, vll, 0, ull);
      return Quotient(0, ull);
    }
    var u := ToDigits(ull);
    var v := ToDigits(vll);
    ghost var us, vs := u[..], v[..];
    assert us[1..5] == u[1..5] && vs[1..5] == v[1..5];
    var n, ov := 4, 0;
    while v[ov + 1] == 0
      invariant 2 <= n <= 4 && ov + n == 4
      invariant u[..] == us && v[..] == vs
      invariant forall i :: 0 <= i <= ov ==> v[i] == 0
      decreases n
    {
      n := n - 1;
      if n == 1 {
        SingleDigit(vs);
        assert u[1..5] == us[1..5];
        var q, rem := ShortDivide(u, v[4]);
        DivisionUnique(ull, vll, q, rem);
        return Quotient(q, rem);
      }
      ov := ov + 1;
    }
    var m, ou := 4 - n, 0;
    while u[ou + 1] == 0
      invariant 0 <= m && ou + m + n == 4
      invariant u[..] == us && v[..] == vs
      invariant forall i :: 0 <= i <= ou ==> u[i] == 0
      decreases m
    {
      EnoughDigits(us, vs, ou, n);
      m, ou := m - 1, ou + 1;
    }
    assert u[1..5] == us[1..5] && v[1..5] == vs[1..5];
    var q, rem := LongDivide(u, ou, v, ov, m, n, wantRem);
    r := Quotient(q, rem);
  }
}
