/**
 atoi (common/libc/stdlib/atoi.c), and its relation to the printer: parsing
 undoes %d printing.
 */
module Atoi {

  import opened KernLib
  import opened Printf

  predicate IsDigit(c: char) { '0' <= c <= '9' }

  predicate IsBlank(c: char) { c == ' ' || c == '\t' }

  /** The accumulator after the leading digits of s, on 32-bit unsigned. */
  function Accumulate(s: string, val: nat): nat
    decreases |s|
  {
    if s == "" || !IsDigit(s[0]) then val else Accumulate(s[1..], (val * 10 + DigitOf(s[0])) % WORD)
  }

  function SkipBlanks(s: string): string
    decreases |s|
  {
    if s != "" && IsBlank(s[0]) then SkipBlanks(s[1..]) else s
  }

  /** What atoi returns. */
  function Parsed(s: string): int {
    var t := SkipBlanks(s);
    if t != "" && t[0] == '-' then ReadSigned(-(Accumulate(t[1..], 0) as int), IntSz)
    else if t != "" && t[0] == '+' then ReadSigned(Accumulate(t[1..], 0), IntSz)
    else ReadSigned(Accumulate(t, 0), IntSz)
  }

  /** The loops of atoi; the string ends at its first NUL. */
  method Parse(s: string) returns (r: int)
    ensures r == Parsed(s)
  {
    var i := 0;
    while i < |s| && IsBlank(s[i])
      invariant i <= |s| && SkipBlanks(s[i..]) == SkipBlanks(s)
    {
      assert s[i..][1..] == s[i + 1..];
      i := i + 1;
    }
    ghost var t := s[i..];
    assert t == SkipBlanks(s);
    var neg := false;
    if i < |s| && s[i] == '-' {
      neg := true;
      i := i + 1;
    } else if i < |s| && s[i] == '+' {
      i := i + 1;
    }
    var val := AccumulateLoop(s, i);
    r := if neg then ReadSigned(-(val as int), IntSz) else ReadSigned(val, IntSz);
  }

  method AccumulateLoop(s: string, start: nat) returns (val: nat)
    requires start <= |s|
    ensures val == Accumulate(s[start..], 0)
  {
    val := 0;
    var i := start;
    while i < |s| && IsDigit(s[i])
      invariant i <= |s| && Accumulate(s[i..], val) == Accumulate(s[start..], 0)
    {
      assert s[i..][1..] == s[i + 1..];
      val := (val * 10 + DigitOf(s[i])) % WORD;
      i := i + 1;
    }
  }

  // ------------------------------------------------------------------
  // What atoi returns

  /** The four parts of any string, as atoi sees them. */
  ghost predicate Parts(blanks: string, sign: string, digits: string, rest: string) {
    && (forall i :: 0 <= i < |blanks| ==> IsBlank(blanks[i])) && (sign == "" || sign == "+" || sign == "-")
    && (forall i :: 0 <= i < |digits| ==> IsDigit(digits[i])) && (rest != "" ==> !IsDigit(rest[0]))
    && (sign == "" && digits == "" && rest != "" ==> !IsBlank(rest[0]) && rest[0] != '+' && rest[0] != '-')
  }

  lemma {:induction false} TakeBlanks(s: string) returns (blanks: string, t: string)
    ensures s == blanks + t && (forall i :: 0 <= i < |blanks| ==> IsBlank(blanks[i])) && (t != "" ==> !IsBlank(t[0]))
  {
    if s != "" && IsBlank(s[0]) {
      blanks, t := TakeBlanks(s[1..]);
      blanks := [s[0]] + blanks;
    } else {
      blanks, t := "", s;
    }
  }

  lemma {:induction false} TakeDigits(s: string) returns (digits: string, rest: string)
    ensures s == digits + rest && (forall i :: 0 <= i < |digits| ==> IsDigit(digits[i]))
    ensures rest != "" ==> !IsDigit(rest[0])
  {
    if s != "" && IsDigit(s[0]) {
      digits, rest := TakeDigits(s[1..]);
      digits := [s[0]] + digits;
    } else {
      digits, rest := "", s;
    }
  }

  /** Every string has them. */
  lemma TakeApart(s: string) returns (blanks: string, sign: string, digits: string, rest: string)
    ensures Parts(blanks, sign, digits, rest) && s == blanks + (sign + (digits + rest))
  {
    var t: string;
    blanks, t := TakeBlanks(s);
    sign := if t != "" && (t[0] == '+' || t[0] == '-') then [t[0]] else "";
    digits, rest := TakeDigits(t[|sign|..]);
    assert t == sign + t[|sign|..];
  }

  lemma {:induction false} SkipAll(blanks: string, t: string)
    requires (forall i :: 0 <= i < |blanks| ==> IsBlank(blanks[i])) && (t != "" ==> !IsBlank(t[0]))
    ensures SkipBlanks(blanks + t) == t
  {
    if blanks == "" {
      assert blanks + t == t;
    } else {
      assert (blanks + t)[1..] == blanks[1..] + t;
      SkipAll(blanks[1..], t);
    }
  }

  lemma {:induction false} AccumulateValue(digits: string, rest: string)
    requires forall i :: 0 <= i < |digits| ==> IsDigit(digits[i])
    ensures Accumulate(digits + rest, 0) == Accumulate(rest, Value(digits, 10) % WORD)
    decreases |digits|
  {
    if digits == "" {
      assert digits + rest == rest;
    } else {
      var t, c := digits[..|digits| - 1], digits[|digits| - 1];
      assert digits + rest == t + ([c] + rest);
      AccumulateValue(t, [c] + rest);
      AccumulateCons(c, rest, Value(t, 10) % WORD);
      ModStep(Value(t, 10), DigitOf(c));
    }
  }

  lemma Wraps(v: nat, n: int)
    ensures IsInt(ReadSigned(n, IntSz)) && (ReadSigned(n, IntSz) - n) % WORD == 0
    ensures (ReadSigned(v % WORD, IntSz) - v) % WORD == 0 && (ReadSigned(-(v % WORD), IntSz) + v) % WORD == 0
  {
  }

  /** What follows the blanks. */
  lemma ParsedAfter(s: string, sign: string, body: string)
    requires SkipBlanks(s) == sign + body && (sign == "" || sign == "+" || sign == "-")
    requires sign == "" && body != "" ==> body[0] != '+' && body[0] != '-'
    ensures var v := Accumulate(body, 0); Parsed(s) == ReadSigned(if sign == "-" then -(v as int) else v, IntSz)
  {
    var t := SkipBlanks(s);
    if sign == "" {
      assert t == body;
    } else {
      assert t[0] == sign[0] && t[1..] == body;
    }
  }

  /** What any string is worth: the value of its digits, negative after a minus,
      modulo 2^32. A plus, blanks and tabs before it and anything after it do
      not matter. */
  lemma ParsedMeans(blanks: string, sign: string, digits: string, rest: string)
    requires Parts(blanks, sign, digits, rest)
    ensures var s, v := blanks + (sign + (digits + rest)), Value(digits, 10);
      IsInt(Parsed(s)) && (if sign == "-" then Parsed(s) + v else Parsed(s) - v) % WORD == 0
  {
    var t, v := sign + (digits + rest), Value(digits, 10);
    SkipAll(blanks, t);
    AccumulateValue(digits, rest);
    ParsedAfter(blanks + t, sign, digits + rest);
    Wraps(v, if sign == "-" then -(v % WORD) else v % WORD);
  }

  // ------------------------------------------------------------------
  // What %d prints

  predicate IsInt(n: int) { -WORD / 2 <= n < WORD / 2 }

  /** Flags - and 0 and a width, as they stand in a format. */
  function Flags(left: bool, zero: bool, width: nat): string {
    (if left then "-" else "") + (if zero then "0" else "") + (if width > 0 then Numeral(width, 10) else "")
  }

  /** The format %d with optional flags - and 0 and a width. */
  function Directive(left: bool, zero: bool, width: nat): string { ['%'] + (Flags(left, zero, width) + "d") }

  /** The text it should print. */
  function IntText(n: int, left: bool, zero: bool, width: nat): string {
    Padded(if n < 0 then "-" else "", Numeral(Magnitude(n), 10), width, left, if zero then '0' else ' ')
  }

  ghost predicate Modifiers(s: string) { forall i :: 0 <= i < |s| ==> IsModifier(s[i]) }

  /** The state after reading modifiers. */
  ghost function FieldAfter(f: Field, s: string): Field
    requires Modifiers(s)
  {
    if s == "" then f else Modify(FieldAfter(f, s[..|s| - 1]), s[|s| - 1])
  }

  lemma FieldAfterNext(f: Field, s: string, c: char)
    requires Modifiers(s) && IsModifier(c)
    ensures Modifiers(s + [c]) && FieldAfter(f, s + [c]) == Modify(FieldAfter(f, s), c)
  {
    assert (s + [c])[..|s|] == s;
  }

  lemma {:induction false} FieldAfterJoin(f: Field, s: string, t: string)
    requires Modifiers(s) && Modifiers(t)
    ensures Modifiers(s + t) && FieldAfter(f, s + t) == FieldAfter(FieldAfter(f, s), t)
    decreases |t|
  {
    if t == "" {
      assert s + t == s;
    } else {
      var t2, c := t[..|t| - 1], t[|t| - 1];
      FieldAfterJoin(f, s, t2);
      FieldAfterNext(f, s + t2, c);
      assert s + t2 + [c] == s + t;
    }
  }

  /** A reader that treats one modifier as a change of state treats any number
      of them so. */
  lemma {:induction false} ModifiersFold(r: (Field, string) -> string, f: Field, s: string, rest: string)
    requires forall g: Field, c, t {:trigger r(g, [c] + t)} :: g.inPct && IsModifier(c) ==>
      r(g, [c] + t) == r(Modify(g, c), t)
    requires f.inPct && Modifiers(s)
    ensures FieldAfter(f, s).inPct && r(f, s + rest) == r(FieldAfter(f, s), rest)
    decreases |s|
  {
    if s == "" {
      assert s + rest == rest;
    } else {
      var s2, c := s[..|s| - 1], s[|s| - 1];
      ModifiersFold(r, f, s2, [c] + rest);
      var g := FieldAfter(f, s2);
      assert r(g, [c] + rest) == r(Modify(g, c), rest);
      assert s + rest == s2 + ([c] + rest);
    }
  }

  /** Modifiers print nothing and only change the state. */
  lemma ModifiersRead(f: Field, i: nat, s: string, rest: string, args: nat -> Arg)
    requires f.inPct && Modifiers(s)
    ensures FieldAfter(f, s).inPct && Rendered(f, i, s + rest, args) == Rendered(FieldAfter(f, s), i, rest, args)
  {
    var r := (g: Field, t: string) => Rendered(g, i, t, args);
    forall g: Field, c, t | g.inPct && IsModifier(c) ensures r(g, [c] + t) == r(Modify(g, c), t) {
      ModifierRead(g, i, c, t, args);
    }
    ModifiersFold(r, f, s, rest);
  }

  lemma ModifierRead(f: Field, i: nat, c: char, rest: string, args: nat -> Arg)
    requires f.inPct && IsModifier(c)
    ensures Rendered(f, i, [c] + rest, args) == Rendered(Modify(f, c), i, rest, args)
  {
    RenderedCons(f, i, c, rest, args);
    assert Printed(f, c, args(i)) == "";
  }

  lemma NumeralIsModifiers(w: nat)
    ensures Modifiers(Numeral(w, 10))
  {
    NumeralShape(w, 10);
  }

  lemma WidthDigit(f: Field, s: string, d: nat)
    requires Modifiers(s) && d < 10 && (d > 0 || FieldAfter(f, s).spacing > 0)
    ensures Modifiers(s + [DIGITS[d]])
    ensures FieldAfter(f, s + [DIGITS[d]]) == FieldAfter(f, s).(spacing := FieldAfter(f, s).spacing * 10 + d)
  {
    DigitRoundTrip(d);
    FieldAfterNext(f, s, DIGITS[d]);
  }

  /** Reading the digits of a width leaves that width. */
  lemma {:induction false} WidthRead(f: Field, w: nat)
    requires f.spacing == 0 && w > 0
    ensures Modifiers(Numeral(w, 10)) && FieldAfter(f, Numeral(w, 10)) == f.(spacing := w)
    decreases w
  {
    NumeralIsModifiers(w);
    if w < 10 {
      WidthDigit(f, "", w);
      assert "" + [DIGITS[w]] == Numeral(w, 10);
    } else {
      var q := Quotient(w, 10);
      WidthRead(f, q);
      WidthDigit(f, Numeral(q, 10), Remainder(w, 10));
    }
  }

  lemma FlagsRead(left: bool, zero: bool, width: nat)
    ensures Modifiers(Flags(left, zero, width))
    ensures FieldAfter(START.(inPct := true), Flags(left, zero, width))
         == Field(true, IntSz, width, left, if zero then '0' else ' ', false)
  {
    var f0 := START.(inPct := true);
    var s1, s2, s3 := if left then "-" else "", if zero then "0" else "", if width > 0 then Numeral(width, 10) else "";
    FieldAfterNext(f0, "", '-');
    var f1 := FieldAfter(f0, s1);
    FieldAfterNext(f1, "", '0');
    FieldAfterJoin(f0, s1, s2);
    if width > 0 { WidthRead(FieldAfter(f1, s2), width); }
    FieldAfterJoin(f0, s1 + s2, s3);
  }

  lemma ConversionRead(f: Field, n: int, args: nat -> Arg)
    requires IsInt(n) && args(0).num == n && f.inPct && f.size == IntSz && !f.altformat
    ensures Rendered(f, 0, "d", args)
         == Padded(if n < 0 then "-" else "", Numeral(Magnitude(n), 10), f.spacing, f.rightspc, f.fillchar)
  {
    assert "d" == ['d'] + "";
    RenderedCons(f, 0, 'd', "", args);
    IntPrinted(f, n, args(0));
  }

  lemma IntPrinted(f: Field, n: int, arg: Arg)
    requires IsInt(n) && arg.num == n && f.inPct && f.size == IntSz && !f.altformat
    ensures Printed(f, 'd', arg)
         == Padded(if n < 0 then "-" else "", Numeral(Magnitude(n), 10), f.spacing, f.rightspc, f.fillchar)
  {
    ReadInt(n);
    PrefixOfInt(f, n);
  }

  lemma ReadInt(n: int)
    requires IsInt(n)
    ensures ReadSigned(n, IntSz) == n
  {
  }

  lemma PrefixOfInt(f: Field, n: int)
    requires !f.altformat
    ensures Prefix(f, 'd', n) == if n < 0 then "-" else ""
  {
  }

  /** printf of the directive prints the text. */
  lemma DirectivePrints(n: int, left: bool, zero: bool, width: nat, args: nat -> Arg)
    requires IsInt(n) && args(0).num == n
    ensures Rendered(START, 0, Directive(left, zero, width), args) == IntText(n, left, zero, width)
  {
    var f := START.(inPct := true);
    RenderedCons(START, 0, '%', Flags(left, zero, width) + "d", args);
    FlagsRead(left, zero, width);
    ModifiersRead(f, 0, Flags(left, zero, width), "d", args);
    ConversionRead(FieldAfter(f, Flags(left, zero, width)), n, args);
  }

  // ------------------------------------------------------------------
  // Parsing what was printed

  lemma AccumulateCons(c: char, rest: string, val: nat)
    requires IsDigit(c)
    ensures Accumulate([c] + rest, val) == Accumulate(rest, (val * 10 + DigitOf(c)) % WORD)
  {
    assert ([c] + rest)[1..] == rest;
  }

  lemma AccumulateDigit(d: nat, rest: string, val: nat)
    requires d < 10
    ensures Accumulate([DIGITS[d]] + rest, val) == Accumulate(rest, (val * 10 + d) % WORD)
  {
    DigitRoundTrip(d);
    AccumulateCons(DIGITS[d], rest, val);
  }

  lemma ModStep(q: nat, d: nat)
    ensures (q % WORD * 10 + d) % WORD == (q * 10 + d) % WORD
  {
  }

  /** The digits of m leave m, and parsing goes on from there. */
  lemma {:induction false} AccumulateNumeral(m: nat, rest: string)
    ensures Accumulate(Numeral(m, 10) + rest, 0) == Accumulate(rest, m % WORD)
    decreases m
  {
    if m < 10 {
      AccumulateDigit(m, rest, 0);
    } else {
      var q, d := Quotient(m, 10), Remainder(m, 10);
      var more := [DIGITS[d]] + rest;
      assert Numeral(m, 10) + rest == Numeral(q, 10) + more;
      AccumulateNumeral(q, more);
      AccumulateDigit(d, rest, q % WORD);
      ModStep(q, d);
    }
  }

  lemma {:induction false} AccumulateZeros(k: nat, rest: string)
    ensures Accumulate(Repeat('0', k) + rest, 0) == Accumulate(rest, 0)
  {
    if k == 0 {
      assert Repeat('0', 0) + rest == rest;
    } else {
      AccumulateZeros(k - 1, rest);
      assert Repeat('0', k) + rest == ['0'] + (Repeat('0', k - 1) + rest);
      AccumulateCons('0', Repeat('0', k - 1) + rest, 0);
    }
  }

  /** Zeros after a number multiply it. */
  lemma {:induction false} AccumulateMoreZeros(k: nat, val: nat)
    requires val < WORD
    ensures Accumulate(Repeat('0', k), val) == val * Power(10, k) % WORD
  {
    if k > 0 {
      assert Repeat('0', k) == ['0'] + Repeat('0', k - 1);
      AccumulateCons('0', Repeat('0', k - 1), val);
      AccumulateMoreZeros(k - 1, val * 10 % WORD);
      MulMod(val * 10, Power(10, k - 1));
      Shift(val, Power(10, k - 1));
    }
  }

  lemma Shift(val: nat, p: nat)
    ensures val * 10 * p == val * (10 * p)
  {
  }

  lemma MulMod(x: nat, p: nat)
    ensures x % WORD * p % WORD == x * p % WORD
  {
    var c, r := x / WORD, x % WORD;
    assert x * p == c * p * WORD + r * p by {
      assert (c * WORD + r) * p == c * WORD * p + r * p;
    }
    AddMultiple(r * p, c * p);
  }

  lemma AddMultiple(r: nat, c: nat)
    ensures (c * WORD + r) % WORD == r % WORD
  {
  }

  lemma {:induction false} SkipSpaces(k: nat, rest: string)
    ensures SkipBlanks(Repeat(' ', k) + rest) == SkipBlanks(rest)
  {
    if k == 0 {
      assert Repeat(' ', 0) + rest == rest;
    } else {
      SkipSpaces(k - 1, rest);
      assert (Repeat(' ', k) + rest)[1..] == Repeat(' ', k - 1) + rest;
    }
  }

  /** The value of the text after the sign. */
  lemma SignedParse(n: int, digits: string)
    requires digits != "" && IsDigit(digits[0])
    ensures Parsed((if n < 0 then "-" else "") + digits)
         == ReadSigned(if n < 0 then -(Accumulate(digits, 0) as int) else Accumulate(digits, 0), IntSz)
  {
    var s := (if n < 0 then "-" else "") + digits;
    assert SkipBlanks(s) == s;
    if n < 0 {
      assert s[1..] == digits;
    } else {
      assert s == digits;
    }
  }

  function Sign(n: int): string { if n < 0 then "-" else "" }

  /** The four ways a field can look, for k fill characters. */
  lemma PaddedForms(sign: string, num: string, width: nat, k: nat)
    requires k == if width > |sign| + |num| then width - |sign| - |num| else 0
    ensures Padded(sign, num, width, false, ' ') == Repeat(' ', k) + (sign + num)
    ensures Padded(sign, num, width, false, '0') == sign + (Repeat('0', k) + num)
    ensures Padded(sign, num, width, true, ' ') == sign + (num + Repeat(' ', k))
    ensures Padded(sign, num, width, true, '0') == sign + (num + Repeat('0', k))
  {
  }

  /** Leading blanks and leading zeros do not matter. */
  lemma ParseRightAligned(n: int, num: string, k: nat)
    requires IsInt(n) && ActsLike(num, Magnitude(n))
    ensures Parsed(Repeat(' ', k) + (Sign(n) + num)) == n && Parsed(Sign(n) + (Repeat('0', k) + num)) == n
  {
    ReadInt(n);
    assert num + "" == num;
    SignedParse(n, num);
    SkipSpaces(k, Sign(n) + num);
    AccumulateZeros(k, num);
    SignedParse(n, Repeat('0', k) + num);
  }

  /** Parsing stops at trailing blanks. */
  lemma ParseLeftAligned(n: int, num: string, k: nat)
    requires IsInt(n) && ActsLike(num, Magnitude(n))
    ensures Parsed(Sign(n) + (num + Repeat(' ', k))) == n
  {
    ReadInt(n);
    SignedParse(n, num + Repeat(' ', k));
  }

  /** Zeros on the right make the number k powers of ten larger, modulo 2^32. */
  lemma ParseRightZeros(n: int, num: string, k: nat)
    requires IsInt(n) && ActsLike(num, Magnitude(n))
    ensures Parsed(Sign(n) + (num + Repeat('0', k))) == n <==> k == 0 || n == 0
  {
    var v := Accumulate(Repeat('0', k), Magnitude(n));
    AccumulateMoreZeros(k, Magnitude(n));
    SignedParse(n, num + Repeat('0', k));
    RightZeros(n, k, v);
  }

  ghost function Two(k: nat): nat { if k == 0 then 1 else 2 * Two(k - 1) }

  lemma {:induction false} Two32()
    ensures Two(32) == WORD
  {
    assert Two(8) == 256;
    assert Two(16) == 256 * Two(8);
    assert Two(24) == 256 * Two(16);
    assert Two(32) == 256 * Two(24);
  }

  lemma HalfOfEven(a: nat, m: nat, x: nat) returns (h: nat)
    requires a % 2 == 1 && a * m == 2 * x
    ensures m == 2 * h && a * h == x
  {
    h := m / 2;
    var b := a / 2;
    assert a * m == 2 * (b * m) + m;
    assert a * (2 * h) == 2 * (a * h);
  }

  /** An odd factor does not help to reach a multiple of a power of two. */
  lemma {:induction false} OddFactor(a: nat, m: nat, k: nat, c: nat) returns (e: nat)
    requires a % 2 == 1 && a * m == c * Two(k)
    ensures m == e * Two(k)
    decreases k
  {
    if k == 0 {
      e := m;
    } else {
      assert c * Two(k) == 2 * (c * Two(k - 1));
      var h := HalfOfEven(a, m, c * Two(k - 1));
      e := OddFactor(a, h, k - 1, c);
      assert 2 * (e * Two(k - 1)) == e * Two(k);
    }
  }

  lemma {:induction false} PowerOfTen(k: nat)
    requires k > 0
    ensures Power(10, k) == 2 * (5 * Power(10, k - 1)) && Power(10, k - 1) > 0
  {
    if k > 1 {
      PowerOfTen(k - 1);
    }
  }

  /** m * 10^k is m again modulo 2^32 only for m = 0. */
  lemma OnlyZeroSurvives(m: nat, k: nat)
    requires m < WORD && k > 0 && m * Power(10, k) % WORD == m
    ensures m == 0
  {
    PowerOfTen(k);
    var c := FixedPoint(m, Power(10, k));
    Two32();
    var e := OddFactor(Power(10, k) - 1, m, 32, c);
  }

  lemma FixedPoint(m: nat, p: nat) returns (c: nat)
    requires p > 0 && m * p % WORD == m
    ensures (p - 1) * m == c * WORD
  {
    c := m * p / WORD;
    assert (p - 1) * m == m * p - m;
  }

  /**
   atoi undoes %d: for every int, at any width, with any of the flags, except
   when left alignment is combined with zero fill and there is something to
   fill; then only 0 comes back.
   */
  lemma RoundTrip(n: int, left: bool, zero: bool, width: nat, args: nat -> Arg)
    requires IsInt(n) && args(0).num == n
    ensures Parsed(Rendered(START, 0, Directive(left, zero, width), args)) == n
      <==> !(left && zero && width > |Sign(n)| + |Numeral(Magnitude(n), 10)|) || n == 0
  {
    DirectivePrints(n, left, zero, width, args);
    TextRoundTrip(n, left, zero, width);
  }

  /** The same for any text num whose digits accumulate to the magnitude. */
  lemma FieldRoundTrip(n: int, num: string, left: bool, zero: bool, width: nat, k: nat)
    requires IsInt(n) && ActsLike(num, Magnitude(n))
    requires k == if width > |Sign(n)| + |num| then width - |Sign(n)| - |num| else 0
    ensures Parsed(Padded(Sign(n), num, width, left, if zero then '0' else ' ')) == n <==>
      !(left && zero && k > 0) || n == 0
  {
    PaddedForms(Sign(n), num, width, k);
    if !left {
      ParseRightAligned(n, num, k);
    } else if !zero {
      ParseLeftAligned(n, num, k);
    } else {
      ParseRightZeros(n, num, k);
    }
  }

  /** Any text that starts with a digit and accumulates like the numeral. */
  ghost predicate ActsLike(num: string, m: nat) {
    && num != "" && IsDigit(num[0])
    && forall rest {:trigger num + rest} :: Accumulate(num + rest, 0) == Accumulate(rest, m)
  }

  lemma FirstDigit(m: nat)
    ensures Numeral(m, 10) != "" && IsDigit(Numeral(m, 10)[0])
  {
    NumeralShape(m, 10);
  }

  lemma AccumulateSmall(m: nat, num: string, rest: string)
    requires m < WORD && num == Numeral(m, 10)
    ensures Accumulate(num + rest, 0) == Accumulate(rest, m)
  {
    AccumulateNumeral(m, rest);
  }

  lemma NumeralActs(m: nat, num: string)
    requires m < WORD && num == Numeral(m, 10)
    ensures ActsLike(num, m)
  {
    FirstDigit(m);
    forall rest: string ensures Accumulate(num + rest, 0) == Accumulate(rest, m) {
      AccumulateSmall(m, num, rest);
    }
  }

  lemma TextRoundTrip(n: int, left: bool, zero: bool, width: nat)
    requires IsInt(n)
    ensures Parsed(IntText(n, left, zero, width)) == n
      <==> !(left && zero && width > |Sign(n)| + |Numeral(Magnitude(n), 10)|) || n == 0
  {
    var len := |Sign(n)| + |Numeral(Magnitude(n), 10)|;
    var k := if width > len then width - len else 0;
    var num := Numeral(Magnitude(n), 10);
    NumeralActs(Magnitude(n), num);
    FieldRoundTrip(n, num, left, zero, width, k);
  }

  lemma RightZeros(n: int, k: nat, v: nat)
    requires IsInt(n) && v == Magnitude(n) * Power(10, k) % WORD
    ensures ReadSigned(if n < 0 then -(v as int) else v, IntSz) == n <==> k == 0 || n == 0
  {
    var m := Magnitude(n);
    ReadInt(n);
    if k == 0 {
      assert m * Power(10, 0) == m;
    } else if n != 0 {
      if v == m {
        OnlyZeroSurvives(m, k);
      }
      SameResidue(v, m, n);
    }
  }

  lemma SameResidue(v: nat, m: nat, n: int)
    requires v < WORD && IsInt(n) && m == Magnitude(n) && v != m
    ensures ReadSigned(if n < 0 then -(v as int) else v, IntSz) != n
  {
  }
}
