/**
 What each conversion of the printer prints, for every string of modifiers,
 every argument and whatever follows it in the format. The properties are
 stated over the format and the arguments alone: numerals are characterised by
 their value and the absence of leading zeros, and the modifiers by which
 characters they contain.
 */
module Conversions {

  import opened KernLib
  import opened Printf
  import opened Atoi

  // ------------------------------------------------------------------
  // Numerals

  /** The text writes v in the base, without leading zeros. */
  ghost predicate Writes(text: string, v: nat, base: nat) {
    && text != "" && (|text| > 1 ==> text[0] != '0')
    && (forall i :: 0 <= i < |text| ==> DigitOf(text[i]) < base)
    && Value(text, base) == v
  }

  lemma NumeralWrites(n: nat, base: nat)
    requires IsBase(base)
    ensures Writes(Numeral(n, base), n, base)
  {
    NumeralMeans(n, base);
    NumeralShape(n, base);
  }

  /** A text that starts with a digit other than 0 has a positive value. */
  lemma {:induction false} ValuePositive(text: string, base: nat)
    requires text != "" && DigitOf(text[0]) > 0 && base > 0
    ensures Value(text, base) > 0
  {
    var t := text[..|text| - 1];
    if t != "" {
      ValuePositive(t, base);
    }
  }

  lemma DivideBack(q: nat, d: nat, base: nat)
    requires IsBase(base) && d < base
    ensures Quotient(q * base + d, base) == q && Remainder(q * base + d, base) == d
  {
  }

  lemma DigitBack(c: char, base: nat)
    requires IsBase(base) && DigitOf(c) < base
    ensures [c] == Numeral(DigitOf(c), base)
  {
  }

  lemma NumeralGrows(q: nat, c: char, base: nat)
    requires IsBase(base) && DigitOf(c) < base && q > 0
    ensures Numeral(q * base + DigitOf(c), base) == Numeral(q, base) + [c]
  {
    DivideBack(q, DigitOf(c), base);
    DigitBack(c, base);
    assert q * base >= base;
  }

  lemma WritesInit(text: string, v: nat, base: nat)
    requires IsBase(base) && Writes(text, v, base) && |text| > 1
    ensures var t, c := text[..|text| - 1], text[|text| - 1];
      && Writes(t, Value(t, base), base) && DigitOf(c) < base
      && Numeral(v, base) == Numeral(Value(t, base), base) + [c]
  {
    var t, c := text[..|text| - 1], text[|text| - 1];
    assert t[0] == text[0] && DigitOf(text[0]) < base;
    ValuePositive(t, base);
    NumeralGrows(Value(t, base), c, base);
  }

  lemma WritesDigit(c: char, v: nat, base: nat)
    requires IsBase(base) && Writes([c], v, base)
    ensures [c] == Numeral(v, base)
  {
    assert Value([c][..0], base) == 0;
    assert [c][0] == c;
    DigitBack(c, base);
  }

  /** There is only one such text. */
  lemma {:induction false} WritesOnce(text: string, v: nat, base: nat)
    requires IsBase(base) && Writes(text, v, base)
    ensures text == Numeral(v, base)
  {
    var t, c := text[..|text| - 1], text[|text| - 1];
    assert text == t + [c];
    if |text| == 1 {
      WritesDigit(c, v, base);
    } else {
      WritesInit(text, v, base);
      WritesOnce(t, Value(t, base), base);
    }
  }

  // ------------------------------------------------------------------
  // Modifiers

  /** The digits among the modifiers: a flag 0 and the width. */
  ghost function DigitsIn(s: string): string {
    if s == "" then "" else DigitsIn(s[..|s| - 1]) + (if IsDigit(s[|s| - 1]) then [s[|s| - 1]] else "")
  }

  /** How many l there are after the last z. */
  ghost function FinalLs(s: string): nat {
    if s == "" || s[|s| - 1] == 'z' then 0 else FinalLs(s[..|s| - 1]) + (if s[|s| - 1] == 'l' then 1 else 0)
  }

  /** A second l makes the argument a long long, a third a long again. */
  ghost predicate IsLonglong(s: string) { FinalLs(s) > 0 && FinalLs(s) % 2 == 0 }

  /** Integer arguments are read modulo this. */
  ghost function Modulus(s: string): nat { if IsLonglong(s) then QUAD else WORD }

  ghost predicate ZeroFill(s: string) { DigitsIn(s) != "" && DigitsIn(s)[0] == '0' }

  /** A field with these modifiers: prefix and text, padded. */
  ghost function Laid(s: string, prefix: string, text: string): string {
    Padded(prefix, text, Value(DigitsIn(s), 10), '-' in s, if ZeroFill(s) then '0' else ' ')
  }

  ghost predicate DescribedBy(f: Field, s: string) {
    && f.inPct && (f.altformat <==> '#' in s) && (f.rightspc <==> '-' in s)
    && f.spacing == Value(DigitsIn(s), 10) && f.fillchar == (if ZeroFill(s) then '0' else ' ')
    && (f.size.LlongSz? <==> IsLonglong(s)) && (f.size.LongSz? <==> FinalLs(s) % 2 == 1)
  }

  lemma {:induction false} AllDigits(s: string)
    ensures forall i :: 0 <= i < |DigitsIn(s)| ==> IsDigit(DigitsIn(s)[i])
  {
    if s != "" {
      AllDigits(s[..|s| - 1]);
    }
  }

  /** One more digit. */
  lemma DigitDescribed(f: Field, s: string, c: char)
    requires DescribedBy(f, s) && IsDigit(c)
    ensures DescribedBy(Modify(f, c), s + [c])
  {
    var t, digits := s + [c], DigitsIn(s);
    assert t[..|s|] == s && DigitsIn(t) == digits + [c];
    ValueAppend(digits, c, 10);
    AllDigits(s);
    if digits != "" {
      assert DigitsIn(t)[0] == digits[0] && IsDigit(digits[0]);
      if digits[0] != '0' {
        ValuePositive(digits, 10);
      }
    }
    assert '#' in t <==> '#' in s;
    assert '-' in t <==> '-' in s;
  }

  /** One more modifier that is no digit. */
  lemma FlagDescribed(f: Field, s: string, c: char)
    requires DescribedBy(f, s) && IsModifier(c) && !IsDigit(c)
    ensures DescribedBy(Modify(f, c), s + [c])
  {
    var t := s + [c];
    assert t[..|s|] == s && t[|s|] == c && DigitsIn(t) == DigitsIn(s);
    assert '#' in t <==> '#' in s || c == '#';
    assert '-' in t <==> '-' in s || c == '-';
  }

  /** Modifiers in any order and number. */
  lemma {:induction false} ModifiersMean(s: string)
    requires Modifiers(s)
    ensures DescribedBy(FieldAfter(START.(inPct := true), s), s)
  {
    if s != "" {
      var t, c := s[..|s| - 1], s[|s| - 1];
      ModifiersMean(t);
      assert s == t + [c];
      if IsDigit(c) {
        DigitDescribed(FieldAfter(START.(inPct := true), t), t, c);
      } else {
        FlagDescribed(FieldAfter(START.(inPct := true), t), t, c);
      }
    }
  }

  // ------------------------------------------------------------------
  // Conversions

  /** A conversion with its modifiers, and the rest of the format. */
  function Conversion(s: string, ch: char, rest: string): string { ['%'] + (s + ([ch] + rest)) }

  /** It prints its own text, then the rest with the arguments that are left. */
  lemma ConversionReads(s: string, ch: char, rest: string, i: nat, args: nat -> Arg)
    requires Modifiers(s) && !IsModifier(ch)
    ensures var f := FieldAfter(START.(inPct := true), s);
      && DescribedBy(f, s)
      && Rendered(START, i, Conversion(s, ch, rest), args)
         == Printed(f, ch, args(i)) + Rendered(START, i + Takes(f, ch), rest, args)
  {
    var f0 := START.(inPct := true);
    var f := FieldAfter(f0, s);
    ModifiersMean(s);
    RenderedCons(START, i, '%', s + ([ch] + rest), args);
    assert Rendered(START, i, Conversion(s, ch, rest), args) == Rendered(f0, i, s + ([ch] + rest), args);
    ModifiersRead(f0, i, s, [ch] + rest, args);
    RenderedCons(f, i, ch, rest, args);
  }

  /** An unsigned conversion in state f. */
  lemma UnsignedPrinted(f: Field, s: string, ch: char, num: int, prefix: string, n: nat, base: nat)
    requires DescribedBy(f, s) && IsInteger(ch) && ch != 'd' && base == Base(ch)
    requires n == num % (if ch == 'p' then WORD else Modulus(s)) && prefix == Prefix(f, ch, n)
    ensures IsBase(base)
    ensures forall arg: Arg :: arg.num == num ==> Printed(f, ch, arg) == Laid(s, prefix, Numeral(n, base))
  {
    assert Number(f, ch, num) == n;
  }

  /** %x: the argument in base 16, with 0x before it if there is a #. */
  lemma HexPrints(s: string, rest: string, i: nat, args: nat -> Arg) returns (digits: string)
    requires Modifiers(s)
    ensures Writes(digits, args(i).num % Modulus(s), 16)
    ensures Rendered(START, i, Conversion(s, 'x', rest), args)
         == Laid(s, if '#' in s then "0x" else "", digits) + Rendered(START, i + 1, rest, args)
  {
    var n := args(i).num % Modulus(s);
    digits := Numeral(n, 16);
    NumeralWrites(n, 16);
    ConversionReads(s, 'x', rest, i, args);
    UnsignedPrinted(FieldAfter(START.(inPct := true), s), s, 'x', args(i).num, if '#' in s then "0x" else "", n, 16);
  }

  /** %o: the argument in base 8, with 0 before it if there is a #. */
  lemma OctalPrints(s: string, rest: string, i: nat, args: nat -> Arg) returns (digits: string)
    requires Modifiers(s)
    ensures Writes(digits, args(i).num % Modulus(s), 8)
    ensures Rendered(START, i, Conversion(s, 'o', rest), args)
         == Laid(s, if '#' in s then "0" else "", digits) + Rendered(START, i + 1, rest, args)
  {
    var n := args(i).num % Modulus(s);
    digits := Numeral(n, 8);
    NumeralWrites(n, 8);
    ConversionReads(s, 'o', rest, i, args);
    UnsignedPrinted(FieldAfter(START.(inPct := true), s), s, 'o', args(i).num, if '#' in s then "0" else "", n, 8);
  }

  /** %u: the argument in base 10, never with a prefix. */
  lemma UnsignedPrints(s: string, rest: string, i: nat, args: nat -> Arg) returns (digits: string)
    requires Modifiers(s)
    ensures Writes(digits, args(i).num % Modulus(s), 10)
    ensures Rendered(START, i, Conversion(s, 'u', rest), args)
         == Laid(s, "", digits) + Rendered(START, i + 1, rest, args)
  {
    var n := args(i).num % Modulus(s);
    digits := Numeral(n, 10);
    NumeralWrites(n, 10);
    ConversionReads(s, 'u', rest, i, args);
    UnsignedPrinted(FieldAfter(START.(inPct := true), s), s, 'u', args(i).num, "", n, 10);
  }

  /** %p: the address in base 16 after 0x. */
  lemma PointerPrints(s: string, rest: string, i: nat, args: nat -> Arg) returns (digits: string)
    requires Modifiers(s)
    ensures Writes(digits, args(i).num % WORD, 16)
    ensures Rendered(START, i, Conversion(s, 'p', rest), args)
         == Laid(s, "0x", digits) + Rendered(START, i + 1, rest, args)
  {
    var n := args(i).num % WORD;
    digits := Numeral(n, 16);
    NumeralWrites(n, 16);
    ConversionReads(s, 'p', rest, i, args);
    UnsignedPrinted(FieldAfter(START.(inPct := true), s), s, 'p', args(i).num, "0x", n, 16);
  }

  lemma SignedAgrees(num: int, size: Size, m: nat)
    requires m == if size.LlongSz? then QUAD else WORD
    ensures -(m / 2) <= ReadSigned(num, size) < m / 2 && (ReadSigned(num, size) - num) % m == 0
  {
  }

  lemma SignedPrinted(f: Field, s: string, arg: Arg, n: int)
    requires DescribedBy(f, s) && n == ReadSigned(arg.num, f.size)
    ensures Printed(f, 'd', arg) == Laid(s, if n < 0 then "-" else "", Numeral(Magnitude(n), 10))
  {
    assert Prefix(f, 'd', n) == if n < 0 then "-" else "";
  }

  /** %d: the signed number that agrees with the argument modulo 2^32 or 2^64. */
  lemma SignedPrints(s: string, rest: string, i: nat, args: nat -> Arg) returns (n: int, digits: string)
    requires Modifiers(s)
    ensures -(Modulus(s) / 2) <= n < Modulus(s) / 2 && (n - args(i).num) % Modulus(s) == 0
    ensures Writes(digits, if n < 0 then -n else n, 10)
    ensures Rendered(START, i, Conversion(s, 'd', rest), args)
         == Laid(s, if n < 0 then "-" else "", digits) + Rendered(START, i + 1, rest, args)
  {
    var f := FieldAfter(START.(inPct := true), s);
    n := ReadSigned(args(i).num, f.size);
    digits := Numeral(Magnitude(n), 10);
    NumeralWrites(Magnitude(n), 10);
    ConversionReads(s, 'd', rest, i, args);
    SignedPrinted(f, s, args(i), n);
    SignedAgrees(args(i).num, f.size, Modulus(s));
  }

  /** %s: the string, or (null). */
  lemma StringPrints(s: string, rest: string, i: nat, args: nat -> Arg)
    requires Modifiers(s)
    ensures Rendered(START, i, Conversion(s, 's', rest), args)
         == Laid(s, "", if args(i).str.Some? then args(i).str.value else "(null)")
            + Rendered(START, i + 1, rest, args)
  {
    ConversionReads(s, 's', rest, i, args);
  }

  /** %c: the character; NUL ends the text before it. */
  lemma CharPrints(s: string, rest: string, i: nat, args: nat -> Arg)
    requires Modifiers(s)
    ensures Rendered(START, i, Conversion(s, 'c', rest), args)
         == Laid(s, "", if args(i).num % 256 == 0 then "" else [(args(i).num % 256) as char])
            + Rendered(START, i + 1, rest, args)
  {
    ConversionReads(s, 'c', rest, i, args);
  }

  /** %% and every letter that is no conversion: the character itself, and no
      argument is used. */
  lemma OtherPrints(s: string, ch: char, rest: string, i: nat, args: nat -> Arg)
    requires Modifiers(s) && !IsModifier(ch) && ch !in "doupxsc"
    ensures Rendered(START, i, Conversion(s, ch, rest), args) == Laid(s, "", [ch]) + Rendered(START, i, rest, args)
  {
    assert "doupxsc"[0] == 'd' && "doupxsc"[1] == 'o' && "doupxsc"[2] == 'u' && "doupxsc"[3] == 'p';
    assert "doupxsc"[4] == 'x' && "doupxsc"[5] == 's' && "doupxsc"[6] == 'c';
    ConversionReads(s, ch, rest, i, args);
  }

  /** Text without a % prints itself. */
  lemma {:induction false} PlainPrints(text: string, rest: string, i: nat, args: nat -> Arg)
    requires '%' !in text
    ensures Rendered(START, i, text + rest, args) == text + Rendered(START, i, rest, args)
  {
    if text == "" {
      assert text + rest == rest;
    } else {
      assert text + rest == [text[0]] + (text[1..] + rest);
      RenderedCons(START, i, text[0], text[1..] + rest, args);
      PlainPrints(text[1..], rest, i, args);
      assert text == [text[0]] + text[1..];
    }
  }

  /** Without modifiers a field is its prefix and its text. */
  lemma LaidBare(prefix: string, text: string)
    ensures Laid("", prefix, text) == prefix + text
  {
  }

  /** Of two conversions the second reads the second argument. */
  lemma TwoConversions(s1: string, text: string, s2: string, args: nat -> Arg) returns (first: string, second: string)
    requires Modifiers(s1) && Modifiers(s2) && '%' !in text
    ensures Writes(first, args(0).num % Modulus(s1), 16) && Writes(second, args(1).num % Modulus(s2), 10)
    ensures Rendered(START, 0, Conversion(s1, 'x', text + Conversion(s2, 'u', "")), args)
         == Laid(s1, if '#' in s1 then "0x" else "", first) + (text + Laid(s2, "", second))
  {
    var last := Conversion(s2, 'u', "");
    first := HexPrints(s1, text + last, 0, args);
    PlainPrints(text, last, 1, args);
    second := UnsignedPrints(s2, "", 1, args);
    assert Laid(s2, "", second) + "" == Laid(s2, "", second);
  }

  /** So 255 in hexadecimal is ff. */
  lemma Hex255(text: string)
    requires Writes(text, 255, 16)
    ensures text == "ff"
  {
    WritesOnce(text, 255, 16);
    DigitBack('f', 16);
    NumeralGrows(15, 'f', 16);
  }

  /** %x alone prints the digits and nothing else. */
  lemma BareHex(args: nat -> Arg) returns (digits: string)
    ensures Writes(digits, args(0).num % WORD, 16) && Rendered(START, 0, Conversion("", 'x', ""), args) == digits
  {
    digits := HexPrints("", "", 0, args);
    LaidBare("", digits);
    assert Rendered(START, 1, "", args) == "";
    assert "" + digits + "" == digits;
  }
}
