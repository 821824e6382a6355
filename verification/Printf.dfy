/**
 The formatted printer of common/libc/printf: digits are produced right to left
 in a fixed buffer, fields are padded, and vsnprintf keeps the longest prefix
 that fits. Characters are Dafny chars; strings leave out their terminating NUL.
 */
module Printf {

  import opened KernLib

  const WORD := 0x1_0000_0000
  const QUAD := 0x1_0000_0000_0000_0000

  /** Bits of a long long at three per octal digit, a NUL and one for slop. */
  const NUMBER_BUF_SIZE := 64 / 3 + 2
  const DIGITS := "0123456789abcdef"

  predicate IsBase(base: nat) { base == 8 || base == 10 || base == 16 }

  // ------------------------------------------------------------------
  // Numerals

  /** n / base and n % base, for the three bases there are. */
  function Quotient(n: nat, base: nat): (q: nat)
    requires IsBase(base)
    ensures n > 0 ==> q < n
  {
    if base == 8 then n / 8 else if base == 10 then n / 10 else n / 16
  }

  function Remainder(n: nat, base: nat): (r: nat)
    requires IsBase(base)
    ensures r < base
  {
    if base == 8 then n % 8 else if base == 10 then n % 10 else n % 16
  }

  lemma DivisionIs(n: nat, base: nat)
    requires IsBase(base)
    ensures Quotient(n, base) == n / base && Remainder(n, base) == n % base
  {
  }

  /** The digits of n, most significant first. */
  function Numeral(n: nat, base: nat): string
    requires IsBase(base)
  {
    if n < base then [DIGITS[n]] else Numeral(Quotient(n, base), base) + [DIGITS[Remainder(n, base)]]
  }

  ghost function Power(base: nat, k: nat): nat { if k == 0 then 1 else base * Power(base, k - 1) }

  lemma {:induction false} NumeralLength(n: nat, base: nat, k: nat)
    requires IsBase(base) && k > 0 && n < Power(base, k)
    ensures 0 < |Numeral(n, base)| <= k
    decreases k
  {
    if n >= base {
      DivisionIs(n, base);
      assert n / base < Power(base, k - 1);
      NumeralLength(Quotient(n, base), base, k - 1);
    }
  }

  /** Any 64-bit value in base 8, 10 or 16 fits the buffer with its NUL. */
  lemma NumeralFits(n: nat, base: nat)
    requires IsBase(base) && n < QUAD
    ensures 0 < |Numeral(n, base)| < NUMBER_BUF_SIZE
  {
    BigPower(base);
    NumeralLength(n, base, 22);
  }

  lemma {:induction false} PowerMono(base: nat, k: nat)
    requires base >= 8
    ensures Power(base, k) >= Power(8, k)
  {
    if k > 0 {
      PowerMono(base, k - 1);
      assert base * Power(base, k - 1) >= 8 * Power(8, k - 1);
    }
  }

  lemma BigPower(base: nat)
    requires IsBase(base)
    ensures Power(base, 22) >= QUAD
  {
    PowerMono(base, 22);
    PowerStep(8, 4);
    PowerStep(8, 8);
    PowerStep(8, 12);
    PowerStep(8, 16);
    PowerStep(8, 20);
    assert Power(8, 21) == 8 * Power(8, 20);
  }

  lemma PowerStep(base: nat, k: nat)
    requires k >= 4
    ensures Power(base, k) == base * (base * (base * (base * Power(base, k - 4))))
  {
    assert Power(base, k - 1) == base * Power(base, k - 2);
    assert Power(base, k - 3) == base * Power(base, k - 4);
  }

  /** The value of a character as a digit, or the base when it is none. */
  function DigitOf(c: char): nat {
    if '0' <= c <= '9' then (c - '0') as nat
    else if 'a' <= c <= 'f' then (c - 'a') as nat + 10 else 16
  }

  ghost function Value(s: string, base: nat): nat {
    if s == "" then 0 else Value(s[..|s| - 1], base) * base + DigitOf(s[|s| - 1])
  }

  lemma DigitRoundTrip(d: nat)
    requires d < 16
    ensures DigitOf(DIGITS[d]) == d
  {
  }

  lemma ValueAppend(s: string, c: char, base: nat)
    ensures Value(s + [c], base) == Value(s, base) * base + DigitOf(c)
  {
    assert (s + [c])[..|s|] == s;
  }

  /** The numeral means n. */
  lemma {:induction false} NumeralMeans(n: nat, base: nat)
    requires IsBase(base)
    ensures Value(Numeral(n, base), base) == n
    decreases n
  {
    if n < base {
      DigitRoundTrip(n);
      ValueAppend("", DIGITS[n], base);
      assert "" + [DIGITS[n]] == Numeral(n, base);
    } else {
      NumeralMeans(Quotient(n, base), base);
      LastDigit(n, base);
      ValueAppend(Numeral(Quotient(n, base), base), DIGITS[Remainder(n, base)], base);
    }
  }

  lemma LastDigit(n: nat, base: nat)
    requires IsBase(base)
    ensures Quotient(n, base) * base + DigitOf(DIGITS[Remainder(n, base)]) == n
  {
    DigitRoundTrip(Remainder(n, base));
  }

  /** It uses digits of the base only, without a leading zero, so no other text
      means the same. */
  lemma {:induction false} NumeralShape(n: nat, base: nat)
    requires IsBase(base)
    ensures Numeral(n, base) != ""
    ensures forall i :: 0 <= i < |Numeral(n, base)| ==> DigitOf(Numeral(n, base)[i]) < base
    ensures n > 0 ==> DigitOf(Numeral(n, base)[0]) > 0
    decreases n
  {
    DigitRoundTrip(Remainder(n, base));
    if n >= base {
      NumeralShape(Quotient(n, base), base);
    }
  }

  // ------------------------------------------------------------------
  // The digit buffer

  /** Digits still to come: none once the value has reached 0. */
  function Rest(n: nat, base: nat): string
    requires IsBase(base)
  {
    if n > 0 then Numeral(n, base) else ""
  }

  /** The digit for the low-order part of n, and n without it. */
  method DropDigit(n: nat, base: nat) returns (c: char, q: nat)
    requires IsBase(base)
    ensures Numeral(n, base) == Rest(q, base) + [c] && (n > 0 ==> q < n)
  {
    DivisionIs(n, base);
    c, q := DIGITS[n % base], n / base;
  }

  /** One turn of the conversion loop: x is where the text so far starts. */
  method StoreDigit(buf: array<char>, x: nat, xnum: nat, base: nat, ghost text: string, ghost whole: string)
    returns (y: nat, q: nat, ghost text2: string)
    requires IsBase(base) && buf.Length == NUMBER_BUF_SIZE && x < NUMBER_BUF_SIZE && buf[x..NUMBER_BUF_SIZE - 1] == text
    requires Numeral(xnum, base) + text == whole && |whole| < NUMBER_BUF_SIZE
    modifies buf
    ensures y + 1 == x && buf[NUMBER_BUF_SIZE - 1] == old(buf[NUMBER_BUF_SIZE - 1])
    ensures buf[y..NUMBER_BUF_SIZE - 1] == text2 && Rest(q, base) + text2 == whole && (xnum > 0 ==> q < xnum)
  {
    var c;
    c, q := DropDigit(xnum, base);
    assert |whole| == |Rest(q, base)| + 1 + |text|;
    y := x - 1;
    buf[y] := c;
    text2 := [c] + text;
    assert Rest(q, base) + text2 == Rest(q, base) + [c] + text;
  }

  /** The conversion loop of __pf_printnum: the number's text ends just before
      the NUL in the last slot of the buffer and starts at x. */
  method ConvertNumber(num: nat, base: nat) returns (buf: array<char>, x: nat)
    requires num < QUAD && IsBase(base)
    ensures fresh(buf) && buf.Length == NUMBER_BUF_SIZE && x < NUMBER_BUF_SIZE - 1
    ensures buf[x..NUMBER_BUF_SIZE - 1] == Numeral(num, base) && buf[NUMBER_BUF_SIZE - 1] == '\0'
  {
    NumeralFits(num, base);
    buf := new char[NUMBER_BUF_SIZE];
    x := NUMBER_BUF_SIZE - 1;
    buf[x] := '\0';
    ghost var whole := Numeral(num, base);
    assert whole + "" == whole;
    var xnum;
    ghost var text;
    x, xnum, text := StoreDigit(buf, x, num, base, "", whole);
    while xnum > 0
      invariant x < NUMBER_BUF_SIZE - 1 && buf[NUMBER_BUF_SIZE - 1] == '\0' && buf[x..NUMBER_BUF_SIZE - 1] == text
      invariant Rest(xnum, base) + text == whole
      decreases xnum
    {
      x, xnum, text := StoreDigit(buf, x, xnum, base, text, whole);
    }
  }

  // ------------------------------------------------------------------
  // Fields

  function Repeat(c: char, n: nat): string { seq(n, i => c) }

  /** What one conversion prints: padding goes before the prefixes unless it is
      zeros, and after everything when the field is left-aligned. */
  function Padded(prefix: string, stuff: string, width: nat, left: bool, fill: char): string {
    var pad := Repeat(fill, if width > |prefix| + |stuff| then width - |prefix| - |stuff| else 0);
    if left then prefix + stuff + pad
    else if fill == '0' then prefix + pad + stuff
    else pad + prefix + stuff
  }

  /** However it is padded, a field is at least as wide as asked. */
  lemma PaddedWidth(prefix: string, stuff: string, width: nat, left: bool, fill: char)
    ensures |Padded(prefix, stuff, width, left, fill)| ==
      if width > |prefix| + |stuff| then width else |prefix| + |stuff|
  {
  }

  // ------------------------------------------------------------------
  // Formats

  datatype Size = IntSz | LongSz | LlongSz | SizetSz

  /** The part of struct PF that describes the %-field being read. */
  datatype Field = Field(inPct: bool, size: Size, spacing: nat, rightspc: bool, fillchar: char, altformat: bool)

  /** The state after __pf_endfield. */
  const START := Field(false, IntSz, 0, false, ' ', false)

  /** A variadic argument slot, which a conversion reads as a number or as a
      string (None is NULL). */
  datatype Arg = Arg(num: int, str: Option<string>)

  /** Two's-complement reading: long long has 64 bits, the others 32. */
  function ReadSigned(num: int, size: Size): int {
    if size.LlongSz? then (num + QUAD / 2) % QUAD - QUAD / 2 else (num + WORD / 2) % WORD - WORD / 2
  }

  function ReadUnsigned(num: int, size: Size): nat { if size.LlongSz? then num % QUAD else num % WORD }

  predicate IsModifier(ch: char) { ch == '#' || ch == '-' || ch == 'l' || ch == 'z' || '0' <= ch <= '9' }

  predicate IsInteger(ch: char) { ch == 'd' || ch == 'o' || ch == 'u' || ch == 'p' || ch == 'x' }

  /** __pf_modifier */
  function Modify(f: Field, ch: char): Field
    requires IsModifier(ch)
  {
    if ch == '#' then f.(altformat := true)
    else if ch == '-' then f.(rightspc := true)
    else if ch == 'l' then f.(size := if f.size.LongSz? then LlongSz else LongSz)
    else if ch == 'z' then f.(size := SizetSz)
    else if ch == '0' && f.spacing == 0 then f.(fillchar := '0')
    else f.(spacing := f.spacing * 10 + DigitOf(ch))
  }

  /** __pf_setbase */
  function Base(ch: char): nat { if ch == 'o' then 8 else if ch == 'x' || ch == 'p' then 16 else 10 }

  /** The signed value an integer conversion prints. */
  function Number(f: Field, ch: char, num: int): int {
    if ch == 'd' then ReadSigned(num, f.size) else if ch == 'p' then num % WORD else ReadUnsigned(num, f.size)
  }

  function Magnitude(n: int): nat { if n < 0 then -n else n }

  /** Sign, then base prefix. */
  function Prefix(f: Field, ch: char, n: int): string {
    (if n < 0 then "-" else "")
    + (if (f.altformat || ch == 'p') && Base(ch) == 16 then "0x"
       else if (f.altformat || ch == 'p') && Base(ch) == 8 then "0" else "")
  }

  /** What a conversion other than an integer one prints. */
  function Text(ch: char, arg: Arg): string {
    if ch == 's' then (if arg.str.None? then "(null)" else arg.str.value)
    else if ch == 'c' then (if arg.num % 256 == 0 then "" else [(arg.num % 256) as char])
    else [ch]
  }

  /** What the character ch, read in state f with argument arg next, prints. */
  function Printed(f: Field, ch: char, arg: Arg): string {
    if !f.inPct then (if ch == '%' then "" else [ch])
    else if IsModifier(ch) then ""
    else if IsInteger(ch) then
      var n := Number(f, ch, arg.num);
      Padded(Prefix(f, ch, n), Numeral(Magnitude(n), Base(ch)), f.spacing, f.rightspc, f.fillchar)
    else Padded("", Text(ch, arg), f.spacing, f.rightspc, f.fillchar)
  }

  function NextField(f: Field, ch: char): Field {
    if !f.inPct then (if ch == '%' then f.(inPct := true) else f)
    else if IsModifier(ch) then Modify(f, ch)
    else START
  }

  /** How many arguments it takes. */
  function Takes(f: Field, ch: char): nat {
    if f.inPct && !IsModifier(ch) && (IsInteger(ch) || ch == 's' || ch == 'c') then 1 else 0
  }

  /** The whole output of a format, from state f and argument i on. */
  function Rendered(f: Field, i: nat, fmt: string, args: nat -> Arg): string
    decreases |fmt|
  {
    if fmt == "" then ""
    else Printed(f, fmt[0], args(i)) + Rendered(NextField(f, fmt[0]), i + Takes(f, fmt[0]), fmt[1..], args)
  }

  /** Pieces sent one after the other are what Padded puts together. */
  lemma Joined(s: string, prefix: string, prefix2: string, stuff: string, pad: string)
    ensures pad == "" ==> s + prefix + prefix2 + stuff == s + (prefix + prefix2 + stuff)
    ensures pad == "" ==> prefix + prefix2 + stuff + pad == prefix + prefix2 + stuff
    ensures pad == "" ==> prefix + prefix2 + pad + stuff == prefix + prefix2 + stuff
    ensures pad == "" ==> pad + (prefix + prefix2) + stuff == prefix + prefix2 + stuff
    ensures s + pad + prefix + prefix2 + stuff == s + (pad + (prefix + prefix2) + stuff)
    ensures s + prefix + prefix2 + pad + stuff == s + (prefix + prefix2 + pad + stuff)
    ensures s + prefix + prefix2 + stuff + pad == s + (prefix + prefix2 + stuff + pad)
  {
  }

  // ------------------------------------------------------------------
  // The printer

  /** Context of snprintf: what has been sent, of which a prefix is stored. */
  class Snp {
    const buf: array<char>
    const buflen: nat
    var bufpos: nat
    ghost var sent: string
    ghost const original: string

    ghost predicate Valid()
      reads this, buf
    {
      && buflen <= buf.Length
      && bufpos == (if |sent| < buflen then |sent| else buflen)
      && buf[..bufpos] == sent[..bufpos]
      && |original| == buf.Length && buf[bufpos..] == original[bufpos..]
    }

    constructor (buf: array<char>, len: nat)
      requires len <= buf.Length
      ensures Valid() && this.buf == buf && buflen == (if len == 0 then 0 else len - 1) && sent == ""
      ensures original == buf[..]
    {
      original := buf[..];
      this.buf := buf;
      buflen := if len == 0 then 0 else len - 1;
      bufpos := 0;
      sent := "";
    }

    /** __snprintf_send */
    method Send(data: string)
      requires Valid()
      modifies this, buf
      ensures Valid() && sent == old(sent) + data
    {
      for i := 0 to |data|
        invariant Valid() && sent == old(sent) + data[..i]
      {
        if bufpos < buflen {
          buf[bufpos] := data[i];
          bufpos := bufpos + 1;
        }
        sent := sent + [data[i]];
      }
      assert data[..|data|] == data;
    }
  }

  class Pf {
    const snp: Snp
    var charcount: nat
    var f: Field
    var next: nat

    ghost predicate Valid()
      reads this, snp, snp.buf
    {
      snp.Valid() && charcount == |snp.sent|
    }

    constructor (snp: Snp)
      requires snp.Valid() && snp.sent == ""
      ensures Valid() && this.snp == snp && f == START && next == 0
    {
      this.snp := snp;
      charcount := 0;
      f, next := START, 0;
    }

    /** __pf_print */
    method Print(text: string)
      requires Valid()
      modifies this`charcount, snp, snp.buf
      ensures Valid() && snp.sent == old(snp.sent) + text
    {
      snp.Send(text);
      charcount := charcount + |text|;
    }

    /** __pf_fill */
    method Fill(n: nat)
      requires Valid()
      modifies this`charcount, snp, snp.buf
      ensures Valid() && snp.sent == old(snp.sent) + Repeat(f.fillchar, n)
    {
      for i := 0 to n
        invariant Valid() && snp.sent == old(snp.sent) + Repeat(f.fillchar, i)
      {
        Print([f.fillchar]);
        assert Repeat(f.fillchar, i) + [f.fillchar] == Repeat(f.fillchar, i + 1);
      }
    }

    /** __pf_printstuff */
    method PrintStuff(prefix: string, prefix2: string, stuff: string)
      requires Valid()
      modifies this`charcount, snp, snp.buf
      ensures Valid() && snp.sent == old(snp.sent) + Padded(prefix + prefix2, stuff, f.spacing, f.rightspc, f.fillchar)
    {
      var len := |prefix| + |prefix2| + |stuff|;
      var spc := if f.spacing > len then f.spacing - len else 0;
      ghost var s0, pad := snp.sent, Repeat(f.fillchar, spc);
      if spc > 0 && !f.rightspc && f.fillchar != '0' {
        Fill(spc);
      }
      Print(prefix);
      Print(prefix2);
      if spc > 0 && !f.rightspc && f.fillchar == '0' {
        Fill(spc);
      }
      Print(stuff);
      if spc > 0 && f.rightspc {
        Fill(spc);
      }
      Joined(s0, prefix, prefix2, stuff, pad);
    }

    /** __pf_printnum for the value n; its digits come out of the buffer. */
    method PrintNum(ch: char, n: int)
      requires Valid() && Magnitude(n) < QUAD
      modifies this`charcount, snp, snp.buf
      ensures Valid()
      ensures snp.sent == old(snp.sent)
        + Padded(Prefix(f, ch, n), Numeral(Magnitude(n), Base(ch)), f.spacing, f.rightspc, f.fillchar)
    {
      var base := Base(ch);
      var buf, x := ConvertNumber(Magnitude(n), base);
      var baseprefix := f.altformat || ch == 'p';
      var bprefix := if baseprefix && base == 16 then "0x" else if baseprefix && base == 8 then "0" else "";
      var sprefix := if n < 0 then "-" else "";
      PrintStuff(sprefix, bprefix, buf[x..NUMBER_BUF_SIZE - 1]);
    }

    /** __pf_send */
    method SendChar(ch: char, args: nat -> Arg)
      requires Valid()
      modifies this, snp, snp.buf
      ensures Valid() && snp.sent == old(snp.sent) + Printed(old(f), ch, args(old(next)))
      ensures f == NextField(old(f), ch) && next == old(next) + Takes(old(f), ch)
    {
      if !f.inPct && ch != '%' {
        Print([ch]);
      } else if !f.inPct {
        f := f.(inPct := true);
      } else if IsModifier(ch) {
        f := Modify(f, ch);
      } else if IsInteger(ch) {
        PrintNum(ch, Number(f, ch, args(next).num));
        f, next := START, next + 1;
      } else {
        PrintStuff("", "", Text(ch, args(next)));
        f, next := START, next + Takes(f, ch);
      }
    }

    /** __vprintf after its initialisation. */
    method Vprintf(fmt: string, args: nat -> Arg)
      requires Valid()
      modifies this, snp, snp.buf
      ensures Valid() && snp.sent == old(snp.sent) + Rendered(old(f), old(next), fmt, args)
    {
      ghost var whole := snp.sent + Rendered(f, next, fmt, args);
      assert fmt[0..] == fmt;
      for i := 0 to |fmt|
        invariant Valid() && snp.sent + Rendered(f, next, fmt[i..], args) == whole
      {
        SendAt(fmt, i, args, whole);
      }
      assert fmt[|fmt|..] == "";
    }

    /** One turn of its loop. */
    method SendAt(fmt: string, i: nat, args: nat -> Arg, ghost whole: string)
      requires Valid() && i < |fmt| && snp.sent + Rendered(f, next, fmt[i..], args) == whole
      modifies this, snp, snp.buf
      ensures Valid() && snp.sent + Rendered(f, next, fmt[i + 1..], args) == whole
    {
      RenderedAt(f, next, fmt, i, args);
      ghost var out := Printed(f, fmt[i], args(next));
      ghost var rest := Rendered(NextField(f, fmt[i]), next + Takes(f, fmt[i]), fmt[i + 1..], args);
      assert snp.sent + out + rest == snp.sent + (out + rest);
      SendChar(fmt[i], args);
    }
  }

  lemma RenderedCons(f: Field, n: nat, c: char, rest: string, args: nat -> Arg)
    ensures Rendered(f, n, [c] + rest, args)
      == Printed(f, c, args(n)) + Rendered(NextField(f, c), n + Takes(f, c), rest, args)
  {
    assert ([c] + rest)[1..] == rest;
  }

  lemma RenderedAt(f: Field, n: nat, fmt: string, i: nat, args: nat -> Arg)
    requires i < |fmt|
    ensures Rendered(f, n, fmt[i..], args)
         == Printed(f, fmt[i], args(n)) + Rendered(NextField(f, fmt[i]), n + Takes(f, fmt[i]), fmt[i + 1..], args)
  {
    RenderedCons(f, n, fmt[i], fmt[i + 1..], args);
    assert fmt[i..] == [fmt[i]] + fmt[i + 1..];
  }

  /**
   vsnprintf: returns the full length of the output; with room for at least the
   NUL, stores the longest prefix that fits, terminated, and touches nothing
   after it; with len 0 it stores nothing. (Section 7.19.6.5 of ISO C99.)
   */
  method Vsnprintf(buf: array<char>, len: nat, fmt: string, args: nat -> Arg) returns (chars: nat)
    requires len <= buf.Length
    modifies buf
    ensures chars == |Rendered(START, 0, fmt, args)|
    ensures len == 0 ==> buf[..] == old(buf[..])
    ensures len > 0 ==>
      var out := Rendered(START, 0, fmt, args);
      var k := if |out| < len then |out| else len - 1;
      buf[..] == out[..k] + ['\0'] + old(buf[..])[k + 1..]
  {
    var snp := new Snp(buf, len);
    var pf := new Pf(snp);
    pf.Vprintf(fmt, args);
    chars := pf.charcount;
    ghost var out := snp.sent;
    assert out == Rendered(START, 0, fmt, args);
    if len > 0 {
      ghost var before := buf[..];
      StoredPrefix(before, snp.original, out, snp.bufpos);
      buf[snp.bufpos] := '\0';
      assert buf[..] == before[snp.bufpos := '\0'];
    } else {
      assert buf[0..] == buf[..];
    }
  }

  lemma StoredPrefix(b: string, original: string, out: string, k: nat)
    requires k < |b| == |original| && k <= |out| && b[..k] == out[..k] && b[k..] == original[k..]
    ensures b[k := '\0'] == out[..k] + ['\0'] + original[k + 1..]
  {
    assert b == b[..k] + b[k..];
  }
}
