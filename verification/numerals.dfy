/**
 Integers as text, in both directions: `fmt.Sprintf` with `%d`, `%x` and a zero-padded width,
 and `strconv.ParseInt` with an explicit base or with base 0.
 */
module Numerals {
  import opened Wrappers

  type Base = b: nat | 2 <= b <= 16 witness 10

  const DIGITS: string := "0123456789abcdef"

  function DigitChar(d: nat): (c: char)
    requires d < 16
    ensures DigitValue(c) == Some(d)
  {
    DIGITS[d]
  }

  /** The value of a digit or letter in either case, letters counting on from ten. */
  function DigitValue(c: char): Option<nat> {
    if '0' <= c <= '9' then Some((c - '0') as nat)
    else if 'a' <= c <= 'z' then Some((c - 'a') as nat + 10)
    else if 'A' <= c <= 'Z' then Some((c - 'A') as nat + 10)
    else None
  }

  function Print(n: nat, base: Base): (s: string)
    ensures s != ""
  {
    if n < base then [DigitChar(n)] else Print(n / base, base) + [DigitChar(n % base)]
  }

  function Zeros(n: nat): string {
    seq(n, _ => '0')
  }

  function Pad(s: string, width: nat): string {
    if |s| < width then Zeros(width - |s|) + s else s
  }

  /** `%d`, `%x` or `%0<width>x`; the sign of a negative number counts towards the width. */
  function Format(v: int, base: Base, width: nat): string {
    if v < 0 then "-" + Pad(Print(-v, base), if width == 0 then 0 else width - 1)
    else Pad(Print(v, base), width)
  }

  /** The value of a string of digits, most significant first; the empty string counts as zero. */
  function Digits(s: string, base: Base): Option<nat> {
    if s == "" then Some(0)
    else
      var n := |s| - 1;
      match Digits(s[..n], base)
      case None => None
      case Some(high) =>
        match DigitValue(s[n])
        case None => None
        case Some(d) => if d < base then Some(high * base + d) else None
  }

  function DropUnderscores(s: string): string {
    if s == "" then ""
    else (if s[0] == '_' then "" else [s[0]]) + DropUnderscores(s[1..])
  }

  predicate HasRadixPrefix(s: string) {
    |s| >= 2 && s[0] == '0' && s[1] in "bBoOxX"
  }

  /** An underscore may only stand between digits, or between a radix prefix and a digit. */
  predicate UnderscoresOk(s: string) {
    var start := if HasRadixPrefix(s) then 2 else 0;
    forall i :: start <= i < |s| && s[i] == '_' ==>
      && i + 1 < |s| && IsPlainDigit(s, i + 1)
      && (i == start ==> start == 2)
      && (i > start ==> IsPlainDigit(s, i - 1))
  }

  predicate IsPlainDigit(s: string, i: nat)
    requires i < |s|
  {
    || '0' <= s[i] <= '9'
    || (HasRadixPrefix(s) && s[1] in "xX" && ('a' <= s[i] <= 'f' || 'A' <= s[i] <= 'F'))
  }

  /** The digits and the base of an unsigned numeral whose base its own prefix chooses. */
  function Radix(s: string): (string, Base)
    requires s != ""
  {
    if s[0] != '0' then (s, 10)
    else if |s| >= 3 && s[1] in "bB" then (s[2..], 2)
    else if |s| >= 3 && s[1] in "oO" then (s[2..], 8)
    else if |s| >= 3 && s[1] in "xX" then (s[2..], 16)
    else (s[1..], 8)
  }

  /** `strconv.ParseUint` without its range check; base 0 lets the prefix choose. */
  function ParseUint(s: string, base: nat): Option<nat>
    requires base == 0 || 2 <= base <= 16
  {
    if s == "" then None
    else if base != 0 then Digits(s, base)
    else
      var (digits, radix) := Radix(s);
      if '_' in digits && !UnderscoresOk(s) then None
      else Digits(DropUnderscores(digits), radix)
  }

  /** `strconv.ParseInt(s, base, bits)`; every kind of failure is `None`. */
  function ParseInt(s: string, base: nat, bits: nat): (r: Option<int>)
    requires base == 0 || 2 <= base <= 16
    requires bits == 32 || bits == 64
    ensures r.Some? ==> -Limit(bits) <= r.value < Limit(bits)
    ensures r.Some? ==> s != "" && (s[0] != '-' ==> r.value >= 0)
  {
    if s == "" then None
    else
      match ParseUint(if s[0] in "+-" then s[1..] else s, base)
      case None => None
      case Some(n: int) =>
        if s[0] == '-' then if n <= Limit(bits) then Some(-n) else None
        else if n < Limit(bits) then Some(n) else None
  }

  function Limit(bits: nat): int
    requires bits == 32 || bits == 64
  {
    if bits == 32 then 0x8000_0000 else 0x8000_0000_0000_0000
  }

  predicate IsHexDigit(c: char) {
    '0' <= c <= '9' || 'a' <= c <= 'f'
  }

  predicate AllHex(s: string) {
    forall i :: 0 <= i < |s| ==> IsHexDigit(s[i])
  }

  predicate AllDecimal(s: string) {
    forall i :: 0 <= i < |s| ==> '0' <= s[i] <= '9'
  }

  lemma {:induction false} PrintIsHex(n: nat, base: Base)
    ensures AllHex(Print(n, base))
    ensures base <= 10 ==> AllDecimal(Print(n, base))
  {
    if n < base {
      DigitIsHex(n);
    } else {
      var high, low := n / base, n % base;
      PrintIsHex(high, base);
      DigitIsHex(low);
      AppendDigit(Print(high, base), DigitChar(low));
    }
  }

  lemma {:induction false} AppendDigit(s: string, c: char)
    ensures AllHex(s) && IsHexDigit(c) ==> AllHex(s + [c])
    ensures AllDecimal(s) && '0' <= c <= '9' ==> AllDecimal(s + [c])
  {
  }

  lemma {:induction false} DigitIsHex(d: nat)
    requires d < 16
    ensures IsHexDigit(DigitChar(d))
    ensures d < 10 ==> '0' <= DigitChar(d) <= '9'
  {
  }

  lemma {:induction false} DigitsAppend(s: string, value: nat, d: nat, base: Base)
    requires Digits(s, base) == Some(value) && d < base
    ensures Digits(s + [DigitChar(d)], base) == Some(value * base + d)
  {
    var t := s + [DigitChar(d)];
    assert t[..|t| - 1] == s;
    assert DigitValue(t[|t| - 1]) == Some(d);
  }

  lemma {:induction false} DivisionSplits(n: nat, base: Base)
    ensures n / base * base + n % base == n
  {
  }

  /** Parsing digits undoes printing them, whatever leading zeros a width added. */
  lemma {:induction false} DigitsOfPrint(n: nat, base: Base)
    ensures Digits(Print(n, base), base) == Some(n)
  {
    if n < base {
      DigitsAppend("", 0, n, base);
      assert "" + [DigitChar(n)] == Print(n, base);
    } else {
      DigitsOfPrint(n / base, base);
      DigitsAppend(Print(n / base, base), n / base, n % base, base);
      DivisionSplits(n, base);
    }
  }

  lemma {:induction false} DigitsOfZeros(zeros: nat, s: string, base: Base)
    ensures Digits(Zeros(zeros) + s, base) == Digits(s, base)
  {
    var t := Zeros(zeros) + s;
    if s != "" {
      var n := |s| - 1;
      assert t[..|t| - 1] == Zeros(zeros) + s[..n] && t[|t| - 1] == s[n];
      DigitsOfZeros(zeros, s[..n], base);
    } else if zeros != 0 {
      assert t == Zeros(zeros);
      assert t[..zeros - 1] == Zeros(zeros - 1) + "";
      DigitsOfZeros(zeros - 1, "", base);
    } else {
      assert t == "";
    }
  }

  lemma {:induction false} DigitsOfPad(n: nat, base: Base, width: nat)
    ensures Digits(Pad(Print(n, base), width), base) == Some(n)
    ensures AllHex(Pad(Print(n, base), width))
    ensures base <= 10 ==> AllDecimal(Pad(Print(n, base), width))
    ensures |Pad(Print(n, base), width)| >= 1
  {
    DigitsOfPrint(n, base);
    PrintIsHex(n, base);
    var s := Print(n, base);
    if |s| < width {
      DigitsOfZeros(width - |s|, s, base);
    }
  }

  function Pow(base: nat, k: nat): nat {
    if k == 0 then 1 else base * Pow(base, k - 1)
  }

  lemma {:induction false} QuotientIsSmaller(n: nat, base: Base, p: nat)
    requires n < base * p
    ensures n / base < p
  {
    DivisionSplits(n, base);
    ProductsAreOrdered(n / base, p, base);
  }

  lemma {:induction false} ProductsAreOrdered(q: nat, p: nat, base: Base)
    ensures q >= p ==> q * base >= base * p
  {
  }

  lemma {:induction false} PrintIsShort(n: nat, base: Base, k: nat)
    requires 1 <= k && n < Pow(base, k)
    ensures |Print(n, base)| <= k
    decreases k
  {
    hide Print;
    PrintLength(n, base);
    if k > 1 && n >= base {
      QuotientIsSmaller(n, base, Pow(base, k - 1));
      PrintIsShort(n / base, base, k - 1);
    } else if k == 1 {
      assert Pow(base, 1) == base * Pow(base, 0);
    }
  }

  lemma {:induction false} PrintLength(n: nat, base: Base)
    ensures |Print(n, base)| == if n < base then 1 else |Print(n / base, base)| + 1
  {
    hide DigitChar;
  }

  /** A number that fits in the width is printed with exactly that many digits. */
  lemma {:induction false} PaddedToWidth(n: nat, base: Base, width: nat)
    requires 1 <= width && n < Pow(base, width)
    ensures |Format(n, base, width)| == width
  {
    PrintIsShort(n, base, width);
    hide Print;
  }

  /** What a formatted integer looks like: an optional sign, then digits that spell its magnitude. */
  lemma {:induction false} FormatShape(v: int, base: Base, width: nat)
    ensures var s := Format(v, base, width);
            && s != ""
            && (s[0] == '-' <==> v < 0)
            && (v < 0 ==> |s| >= 2 && AllHex(s[1..]) && Digits(s[1..], base) == Some(-v))
            && (v >= 0 ==> AllHex(s) && Digits(s, base) == Some(v))
            && (v >= 0 && base <= 10 ==> AllDecimal(s))
  {
    hide Print, Digits, Pad;
    var s := Format(v, base, width);
    if v < 0 {
      DigitsOfPad(-v, base, if width == 0 then 0 else width - 1);
      assert s[1..] == Pad(Print(-v, base), if width == 0 then 0 else width - 1);
    } else {
      DigitsOfPad(v, base, width);
      assert IsHexDigit(s[0]);
    }
  }

  /** No two integers print alike under the same verb. */
  lemma {:induction false} FormatIsInjective(v: int, w: int, base: Base, width: nat)
    requires Format(v, base, width) == Format(w, base, width)
    ensures v == w
  {
    FormatShape(v, base, width);
    FormatShape(w, base, width);
  }

  /** `ParseInt` in an explicit base inverts `Format` over the whole range the parser accepts. */
  lemma {:induction false} ParseIntOfFormat(v: int, base: Base, width: nat, bits: nat)
    requires bits == 32 || bits == 64
    requires -Limit(bits) <= v < Limit(bits)
    ensures ParseInt(Format(v, base, width), base, bits) == Some(v)
  {
    FormatShape(v, base, width);
  }

  // ----- numerals, digit by digit

  /** `c` is the digit that stands for `d`, in either case. */
  predicate IsDigitFor(c: char, d: nat) {
    d < 16 && (c == "0123456789abcdef"[d] || c == "0123456789ABCDEF"[d])
  }

  /** `s` is `n` written out in `base`, leading zeros allowed; the empty string is zero. */
  predicate Spells(s: string, base: Base, n: nat) {
    if s == "" then n == 0 else IsDigitFor(s[|s| - 1], n % base) && Spells(s[..|s| - 1], base, n / base)
  }

  /** `s` is an optional sign and at least one digit, and stands for `v`. */
  predicate SpellsInteger(s: string, base: Base, v: int) {
    s != "" &&
    if s[0] == '-' then |s| > 1 && v <= 0 && Spells(s[1..], base, -v)
    else if s[0] == '+' then |s| > 1 && v >= 0 && Spells(s[1..], base, v)
    else v >= 0 && Spells(s, base, v)
  }

  lemma {:induction false} DigitValueIsDigit(c: char, d: nat)
    requires d < 16
    ensures DigitValue(c) == Some(d) <==> IsDigitFor(c, d)
  {
  }

  lemma {:induction false} DigitsSpell(s: string, base: Base, n: nat)
    ensures Digits(s, base) == Some(n) <==> Spells(s, base, n)
  {
    hide DigitValue, IsDigitFor;
    if s != "" {
      var front, c := s[..|s| - 1], s[|s| - 1];
      DivisionSplits(n, base);
      DigitsSpell(front, base, n / base);
      DigitValueIsDigit(c, n % base);
      if Digits(front, base).Some? && DigitValue(c).Some? && DigitValue(c).value < base {
        LastDigit(Digits(front, base).value, DigitValue(c).value, base);
      }
    }
  }

  lemma {:induction false} LastDigit(high: nat, d: nat, base: Base)
    requires d < base
    ensures (high * base + d) % base == d && (high * base + d) / base == high
  {
    var n := high * base + d;
    DivisionSplits(n, base);
    assert n % base - d == (high - n / base) * base;
    ProductBelow(high - n / base, base);
  }

  lemma {:induction false} ProductBelow(k: int, base: Base)
    requires k * base < base && 0 < k * base + base
    ensures k == 0
  {
  }

  /**
   With an explicit base, `ParseInt` gives `v` for exactly the texts that are a sign and digits of that
   base standing for `v`, when `v` fits the width, and fails on every other text.
   */
  lemma {:induction false} ParseIntIsExact(s: string, base: Base, bits: nat, v: int)
    requires bits == 32 || bits == 64
    ensures ParseInt(s, base, bits) == Some(v) <==>
      && SpellsInteger(s, base, v)
      && if bits == 32 then -2147483648 <= v <= 2147483647 else -9223372036854775808 <= v <= 9223372036854775807
  {
    hide Digits, Spells;
    if s != "" {
      var n: nat := if v < 0 then -v else v;
      DigitsSpell(s, base, n);
      DigitsSpell(s[1..], base, n);
      if s[0] in "+-" {
        SignsAreNoDigits(s, base);
      }
    }
  }

  lemma {:induction false} SignsAreNoDigits(s: string, base: Base)
    requires s != "" && s[0] in "+-"
    ensures Digits(s, base).None?
  {
    if |s| > 1 {
      SignsAreNoDigits(s[..|s| - 1], base);
    }
  }

  // ----- numerals that choose their own base

  /** `body` is `n` in the base its prefix names: `0x`, `0o`, `0b`, a plain `0` for octal, and else decimal. */
  predicate SpellsByPrefix(body: string, n: nat) {
    && body != ""
    && if body[0] != '0' then Spells(body, 10, n)
       else if |body| > 2 && body[1] in "xX" then Spells(body[2..], 16, n)
       else if |body| > 2 && body[1] in "oO" then Spells(body[2..], 8, n)
       else if |body| > 2 && body[1] in "bB" then Spells(body[2..], 2, n)
       else Spells(body, 8, n)
  }

  predicate IsSigned(s: string) {
    s != "" && s[0] in "+-"
  }

  /** With base 0 a text without underscores gives `v` exactly if it is a sign and such a numeral for `v`. */
  lemma {:induction false} ParseIntByPrefix(s: string, bits: nat, v: int)
    requires (bits == 32 || bits == 64) && '_' !in s
    ensures var body := if IsSigned(s) then s[1..] else s;
            ParseInt(s, 0, bits) == Some(v) <==>
              && SpellsByPrefix(body, if v < 0 then -v else v)
              && (v < 0 ==> s[0] == '-') && (v > 0 ==> s[0] != '-')
              && if bits == 32 then -2147483648 <= v <= 2147483647 else -9223372036854775808 <= v <= 9223372036854775807
  {
    hide Digits, Spells, DropUnderscores;
    var body := if IsSigned(s) then s[1..] else s;
    if body != "" {
      assert '_' !in body;
      UintByPrefix(body, if v < 0 then -v else v);
    }
  }

  lemma {:induction false} UintByPrefix(body: string, n: nat)
    requires body != "" && '_' !in body
    ensures ParseUint(body, 0) == Some(n) <==> SpellsByPrefix(body, n)
  {
    hide Digits, Spells, DropUnderscores;
    var (digits, radix) := Radix(body);
    WithoutUnderscores(digits);
    DigitsSpell(digits, radix, n);
    if body[0] == '0' && radix == 8 && digits == body[1..] {
      LeadingZero(body, n);
    }
  }

  lemma {:induction false} LeadingZero(s: string, n: nat)
    requires s != "" && s[0] == '0'
    ensures Spells(s, 8, n) <==> Spells(s[1..], 8, n)
  {
    DigitsSpell(s, 8, n);
    DigitsSpell(s[1..], 8, n);
    DigitsOfZeros(1, s[1..], 8);
    assert s == Zeros(1) + s[1..];
  }

  lemma {:induction false} WithoutUnderscores(s: string)
    requires '_' !in s
    ensures DropUnderscores(s) == s
  {
    if s != "" {
      WithoutUnderscores(s[1..]);
    }
  }

  /** Underscores are refused except where they may stand, and there they change nothing. */
  lemma {:induction false} UnderscoresOnlySeparate(s: string, bits: nat)
    requires (bits == 32 || bits == 64) && '_' in s
    ensures var body := if IsSigned(s) then s[1..] else s;
            ParseInt(s, 0, bits) == if UnderscoresOk(body) then ParseInt(DropUnderscores(s), 0, bits) else None
  {
    hide Digits, UnderscoresOk;
    var body := if IsSigned(s) then s[1..] else s;
    assert '_' in body;
    SeparatedUint(body);
    if UnderscoresOk(body) {
      NotLeading(body);
    }
  }

  lemma {:induction false} NotLeading(body: string)
    requires body != "" && UnderscoresOk(body)
    ensures body[0] != '_' && body[|body| - 1] != '_' && DropUnderscores(body) == [body[0]] + DropUnderscores(body[1..])
  {
  }

  lemma {:induction false} SeparatedUint(body: string)
    requires '_' in body
    ensures ParseUint(body, 0) == if UnderscoresOk(body) then ParseUint(DropUnderscores(body), 0) else None
  {
    hide Digits;
    var (digits, radix) := Radix(body);
    if UnderscoresOk(body) {
      RadixWithoutUnderscores(body);
      NotLeading(body);
      hide UnderscoresOk;
      NoneLeft(body);
      NoneLeft(digits);
      WithoutUnderscores(DropUnderscores(digits));
    } else {
      assert '_' in digits by { PrefixHasNone(body); }
    }
  }

  lemma {:induction false} PrefixHasNone(body: string)
    requires '_' in body
    ensures '_' in Radix(body).0
  {
  }

  lemma {:induction false} NoneLeft(s: string)
    ensures '_' !in DropUnderscores(s)
    ensures s != "" && s[|s| - 1] != '_' ==> DropUnderscores(s) != ""
  {
    if s != "" {
      NoneLeft(s[1..]);
    }
  }

  lemma {:induction false} RadixWithoutUnderscores(body: string)
    requires '_' in body && UnderscoresOk(body)
    ensures DropUnderscores(body) != ""
    ensures Radix(DropUnderscores(body)) == (DropUnderscores(Radix(body).0), Radix(body).1)
  {
    NotLeading(body);
    var dropped := DropUnderscores(body);
    if body[0] == '0' && |body| >= 2 {
      NoneLeft(body[2..]);
      assert body[1..][1..] == body[2..];
      if body[1] == '_' {
        assert IsPlainDigit(body, 2) && '0' <= body[2] <= '9';
        assert dropped[1] == body[2];
      } else {
        assert DropUnderscores(body[1..]) == [body[1]] + DropUnderscores(body[2..]);
        assert |body| >= 3;
        assert |dropped| >= 3;
        assert dropped[1..] == [body[1]] + DropUnderscores(body[2..]);
        assert dropped[2..] == DropUnderscores(body[2..]);
      }
    }
  }
}
