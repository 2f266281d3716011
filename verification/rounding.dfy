/**
 Temperatures written in decimal, through binary floating point, into whole millidegrees.

 The floating point unit is a parameter. All that is asked of it is correct rounding of moderate
 numbers: a relative error of at most 2^-53, and none on integers that a double represents
 (IEEE 754-2019 section 4.3.1).
 */
module Rounding {
  import opened Numerals
  import opened Text
  import opened Units
  import opened Wrappers

  datatype Float = NaN | Infinity(negative: bool) | Finite(v: real)

  /** `strconv.ParseFloat`, with `None` for an error, and the rounding of an exact product. */
  datatype FloatUnit = FloatUnit(parse: string -> Option<Float>, round: real -> real)

  function Abs(x: real): real {
    if x < 0.0 then -x else x
  }

  predicate Moderate(x: real) {
    0.0001 <= Abs(x) <= 100000000000.0
  }

  /** `y` is `x` up to a relative error of 2^-53. */
  predicate IsNear(x: real, y: real) {
    Abs(y - x) * 9007199254740992.0 <= Abs(x)
  }

  predicate IsExactOn(round: real -> real, n: int) {
    round(n as real) == n as real
  }

  ghost predicate RoundsCorrectly(round: real -> real) {
    && (forall x :: Moderate(x) ==> IsNear(x, round(x)))
    && (forall n :: -9007199254740992 <= n <= 9007199254740992 ==> IsExactOn(round, n))
  }

  const LARGEST_DECIMAL: int := 10000000000

  ghost predicate ParsesDecimals(u: FloatUnit) {
    forall s :: MilliOf(s).Some? && -LARGEST_DECIMAL <= MilliOf(s).value <= LARGEST_DECIMAL
      ==> u.parse(s) == Some(Finite(u.round(MilliOf(s).value as real / 1000.0)))
  }

  ghost predicate Faithful(u: FloatUnit) {
    RoundsCorrectly(u.round) && ParsesDecimals(u)
  }

  // ----- decimals with at most three fractional digits

  function Thousandths(fraction: string): Option<nat>
    requires |fraction| <= 3
  {
    Digits(fraction + Zeros(3 - |fraction|), 10)
  }

  /** The thousandths an unsigned decimal stands for. */
  function UnsignedMilliOf(s: string): Option<nat> {
    var whole := Before(s, ".");
    var fraction := if |whole| == |s| then "" else s[|whole| + 1..];
    if whole + fraction == "" || |fraction| > 3 then None
    else
      match (Digits(whole, 10), Thousandths(fraction))
      case (Some(w), Some(f)) => Some(1000 * w + f)
      case _ => None
  }

  /** The exact value, in thousandths, of a decimal with at most three fractional digits. */
  function MilliOf(s: string): Option<int> {
    if s == "" then None
    else
      match UnsignedMilliOf(if s[0] in "+-" then s[1..] else s)
      case None => None
      case Some(m: int) => Some(if s[0] == '-' then -m else m)
  }

  function PrintMilli(m: nat): string {
    Print(m / 1000, 10) + "." + Pad(Print(m % 1000, 10), 3)
  }

  lemma {:induction false} ThreeDigits(f: nat)
    requires f < 1000
    ensures |Pad(Print(f, 10), 3)| == 3
  {
    hide Print;
    assert Pow(10, 2) == 100;
    assert Pow(10, 3) == 1000;
    PrintIsShort(f, 10, 3);
  }

  lemma {:induction false} MilliOfParts(whole: string, fraction: string, w: nat, f: nat)
    requires AllDecimal(whole) && whole != "" && Digits(whole, 10) == Some(w)
    requires |fraction| == 3 && Digits(fraction, 10) == Some(f)
    ensures UnsignedMilliOf(whole + "." + fraction) == Some(1000 * w + f)
  {
    hide Digits;
    BeforeIsUnique(whole, '.', fraction, ".");
    var s := whole + "." + fraction;
    assert s[|whole| + 1..] == fraction && fraction + Zeros(0) == fraction;
  }

  lemma {:induction false} MilliOfPrint(m: nat)
    ensures MilliOf(PrintMilli(m)) == Some(m)
    ensures Trimmed(PrintMilli(m)) && PrintMilli(m) != ""
  {
    hide Print, Pad, Digits, UnsignedMilliOf;
    var whole, fraction := Print(m / 1000, 10), Pad(Print(m % 1000, 10), 3);
    var s := PrintMilli(m);
    ThreeDigits(m % 1000);
    DigitsOfPrint(m / 1000, 10);
    DigitsOfPad(m % 1000, 10, 3);
    PrintIsHex(m / 1000, 10);
    MilliOfParts(whole, fraction, m / 1000, m % 1000);
    assert s[0] == whole[0];
    assert s[|s| - 1] == fraction[2];
    assert '0' <= s[0] <= '9' && '0' <= fraction[2] <= '9';
  }

  lemma {:induction false} SpelledHasNoStop(s: string, n: nat)
    requires Spells(s, 10, n)
    ensures forall i :: 0 <= i < |s| ==> s[i] != '.' && s[i] !in "+-"
  {
    if s != "" {
      SpelledHasNoStop(s[..|s| - 1], n / 10);
    }
  }

  lemma {:induction false} TrailingZeros(s: string, n: nat, k: nat)
    requires Digits(s, 10) == Some(n)
    ensures Digits(s + Zeros(k), 10) == Some(n * Pow(10, k))
  {
    hide Digits;
    if k == 0 {
      assert s + Zeros(0) == s;
    } else {
      TrailingZeros(s, n, k - 1);
      DigitsAppend(s + Zeros(k - 1), n * Pow(10, k - 1), 0, 10);
      assert s + Zeros(k) == s + Zeros(k - 1) + [DigitChar(0)];
      Tenfold(n, Pow(10, k - 1));
    }
  }

  lemma {:induction false} Tenfold(n: nat, p: nat)
    ensures n * (10 * p) == n * p * 10
  {
  }

  lemma {:induction false} UnsignedDecimal(whole: string, fraction: string, w: nat, f: nat)
    requires Spells(whole, 10, w) && Spells(fraction, 10, f) && |fraction| <= 3 && whole + fraction != ""
    ensures UnsignedMilliOf(whole + "." + fraction) == Some(1000 * w + f * Pow(10, 3 - |fraction|))
    ensures whole != "" ==> UnsignedMilliOf(whole) == Some(1000 * w)
  {
    hide Digits, Spells, Pow;
    SpelledHasNoStop(whole, w);
    DigitsSpell(whole, 10, w);
    DigitsSpell(fraction, 10, f);
    BeforeIsUnique(whole, '.', fraction, ".");
    BeforeWithoutStop(whole, ".");
    var s := whole + "." + fraction;
    assert s[|whole| + 1..] == fraction;
    TrailingZeros(fraction, f, 3 - |fraction|);
    ZeroThousandths();
  }

  lemma {:induction false} ZeroThousandths()
    ensures Thousandths("") == Some(0)
  {
    TrailingZeros("", 0, 3);
  }

  /** How many thousandths the last of `digits` fractional digits is worth. */
  function Worth(digits: nat): nat
    requires digits <= 3
  {
    if digits == 0 then 1000 else if digits == 1 then 100 else if digits == 2 then 10 else 1
  }

  /** A decimal of an optional sign, whole digits and up to three more stands for that many thousandths. */
  lemma {:induction false} DecimalsAreExact(sign: string, whole: string, fraction: string, w: nat, f: nat)
    requires sign in {"", "+", "-"}
    requires Spells(whole, 10, w) && Spells(fraction, 10, f) && |fraction| <= 3 && whole + fraction != ""
    ensures var m := 1000 * w + f * Worth(|fraction|);
            MilliOf(sign + (whole + "." + fraction)) == Some(if sign == "-" then -m else m)
    ensures whole != "" ==> MilliOf(sign + whole) == Some(if sign == "-" then -1000 * w else 1000 * w)
  {
    hide UnsignedMilliOf, Pow, Worth, MilliOf, Spells;
    UnsignedDecimal(whole, fraction, w, f);
    PowersOfTen(3 - |fraction|);
    NoSignAhead(whole, fraction, w);
    Signed(sign, whole + "." + fraction, 1000 * w + f * Worth(|fraction|));
    if whole != "" {
      Signed(sign, whole, 1000 * w);
    }
  }

  lemma {:induction false} NoSignAhead(whole: string, fraction: string, w: nat)
    requires Spells(whole, 10, w)
    ensures (whole + "." + fraction)[0] !in "+-" && (whole != "" ==> whole[0] !in "+-")
  {
    SpelledHasNoStop(whole, w);
    hide Spells;
    assert (whole + "." + fraction)[0] == if whole == "" then '.' else whole[0];
  }

  lemma {:induction false} Signed(sign: string, body: string, m: nat)
    requires sign in {"", "+", "-"} && body != "" && body[0] !in "+-" && UnsignedMilliOf(body) == Some(m)
    ensures MilliOf(sign + body) == Some(if sign == "-" then 0 - m else m)
  {
    hide UnsignedMilliOf;
    assert (sign + body)[|sign|..] == body;
  }

  lemma {:induction false} PowersOfTen(k: nat)
    requires k <= 3
    ensures Pow(10, k) == Worth(3 - k)
  {
    assert Pow(10, 3) == 10 * Pow(10, 2) && Pow(10, 2) == 10 * Pow(10, 1) && Pow(10, 1) == 10 * Pow(10, 0);
  }

  // ----- rounding to millidegrees

  /** `math.Round`: to the nearest integer, halves away from zero. */
  function RoundHalfAway(x: real): int {
    if x < 0.0 then -((-x + 0.5).Floor) else (x + 0.5).Floor
  }

  function ToMilli(u: FloatUnit, v: real): MilliCelsius {
    RoundHalfAway(u.round(v * 1000.0))
  }

  /** `m` is the integer nearest to `x`, and of two equally near ones the one further from zero. */
  predicate IsNearest(x: real, m: int) {
    Abs(x - m as real) < 0.5 || (Abs(x - m as real) == 0.5 && Abs(m as real) > Abs(x))
  }

  lemma {:induction false} RoundsToNearestExactly(x: real, m: int)
    ensures RoundHalfAway(x) == m <==> IsNearest(x, m)
  {
  }

  lemma {:induction false} RoundsToNearest(x: real, m: int)
    requires Abs(x - m as real) < 0.5
    ensures RoundHalfAway(x) == m
  {
  }

  lemma {:induction false} RoundingIsNear(u: FloatUnit, x: real)
    requires RoundsCorrectly(u.round) && Moderate(x)
    ensures IsNear(x, u.round(x))
  {
  }

  lemma {:induction false} IntegersAreExact(u: FloatUnit, n: int)
    requires RoundsCorrectly(u.round) && -9007199254740992 <= n <= 9007199254740992
    ensures u.round(n as real) == n as real
  {
    assert IsExactOn(u.round, n);
  }

  lemma {:induction false} NearDecimal(m: int, v: real)
    requires m != 0 && -LARGEST_DECIMAL <= m <= LARGEST_DECIMAL && IsNear(m as real / 1000.0, v)
    ensures Abs(v - m as real / 1000.0) <= 0.00001 && Abs(v * 1000.0 - m as real) <= 0.01 && Moderate(v * 1000.0)
  {
  }

  lemma {:induction false} NearAgain(m: int, x: real, y: real)
    requires -LARGEST_DECIMAL <= m <= LARGEST_DECIMAL && Abs(x - m as real) <= 0.01 && IsNear(x, y)
    ensures Abs(y - m as real) < 0.5
  {
  }

  /** Two roundings of at most 2^-53 each cannot move a decimal off its own millidegree. */
  lemma {:induction false} MilliIsExact(u: FloatUnit, m: int)
    requires RoundsCorrectly(u.round) && -LARGEST_DECIMAL <= m <= LARGEST_DECIMAL
    ensures ToMilli(u, u.round(m as real / 1000.0)) == m
    ensures Abs(u.round(m as real / 1000.0) - m as real / 1000.0) <= 0.00001
  {
    hide RoundsCorrectly, Moderate, IsNear;
    var x := m as real / 1000.0;
    var v := u.round(x);
    var y := u.round(v * 1000.0);
    if m == 0 {
      IntegersAreExact(u, 0);
    } else {
      DecimalIsModerate(m);
      RoundingIsNear(u, x);
      NearDecimal(m, v);
      RoundingIsNear(u, v * 1000.0);
      NearAgain(m, v * 1000.0, y);
    }
    RoundsToNearest(y, m);
  }

  lemma {:induction false} DecimalIsModerate(m: int)
    requires m != 0 && -LARGEST_DECIMAL <= m <= LARGEST_DECIMAL
    ensures Moderate(m as real / 1000.0)
  {
  }

  // ----- thresholds

  datatype ThresholdError = Missing | NotANumber | OutOfRange

  const MIN_THRESHOLD_CELSIUS: int := 20
  const MAX_THRESHOLD_CELSIUS: int := 150

  function ParseThreshold(u: FloatUnit, s: string): Result<MilliCelsius, ThresholdError> {
    if s == "" then Err(Missing)
    else
      match u.parse(s)
      case None => Err(NotANumber)
      case Some(Finite(v)) =>
        if v < MIN_THRESHOLD_CELSIUS as real || v > MAX_THRESHOLD_CELSIUS as real then Err(OutOfRange)
        else Ok(ToMilli(u, v))
      case Some(_) => Err(OutOfRange)
  }

  /** `content` parses as a number between `low` and `high`, which is `m` millidegrees. */
  predicate IsTemperature(u: FloatUnit, content: string, low: real, high: real, m: MilliCelsius) {
    && u.parse(content).Some? && u.parse(content).value.Finite?
    && low <= u.parse(content).value.v <= high
    && IsNearest(u.round(u.parse(content).value.v * 1000.0), m)
  }

  /** A limit is accepted exactly if it is a number from 20 to 150, and every other text has its own error. */
  lemma {:induction false} ThresholdsAreExact(u: FloatUnit, s: string, m: MilliCelsius)
    ensures ParseThreshold(u, s) == Ok(m) <==> s != "" && IsTemperature(u, s, 20.0, 150.0, m)
    ensures ParseThreshold(u, s) == Err(Missing) <==> s == ""
    ensures ParseThreshold(u, s) == Err(NotANumber) <==> s != "" && u.parse(s).None?
  {
    if ParseThreshold(u, s).Ok? {
      RoundsToNearestExactly(u.round(u.parse(s).value.v * 1000.0), m);
    }
  }

  /** Every accepted limit is plausible in millidegrees too, however its text was written. */
  lemma {:induction false} AcceptedLimitsArePlausible(u: FloatUnit, s: string)
    requires RoundsCorrectly(u.round) && ParseThreshold(u, s).Ok?
    ensures 1000 * MIN_THRESHOLD_CELSIUS <= ParseThreshold(u, s).value <= 1000 * MAX_THRESHOLD_CELSIUS
  {
    RoundingIsNear(u, u.parse(s).value.v * 1000.0);
  }

  /** On decimals the bounds are exact, and so is the limit. */
  lemma {:induction false} DecimalThreshold(u: FloatUnit, s: string, m: int)
    requires Faithful(u) && MilliOf(s) == Some(m) && -LARGEST_DECIMAL <= m <= LARGEST_DECIMAL
    ensures ParseThreshold(u, s)
         == if 1000 * MIN_THRESHOLD_CELSIUS <= m <= 1000 * MAX_THRESHOLD_CELSIUS then Ok(m) else Err(OutOfRange)
  {
    assert s != "";
    hide ToMilli, MilliOf, RoundsCorrectly;
    MilliIsExact(u, m);
    WholeDegreesAreExact(u, m);
  }

  lemma {:induction false} WholeDegreesAreExact(u: FloatUnit, m: int)
    requires RoundsCorrectly(u.round) && -LARGEST_DECIMAL <= m <= LARGEST_DECIMAL
    ensures m % 1000 == 0 ==> u.round(m as real / 1000.0) == m as real / 1000.0
  {
    if m % 1000 == 0 {
      IntegersAreExact(u, m / 1000);
      assert m as real / 1000.0 == (m / 1000) as real;
    }
  }

  // ----- the override file

  const MAX_READING_CELSIUS: int := 10000

  /** What a pass makes of the override file's contents. */
  function OverrideReading(u: FloatUnit, content: Option<string>): Option<MilliCelsius> {
    match content
    case None => None
    case Some(text) =>
      match u.parse(Trim(text))
      case Some(Finite(v)) =>
        if v < u.round(-273.15) || v > MAX_READING_CELSIUS as real then None else Some(ToMilli(u, v))
      case _ => None
  }

  /**
   An override is a reading exactly if its file can be read and holds, between whitespace, a finite number
   from absolute zero to 10000; in every other case, an empty file included, there is no reading.
   */
  lemma {:induction false} OverridesAreExact(u: FloatUnit, content: Option<string>, m: MilliCelsius)
    ensures OverrideReading(u, content) == Some(m)
       <==> content.Some? && IsTemperature(u, Trim(content.value), u.round(-273.15), 10000.0, m)
  {
    hide Trim;
    if OverrideReading(u, content).Some? {
      RoundsToNearestExactly(u.round(u.parse(Trim(content.value)).value.v * 1000.0), m);
    }
  }

  /** A decimal override is read exactly, or refused for not being a temperature. */
  lemma {:induction false} DecimalOverride(u: FloatUnit, text: string, m: int)
    requires Faithful(u) && MilliOf(Trim(text)) == Some(m) && -LARGEST_DECIMAL <= m <= LARGEST_DECIMAL
    ensures OverrideReading(u, Some(text))
         == if -273150 <= m <= 1000 * MAX_READING_CELSIUS then Some(m) else None
  {
    hide ToMilli, RoundsCorrectly, MilliOf, Trim;
    MilliIsExact(u, m);
    MilliIsExact(u, -273150);
    assert (-273150) as real / 1000.0 == -273.15;
    WholeDegreesAreExact(u, m);
  }

  /** The documented drill value is over every limit the table can hold. */
  lemma {:induction false} DrillTripsEveryLimit(u: FloatUnit, drill: string, limit: string)
    requires Faithful(u) && Trim(drill) == "999" && ParseThreshold(u, limit).Ok?
    ensures OverrideReading(u, Some(drill)).Some?
    ensures OverrideReading(u, Some(drill)).value > ParseThreshold(u, limit).value
  {
    hide Faithful, RoundsCorrectly, ParseThreshold, OverrideReading, MilliOf;
    FaithfulRounds(u);
    AcceptedLimitsArePlausible(u, limit);
    MilliOfDrill();
    DecimalOverride(u, drill, 999000);
  }

  lemma {:induction false} FaithfulRounds(u: FloatUnit)
    requires Faithful(u)
    ensures RoundsCorrectly(u.round)
  {
  }

  lemma {:induction false} MilliOfDrill()
    ensures MilliOf("999") == Some(999000)
  {
    hide Digits, Before;
    DrillDigits();
    BeforeWithoutStop("999", ".");
    assert Zeros(3) == "000" && "" + Zeros(3) == "000";
    assert UnsignedMilliOf("999") == Some(999000);
  }

  lemma {:induction false} DrillDigits()
    ensures Digits("999", 10) == Some(999) && Digits("000", 10) == Some(0)
  {
    assert "999"[..2] == "99" && "99"[..1] == "9" && "9"[..0] == "";
    assert "000"[..2] == "00" && "00"[..1] == "0" && "0"[..0] == "";
  }

  /** Exact arithmetic is one unit that rounds correctly, so none of this is about nothing. */
  lemma {:induction false} ExactArithmeticIsFaithful()
    ensures Faithful(FloatUnit(
      s => match MilliOf(s) { case None => None case Some(m) => Some(Finite(m as real / 1000.0)) }, x => x))
  {
  }
}
