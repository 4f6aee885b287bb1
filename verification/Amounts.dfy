/** Amounts as they are shown and read back (`_format_amount` and `_parse_amount`), in exact arithmetic: the fund balancer
    takes its decisions on what it reads back from the displayed text. */
module Amounts {
  import opened Prelude
  import opened Text

  // ----------------------------------------------------------------- reading

  /** Upper case, without `$` and `,`. */
  function Clean(s: string): string {
    if s == "" then ""
    else (if s[0] in "$," then "" else [UpperChar(s[0])]) + Clean(s[1..])
  }

  predicate IsDigit(c: char) { '0' <= c <= '9' }

  predicate AllDigits(s: string) { forall i :: 0 <= i < |s| ==> IsDigit(s[i]) }

  /** The number a string of digits stands for. */
  function Value(s: string): nat
    requires AllDigits(s)
  {
    if s == "" then 0 else 10 * Value(s[..|s| - 1]) + (s[|s| - 1] - '0') as nat
  }

  function Ten(n: nat): (r: int)
    ensures r >= 1
  {
    if n == 0 then 1 else 10 * Ten(n - 1)
  }

  /** Position of the decimal point, or the length. */
  function PointAt(s: string): (at: nat)
    ensures at <= |s| && (at < |s| ==> s[at] == '.')
  {
    if s == "" || s[0] == '.' then 0 else 1 + PointAt(s[1..])
  }

  /** A numeral as a whole number of units of 10^-places; other spellings of numbers are not modelled. */
  datatype Numeral = Numeral(units: int, places: nat)

  function ReadUnsigned(s: string): Option<Numeral> {
    var at := PointAt(s);
    var whole, fraction := s[..at], if at < |s| then s[at + 1..] else "";
    if !AllDigits(whole) || !AllDigits(fraction) || whole + fraction == "" then None
    else Some(Numeral(Value(whole + fraction), |fraction|))
  }

  function ReadNumeral(s: string): Option<Numeral> {
    if s != "" && s[0] == '-' then
      match ReadUnsigned(s[1..])
      case None => None
      case Some(n) => Some(n.(units := -n.units))
    else ReadUnsigned(s)
  }

  /** `int()` drops the fraction, towards zero. */
  function Truncate(n: Numeral, factor: int): int {
    if n.units * factor >= 0 then (n.units * factor) / Ten(n.places) else -((-(n.units * factor)) / Ten(n.places))
  }

  /** A numeral and what its suffix multiplies it by. */
  datatype Reading = Reading(numeral: Numeral, factor: int)

  /** The number in cleaned text. */
  function Read(s: string): Option<Reading>
    requires s != ""
  {
    var suffix := s[|s| - 1];
    var factor := if suffix == 'K' then 1000 else if suffix == 'M' then 1000000 else 1;
    match ReadNumeral(if factor == 1 then s else s[..|s| - 1])
    case None => None
    case Some(n) => Some(Reading(n, factor))
  }

  /** `_parse_amount`; None where the number cannot be read and an error is raised. */
  function Parse(text: string): Option<int> {
    var s := Clean(Strip(text));
    if s == "" then Some(0)
    else match Read(s)
      case None => None
      case Some(r) => Some(Truncate(r.numeral, r.factor))
  }

  // ---------------------------------------------------------------- printing

  /** `v / d` rounded to a nearest whole number; `up` says which of the ties are rounded up. */
  function Nearest(v: nat, d: nat, up: iset<nat>): nat
    requires d > 0
  {
    var low, rest := v / d, v % d;
    if 2 * rest < d || (2 * rest == d && low !in up) then low else low + 1
  }

  function StripZeros(s: string): string {
    if s != "" && s[|s| - 1] == '0' then StripZeros(s[..|s| - 1]) else s
  }

  function StripPoint(s: string): string {
    if s != "" && s[|s| - 1] == '.' then StripPoint(s[..|s| - 1]) else s
  }

  /** A whole number of tenths or hundredths with all its places. */
  function FixedPoint(units: nat, places: nat): string
    requires 1 <= places <= 2
  {
    if places == 1 then Decimal(units / 10) + "." + [Digit(units % 10)]
    else Decimal(units / 100) + "." + [Digit(units / 10 % 10), Digit(units % 10)]
  }

  /** The same without trailing zeros. */
  function Trimmed(units: nat, places: nat): string
    requires 1 <= places <= 2
  {
    StripPoint(StripZeros(FixedPoint(units, places)))
  }

  /** `_format_amount`. */
  function Format(v: int, up: iset<nat>): string {
    if v >= 1000000 then "$" + Trimmed(Nearest(v, 10000, up), 2) + "M"
    else if v >= 1000 then
      if v % 1000 == 0 then "$" + Decimal(v / 1000) + "K" else "$" + Trimmed(Nearest(v, 100, up), 1) + "K"
    else "$" + SignedDecimal(v)
  }

  function SignedDecimal(v: int): string {
    if v < 0 then "-" + Decimal(-v) else Decimal(v)
  }

  // -------------------------------------------------------------- round trip

  /** What reading back the display of an amount gives: the amount itself below a thousand, the nearest hundred below a
      million and the nearest ten thousand above. */
  function Shown(v: int, up: iset<nat>): int {
    if v >= 1000000 then 10000 * Nearest(v, 10000, up)
    else if v >= 1000 then 100 * Nearest(v, 100, up)
    else v
  }

  lemma {:induction false} ValueOfDecimal(n: nat)
    ensures AllDigits(Decimal(n)) && Value(Decimal(n)) == n
  {
    var s := Decimal(n);
    if n < 10 {
      assert s[..0] == "";
      DigitValue(n);
    } else {
      ValueOfDecimal(n / 10);
      DigitValue(n % 10);
      assert s[..|s| - 1] == Decimal(n / 10);
    }
  }

  lemma DigitValue(d: nat)
    requires d < 10
    ensures IsDigit(Digit(d)) && (Digit(d) - '0') as nat == d
  {
  }

  lemma ValueAppend(s: string, d: nat)
    requires AllDigits(s) && d < 10
    ensures AllDigits(s + [Digit(d)]) && Value(s + [Digit(d)]) == 10 * Value(s) + d
  {
    DigitValue(d);
    assert (s + [Digit(d)])[..|s|] == s;
  }

  lemma {:induction false} PointAfterDigits(s: string, rest: string)
    requires AllDigits(s) && (rest == "" || rest[0] == '.')
    ensures PointAt(s + rest) == |s|
  {
    if s == "" {
      assert s + rest == rest;
    } else {
      assert (s + rest)[1..] == s[1..] + rest;
      PointAfterDigits(s[1..], rest);
    }
  }

  lemma ReadParts(whole: string, fraction: string)
    requires whole != "" && AllDigits(whole) && AllDigits(fraction)
    ensures ReadNumeral(whole + "." + fraction) == Some(Numeral(Value(whole + fraction), |fraction|))
    ensures ReadNumeral(whole) == Some(Numeral(Value(whole), 0))
  {
    PointAfterDigits(whole, "." + fraction);
    PointAfterDigits(whole, "");
    var s := whole + "." + fraction;
    assert whole + ("." + fraction) == s && whole + "" == whole;
    assert s[..|whole|] == whole && s[|whole| + 1..] == fraction;
    assert whole[..|whole|] == whole;
  }

  predicate Plain(s: string) {
    forall i :: 0 <= i < |s| ==> IsDigit(s[i]) || s[i] in ".-"
  }

  lemma {:induction false} CleanPlain(s: string, suffix: string)
    requires Plain(s) && suffix in ["", "K", "M"]
    ensures Clean(s + suffix) == s + suffix
  {
    if s == "" {
      assert s + suffix == suffix;
    } else {
      assert (s + suffix)[1..] == s[1..] + suffix;
      CleanPlain(s[1..], suffix);
    }
  }

  /** Shown text is cleaned of its `$` only. */
  lemma CleanShown(body: string, suffix: string)
    requires Plain(body) && body != "" && suffix in ["", "K", "M"]
    ensures Clean(Strip("$" + body + suffix)) == body + suffix
  {
    var text := "$" + body + suffix;
    StripStrips(text);
    assert text[1..] == body + suffix;
    CleanPlain(body, suffix);
  }

  lemma ReadShown(body: string, suffix: string, n: Numeral)
    requires Plain(body) && body != "" && suffix in ["", "K", "M"] && ReadNumeral(body) == Some(n)
    ensures Read(body + suffix) == Some(Reading(n, if suffix == "K" then 1000 else if suffix == "M" then 1000000 else 1))
  {
    var s := body + suffix;
    if suffix == "" { assert s == body; } else { assert s[..|s| - 1] == body; }
  }

  /** Reading `$`, a numeral and a suffix. */
  lemma ParseShown(body: string, suffix: string, n: Numeral, factor: int, amount: int)
    requires Spells(body, n) && suffix in ["", "K", "M"]
    requires factor == if suffix == "K" then 1000 else if suffix == "M" then 1000000 else 1
    requires Truncate(n, factor) == amount
    ensures Parse("$" + body + suffix) == Some(amount)
  {
    CleanShown(body, suffix);
    ReadShown(body, suffix, n);
  }

  lemma TruncateWhole(units: int, factor: int)
    requires factor > 0
    ensures Truncate(Numeral(units, 0), factor) == units * factor
  {
  }

  lemma StripZerosOfParts(whole: string, tenth: nat, hundredth: nat)
    requires whole != "" && AllDigits(whole) && tenth < 10 && hundredth < 10
    ensures StripPoint(StripZeros(whole + "." + [Digit(tenth)]))
            == if tenth != 0 then whole + "." + [Digit(tenth)] else whole
    ensures StripPoint(StripZeros(whole + "." + [Digit(tenth), Digit(hundredth)]))
            == if hundredth != 0 then whole + "." + [Digit(tenth), Digit(hundredth)]
               else if tenth != 0 then whole + "." + [Digit(tenth)] else whole
  {
    var one, two := whole + "." + [Digit(tenth)], whole + "." + [Digit(tenth), Digit(hundredth)];
    assert two[..|two| - 1] == one && one[..|one| - 1] == whole + ".";
    assert (whole + ".")[..|whole|] == whole;
    assert Digit(tenth) != '.' && Digit(hundredth) != '.';
    assert StripZeros(whole + ".") == whole + ".";
    assert whole[|whole| - 1] != '.';
    assert StripPoint(whole + ".") == StripPoint(whole) == whole;
  }

  lemma TrimmedParts(units: nat)
    ensures Trimmed(units, 1)
            == if units % 10 != 0 then Decimal(units / 10) + "." + [Digit(units % 10)] else Decimal(units / 10)
    ensures Trimmed(units, 2)
            == if units % 10 != 0 then Decimal(units / 100) + "." + [Digit(units / 10 % 10), Digit(units % 10)]
               else if units / 10 % 10 != 0 then Decimal(units / 100) + "." + [Digit(units / 10 % 10)] else Decimal(units / 100)
  {
    ValueOfDecimal(units / 10);
    ValueOfDecimal(units / 100);
    StripZerosOfParts(Decimal(units / 10), units % 10, 0);
    StripZerosOfParts(Decimal(units / 100), units / 10 % 10, units % 10);
  }

  /** `body` is a plain numeral that reads as `n`. */
  predicate Spells(body: string, n: Numeral) {
    Plain(body) && body != "" && ReadNumeral(body) == Some(n)
  }

  lemma SpellsParts(whole: string, fraction: string, value: nat)
    requires whole != "" && AllDigits(whole) && AllDigits(fraction) && Value(whole + fraction) == value
    ensures Spells(whole + "." + fraction, Numeral(value, |fraction|))
  {
    ReadParts(whole, fraction);
  }

  lemma SpellsWhole(w: nat)
    ensures Spells(Decimal(w), Numeral(w, 0))
  {
    ValueOfDecimal(w);
    ReadParts(Decimal(w), "");
  }

  lemma SpellsTenths(w: nat, tenth: nat)
    requires tenth < 10
    ensures Spells(Decimal(w) + "." + [Digit(tenth)], Numeral(10 * w + tenth, 1))
  {
    ValueOfDecimal(w);
    DigitValue(tenth);
    ValueAppend(Decimal(w), tenth);
    SpellsParts(Decimal(w), [Digit(tenth)], 10 * w + tenth);
  }

  lemma SpellsHundredths(w: nat, tenth: nat, hundredth: nat)
    requires tenth < 10 && hundredth < 10
    ensures Spells(Decimal(w) + "." + [Digit(tenth), Digit(hundredth)], Numeral(100 * w + 10 * tenth + hundredth, 2))
  {
    TwoDigitsValue(w, tenth, hundredth);
    SpellsParts(Decimal(w), [Digit(tenth), Digit(hundredth)], 100 * w + 10 * tenth + hundredth);
  }

  lemma TwoDigitsValue(w: nat, tenth: nat, hundredth: nat)
    requires tenth < 10 && hundredth < 10
    ensures AllDigits(Decimal(w)) && AllDigits([Digit(tenth), Digit(hundredth)])
    ensures Value(Decimal(w) + [Digit(tenth), Digit(hundredth)]) == 100 * w + 10 * tenth + hundredth
  {
    ValueOfDecimal(w);
    ValueAppend(Decimal(w), tenth);
    ValueAppend(Decimal(w) + [Digit(tenth)], hundredth);
    assert Decimal(w) + [Digit(tenth)] + [Digit(hundredth)] == Decimal(w) + [Digit(tenth), Digit(hundredth)];
  }

  lemma Places(units: nat)
    ensures units == 10 * (units / 10) + units % 10
    ensures units == 100 * (units / 100) + 10 * (units / 10 % 10) + units % 10
  {
  }

  predicate Amounting(n: Numeral, units: nat, places: nat) {
    n == Numeral(units, places) || (n.places == places - 1 && 10 * n.units == units)
    || (n.places == places - 2 && 100 * n.units == units)
  }

  /** The numeral printed for a number of tenths or hundredths stands for exactly that number. */
  lemma PrintedTenths(units: nat) returns (n: Numeral)
    ensures Spells(Trimmed(units, 1), n) && Amounting(n, units, 1)
  {
    var w, tenth := units / 10, units % 10;
    TrimmedParts(units);
    Places(units);
    n := if tenth != 0 then Numeral(10 * w + tenth, 1) else Numeral(w, 0);
    assert Amounting(n, units, 1);
    SpellsWhole(w);
    SpellsTenths(w, tenth);
  }

  lemma PrintedHundredths(units: nat) returns (n: Numeral)
    ensures Spells(Trimmed(units, 2), n) && Amounting(n, units, 2)
  {
    var w, tenth, hundredth := units / 100, units / 10 % 10, units % 10;
    TrimmedParts(units);
    Places(units);
    n := if hundredth != 0 then Numeral(100 * w + 10 * tenth + hundredth, 2)
         else if tenth != 0 then Numeral(10 * w + tenth, 1) else Numeral(w, 0);
    assert Amounting(n, units, 2);
    SpellsWhole(w);
    SpellsTenths(w, tenth);
    SpellsHundredths(w, tenth, hundredth);
  }

  /** Reading back what is shown gives Shown, for every amount, negative ones included. */
  lemma ParseFormat(v: int, up: iset<nat>)
    ensures Parse(Format(v, up)) == Some(Shown(v, up))
  {
    if v >= 1000000 {
      ParseHundredths(Nearest(v, 10000, up));
    } else if v >= 1000 {
      if v % 1000 == 0 {
        ThousandsAreShown(v, up);
        ParseThousands(v / 1000);
      } else {
        ParseTenths(Nearest(v, 100, up));
      }
    } else {
      ParseSmall(v);
    }
  }

  /** What is shown begins with a dollar sign and tells by its last letter whether it counts millions or thousands; below a
      thousand it is the number itself. */
  lemma FormatSpells(v: int, up: iset<nat>)
    ensures Format(v, up)[0] == '$'
    ensures v < 1000 ==> Format(v, up) == "$" + SignedDecimal(v)
    ensures 1000 <= v < 1000000 <==> Format(v, up)[|Format(v, up)| - 1] == 'K'
    ensures v >= 1000000 <==> Format(v, up)[|Format(v, up)| - 1] == 'M'
  {
  }

  lemma ThousandsAreShown(v: int, up: iset<nat>)
    requires 1000 <= v < 1000000 && v % 1000 == 0
    ensures Shown(v, up) == 1000 * (v / 1000)
  {
    NearestOfMultiple(v / 1000 * 10, 100, up);
  }

  lemma ParseHundredths(units: nat)
    ensures Parse("$" + Trimmed(units, 2) + "M") == Some(10000 * units)
  {
    var n := PrintedHundredths(units);
    TruncatePrinted(n, 2, 1000000, 10000, units);
    ParseShown(Trimmed(units, 2), "M", n, 1000000, 10000 * units);
  }

  lemma ParseTenths(units: nat)
    ensures Parse("$" + Trimmed(units, 1) + "K") == Some(100 * units)
  {
    var n := PrintedTenths(units);
    TruncatePrinted(n, 1, 1000, 100, units);
    ParseShown(Trimmed(units, 1), "K", n, 1000, 100 * units);
  }

  lemma ParseThousands(thousands: nat)
    ensures Parse("$" + Decimal(thousands) + "K") == Some(1000 * thousands)
  {
    SpellsWhole(thousands);
    TruncateWhole(thousands, 1000);
    ParseShown(Decimal(thousands), "K", Numeral(thousands, 0), 1000, 1000 * thousands);
  }

  lemma TruncatePrinted(n: Numeral, places: nat, factor: int, unit: int, units: nat)
    requires (places == 1 && factor == 1000 && unit == 100) || (places == 2 && factor == 1000000 && unit == 10000)
    requires Amounting(n, units, places)
    ensures Truncate(n, factor) == unit * units
  {
    assert Ten(0) == 1 && Ten(1) == 10 && Ten(2) == 100;
  }

  lemma ParseSmall(v: int)
    ensures Parse("$" + SignedDecimal(v)) == Some(v)
  {
    SpellsWhole(if v < 0 then -v else v);
    if v < 0 { SpellsNegative(Decimal(-v), -v); }
    assert "$" + SignedDecimal(v) + "" == "$" + SignedDecimal(v);
    TruncateWhole(v, 1);
    ParseShown(SignedDecimal(v), "", Numeral(v, 0), 1, v);
  }

  lemma SpellsNegative(digits: string, n: nat)
    requires Spells(digits, Numeral(n, 0)) && IsDigit(digits[0])
    ensures Spells("-" + digits, Numeral(0 - n, 0))
  {
    assert ("-" + digits)[1..] == digits;
  }

  lemma NearestBounds(v: nat, d: nat, up: iset<nat>)
    requires d > 0
    ensures 0 - d <= 2 * (d * Nearest(v, d, up) - v) <= d
  {
    assert v == d * (v / d) + v % d;
  }

  lemma NearestOfMultiple(k: nat, d: nat, up: iset<nat>)
    requires d > 0
    ensures Nearest(d * k, d, up) == k
  {
    DivisionOfMultiple(k, d);
  }

  lemma DivisionOfMultiple(k: nat, d: nat)
    requires d > 0
    ensures d * k / d == k && d * k % d == 0
  {
    var q, r := d * k / d, d * k % d;
    assert d * k == d * q + r;
    DivisionLaw(d * k, d * k, d, k, q);
    DivisionLaw(d * k, d * k, d, q, k);
  }

  /** Nothing is lost below a thousand, at most 50 below a million and at most 5000 above. */
  lemma ShownIsClose(v: int, up: iset<nat>)
    ensures v < 1000 ==> Shown(v, up) == v
    ensures 1000 <= v < 1000000 ==> -50 <= Shown(v, up) - v <= 50
    ensures 1000000 <= v ==> -5000 <= Shown(v, up) - v <= 5000
  {
    if v >= 1000000 { NearestBounds(v, 10000, up); } else if v >= 1000 { NearestBounds(v, 100, up); }
  }

  /** What has been shown and read back is shown the same way again. */
  lemma ShownTwice(v: int, up: iset<nat>)
    ensures Shown(Shown(v, up), up) == Shown(v, up)
  {
    ShownStaysInRange(v, up);
    if v >= 1000000 {
      NearestOfMultiple(Nearest(v, 10000, up), 10000, up);
    } else if v >= 1000 {
      NearestOfMultiple(Nearest(v, 100, up), 100, up);
      NearestOfMultiple(100, 10000, up);
    }
  }

  lemma NearestMonotone(v: nat, w: nat, d: nat, up: iset<nat>)
    requires d > 0 && v <= w
    ensures Nearest(v, d, up) <= Nearest(w, d, up)
  {
    DivisionMonotone(v, w, d);
  }

  lemma DivisionMonotone(v: nat, w: nat, d: nat)
    requires d > 0 && v <= w
    ensures v / d < w / d || (v / d == w / d && v % d <= w % d)
  {
    var a, b := v / d, w / d;
    assert v == d * a + v % d && w == d * b + w % d;
    DivisionLaw(v, w, d, a, b);
  }

  lemma DivisionLaw(v: int, w: int, d: int, a: int, b: int)
    requires v <= w && d * a <= v && w < d * b + d && d > 0
    ensures a <= b
  {
    if a >= b + 1 { Times(d, b + 1, a); }
  }

  lemma Times(d: int, x: int, y: int)
    requires d > 0 && x <= y
    ensures d * x <= d * y
  {
  }

  /** Showing amounts never changes their order. */
  lemma ShownMonotone(v: int, w: int, up: iset<nat>)
    requires v <= w
    ensures Shown(v, up) <= Shown(w, up)
  {
    if v >= 1000000 { NearestMonotone(v, w, 10000, up); }
    else if 1000 <= v && w < 1000000 { NearestMonotone(v, w, 100, up); }
    else {
      ShownStaysInRange(v, up);
      ShownStaysInRange(w, up);
    }
  }

  lemma ShownStaysInRange(v: int, up: iset<nat>)
    ensures v >= 1000000 ==> Shown(v, up) >= 1000000
    ensures 1000 <= v < 1000000 ==> 1000 <= Shown(v, up) <= 1000000
  {
    if v >= 1000000 {
      NearestMonotone(1000000, v, 10000, up);
    } else if v >= 1000 {
      NearestMonotone(1000, v, 100, up);
      NearestMonotone(v, 1000000, 100, up);
    }
  }
}
