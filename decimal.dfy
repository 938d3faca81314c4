/**
  Decimal numerals as they appear in G-code text (`42.30000`, `-0.33`, `100.0`).

  A numeral is kept as its sign, its whole digits and its fraction digits, so that
  the exact text written by the machine can be stated; its meaning is an exact `real`.
  Numbers written out by the machine are truncated toward zero to a fixed number of
  decimal places, never rounded and never in scientific notation.
*/
module Decimal {
  import opened Wrappers
  import opened Sequences

  predicate IsDigit(c: char) { '0' <= c <= '9' }

  predicate IsDigits(s: string) { forall i | 0 <= i < |s| :: IsDigit(s[i]) }

  function DigitValue(c: char): (d: nat)
    requires IsDigit(c)
    ensures d < 10
  {
    c as int - '0' as int
  }

  function DigitChar(d: nat): (c: char)
    requires d < 10
    ensures IsDigit(c) && DigitValue(c) == d
  {
    (d + '0' as int) as char
  }

  /** Length of the run of digits at the start of `s`. */
  function DigitRun(s: string): (n: nat)
    ensures n <= |s| && IsDigits(s[..n])
    ensures n < |s| ==> !IsDigit(s[n])
  {
    if s == [] || !IsDigit(s[0]) then 0
    else
      var k := DigitRun(s[1..]);
      assert s[..1 + k] == [s[0]] + s[1..][..k];
      1 + k
  }

  lemma {:induction false} DigitRunOfDigitsThen(a: string, b: string)
    requires IsDigits(a)
    requires b == [] || !IsDigit(b[0])
    ensures DigitRun(a + b) == |a|
  {
    if a != [] {
      assert (a + b)[1..] == a[1..] + b;
      DigitRunOfDigitsThen(a[1..], b);
    } else {
      assert a + b == b;
    }
  }

  function Pow10(p: nat): (r: nat)
    ensures r >= 1
  {
    if p == 0 then 1 else 10 * Pow10(p - 1)
  }

  /** The number written by a string of decimal digits, most significant first. */
  function NatValue(s: string): nat
    requires IsDigits(s)
  {
    if s == [] then 0 else 10 * NatValue(s[..|s| - 1]) + DigitValue(s[|s| - 1])
  }

  lemma {:induction false} NatValueBound(s: string)
    requires IsDigits(s)
    ensures NatValue(s) < Pow10(|s|)
  {
    if s != [] {
      NatValueBound(s[..|s| - 1]);
    }
  }

  lemma {:induction false} NatValueLeadingZero(s: string)
    requires IsDigits(s)
    ensures NatValue(['0'] + s) == NatValue(s)
  {
    if s != [] {
      assert (['0'] + s)[..|s|] == ['0'] + s[..|s| - 1];
      NatValueLeadingZero(s[..|s| - 1]);
    }
  }

  lemma NatValueTrailingZero(s: string)
    requires IsDigits(s)
    ensures NatValue(s + ['0']) == 10 * NatValue(s)
  {
    assert (s + ['0'])[..|s|] == s;
  }

  /** The shortest digit string writing `n` (no leading zero unless `n` is zero). */
  function NatDigits(n: nat): (s: string)
    ensures IsDigits(s) && |s| >= 1
    ensures n > 0 ==> s[0] != '0'
  {
    if n < 10 then [DigitChar(n)] else NatDigits(n / 10) + [DigitChar(n % 10)]
  }

  lemma {:induction false} NatDigitsValue(n: nat)
    ensures NatValue(NatDigits(n)) == n
  {
    if n >= 10 {
      var s := NatDigits(n);
      assert s[..|s| - 1] == NatDigits(n / 10);
      NatDigitsValue(n / 10);
    }
  }

  lemma {:induction false} NatDigitsLength(n: nat, p: nat)
    requires 1 <= p && n < Pow10(p)
    ensures |NatDigits(n)| <= p
  {
    if n >= 10 {
      assert p >= 2;
      NatDigitsLength(n / 10, p - 1);
    }
  }

  /** `s` preceded by enough zeros to be `width` long. */
  function PadLeft(s: string, width: nat): (r: string)
    requires IsDigits(s)
    ensures IsDigits(r) && NatValue(r) == NatValue(s)
    ensures |r| == if |s| >= width then |s| else width
    decreases width - |s|
  {
    if |s| >= width then s
    else
      NatValueLeadingZero(s);
      PadLeft(['0'] + s, width)
  }

  /** A numeral: a sign, the digits before the point and the digits after it. */
  datatype Numeral = Numeral(negative: bool, whole: string, fraction: string)

  predicate ValidNumeral(n: Numeral) {
    IsDigits(n.whole) && IsDigits(n.fraction) && |n.whole| + |n.fraction| > 0
  }

  /** The value of the digits after the point: `NatValue(s)` over ten to the number of digits. */
  function FractionValue(s: string): real
    requires IsDigits(s)
  {
    NatValue(s) as real / Pow10(|s|) as real
  }

  function Magnitude(n: Numeral): real
    requires IsDigits(n.whole) && IsDigits(n.fraction)
  {
    NatValue(n.whole) as real + FractionValue(n.fraction)
  }

  /** The exact number a numeral denotes. */
  function Value(n: Numeral): real
    requires IsDigits(n.whole) && IsDigits(n.fraction)
  {
    if n.negative then -Magnitude(n) else Magnitude(n)
  }

  /** The text of a numeral: `-` when negative, the point only when there is a fraction. */
  function Show(n: Numeral): string {
    (if n.negative then "-" else "") + n.whole + (if n.fraction == [] then "" else "." + n.fraction)
  }

  /**
    Reads a numeral: an optional sign, digits, and an optional point followed by
    digits, with at least one digit in all; anything else is not a number.
  */
  function Parse(s: string): (r: Option<Numeral>)
    ensures r.Some? ==> ValidNumeral(r.value)
  {
    var signed := |s| > 0 && (s[0] == '-' || s[0] == '+');
    var body := if signed then s[1..] else s;
    var k := DigitRun(body);
    var rest := body[k..];
    if rest != [] && rest[0] != '.' then None
    else
      var fraction := if rest == [] then [] else rest[1..];
      if IsDigits(fraction) && k + |fraction| > 0
      then Some(Numeral(signed && s[0] == '-', body[..k], fraction))
      else None
  }

  /** The exact value of a text, if it is a numeral. */
  function ParseValue(s: string): Option<real> {
    match Parse(s)
    case Some(n) => Some(Value(n))
    case None => None
  }

  lemma ParseShow(n: Numeral)
    requires ValidNumeral(n)
    ensures Parse(Show(n)) == Some(n)
  {
    var tail := if n.fraction == [] then "" else "." + n.fraction;
    var body := n.whole + tail;
    var s := Show(n);
    ShowSign(n);
    DigitRunOfDigitsThen(n.whole, tail);
    Halves(n.whole, tail);
    assert tail != [] ==> tail[0] == '.' && tail[1..] == n.fraction;
  }

  /** The text of a numeral starts with a sign exactly when it is negative, and the sign is followed by its digits. */
  lemma ShowSign(n: Numeral)
    requires ValidNumeral(n)
    ensures var s := Show(n);
      var signed := |s| > 0 && (s[0] == '-' || s[0] == '+');
      signed == n.negative &&
      (if signed then s[1..] else s) == n.whole + (if n.fraction == [] then "" else "." + n.fraction)
  {
    var tail := if n.fraction == [] then "" else "." + n.fraction;
    var body := n.whole + tail;
    var s := Show(n);
    var sign := if n.negative then "-" else "";
    assert s == sign + body;
    if n.negative {
      assert s[1..] == body;
    } else if n.whole != [] {
      assert s[0] == n.whole[0];
    } else {
      assert s[0] == '.';
    }
  }

  /** `s` without its leading zeros, keeping at least one digit. */
  function DropLeadingZeros(s: string): (r: string)
    requires IsDigits(s)
    ensures IsDigits(r) && NatValue(r) == NatValue(s) && |r| <= |s|
    ensures |s| >= 1 ==> |r| >= 1
    ensures |r| > 1 ==> r[0] != '0'
  {
    if |s| > 1 && s[0] == '0' then
      NatValueLeadingZero(s[1..]);
      assert s == ['0'] + s[1..];
      DropLeadingZeros(s[1..])
    else s
  }

  /** `s` without its trailing zeros. */
  function DropTrailingZeros(s: string): (r: string)
    requires IsDigits(s)
    ensures IsDigits(r) && |r| <= |s| && r == s[..|r|]
    ensures r == [] || r[|r| - 1] != '0'
  {
    if |s| > 0 && s[|s| - 1] == '0' then DropTrailingZeros(s[..|s| - 1]) else s
  }

  lemma {:induction false} DropTrailingZerosValue(s: string)
    requires IsDigits(s)
    ensures FractionValue(DropTrailingZeros(s)) == FractionValue(s)
  {
    if |s| > 0 && s[|s| - 1] == '0' {
      var t := s[..|s| - 1];
      DropTrailingZerosValue(t);
      assert DropTrailingZeros(s) == DropTrailingZeros(t);
      assert s == t + ['0'];
      NatValueTrailingZero(t);
      var a, b := NatValue(t) as real, Pow10(|t|) as real;
      TimesTen(NatValue(t), NatValue(s));
      assert Pow10(|s|) == 10 * Pow10(|t|);
      TimesTen(Pow10(|t|), Pow10(|s|));
      CancelFactor(a, b, 10.0);
      assert FractionValue(s) == (10.0 * a) / (10.0 * b);
    }
  }

  lemma TimesTen(m: nat, n: nat)
    requires n == 10 * m
    ensures n as real == 10.0 * m as real
  {
  }

  lemma CancelFactor(a: real, b: real, c: real)
    requires b > 0.0 && c > 0.0
    ensures (c * a) / (c * b) == a / b
  {
    var q := a / b;
    assert a == q * b;
    assert c * a == q * (c * b);
  }

  lemma DropLeadingZerosIdempotent(s: string)
    requires IsDigits(s)
    ensures DropLeadingZeros(DropLeadingZeros(s)) == DropLeadingZeros(s)
  {
  }

  lemma DropTrailingZerosIdempotent(s: string)
    requires IsDigits(s)
    ensures DropTrailingZeros(DropTrailingZeros(s)) == DropTrailingZeros(s)
  {
  }

  /**
    The canonical form of a numeral: no redundant leading zero, no trailing zero in
    the fraction, no point without a fraction, and no minus sign on zero.
  */
  function Trim(n: Numeral): (t: Numeral)
    requires IsDigits(n.whole) && IsDigits(n.fraction)
    ensures ValidNumeral(t) && |t.whole| >= 1
    ensures t.fraction == [] || t.fraction[|t.fraction| - 1] != '0'
  {
    var whole := if n.whole == [] then "0" else DropLeadingZeros(n.whole);
    var fraction := DropTrailingZeros(n.fraction);
    Numeral(n.negative && !(whole == "0" && fraction == []), whole, fraction)
  }

  lemma {:induction false} TrimValue(n: Numeral)
    requires IsDigits(n.whole) && IsDigits(n.fraction)
    ensures Value(Trim(n)) == Value(n)
  {
    var t := Trim(n);
    DropTrailingZerosValue(n.fraction);
    assert NatValue(t.whole) == NatValue(n.whole);
    assert Magnitude(t) == Magnitude(n);
    if t.negative != n.negative {
      assert t.whole == "0" && t.fraction == [];
      assert Magnitude(t) == 0.0;
    }
  }

  lemma TrimIdempotent(n: Numeral)
    requires IsDigits(n.whole) && IsDigits(n.fraction)
    ensures Trim(Trim(n)) == Trim(n)
  {
    DropLeadingZerosIdempotent(if n.whole == [] then "0" else n.whole);
    DropTrailingZerosIdempotent(n.fraction);
  }

  /** A text is canonical when it is a numeral written in its canonical form. */
  predicate IsCanonical(s: string) {
    match Parse(s)
    case Some(n) => Show(Trim(n)) == s
    case None => false
  }

  /**
    The canonical text of a numeral text (`42.30000` becomes `42.3`), or `None`
    when the text is not a numeral.
  */
  function Canonical(s: string): (r: Option<string>)
    ensures r.Some? <==> Parse(s).Some?
    ensures r.Some? ==> IsCanonical(r.value) && ParseValue(r.value) == ParseValue(s)
  {
    match Parse(s)
    case None => None
    case Some(n) =>
      var t := Trim(n);
      ParseShow(t);
      TrimIdempotent(n);
      TrimValue(n);
      Some(Show(t))
  }

  /** `x` scaled to units of the last of `places` decimal places. */
  function Scaled(x: real, places: nat): real {
    x * Pow10(places) as real
  }

  /** `y` truncated toward zero, as Python's `int()` does. */
  function TruncateTowardZero(y: real): (m: int)
    ensures y >= 0.0 ==> 0 <= m && m as real <= y < m as real + 1.0
    ensures y < 0.0 ==> m <= 0 && m as real - 1.0 < y <= m as real
  {
    if y >= 0.0 then y.Floor else -((-y).Floor)
  }

  /** `m` units of the last of `places` decimal places, written with exactly that many places. */
  function FixedUnits(m: int, places: nat): (n: Numeral)
    ensures ValidNumeral(n) && |n.fraction| == places && |n.whole| >= 1
  {
    var a: nat := if m < 0 then -m else m;
    var p := Pow10(places);
    DivModFacts(a, p);
    var q: nat, r: nat := a / p, a % p;
    var fraction :=
      if places == 0 then ""
      else (NatDigitsLength(r, places);
            PadLeft(NatDigits(r), places));
    Numeral(m < 0, NatDigits(q), fraction)
  }

  /** `x` truncated toward zero to `places` decimal places, written with exactly that many. */
  function Fixed(x: real, places: nat): (n: Numeral)
    ensures ValidNumeral(n) && |n.fraction| == places && |n.whole| >= 1
  {
    FixedUnits(TruncateTowardZero(Scaled(x, places)), places)
  }

  lemma DivModFacts(a: nat, p: nat)
    requires p >= 1
    ensures a / p >= 0 && 0 <= a % p < p && a == (a / p) * p + a % p
  {
  }

  lemma QuotientRemainderReal(a: nat, p: nat)
    requires p >= 1
    ensures (a / p) as real + (a % p) as real / p as real == a as real / p as real
  {
    var q, r := a / p, a % p;
    assert a == q * p + r;
    assert a as real == q as real * p as real + r as real;
    calc {
      a as real / p as real;
      (q as real * p as real + r as real) / p as real;
      q as real + r as real / p as real;
    }
  }

  lemma FixedUnitsValue(m: int, places: nat)
    ensures Value(FixedUnits(m, places)) == m as real / Pow10(places) as real
  {
    var a: nat := if m < 0 then -m else m;
    var p := Pow10(places);
    DivModFacts(a, p);
    var q: nat, r: nat := a / p, a % p;
    var n := FixedUnits(m, places);
    assert n.whole == NatDigits(q);
    NatDigitsValue(q);
    var fr := FractionValue(n.fraction);
    if places > 0 {
      NatDigitsValue(r);
      assert NatValue(n.fraction) == r;
      assert fr == r as real / p as real;
    } else {
      assert p == 1 && r == 0;
      assert fr == r as real / p as real;
    }
    assert Magnitude(n) == q as real + r as real / p as real;
    QuotientRemainderReal(a, p);
    assert Magnitude(n) == a as real / p as real;
    if m < 0 {
      assert n.negative;
      NegateDivision(a as real, p as real);
    }
  }

  lemma NegateDivision(a: real, p: real)
    requires p > 0.0
    ensures -(a / p) == (-a) / p
  {
  }

  lemma FixedValue(x: real, places: nat)
    ensures Value(Fixed(x, places)) == TruncateTowardZero(Scaled(x, places)) as real / Pow10(places) as real
  {
    FixedUnitsValue(TruncateTowardZero(Scaled(x, places)), places);
  }

  /** `x` is a whole number of units of the last of `places` decimal places. */
  predicate HasPlaces(x: real, places: nat) {
    Scaled(x, places).Floor as real == Scaled(x, places)
  }

  lemma UnscaleExact(x: real, places: nat)
    ensures Scaled(x, places) / Pow10(places) as real == x
  {
    var p := Pow10(places) as real;
    assert p > 0.0;
    assert (x * p) / p == x;
  }

  lemma FixedExact(x: real, places: nat)
    requires HasPlaces(x, places)
    ensures Value(Fixed(x, places)) == x
  {
    FixedValue(x, places);
    var y := Scaled(x, places);
    assert TruncateTowardZero(y) as real == y;
    UnscaleExact(x, places);
  }

  /** A coordinate as the fractionizer writes it: three places, trailing zeros removed (`0.5`, `10`). */
  function FormatTrimmed(x: real): string {
    Show(Trim(Fixed(x, 3)))
  }

  /** A feed as the override writes it: exactly one decimal place (`100.0`). */
  function FormatOneDecimal(x: real): string {
    Show(Fixed(x, 1))
  }

  /** A spindle speed as the scaler writes it: a whole number (`400`). */
  function FormatWhole(x: real): string {
    Show(Fixed(x, 0))
  }

  lemma FormatTrimmedRoundTrip(x: real)
    ensures ParseValue(FormatTrimmed(x)) == Some(TruncateTowardZero(Scaled(x, 3)) as real / Pow10(3) as real)
    ensures HasPlaces(x, 3) ==> ParseValue(FormatTrimmed(x)) == Some(x)
    ensures IsCanonical(FormatTrimmed(x))
  {
    var n := Fixed(x, 3);
    var t := Trim(n);
    ParseShow(t);
    TrimIdempotent(n);
    assert IsCanonical(Show(t));
    TrimValue(n);
    FixedValue(x, 3);
    assert ParseValue(Show(t)) == Some(Value(n));
    if HasPlaces(x, 3) {
      FixedExact(x, 3);
    }
  }

  lemma FormatOneDecimalRoundTrip(x: real)
    ensures ParseValue(FormatOneDecimal(x)) == Some(TruncateTowardZero(Scaled(x, 1)) as real / Pow10(1) as real)
    ensures HasPlaces(x, 1) ==> ParseValue(FormatOneDecimal(x)) == Some(x)
  {
    ParseShow(Fixed(x, 1));
    FixedValue(x, 1);
    if HasPlaces(x, 1) {
      FixedExact(x, 1);
    }
  }

  lemma FormatWholeRoundTrip(x: real)
    ensures ParseValue(FormatWhole(x)) == Some(TruncateTowardZero(Scaled(x, 0)) as real)
    ensures HasPlaces(x, 0) ==> ParseValue(FormatWhole(x)) == Some(x)
    ensures var t := FormatWhole(x); IsDigits(t) || (t != [] && t[0] == '-' && IsDigits(t[1..]))
  {
    var n := Fixed(x, 0);
    assert n.fraction == [] && ValidNumeral(n);
    var m := TruncateTowardZero(Scaled(x, 0));
    ParseShow(n);
    assert ParseValue(Show(n)) == Some(Value(n));
    FixedValue(x, 0);
    assert Pow10(0) == 1;
    DivideByOne(m as real, Pow10(0) as real);
    if HasPlaces(x, 0) {
      FixedExact(x, 0);
    }
  }

  lemma DivideByOne(a: real, p: real)
    requires p == 1.0
    ensures a / p == a
  {
  }
}
