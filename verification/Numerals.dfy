/**
 Decimal numerals the way the decoder reads them: `std::stoi` with base 10, which behaves like
 `strtol` (section 7.22.1.4 of ISO C11): white space is skipped, one sign is accepted, the longest
 run of digits is converted and whatever follows it is ignored.
 */
module Numerals {
  import opened Options

  const INT_MIN := -0x8000_0000
  const INT_MAX := 0x7fff_ffff

  predicate IsSpace(c: char) {
    c == ' ' || c == '\t' || c == '\n' || c == '\r' || c == 11 as char || c == 12 as char
  }

  predicate IsDigit(c: char) {
    '0' <= c <= '9'
  }

  function DigitValue(c: char): (d: nat)
    requires IsDigit(c)
    ensures d < 10
  {
    c as int - '0' as int
  }

  function DigitChar(d: nat): (c: char)
    requires d < 10
    ensures IsDigit(c) && DigitValue(c) == d
  {
    ('0' as int + d) as char
  }

  function Pow10(n: nat): (p: int)
    ensures p > 0
  {
    if n == 0 then 1 else 10 * Pow10(n - 1)
  }

  function SkipSpace(s: string): string {
    if s != [] && IsSpace(s[0]) then SkipSpace(s[1..]) else s
  }

  /** The value of the longest digit prefix of `s`, read after digits worth `acc`. */
  function Accumulate(s: string, acc: nat): nat {
    if s != [] && IsDigit(s[0]) then Accumulate(s[1..], 10 * acc + DigitValue(s[0])) else acc
  }

  /** An unsigned numeral; there must be at least one digit. */
  function Magnitude(s: string): Option<int> {
    if s != [] && IsDigit(s[0]) then Some(Accumulate(s, 0)) else None
  }

  function InIntRange(v: int): Option<int> {
    if INT_MIN <= v <= INT_MAX then Some(v) else None
  }

  /** An optional sign and a numeral. */
  function Signed(s: string): Option<int> {
    if s != [] && s[0] == '-' then
      var m :- Magnitude(s[1..]);
      InIntRange(-m)
    else
      var m :- Magnitude(if s != [] && s[0] == '+' then s[1..] else s);
      InIntRange(m)
  }

  function Stoi(text: string): Option<int> {
    Signed(SkipSpace(text))
  }

  /** `n` written with exactly `width` decimal digits. */
  function Numeral(n: nat, width: nat): (s: string)
    requires n < Pow10(width)
    ensures |s| == width
    ensures forall c <- s :: IsDigit(c)
  {
    if width == 0 then []
    else
      var unit := Pow10(width - 1);
      assert n / unit < 10 by { QuotientIsDigit(n, unit); }
      [DigitChar(n / unit)] + Numeral(n % unit, width - 1)
  }

  lemma QuotientIsDigit(n: nat, unit: nat)
    requires 0 < unit && n < 10 * unit
    ensures n / unit < 10
  {
  }

  /** Shifting a leading digit into the accumulator moves its weight, nothing else. */
  lemma ShiftDigit(n: nat, unit: nat, acc: nat)
    requires 0 < unit
    ensures (10 * acc + n / unit) * unit + n % unit == acc * (10 * unit) + n
  {
  }

  /** The text does not go on with a digit. */
  predicate Ends(rest: string) {
    rest == [] || !IsDigit(rest[0])
  }

  /** A numeral is its leading digit and the numeral of what is left. */
  lemma LeadingDigit(n: nat, width: nat)
    requires 0 < width && n < Pow10(width)
    ensures Pow10(width) == 10 * Pow10(width - 1)
    ensures n / Pow10(width - 1) < 10 && n % Pow10(width - 1) < Pow10(width - 1)
    ensures Numeral(n, width) == [DigitChar(n / Pow10(width - 1))] + Numeral(n % Pow10(width - 1), width - 1)
  {
    QuotientIsDigit(n, Pow10(width - 1));
  }

  /** Reading the leading digit shifts it into the accumulator. */
  lemma AccumulateDigit(d: nat, tail: string, acc: nat)
    requires d < 10
    ensures Accumulate([DigitChar(d)] + tail, acc) == Accumulate(tail, 10 * acc + d)
  {
    assert ([DigitChar(d)] + tail)[1..] == tail;
  }

  lemma {:induction false} AccumulateNumeral(n: nat, width: nat, acc: nat, rest: string)
    requires n < Pow10(width) && Ends(rest)
    ensures Accumulate(Numeral(n, width) + rest, acc) == acc * Pow10(width) + n
  {
    if width == 0 {
      assert Numeral(n, width) + rest == rest;
    } else {
      hide *;
      LeadingDigit(n, width);
      var unit := Pow10(width - 1);
      var d, m := n / unit, n % unit;
      var tail := Numeral(m, width - 1);
      assert Numeral(n, width) + rest == [DigitChar(d)] + (tail + rest);
      AccumulateDigit(d, tail + rest, acc);
      AccumulateNumeral(m, width - 1, 10 * acc + d, rest);
      ShiftDigit(n, unit, acc);
    }
  }

  lemma MagnitudeNumeral(n: nat, width: nat, rest: string)
    requires 0 < width && n < Pow10(width) && Ends(rest)
    ensures var s := Numeral(n, width) + rest;
      s != [] && IsDigit(s[0]) && Magnitude(s) == Some(n)
  {
    assert IsDigit(Numeral(n, width)[0]);
    AccumulateNumeral(n, width, 0, rest);
    hide Accumulate;
  }

  /** The white space of the C locale, one by one. */
  const WHITE: string := [' ', '\t', '\n', '\r', 11 as char, 12 as char]

  predicate AllSpace(w: string) {
    forall i :: 0 <= i < |w| ==> w[i] in WHITE
  }

  lemma {:induction false} SkipsAllSpace(w: string, s: string)
    requires AllSpace(w) && (s == [] || s[0] !in WHITE)
    ensures SkipSpace(w + s) == s
  {
    if w == [] {
      assert w + s == s;
    } else {
      assert w[0] in WHITE;
      assert (w + s)[1..] == w[1..] + s;
      SkipsAllSpace(w[1..], s);
    }
  }

  /**
   What the conversion makes of white space, an optional sign, digits and anything after them: the signed number,
   if it fits an `int`.
   */
  lemma {:induction false} StoiSigned(w: string, sign: string, n: int, width: nat, rest: string)
    requires AllSpace(w) && (sign == "" || sign == "+" || sign == "-")
    requires 0 < width && 0 <= n < Pow10(width) && Ends(rest)
    ensures var v := if sign == "-" then -n else n;
      Stoi(w + sign + Numeral(n, width) + rest) == if -0x8000_0000 <= v <= 0x7fff_ffff then Some(v) else None
  {
    hide Numeral;
    hide Magnitude;
    hide SkipSpace;
    var digits := Numeral(n, width) + rest;
    MagnitudeNumeral(n, width, rest);
    var s := sign + digits;
    assert w + sign + Numeral(n, width) + rest == w + s;
    assert sign != "" ==> s[1..] == digits;
    assert sign == "" ==> s == digits;
    SkipsAllSpace(w, s);
  }

  /** And it fails when no digit follows. */
  lemma {:induction false} StoiNothing(w: string, sign: string, rest: string)
    requires AllSpace(w) && (sign == "" || sign == "+" || sign == "-") && Ends(rest)
    requires sign == "" && rest != [] ==> rest[0] !in WHITE && rest[0] !in "+-"
    ensures Stoi(w + sign + rest).None?
  {
    hide SkipSpace;
    var s := sign + rest;
    assert w + sign + rest == w + s;
    assert sign != "" ==> s[1..] == rest;
    assert sign == "" ==> s == rest;
    SkipsAllSpace(w, s);
  }

  /** Reading a numeral back yields the number, whatever the width of the field. */
  lemma {:induction false} StoiNumeral(n: nat, width: nat)
    requires 0 < width && n < Pow10(width) && n <= INT_MAX
    ensures Stoi(Numeral(n, width)) == Some(n)
  {
    StoiSigned("", "", n, width, "");
    hide Stoi;
    assert "" + "" + Numeral(n, width) + "" == Numeral(n, width);
  }

  lemma ProductMonotone(a: int, b: int, c: nat)
    requires a <= b
    ensures a * c <= b * c
  {
  }

  lemma {:induction false} AccumulateBound(s: string, acc: nat)
    ensures Accumulate(s, acc) < (acc + 1) * Pow10(|s|)
  {
    if s != [] && IsDigit(s[0]) {
      var next := 10 * acc + DigitValue(s[0]);
      var unit := Pow10(|s| - 1);
      calc {
        Accumulate(s, acc);
        Accumulate(s[1..], next);
      < { AccumulateBound(s[1..], next); }
        (next + 1) * unit;
      <= { ProductMonotone(next + 1, 10 * acc + 10, unit); }
        (10 * acc + 10) * unit;
        (acc + 1) * (10 * unit);
      }
    } else {
      ProductMonotone(1, Pow10(|s|), acc + 1);
    }
  }

  lemma {:induction false} Pow10Monotone(m: nat, n: nat)
    requires m <= n
    ensures Pow10(m) <= Pow10(n)
  {
    if m < n {
      Pow10Monotone(m, n - 1);
    }
  }

  lemma {:induction false} SkipSpaceShortens(s: string)
    ensures |SkipSpace(s)| <= |s|
  {
    if s != [] && IsSpace(s[0]) {
      SkipSpaceShortens(s[1..]);
    }
  }

  lemma MagnitudeBound(s: string, width: nat)
    requires |s| <= width
    ensures Magnitude(s).Some? ==> 0 <= Magnitude(s).value < Pow10(width)
  {
    AccumulateBound(s, 0);
    Pow10Monotone(|s|, width);
  }

  lemma SignedBound(s: string)
    ensures Signed(s).Some? ==> s != [] && -Pow10(|s| - 1) < Signed(s).value < Pow10(|s|)
  {
    hide Magnitude;
    hide Pow10;
    if s == [] {
      assert Signed(s).None? by { NoMagnitude(); }
    } else {
      MagnitudeBound(s, |s|);
      MagnitudeBound(s[1..], |s| - 1);
      Pow10Monotone(|s| - 1, |s|);
    }
  }

  lemma NoMagnitude()
    ensures Magnitude([]).None?
  {
  }

  /** A field of `w` characters holds a value below 10^w, and a negative one loses a place to its sign. */
  lemma {:induction false} StoiBound(text: string)
    ensures Stoi(text).Some? ==> text != [] && -Pow10(|text| - 1) < Stoi(text).value < Pow10(|text|)
  {
    hide Signed;
    hide Pow10;
    var s := SkipSpace(text);
    SkipSpaceShortens(text);
    SignedBound(s);
    if s != [] {
      Pow10Monotone(|s|, |text|);
      Pow10Monotone(|s| - 1, |text| - 1);
    }
  }
}
