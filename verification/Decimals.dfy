/** Canonical decimal strings and the integers, in units of 10^-12, that they stand for. */
module Decimals {
  import opened Wrappers

  const PLACES := 12

  /** v times 10 to the power `places`. */
  function Shifted(v: int, places: nat): int {
    if places == 0 then v else 10 * Shifted(v, places - 1)
  }

  predicate IsDigit(ch: char) {
    '0' <= ch <= '9'
  }

  predicate AllDigits(s: string) {
    forall i :: 0 <= i < |s| ==> IsDigit(s[i])
  }

  function DigitValue(ch: char): nat
    requires IsDigit(ch)
  {
    ch as int - '0' as int
  }

  function Digit(d: nat): (ch: char)
    requires d < 10
    ensures IsDigit(ch) && DigitValue(ch) == d
  {
    ('0' as int + d) as char
  }

  /** The number a digit string denotes. */
  function Value(s: string): (v: nat)
    requires AllDigits(s)
  {
    if s == "" then 0 else 10 * Value(s[..|s| - 1]) + DigitValue(s[|s| - 1])
  }

  /** The decimal digits of a number, without leading zeros. */
  function NatString(n: nat): (s: string)
    ensures AllDigits(s) && s != ""
  {
    if n < 10 then [Digit(n)] else NatString(n / 10) + [Digit(n % 10)]
  }

  predicate NoLeadingZero(s: string) {
    s != "" && (|s| > 1 ==> s[0] != '0')
  }

  function Zeros(n: nat): (s: string)
    ensures |s| == n && AllDigits(s)
  {
    if n == 0 then "" else Zeros(n - 1) + "0"
  }

  function TrimZeros(s: string): (t: string)
    ensures |t| <= |s| && (t != "" ==> t[|t| - 1] != '0')
    ensures AllDigits(s) ==> AllDigits(t)
  {
    if s != "" && s[|s| - 1] == '0' then TrimZeros(s[..|s| - 1]) else s
  }

  function Split(s: string): (parts: seq<string>)
    ensures parts != []
  {
    if '.' !in s then [s]
    else
      var i := IndexOfDot(s);
      [s[..i]] + Split(s[i + 1..])
  }

  function IndexOfDot(s: string): (i: nat)
    requires '.' in s
    ensures i < |s| && s[i] == '.' && '.' !in s[..i]
  {
    if s[0] == '.' then 0
    else
      assert '.' in s[1..];
      var i := IndexOfDot(s[1..]) + 1;
      assert s[..i] == [s[0]] + s[1..][..i - 1];
      i
  }

  // ----- Strings of the form whole[.fraction] -----

  predicate IsFraction(s: string) {
    1 <= |s| <= PLACES && AllDigits(s)
  }

  /** What the parser accepts, before the sign of the number is looked at. */
  predicate Grammar(value: string) {
    var parts := Split(value);
    && |parts| <= 2 && NoLeadingZero(parts[0]) && AllDigits(parts[0])
    && (|parts| == 2 ==> IsFraction(parts[1]))
  }

  function Fraction(value: string): string {
    var parts := Split(value);
    if |parts| == 2 then parts[1] else ""
  }

  /** The integer a grammatical string denotes, in units of 10^-12. */
  function Magnitude(value: string): int
    requires Grammar(value)
  {
    var parts := Split(value);
    Shifted(Value(parts[0] + Fraction(value)), PLACES - |Fraction(value)|)
  }

  predicate IsNegative(s: string) {
    s != "" && s[0] == '-'
  }

  function Unsigned(s: string): string {
    if IsNegative(s) then s[1..] else s
  }

  /** The strings a Decimal holds: no trailing zeros in the fraction and no negative zero. */
  predicate Canonical(s: string) {
    var u := Unsigned(s);
    && Grammar(u)
    && (Fraction(u) != "" ==> Fraction(u)[|Fraction(u)| - 1] != '0')
    && (IsNegative(s) ==> u != "0")
  }

  function Scaled(s: string): int
    requires Canonical(s)
  {
    if IsNegative(s) then -Magnitude(Unsigned(s)) else Magnitude(s)
  }

  function WithFraction(whole: string, fraction: string): string {
    if fraction == "" then whole else whole + "." + fraction
  }

  function FromMagnitude(n: nat): string {
    Composed(n / 1_000_000_000_000, n % 1_000_000_000_000)
  }

  function Composed(q: nat, r: nat): string {
    if r == 0 then NatString(q) else WithFraction(NatString(q), TrimZeros(Padded(r)))
  }

  function FromScaled(n: int): string {
    if n < 0 then "-" + FromMagnitude(-n) else FromMagnitude(n)
  }

  // ----- Shifting -----

  lemma {:induction false} ShiftedSum(a: int, b: int, n: nat)
    ensures Shifted(a + b, n) == Shifted(a, n) + Shifted(b, n)
  {
    if n > 0 { ShiftedSum(a, b, n - 1); }
  }

  lemma {:induction false} ShiftedTwice(v: int, m: nat, n: nat)
    ensures Shifted(Shifted(v, m), n) == Shifted(v, m + n)
  {
    if n > 0 { ShiftedTwice(v, m, n - 1); }
  }

  lemma {:induction false} ShiftedGrows(a: int, b: int, n: nat)
    ensures a < b <==> Shifted(a, n) < Shifted(b, n)
  {
    if n > 0 { ShiftedGrows(a, b, n - 1); }
  }

  lemma {:induction false} ShiftedZero(n: nat)
    ensures Shifted(0, n) == 0
  {
    if n > 0 { ShiftedZero(n - 1); }
  }

  lemma ShiftedByPlaces(v: int)
    ensures Shifted(v, PLACES) == v * 1_000_000_000_000
  {
    ShiftedTwice(v, 6, 6);
    SixPlaces(v);
    SixPlaces(Shifted(v, 6));
  }

  lemma SixPlaces(v: int)
    ensures Shifted(v, 6) == 1_000_000 * v
  {
    assert Shifted(v, 3) == 10 * Shifted(v, 2) == 100 * Shifted(v, 1) == 1_000 * v;
    assert Shifted(v, 6) == 10 * Shifted(v, 5) == 100 * Shifted(v, 4) == 1_000 * Shifted(v, 3);
  }

  // ----- Digit strings -----

  lemma {:induction false} ValueConcat(a: string, b: string)
    requires AllDigits(a) && AllDigits(b)
    ensures AllDigits(a + b) && Value(a + b) == Shifted(Value(a), |b|) + Value(b)
  {
    if b == "" {
      assert a + b == a;
    } else {
      var front := b[..|b| - 1];
      assert (a + b)[..|a + b| - 1] == a + front;
      ValueConcat(a, front);
    }
  }

  lemma {:induction false} ValueOfZeros(n: nat)
    ensures Value(Zeros(n)) == 0
  {
    if n > 0 {
      ValueOfZeros(n - 1);
      assert (Zeros(n - 1) + "0")[..n - 1] == Zeros(n - 1);
    }
  }

  lemma {:induction false} ValueBound(s: string)
    requires AllDigits(s)
    ensures Value(s) < Shifted(1, |s|)
  {
    if s != "" {
      ValueBound(s[..|s| - 1]);
    }
  }

  lemma {:induction false} ValueOfNatString(n: nat)
    ensures Value(NatString(n)) == n && NoLeadingZero(NatString(n))
    ensures n > 0 ==> NatString(n)[0] != '0'
  {
    if n < 10 {
      assert [Digit(n)][..0] == "";
    } else {
      ValueOfNatString(n / 10);
      var s := NatString(n);
      assert s[..|s| - 1] == NatString(n / 10);
    }
  }

  /** Digit strings of one length are equal when their values are. */
  lemma {:induction false} SameWidthSameDigits(a: string, b: string)
    requires AllDigits(a) && AllDigits(b) && |a| == |b| && Value(a) == Value(b)
    ensures a == b
  {
    if a != "" {
      var n := |a| - 1;
      SameWidthSameDigits(a[..n], b[..n]);
      assert a == a[..n] + [a[n]] && b == b[..n] + [b[n]];
    }
  }

  lemma {:induction false} ValueAtLeast(s: string)
    requires AllDigits(s) && s != "" && s[0] != '0'
    ensures Value(s) >= Shifted(1, |s| - 1) >= 1
  {
    if |s| == 1 {
      assert s[..0] == "";
    } else {
      ValueAtLeast(s[..|s| - 1]);
    }
  }

  lemma {:induction false} PowersGrow(i: nat, j: nat)
    requires i <= j
    ensures 1 <= Shifted(1, i) <= Shifted(1, j)
  {
    if i < j {
      PowersGrow(i, j - 1);
    } else if i > 0 {
      PowersGrow(i - 1, i - 1);
    }
  }

  lemma Longer(s: string, t: string)
    requires AllDigits(s) && AllDigits(t) && t != "" && t[0] != '0' && |s| < |t|
    ensures Value(s) < Value(t)
  {
    ValueAtLeast(t);
    ValueBound(s);
    PowersGrow(|s|, |t| - 1);
  }

  /** Without leading zeros the value determines the digits. */
  lemma NatStringOfValue(s: string)
    requires AllDigits(s) && NoLeadingZero(s)
    ensures NatString(Value(s)) == s
  {
    var t := NatString(Value(s));
    ValueOfNatString(Value(s));
    if s[0] == '0' {
      assert |s| == 1 && s[..0] == "";
    } else {
      ValueAtLeast(s);
      if |s| != |t| {
        Longer(if |s| < |t| then s else t, if |s| < |t| then t else s);
      }
    }
    SameWidthSameDigits(s, t);
  }

  lemma {:induction false} Trimmed(s: string)
    requires AllDigits(s)
    ensures Value(s) == Shifted(Value(TrimZeros(s)), |s| - |TrimZeros(s)|)
  {
    if s != "" && s[|s| - 1] == '0' {
      Trimmed(s[..|s| - 1]);
    }
  }

  lemma {:induction false} TrimOfPadded(s: string, n: nat)
    requires AllDigits(s) && (s != "" ==> s[|s| - 1] != '0')
    ensures TrimZeros(s + Zeros(n)) == s
  {
    if n == 0 {
      assert s + Zeros(0) == s;
    } else {
      var t := s + Zeros(n);
      assert t[..|t| - 1] == s + Zeros(n - 1) && t[|t| - 1] == '0';
      TrimOfPadded(s, n - 1);
    }
  }

  // ----- Splitting and joining -----

  lemma DigitsHaveNoDot(s: string)
    requires AllDigits(s)
    ensures '.' !in s && Split(s) == [s]
  {
  }

  lemma SplitJoined(whole: string, fraction: string)
    requires AllDigits(whole) && AllDigits(fraction)
    ensures Split(WithFraction(whole, fraction)) == if fraction == "" then [whole] else [whole, fraction]
  {
    DigitsHaveNoDot(whole);
    DigitsHaveNoDot(fraction);
    if fraction != "" {
      var s := whole + "." + fraction;
      assert s[|whole|] == '.';
      var i := IndexOfDot(s);
      assert i == |whole| by {
        assert forall j :: 0 <= j < |whole| ==> s[j] == whole[j];
      }
      assert s[..i] == whole && s[i + 1..] == fraction;
    }
  }

  /** A grammatical string is its two parts joined, unless it spells out an empty fraction, which it cannot. */
  lemma {:induction false} JoinSplit(s: string)
    requires |Split(s)| <= 2
    ensures |Split(s)| == 1 ==> s == Split(s)[0]
    ensures |Split(s)| == 2 ==> s == Split(s)[0] + "." + Split(s)[1]
  {
    if '.' in s {
      var i := IndexOfDot(s);
      assert s == s[..i] + "." + s[i + 1..];
      var rest := Split(s[i + 1..]);
      assert |rest| == 1 ==> rest[0] == s[i + 1..];
    }
  }

  // ----- Whole and fraction -----

  /** The fraction as a number of units. */
  function Units(fraction: string): int
    requires AllDigits(fraction) && |fraction| <= PLACES
  {
    Shifted(Value(fraction), PLACES - |fraction|)
  }

  lemma UnitsBound(fraction: string)
    requires AllDigits(fraction) && |fraction| <= PLACES
    ensures 0 <= Units(fraction) < 1_000_000_000_000
  {
    var n := PLACES - |fraction|;
    ValueBound(fraction);
    ShiftedGrows(Value(fraction), Shifted(1, |fraction|), n);
    ShiftedTwice(1, |fraction|, n);
    ShiftedByPlaces(1);
    ShiftedGrows(-1, Value(fraction), n);
    ShiftedGrows(Value(fraction), 0, n);
    ShiftedZero(n);
  }

  lemma MagnitudeOf(whole: string, fraction: string)
    requires AllDigits(whole) && NoLeadingZero(whole) && AllDigits(fraction) && |fraction| <= PLACES
    ensures Grammar(WithFraction(whole, fraction))
    ensures Magnitude(WithFraction(whole, fraction)) == Value(whole) * 1_000_000_000_000 + Units(fraction)
  {
    JoinedIsGrammatical(whole, fraction);
    MagnitudeBySplit(WithFraction(whole, fraction), whole, fraction);
  }

  lemma MagnitudeBySplit(s: string, whole: string, fraction: string)
    requires Grammar(s) && Split(s)[0] == whole && Fraction(s) == fraction
    requires AllDigits(whole) && AllDigits(fraction) && |fraction| <= PLACES
    ensures Magnitude(s) == Value(whole) * 1_000_000_000_000 + Units(fraction)
  {
    MagnitudeOfParts(whole, fraction);
  }

  lemma JoinedIsGrammatical(whole: string, fraction: string)
    requires AllDigits(whole) && NoLeadingZero(whole) && AllDigits(fraction) && |fraction| <= PLACES
    ensures var s := WithFraction(whole, fraction); Grammar(s) && Fraction(s) == fraction && Split(s)[0] == whole
  {
    SplitJoined(whole, fraction);
  }

  lemma Recombine(w: int, f: int, k: nat)
    requires k <= PLACES
    ensures Shifted(Shifted(w, k) + f, PLACES - k) == w * 1_000_000_000_000 + Shifted(f, PLACES - k)
  {
    ShiftedSum(Shifted(w, k), f, PLACES - k);
    ShiftedTwice(w, k, PLACES - k);
    ShiftedByPlaces(w);
  }

  lemma MagnitudeOfParts(whole: string, fraction: string)
    requires AllDigits(whole) && AllDigits(fraction) && |fraction| <= PLACES
    ensures AllDigits(whole + fraction)
    ensures Shifted(Value(whole + fraction), PLACES - |fraction|) == Value(whole) * 1_000_000_000_000 + Units(fraction)
  {
    ValueConcat(whole, fraction);
    MagnitudeOfValue(whole, fraction, Value(whole + fraction));
  }

  lemma MagnitudeOfValue(whole: string, fraction: string, v: int)
    requires AllDigits(whole) && AllDigits(fraction) && |fraction| <= PLACES
    requires v == Shifted(Value(whole), |fraction|) + Value(fraction)
    ensures Shifted(v, PLACES - |fraction|) == Value(whole) * 1_000_000_000_000 + Units(fraction)
  {
    Recombine(Value(whole), Value(fraction), |fraction|);
  }

  /** r as twelve digits. */
  function Padded(r: nat): (s: string)
    ensures AllDigits(s)
  {
    var frac := NatString(r);
    if |frac| <= PLACES then Zeros(PLACES - |frac|) + frac else frac
  }

  lemma PaddedWidth(r: nat)
    requires 0 < r < 1_000_000_000_000
    ensures |Padded(r)| == PLACES && Value(Padded(r)) == r
  {
    var frac := NatString(r);
    ValueOfNatString(r);
    ValueAtLeast(frac);
    ShiftedByPlaces(1);
    if |frac| > PLACES { PowersGrow(PLACES, |frac| - 1); }
    var zeros := Zeros(PLACES - |frac|);
    ValueConcat(zeros, frac);
    ValueOfZeros(PLACES - |frac|);
    ShiftedZero(|frac|);
  }

  lemma FractionOf(r: nat)
    requires 0 < r < 1_000_000_000_000
    ensures var f := TrimZeros(Padded(r)); IsFraction(f) && f[|f| - 1] != '0' && Units(f) == r
  {
    PaddedWidth(r);
    Trimmed(Padded(r));
    var f := TrimZeros(Padded(r));
    if f == "" { ShiftedZero(PLACES); }
  }

  lemma FractionOfUnits(f: string)
    requires IsFraction(f) && f[|f| - 1] != '0'
    ensures 0 < Units(f) < 1_000_000_000_000 && TrimZeros(Padded(Units(f))) == f
  {
    var n := PLACES - |f|;
    UnitsBound(f);
    ShiftedGrows(0, Value(f), n);
    ShiftedZero(n);
    PaddedWidth(Units(f));
    ValueConcat(f, Zeros(n));
    ValueOfZeros(n);
    SameWidthSameDigits(Padded(Units(f)), f + Zeros(n));
    TrimOfPadded(f, n);
  }

  // ----- The two conversions are inverse -----

  /** The string s is the canonical non-negative form of n. */
  ghost predicate Writes(s: string, n: int) {
    Canonical(s) && !IsNegative(s) && Magnitude(s) == n && (s == "0" <==> n == 0)
  }

  lemma NoUnits()
    ensures Units("") == 0
  {
    ShiftedZero(PLACES);
  }

  lemma ZeroIsWritten(whole: string)
    requires AllDigits(whole) && NoLeadingZero(whole)
    ensures Value(whole) == 0 <==> whole == "0"
  {
    if whole[0] == '0' {
      assert |whole| == 1 && whole[..0] == "";
    } else {
      ValueAtLeast(whole);
    }
  }

  lemma FirstOfWhole(s: string, whole: string, f: string)
    requires AllDigits(whole) && whole != "" && s == WithFraction(whole, f)
    ensures s[0] == whole[0] && !IsNegative(s) && (s == "0" <==> whole == "0" && f == "")
  {
    assert IsDigit(whole[0]);
    if f != "" { assert |s| > 1; }
  }

  lemma PartsAreCanonical(s: string, whole: string, f: string)
    requires AllDigits(whole) && NoLeadingZero(whole) && AllDigits(f) && |f| <= PLACES
    requires f != "" ==> f[|f| - 1] != '0'
    requires s == WithFraction(whole, f)
    ensures Canonical(s) && !IsNegative(s)
  {
    FirstOfWhole(s, whole, f);
    JoinedIsGrammatical(whole, f);
  }

  /** The two parts of a canonical string write the number they make up. */
  lemma PartsWrite(s: string, whole: string, f: string, v: int, u: int, n: int)
    requires AllDigits(whole) && NoLeadingZero(whole) && AllDigits(f) && |f| <= PLACES
    requires f != "" ==> f[|f| - 1] != '0'
    requires s == WithFraction(whole, f) && v == Value(whole) && u == Units(f) >= 0 && (u == 0 <==> f == "")
    requires n == v * 1_000_000_000_000 + u
    ensures Writes(s, n)
  {
    PartsAreCanonical(s, whole, f);
    FirstOfWhole(s, whole, f);
    ZeroIsWritten(whole);
    MagnitudeOf(whole, f);
  }

  lemma WholeWrites(q: nat, s: string)
    requires s == Composed(q, 0)
    ensures Writes(s, q * 1_000_000_000_000)
  {
    ValueOfNatString(q);
    NoUnits();
    PartsWrite(s, s, "", q, 0, q * 1_000_000_000_000);
  }

  lemma FractionWrites(q: nat, r: nat, s: string)
    requires 0 < r < 1_000_000_000_000 && s == Composed(q, r)
    ensures Writes(s, q * 1_000_000_000_000 + r)
  {
    ValueOfNatString(q);
    FractionOf(r);
    PartsWrite(s, NatString(q), TrimZeros(Padded(r)), q, r, q * 1_000_000_000_000 + r);
  }

  lemma ComposedIsWritten(q: nat, r: int, s: string, n: int)
    requires 0 <= r < 1_000_000_000_000 && s == Composed(q, r) && n == q * 1_000_000_000_000 + r
    ensures Writes(s, n)
  {
    if r == 0 {
      WholeWrites(q, s);
    } else {
      FractionWrites(q, r, s);
    }
  }

  lemma MagnitudeRoundTrip(n: nat)
    ensures Writes(FromMagnitude(n), n)
  {
    ComposedIsWritten(n / 1_000_000_000_000, n % 1_000_000_000_000, FromMagnitude(n), n);
  }

  lemma NegativeForm(m: string, n: int)
    requires Writes(m, n) && n != 0
    ensures Canonical("-" + m) && IsNegative("-" + m) && Unsigned("-" + m) == m && Scaled("-" + m) == -n
  {
    assert ("-" + m)[1..] == m;
  }

  lemma NonNegativeForm(m: string, n: int)
    requires Writes(m, n)
    ensures Canonical(m) && Scaled(m) == n
  {
  }

  /** Every integer survives being written and read back. */
  lemma ScaledOfFromScaled(n: int)
    ensures Canonical(FromScaled(n)) && Scaled(FromScaled(n)) == n
  {
    var m := Written(if n < 0 then -n else n);
    if n < 0 {
      NegativeForm(m, -n);
    } else {
      NonNegativeForm(m, n);
    }
    assert FromScaled(n) == if n < 0 then "-" + m else m;
  }

  lemma Written(n: nat) returns (m: string)
    ensures m == FromMagnitude(n) && Writes(m, n)
  {
    m := FromMagnitude(n);
    MagnitudeRoundTrip(n);
  }

  lemma PartsComposed(whole: string, f: string)
    requires AllDigits(whole) && NoLeadingZero(whole) && AllDigits(f) && |f| <= PLACES
             && (f != "" ==> f[|f| - 1] != '0')
    ensures 0 <= Units(f) < 1_000_000_000_000 && Composed(Value(whole), Units(f)) == WithFraction(whole, f)
  {
    NatStringOfValue(whole);
    UnitsBound(f);
    if f == "" {
      ShiftedZero(PLACES);
    } else {
      FractionOfUnits(f);
    }
  }

  lemma FromMagnitudeOf(q: nat, r: int, n: nat)
    requires 0 <= r < 1_000_000_000_000 && n == q * 1_000_000_000_000 + r
    ensures FromMagnitude(n) == Composed(q, r)
  {
    QuotientAndRemainder(q, r);
  }

  lemma CanonicalParts(s: string) returns (whole: string, f: string)
    requires Canonical(s) && !IsNegative(s)
    ensures s == WithFraction(whole, f) && AllDigits(whole) && NoLeadingZero(whole)
    ensures AllDigits(f) && |f| <= PLACES && (f != "" ==> f[|f| - 1] != '0')
    ensures Magnitude(s) == Value(whole) * 1_000_000_000_000 + Units(f)
  {
    whole, f := Split(s)[0], Fraction(s);
    JoinSplit(s);
    MagnitudeBySplit(s, whole, f);
  }

  lemma MagnitudeRecovers(s: string)
    requires Canonical(s) && !IsNegative(s)
    ensures Magnitude(s) >= 0 && FromMagnitude(Magnitude(s)) == s
  {
    var whole, f := CanonicalParts(s);
    var n := ShortWrites(whole, f);
  }

  lemma QuotientAndRemainder(q: nat, r: int)
    requires 0 <= r < 1_000_000_000_000
    ensures (q * 1_000_000_000_000 + r) / 1_000_000_000_000 == q && (q * 1_000_000_000_000 + r) % 1_000_000_000_000 == r
  {
  }

  lemma UnsignedForm(s: string)
    requires Canonical(s)
    ensures Canonical(Unsigned(s)) && !IsNegative(Unsigned(s))
    ensures IsNegative(s) ==> s == "-" + Unsigned(s)
  {
    FirstIsDigit(Unsigned(s));
  }

  lemma FirstIsDigit(u: string)
    requires Grammar(u)
    ensures u != "" && IsDigit(u[0])
  {
    JoinSplit(u);
    assert Split(u)[0] != "" && IsDigit(Split(u)[0][0]);
  }

  /** Sign and magnitude of a canonical string. */
  lemma SignAndMagnitude(s: string)
    requires Canonical(s)
    ensures IsNegative(s) ==> Scaled(s) < 0 && s == "-" + FromMagnitude(-Scaled(s))
    ensures !IsNegative(s) ==> Scaled(s) >= 0 && s == FromMagnitude(Scaled(s))
    ensures Scaled(s) == 0 <==> s == "0"
  {
    UnsignedForm(s);
    var u := Unsigned(s);
    MagnitudeRecovers(u);
    MagnitudeRoundTrip(Magnitude(u));
  }

  /** Every canonical string survives being read and written back. */
  lemma FromScaledOfScaled(s: string)
    requires Canonical(s)
    ensures FromScaled(Scaled(s)) == s
  {
    SignAndMagnitude(s);
  }

  /** Equal numbers are equal strings. */
  lemma EqualNumbersEqualStrings(a: string, b: string)
    requires Canonical(a) && Canonical(b)
    ensures a == b <==> Scaled(a) == Scaled(b)
  {
    FromScaledOfScaled(a);
    FromScaledOfScaled(b);
  }

  // ----- Decimals; None is the invalid zero Decimal -----

  datatype DecimalError = InvalidDecimal

  type Decimal = Option<string>

  predicate IsValid(d: Decimal) {
    d.Some?
  }

  predicate IsPositive(d: Decimal) {
    IsValid(d) && d.value != "0" && !IsNegative(d.value)
  }

  predicate IsNonNegative(d: Decimal) {
    IsValid(d) && !IsNegative(d.value)
  }

  ghost predicate WellFormed(d: Decimal) {
    d.Some? ==> Canonical(d.value)
  }

  function Add(a: Decimal, b: Decimal): Result<Decimal, DecimalError>
    requires WellFormed(a) && WellFormed(b)
  {
    if !IsValid(a) || !IsValid(b) then Failure(InvalidDecimal)
    else Success(Some(FromScaled(Scaled(a.value) + Scaled(b.value))))
  }

  function Sub(a: Decimal, b: Decimal): Result<Decimal, DecimalError>
    requires WellFormed(a) && WellFormed(b)
  {
    if !IsValid(a) || !IsValid(b) then Failure(InvalidDecimal)
    else Success(Some(FromScaled(Scaled(a.value) - Scaled(b.value))))
  }

  function Compare(a: Decimal, b: Decimal): Result<int, DecimalError>
    requires WellFormed(a) && WellFormed(b)
  {
    if !IsValid(a) || !IsValid(b) then Failure(InvalidDecimal)
    else
      var x, y := Scaled(a.value), Scaled(b.value);
      Success(if x < y then -1 else if x > y then 1 else 0)
  }

  /** Sums and differences are those of the integers, at any size. */
  lemma ArithmeticIsExact(x: int, y: int)
    ensures Canonical(FromScaled(x)) && Canonical(FromScaled(y))
    ensures Add(Some(FromScaled(x)), Some(FromScaled(y)))
            == Result<Decimal, DecimalError>.Success(Some(FromScaled(x + y)))
    ensures Sub(Some(FromScaled(x)), Some(FromScaled(y)))
            == Result<Decimal, DecimalError>.Success(Some(FromScaled(x - y)))
  {
    var a := Printed(x);
    var b := Printed(y);
    SumOfScaled(a, b, x, y);
  }

  lemma Printed(n: int) returns (s: string)
    ensures s == FromScaled(n) && Canonical(s) && Scaled(s) == n
  {
    s := FromScaled(n);
    ScaledOfFromScaled(n);
  }

  lemma SumOfScaled(a: string, b: string, x: int, y: int)
    requires Canonical(a) && Canonical(b) && Scaled(a) == x && Scaled(b) == y
    ensures Add(Some(a), Some(b)) == Result<Decimal, DecimalError>.Success(Some(FromScaled(x + y)))
    ensures Sub(Some(a), Some(b)) == Result<Decimal, DecimalError>.Success(Some(FromScaled(x - y)))
  {
  }

  /** The comparison is zero exactly on equal strings, and the sign tests read the sign of the number. */
  lemma ComparisonIsNumeric(a: string, b: string)
    requires Canonical(a) && Canonical(b)
    ensures Compare(Some(a), Some(b)) == Result<int, DecimalError>.Success(0) <==> a == b
    ensures IsPositive(Some(a)) <==> Scaled(a) > 0
    ensures IsNonNegative(Some(a)) <==> Scaled(a) >= 0
  {
    EqualNumbersEqualStrings(a, b);
    SignAndMagnitude(a);
  }

  /** The comparison is the sign of the difference. */
  lemma ComparisonIsSignOfDifference(a: string, b: string, d: string)
    requires Canonical(a) && Canonical(b) && Canonical(d)
    requires Sub(Some(a), Some(b)) == Result<Decimal, DecimalError>.Success(Some(d))
    ensures Compare(Some(a), Some(b)) == Result<int, DecimalError>.Success(1) <==> IsPositive(Some(d))
    ensures Compare(Some(a), Some(b)) == Result<int, DecimalError>.Success(-1) <==> !IsNonNegative(Some(d))
  {
    var x, y := Scaled(a), Scaled(b);
    SumOfScaled(a, b, x, y);
    var printed := Printed(x - y);
    OrderOfScaled(a, b, x, y);
    SignOfDifference(d, x - y);
  }

  lemma SignOfDifference(d: string, n: int)
    requires Canonical(d) && Scaled(d) == n
    ensures (IsPositive(Some(d)) <==> n > 0) && (IsNonNegative(Some(d)) <==> n >= 0)
  {
    SignAndMagnitude(d);
  }

  lemma OrderOfScaled(a: string, b: string, x: int, y: int)
    requires Canonical(a) && Canonical(b) && Scaled(a) == x && Scaled(b) == y
    ensures Compare(Some(a), Some(b)) == Result<int, DecimalError>.Success(if x < y then -1 else if x > y then 1 else 0)
  {
  }

  // ----- Parsing -----

  /** The canonical form of a grammatical string. */
  function Shortened(value: string): string
    requires Grammar(value)
  {
    WithFraction(Split(value)[0], TrimZeros(Fraction(value)))
  }

  method ParseDecimal(value: string, allowZero: bool) returns (d: Result<Decimal, DecimalError>)
    ensures d.Success? <==> Grammar(value) && (allowZero || Magnitude(value) != 0)
    ensures d.Success? ==> d.value.Some? && Canonical(d.value.value) && Scaled(d.value.value) == Magnitude(value)
    ensures d.Success? ==> d.value.value == FromScaled(Magnitude(value)) && IsNonNegative(d.value)
  {
    if value == "" {
      assert Split(value)[0] == "";
      return Failure(InvalidDecimal);
    }
    var parts := Split(value);
    if |parts| > 2 || parts[0] == "" || (|parts[0]| > 1 && parts[0][0] == '0') {
      return Failure(InvalidDecimal);
    }
    var digits := OnlyDigits(parts[0]);
    if !digits {
      return Failure(InvalidDecimal);
    }
    if |parts| == 2 {
      if |parts[1]| == 0 || |parts[1]| > PLACES {
        return Failure(InvalidDecimal);
      }
      digits := OnlyDigits(parts[1]);
      if !digits {
        return Failure(InvalidDecimal);
      }
    }
    var canonical := parts[0];
    if |parts| == 2 {
      var fraction := TrimZeros(parts[1]);
      if fraction != "" {
        canonical := canonical + "." + fraction;
      }
    }
    ShortenedIsCanonical(value);
    if canonical == "0" && !allowZero {
      return Failure(InvalidDecimal);
    }
    d := Success(Some(canonical));
  }

  method OnlyDigits(s: string) returns (ok: bool)
    ensures ok <==> AllDigits(s)
  {
    for i := 0 to |s|
      invariant AllDigits(s[..i])
    {
      if s[i] < '0' || s[i] > '9' {
        return false;
      }
      assert s[..i + 1] == s[..i] + [s[i]];
    }
    assert s[..|s|] == s;
    ok := true;
  }

  lemma ShortWrites(whole: string, short: string) returns (n: nat)
    requires AllDigits(whole) && NoLeadingZero(whole) && AllDigits(short) && |short| <= PLACES
             && (short != "" ==> short[|short| - 1] != '0')
    ensures n == Value(whole) * 1_000_000_000_000 + Units(short)
    ensures WithFraction(whole, short) == FromMagnitude(n) && Writes(WithFraction(whole, short), n)
  {
    PartsComposed(whole, short);
    n := Value(whole) * 1_000_000_000_000 + Units(short);
    FromMagnitudeOf(Value(whole), Units(short), n);
    ComposedIsWritten(Value(whole), Units(short), WithFraction(whole, short), n);
  }

  lemma ShortenedIsCanonical(value: string)
    requires Grammar(value)
    ensures var c := Shortened(value);
            && Canonical(c) && !IsNegative(c) && Scaled(c) == Magnitude(value) && c == FromScaled(Magnitude(value))
            && (c == "0" <==> Magnitude(value) == 0)
  {
    var whole, fraction := Split(value)[0], Fraction(value);
    TrimmedUnits(fraction);
    MagnitudeBySplit(value, whole, fraction);
    var n := ShortWrites(whole, TrimZeros(fraction));
  }

  lemma TrimmedUnits(fraction: string)
    requires AllDigits(fraction) && |fraction| <= PLACES
    ensures Units(TrimZeros(fraction)) == Units(fraction)
  {
    Trimmed(fraction);
    SameUnits(TrimZeros(fraction), fraction);
  }

  lemma SameUnits(short: string, fraction: string)
    requires |short| <= |fraction| <= PLACES && AllDigits(fraction) && AllDigits(short)
    requires Value(fraction) == Shifted(Value(short), |fraction| - |short|)
    ensures Units(short) == Units(fraction)
  {
    ShiftedTwice(Value(short), |fraction| - |short|, PLACES - |fraction|);
  }

  /** Printing a non-negative number and parsing it gives the number back. */
  lemma PrintedIsGrammatical(n: nat)
    ensures Grammar(FromScaled(n)) && Magnitude(FromScaled(n)) == n && Shortened(FromScaled(n)) == FromScaled(n)
  {
    MagnitudeRoundTrip(n);
    ShortenedIsCanonical(FromScaled(n));
  }
}
