/** The one exact scientific form of a JSON number.

    Request digests are taken over canonical text, so a number must be rewritten without
    rounding and two spellings of one value must come out byte for byte the same. */
module CanonicalNumbers {
  import opened Base

  // ----- the number grammar of section 6 of RFC 8259

  datatype Exponent = NoExponent | Exponent(mark: char, sign: string, digits: string)

  datatype Number = Number(negative: bool, integer: string, fraction: Option<string>, exponent: Exponent)

  predicate WellFormed(n: Number) {
    && n.integer != [] && AllDigits(n.integer) && (n.integer[0] == '0' ==> |n.integer| == 1)
    && (n.fraction.Some? ==> n.fraction.value != [] && AllDigits(n.fraction.value))
    && (n.exponent.Exponent? ==>
      && (n.exponent.mark == 'e' || n.exponent.mark == 'E')
      && (n.exponent.sign == "" || n.exponent.sign == "+" || n.exponent.sign == "-")
      && n.exponent.digits != [] && AllDigits(n.exponent.digits))
  }

  function ExponentText(e: Exponent): string {
    if e.NoExponent? then "" else [e.mark] + (e.sign + e.digits)
  }

  function Mantissa(n: Number): string {
    if n.fraction.None? then n.integer else n.integer + ['.'] + n.fraction.value
  }

  function Text(n: Number): string {
    (if n.negative then "-" else "") + (Mantissa(n) + ExponentText(n.exponent))
  }

  // ----- exact value

  /** x * 10^e */
  ghost function Scale(x: real, e: int): real
    decreases if e < 0 then -e else e
  {
    if e == 0 then x else if e > 0 then Scale(10.0 * x, e - 1) else Scale(x / 10.0, e + 1)
  }

  ghost function Scaled(negative: bool, coefficient: nat, scale: int): real {
    if negative then -Scale(coefficient as real, scale) else Scale(coefficient as real, scale)
  }

  function Fraction(n: Number): string {
    if n.fraction.None? then "" else n.fraction.value
  }

  function ExponentValue(n: Number): int
    requires WellFormed(n)
  {
    if n.exponent.NoExponent? then 0
    else if n.exponent.sign == "-" then 0 - DigitsValue(n.exponent.digits)
    else DigitsValue(n.exponent.digits)
  }

  /** The decimal a JSON number text denotes, with no rounding and no exponent bound. */
  ghost function Value(n: Number): real
    requires WellFormed(n)
  {
    Scaled(n.negative, DigitsValue(n.integer + Fraction(n)), ExponentValue(n) - |Fraction(n)|)
  }

  // ----- the rewriting

  /** First index from which p holds, or |s|. */
  function IndexFrom(s: string, p: char -> bool, from: nat): (i: nat)
    requires from <= |s|
    ensures from <= i <= |s|
    ensures forall k :: from <= k < i ==> !p(s[k])
    ensures i < |s| ==> p(s[i])
    decreases |s| - from
  {
    if from == |s| || p(s[from]) then from else IndexFrom(s, p, from + 1)
  }

  function IsMark(c: char): bool { c == 'e' || c == 'E' }
  function IsPoint(c: char): bool { c == '.' }
  function IsNonZero(c: char): bool { c != '0' }

  /** Base-ten integer text with an optional sign. */
  function ParseInteger(s: string): (r: Option<int>) {
    var digits := if s != [] && (s[0] == '+' || s[0] == '-') then s[1..] else s;
    if digits == [] || !AllDigits(digits) then None
    else if s[0] == '-' then Some(0 - DigitsValue(digits)) else Some(DigitsValue(digits))
  }

  function WithoutPlus(s: string): string {
    if s != [] && s[0] == '+' then s[1..] else s
  }

  function TrimRightZeros(s: string): (r: string)
    ensures |r| <= |s| && r == s[..|r|]
    ensures r != [] ==> r[|r| - 1] != '0'
    ensures forall k :: |r| <= k < |s| ==> s[k] == '0'
  {
    if s != [] && s[|s| - 1] == '0' then TrimRightZeros(s[..|s| - 1]) else s
  }

  function IsNegative(value: string): bool {
    value != [] && value[0] == '-'
  }

  function Unsigned(value: string): string {
    if IsNegative(value) then value[1..] else value
  }

  function BeforeMark(body: string): string {
    body[..IndexFrom(body, IsMark, 0)]
  }

  function AfterMark(body: string): Option<int> {
    var mark := IndexFrom(body, IsMark, 0);
    if mark == |body| then Some(0) else ParseInteger(WithoutPlus(body[mark + 1..]))
  }

  function BeforePoint(mantissa: string): string {
    mantissa[..IndexFrom(mantissa, IsPoint, 0)]
  }

  function AfterPoint(mantissa: string): string {
    var point := IndexFrom(mantissa, IsPoint, 0);
    if point == |mantissa| then "" else mantissa[point + 1..]
  }

  /** The parts the rewriting cuts a text into. */
  datatype Parts = Parts(negative: bool, integer: string, fraction: string, exponent: Option<int>)

  function Split(value: string): Parts {
    var body := Unsigned(value);
    var mantissa := BeforeMark(body);
    Parts(IsNegative(value), BeforePoint(mantissa), AfterPoint(mantissa), AfterMark(body))
  }

  function IntegerText(e: int): string {
    if e < 0 then "-" + Decimal(-e) else Decimal(e)
  }

  function LeadingForm(significant: string): string
    requires significant != []
  {
    if |significant| > 1 then [significant[0]] + ['.'] + significant[1..] else significant
  }

  function ExponentForm(exponent: int): string {
    if exponent != 0 then ['e'] + IntegerText(exponent) else ""
  }

  function Scientific(negative: bool, significant: string, exponent: int): string
    requires significant != []
  {
    (if negative then "-" else "") + (LeadingForm(significant) + ExponentForm(exponent))
  }

  /** The canonical text, or None where the exponent is not an integer. */
  function Normalize(value: string): Option<string> {
    Rewrite(Split(value))
  }

  /** The digits from the first to the last non-zero one, and how far the first one stands above
      the units place; None if all are zero. */
  function Significant(integer: string, fraction: string): (r: Option<(string, int)>)
    ensures r.Some? ==>
      && r.value.0 != [] && r.value.0[0] != '0' && r.value.0[|r.value.0| - 1] != '0'
      && (AllDigits(integer) && AllDigits(fraction) ==> AllDigits(r.value.0))
  {
    var digits := integer + fraction;
    var first := IndexFrom(digits, IsNonZero, 0);
    if first == |digits| then None else
      assert digits[first..][0] != '0';
      Some((TrimRightZeros(digits[first..]), |integer| - first - 1))
  }

  function Rewrite(parts: Parts): Option<string> {
    if parts.exponent.None? then None else
      match Significant(parts.integer, parts.fraction)
      case None => Some("0")
      case Some((significant, height)) => Some(Scientific(parts.negative, significant, parts.exponent.value + height))
  }

  // ----- canonical numbers

  datatype Canonical = Zero | Sci(negative: bool, significant: string, exponent: int)

  predicate IsCanonical(c: Canonical) {
    c.Sci? ==>
      && c.significant != [] && AllDigits(c.significant)
      && c.significant[0] != '0' && c.significant[|c.significant| - 1] != '0'
  }

  ghost function CanonicalValue(c: Canonical): real
    requires IsCanonical(c)
  {
    if c.Zero? then 0.0 else Scaled(c.negative, DigitsValue(c.significant), c.exponent - |c.significant| + 1)
  }

  /** A canonical number as a member of the grammar. */
  function AsNumber(c: Canonical): (n: Number)
    requires IsCanonical(c)
    ensures WellFormed(n)
  {
    match c
    case Zero => Number(false, "0", None, NoExponent)
    case Sci(negative, significant, e) =>
      Number(negative, [significant[0]],
             if |significant| > 1 then Some(significant[1..]) else None,
             if e == 0 then NoExponent
             else Exponent('e', if e < 0 then "-" else "", Decimal(if e < 0 then -e else e)))
  }

  /** The canonical number of n. */
  function Canon(n: Number): (c: Canonical)
    requires WellFormed(n)
    ensures IsCanonical(c)
  {
    match Significant(n.integer, Fraction(n))
    case None => Zero
    case Some((significant, height)) => Sci(n.negative, significant, ExponentValue(n) + height)
  }

  // ----- reading back a text of the grammar

  lemma IndexIs(s: string, p: char -> bool, at: nat)
    requires at <= |s| && (forall k :: 0 <= k < at ==> !p(s[k])) && (at < |s| ==> p(s[at]))
    ensures IndexFrom(s, p, 0) == at
  {
  }

  lemma MantissaChars(n: Number)
    requires WellFormed(n)
    ensures Mantissa(n) != [] && IsDigit(Mantissa(n)[0])
    ensures forall k :: 0 <= k < |Mantissa(n)| ==> !IsMark(Mantissa(n)[k])
  {
  }

  lemma SplitMantissa(n: Number)
    requires WellFormed(n)
    ensures BeforePoint(Mantissa(n)) == n.integer && AfterPoint(Mantissa(n)) == Fraction(n)
  {
    IndexIs(Mantissa(n), IsPoint, |n.integer|);
  }

  lemma ExponentReadsBack(n: Number)
    requires WellFormed(n) && n.exponent.Exponent?
    ensures ParseInteger(WithoutPlus(n.exponent.sign + n.exponent.digits)) == Some(ExponentValue(n))
  {
    var e := n.exponent;
    if e.sign == "" { assert e.sign + e.digits == e.digits; }
    else { assert (e.sign + e.digits)[1..] == e.digits; }
  }

  lemma MarkIndex(n: Number)
    requires WellFormed(n)
    ensures IndexFrom(Mantissa(n) + ExponentText(n.exponent), IsMark, 0) == |Mantissa(n)|
  {
    var m := Mantissa(n);
    var body := m + ExponentText(n.exponent);
    MantissaChars(n);
    assert forall k :: 0 <= k < |m| ==> body[k] == m[k];
    IndexIs(body, IsMark, |m|);
  }

  lemma SplitBody(n: Number)
    requires WellFormed(n)
    ensures var body := Mantissa(n) + ExponentText(n.exponent);
      BeforeMark(body) == Mantissa(n) && AfterMark(body) == Some(ExponentValue(n))
  {
    var m, x := Mantissa(n), ExponentText(n.exponent);
    MarkIndex(n);
    if n.exponent.Exponent? {
      assert (m + x)[|m| + 1..] == n.exponent.sign + n.exponent.digits;
      ExponentReadsBack(n);
    }
  }

  lemma SplitSign(n: Number)
    requires WellFormed(n)
    ensures IsNegative(Text(n)) == n.negative
    ensures Unsigned(Text(n)) == Mantissa(n) + ExponentText(n.exponent)
  {
    MantissaChars(n);
    var body := Mantissa(n) + ExponentText(n.exponent);
    assert body[0] == Mantissa(n)[0];
    if n.negative { assert Text(n) == ['-'] + body; } else { assert Text(n) == body; }
  }

  /** Cutting up the text of a grammatical number recovers its parts. */
  lemma SplitText(n: Number)
    requires WellFormed(n)
    ensures Split(Text(n)) == PartsOf(n)
  {
    SplitSign(n);
    SplitBody(n);
    SplitMantissa(n);
  }

  function PartsOf(n: Number): Parts
    requires WellFormed(n)
  {
    Parts(n.negative, n.integer, Fraction(n), Some(ExponentValue(n)))
  }

  lemma LeadingIsMantissa(c: Canonical)
    requires IsCanonical(c) && c.Sci?
    ensures LeadingForm(c.significant) == Mantissa(AsNumber(c))
  {
    if |c.significant| == 1 { assert c.significant == [c.significant[0]]; }
  }

  /** The three signs of an exponent. */
  lemma ExponentFormIs(e: int)
    ensures e == 0 ==> ExponentForm(e) == ExponentText(NoExponent)
    ensures e < 0 ==> ExponentForm(e) == ExponentText(Exponent('e', "-", Decimal(-e)))
    ensures e > 0 ==> ExponentForm(e) == ExponentText(Exponent('e', "", Decimal(e)))
  {
    if e > 0 { assert "" + Decimal(e) == Decimal(e); }
  }

  lemma ExponentFormIsText(c: Canonical)
    requires IsCanonical(c) && c.Sci?
    ensures ExponentForm(c.exponent) == ExponentText(AsNumber(c).exponent)
  {
    ExponentFormIs(c.exponent);
  }

  lemma ScientificIsText(c: Canonical)
    requires IsCanonical(c) && c.Sci?
    ensures Scientific(c.negative, c.significant, c.exponent) == Text(AsNumber(c))
  {
    LeadingIsMantissa(c);
    ExponentFormIsText(c);
  }

  lemma RewriteIsCanon(n: Number)
    requires WellFormed(n)
    ensures Rewrite(PartsOf(n)) == Some(Text(AsNumber(Canon(n))))
  {
    var c := Canon(n);
    if c.Sci? { ScientificIsText(c); } else { ZeroText(); }
  }

  lemma ZeroText()
    ensures Text(AsNumber(Zero)) == "0"
  {
  }

  lemma NormalizeWritesCanon(n: Number)
    requires WellFormed(n)
    ensures Normalize(Text(n)) == Some(Text(AsNumber(Canon(n))))
  {
    SplitText(n);
    RewriteIsCanon(n);
  }

  // ----- arithmetic of decimals

  lemma {:induction false} ScaleStep(x: real, e: int)
    ensures Scale(10.0 * x, e - 1) == Scale(x, e)
  {
  }

  lemma {:induction false} ScaleMonotone(x: real, y: real, e: int)
    requires x < y
    ensures Scale(x, e) < Scale(y, e)
    decreases if e < 0 then -e else e
  {
    if e > 0 { ScaleMonotone(10.0 * x, 10.0 * y, e - 1); }
    if e < 0 { ScaleMonotone(x / 10.0, y / 10.0, e + 1); }
  }

  lemma {:induction false} ScaleZero(e: int)
    ensures Scale(0.0, e) == 0.0
    decreases if e < 0 then -e else e
  {
    if e > 0 { ScaleZero(e - 1); }
    if e < 0 { ScaleZero(e + 1); }
  }

  /** m followed by k zeros. */
  function Shifted(m: nat, k: nat): nat {
    if k == 0 then m else 10 * Shifted(m, k - 1)
  }

  lemma {:induction false} ScaleShifted(m: nat, e: int, k: nat)
    ensures Scale(Shifted(m, k) as real, e - k) == Scale(m as real, e)
  {
    if k > 0 {
      ScaleShifted(m, e, k - 1);
      ScaleStep(Shifted(m, k - 1) as real, e - (k - 1));
    }
  }

  lemma {:induction false} TrailingZeros(s: string, zeros: nat)
    requires AllDigits(s) && zeros <= |s| && forall k :: |s| - zeros <= k < |s| ==> s[k] == '0'
    ensures AllDigits(s[..|s| - zeros])
    ensures DigitsValue(s) == Shifted(DigitsValue(s[..|s| - zeros]), zeros)
  {
    if zeros == 0 { assert s[..|s|] == s; }
    else {
      var front := s[..|s| - 1];
      TrailingZeros(front, zeros - 1);
      assert front[..|front| - (zeros - 1)] == s[..|s| - zeros];
    }
  }

  lemma SliceBothEnds(s: string, k: nat)
    requires k < |s|
    ensures s[k..][..|s[k..]| - 1] == s[..|s| - 1][k..]
  {
    var a, b := s[k..][..|s[k..]| - 1], s[..|s| - 1][k..];
    assert |a| == |b|;
    forall i | 0 <= i < |a| ensures a[i] == b[i] { assert a[i] == s[k + i]; }
  }

  lemma {:induction false} LeadingZeros(s: string, zeros: nat)
    requires AllDigits(s) && zeros <= |s| && forall k :: 0 <= k < zeros ==> s[k] == '0'
    ensures AllDigits(s[zeros..]) && DigitsValue(s) == DigitsValue(s[zeros..])
    decreases |s|
  {
    if zeros < |s| {
      LeadingZeros(s[..|s| - 1], zeros);
      SliceBothEnds(s, zeros);
    } else if s != [] {
      LeadingZeros(s[..|s| - 1], zeros - 1);
      assert s[..|s| - 1][zeros - 1..] == [] && s[zeros..] == [];
    }
  }

  lemma {:induction false} PositiveDigits(s: string)
    requires AllDigits(s) && s != [] && s[0] != '0'
    ensures DigitsValue(s) > 0
  {
    if |s| > 1 { PositiveDigits(s[..|s| - 1]); }
  }

  /** Dropping leading zeros and moving trailing ones into the scale keeps the number. */
  lemma StripZeros(digits: string, first: nat, zeros: nat)
    requires AllDigits(digits) && first <= |digits| - zeros
    requires forall k :: 0 <= k < first ==> digits[k] == '0'
    requires forall k :: |digits| - zeros <= k < |digits| ==> digits[k] == '0'
    ensures AllDigits(digits[first..|digits| - zeros])
    ensures DigitsValue(digits) == Shifted(DigitsValue(digits[first..|digits| - zeros]), zeros)
  {
    var tail := digits[first..];
    LeadingZeros(digits, first);
    TrailingZeros(tail, zeros);
    assert tail[..|tail| - zeros] == digits[first..|digits| - zeros];
  }

  lemma SignificantDigits(digits: string, first: nat)
    requires AllDigits(digits) && first <= |digits| && forall k :: 0 <= k < first ==> digits[k] == '0'
    ensures var s := TrimRightZeros(digits[first..]);
      AllDigits(s) && DigitsValue(digits) == Shifted(DigitsValue(s), |digits| - first - |s|)
  {
    var tail := digits[first..];
    var s := TrimRightZeros(tail);
    var zeros := |tail| - |s|;
    assert forall k :: |digits| - zeros <= k < |digits| ==> digits[k] == tail[k - first];
    StripZeros(digits, first, zeros);
    assert s == digits[first..|digits| - zeros];
  }

  lemma ScaledShifted(negative: bool, m: nat, e: int, k: nat)
    ensures Scaled(negative, Shifted(m, k), e - k) == Scaled(negative, m, e)
  {
    ScaleShifted(m, e, k);
  }

  lemma CanonShape(n: Number)
    requires WellFormed(n)
    ensures var scale := ExponentValue(n) - |Fraction(n)|; var c := Canon(n);
      && (c.Zero? ==> DigitsValue(n.integer + Fraction(n)) == 0)
      && (c.Sci? ==>
           c.negative == n.negative && exists zeros: nat {:trigger Shifted(DigitsValue(c.significant), zeros)} ::
        c.exponent == scale + zeros + |c.significant| - 1
          && DigitsValue(n.integer + Fraction(n)) == Shifted(DigitsValue(c.significant), zeros))
  {
    var digits := n.integer + Fraction(n);
    var first := IndexFrom(digits, IsNonZero, 0);
    SignificantDigits(digits, first);
    if first == |digits| { assert digits[first..] == []; }
  }

  lemma CanonKeepsValue(n: Number)
    requires WellFormed(n)
    ensures CanonicalValue(Canon(n)) == Value(n)
  {
    var scale, c := ExponentValue(n) - |Fraction(n)|, Canon(n);
    CanonShape(n);
    if c.Sci? {
      var zeros: nat :|
        c.exponent == scale + zeros + |c.significant| - 1
          && DigitsValue(n.integer + Fraction(n)) == Shifted(DigitsValue(c.significant), zeros);
      SciKeepsValue(n, c, zeros);
    } else {
      ScaleZero(scale);
    }
  }

  lemma SciKeepsValue(n: Number, c: Canonical, zeros: nat)
    requires WellFormed(n) && IsCanonical(c) && c.Sci? && c.negative == n.negative
    requires c.exponent == ExponentValue(n) - |Fraction(n)| + zeros + |c.significant| - 1
    requires DigitsValue(n.integer + Fraction(n)) == Shifted(DigitsValue(c.significant), zeros)
    ensures CanonicalValue(c) == Value(n)
  {
    ScaledShifted(c.negative, DigitsValue(c.significant), ExponentValue(n) - |Fraction(n)| + zeros, zeros);
  }

  lemma CanonicalNumberKeepsValue(c: Canonical)
    requires IsCanonical(c)
    ensures Value(AsNumber(c)) == CanonicalValue(c)
  {
    var n := AsNumber(c);
    if c.Sci? { assert n.integer + Fraction(n) == c.significant; }
    else { assert n.integer + Fraction(n) == "0" && DigitsValue("0") == 0; }
  }

  // ----- uniqueness

  lemma {:induction false} DigitsInjective(s: string, t: string)
    requires AllDigits(s) && AllDigits(t)
    requires (s != [] ==> s[0] != '0') && (t != [] ==> t[0] != '0')
    requires DigitsValue(s) == DigitsValue(t)
    ensures s == t
  {
    if s == [] || t == [] {
      if s != [] { PositiveDigits(s); }
      if t != [] { PositiveDigits(t); }
    } else {
      var a, b := s[..|s| - 1], t[..|t| - 1];
      assert DigitsValue(a) == DigitsValue(b) && DigitValue(s[|s| - 1]) == DigitValue(t[|t| - 1]);
      DigitsInjective(a, b);
      assert s == a + [s[|s| - 1]] && t == b + [t[|t| - 1]];
    }
  }

  lemma LastDigit(s: string)
    requires AllDigits(s) && s != [] && s[|s| - 1] != '0'
    ensures DigitsValue(s) % 10 != 0
  {
    Remainder(DigitsValue(s[..|s| - 1]), DigitValue(s[|s| - 1]));
  }

  lemma Remainder(q: nat, r: nat)
    requires r < 10
    ensures (10 * q + r) % 10 == r
  {
  }

  /** Equal positive decimals whose coefficients do not end in zero have equal parts. */
  lemma SameScaled(m: nat, a: int, n: nat, b: int)
    requires m % 10 != 0 && n % 10 != 0 && a >= b
    requires Scale(m as real, a) == Scale(n as real, b)
    ensures m == n && a == b
  {
    ScaleShifted(m, a, a - b);
    ScaleInjective(Shifted(m, a - b), n, b);
    ShiftedEndsInZero(m, a - b);
  }

  lemma ScaleInjective(m: nat, n: nat, e: int)
    requires Scale(m as real, e) == Scale(n as real, e)
    ensures m == n
  {
    if m < n { ScaleMonotone(m as real, n as real, e); }
    if n < m { ScaleMonotone(n as real, m as real, e); }
  }

  lemma ShiftedEndsInZero(m: nat, k: nat)
    ensures k > 0 ==> Shifted(m, k) % 10 == 0
  {
    if k > 0 { Remainder(Shifted(m, k - 1), 0); }
  }

  lemma SciUnique(c: Canonical, d: Canonical)
    requires IsCanonical(c) && IsCanonical(d) && c.Sci? && d.Sci? && c.negative == d.negative
    requires CanonicalValue(c) == CanonicalValue(d)
    ensures c == d
  {
    var m, n := DigitsValue(c.significant), DigitsValue(d.significant);
    var a, b := c.exponent - |c.significant| + 1, d.exponent - |d.significant| + 1;
    LastDigit(c.significant);
    LastDigit(d.significant);
    if a >= b { SameScaled(m, a, n, b); } else { SameScaled(n, b, m, a); }
    DigitsInjective(c.significant, d.significant);
  }

  lemma CanonicalUnique(c: Canonical, d: Canonical)
    requires IsCanonical(c) && IsCanonical(d) && CanonicalValue(c) == CanonicalValue(d)
    ensures c == d
  {
    if c.Sci? { PositiveSci(c); }
    if d.Sci? { PositiveSci(d); }
    if c.Sci? && d.Sci? { SciUnique(c, d); }
  }

  lemma PositiveSci(c: Canonical)
    requires IsCanonical(c) && c.Sci?
    ensures c.negative ==> CanonicalValue(c) < 0.0
    ensures !c.negative ==> CanonicalValue(c) > 0.0
  {
    PositiveDigits(c.significant);
    var scale := c.exponent - |c.significant| + 1;
    ScaleZero(scale);
    ScaleMonotone(0.0, DigitsValue(c.significant) as real, scale);
  }

  // ----- main results

  /** Every grammatical number is rewritten to a grammatical number of exactly the same value. */
  lemma NormalizePreservesValue(n: Number)
    requires WellFormed(n)
    ensures exists c :: WellFormed(c) && Normalize(Text(n)) == Some(Text(c)) && Value(c) == Value(n)
  {
    NormalizeWritesCanon(n);
    CanonKeepsValue(n);
    CanonicalNumberKeepsValue(Canon(n));
    assert WellFormed(AsNumber(Canon(n)));
  }

  /** The text of a number fixes its value. */
  lemma TextFixesValue(a: Number, b: Number)
    requires WellFormed(a) && WellFormed(b) && Text(a) == Text(b)
    ensures Value(a) == Value(b)
  {
    SplitText(a);
    SplitText(b);
    PartsFixValue(a, b);
  }

  lemma PartsFixValue(a: Number, b: Number)
    requires WellFormed(a) && WellFormed(b) && PartsOf(a) == PartsOf(b)
    ensures Value(a) == Value(b)
  {
  }

  /** Two numbers get the same canonical text if and only if they are the same decimal. */
  lemma SameTextIffSameValue(a: Number, b: Number)
    requires WellFormed(a) && WellFormed(b)
    ensures Normalize(Text(a)) == Normalize(Text(b)) <==> Value(a) == Value(b)
  {
    NormalizeWritesCanon(a);
    NormalizeWritesCanon(b);
    CanonKeepsValue(a);
    CanonKeepsValue(b);
    if Value(a) == Value(b) { CanonicalUnique(Canon(a), Canon(b)); }
    if Normalize(Text(a)) == Normalize(Text(b)) {
      CanonicalNumberKeepsValue(Canon(a));
      CanonicalNumberKeepsValue(Canon(b));
      TextFixesValue(AsNumber(Canon(a)), AsNumber(Canon(b)));
    }
  }

  /** A fraction that does not end in zero, or none. */
  predicate FractionInForm(fraction: string) {
    || fraction == ""
    || (|fraction| > 1 && fraction[0] == '.' && AllDigits(fraction[1..]) && fraction[|fraction| - 1] != '0')
  }

  /** A non-zero exponent without plus or leading zeros, or none. */
  predicate ExponentInForm(exponent: string) {
    || exponent == ""
    || (|exponent| > 1 && exponent[0] == 'e' && exponent[1] != '0' && AllDigits(exponent[1..]))
    || (|exponent| > 2 && exponent[0] == 'e' && exponent[1] == '-' && exponent[2] != '0' && AllDigits(exponent[2..]))
  }

  /** The normal form of everything but zero. */
  ghost predicate InNormalForm(text: string, sign: string, first: char, fraction: string, exponent: string) {
    && text == sign + ([first] + fraction + exponent)
    && (sign == "" || sign == "-") && '1' <= first <= '9' && FractionInForm(fraction) && ExponentInForm(exponent)
  }

  lemma FractionWritten(c: Canonical)
    requires IsCanonical(c) && c.Sci?
    ensures var fraction := if |c.significant| > 1 then ['.'] + c.significant[1..] else "";
      FractionInForm(fraction) && Mantissa(AsNumber(c)) == [c.significant[0]] + fraction
  {
    if |c.significant| > 1 {
      var fraction := ['.'] + c.significant[1..];
      assert fraction[1..] == c.significant[1..];
    }
  }

  lemma ExponentWritten(c: Canonical)
    requires IsCanonical(c) && c.Sci?
    ensures ExponentInForm(ExponentText(AsNumber(c).exponent))
  {
    if c.exponent != 0 {
      var digits := Decimal(if c.exponent < 0 then -c.exponent else c.exponent);
      var text := ExponentText(AsNumber(c).exponent);
      assert text[if c.exponent < 0 then 2 else 1..] == digits;
    }
  }

  lemma CanonicalText(c: Canonical)
    requires IsCanonical(c) && c.Sci?
    ensures exists sign, first, fraction, exponent ::
      InNormalForm(Text(AsNumber(c)), sign, first, fraction, exponent)
  {
    FractionWritten(c);
    ExponentWritten(c);
    var fraction := if |c.significant| > 1 then ['.'] + c.significant[1..] else "";
    assert InNormalForm(Text(AsNumber(c)), if c.negative then "-" else "", c.significant[0], fraction,
      ExponentText(AsNumber(c).exponent));
  }

  /** Every number is written in normal form, and zero as a single digit, whatever its sign and exponent. */
  lemma NormalFormIsScientific(n: Number)
    requires WellFormed(n)
    ensures Normalize(Text(n)).Some?
    ensures if Value(n) == 0.0 then Normalize(Text(n)) == Some("0")
      else exists sign, first, fraction, exponent ::
        InNormalForm(Normalize(Text(n)).value, sign, first, fraction, exponent)
  {
    NormalizeWritesCanon(n);
    CanonKeepsValue(n);
    if Canon(n).Zero? {
      ZeroText();
    } else {
      PositiveSci(Canon(n));
      CanonicalText(Canon(n));
    }
  }

  /** Canonical text is a fixed point. */
  lemma NormalizeIsIdempotent(n: Number)
    requires WellFormed(n)
    ensures Normalize(Text(n)).Some? && Normalize(Normalize(Text(n)).value) == Normalize(Text(n))
  {
    var c := Canon(n);
    NormalizeWritesCanon(n);
    NormalizeWritesCanon(AsNumber(c));
    CanonKeepsValue(AsNumber(c));
    CanonicalNumberKeepsValue(c);
    CanonicalUnique(Canon(AsNumber(c)), c);
  }

  /** The rewriting as written: slices are reassigned, the exponent is adjusted, text is appended. */
  method NormalizeJSONNumber(text: string) returns (r: Option<string>)
    ensures r == Normalize(text)
  {
    var value := text;
    var negative := value != [] && value[0] == '-';
    if negative { value := value[1..]; }
    assert value == Unsigned(text);
    var mantissa, exponent := CutExponent(value);
    if exponent.None? { return None; }
    var integer, fraction := mantissa, "";
    var pointIndex := IndexFrom(mantissa, IsPoint, 0);
    if pointIndex < |mantissa| {
      integer, fraction := mantissa[..pointIndex], mantissa[pointIndex + 1..];
    }
    assert integer == BeforePoint(mantissa) && fraction == AfterPoint(mantissa);
    r := WriteCanonical(negative, integer, fraction, exponent.value);
  }

  /** Of an unsigned number text the mantissa and the exponent's value come back. */
  method CutExponent(value: string) returns (mantissa: string, exponent: Option<int>)
    ensures mantissa == BeforeMark(value) && exponent == AfterMark(value)
    ensures forall n :: WellFormed(n) && value == Mantissa(n) + ExponentText(n.exponent) ==>
      mantissa == Mantissa(n) && exponent == Some(ExponentValue(n))
  {
    forall n | WellFormed(n) && value == Mantissa(n) + ExponentText(n.exponent)
      ensures BeforeMark(value) == Mantissa(n) && AfterMark(value) == Some(ExponentValue(n))
    {
      SplitBody(n);
    }
    mantissa, exponent := value, Some(0);
    var exponentIndex := IndexFrom(value, IsMark, 0);
    if exponentIndex < |value| {
      mantissa := value[..exponentIndex];
      exponent := ParseInteger(WithoutPlus(value[exponentIndex + 1..]));
    }
  }

  /** From the parts of a number its canonical number is written. */
  method WriteCanonical(negative: bool, integer: string, fraction: string, parsedExponent: int)
    returns (r: Option<string>)
    ensures r == Rewrite(Parts(negative, integer, fraction, Some(parsedExponent)))
    ensures forall n :: WellFormed(n) && PartsOf(n) == Parts(negative, integer, fraction, Some(parsedExponent)) ==>
      r == Some(Text(AsNumber(Canon(n))))
  {
    forall n | WellFormed(n) && PartsOf(n) == Parts(negative, integer, fraction, Some(parsedExponent))
      ensures Rewrite(PartsOf(n)) == Some(Text(AsNumber(Canon(n))))
    {
      RewriteIsCanon(n);
    }
    var digits := integer + fraction;
    var firstSignificant := IndexFrom(digits, IsNonZero, 0);
    if firstSignificant == |digits| { return Some("0"); }
    var exponent := parsedExponent + (|integer| - firstSignificant - 1);
    var significant := TrimRightZeros(digits[firstSignificant..]);
    assert Significant(integer, fraction) == Some((significant, |integer| - firstSignificant - 1));
    var canonical := Build(negative, significant, exponent);
    return Some(canonical);
  }

  /** Of a canonical triple, the text of that number. */
  method Build(negative: bool, significant: string, exponent: int) returns (canonical: string)
    requires significant != []
    ensures canonical == Scientific(negative, significant, exponent)
    ensures var c := Sci(negative, significant, exponent); IsCanonical(c) ==> canonical == Text(AsNumber(c))
  {
    if IsCanonical(Sci(negative, significant, exponent)) { ScientificIsText(Sci(negative, significant, exponent)); }
    canonical := if negative then "-" else "";
    var leading := [significant[0]];
    if |significant| > 1 { leading := leading + ['.'] + significant[1..]; }
    assert leading == LeadingForm(significant);
    var trailing := "";
    if exponent != 0 { trailing := ['e'] + IntegerText(exponent); }
    canonical := canonical + (leading + trailing);
  }
}
