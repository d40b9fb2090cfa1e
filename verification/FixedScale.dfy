/** The fixed-scale decimal tokens that enter the hash preimage. */
module FixedScale {
  import opened Text
  import opened Digits
  import opened DecimalText

  predicate AllZeros(s: string) {
    forall i :: 0 <= i < |s| ==> s[i] == '0'
  }

  /** The numeral a token spells: the fraction cut or padded, and no sign on a zero written with a single digit. */
  function Fixed(d: Decimal, scale: nat): (r: Decimal)
    requires IsDecimal(d)
    ensures IsDecimal(r) && |r.frac| == scale
  {
    var frac := FracAt(d.frac, scale);
    Decimal(d.negative && !(d.whole == "0" && AllZeros(frac)), d.whole, frac)
  }

  /** `None` stands for the error thrown for text that is no decimal numeral. A bare trailing point is accepted. */
  function Format(text: string, scale: nat): Option<string> {
    match Parse(text, true)
    case None => None
    case Some(d) => Some(Spell(Fixed(d, scale)))
  }

  /** The string path of the public function: surrounding white space is ignored. */
  function FixedScale(text: string, scale: nat): Option<string> {
    Format(Trim(text), scale)
  }

  // ---- truncation ---------------------------------------------------------

  lemma FracAtExact(frac: string)
    requires AllDigits(frac)
    ensures FracAt(frac, |frac|) == frac
  {
    assert frac + Zeros(0) == frac;
  }

  lemma SignedUnitsFixed(d: Decimal, scale: nat)
    requires IsDecimal(d)
    ensures SignedUnits(Fixed(d, scale), scale) == SignedUnits(d, scale)
  {
    FracAtExact(FracAt(d.frac, scale));
    if d.whole == "0" && AllZeros(FracAt(d.frac, scale)) {
      ZerosValue(d.whole + FracAt(d.frac, scale));
    }
  }

  /** A token has exactly `scale` fractional digits and its value is the input's, cut toward zero. */
  lemma FormatTruncates(text: string, scale: nat)
    requires Parse(text, true).Some?
    ensures var d := Parse(text, true).value;
            && Format(text, scale).Some?
            && Parse(Format(text, scale).value, false).Some?
            && var t := Parse(Format(text, scale).value, false).value;
               && t.whole == d.whole && |t.frac| == scale
               && SignedUnits(t, scale) == SignedUnits(d, scale)
               && Units(t, scale) == if scale <= |d.frac| then Value(d.whole + d.frac) / Pow10(|d.frac| - scale)
                                     else Value(d.whole + d.frac) * Pow10(scale - |d.frac|)
  {
    hide Value, FracAt;
    var d := Parse(text, true).value;
    ParseSpells(Fixed(d, scale), false);
    SignedUnitsFixed(d, scale);
    UnitsRescale(d, scale);
    SameUnits(d, scale);
  }

  lemma SameUnits(d: Decimal, scale: nat)
    requires IsDecimal(d)
    ensures Units(Fixed(d, scale), scale) == Units(d, scale)
  {
    FracAtExact(FracAt(d.frac, scale));
  }

  // ---- formatting twice ---------------------------------------------------

  lemma FracTwice(frac: string, a: nat, b: nat)
    requires AllDigits(frac) && b <= a
    ensures FracAt(FracAt(frac, a), b) == FracAt(frac, b)
  {
    if |frac| <= b {
      var longer := frac + Zeros(a - |frac|);
      if a > b {
        assert longer[..b] == frac + Zeros(a - |frac|)[..b - |frac|];
        ZerosCut(a - |frac|, b - |frac|);
      }
      FracAtExact(FracAt(frac, b));
    } else if |frac| <= a {
      FracAtExact(FracAt(frac, a));
    } else {
      FracAtExact(FracAt(frac, a));
    }
  }

  lemma ZerosCut(m: nat, n: nat)
    requires n <= m
    ensures Zeros(m)[..n] == Zeros(n)
  {}

  lemma ZerosOfPrefix(frac: string, a: nat, b: nat)
    requires AllDigits(frac) && b <= a && AllZeros(FracAt(frac, a))
    ensures AllZeros(FracAt(frac, b))
  {
    FracTwice(frac, a, b);
  }

  lemma FixedTwice(d: Decimal, a: nat, b: nat)
    requires IsDecimal(d) && b <= a
    ensures Fixed(Fixed(d, a), b) == Fixed(d, b)
  {
    hide FracAt, AllZeros;
    FracTwice(d.frac, a, b);
    if AllZeros(FracAt(d.frac, a)) {
      ZerosOfPrefix(d.frac, a, b);
    }
  }

  /** Formatting at `a` places and then at `b <= a` is formatting at `b`; in particular formatting is idempotent. */
  lemma FormatTwice(text: string, a: nat, b: nat)
    requires Parse(text, true).Some? && b <= a
    ensures Format(Format(text, a).value, b) == Format(text, b)
  {
    hide Fixed, Spell, Parse;
    var d := Parse(text, true).value;
    ParseSpells(Fixed(d, a), true);
    FixedTwice(d, a, b);
  }

  // ---- equal values and equal tokens --------------------------------------

  lemma SpellInjective(a: Decimal, b: Decimal)
    requires IsDecimal(a) && IsDecimal(b)
    ensures Spell(a) == Spell(b) <==> a == b
  {
    hide Spell, Parse;
    ParseSpells(a, true);
    ParseSpells(b, true);
  }

  /** The sign a token shows: a zero written with one digit shows none. */
  predicate ShowsMinus(d: Decimal, scale: nat)
    requires IsDecimal(d)
  {
    d.negative && !(d.whole == "0" && Units(d, scale) == 0)
  }

  lemma ShownSign(d: Decimal, scale: nat)
    requires IsDecimal(d)
    ensures Fixed(d, scale).negative == ShowsMinus(d, scale)
  {
    var frac := FracAt(d.frac, scale);
    if d.whole == "0" {
      ZerosValue("0");
      ValueConcat("0", frac);
      if AllZeros(frac) {
        ZerosValue(frac);
      } else if Units(d, scale) == 0 {
        ValueZeroMeansZeros(d.whole + frac);
        assert forall i :: 0 <= i < |frac| ==> frac[i] == (d.whole + frac)[i + 1];
      }
    }
  }

  /** Two numerals that agree to `scale` places get the same token exactly when their integer parts are written with
      the same number of digits and the same sign is shown. */
  lemma EqualValuesIff(a: Decimal, b: Decimal, scale: nat)
    requires IsDecimal(a) && IsDecimal(b) && SignedUnits(a, scale) == SignedUnits(b, scale)
    ensures Spell(Fixed(a, scale)) == Spell(Fixed(b, scale)) <==>
            |a.whole| == |b.whole| && ShowsMinus(a, scale) == ShowsMinus(b, scale)
  {
    hide Spell, ShowsMinus;
    SpellInjective(Fixed(a, scale), Fixed(b, scale));
    ShownSign(a, scale);
    ShownSign(b, scale);
    assert Units(a, scale) == Units(b, scale);
    if |a.whole| == |b.whole| {
      var s, t := a.whole + FracAt(a.frac, scale), b.whole + FracAt(b.frac, scale);
      ValueInjective(s, t);
      assert s[..|a.whole|] == a.whole && t[..|b.whole|] == b.whole;
      assert s[|a.whole|..] == FracAt(a.frac, scale) && t[|b.whole|..] == FracAt(b.frac, scale);
    }
  }

  /** No leading zero except in "0" itself: the form in which a numeric column is returned. */
  predicate NoLeadingZero(d: Decimal)
    requires IsDecimal(d)
  {
    d.whole == "0" || d.whole[0] != '0'
  }

  lemma SameLength(s: string, t: string)
    requires AllDigits(s) && AllDigits(t) && s != "" && t != ""
    requires (s == "0" || s[0] != '0') && (t == "0" || t[0] != '0') && Value(s) == Value(t)
    ensures |s| == |t|
  {
    ZeroAlone(s);
    ZeroAlone(t);
    if |s| < |t| {
      PowGrows(|s|, |t| - 1);
      LeadingDigit(t);
      ValueBound(s);
    } else if |t| < |s| {
      PowGrows(|t|, |s| - 1);
      LeadingDigit(s);
      ValueBound(t);
    }
  }

  lemma ZeroAlone(s: string)
    requires AllDigits(s) && s != "" && (s == "0" || s[0] != '0')
    ensures Value(s) == 0 ==> s == "0"
    ensures |s| > 1 ==> s[0] != '0'
  {
    if s[0] != '0' {
      LeadingDigit(s);
    }
  }

  lemma WholeValue(d: Decimal, scale: nat)
    requires IsDecimal(d)
    ensures Units(d, scale) == Value(d.whole) * Pow10(scale) + Value(FracAt(d.frac, scale))
    ensures Value(d.whole) == Units(d, scale) / Pow10(scale)
  {
    var frac := FracAt(d.frac, scale);
    ValueConcat(d.whole, frac);
    ValueBound(frac);
    assert Pow10(scale) * Value(d.whole) == Value(d.whole) * Pow10(scale);
    QuotientIs(Units(d, scale), Pow10(scale), Value(d.whole), Value(frac));
  }

  /** For numerals without redundant leading zeros: same value to `scale` places if and only if same token,
      negative zero included. */
  lemma TokensAgreeIff(a: Decimal, b: Decimal, scale: nat)
    requires IsDecimal(a) && IsDecimal(b) && NoLeadingZero(a) && NoLeadingZero(b)
    ensures Spell(Fixed(a, scale)) == Spell(Fixed(b, scale)) <==> SignedUnits(a, scale) == SignedUnits(b, scale)
  {
    hide Spell, FracAt, Fixed;
    if SignedUnits(a, scale) == SignedUnits(b, scale) {
      WholeValue(a, scale);
      WholeValue(b, scale);
      assert Units(a, scale) == Units(b, scale);
      SameLength(a.whole, b.whole);
      ZeroShowsNothing(a, scale);
      ZeroShowsNothing(b, scale);
      EqualValuesIff(a, b, scale);
    }
    if Spell(Fixed(a, scale)) == Spell(Fixed(b, scale)) {
      SpellInjective(Fixed(a, scale), Fixed(b, scale));
      SignedUnitsFixed(a, scale);
      SignedUnitsFixed(b, scale);
    }
  }

  lemma ZeroShowsNothing(d: Decimal, scale: nat)
    requires IsDecimal(d) && NoLeadingZero(d)
    ensures ShowsMinus(d, scale) <==> SignedUnits(d, scale) < 0
  {
    hide FracAt;
    WholeValue(d, scale);
    ZeroAlone(d.whole);
    if Units(d, scale) == 0 {
      assert Value(d.whole) == 0;
    }
  }

  /** With redundant zeros equal values need not meet: "-00" keeps its sign and "00" its second digit. */
  lemma RedundantZeros(scale: nat)
    ensures var plain, padded, minus := Decimal(false, "0", ""), Decimal(false, "00", ""), Decimal(true, "00", "");
            && SignedUnits(plain, scale) == SignedUnits(padded, scale) == SignedUnits(minus, scale) == 0
            && Spell(Fixed(plain, scale)) != Spell(Fixed(padded, scale))
            && Spell(Fixed(padded, scale)) != Spell(Fixed(minus, scale))
  {
    hide Units, Spell, Fixed;
    var plain, padded, minus := Decimal(false, "0", ""), Decimal(false, "00", ""), Decimal(true, "00", "");
    ZeroUnits(plain, scale);
    ZeroUnits(padded, scale);
    ZeroUnits(minus, scale);
    EqualValuesIff(plain, padded, scale);
    EqualValuesIff(padded, minus, scale);
    assert |padded.whole| == 2 && padded.whole != "0";
  }

  lemma ZeroUnits(d: Decimal, scale: nat)
    requires IsDecimal(d) && AllZeros(d.whole) && d.frac == ""
    ensures Units(d, scale) == 0
  {
    assert "" + Zeros(scale) == Zeros(scale);
    ZerosValue(d.whole + Zeros(scale));
    FracAtNothing(scale);
  }

  lemma FracAtNothing(scale: nat)
    ensures FracAt("", scale) == Zeros(scale)
  {
    assert "" + Zeros(scale) == Zeros(scale);
  }
}
