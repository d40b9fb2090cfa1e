/** Decimal numerals as text: an optional minus sign, digits, and an optional fraction. */
module DecimalText {
  import opened Text
  import opened Digits

  /** A numeral taken apart. `whole` and `frac` keep their digits as written. */
  datatype Decimal = Decimal(negative: bool, whole: string, frac: string)

  predicate IsDecimal(d: Decimal) {
    d.whole != "" && AllDigits(d.whole) && AllDigits(d.frac)
  }

  /** The unsigned part; a point must be followed by digits unless `bare` points are allowed. */
  function ParseMagnitude(s: string, negative: bool, bare: bool): (r: Option<Decimal>)
    ensures r.Some? ==> IsDecimal(r.value) && r.value.negative == negative
  {
    var k := DigitRun(s);
    if k == 0 then None
    else if k == |s| then Some(Decimal(negative, s[..k], ""))
    else if s[k] == '.' && AllDigits(s[k + 1..]) && (bare || k + 1 < |s|) then Some(Decimal(negative, s[..k], s[k + 1..]))
    else None
  }

  function Parse(s: string, bare: bool): (r: Option<Decimal>)
    ensures r.Some? ==> IsDecimal(r.value)
  {
    if s != "" && s[0] == '-' then ParseMagnitude(s[1..], true, bare) else ParseMagnitude(s, false, bare)
  }

  function Sign(negative: bool): string {
    if negative then "-" else ""
  }

  /** Digits and fraction; no point without a fraction. */
  function Unsigned(d: Decimal): string {
    if d.frac == "" then d.whole else d.whole + ("." + d.frac)
  }

  function Spell(d: Decimal): string {
    Sign(d.negative) + Unsigned(d)
  }

  lemma MagnitudeSpells(d: Decimal, bare: bool)
    requires IsDecimal(d)
    ensures ParseMagnitude(Unsigned(d), d.negative, bare) == Some(d)
    ensures Unsigned(d) != "" && Unsigned(d)[0] != '-'
  {
    var s := Unsigned(d);
    if d.frac == "" {
      assert s + "" == s;
      DigitRunOfPrefix(s, "");
      assert s[..|s|] == s;
    } else {
      DigitRunOfPrefix(d.whole, "." + d.frac);
      assert s[..|d.whole|] == d.whole;
      assert s[|d.whole| + 1..] == d.frac;
    }
    assert IsDigit(d.whole[0]);
  }

  /** Reading back a spelled numeral gives its parts. */
  lemma ParseSpells(d: Decimal, bare: bool)
    requires IsDecimal(d)
    ensures Parse(Spell(d), bare) == Some(d)
  {
    hide Unsigned, ParseMagnitude;
    MagnitudeSpells(d, bare);
    var m := Unsigned(d);
    if d.negative {
      assert Spell(d)[1..] == m;
    } else {
      assert Spell(d) == m;
    }
  }

  lemma MagnitudeIsSpelled(s: string, negative: bool)
    requires ParseMagnitude(s, negative, false).Some?
    ensures Unsigned(ParseMagnitude(s, negative, false).value) == s
  {
    var k := DigitRun(s);
    hide AllDigits, DigitRun;
    if k == |s| {
      assert s[..k] == s;
    } else {
      assert s == s[..k] + ("." + s[k + 1..]);
    }
  }

  /** A numeral with no bare point is spelled by its parts. */
  lemma SpellParses(s: string)
    requires Parse(s, false).Some?
    ensures Spell(Parse(s, false).value) == s
  {
    hide ParseMagnitude, Unsigned;
    if s != "" && s[0] == '-' {
      MagnitudeIsSpelled(s[1..], true);
      assert s == "-" + s[1..];
    } else {
      MagnitudeIsSpelled(s, false);
      assert "" + s == s;
    }
  }

  // ---- values -------------------------------------------------------------

  /** The fraction cut or padded to `scale` digits. */
  function FracAt(frac: string, scale: nat): (r: string)
    requires AllDigits(frac)
    ensures |r| == scale && AllDigits(r)
  {
    if |frac| > scale then frac[..scale] else frac + Zeros(scale - |frac|)
  }

  /** The magnitude in units of the last of `scale` decimal places. */
  function Units(d: Decimal, scale: nat): nat
    requires IsDecimal(d)
  {
    Value(d.whole + FracAt(d.frac, scale))
  }

  function SignedUnits(d: Decimal, scale: nat): int
    requires IsDecimal(d)
  {
    if d.negative then 0 - Units(d, scale) else Units(d, scale)
  }

  lemma {:induction false} DropDigits(s: string, n: nat)
    requires AllDigits(s) && n <= |s|
    ensures Value(s[..|s| - n]) == Value(s) / Pow10(n)
  {
    if n == 0 {
      assert s[..|s|] == s;
    } else {
      var t := s[..|s| - 1];
      DropDigits(t, n - 1);
      assert t[..|t| - (n - 1)] == s[..|s| - n];
      DivideTwice(Value(t), DigitValue(s[|s| - 1]), Pow10(n - 1));
    }
  }

  lemma DivideTwice(a: nat, d: nat, p: nat)
    requires p > 0 && d < 10
    ensures (10 * a + d) / (10 * p) == a / p
  {
    var q, r := a / p, a % p;
    assert a == p * q + r;
    assert 10 * a + d == (10 * p) * q + (10 * r + d) by {
      assert 10 * (p * q) == (10 * p) * q;
    }
    assert 10 * r + d < 10 * p;
    QuotientIs(10 * a + d, 10 * p, q, 10 * r + d);
  }

  lemma QuotientIs(n: nat, p: nat, q: nat, r: nat)
    requires p > 0 && n == p * q + r && r < p
    ensures n / p == q
  {
    var e := n / p;
    if e < q {
      ProductGrows(p, e + 1, q);
    } else if e > q {
      ProductGrows(p, q + 1, e);
    }
  }

  lemma ProductGrows(p: nat, a: nat, b: nat)
    requires a <= b
    ensures p * a <= p * b
  {}

  lemma AppendZeros(s: string, n: nat)
    requires AllDigits(s)
    ensures AllDigits(s + Zeros(n)) && Value(s + Zeros(n)) == Value(s) * Pow10(n)
  {
    ZerosValue(Zeros(n));
    ValueConcat(s, Zeros(n));
  }

  /** Fewer places cut the value toward zero; more places keep it exactly. */
  lemma UnitsRescale(d: Decimal, scale: nat)
    requires IsDecimal(d)
    ensures var n, all := |d.frac|, Value(d.whole + d.frac);
            && Units(d, n) == all
            && Units(d, scale) == if scale <= n then all / Pow10(n - scale) else all * Pow10(scale - n)
  {
    var n, s := |d.frac|, d.whole + d.frac;
    assert d.frac + Zeros(0) == d.frac && d.frac[..n] == d.frac;
    if scale < n {
      DropDigits(s, n - scale);
      assert s[..|s| - (n - scale)] == d.whole + d.frac[..scale];
    } else if scale > n {
      AppendZeros(s, scale - n);
      assert s + Zeros(scale - n) == d.whole + (d.frac + Zeros(scale - n));
    } else {
      assert Pow10(0) == 1;
    }
  }
}
