/** The structural gate on the two numeric entry fields, and what the rules may rely on after it. */
module NumericGate {
  import opened Text
  import opened Digits
  import opened DecimalText

  /** A property of the request body: a JSON number with the text JavaScript prints for it, or a string. */
  datatype Raw = Number(finite: bool, printed: string) | Characters(text: string)

  datatype RefusalCode = NotNumeric | TooManyDecimals

  datatype Detail = Detail(field: string, code: RefusalCode)

  const MAX_TOTAL_DIGITS := 14

  /** The numeric fields and their scales, in the order they are examined. */
  const NUMERIC_FIELDS: seq<string> := ["quantity", "declared_value_usd"]

  function MaxDecimals(field: string): (s: nat)
    ensures 2 <= s <= 3
  {
    if field == "quantity" then 3 else 2
  }

  datatype Verdict = Kept(text: string) | Skipped | Refused(code: RefusalCode)

  /** Removes leading zeros that are followed by a digit. */
  function StripZeros(s: string): (r: string)
    requires AllDigits(s)
    ensures AllDigits(r) && |r| <= |s|
  {
    if |s| > 1 && s[0] == '0' then StripZeros(s[1..]) else s
  }

  function JudgeText(text: string, scale: nat): Verdict
    requires scale <= MAX_TOTAL_DIGITS
  {
    match Parse(text, false)
    case None => Refused(NotNumeric)
    case Some(d) =>
      var digits := StripZeros(d.whole);
      if |digits| > MAX_TOTAL_DIGITS - scale || |digits| + |d.frac| > MAX_TOTAL_DIGITS then Refused(TooManyDecimals)
      else if |d.frac| > scale then Refused(TooManyDecimals)
      else Kept(text)
  }

  /** The fate of one field's value. */
  function Judge(raw: Raw, scale: nat): Verdict
    requires scale <= MAX_TOTAL_DIGITS
  {
    match raw
    case Number(finite, printed) =>
      if !finite || 'e' in printed || 'E' in printed then Refused(NotNumeric)
      else if printed == "" then Skipped
      else JudgeText(printed, scale)
    case Characters(text) =>
      if Trim(text) == "" then Skipped else JudgeText(Trim(text), scale)
  }

  function VerdictOn(parsed: map<string, Raw>, field: string): Verdict {
    if field in parsed then Judge(parsed[field], MaxDecimals(field)) else Skipped
  }

  /** The complaints about these fields, in their order. */
  function Complaints(parsed: map<string, Raw>, fields: seq<string>): seq<Detail> {
    if fields == [] then [] else
      var f := fields[|fields| - 1];
      Complaints(parsed, fields[..|fields| - 1])
      + (if VerdictOn(parsed, f).Refused? then [Detail(f, VerdictOn(parsed, f).code)] else [])
  }

  /** Complaints name exactly the refused fields. */
  lemma {:induction false} ComplaintsIff(parsed: map<string, Raw>, fields: seq<string>, detail: Detail)
    ensures detail in Complaints(parsed, fields) <==>
            detail.field in fields && VerdictOn(parsed, detail.field) == Refused(detail.code)
  {
    hide VerdictOn;
    if fields != [] {
      var n := |fields| - 1;
      ComplaintsIff(parsed, fields[..n], detail);
      assert fields == fields[..n] + [fields[n]];
    }
  }

  /** Every numeric field is examined; either every complaint is reported or every kept text is returned. */
  method CoerceNumerics(parsed: map<string, Raw>, fields: seq<string> := NUMERIC_FIELDS)
    returns (r: Result<map<string, string>, seq<Detail>>)
    ensures r.Err? <==> Complaints(parsed, fields) != []
    ensures r.Err? ==> r.error == Complaints(parsed, fields)
    ensures r.Ok? ==> forall f :: f in r.value <==> f in fields && VerdictOn(parsed, f).Kept?
    ensures r.Ok? ==> forall f :: f in r.value ==> r.value[f] == VerdictOn(parsed, f).text
  {
    hide VerdictOn;
    var out: map<string, string> := map[];
    var details: seq<Detail> := [];
    for i := 0 to |fields|
      invariant forall f :: f in out <==> f in fields[..i] && VerdictOn(parsed, f).Kept?
      invariant forall f :: f in out ==> out[f] == VerdictOn(parsed, f).text
      invariant details == Complaints(parsed, fields[..i])
    {
      var field := fields[i];
      assert fields[..i + 1] == fields[..i] + [field];
      assert fields[..i + 1][..i] == fields[..i];
      match VerdictOn(parsed, field) {
        case Kept(text) => out := out[field := text];
        case Skipped =>
        case Refused(code) => details := details + [Detail(field, code)];
      }
    }
    assert fields[..|fields|] == fields;
    return if |details| > 0 then Err(details) else Ok(out);
  }

  // ---- what a kept text is ------------------------------------------------

  lemma {:induction false} StripKeepsValue(s: string)
    requires AllDigits(s) && s != ""
    ensures StripZeros(s) != "" && Value(StripZeros(s)) == Value(s)
    ensures |StripZeros(s)| > 1 ==> StripZeros(s)[0] != '0'
  {
    if |s| > 1 && s[0] == '0' {
      StripKeepsValue(s[1..]);
      ValueConcat("0", s[1..]);
      ZerosValue("0");
      assert s == "0" + s[1..];
    }
  }

  /** A whole part has at most `n >= 1` digits without its leading zeros exactly when it is below ten to the `n`. */
  lemma DigitsIff(s: string, n: nat)
    requires AllDigits(s) && s != "" && n >= 1
    ensures |StripZeros(s)| <= n <==> Value(s) < Pow10(n)
  {
    var r := StripZeros(s);
    StripKeepsValue(s);
    if |r| <= n {
      ValueBound(r);
      PowGrows(|r|, n);
    } else {
      PowGrows(n, |r| - 1);
      LeadingDigit(r);
    }
  }

  lemma UnitsBelow(d: Decimal, scale: nat, n: nat)
    requires IsDecimal(d)
    ensures Units(d, scale) < Pow10(n + scale) <==> Value(d.whole) < Pow10(n)
  {
    var frac := FracAt(d.frac, scale);
    ValueConcat(d.whole, frac);
    ValueBound(frac);
    PowSplit(n, scale);
    Mixed(Value(d.whole), Value(frac), Pow10(scale), Pow10(n));
  }

  lemma Mixed(w: nat, f: nat, p: nat, bound: nat)
    requires f < p
    ensures w * p + f < bound * p <==> w < bound
  {
    if w < bound {
      ProductGrows(p, w + 1, bound);
    } else {
      ProductGrows(p, bound, w);
    }
  }

  /** The numeric column holds 14 digits, `scale` of them after the point: the magnitude in units of the last place is
      below ten to the fourteenth, and nothing written is cut off. */
  predicate FitsColumn(d: Decimal, scale: nat)
    requires IsDecimal(d)
  {
    |d.frac| <= scale && Units(d, scale) < Pow10(14)
  }

  /** The gate keeps exactly the decimal numerals that fit their column exactly. */
  lemma KeptIff(text: string, scale: nat)
    requires scale < MAX_TOTAL_DIGITS
    ensures JudgeText(text, scale) == Kept(text) <==> Parse(text, false).Some? && FitsColumn(Parse(text, false).value, scale)
    ensures JudgeText(text, scale).Kept? ==> JudgeText(text, scale) == Kept(text)
  {
    hide Parse, Units, StripZeros, Pow10;
    if Parse(text, false).Some? {
      var d := Parse(text, false).value;
      DigitsIff(d.whole, MAX_TOTAL_DIGITS - scale);
      UnitsBelow(d, scale, MAX_TOTAL_DIGITS - scale);
    }
  }

  lemma DecimalHasNoExponent(s: string)
    requires Parse(s, false).Some?
    ensures 'e' !in s && 'E' !in s
  {
    hide Parse, IsDigit;
    SpellParses(s);
    var d := Parse(s, false).value;
    assert !IsDigit('e') && !IsDigit('E') by { NotDigits(); }
    assert s == Sign(d.negative) + Unsigned(d);
  }

  lemma NotDigits()
    ensures !IsDigit('e') && !IsDigit('E')
  {}

  /** What is judged: a number as it prints, a string without the white space around it. */
  function Judged(raw: Raw): string {
    match raw
    case Number(_, printed) => printed
    case Characters(text) => Trim(text)
  }

  /** The four fates of a value. A finite number prints no exponent or is not numeric. */
  lemma JudgeIff(raw: Raw, scale: nat, text: string)
    requires scale < MAX_TOTAL_DIGITS
    ensures var finite, s := raw.Characters? || raw.finite, Judged(raw);
            var d := Parse(s, false);
            && (Judge(raw, scale) == Skipped <==> finite && s == "")
            && (Judge(raw, scale) == Kept(text) <==> finite && text == s && d.Some? && FitsColumn(d.value, scale))
            && (Judge(raw, scale) == Refused(NotNumeric) <==> !finite || (s != "" && d.None?))
            && (Judge(raw, scale) == Refused(TooManyDecimals) <==> finite && d.Some? && !FitsColumn(d.value, scale))
  {
    hide Trim, Units, StripZeros, Pow10;
    var s := Judged(raw);
    KeptIff(s, scale);
    if raw.Number? && Parse(s, false).Some? {
      DecimalHasNoExponent(s);
    }
  }

  // ---- the rules after the gate -------------------------------------------

  function Pow2(n: nat): (p: nat)
    ensures p > 0
  {
    if n == 0 then 1 else 2 * Pow2(n - 1)
  }

  /** The nearest double of the numeral is finite: it is below the middle between the largest finite double and two to the
      1024th, which itself rounds to infinity. */
  predicate FiniteDouble(d: Decimal)
    requires IsDecimal(d)
  {
    Value(d.whole + d.frac) < (Pow2(1024) - Pow2(970)) * Pow10(|d.frac|)
  }

  /** The nearest double is greater than zero: the numeral is above half the least one, which itself rounds to zero. */
  predicate PositiveDouble(d: Decimal)
    requires IsDecimal(d)
  {
    !d.negative && Value(d.whole + d.frac) * Pow2(1075) > Pow10(|d.frac|)
  }

  /** A numeral parsed by the rules: whether its double is greater than zero, and the number of decimals written. */
  datatype Parsed = Parsed(positive: bool, decimals: nat)

  function ParseDecimal(text: Option<string>): Option<Parsed> {
    if text.None? then None
    else match Parse(Trim(text.value), false) {
      case None => None
      case Some(d) => if FiniteDouble(d) then Some(Parsed(PositiveDouble(d), |d.frac|)) else None
    }
  }

  /** RIV-101: the quantity is greater than zero. */
  predicate QuantityPositive(quantity: Option<string>) {
    ParseDecimal(quantity).Some? && ParseDecimal(quantity).value.positive
  }

  /** RIV-121: the declared value is greater than zero, with at most two decimals. */
  predicate DeclaredValueValid(value: Option<string>) {
    ParseDecimal(value).Some? && ParseDecimal(value).value.positive && ParseDecimal(value).value.decimals <= 2
  }

  /** Trims, and takes the empty text for an absent one. */
  function Collapse(value: Option<string>): Option<string> {
    if value.None? || Trim(value.value) == "" then None else Some(Trim(value.value))
  }

  lemma NoSpace(c: char)
    requires IsDigit(c) || c == '-'
    ensures !IsSpace(c)
  {}

  lemma SpelledIsTrimmed(d: Decimal)
    requires IsDecimal(d)
    ensures Spell(d) != "" && IsTrimmed(Spell(d))
  {
    hide IsSpace;
    var m := Unsigned(d);
    assert m[0] == d.whole[0];
    assert m[|m| - 1] == if d.frac == "" then d.whole[|d.whole| - 1] else d.frac[|d.frac| - 1];
    var s := Spell(d);
    assert s[|s| - 1] == m[|m| - 1];
    assert s[0] == if d.negative then '-' else m[0];
    NoSpace(s[0]);
    NoSpace(s[|s| - 1]);
  }

  lemma DecimalIsTrimmed(text: string)
    requires Parse(text, false).Some?
    ensures text != "" && Trim(text) == text
  {
    hide Trim, Parse, Spell, IsTrimmed;
    SpellParses(text);
    SpelledIsTrimmed(Parse(text, false).value);
    TrimmedIsFixed(text);
  }

  /** Strictly positive: no minus sign, and some digit other than zero. */
  predicate StrictlyPositive(d: Decimal)
    requires IsDecimal(d)
  {
    !d.negative && Value(d.whole + d.frac) > 0
  }

  lemma {:induction false} Pow2Split(a: nat, b: nat)
    ensures Pow2(a + b) == Pow2(a) * Pow2(b)
  {
    if a > 0 {
      Pow2Split(a - 1, b);
      assert 2 * (Pow2(a - 1) * Pow2(b)) == (2 * Pow2(a - 1)) * Pow2(b);
    }
  }

  lemma {:induction false} Pow2Grows(a: nat, b: nat)
    requires a <= b
    ensures Pow2(a) <= Pow2(b)
  {
    if a < b {
      Pow2Grows(a, b - 1);
    }
  }

  lemma SmallPowers()
    ensures Pow2(1) == 2 && Pow2(10) == 1024 && Pow10(0) == 1 && Pow10(5) == 100_000
  {}

  /** Two to the fiftieth is more than ten to the fifteenth. */
  lemma LargePower()
    ensures Pow10(15) < Pow2(50)
  {
    hide Pow2, Pow10;
    SmallPowers();
    Pow2Split(10, 10);
    Pow2Split(20, 10);
    Pow2Split(30, 20);
    PowSplit(5, 5);
    PowSplit(10, 5);
  }

  /** A numeral of at most fourteen digits and three decimals is far from both ends of the range of doubles. */
  lemma NeverAtTheEnds(n: nat, p: nat, top: nat, bottom: nat, limit: nat)
    requires n < limit && p <= limit && limit <= top && limit < bottom && p > 0
    ensures n < top * p
    ensures n * bottom > p <==> n > 0
  {
    assert top <= top * p;
    if n > 0 {
      assert bottom <= n * bottom;
    }
  }

  /** A kept text reaches the rules as it is and parses there with the decimals that were written; its double is finite,
      and the two rules come down to strict positivity of what was written. */
  lemma RulesAfterTheGate(text: string, scale: nat)
    requires 2 <= scale <= 3 && JudgeText(text, scale).Kept?
    ensures Parse(text, false).Some? && Collapse(Some(text)) == Some(text)
    ensures var d := Parse(text, false).value;
            && ParseDecimal(Some(text)) == Some(Parsed(StrictlyPositive(d), |d.frac|))
            && (QuantityPositive(Some(text)) <==> StrictlyPositive(d))
            && (scale == 2 ==> (DeclaredValueValid(Some(text)) <==> StrictlyPositive(d)))
  {
    hide Trim, Value, Parse, Units, StripZeros, Pow2, Pow10;
    var d := Parse(text, false).value;
    DecimalIsTrimmed(text);
    KeptIff(text, scale);
    KeptIsSmall(d, scale);
    PowGrows(|d.frac|, 15);
    PowGrows(14, 15);
    LargePower();
    Pow2Grows(50, 1023);
    Pow2Grows(970, 1023);
    Pow2Split(1, 1023);
    Pow2Grows(50, 1075);
    SmallPowers();
    NeverAtTheEnds(Value(d.whole + d.frac), Pow10(|d.frac|), Pow2(1024) - Pow2(970), Pow2(1075), Pow10(15));
  }

  lemma KeptIsSmall(d: Decimal, scale: nat)
    requires IsDecimal(d) && FitsColumn(d, scale)
    ensures Value(d.whole + d.frac) < Pow10(MAX_TOTAL_DIGITS)
  {
    hide Value, Units, Pow10;
    UnitsRescale(d, scale);
    if scale > |d.frac| {
      var all, p := Value(d.whole + d.frac), Pow10(scale - |d.frac|);
      assert all <= all * p;
    } else {
      SmallPowers();
    }
  }

  /** Any numeric text the gate lets through, from a JSON number or a string, is a decimal numeral that fits its column
      exactly and reaches the rules unchanged. */
  lemma KeptFieldFits(parsed: map<string, Raw>, field: string, text: string)
    requires VerdictOn(parsed, field) == Kept(text)
    ensures Parse(text, false).Some? && FitsColumn(Parse(text, false).value, if field == "quantity" then 3 else 2)
    ensures Collapse(Some(text)) == Some(text)
    ensures QuantityPositive(Some(text)) <==> StrictlyPositive(Parse(text, false).value)
    ensures field != "quantity" ==> (DeclaredValueValid(Some(text)) <==> StrictlyPositive(Parse(text, false).value))
  {
    hide JudgeText, Parse, FitsColumn, QuantityPositive, DeclaredValueValid, Collapse, Trim, StrictlyPositive;
    KeptIff(text, MaxDecimals(field));
    var raw := parsed[field];
    KeptIff(if raw.Number? then raw.printed else Trim(raw.text), MaxDecimals(field));
    RulesAfterTheGate(text, MaxDecimals(field));
  }

  // ---- the canonical record -----------------------------------------------

  /** Every field of the canonical record: a numeric field from the gate, any other from the body, all trimmed. */
  method Canonicalise(fields: seq<string>, parsed: map<string, Raw>, numeric: map<string, string>)
    returns (record: map<string, Option<string>>)
    ensures forall f :: f in record <==> f in fields
    ensures forall f :: f in record ==>
              record[f] == if f in NUMERIC_FIELDS then Collapse(if f in numeric then Some(numeric[f]) else None)
                           else Collapse(if f in parsed && parsed[f].Characters? then Some(parsed[f].text) else None)
    ensures forall f :: f in record && record[f].Some? ==> record[f].value != "" && Trim(record[f].value) == record[f].value
  {
    hide Trim;
    record := map[];
    for i := 0 to |fields|
      invariant forall f :: f in record <==> f in fields[..i]
      invariant forall f :: f in record ==>
                  record[f] == if f in NUMERIC_FIELDS then Collapse(if f in numeric then Some(numeric[f]) else None)
                               else Collapse(if f in parsed && parsed[f].Characters? then Some(parsed[f].text) else None)
    {
      var field := fields[i];
      var value := if field in NUMERIC_FIELDS then (if field in numeric then Some(numeric[field]) else None)
                   else if field in parsed && parsed[field].Characters? then Some(parsed[field].text) else None;
      record := record[field := Collapse(value)];
      assert fields[..i + 1] == fields[..i] + [field];
    }
    assert fields[..|fields|] == fields;
    forall f | f in record && record[f].Some?
      ensures record[f].value != "" && Trim(record[f].value) == record[f].value
    {
      var value := if f in NUMERIC_FIELDS then (if f in numeric then Some(numeric[f]) else None)
                   else if f in parsed && parsed[f].Characters? then Some(parsed[f].text) else None;
      assert record[f] == Collapse(value);
      TrimIdempotent(value.value);
    }
  }
}
