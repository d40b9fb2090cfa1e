/** Which of the thirty-one rules can be reported together about one field. */
module RuleClashes {
  import opened Text
  import opened AuditWriter
  import opened Decisions
  import opened RuleEngine
  import opened Registry

  // ---- the predicates that matter -----------------------------------------

  const BILL := "bill_of_lading_number"

  const WAYBILL := "air_waybill_number"

  const DESCRIPTION := "goods_description"

  predicate Present(r: EntryValues, field: string) {
    field in r && r[field] != ""
  }

  function Given(r: EntryValues, field: string): string {
    if field in r then r[field] else ""
  }

  /** Upper case, as far as a comparison with AIR, OCEAN, TRUCK or RAIL can tell: the dotless i counts as I. */
  function Upper(s: string): (u: string)
    ensures |u| == |s|
  {
    seq(|s|, i requires 0 <= i < |s| =>
      if 'a' <= s[i] <= 'z' then (s[i] as int - 32) as char else if s[i] == '\U{131}' then 'I' else s[i])
  }

  function Mode(r: EntryValues): string {
    Upper(Given(r, "mode_of_transport"))
  }

  function DigitCount(s: string): nat {
    if s == [] then 0 else (if '0' <= s[0] <= '9' then 1 else 0) + DigitCount(s[1..])
  }

  /** RIV-070: the document that the mode of transport calls for; either, when the mode is missing or unknown. */
  predicate HasDocument(r: EntryValues) {
    if Mode(r) == "AIR" then Present(r, WAYBILL)
    else if Mode(r) in ["OCEAN", "TRUCK", "RAIL"] then Present(r, BILL)
    else Present(r, WAYBILL) || Present(r, BILL)
  }

  /** Lower case, as far as a comparison with an unaccented term can tell: the Kelvin sign counts as k. */
  function Lower(s: string): (l: string)
    ensures |l| == |s|
  {
    seq(|s|, i requires 0 <= i < |s| =>
      if 'A' <= s[i] <= 'Z' then (s[i] as int + 32) as char else if s[i] == '\U{212A}' then 'k' else s[i])
  }

  /** Each run of white space becomes one space. */
  function Collapse(s: string): string {
    if s == [] then []
    else if !IsSpace(s[0]) then [s[0]] + Collapse(s[1..])
    else if |s| > 1 && IsSpace(s[1]) then Collapse(s[1..])
    else [' '] + Collapse(s[1..])
  }

  function StripPunctuation(s: string): string {
    if s != [] && s[|s| - 1] in ".,;:!?" then StripPunctuation(s[..|s| - 1]) else s
  }

  function CollapseLower(s: string): string {
    Trim(StripPunctuation(Collapse(Trim(Lower(s)))))
  }

  const GENERIC_TERMS: seq<string> := [
    "goods", "cargo", "freight", "merchandise", "items", "products", "general merchandise", "various", "various goods",
    "assorted", "assorted goods", "misc", "miscellaneous", "sample", "samples", "parts", "spare parts", "n/a", "na", "tbd",
    "unknown", "see attached", "as per invoice"]

  // ---- the rules as they are written --------------------------------------

  /** The field a rule is about: tens of ids for the fields in their order, but the seventies are about the two transport
      documents. */
  function PrimaryField(id: nat, r: EntryValues): string {
    if id == 70 then (if Mode(r) == "AIR" then WAYBILL else BILL)
    else if id == 72 then BILL
    else if id == 71 || id == 73 then WAYBILL
    else if 1 <= id / 10 <= 6 then ENTRY_FIELDS[id / 10 - 1]
    else if 8 <= id / 10 <= 13 then ENTRY_FIELDS[id / 10]
    else ""
  }

  /** Whether a rule applies, and whether it is satisfied. */
  predicate Says(rule: Rule<EntryValues>, r: EntryValues, applies: bool, holds: bool) {
    rule.applicable(r) == Some(applies) && rule.satisfied(r) == Some(holds)
  }

  /** The gates and fields of the thirty-one rules, and the predicates on the transport documents and the description.
      What the other rules ask is left open. */
  predicate AsWritten(rules: seq<Rule<EntryValues>>, r: EntryValues) {
    && HasGates(rules, REGISTRY)
    && (forall i :: 0 <= i < |rules| ==> rules[i].field(r) == Some(PrimaryField(rules[i].id, r)))
    && |rules| == 31
    && Says(rules[12], r, true, HasDocument(r))
    && Says(rules[13], r, Present(r, WAYBILL), DigitCount(Given(r, WAYBILL)) == 11)
    && rules[14].applicable(r) == Some(Present(r, BILL))
    && Says(rules[15], r, Present(r, BILL) && Present(r, WAYBILL), !(Present(r, BILL) && Present(r, WAYBILL)))
    && Says(rules[19], r, true, Present(r, DESCRIPTION))
    && Says(rules[20], r, true, Utf16Length(Trim(Given(r, DESCRIPTION))) >= 10)
    && Says(rules[21], r, true, CollapseLower(Given(r, DESCRIPTION)) !in GENERIC_TERMS)
  }

  /** Both documents are given and the air waybill number has not eleven digits: RIV-071 and RIV-073. */
  predicate DocumentsClash(r: EntryValues) {
    Present(r, BILL) && Present(r, WAYBILL) && DigitCount(r[WAYBILL]) != 11
  }

  /** A description shorter than ten and one of the general terms: RIV-091 and RIV-092. */
  predicate DescriptionClash(r: EntryValues) {
    && Present(r, DESCRIPTION)
    && Utf16Length(Trim(r[DESCRIPTION])) < 10 && CollapseLower(r[DESCRIPTION]) in GENERIC_TERMS
  }

  // ---- which rules share a field ------------------------------------------

  /** No two entry fields have the same name: they differ in length or in their first letter. */
  lemma EntryFieldsDiffer(i: nat, j: nat)
    requires i < j < 14
    ensures |ENTRY_FIELDS| == 14 && ENTRY_FIELDS[i] != ENTRY_FIELDS[j]
  {
    assert |ENTRY_FIELDS[i]| != |ENTRY_FIELDS[j]| || ENTRY_FIELDS[i][0] != ENTRY_FIELDS[j][0];
  }

  /** The ids of the registry, by place. */
  lemma IdAt(i: nat)
    requires i < 31
    ensures |REGISTRY| == 31 && 10 <= REGISTRY[i].id < 140
    ensures (REGISTRY[i].id / 10 == 7 <==> 12 <= i <= 15) && (12 <= i <= 15 ==> REGISTRY[i].id == 58 + i)
  {}

  lemma ThreeBack(i: nat)
    requires 3 <= i < 31 && |REGISTRY| == 31 && REGISTRY[i].id / 10 != 7
    ensures REGISTRY[i - 3].id / 10 < REGISTRY[i].id / 10
  {}

  lemma TwoBack(i: nat)
    requires 2 <= i < 31 && |REGISTRY| == 31 && REGISTRY[i].id / 10 != 7
    ensures REGISTRY[i - 2].id / 10 == REGISTRY[i].id / 10 ==> REGISTRY[i - 2].id in REGISTRY[i].requiresPassed
  {}

  lemma OneBack(i: nat)
    requires 1 <= i < 31 && |REGISTRY| == 31 && REGISTRY[i].id / 10 != 7
    ensures REGISTRY[i - 1].id / 10 == REGISTRY[i].id / 10 ==> REGISTRY[i - 1].id in REGISTRY[i].requiresPassed || i == 21
  {}

  function FieldPlace(id: nat, r: EntryValues): nat {
    if id / 10 == 7 then (if id == 72 || (id == 70 && Mode(r) != "AIR") then 6 else 7)
    else if id / 10 < 7 then id / 10 - (if id / 10 == 0 then 0 else 1)
    else id / 10
  }

  lemma FieldByPlace(id: nat, r: EntryValues)
    requires 10 <= id < 140 && (id / 10 == 7 ==> id <= 73)
    ensures FieldPlace(id, r) < 14 && PrimaryField(id, r) == ENTRY_FIELDS[FieldPlace(id, r)]
  {
    hide Mode;
  }

  /** Rules about one field are in one group of ids. */
  lemma OneGroup(a: nat, b: nat, r: EntryValues)
    requires 10 <= a < 140 && 10 <= b < 140 && (a / 10 == 7 ==> a <= 73) && (b / 10 == 7 ==> b <= 73)
    requires PrimaryField(a, r) == PrimaryField(b, r)
    ensures FieldPlace(a, r) == FieldPlace(b, r) && a / 10 == b / 10
  {
    hide Mode, PrimaryField;
    FieldByPlace(a, r);
    FieldByPlace(b, r);
    if FieldPlace(a, r) < FieldPlace(b, r) {
      EntryFieldsDiffer(FieldPlace(a, r), FieldPlace(b, r));
    } else if FieldPlace(b, r) < FieldPlace(a, r) {
      EntryFieldsDiffer(FieldPlace(b, r), FieldPlace(a, r));
    }
  }

  /** Of two rules about one field the later requires the earlier, but for RIV-091 with RIV-092 and among the seventies. */
  lemma GatedOrPair(i: nat, j: nat, r: EntryValues)
    requires i < j < 31 && |REGISTRY| == 31
    requires PrimaryField(REGISTRY[i].id, r) == PrimaryField(REGISTRY[j].id, r)
    ensures REGISTRY[i].id in REGISTRY[j].requiresPassed || (i == 20 && j == 21) || 12 <= i < j <= 15
  {
    hide PrimaryField, Mode;
    IdAt(i);
    IdAt(j);
    OneGroup(REGISTRY[i].id, REGISTRY[j].id, r);
    if REGISTRY[j].id / 10 != 7 {
      if i == j - 1 {
        OneBack(j);
      } else if i == j - 2 {
        TwoBack(j);
      } else {
        ThreeBack(j);
        IdsStep();
        if i < j - 3 {
          StepsAscend(REGISTRY, i, j - 3);
        }
      }
    }
  }

  // ---- which rules are reported -------------------------------------------

  lemma GatesHere()
    ensures |REGISTRY| == 31
    ensures REGISTRY[12] == Gate(70, []) && REGISTRY[13] == Gate(71, [])
    ensures REGISTRY[14] == Gate(72, []) && REGISTRY[15] == Gate(73, [])
    ensures REGISTRY[19] == Gate(90, []) && REGISTRY[20] == Gate(91, [90]) && REGISTRY[21] == Gate(92, [90])
  {}

  lemma Meant(rules: seq<Rule<EntryValues>>, r: EntryValues)
    requires HasGates(rules, REGISTRY) && Turns(rules, r).Ok?
    ensures DistinctIds(rules) && IsMeaning(rules, r, Turns(rules, r).value.failed)
  {
    hide IsMeaning, Turns, HasCycle;
    RegistryDecides(rules, r);
    RegistryInOrder();
  }

  lemma DocumentRules(rules: seq<Rule<EntryValues>>, r: EntryValues, failed: set<nat>)
    requires AsWritten(rules, r) && IsMeaning(rules, r, failed)
    ensures rules[12].id in failed ==> !HasDocument(r)
    ensures rules[13].id in failed <==> Present(r, WAYBILL) && DigitCount(r[WAYBILL]) != 11
    ensures rules[14].id in failed ==> Present(r, BILL)
    ensures rules[15].id in failed <==> Present(r, BILL) && Present(r, WAYBILL)
  {
    hide REGISTRY, HasDocument, PrimaryField, CollapseLower, DigitCount, HasId;
    GatesHere();
    assert !IsGated(rules[13], failed) && !IsGated(rules[15], failed);
  }

  lemma DescriptionRules(rules: seq<Rule<EntryValues>>, r: EntryValues, failed: set<nat>)
    requires AsWritten(rules, r) && IsMeaning(rules, r, failed)
    ensures rules[20].id in failed && rules[21].id in failed <==> DescriptionClash(r)
  {
    hide REGISTRY, HasDocument, PrimaryField, CollapseLower, DigitCount, HasId, Utf16Length, Trim;
    GatesHere();
    assert !IsGated(rules[19], failed);
    assert IsGated(rules[20], failed) <==> 90 in failed by { assert 90 in rules[20].requiresPassed; }
    assert IsGated(rules[21], failed) <==> 90 in failed by { assert 90 in rules[21].requiresPassed; }
  }

  lemma DocumentFields(rules: seq<Rule<EntryValues>>, r: EntryValues)
    requires AsWritten(rules, r)
    ensures rules[12].field(r) == Some(if Mode(r) == "AIR" then WAYBILL else BILL)
    ensures rules[13].field(r) == Some(WAYBILL) && rules[14].field(r) == Some(BILL) && rules[15].field(r) == Some(WAYBILL)
    ensures rules[20].field(r) == rules[21].field(r) && BILL != WAYBILL
  {
    hide Says, HasDocument, Mode;
    GatesHere();
    hide REGISTRY;
    assert |BILL| != |WAYBILL|;
  }

  /** RIV-070 is reported about a document that is missing, the other three about one that is there. */
  lemma DocumentReported(rules: seq<Rule<EntryValues>>, r: EntryValues, failed: set<nat>, k: nat)
    requires AsWritten(rules, r) && IsMeaning(rules, r, failed) && 12 <= k <= 15 && rules[k].id in failed
    ensures rules[k].field(r).Some?
    ensures Present(r, rules[k].field(r).value) <==> k > 12
    ensures k > 12 ==> rules[k].field(r) == Some(if k == 14 then BILL else WAYBILL)
  {
    hide HasGates, Says, PrimaryField, IsMeaning, Mode, REGISTRY;
    DocumentRules(rules, r, failed);
    DocumentFields(rules, r);
  }

  /** Two reported rules about one field are the two of one of the clashes. */
  lemma PairClashes(rules: seq<Rule<EntryValues>>, r: EntryValues, failed: set<nat>, i: nat, j: nat)
    requires AsWritten(rules, r) && IsMeaning(rules, r, failed) && i < j < 31
    requires rules[i].id in failed && rules[j].id in failed && rules[i].field(r) == rules[j].field(r)
    ensures DocumentsClash(r) || DescriptionClash(r)
  {
    hide HasGates, Says, PrimaryField, IsMeaning, Mode, REGISTRY, DescriptionClash, Present;
    GatedNotReported(rules, r, failed, i, j);
    DescriptionRules(rules, r, failed);
    if 12 <= i < j <= 15 {
      DocumentFields(rules, r);
      DocumentRules(rules, r, failed);
      DocumentReported(rules, r, failed, i);
      DocumentReported(rules, r, failed, j);
    } else {
      RulesAt(rules, r, i, j);
    }
  }

  lemma RulesAt(rules: seq<Rule<EntryValues>>, r: EntryValues, i: nat, j: nat)
    requires AsWritten(rules, r) && i < j < 31 && rules[i].field(r) == rules[j].field(r)
    ensures rules[i].id in rules[j].requiresPassed || (i == 20 && j == 21) || 12 <= i < j <= 15
  {
    hide Says, PrimaryField, Mode, REGISTRY;
    GatesHere();
    GatedOrPair(i, j, r);
  }

  lemma GatedNotReported(rules: seq<Rule<EntryValues>>, r: EntryValues, failed: set<nat>, i: nat, j: nat)
    requires IsMeaning(rules, r, failed) && i < |rules| && j < |rules|
    ensures rules[i].id in failed && rules[i].id in rules[j].requiresPassed ==> rules[j].id !in failed
  {
    hide Breaks, HasId;
  }

  /** The findings of an entry are about different fields exactly when neither the two documents nor the description
      clash. */
  lemma ClashIff(rules: seq<Rule<EntryValues>>, r: EntryValues)
    requires AsWritten(rules, r) && Turns(rules, r).Ok?
    ensures OneFindingPerField(Verdict(Turns(rules, r).value).findings) <==> !DocumentsClash(r) && !DescriptionClash(r)
  {
    var failed := Turns(rules, r).value.failed;
    Meant(rules, r);
    OneFindingIff(rules, r);
    DocumentRules(rules, r, failed);
    DescriptionRules(rules, r, failed);
    DocumentFields(rules, r);
    hide Turns, Says, HasGates, PrimaryField, DescriptionClash, OneFindingPerField, IsMeaning;
    forall i, j | 0 <= i < j < |rules| && rules[i].id in failed && rules[j].id in failed
                  && rules[i].field(r) == rules[j].field(r)
      ensures DocumentsClash(r) || DescriptionClash(r)
    {
      PairClashes(rules, r, failed, i, j);
    }
  }

  // ---- the description "goods" --------------------------------------------

  lemma {:induction false} NoSpaceCollapse(s: string)
    requires forall i :: 0 <= i < |s| ==> !IsSpace(s[i])
    ensures Collapse(s) == s
  {
    if s != [] {
      NoSpaceCollapse(s[1..]);
      assert s == [s[0]] + s[1..];
    }
  }

  lemma GoodsLength()
    ensures Utf16Length("goods") == 5
  {
    var s := "goods";
    assert s[5..] == [] && s[4..][1..] == s[5..] && s[3..][1..] == s[4..] && s[2..][1..] == s[3..] && s[1..][1..] == s[2..];
    assert Utf16Length(s[4..]) == 1;
    assert Utf16Length(s[3..]) == 2;
    assert Utf16Length(s[2..]) == 3;
    assert Utf16Length(s[1..]) == 4;
  }

  /** Plain lower-case text without punctuation at its end is compared as it stands. */
  lemma PlainCollapse(s: string)
    requires s != [] && forall i :: 0 <= i < |s| ==> 'a' <= s[i] <= 'z'
    ensures Trim(s) == s && CollapseLower(s) == s
  {
    TrimmedIsFixed(s);
    assert Lower(s) == s;
    NoSpaceCollapse(s);
  }

  /** "goods" is shorter than ten and among the general terms. */
  lemma GoodsClash(r: EntryValues)
    requires DESCRIPTION in r && r[DESCRIPTION] == "goods"
    ensures DescriptionClash(r)
  {
    hide Utf16Length, Trim, CollapseLower;
    GoodsLength();
    PlainCollapse("goods");
    assert GENERIC_TERMS[0] == "goods";
  }
}
