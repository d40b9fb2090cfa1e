/** The first gate a provider's answer passes: a closed shape, distinct fields, known rules, no internal codes. */
module ProviderOutput {
  import opened Text
  import opened Digits
  import opened AuditWriter
  import opened Decisions
  import KeyOrder

  datatype ProposedValue = ProposedValue(fieldName: string, proposedValue: string, addressesRuleIds: seq<string>)

  datatype Answer = Answer(recommendedAction: string, rationale: string, proposedValues: seq<ProposedValue>)

  const ACTION_MAX := 500
  const TEXT_MAX := 2000
  const VALUES_MAX := 14

  predicate IsRuleId(s: string) {
    |s| == 7 && s[..4] == "RIV-" && AllDigits(s[4..])
  }

  /** A rule id somewhere in the text. */
  predicate MentionsRule(s: string) {
    exists i {:trigger s[i..i + 7]} :: 0 <= i <= |s| - 7 && IsRuleId(s[i..i + 7])
  }

  /** Present after trimming, and not too long. */
  predicate Sized(s: string, max: nat) {
    1 <= Utf16Length(Trim(s)) <= max
  }

  predicate ValueShaped(v: ProposedValue) {
    && v.fieldName in ENTRY_FIELDS && Sized(v.proposedValue, TEXT_MAX)
    && v.addressesRuleIds != [] && forall i :: 0 <= i < |v.addressesRuleIds| ==> IsRuleId(v.addressesRuleIds[i])
  }

  /** The closed schema. */
  predicate Shaped(a: Answer) {
    && Sized(a.recommendedAction, ACTION_MAX) && Sized(a.rationale, TEXT_MAX)
    && |a.proposedValues| <= VALUES_MAX
    && forall i :: 0 <= i < |a.proposedValues| ==> ValueShaped(a.proposedValues[i])
  }

  function TrimValue(v: ProposedValue): ProposedValue {
    v.(proposedValue := Trim(v.proposedValue))
  }

  /** The schema hands on trimmed texts. */
  function Trimmed(a: Answer): (r: Answer)
    ensures |r.proposedValues| == |a.proposedValues|
    ensures forall i :: 0 <= i < |a.proposedValues| ==> r.proposedValues[i] == TrimValue(a.proposedValues[i])
  {
    Answer(Trim(a.recommendedAction), Trim(a.rationale),
           seq(|a.proposedValues|, i requires 0 <= i < |a.proposedValues| => TrimValue(a.proposedValues[i])))
  }

  function ValueName(v: ProposedValue): string { v.fieldName }

  predicate AllKnown(ids: seq<string>, known: set<string>) {
    forall i :: 0 <= i < |ids| ==> ids[i] in known
  }

  /** What an accepted answer is: well shaped, its rationale free of rule ids, at most one value for each field, and
      every value tied to findings of this very exception. */
  predicate Acceptable(a: Answer, known: set<string>) {
    && Shaped(a) && !MentionsRule(Trim(a.rationale))
    && KeyOrder.DistinctKeys(ValueName, a.proposedValues)
    && forall i :: 0 <= i < |a.proposedValues| ==> AllKnown(a.proposedValues[i].addressesRuleIds, known)
  }

  /** The check as it runs, over a growing set of fields seen. */
  method ValidateProviderResponse(a: Answer, known: set<string>) returns (r: Option<Answer>)
    ensures r == if Acceptable(a, known) then Some(Trimmed(a)) else None
    ensures r.Some? ==>
              && r.value.recommendedAction == Trim(a.recommendedAction) && r.value.rationale == Trim(a.rationale)
              && |r.value.proposedValues| == |a.proposedValues|
              && forall i :: 0 <= i < |a.proposedValues| ==>
                   var v, w := a.proposedValues[i], r.value.proposedValues[i];
                   && w.fieldName == v.fieldName && w.proposedValue == Trim(v.proposedValue)
                   && w.addressesRuleIds == v.addressesRuleIds
  {
    hide Shaped, MentionsRule;
    if !Shaped(a) || MentionsRule(Trim(a.rationale)) {
      return None;
    }
    var seen: set<string> := {};
    var vs := a.proposedValues;
    for i := 0 to |vs|
      invariant forall f :: f in seen <==> exists k :: 0 <= k < i && vs[k].fieldName == f
      invariant forall j, k :: 0 <= j < k < i ==> ValueName(vs[j]) != ValueName(vs[k])
      invariant forall k :: 0 <= k < i ==> AllKnown(vs[k].addressesRuleIds, known)
    {
      if vs[i].fieldName in seen {
        ghost var k :| 0 <= k < i && vs[k].fieldName == vs[i].fieldName;
        assert ValueName(vs[k]) == ValueName(vs[i]);
        return None;
      }
      seen := seen + {vs[i].fieldName};
      var ids := vs[i].addressesRuleIds;
      for n := 0 to |ids|
        invariant forall m :: 0 <= m < n ==> ids[m] in known
      {
        if ids[n] !in known {
          return None;
        }
      }
    }
    r := Some(Trimmed(a));
  }

  function Proposals(a: Answer): (ps: seq<Proposal>)
    ensures |ps| == |a.proposedValues|
    ensures forall i :: 0 <= i < |ps| ==> ps[i] == Proposal(a.proposedValues[i].fieldName, a.proposedValues[i].proposedValue)
  {
    seq(|a.proposedValues|, i requires 0 <= i < |a.proposedValues| =>
      Proposal(a.proposedValues[i].fieldName, a.proposedValues[i].proposedValue))
  }

  /** What the generation job relies on: the proposals of an accepted answer name entry fields, each at most once, and
      carry trimmed texts that the table holds. */
  lemma AcceptedProposals(a: Answer, known: set<string>)
    requires Acceptable(a, known)
    ensures var ps := Proposals(Trimmed(a));
            && ProposalsStorable(ps) && |ps| <= VALUES_MAX
            && forall i :: 0 <= i < |ps| ==> ps[i].fieldName in ENTRY_FIELDS && IsTrimmed(ps[i].value)
  {
    var vs, ps := a.proposedValues, Proposals(Trimmed(a));
    hide Trim, IsTrimmed, MentionsRule;
    forall i, j | 0 <= i < j < |ps|
      ensures ProposalName(ps[i]) != ProposalName(ps[j])
    {
      assert ValueName(vs[i]) != ValueName(vs[j]);
    }
    forall i | 0 <= i < |ps|
      ensures ps[i].fieldName in ENTRY_FIELDS && Storable(ps[i].value) && IsTrimmed(ps[i].value)
    {
      assert ValueShaped(vs[i]);
      TrimIsTrimmed(vs[i].proposedValue);
      CharactersBound(Trim(vs[i].proposedValue));
    }
  }
}
