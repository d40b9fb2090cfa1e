/** When a resubmitted decision body counts as a replay of a recorded decision. */
module Replay {
  import opened Text
  import opened HashChain
  import opened AuditWriter
  import opened Decisions
  import KeyOrder

  // ---- field-to-value maps ------------------------------------------------

  /** What a JavaScript `Map` filled in order holds: the last value of each field. */
  function MapOf(xs: seq<Submitted>): map<string, string> {
    if xs == [] then map[] else MapOf(xs[..|xs| - 1])[xs[|xs| - 1].fieldName := xs[|xs| - 1].value]
  }

  function Pairs(vs: seq<DecisionValue>): (xs: seq<Submitted>)
    ensures |xs| == |vs| && forall i :: 0 <= i < |vs| ==> xs[i] == Submitted(vs[i].fieldName, vs[i].value)
  {
    seq(|vs|, i requires 0 <= i < |vs| => Submitted(vs[i].fieldName, vs[i].value))
  }

  lemma {:induction false} MapKeys(xs: seq<Submitted>)
    ensures |MapOf(xs)| <= |xs|
    ensures forall i :: 0 <= i < |xs| ==> xs[i].fieldName in MapOf(xs)
    ensures forall f :: f in MapOf(xs) ==> exists i :: 0 <= i < |xs| && xs[i] == Submitted(f, MapOf(xs)[f])
  {
    if xs != [] {
      var init := xs[..|xs| - 1];
      MapKeys(init);
      assert MapOf(xs).Keys == MapOf(init).Keys + {xs[|xs| - 1].fieldName};
      forall f | f in MapOf(xs)
        ensures exists i :: 0 <= i < |xs| && xs[i] == Submitted(f, MapOf(xs)[f])
      {
        if f != xs[|xs| - 1].fieldName {
          var i :| 0 <= i < |init| && init[i] == Submitted(f, MapOf(init)[f]);
          assert xs[i] == init[i];
        } else {
          assert xs[|xs| - 1] == Submitted(f, MapOf(xs)[f]);
        }
      }
      forall i | 0 <= i < |xs|
        ensures xs[i].fieldName in MapOf(xs)
      {
        if i < |xs| - 1 { assert xs[i] == init[i]; }
      }
    }
  }

  lemma AbsentFromMap(xs: seq<Submitted>, f: string)
    requires forall i :: 0 <= i < |xs| ==> xs[i].fieldName != f
    ensures f !in MapOf(xs)
  {
    MapKeys(xs);
  }

  lemma {:induction false} DistinctMap(xs: seq<Submitted>)
    requires KeyOrder.DistinctKeys(SubmittedName, xs)
    ensures |MapOf(xs)| == |xs|
    ensures forall i :: 0 <= i < |xs| ==> xs[i].fieldName in MapOf(xs) && MapOf(xs)[xs[i].fieldName] == xs[i].value
  {
    if xs != [] {
      var init, last := xs[..|xs| - 1], xs[|xs| - 1];
      assert forall i, j :: 0 <= i < j < |init| ==> SubmittedName(xs[i]) != SubmittedName(xs[j]);
      DistinctMap(init);
      assert forall i :: 0 <= i < |init| ==> SubmittedName(xs[i]) != SubmittedName(last);
      AbsentFromMap(init, last.fieldName);
      assert MapOf(xs).Keys == MapOf(init).Keys + {last.fieldName};
      forall i | 0 <= i < |xs|
        ensures xs[i].fieldName in MapOf(xs) && MapOf(xs)[xs[i].fieldName] == xs[i].value
      {
        if i < |xs| - 1 {
          assert xs[i] == init[i];
          assert SubmittedName(xs[i]) != SubmittedName(last);
        }
      }
    }
  }

  lemma WholeByCount(a: set<string>, b: set<string>)
    requires a <= b && |a| >= |b|
    ensures a == b
  {
    assert b == a + (b - a);
  }

  // ---- matching -----------------------------------------------------------

  /** The reason as it would have been stored. */
  function NormalisedReason(reason: Option<string>): Option<string> {
    if reason.None? || Trim(reason.value) == "" then None else Some(Trim(reason.value))
  }

  /** The server's comparison of submitted and stored values: as many, and each submitted one found as stored. */
  predicate ValuesMatch(stored: seq<DecisionValue>, submitted: seq<Submitted>) {
    && |submitted| == |stored|
    && var byField := MapOf(Pairs(stored));
       forall i :: 0 <= i < |submitted| ==> submitted[i].fieldName in byField && byField[submitted[i].fieldName] == submitted[i].value
  }

  predicate Matches(t: DecisionType, reason: Option<string>, stored: seq<DecisionValue>, body: Body) {
    && t == body.decisionType && reason == NormalisedReason(body.reason)
    && (body.values.Some? ==> ValuesMatch(stored, body.values.value))
  }

  /** For values without a repeated field the counting comparison decides equality of the two field-to-value maps. */
  lemma ValuesMatchIff(stored: seq<DecisionValue>, submitted: seq<Submitted>)
    requires KeyOrder.DistinctKeys(DecisionName, stored) && KeyOrder.DistinctKeys(SubmittedName, submitted)
    ensures ValuesMatch(stored, submitted) <==> MapOf(Pairs(stored)) == MapOf(submitted)
  {
    var pairs := Pairs(stored);
    forall i, j | 0 <= i < j < |pairs|
      ensures SubmittedName(pairs[i]) != SubmittedName(pairs[j])
    {
      assert DecisionName(stored[i]) != DecisionName(stored[j]);
    }
    DistinctMap(pairs);
    DistinctMap(submitted);
    MapKeys(submitted);
    if ValuesMatch(stored, submitted) {
      forall f | f in MapOf(submitted)
        ensures f in MapOf(pairs) && MapOf(pairs)[f] == MapOf(submitted)[f]
      {
        var i :| 0 <= i < |submitted| && submitted[i] == Submitted(f, MapOf(submitted)[f]);
        assert submitted[i].fieldName in MapOf(pairs);
      }
      assert MapOf(submitted).Keys <= MapOf(pairs).Keys;
      WholeByCount(MapOf(submitted).Keys, MapOf(pairs).Keys);
    }
  }

  /** A resubmission matches exactly when type, normalised reason and (when supplied) the field-to-value map agree.
      The recommendation id plays no part, and omitted values always match. */
  lemma MatchesIff(t: DecisionType, reason: Option<string>, stored: seq<DecisionValue>, body: Body)
    requires KeyOrder.DistinctKeys(DecisionName, stored)
    requires body.values.Some? ==> KeyOrder.DistinctKeys(SubmittedName, body.values.value)
    ensures Matches(t, reason, stored, body) <==>
            && body.decisionType == t && NormalisedReason(body.reason) == reason
            && (body.values.None? || MapOf(body.values.value) == MapOf(Pairs(stored)))
  {
    if body.values.Some? {
      ValuesMatchIff(stored, body.values.value);
    }
  }

  // ---- repeated fields ----------------------------------------------------

  /** A field that is repeated has the same value each time. */
  predicate Consistent(xs: seq<Submitted>) {
    forall i, j :: 0 <= i < j < |xs| && SubmittedName(xs[i]) == SubmittedName(xs[j]) ==> xs[i].value == xs[j].value
  }

  /** Whatever `a` says, `b` says. */
  predicate Within(a: map<string, string>, b: map<string, string>) {
    forall f :: f in a ==> f in b && b[f] == a[f]
  }

  /** The whole of the comparison, whatever was submitted: as many values as are stored, no field with two values, and
      no field or value that is not stored. */
  lemma ValuesMatchExactly(stored: seq<DecisionValue>, submitted: seq<Submitted>)
    ensures ValuesMatch(stored, submitted) <==>
            |submitted| == |stored| && Consistent(submitted) && Within(MapOf(submitted), MapOf(Pairs(stored)))
  {
    var byField, asked := MapOf(Pairs(stored)), MapOf(submitted);
    MapKeys(submitted);
    if ValuesMatch(stored, submitted) {
      forall f | f in asked
        ensures f in byField && byField[f] == asked[f]
      {
        var i :| 0 <= i < |submitted| && submitted[i] == Submitted(f, asked[f]);
      }
      forall i, j | 0 <= i < j < |submitted| && SubmittedName(submitted[i]) == SubmittedName(submitted[j])
        ensures submitted[i].value == submitted[j].value
      {
        assert submitted[i].fieldName == submitted[j].fieldName && submitted[i].fieldName in byField;
      }
    }
    if Consistent(submitted) && Within(asked, byField) {
      forall i | 0 <= i < |submitted|
        ensures submitted[i].fieldName in byField && byField[submitted[i].fieldName] == submitted[i].value
      {
        ConsistentMap(submitted, i);
      }
    }
  }

  lemma ConsistentMap(xs: seq<Submitted>, i: nat)
    requires Consistent(xs) && i < |xs|
    ensures xs[i].fieldName in MapOf(xs) && MapOf(xs)[xs[i].fieldName] == xs[i].value
  {
    MapKeys(xs);
    var f := xs[i].fieldName;
    var k :| 0 <= k < |xs| && xs[k] == Submitted(f, MapOf(xs)[f]);
    assert SubmittedName(xs[k]) == SubmittedName(xs[i]);
  }

  lemma OneLarger(m: map<string, string>, f: string, text: string)
    ensures |m[f := text]| == if f in m then |m| else |m| + 1
  {
    assert m[f := text].Keys == m.Keys + {f};
  }

  /** A repeated field leaves fewer fields than values. */
  lemma {:induction false} RepeatShrinks(xs: seq<Submitted>)
    requires !KeyOrder.DistinctKeys(SubmittedName, xs)
    ensures |MapOf(xs)| < |xs|
  {
    var init, last := xs[..|xs| - 1], xs[|xs| - 1];
    var i, j :| 0 <= i < j < |xs| && SubmittedName(xs[i]) == SubmittedName(xs[j]);
    assert init[i] == xs[i];
    MapKeys(init);
    OneLarger(MapOf(init), last.fieldName, last.value);
    if j < |init| {
      assert SubmittedName(init[i]) == SubmittedName(init[j]);
      RepeatShrinks(init);
    }
  }

  lemma StoreOne(stored: seq<DecisionValue>, v: DecisionValue)
    requires KeyOrder.DistinctKeys(DecisionName, stored) && forall w :: w in stored ==> w.fieldName != v.fieldName
    ensures KeyOrder.DistinctKeys(DecisionName, stored + [v])
    ensures MapOf(Pairs(stored + [v])) == MapOf(Pairs(stored))[v.fieldName := v.value]
  {
    var more := stored + [v];
    assert Pairs(more)[..|stored|] == Pairs(stored);
    forall i, j | 0 <= i < j < |more|
      ensures DecisionName(more[i]) != DecisionName(more[j])
    {
      assert more[i] == stored[i] && stored[i] in stored;
      if j < |stored| {
        assert DecisionName(stored[i]) != DecisionName(stored[j]);
      }
    }
  }

  /** Every map is what some stored values hold, one for each field. */
  lemma {:induction false} Listing(m: map<string, string>) returns (stored: seq<DecisionValue>)
    ensures KeyOrder.DistinctKeys(DecisionName, stored) && MapOf(Pairs(stored)) == m && |stored| == |m|
    ensures forall v :: v in stored ==> v.fieldName in m
    decreases m.Keys
  {
    hide MapOf, Pairs;
    if m == map[] {
      stored := NothingStored();
    } else {
      var f :| f in m;
      var rest := Listing(m - {f});
      var v := DecisionValue(f, m[f], HUMAN, None, None, true);
      StoreOne(rest, v);
      OneLarger(m - {f}, f, m[f]);
      assert m == (m - {f})[f := m[f]];
      stored := rest + [v];
    }
  }

  lemma NothingStored() returns (stored: seq<DecisionValue>)
    ensures stored == [] && KeyOrder.DistinctKeys(DecisionName, stored) && MapOf(Pairs(stored)) == map[]
  {
    stored := [];
  }

  /** The counting comparison decides equality of the two maps, for everything that can be stored, exactly when no field
      was submitted twice. */
  lemma CountingDecidesIff(submitted: seq<Submitted>)
    ensures (forall stored :: KeyOrder.DistinctKeys(DecisionName, stored) ==>
               (ValuesMatch(stored, submitted) <==> MapOf(Pairs(stored)) == MapOf(submitted)))
            <==> KeyOrder.DistinctKeys(SubmittedName, submitted)
  {
    if KeyOrder.DistinctKeys(SubmittedName, submitted) {
      forall stored | KeyOrder.DistinctKeys(DecisionName, stored)
        ensures ValuesMatch(stored, submitted) <==> MapOf(Pairs(stored)) == MapOf(submitted)
      {
        ValuesMatchIff(stored, submitted);
      }
    } else {
      RepeatShrinks(submitted);
      var stored := Listing(MapOf(submitted));
      assert !ValuesMatch(stored, submitted) && MapOf(Pairs(stored)) == MapOf(submitted);
    }
  }

  /** These stored values, about fields among `names`, are taken for what was submitted though they are not. */
  ghost predicate MistakenFor(stored: seq<DecisionValue>, submitted: seq<Submitted>, names: set<string>) {
    && KeyOrder.DistinctKeys(DecisionName, stored) && (forall v :: v in stored ==> v.fieldName in names)
    && ValuesMatch(stored, submitted) && MapOf(Pairs(stored)) != MapOf(submitted)
  }

  /** One more field among `names` that the map does not have yet. */
  lemma OneMore(m: map<string, string>, names: set<string>) returns (m': map<string, string>)
    requires m.Keys <= names && |m| < |names|
    ensures m'.Keys <= names && |m'| == |m| + 1 && Within(m, m')
  {
    assert names == m.Keys + (names - m.Keys);
    var f :| f in names - m.Keys;
    m' := m[f := ""];
    OneLarger(m, f, "");
  }

  lemma {:induction false} Widen(m: map<string, string>, names: set<string>, n: nat) returns (m': map<string, string>)
    requires m.Keys <= names && |m| <= n <= |names|
    ensures m'.Keys <= names && |m'| == n && Within(m, m')
    decreases n - |m|
  {
    if |m| == n {
      m' := m;
    } else {
      var more := OneMore(m, names);
      m' := Widen(more, names, n);
    }
  }

  /** A submission can be taken for a record it does not equal exactly when it repeats a field, always with the same
      value, and there are field names enough for the record to have another one for each repeat. */
  lemma CanBeMistakenIff(submitted: seq<Submitted>, names: set<string>)
    ensures (exists stored :: MistakenFor(stored, submitted, names)) <==>
            && !KeyOrder.DistinctKeys(SubmittedName, submitted) && Consistent(submitted)
            && (forall s :: s in submitted ==> s.fieldName in names) && |submitted| <= |names|
  {
    if stored :| MistakenFor(stored, submitted, names) {
      if KeyOrder.DistinctKeys(SubmittedName, submitted) {
        ValuesMatchIff(stored, submitted);
      }
      ValuesMatchExactly(stored, submitted);
      StoredFields(stored, names);
      forall s | s in submitted
        ensures s.fieldName in names
      {
        var i :| 0 <= i < |submitted| && submitted[i] == s;
        assert s.fieldName in MapOf(Pairs(stored)).Keys;
      }
    }
    if && !KeyOrder.DistinctKeys(SubmittedName, submitted) && Consistent(submitted)
       && (forall s :: s in submitted ==> s.fieldName in names) && |submitted| <= |names| {
      var asked := MapOf(submitted);
      MapKeys(submitted);
      RepeatShrinks(submitted);
      forall f | f in asked.Keys
        ensures f in names
      {
        var i :| 0 <= i < |submitted| && submitted[i] == Submitted(f, asked[f]);
        assert submitted[i] in submitted;
      }
      var wide := Widen(asked, names, |submitted|);
      var stored := Listing(wide);
      ValuesMatchExactly(stored, submitted);
      assert MistakenFor(stored, submitted, names);
    }
  }

  lemma StoredFields(stored: seq<DecisionValue>, names: set<string>)
    requires KeyOrder.DistinctKeys(DecisionName, stored) && forall v :: v in stored ==> v.fieldName in names
    ensures MapOf(Pairs(stored)).Keys <= names && |stored| <= |names|
  {
    var pairs := Pairs(stored);
    forall i, j | 0 <= i < j < |pairs|
      ensures SubmittedName(pairs[i]) != SubmittedName(pairs[j])
    {
      assert DecisionName(stored[i]) != DecisionName(stored[j]);
    }
    DistinctMap(pairs);
    MapKeys(pairs);
    forall f | f in MapOf(pairs).Keys
      ensures f in names
    {
      var i :| 0 <= i < |pairs| && pairs[i] == Submitted(f, MapOf(pairs)[f]);
      assert stored[i] in stored;
    }
    var keys := MapOf(pairs).Keys;
    assert names == keys + (names - keys);
  }

  // ---- a recorded body ----------------------------------------------------

  lemma EditDecides(submitted: seq<Submitted>, ps: seq<Proposal>)
    requires EditAgainstProposal(submitted, ps).Ok?
    ensures Pairs(EditAgainstProposal(submitted, ps).value) == submitted
  {
    UnexpectedEmpty(submitted, ps);
  }

  /** What EDIT_APPROVE stores is, field by field, what was submitted. */
  lemma PlanStores(body: Body, status: RecommendationStatus, ps: seq<Proposal>, entry: EntryValues)
    requires MakePlan(body, status, ps, entry).Ok? && DistinctProposals(ps)
    ensures var vs := MakePlan(body, status, ps, entry).value.values;
            && KeyOrder.DistinctKeys(DecisionName, vs)
            && (body.values.Some? ==> Pairs(vs) == body.values.value && KeyOrder.DistinctKeys(SubmittedName, body.values.value))
  {
    hide EditAgainstProposal, LoadProposals, ValidateReason;
    var vs := MakePlan(body, status, ps, entry).value.values;
    LoadKeepsProposals(ps);
    if body.decisionType == EDIT_APPROVE {
      var submitted := body.values.value;
      if status == AVAILABLE {
        EditDecides(submitted, LoadProposals(ps));
      }
      assert Pairs(vs) == submitted;
      forall i, j | 0 <= i < j < |vs|
        ensures DecisionName(vs[i]) != DecisionName(vs[j])
      {
        assert SubmittedName(submitted[i]) != SubmittedName(submitted[j]);
        assert Pairs(vs)[i] == submitted[i] && Pairs(vs)[j] == submitted[j];
      }
    } else if body.decisionType == APPROVE {
      var qs := LoadProposals(ps);
      forall i, j | 0 <= i < j < |vs|
        ensures DecisionName(vs[i]) != DecisionName(vs[j])
      {
        assert ProposalName(qs[i]) != ProposalName(qs[j]);
      }
    }
  }

  lemma PlanReason(body: Body, status: RecommendationStatus, ps: seq<Proposal>, entry: EntryValues)
    requires MakePlan(body, status, ps, entry).Ok?
    ensures MakePlan(body, status, ps, entry).value.reason == NormalisedReason(body.reason)
  {
    hide EditAgainstProposal, LoadProposals, Trim, AllEntryFields;
  }

  /** Read back in the order of the field names, a decision's values hold the same fields and texts. */
  lemma LoadKeepsMap(vs: seq<DecisionValue>)
    requires KeyOrder.DistinctKeys(DecisionName, vs)
    ensures KeyOrder.DistinctKeys(DecisionName, LoadDecisionValues(vs))
    ensures multiset(LoadDecisionValues(vs)) == multiset(vs)
    ensures MapOf(Pairs(LoadDecisionValues(vs))) == MapOf(Pairs(vs))
  {
    hide KeyOrder.Sort;
    var loaded := LoadDecisionValues(vs);
    KeyOrder.SortMultiset(DecisionName, vs);
    KeyOrder.SortKeepsDistinct(DecisionName, vs);
    assert |loaded| == |multiset(loaded)| == |multiset(vs)| == |vs|;
    assert forall v :: v in vs <==> v in multiset(vs);
    assert forall v :: v in loaded <==> v in multiset(loaded);
    SameValuesSameMap(vs, loaded);
  }

  lemma SameValuesSameMap(vs: seq<DecisionValue>, ws: seq<DecisionValue>)
    requires KeyOrder.DistinctKeys(DecisionName, vs) && KeyOrder.DistinctKeys(DecisionName, ws)
    requires |ws| == |vs| && forall v :: v in vs ==> v in ws
    ensures MapOf(Pairs(ws)) == MapOf(Pairs(vs))
  {
    var pairs, pairs' := Pairs(vs), Pairs(ws);
    forall i, j | 0 <= i < j < |pairs|
      ensures SubmittedName(pairs[i]) != SubmittedName(pairs[j])
    {
      assert DecisionName(vs[i]) != DecisionName(vs[j]);
    }
    forall i, j | 0 <= i < j < |pairs'|
      ensures SubmittedName(pairs'[i]) != SubmittedName(pairs'[j])
    {
      assert DecisionName(ws[i]) != DecisionName(ws[j]);
    }
    DistinctMap(pairs');
    forall i | 0 <= i < |pairs|
      ensures pairs[i].fieldName in MapOf(pairs') && MapOf(pairs')[pairs[i].fieldName] == pairs[i].value
    {
      assert vs[i] in ws;
      var j :| 0 <= j < |ws| && ws[j] == vs[i];
      assert pairs'[j] == pairs[i];
    }
    assert ValuesMatch(ws, pairs);
    ValuesMatchIff(ws, pairs);
  }

  /** The body that produced a record always matches it when it comes back. */
  lemma RecordedBodyMatches(body: Body, status: RecommendationStatus, ps: seq<Proposal>, entry: EntryValues)
    requires MakePlan(body, status, ps, entry).Ok? && DistinctProposals(ps)
    ensures var plan := MakePlan(body, status, ps, entry).value;
            Matches(plan.decisionType, plan.reason, LoadDecisionValues(plan.values), body)
            && multiset(LoadDecisionValues(plan.values)) == multiset(plan.values)
  {
    hide MakePlan, LoadDecisionValues, NormalisedReason, DistinctProposals;
    var plan := MakePlan(body, status, ps, entry).value;
    PlanStores(body, status, ps, entry);
    PlanReason(body, status, ps, entry);
    PlanType(body, status, ps, entry);
    LoadKeepsMap(plan.values);
    MatchesIff(plan.decisionType, plan.reason, LoadDecisionValues(plan.values), body);
  }

  lemma PlanType(body: Body, status: RecommendationStatus, ps: seq<Proposal>, entry: EntryValues)
    requires MakePlan(body, status, ps, entry).Ok?
    ensures MakePlan(body, status, ps, entry).value.decisionType == body.decisionType
  {}

  // ---- the loops ----------------------------------------------------------

  /** Fills the lookup map, then looks up each submitted value. */
  method DecisionMatchesReplay(t: DecisionType, reason: Option<string>, stored: seq<DecisionValue>, body: Body)
    returns (matches: bool)
    ensures matches == Matches(t, reason, stored, body)
  {
    if t != body.decisionType || reason != NormalisedReason(body.reason) {
      return false;
    }
    if body.values.Some? {
      var submitted := body.values.value;
      if |submitted| != |stored| {
        return false;
      }
      var storedByField: map<string, string> := map[];
      ghost var pairs := Pairs(stored);
      for i := 0 to |stored|
        invariant storedByField == MapOf(pairs[..i])
      {
        storedByField := storedByField[stored[i].fieldName := stored[i].value];
        assert pairs[..i + 1][..i] == pairs[..i];
      }
      assert pairs[..|stored|] == pairs;
      for i := 0 to |submitted|
        invariant forall k :: 0 <= k < i ==>
                    submitted[k].fieldName in storedByField && storedByField[submitted[k].fieldName] == submitted[k].value
      {
        if submitted[i].fieldName !in storedByField || storedByField[submitted[i].fieldName] != submitted[i].value {
          return false;
        }
      }
    }
    return true;
  }

  /** The first field submitted twice, if any. */
  method AssertNoDuplicateFields(submitted: seq<Submitted>) returns (duplicate: Option<string>)
    ensures duplicate.None? <==> KeyOrder.DistinctKeys(SubmittedName, submitted)
    ensures duplicate.Some? ==>
              exists i, j :: 0 <= i < j < |submitted| && submitted[i].fieldName == submitted[j].fieldName == duplicate.value
                             && KeyOrder.DistinctKeys(SubmittedName, submitted[..j])
  {
    var seen: set<string> := {};
    for j := 0 to |submitted|
      invariant forall f :: f in seen <==> exists i :: 0 <= i < j && submitted[i].fieldName == f
      invariant KeyOrder.DistinctKeys(SubmittedName, submitted[..j])
    {
      if submitted[j].fieldName in seen {
        ghost var i :| 0 <= i < j && submitted[i].fieldName == submitted[j].fieldName;
        assert SubmittedName(submitted[i]) == SubmittedName(submitted[j]);
        return Some(submitted[j].fieldName);
      }
      seen := seen + {submitted[j].fieldName};
    }
    assert submitted[..|submitted|] == submitted;
    return None;
  }
}
