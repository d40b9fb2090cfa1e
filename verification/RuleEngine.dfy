/** The evaluation loop: every rule in registry order, skipping those gated by an earlier failure. */
module RuleEngine {
  import opened Text

  datatype Outcome = PASS | FAIL

  datatype Finding = Finding(ruleId: nat, fieldName: string, failureCode: string, message: string)

  datatype Evaluation = Evaluation(outcome: Outcome, evaluatedCount: nat, findings: seq<Finding>)

  /** A rule over records `R`. A predicate or resolver that throws yields `None`; so does a resolver that names
      something other than an entry field. */
  datatype Rule<!R> = Rule(
    id: nat, code: string, requiresPassed: seq<nat>,
    applicable: R -> Option<bool>, satisfied: R -> Option<bool>,
    field: R -> Option<string>, message: R -> Option<string>)

  /** What the loop has gathered. */
  datatype Progress = Progress(failed: set<nat>, findings: seq<Finding>, evaluatedCount: nat)

  predicate IsGated<R>(rule: Rule<R>, failed: set<nat>) {
    exists d :: d in rule.requiresPassed && d in failed
  }

  /** One turn of the loop; `Err` carries the rule that threw. */
  function Turn<R>(rule: Rule<R>, record: R, p: Progress): Result<Progress, nat> {
    if IsGated(rule, p.failed) then Ok(p)
    else match rule.applicable(record) {
      case None => Err(rule.id)
      case Some(applies) =>
        if !applies then Ok(p)
        else match rule.satisfied(record) {
          case None => Err(rule.id)
          case Some(true) => Ok(p.(evaluatedCount := p.evaluatedCount + 1))
          case Some(false) =>
            if rule.field(record).None? || rule.message(record).None? then Err(rule.id)
            else
              Ok(Progress(p.failed + {rule.id},
                          p.findings + [Finding(rule.id, rule.field(record).value, rule.code, rule.message(record).value)],
                          p.evaluatedCount + 1))
        }
    }
  }

  function Turns<R>(rules: seq<Rule<R>>, record: R): Result<Progress, nat> {
    if rules == [] then Ok(Progress({}, [], 0))
    else match Turns(rules[..|rules| - 1], record) {
      case Err(e) => Err(e)
      case Ok(p) => Turn(rules[|rules| - 1], record, p)
    }
  }

  function Verdict(p: Progress): Evaluation {
    Evaluation(if p.findings == [] then PASS else FAIL, p.evaluatedCount, p.findings)
  }

  /** The loop as it runs, with its gating loop inside. */
  method Evaluate<R>(record: R, rules: seq<Rule<R>>) returns (r: Result<Evaluation, nat>)
    ensures Turns(rules, record).Err? ==> r == Err(Turns(rules, record).error)
    ensures Turns(rules, record).Ok? ==>
              var p := Turns(rules, record).value;
              && r == Ok(Verdict(p))
              && r.value.findings == p.findings && r.value.evaluatedCount == p.evaluatedCount
              && (r.value.outcome == PASS <==> p.findings == [])
  {
    var failed: set<nat> := {};
    var findings: seq<Finding> := [];
    var evaluated := 0;
    for i := 0 to |rules|
      invariant Turns(rules[..i], record) == Ok(Progress(failed, findings, evaluated))
    {
      var rule := rules[i];
      assert rules[..i + 1][..i] == rules[..i] && rules[..i + 1][i] == rule;
      assert Turns(rules[..i + 1], record) == Turn(rule, record, Progress(failed, findings, evaluated));
      var gated := false;
      for k := 0 to |rule.requiresPassed|
        invariant gated <==> exists j :: 0 <= j < k && rule.requiresPassed[j] in failed
      {
        if rule.requiresPassed[k] in failed {
          gated := true;
        }
      }
      assert gated <==> IsGated(rule, failed);
      if gated {
        continue;
      }
      var applies := rule.applicable(record);
      if applies.None? {
        Stops(rules, record, i + 1);
        return Err(rule.id);
      }
      if !applies.value {
        continue;
      }
      var holds := rule.satisfied(record);
      if holds.None? {
        Stops(rules, record, i + 1);
        return Err(rule.id);
      }
      if holds.value {
        evaluated := evaluated + 1;
        continue;
      }
      var fieldName, message := rule.field(record), rule.message(record);
      if fieldName.None? || message.None? {
        Stops(rules, record, i + 1);
        return Err(rule.id);
      }
      evaluated := evaluated + 1;
      findings := findings + [Finding(rule.id, fieldName.value, rule.code, message.value)];
      failed := failed + {rule.id};
    }
    assert rules[..|rules|] == rules;
    r := Ok(Verdict(Progress(failed, findings, evaluated)));
  }

  /** A throw ends the evaluation for good. */
  lemma {:induction false} Stops<R>(rules: seq<Rule<R>>, record: R, i: nat)
    requires i <= |rules| && Turns(rules[..i], record).Err?
    ensures Turns(rules, record) == Turns(rules[..i], record)
    decreases |rules|
  {
    if i < |rules| {
      assert rules[..|rules| - 1][..i] == rules[..i];
      Stops(rules[..|rules| - 1], record, i);
    } else {
      assert rules[..i] == rules;
    }
  }

  // ---- the declared meaning -----------------------------------------------

  predicate DistinctIds<R>(rules: seq<Rule<R>>) {
    forall i, j :: 0 <= i < j < |rules| ==> rules[i].id != rules[j].id
  }

  predicate Ascending<R>(rules: seq<Rule<R>>) {
    forall i, j :: 0 <= i < j < |rules| ==> rules[i].id < rules[j].id
  }

  /** No rule requires itself or a rule after it. */
  predicate NothingLater<R>(rules: seq<Rule<R>>) {
    forall i, j :: 0 <= i <= j < |rules| ==> rules[j].id !in rules[i].requiresPassed
  }

  /** Applicable and not satisfied. */
  predicate Breaks<R>(rule: Rule<R>, record: R) {
    rule.applicable(record) == Some(true) && rule.satisfied(record) == Some(false)
  }

  predicate HasId<R>(rules: seq<Rule<R>>, id: nat) {
    exists i :: 0 <= i < |rules| && rules[i].id == id
  }

  lemma PrefixHasId<R>(rules: seq<Rule<R>>, n: nat, id: nat)
    requires n <= |rules| && HasId(rules[..n], id)
    ensures HasId(rules, id)
  {
    var i :| 0 <= i < n && rules[..n][i].id == id;
    assert rules[i].id == id;
  }

  /** A rule is reported exactly when it applies, is not satisfied, and nothing it requires is reported. */
  ghost predicate IsMeaning<R>(rules: seq<Rule<R>>, record: R, reported: set<nat>) {
    && (forall i :: 0 <= i < |rules| ==>
          (rules[i].id in reported <==> Breaks(rules[i], record) && !IsGated(rules[i], reported)))
    && (forall id :: id in reported ==> HasId(rules, id))
  }

  /** How many rules apply and have nothing they require reported. */
  function CountEvaluated<R>(rules: seq<Rule<R>>, record: R, reported: set<nat>): nat {
    if rules == [] then 0 else
      var last := rules[|rules| - 1];
      CountEvaluated(rules[..|rules| - 1], record, reported)
      + (if last.applicable(record) == Some(true) && !IsGated(last, reported) then 1 else 0)
  }

  /** The findings of the reported rules, in registry order. */
  function FindingsOf<R>(rules: seq<Rule<R>>, record: R, reported: set<nat>): seq<Finding> {
    if rules == [] then [] else
      var last := rules[|rules| - 1];
      FindingsOf(rules[..|rules| - 1], record, reported)
      + (if last.id in reported && last.field(record).Some? && last.message(record).Some?
         then [Finding(last.id, last.field(record).value, last.code, last.message(record).value)] else [])
  }

  lemma GateIgnores<R>(rule: Rule<R>, failed: set<nat>, id: nat)
    requires id !in rule.requiresPassed
    ensures IsGated(rule, failed + {id}) <==> IsGated(rule, failed)
  {
    if IsGated(rule, failed) {
      var d :| d in rule.requiresPassed && d in failed;
      assert d in failed + {id};
    }
  }

  /** Counts and findings of a prefix do not depend on a rule that comes after it. */
  lemma {:induction false} PrefixIgnores<R>(rules: seq<Rule<R>>, record: R, failed: set<nat>, id: nat)
    requires forall i :: 0 <= i < |rules| ==> rules[i].id != id && id !in rules[i].requiresPassed
    ensures CountEvaluated(rules, record, failed + {id}) == CountEvaluated(rules, record, failed)
    ensures FindingsOf(rules, record, failed + {id}) == FindingsOf(rules, record, failed)
  {
    if rules != [] {
      PrefixIgnores(rules[..|rules| - 1], record, failed, id);
      GateIgnores(rules[|rules| - 1], failed, id);
    }
  }

  /** One more rule, reported or not, extends the meaning of the rules before it. */
  lemma MeaningExtends<R>(rules: seq<Rule<R>>, record: R, before: set<nat>, reports: bool)
    requires DistinctIds(rules) && NothingLater(rules) && rules != []
    requires IsMeaning(rules[..|rules| - 1], record, before)
    requires reports <==> Breaks(rules[|rules| - 1], record) && !IsGated(rules[|rules| - 1], before)
    ensures rules[|rules| - 1].id !in before
    ensures IsMeaning(rules, record, if reports then before + {rules[|rules| - 1].id} else before)
  {
    hide Breaks, IsGated, HasId;
    var n := |rules| - 1;
    var init, last := rules[..n], rules[n];
    var after := if reports then before + {last.id} else before;
    assert forall i :: 0 <= i < n ==> init[i] == rules[i];
    FreshToReported(rules, record, before);
    forall i | 0 <= i < |rules|
      ensures IsGated(rules[i], after) <==> IsGated(rules[i], before)
    {
      GateIgnores(rules[i], before, last.id);
    }
    forall id | id in after
      ensures HasId(rules, id)
    {
      if id == last.id {
        LastHasId(rules);
      } else {
        PrefixHasId(rules, n, id);
      }
    }
    forall i | 0 <= i < n
      ensures rules[i].id in after <==> Breaks(rules[i], record) && !IsGated(rules[i], after)
    {
      assert init[i].id in before <==> Breaks(init[i], record) && !IsGated(init[i], before);
    }
  }

  lemma LastHasId<R>(rules: seq<Rule<R>>)
    requires rules != []
    ensures HasId(rules, rules[|rules| - 1].id)
  {}

  lemma NoSuchId<R>(rules: seq<Rule<R>>, id: nat)
    requires forall i :: 0 <= i < |rules| ==> rules[i].id != id
    ensures !HasId(rules, id)
  {}

  /** When no rule requires a later one, the loop computes the declared meaning: the reported rules, their findings
      in registry order, and the count of ungated applicable rules. */
  lemma {:induction false} LoopMeans<R>(rules: seq<Rule<R>>, record: R)
    requires DistinctIds(rules) && NothingLater(rules) && Turns(rules, record).Ok?
    ensures var p := Turns(rules, record).value;
            && IsMeaning(rules, record, p.failed)
            && p.findings == FindingsOf(rules, record, p.failed)
            && p.evaluatedCount == CountEvaluated(rules, record, p.failed)
  {
    if rules != [] {
      var n := |rules| - 1;
      var init, last := rules[..n], rules[n];
      assert forall i :: 0 <= i < n ==> init[i] == rules[i];
      LoopMeans(init, record);
      LastIsFresh(rules);
      LastTurn(rules, record);
      FreshToReported(rules, record, Turns(init, record).value.failed);
      hide IsMeaning, Turns, Turn, IsGated, HasId, NothingLater, DistinctIds;
      var before, after := Turns(init, record).value, Turns(rules, record).value;
      SummaryExtends(rules, record, before, after);
      MeaningExtends(rules, record, before.failed, Breaks(last, record) && !IsGated(last, before.failed));
    }
  }

  lemma {:induction false} SummaryExtends<R>(rules: seq<Rule<R>>, record: R, before: Progress, after: Progress)
    requires rules != [] && Turn(rules[|rules| - 1], record, before) == Ok(after)
    requires var last := rules[|rules| - 1];
             forall i :: 0 <= i < |rules| ==> last.id !in rules[i].requiresPassed
    requires forall i :: 0 <= i < |rules| - 1 ==> rules[i].id != rules[|rules| - 1].id
    requires var init := rules[..|rules| - 1];
             && before.findings == FindingsOf(init, record, before.failed)
             && before.evaluatedCount == CountEvaluated(init, record, before.failed)
    requires rules[|rules| - 1].id !in before.failed
    ensures after.findings == FindingsOf(rules, record, after.failed)
    ensures after.evaluatedCount == CountEvaluated(rules, record, after.failed)
    ensures after.failed ==
            if Breaks(rules[|rules| - 1], record) && !IsGated(rules[|rules| - 1], before.failed)
            then before.failed + {rules[|rules| - 1].id} else before.failed
  {
    var init, last := rules[..|rules| - 1], rules[|rules| - 1];
    TurnReports(last, record, before, after);
    hide IsGated, Turn, Breaks;
    if after.failed != before.failed {
      PrefixIgnores(init, record, before.failed, last.id);
      GateIgnores(last, before.failed, last.id);
    }
  }

  /** What one turn adds. */
  lemma TurnReports<R>(rule: Rule<R>, record: R, before: Progress, after: Progress)
    requires Turn(rule, record, before) == Ok(after) && rule.id !in before.failed
    ensures after.evaluatedCount ==
            before.evaluatedCount + if rule.applicable(record) == Some(true) && !IsGated(rule, before.failed) then 1 else 0
    ensures if Breaks(rule, record) && !IsGated(rule, before.failed) then
              && rule.field(record).Some? && rule.message(record).Some?
              && after.failed == before.failed + {rule.id} && rule.id in after.failed
              && after.findings ==
                 before.findings + [Finding(rule.id, rule.field(record).value, rule.code, rule.message(record).value)]
            else after.failed == before.failed && after.findings == before.findings
  {
    hide IsGated;
  }

  lemma FreshToReported<R>(rules: seq<Rule<R>>, record: R, reported: set<nat>)
    requires DistinctIds(rules) && rules != [] && IsMeaning(rules[..|rules| - 1], record, reported)
    ensures rules[|rules| - 1].id !in reported
  {
    hide Breaks, IsGated, HasId;
    NoSuchId(rules[..|rules| - 1], rules[|rules| - 1].id);
  }

  lemma LastIsFresh<R>(rules: seq<Rule<R>>)
    requires DistinctIds(rules) && NothingLater(rules) && rules != []
    ensures var last := rules[|rules| - 1];
            && last.id !in last.requiresPassed
            && forall i :: 0 <= i < |rules| - 1 ==> rules[i].id != last.id && last.id !in rules[i].requiresPassed
  {}

  lemma LastTurn<R>(rules: seq<Rule<R>>, record: R)
    requires rules != [] && Turns(rules, record).Ok?
    ensures Turns(rules[..|rules| - 1], record).Ok?
    ensures Turn(rules[|rules| - 1], record, Turns(rules[..|rules| - 1], record).value) == Turns(rules, record)
  {}

  /** There is only one such set. */
  lemma {:induction false} MeaningsAgree<R>(rules: seq<Rule<R>>, record: R, a: set<nat>, b: set<nat>, k: nat)
    requires DistinctIds(rules) && NothingLater(rules) && k <= |rules|
    requires IsMeaning(rules, record, a) && IsMeaning(rules, record, b)
    ensures forall i :: 0 <= i < k ==> (rules[i].id in a <==> rules[i].id in b)
  {
    if k > 0 {
      MeaningsAgree(rules, record, a, b, k - 1);
      GatesAgree(rules, record, a, b, k - 1);
      GatesAgree(rules, record, b, a, k - 1);
    }
  }

  lemma GatesAgree<R>(rules: seq<Rule<R>>, record: R, a: set<nat>, b: set<nat>, k: nat)
    requires NothingLater(rules) && k < |rules| && IsMeaning(rules, record, a)
    requires forall i :: 0 <= i < k ==> (rules[i].id in a <==> rules[i].id in b)
    ensures IsGated(rules[k], a) ==> IsGated(rules[k], b)
  {
    if d :| d in rules[k].requiresPassed && d in a {
      assert HasId(rules, d);
      var i :| 0 <= i < |rules| && rules[i].id == d;
      assert i < k;
      assert d in b;
    }
  }

  lemma MeaningUnique<R>(rules: seq<Rule<R>>, record: R, a: set<nat>, b: set<nat>)
    requires DistinctIds(rules) && NothingLater(rules)
    requires IsMeaning(rules, record, a) && IsMeaning(rules, record, b)
    ensures a == b
  {
    MeaningsAgree(rules, record, a, b, |rules|);
    forall id | id in a + b
      ensures id in a && id in b
    {
      assert HasId(rules, id);
      var i :| 0 <= i < |rules| && rules[i].id == id;
    }
  }

  lemma {:induction false} FindingsNamed<R>(rules: seq<Rule<R>>, record: R, reported: set<nat>, i: nat)
    requires i < |FindingsOf(rules, record, reported)|
    ensures HasId(rules, FindingsOf(rules, record, reported)[i].ruleId)
  {
    var n := |rules| - 1;
    if i < |FindingsOf(rules[..n], record, reported)| {
      FindingsNamed(rules[..n], record, reported, i);
      PrefixHasId(rules, n, FindingsOf(rules, record, reported)[i].ruleId);
    } else {
      LastHasId(rules);
    }
  }

  /** Findings come in strictly ascending order of rule. */
  lemma {:induction false} FindingsAscend<R>(rules: seq<Rule<R>>, record: R, reported: set<nat>, i: nat, j: nat)
    requires Ascending(rules) && i < j < |FindingsOf(rules, record, reported)|
    ensures FindingsOf(rules, record, reported)[i].ruleId < FindingsOf(rules, record, reported)[j].ruleId
  {
    var n := |rules| - 1;
    var init, fs := FindingsOf(rules[..n], record, reported), FindingsOf(rules, record, reported);
    if j < |init| {
      FindingsAscend(rules[..n], record, reported, i, j);
      assert fs[i] == init[i] && fs[j] == init[j];
    } else {
      FindingsNamed(rules[..n], record, reported, i);
      var k :| 0 <= k < n && rules[..n][k].id == init[i].ruleId;
      assert rules[k].id < rules[n].id;
      assert fs[j].ruleId == rules[n].id;
    }
  }

  /** Every reported rule has its finding, about the field it resolved to. */
  lemma {:induction false} ReportedHasFinding<R>(rules: seq<Rule<R>>, record: R, k: nat) returns (n: nat)
    requires DistinctIds(rules) && Turns(rules, record).Ok? && k < |rules|
    requires rules[k].id in Turns(rules, record).value.failed
    ensures n < |Turns(rules, record).value.findings|
    ensures var f := Turns(rules, record).value.findings[n];
            f.ruleId == rules[k].id && rules[k].field(record) == Some(f.fieldName)
  {
    var m := |rules| - 1;
    LastTurn(rules, record);
    hide Turn, IsGated;
    var before, after := Turns(rules[..m], record).value, Turns(rules, record).value;
    NoSuchId(rules[..m], rules[m].id);
    if rules[m].id in before.failed {
      FailedAreRules(rules[..m], record, rules[m].id);
    }
    TurnReports(rules[m], record, before, after);
    if k < m {
      n := ReportedHasFinding(rules[..m], record, k);
    } else {
      n := |after.findings| - 1;
    }
  }

  lemma {:induction false} FailedAreRules<R>(rules: seq<Rule<R>>, record: R, id: nat)
    requires Turns(rules, record).Ok? && id in Turns(rules, record).value.failed
    ensures HasId(rules, id)
  {
    var m := |rules| - 1;
    if Turns(rules[..m], record).Ok? && id in Turns(rules[..m], record).value.failed {
      FailedAreRules(rules[..m], record, id);
      PrefixHasId(rules, m, id);
    } else {
      LastHasId(rules);
    }
  }

  // ---- any registry at all ------------------------------------------------

  /** For any registry, in any order and with any gating: if nothing throws, PASS means that every applicable rule is
      satisfied. */
  lemma {:induction false} PassIff<R>(rules: seq<Rule<R>>, record: R)
    requires Turns(rules, record).Ok?
    ensures var p := Turns(rules, record).value;
            && (p.failed == {} <==> p.findings == [])
            && (Verdict(p).outcome == PASS <==> forall i :: 0 <= i < |rules| ==> !Breaks(rules[i], record))
  {
    if rules != [] {
      var n := |rules| - 1;
      PassIff(rules[..n], record);
      assert forall i :: 0 <= i < n ==> rules[..n][i] == rules[i];
      var p := Turns(rules[..n], record).value;
      if p.failed == {} {
        assert !IsGated(rules[n], p.failed);
      }
      assert (forall i :: 0 <= i < n ==> !Breaks(rules[i], record)) <==> p.findings == [];
    }
  }

  // ---- one finding for each field -----------------------------------------

  predicate OneFindingPerField(findings: seq<Finding>) {
    forall i, j :: 0 <= i < j < |findings| ==> findings[i].fieldName != findings[j].fieldName
  }

  /** Every finding is about a reported rule, and each reported rule has one. */
  lemma {:induction false} FindingsAreReported<R>(rules: seq<Rule<R>>, record: R, n: nat) returns (k: nat)
    requires DistinctIds(rules) && Turns(rules, record).Ok? && n < |Turns(rules, record).value.findings|
    ensures var p := Turns(rules, record).value;
            && k < |rules| && rules[k].id == p.findings[n].ruleId && rules[k].id in p.failed
            && rules[k].field(record) == Some(p.findings[n].fieldName)
  {
    var m := |rules| - 1;
    LastTurn(rules, record);
    LastIsNew(rules, record);
    var before, after := Turns(rules[..m], record).value, Turns(rules, record).value;
    TurnReports(rules[m], record, before, after);
    hide Turn, IsGated, Turns;
    if n < |before.findings| {
      k := FindingsAreReported(rules[..m], record, n);
    } else {
      k := m;
    }
  }

  lemma LastIsNew<R>(rules: seq<Rule<R>>, record: R)
    requires DistinctIds(rules) && rules != [] && Turns(rules, record).Ok?
    ensures Turns(rules[..|rules| - 1], record).Ok?
    ensures rules[|rules| - 1].id !in Turns(rules[..|rules| - 1], record).value.failed
  {
    var m := |rules| - 1;
    LastTurn(rules, record);
    NoSuchId(rules[..m], rules[m].id);
    if rules[m].id in Turns(rules[..m], record).value.failed {
      FailedAreRules(rules[..m], record, rules[m].id);
    }
  }

  lemma {:induction false} FindingsDiffer<R>(rules: seq<Rule<R>>, record: R, a: nat, b: nat)
    requires DistinctIds(rules) && Turns(rules, record).Ok? && a < b < |Turns(rules, record).value.findings|
    ensures var fs := Turns(rules, record).value.findings;
            fs[a].ruleId != fs[b].ruleId
  {
    var m := |rules| - 1;
    LastTurn(rules, record);
    LastIsNew(rules, record);
    var before, after := Turns(rules[..m], record).value, Turns(rules, record).value;
    TurnReports(rules[m], record, before, after);
    hide Turn, IsGated, Turns;
    if b < |before.findings| {
      FindingsDiffer(rules[..m], record, a, b);
    } else {
      var k := FindingsAreReported(rules[..m], record, a);
    }
  }

  /** For every registry with distinct ids: there is at most one finding for each field exactly when no two reported
      rules resolve to one field. */
  lemma OneFindingIff<R>(rules: seq<Rule<R>>, record: R)
    requires DistinctIds(rules) && Turns(rules, record).Ok?
    ensures var p := Turns(rules, record).value;
            OneFindingPerField(Verdict(p).findings) <==>
            forall i, j :: 0 <= i < j < |rules| && rules[i].id in p.failed && rules[j].id in p.failed ==>
              rules[i].field(record) != rules[j].field(record)
  {
    hide Turns;
    var p := Turns(rules, record).value;
    if i, j :| 0 <= i < j < |rules| && rules[i].id in p.failed && rules[j].id in p.failed
               && rules[i].field(record) == rules[j].field(record) {
      var a := ReportedHasFinding(rules, record, i);
      var b := ReportedHasFinding(rules, record, j);
      assert a != b;
      assert a < b || b < a;
    } else {
      forall a, b | 0 <= a < b < |p.findings|
        ensures p.findings[a].fieldName != p.findings[b].fieldName
      {
        var i := FindingsAreReported(rules, record, a);
        var j := FindingsAreReported(rules, record, b);
        FindingsDiffer(rules, record, a, b);
        assert i < j || j < i;
      }
    }
  }
}
