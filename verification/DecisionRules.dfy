/** Which decisions an open case accepts, and which the server declares permitted. */
module DecisionRules {
  import opened Text
  import opened HashChain
  import opened AuditWriter
  import opened Decisions
  import Replay
  import KeyOrder

  // ---- when the branch yields a plan --------------------------------------

  predicate ReasonGiven(reason: Option<string>) {
    reason.Some? && 10 <= Utf16Length(Trim(reason.value)) <= 2000
  }

  predicate ReasonBounded(reason: Option<string>) {
    reason.Some? ==> Utf16Length(Trim(reason.value)) <= 2000
  }

  ghost predicate Proposes(ps: seq<Proposal>, f: string) {
    exists p :: p in ps && p.fieldName == f
  }

  ghost predicate SameFields(submitted: seq<Submitted>, ps: seq<Proposal>) {
    && (forall s :: s in submitted ==> Proposes(ps, s.fieldName))
    && (forall p :: p in ps ==> Submits(submitted, p.fieldName))
  }

  /** The rules of the decision types, as a caller can check them. */
  ghost predicate BodyAcceptable(body: Body, status: RecommendationStatus, ps: seq<Proposal>) {
    match body.decisionType
    case APPROVE => status == AVAILABLE && body.values.None? && ReasonBounded(body.reason)
    case REJECT => body.values.None? && ReasonGiven(body.reason)
    case EDIT_APPROVE =>
      && ReasonGiven(body.reason) && body.values.Some? && body.values.value != []
      && KeyOrder.DistinctKeys(SubmittedName, body.values.value)
      && if status == AVAILABLE then SameFields(body.values.value, ps) else AllEntryFields(body.values.value)
  }

  lemma ProposesIff(ps: seq<Proposal>, qs: seq<Proposal>, f: string)
    requires forall p :: p in qs <==> p in ps
    ensures Proposes(ps, f) <==> exists j :: 0 <= j < |qs| && qs[j].fieldName == f
  {
    if p :| p in ps && p.fieldName == f {
      assert p in qs;
    }
  }

  lemma SameFieldsIff(submitted: seq<Submitted>, ps: seq<Proposal>)
    ensures EditAgainstProposal(submitted, LoadProposals(ps)).Ok? <==> SameFields(submitted, ps)
  {
    hide EditAgainstProposal, LoadProposals, Submits, DistinctProposals, Proposes;
    var qs := LoadProposals(ps);
    EditAgainstIff(submitted, qs);
    LoadKeepsProposals(ps);
    forall i | 0 <= i < |submitted|
      ensures Proposes(ps, submitted[i].fieldName) <==> exists j :: 0 <= j < |qs| && qs[j].fieldName == submitted[i].fieldName
    {
      ProposesIff(ps, qs, submitted[i].fieldName);
    }
    assert (forall j :: 0 <= j < |qs| ==> Submits(submitted, qs[j].fieldName))
           <==> forall p :: p in qs ==> Submits(submitted, p.fieldName);
    assert (forall i :: 0 <= i < |submitted| ==> Proposes(ps, submitted[i].fieldName))
           <==> forall s :: s in submitted ==> Proposes(ps, s.fieldName);
  }

  /** The branch yields a plan exactly when the rules of its decision type are met. */
  lemma MakePlanIff(body: Body, status: RecommendationStatus, ps: seq<Proposal>, entry: EntryValues)
    ensures MakePlan(body, status, ps, entry).Ok? <==> BodyAcceptable(body, status, ps)
  {
    hide EditAgainstProposal, LoadProposals, Trim, SameFields;
    if body.values.Some? {
      SameFieldsIff(body.values.value, ps);
    }
  }

  predicate ReasonRefusal(e: DecisionError, reason: Option<string>) {
    e == if reason.None? then ReasonMissing(false)
         else if Utf16Length(Trim(reason.value)) < 10 then ReasonMissing(true)
         else Malformed
  }

  lemma {:induction false} MissingIff(submitted: seq<Submitted>, ps: seq<Proposal>, f: string)
    ensures f in Missing(submitted, ps) <==> Proposes(ps, f) && !Submits(submitted, f)
  {
    if ps != [] {
      MissingIff(submitted, ps[1..], f);
      assert ps == [ps[0]] + ps[1..];
    }
  }

  lemma {:induction false} UnexpectedIff(submitted: seq<Submitted>, ps: seq<Proposal>, f: string)
    ensures f in Unexpected(submitted, ps) <==> Submits(submitted, f) && !Proposes(ps, f)
  {
    if submitted != [] {
      var t := submitted[1..];
      UnexpectedIff(t, ps, f);
      ProposalForIff(ps, f);
      assert forall i :: 0 <= i < |t| ==> t[i] == submitted[i + 1];
      assert Submits(submitted, f) <==> submitted[0].fieldName == f || Submits(t, f) by {
        assert forall i :: 1 <= i < |submitted| ==> submitted[i] == t[i - 1];
      }
    }
  }

  /** Which refusal the caller gets: the first rule that is broken, in the order of the type; an edit whose fields are not
      those proposed is told which are missing and which are not expected. */
  lemma RefusalNamed(body: Body, status: RecommendationStatus, ps: seq<Proposal>, entry: EntryValues)
    requires MakePlan(body, status, ps, entry).Err?
    ensures var e := MakePlan(body, status, ps, entry).error;
            match body.decisionType
            case APPROVE =>
              e == if status != AVAILABLE then NotAvailable else if body.values.Some? then ValuesNotAllowed else Malformed
            case REJECT => if !ReasonGiven(body.reason) then ReasonRefusal(e, body.reason) else e == ValuesNotAllowed
            case EDIT_APPROVE =>
              if !ReasonGiven(body.reason) then ReasonRefusal(e, body.reason)
              else if body.values.None? || body.values.value == [] then e == ValuesIncomplete(["(at least one field)"], [])
              else if !KeyOrder.DistinctKeys(SubmittedName, body.values.value) || status != AVAILABLE then e == Malformed
              else
                && e.ValuesIncomplete?
                && (forall f :: f in e.missing <==> Proposes(ps, f) && !Submits(body.values.value, f))
                && (forall f :: f in e.unexpected <==> Submits(body.values.value, f) && !Proposes(ps, f))
  {
    hide Trim, LoadProposals, Missing, Unexpected, Submits, Proposes;
    if body.decisionType == EDIT_APPROVE && body.values.Some? && status == AVAILABLE {
      var submitted, qs := body.values.value, LoadProposals(ps);
      LoadKeepsProposals(ps);
      forall f
        ensures f in Missing(submitted, qs) <==> Proposes(ps, f) && !Submits(submitted, f)
        ensures f in Unexpected(submitted, qs) <==> Submits(submitted, f) && !Proposes(ps, f)
      {
        MissingIff(submitted, qs, f);
        UnexpectedIff(submitted, qs, f);
        SameProposed(ps, qs, f);
      }
    }
  }

  lemma SameProposed(ps: seq<Proposal>, qs: seq<Proposal>, f: string)
    requires forall p :: p in qs <==> p in ps
    ensures Proposes(qs, f) <==> Proposes(ps, f)
  {
    if p :| p in ps && p.fieldName == f {
      assert p in qs;
    }
    if q :| q in qs && q.fieldName == f {
      assert q in ps;
    }
  }

  // ---- when the writer accepts the plan's audit entry ---------------------

  predicate SubmitsNoSecret(env: Env, body: Body) {
    body.values.Some? ==> forall s :: s in body.values.value ==> !env.secretValue(s.value)
  }

  /** What the invariant knows of a case's proposals and entry values. */
  ghost predicate KnownClean(env: Env, ps: seq<Proposal>, entry: EntryValues) {
    && DistinctProposals(ps)
    && (forall p :: p in ps ==> p.fieldName in ENTRY_FIELDS && !env.secretValue(p.value) && Storable(p.value))
    && (forall f :: f in ENTRY_FIELDS && f in entry ==> !env.secretValue(entry[f]))
  }

  lemma EditRowAcceptable(env: Env, s: Submitted, ps: seq<Proposal>, v: DecisionValue)
    requires KnownClean(env, ps, map[])
    requires exists p :: p in ps && v == DecideAgainst(s, p) && s.fieldName == p.fieldName
    ensures RowAcceptable(env, AuditRowFor(v)) <==> !env.secretValue(s.value)
  {
    FieldNamesAreSafe();
    hide Trim;
  }

  lemma EditRows(env: Env, submitted: seq<Submitted>, ps: seq<Proposal>)
    requires KnownClean(env, ps, map[]) && EditAgainstProposal(submitted, LoadProposals(ps)).Ok?
    ensures var vs := EditAgainstProposal(submitted, LoadProposals(ps)).value;
            |vs| == |submitted| &&
            forall i :: 0 <= i < |vs| ==> (RowAcceptable(env, AuditRowFor(vs[i])) <==> !env.secretValue(submitted[i].value))
  {
    hide LoadProposals, KnownClean, RowAcceptable, Missing, Unexpected, DecideAgainst;
    var qs := LoadProposals(ps);
    LoadKeepsProposals(ps);
    UnexpectedEmpty(submitted, qs);
    var vs := EditAgainstProposal(submitted, qs).value;
    forall i | 0 <= i < |vs|
      ensures RowAcceptable(env, AuditRowFor(vs[i])) <==> !env.secretValue(submitted[i].value)
    {
      ProposalForIff(qs, submitted[i].fieldName);
      var p := ProposalFor(qs, submitted[i].fieldName).value;
      assert p in ps;
      EditRowAcceptable(env, submitted[i], ps, vs[i]);
    }
  }

  lemma DirectRows(env: Env, submitted: seq<Submitted>, entry: EntryValues, i: nat)
    requires KnownClean(env, [], entry) && AllEntryFields(submitted) && i < |submitted|
    ensures RowAcceptable(env, AuditRowFor(DecideDirect(submitted[i], entry))) <==> !env.secretValue(submitted[i].value)
  {
    FieldNamesAreSafe();
  }

  /** The only thing in a plan that the writer can refuse is a submitted value that looks like a secret. */
  lemma PlanRowsIff(env: Env, body: Body, status: RecommendationStatus, ps: seq<Proposal>, entry: EntryValues)
    requires KnownClean(env, ps, entry) && MakePlan(body, status, ps, entry).Ok?
    ensures var rows := MakePlan(body, status, ps, entry).value.auditValues;
            (forall i :: 0 <= i < |rows| ==> RowAcceptable(env, rows[i])) <==> SubmitsNoSecret(env, body)
  {
    hide EditAgainstProposal, LoadProposals, Trim, DecideDirect, ValidateReason, DistinctProposals, RowAcceptable, AuditRowFor,
      DeclinedRow, Adopt;
    var rows := MakePlan(body, status, ps, entry).value.auditValues;
    LoadKeepsProposals(ps);
    if body.decisionType == EDIT_APPROVE {
      EditPlanRowsIff(env, body, status, ps, entry);
    } else {
      var qs := LoadProposals(ps);
      forall i | 0 <= i < |qs|
        ensures RowAcceptable(env, AuditRowFor(Adopt(qs[i]))) && RowAcceptable(env, DeclinedRow(qs[i]))
      {
        KnownRow(env, ps, entry, qs[i]);
      }
    }
  }

  lemma KnownRow(env: Env, ps: seq<Proposal>, entry: EntryValues, p: Proposal)
    requires KnownClean(env, ps, entry) && p in ps
    ensures RowAcceptable(env, AuditRowFor(Adopt(p))) && RowAcceptable(env, DeclinedRow(p))
  {
    FieldNamesAreSafe();
  }

  lemma EditPlanRowsIff(env: Env, body: Body, status: RecommendationStatus, ps: seq<Proposal>, entry: EntryValues)
    requires KnownClean(env, ps, entry) && MakePlan(body, status, ps, entry).Ok? && body.decisionType == EDIT_APPROVE
    ensures var rows := MakePlan(body, status, ps, entry).value.auditValues;
            (forall i :: 0 <= i < |rows| ==> RowAcceptable(env, rows[i])) <==> SubmitsNoSecret(env, body)
  {
    hide EditAgainstProposal, LoadProposals, Trim, DecideDirect, ValidateReason, RowAcceptable, AuditRowFor;
    var rows, submitted := MakePlan(body, status, ps, entry).value.auditValues, body.values.value;
    if status == AVAILABLE {
      assert KnownClean(env, ps, map[]);
      EditRows(env, submitted, ps);
    } else {
      assert KnownClean(env, [], entry);
      forall i | 0 <= i < |submitted|
        ensures RowAcceptable(env, AuditRowFor(DecideDirect(submitted[i], entry))) <==> !env.secretValue(submitted[i].value)
      {
        DirectRows(env, submitted, entry, i);
      }
    }
    hide KnownClean;
    assert |rows| == |submitted| &&
           forall i :: 0 <= i < |rows| ==> (RowAcceptable(env, rows[i]) <==> !env.secretValue(submitted[i].value));
    if forall i :: 0 <= i < |rows| ==> RowAcceptable(env, rows[i]) {
      forall s | s in submitted
        ensures !env.secretValue(s.value)
      {
        var i :| 0 <= i < |submitted| && submitted[i] == s;
        assert RowAcceptable(env, rows[i]);
      }
    }
  }

  /** What the check lets through are the rows as given. */
  lemma AcceptedRows(env: Env, entry: AppendInput)
    requires Validate(env, entry).Ok?
    ensures Validate(env, entry).value == RecordedAll(entry.values)
  {
    hide Validate;
    ValidateIff(env, entry);
  }

  lemma RowsOnePerField(vs: seq<AppendValue>)
    requires forall i, j :: 0 <= i < j < |vs| ==> vs[i].fieldName != vs[j].fieldName
    ensures OneRowPerField(RecordedAll(vs))
  {
    var rows := RecordedAll(vs);
    forall i, j | 0 <= i < j < |rows|
      ensures RowName(rows[i]) != RowName(rows[j])
    {
      assert vs[i].fieldName != vs[j].fieldName;
    }
  }

  /** A plan never has two audit rows for one field. */
  lemma PlanOnePerField(body: Body, status: RecommendationStatus, ps: seq<Proposal>, entry: EntryValues)
    requires DistinctProposals(ps) && MakePlan(body, status, ps, entry).Ok?
    ensures OneRowPerField(RecordedAll(MakePlan(body, status, ps, entry).value.auditValues))
  {
    hide EditAgainstProposal, LoadProposals, ValidateReason, OneRowPerField, DecideAllDirect;
    var plan := MakePlan(body, status, ps, entry).value;
    if body.decisionType == REJECT {
      var qs := LoadProposals(ps);
      LoadKeepsProposals(ps);
      forall i, j | 0 <= i < j < |plan.auditValues|
        ensures plan.auditValues[i].fieldName != plan.auditValues[j].fieldName
      {
        assert ProposalName(qs[i]) != ProposalName(qs[j]);
      }
    } else {
      Replay.PlanStores(body, status, ps, entry);
      forall i, j | 0 <= i < j < |plan.auditValues|
        ensures plan.auditValues[i].fieldName != plan.auditValues[j].fieldName
      {
        assert DecisionName(plan.values[i]) != DecisionName(plan.values[j]);
      }
    }
    RowsOnePerField(plan.auditValues);
  }

  // ---- when the tables accept the plan's rows -----------------------------

  /** Lengths in characters: a required reason of at least ten, and every submitted value between one and two thousand. */
  predicate BodyStorable(body: Body) {
    && (body.decisionType != APPROVE ==> body.reason.Some? && |Trim(body.reason.value)| >= 10)
    && (body.values.Some? ==> forall s :: s in body.values.value ==> 1 <= |s.value| <= 2000)
  }

  /** A plan's rows pass the checks of the tables exactly when the lengths of the body do. */
  lemma PlanStorableIff(body: Body, status: RecommendationStatus, ps: seq<Proposal>, entry: EntryValues)
    requires MakePlan(body, status, ps, entry).Ok? && ProposalsStorable(ps)
    ensures var plan := MakePlan(body, status, ps, entry).value;
            ReasonStorable(plan.decisionType, plan.reason) && ValuesStorable(plan.values) <==> BodyStorable(body)
  {
    hide MakePlan, ReasonStorable, DistinctProposals;
    var plan := MakePlan(body, status, ps, entry).value;
    Replay.PlanStores(body, status, ps, entry);
    Replay.PlanType(body, status, ps, entry);
    PlanReasonStorable(body, status, ps, entry);
    if body.values.Some? {
      var submitted := body.values.value;
      assert forall i :: 0 <= i < |submitted| ==> submitted[i].value == plan.values[i].value by {
        assert Replay.Pairs(plan.values) == submitted;
      }
      assert (forall s :: s in submitted ==> Storable(s.value)) <==> forall i :: 0 <= i < |submitted| ==> Storable(submitted[i].value);
    } else {
      AdoptedStorable(body, status, ps, entry);
    }
  }

  lemma PlanReasonStorable(body: Body, status: RecommendationStatus, ps: seq<Proposal>, entry: EntryValues)
    requires MakePlan(body, status, ps, entry).Ok?
    ensures var plan := MakePlan(body, status, ps, entry).value;
            ReasonStorable(plan.decisionType, plan.reason) <==>
            (body.decisionType != APPROVE ==> body.reason.Some? && |Trim(body.reason.value)| >= REASON_MIN)
  {
    hide EditAgainstProposal, LoadProposals, Trim, Utf16Length, AllEntryFields;
    if body.reason.Some? {
      CharactersBound(Trim(body.reason.value));
      TrimIdempotent(body.reason.value);
    }
  }

  lemma AdoptedStorable(body: Body, status: RecommendationStatus, ps: seq<Proposal>, entry: EntryValues)
    requires MakePlan(body, status, ps, entry).Ok? && ProposalsStorable(ps) && body.values.None?
    ensures forall i :: 0 <= i < |MakePlan(body, status, ps, entry).value.values| ==>
              Storable(MakePlan(body, status, ps, entry).value.values[i].value)
  {
    hide LoadProposals, ValidateReason, DistinctProposals;
    var qs := LoadProposals(ps);
    LoadKeepsProposals(ps);
    forall i | 0 <= i < |qs|
      ensures Storable(qs[i].value)
    {
      assert qs[i] in ps;
    }
  }

  // ---- the permitted decisions --------------------------------------------

  /** The server's matrix of permitted decisions. */
  function PermittedDecisions(state: CaseState, status: RecommendationStatus): seq<DecisionType> {
    if state != OPEN then []
    else if status == AVAILABLE then [APPROVE, EDIT_APPROVE, REJECT]
    else [EDIT_APPROVE, REJECT]
  }

  const SOME_REASON := "0123456789"

  lemma {:induction false} PlainLength(s: string)
    requires forall i :: 0 <= i < |s| ==> s[i] as int < 0x1_0000
    ensures Utf16Length(s) == |s|
  {
    if s != [] { PlainLength(s[1..]); }
  }

  lemma SomeReasonGiven()
    ensures ReasonGiven(Some(SOME_REASON)) && |Trim(SOME_REASON)| >= REASON_MIN
  {
    hide Utf16Length, Trim;
    PlainLength(SOME_REASON);
    TrimmedIsFixed(SOME_REASON);
  }

  const FIVE_FACES := "\U{1F600}\U{1F600}\U{1F600}\U{1F600}\U{1F600}"

  /** Five characters of two UTF-16 units each make a reason that the rules accept as ten and the table refuses as five:
      such a REJECT gets as far as its plan and fails at its row. */
  lemma FiveFacesFail(status: RecommendationStatus, ps: seq<Proposal>, entry: EntryValues)
    ensures Utf16Length(FIVE_FACES) == REASON_MIN && |FIVE_FACES| == 5
    ensures var body := Body(REJECT, Some(FIVE_FACES), None, None);
            && BodyAcceptable(body, status, ps) && !BodyStorable(body)
            && var plan := MakePlan(body, status, ps, entry);
               plan.Ok? && !ReasonStorable(plan.value.decisionType, plan.value.reason)
  {
    hide MakePlan, ReasonStorable;
    var body := Body(REJECT, Some(FIVE_FACES), None, None);
    TrimmedIsFixed(FIVE_FACES);
    PairsLength(FIVE_FACES);
    hide Trim, Utf16Length;
    MakePlanIff(body, status, ps, entry);
    PlanReasonStorable(body, status, ps, entry);
  }

  lemma {:induction false} PairsLength(s: string)
    requires forall i :: 0 <= i < |s| ==> s[i] as int >= 0x1_0000
    ensures Utf16Length(s) == 2 * |s|
  {
    if s != [] {
      PairsLength(s[1..]);
    }
  }

  /** EDIT_APPROVE that repeats the proposals. */
  function Echo(ps: seq<Proposal>): (r: seq<Submitted>)
    ensures |r| == |ps| && forall i :: 0 <= i < |r| ==> r[i] == Submitted(ps[i].fieldName, ps[i].value)
  {
    seq(|ps|, i requires 0 <= i < |ps| => Submitted(ps[i].fieldName, ps[i].value))
  }

  lemma EchoAcceptable(ps: seq<Proposal>, reason: string)
    requires DistinctProposals(ps) && ps != [] && ReasonGiven(Some(reason))
    ensures BodyAcceptable(Body(EDIT_APPROVE, Some(reason), Some(Echo(ps)), None), AVAILABLE, ps)
  {
    var r := Echo(ps);
    assert r[0] in r;
    forall i, j | 0 <= i < j < |r|
      ensures SubmittedName(r[i]) != SubmittedName(r[j])
    {
      assert ProposalName(ps[i]) != ProposalName(ps[j]);
    }
    forall s | s in r
      ensures Proposes(ps, s.fieldName)
    {
      var i :| 0 <= i < |r| && r[i] == s;
      assert ps[i] in ps;
    }
    forall p | p in ps
      ensures Submits(r, p.fieldName)
    {
      var i :| 0 <= i < |ps| && ps[i] == p;
      assert r[i].fieldName == p.fieldName;
    }
  }

  /** A decision of this type that the case would take, free of secrets and of storable lengths. */
  ghost predicate Possible(env: Env, t: DecisionType, status: RecommendationStatus, ps: seq<Proposal>, body: Body) {
    && body.decisionType == t && body.recommendationId == None
    && BodyAcceptable(body, status, ps) && SubmitsNoSecret(env, body) && BodyStorable(body)
  }

  function Sample(t: DecisionType, status: RecommendationStatus, ps: seq<Proposal>, text: string): Body {
    match t
    case APPROVE => Body(APPROVE, None, None, None)
    case REJECT => Body(REJECT, Some(SOME_REASON), None, None)
    case EDIT_APPROVE =>
      Body(EDIT_APPROVE, Some(SOME_REASON),
           Some(if status == AVAILABLE then Echo(ps) else [Submitted("goods_description", text)]), None)
  }

  /** The declared matrix is what the server accepts, with one exception: with an available recommendation that
      proposes nothing, EDIT_APPROVE is declared permitted and no EDIT_APPROVE at all can succeed. A closed case permits
      nothing. */
  lemma PermittedIff(env: Env, state: CaseState, t: DecisionType, status: RecommendationStatus, ps: seq<Proposal>, text: string)
    requires DistinctProposals(ps) && !env.secretValue(text) && Storable(text)
    requires forall p :: p in ps ==> !env.secretValue(p.value) && Storable(p.value)
    ensures (state == OPEN && exists body :: Possible(env, t, status, ps, body)) <==>
            t in PermittedDecisions(state, status) && !(t == EDIT_APPROVE && status == AVAILABLE && ps == [])
  {
    hide Trim, Utf16Length, RowAcceptable;
    if t in PermittedDecisions(state, status) && !(t == EDIT_APPROVE && status == AVAILABLE && ps == []) {
      hide ReasonGiven;
      SomeReasonGiven();
      var body := Sample(t, status, ps, text);
      if t == EDIT_APPROVE && status == AVAILABLE {
        EchoAcceptable(ps, SOME_REASON);
        forall s | s in Echo(ps)
          ensures !env.secretValue(s.value) && Storable(s.value)
        {
          var i :| 0 <= i < |ps| && Echo(ps)[i] == s;
          assert ps[i] in ps;
        }
      }
      assert Possible(env, t, status, ps, body);
    }
    if state == OPEN && exists body :: Possible(env, t, status, ps, body) {
      var body :| Possible(env, t, status, ps, body);
      assert t == EDIT_APPROVE ==> body.values.value[0] in body.values.value;
    }
  }
}
