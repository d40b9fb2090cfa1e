/** What one human decision adopts, what it records about provenance, and when a resubmission is a replay. */
module Decisions {
  import opened Text
  import opened HashChain
  import opened AuditWriter
  import KeyOrder

  datatype RecommendationStatus = PENDING | AVAILABLE | UNAVAILABLE

  datatype CaseState = OPEN | RESOLVED | REJECTED

  datatype DecisionType = APPROVE | EDIT_APPROVE | REJECT

  datatype Proposal = Proposal(fieldName: string, value: string)

  datatype Submitted = Submitted(fieldName: string, value: string)

  datatype Body = Body(
    decisionType: DecisionType, reason: Option<string>,
    values: Option<seq<Submitted>>, recommendationId: Option<string>)

  datatype DecisionValue = DecisionValue(
    fieldName: string, value: string, origin: Origin,
    prior: Option<string>, priorOrigin: Option<Origin>, changedFromProposal: bool)

  datatype DecisionError =
    | AlreadyDecided
    | NotAvailable
    | Mismatch
    | ReasonMissing(tooShort: bool)
    | ValuesNotAllowed
    | ValuesIncomplete(missing: seq<string>, unexpected: seq<string>)
    | Malformed

  /** Everything the branch on the decision type computes before the first write. */
  datatype Plan = Plan(
    decisionType: DecisionType, seen: RecommendationStatus, values: seq<DecisionValue>,
    auditValues: seq<AppendValue>, resulting: CaseState, reason: Option<string>, action: Action)

  const REASON_MAX := 2000

  type EntryValues = map<string, string>

  function ProposalName(p: Proposal): string { p.fieldName }
  function SubmittedName(s: Submitted): string { s.fieldName }
  function DecisionName(v: DecisionValue): string { v.fieldName }

  /** `SELECT … ORDER BY field_name`. */
  function LoadProposals(ps: seq<Proposal>): seq<Proposal> {
    KeyOrder.Sort(ProposalName, ps)
  }

  function LoadDecisionValues(vs: seq<DecisionValue>): seq<DecisionValue> {
    KeyOrder.Sort(DecisionName, vs)
  }

  function ValidateReason(reason: Option<string>, required: bool): Result<Option<string>, DecisionError> {
    if reason.None? then if required then Err(ReasonMissing(false)) else Ok(None)
    else
      var trimmed := Trim(reason.value);
      if required then
        if Utf16Length(trimmed) < REASON_MIN then Err(ReasonMissing(true))
        else if Utf16Length(trimmed) > REASON_MAX then Err(Malformed)
        else Ok(Some(trimmed))
      else if trimmed == "" then Ok(None)
      else if Utf16Length(trimmed) > REASON_MAX then Err(Malformed)
      else Ok(Some(trimmed))
  }

  /** The proposal a JavaScript `Map` built from `ps` holds for a field: the last one wins. */
  function ProposalFor(ps: seq<Proposal>, f: string): Option<Proposal> {
    if ps == [] then None
    else if ps[|ps| - 1].fieldName == f then Some(ps[|ps| - 1])
    else ProposalFor(ps[..|ps| - 1], f)
  }

  predicate Submits(submitted: seq<Submitted>, f: string) {
    exists i :: 0 <= i < |submitted| && submitted[i].fieldName == f
  }

  function Missing(submitted: seq<Submitted>, ps: seq<Proposal>): seq<string> {
    if ps == [] then [] else
      (if Submits(submitted, ps[0].fieldName) then [] else [ps[0].fieldName]) + Missing(submitted, ps[1..])
  }

  function Unexpected(submitted: seq<Submitted>, ps: seq<Proposal>): seq<string> {
    if submitted == [] then [] else
      (if ProposalFor(ps, submitted[0].fieldName).Some? then [] else [submitted[0].fieldName])
      + Unexpected(submitted[1..], ps)
  }

  /** One value decided against its proposal: origin by comparing the two texts trimmed. */
  function DecideAgainst(s: Submitted, p: Proposal): DecisionValue {
    var changed := Trim(s.value) != Trim(p.value);
    DecisionValue(s.fieldName, s.value, if changed then HUMAN else AI, Some(p.value), Some(AI), changed)
  }

  function DecideAllAgainst(submitted: seq<Submitted>, ps: seq<Proposal>): (vs: seq<DecisionValue>)
    requires forall i :: 0 <= i < |submitted| ==> ProposalFor(ps, submitted[i].fieldName).Some?
    ensures |vs| == |submitted|
    ensures forall i :: 0 <= i < |vs| ==> vs[i] == DecideAgainst(submitted[i], ProposalFor(ps, submitted[i].fieldName).value)
  {
    if submitted == [] then [] else
      assert forall i :: 0 <= i < |submitted[1..]| ==> submitted[1..][i] == submitted[i + 1];
      [DecideAgainst(submitted[0], ProposalFor(ps, submitted[0].fieldName).value)] + DecideAllAgainst(submitted[1..], ps)
  }

  /** EDIT_APPROVE against an available proposal: the two field sets must be equal. */
  function EditAgainstProposal(submitted: seq<Submitted>, ps: seq<Proposal>): Result<seq<DecisionValue>, DecisionError> {
    var missing, unexpected := Missing(submitted, ps), Unexpected(submitted, ps);
    if missing != [] || unexpected != [] then Err(ValuesIncomplete(missing, unexpected))
    else
      UnexpectedEmpty(submitted, ps);
      Ok(DecideAllAgainst(submitted, ps))
  }

  /** EDIT_APPROVE without a proposal: every value is the specialist's own. */
  function DecideDirect(s: Submitted, entry: EntryValues): DecisionValue {
    var prior := if s.fieldName in entry then Some(entry[s.fieldName]) else None;
    DecisionValue(s.fieldName, s.value, HUMAN, prior, if prior.None? then None else Some(HUMAN), true)
  }

  function DecideAllDirect(submitted: seq<Submitted>, entry: EntryValues): (vs: seq<DecisionValue>)
    ensures |vs| == |submitted| && forall i :: 0 <= i < |vs| ==> vs[i] == DecideDirect(submitted[i], entry)
  {
    seq(|submitted|, i requires 0 <= i < |submitted| => DecideDirect(submitted[i], entry))
  }

  /** APPROVE adopts a proposal as it stands. */
  function Adopt(p: Proposal): DecisionValue {
    DecisionValue(p.fieldName, p.value, AI, Some(p.value), Some(AI), false)
  }

  function AdoptAll(ps: seq<Proposal>): (vs: seq<DecisionValue>)
    ensures |vs| == |ps| && forall i :: 0 <= i < |vs| ==> vs[i] == Adopt(ps[i])
  {
    seq(|ps|, i requires 0 <= i < |ps| => Adopt(ps[i]))
  }

  function AuditRowFor(v: DecisionValue): AppendValue {
    AppendValue(v.fieldName, v.prior, v.priorOrigin, Some(v.value), Some(v.origin))
  }

  function AuditRows(vs: seq<DecisionValue>): (rows: seq<AppendValue>)
    ensures |rows| == |vs| && forall i :: 0 <= i < |rows| ==> rows[i] == AuditRowFor(vs[i])
  {
    seq(|vs|, i requires 0 <= i < |vs| => AuditRowFor(vs[i]))
  }

  /** The audit row of a proposal that a REJECT declines. */
  function DeclinedRow(p: Proposal): AppendValue {
    AppendValue(p.fieldName, Some(p.value), Some(AI), None, None)
  }

  function DeclinedRows(ps: seq<Proposal>): (rows: seq<AppendValue>)
    ensures |rows| == |ps| && forall i :: 0 <= i < |rows| ==> rows[i] == DeclinedRow(ps[i])
  {
    seq(|ps|, i requires 0 <= i < |ps| => DeclinedRow(ps[i]))
  }

  predicate AllEntryFields(submitted: seq<Submitted>) {
    forall i :: 0 <= i < |submitted| ==> submitted[i].fieldName in ENTRY_FIELDS
  }

  function PlanApprove(body: Body, status: RecommendationStatus, ps: seq<Proposal>): Result<Plan, DecisionError> {
    if status != AVAILABLE then Err(NotAvailable)
    else if body.values.Some? then Err(ValuesNotAllowed)
    else match ValidateReason(body.reason, false) {
      case Err(e) => Err(e)
      case Ok(reason) =>
        var vs := AdoptAll(LoadProposals(ps));
        Ok(Plan(APPROVE, status, vs, AuditRows(vs), RESOLVED, reason, RecommendationApproved))
    }
  }

  function PlanEdit(body: Body, status: RecommendationStatus, ps: seq<Proposal>, entry: EntryValues)
    : Result<Plan, DecisionError>
  {
    match ValidateReason(body.reason, true)
    case Err(e) => Err(e)
    case Ok(reason) =>
      if body.values.None? || body.values.value == [] then Err(ValuesIncomplete(["(at least one field)"], []))
      else if !KeyOrder.DistinctKeys(SubmittedName, body.values.value) then Err(Malformed)
      else
        var submitted := body.values.value;
        var decided :=
          if status == AVAILABLE then EditAgainstProposal(submitted, LoadProposals(ps))
          else if !AllEntryFields(submitted) then Err(Malformed)
          else Ok(DecideAllDirect(submitted, entry));
        match decided {
          case Err(e) => Err(e)
          case Ok(vs) =>
            Ok(Plan(EDIT_APPROVE, status, vs, AuditRows(vs), RESOLVED, reason, RecommendationEditedAndApproved))
        }
  }

  function PlanReject(body: Body, status: RecommendationStatus, ps: seq<Proposal>): Result<Plan, DecisionError> {
    match ValidateReason(body.reason, true)
    case Err(e) => Err(e)
    case Ok(reason) =>
      if body.values.Some? then Err(ValuesNotAllowed)
      else
        var rows := if status == AVAILABLE then DeclinedRows(LoadProposals(ps)) else [];
        Ok(Plan(REJECT, status, [], rows, REJECTED, reason, RecommendationRejected))
  }

  /** The branch on the decision type. The proposals are read only when they are available. */
  function MakePlan(body: Body, status: RecommendationStatus, ps: seq<Proposal>, entry: EntryValues)
    : Result<Plan, DecisionError>
  {
    match body.decisionType
    case APPROVE => PlanApprove(body, status, ps)
    case EDIT_APPROVE => PlanEdit(body, status, ps, entry)
    case REJECT => PlanReject(body, status, ps)
  }

  // ---- provenance ---------------------------------------------------------

  predicate DistinctProposals(ps: seq<Proposal>) {
    KeyOrder.DistinctKeys(ProposalName, ps)
  }

  // ---- what the tables accept ---------------------------------------------

  const VALUE_MAX := 2000

  /** The length check on a stored value, in characters. */
  predicate Storable(value: string) {
    1 <= |value| <= VALUE_MAX
  }

  /** The checks on the rows of `recommendation_values`: one for each field, each of proper length. */
  predicate ProposalsStorable(ps: seq<Proposal>) {
    DistinctProposals(ps) && forall i :: 0 <= i < |ps| ==> Storable(ps[i].value)
  }

  /** The same for `decision_values`. */
  predicate ValuesStorable(vs: seq<DecisionValue>) {
    KeyOrder.DistinctKeys(DecisionName, vs) && forall i :: 0 <= i < |vs| ==> Storable(vs[i].value)
  }

  /** The checks on the reason of a row of `decisions`. They count characters, where the service counts UTF-16 units. */
  predicate ReasonStorable(t: DecisionType, reason: Option<string>) {
    && (t != APPROVE ==> reason.Some? && |Trim(reason.value)| >= REASON_MIN)
    && (reason.Some? ==> |reason.value| <= REASON_MAX)
  }

  /** The value answers the proposal: same field, proposal kept as prior value, and origin HUMAN
      exactly when the text differs from the proposed text beyond surrounding white space. */
  predicate Answers(v: DecisionValue, p: Proposal) {
    && v.fieldName == p.fieldName && v.prior == Some(p.value) && v.priorOrigin == Some(AI)
    && (v.origin == HUMAN <==> Trim(v.value) != Trim(p.value))
    && (v.changedFromProposal <==> v.origin == HUMAN)
  }

  /** Values and proposals answer each other one for one. */
  ghost predicate AnswersAll(vs: seq<DecisionValue>, ps: seq<Proposal>) {
    && KeyOrder.DistinctKeys(DecisionName, vs)
    && (forall v :: v in vs ==> exists p :: p in ps && Answers(v, p))
    && (forall p :: p in ps ==> exists v :: v in vs && Answers(v, p))
  }

  /** The value of a field as it was received. */
  predicate IsReceived(prior: Option<string>, origin: Option<Origin>, f: string, entry: EntryValues) {
    if f in entry then prior == Some(entry[f]) && origin == Some(HUMAN) else prior == None && origin == None
  }

  /** Every value is the specialist's own, and replaces what was received for its field, which is a human's too. */
  predicate AllAuthored(vs: seq<DecisionValue>, entry: EntryValues) {
    forall i :: 0 <= i < |vs| ==>
      vs[i].origin == HUMAN && vs[i].changedFromProposal && IsReceived(vs[i].prior, vs[i].priorOrigin, vs[i].fieldName, entry)
  }

  /** The provenance a recorded decision must have, given the recommendation of its case. */
  ghost predicate Traceable(t: DecisionType, vs: seq<DecisionValue>, status: RecommendationStatus, ps: seq<Proposal>,
                            entry: EntryValues) {
    match t
    case APPROVE => status == AVAILABLE && AnswersAll(vs, ps) && forall v :: v in vs ==> v.origin == AI && v.prior == Some(v.value)
    case EDIT_APPROVE => vs != [] && ((status == AVAILABLE && AnswersAll(vs, ps)) || AllAuthored(vs, entry))
    case REJECT => vs == []
  }

  /** The row of a proposal that was declined: the AI's text is given up, and nothing takes its place. */
  predicate Declines(r: AuditValue, p: Proposal) {
    && r.fieldName == p.fieldName
    && r.before == Some(p.value) && r.beforeOrigin == Some(AI)
    && r.after == None && r.afterOrigin == None && r.changed
  }

  /** Exactly one row for each proposal, each of them declined. */
  ghost predicate DeclinesAll(rows: seq<AuditValue>, ps: seq<Proposal>) {
    && |rows| == |ps| && KeyOrder.DistinctKeys(RowName, rows)
    && (forall r :: r in rows ==> exists p :: p in ps && Declines(r, p))
    && (forall p :: p in ps ==> exists r :: r in rows && Declines(r, p))
  }

  /** The row of a value that was decided: what it replaces with the source of that, then the value with its own source,
      marked as changed exactly when the two texts differ. */
  predicate Adopts(r: AuditValue, v: DecisionValue) {
    && r.fieldName == v.fieldName
    && r.before == v.prior && r.beforeOrigin == v.priorOrigin
    && r.after == Some(v.value) && r.afterOrigin == Some(v.origin)
    && (r.changed <==> v.prior != Some(v.value))
  }

  predicate AdoptsAll(rows: seq<AuditValue>, vs: seq<DecisionValue>) {
    |rows| == |vs| && forall i :: 0 <= i < |rows| ==> Adopts(rows[i], vs[i])
  }

  /** The audit rows that belong to a recorded decision. */
  ghost predicate RowsTell(t: DecisionType, vs: seq<DecisionValue>, status: RecommendationStatus, ps: seq<Proposal>,
                           rows: seq<AuditValue>) {
    if t == REJECT then rows == [] || (status == AVAILABLE && DeclinesAll(rows, ps))
    else AdoptsAll(rows, vs)
  }

  /** The values are the ones submitted, in their order. */
  predicate AsSubmitted(vs: seq<DecisionValue>, submitted: seq<Submitted>) {
    |vs| == |submitted| &&
    forall i :: 0 <= i < |vs| ==> vs[i].fieldName == submitted[i].fieldName && vs[i].value == submitted[i].value
  }

  function RecordedAll(vs: seq<AppendValue>): (rows: seq<AuditValue>)
    ensures |rows| == |vs| && forall i :: 0 <= i < |rows| ==> rows[i] == Recorded(vs[i])
  {
    seq(|vs|, i requires 0 <= i < |vs| => Recorded(vs[i]))
  }

  lemma {:induction false} UnexpectedEmpty(submitted: seq<Submitted>, ps: seq<Proposal>)
    ensures Unexpected(submitted, ps) == [] <==>
            forall i :: 0 <= i < |submitted| ==> ProposalFor(ps, submitted[i].fieldName).Some?
  {
    if submitted != [] {
      var t := submitted[1..];
      UnexpectedEmpty(t, ps);
      assert forall i :: 0 <= i < |t| ==> t[i] == submitted[i + 1];
      assert forall i :: 1 <= i < |submitted| ==> submitted[i] == t[i - 1];
    }
  }

  lemma {:induction false} MissingEmpty(submitted: seq<Submitted>, ps: seq<Proposal>)
    ensures Missing(submitted, ps) == [] <==> forall i :: 0 <= i < |ps| ==> Submits(submitted, ps[i].fieldName)
  {
    if ps != [] {
      var t := ps[1..];
      MissingEmpty(submitted, t);
      assert forall i :: 0 <= i < |t| ==> t[i] == ps[i + 1];
      assert forall i :: 1 <= i < |ps| ==> ps[i] == t[i - 1];
    }
  }

  lemma {:induction false} ProposalForIff(ps: seq<Proposal>, f: string)
    ensures ProposalFor(ps, f).Some? <==> exists i :: 0 <= i < |ps| && ps[i].fieldName == f
    ensures ProposalFor(ps, f).Some? ==> ProposalFor(ps, f).value in ps && ProposalFor(ps, f).value.fieldName == f
    ensures forall i :: 0 <= i < |ps| && ps[i].fieldName == f && DistinctProposals(ps) ==> ProposalFor(ps, f) == Some(ps[i])
  {
    if ps != [] {
      var r := ps[..|ps| - 1];
      ProposalForIff(r, f);
      assert forall i :: 0 <= i < |r| ==> r[i] == ps[i];
      if DistinctProposals(ps) {
        assert forall i, j :: 0 <= i < j < |r| ==> ProposalName(r[i]) == ProposalName(ps[i]) && ProposalName(r[j]) == ProposalName(ps[j]);
        assert DistinctProposals(r);
        forall i | 0 <= i < |ps| && ps[i].fieldName == f
          ensures ProposalFor(ps, f) == Some(ps[i])
        {
          if i < |ps| - 1 {
            assert ProposalName(ps[i]) != ProposalName(ps[|ps| - 1]);
            assert r[i].fieldName == f;
          }
        }
      }
    }
  }

  lemma LoadKeepsProposals(ps: seq<Proposal>)
    ensures forall p :: p in LoadProposals(ps) <==> p in ps
    ensures |LoadProposals(ps)| == |ps|
    ensures DistinctProposals(ps) ==> DistinctProposals(LoadProposals(ps))
  {
    KeyOrder.SortMultiset(ProposalName, ps);
    var qs := LoadProposals(ps);
    assert forall p :: p in qs <==> p in multiset(qs);
    assert forall p :: p in ps <==> p in multiset(ps);
    assert |qs| == |multiset(qs)| == |multiset(ps)| == |ps|;
    if DistinctProposals(ps) {
      KeyOrder.SortKeepsDistinct(ProposalName, ps);
    }
  }

  /** Proposals and recorded values are read in the order of their fields, none lost and none added. */
  lemma LoadsInOrder(ps: seq<Proposal>, vs: seq<DecisionValue>)
    ensures KeyOrder.Sorted(ProposalName, LoadProposals(ps)) && multiset(LoadProposals(ps)) == multiset(ps)
    ensures KeyOrder.Sorted(DecisionName, LoadDecisionValues(vs)) && multiset(LoadDecisionValues(vs)) == multiset(vs)
  {
    KeyOrder.SortSorted(ProposalName, ps);
    KeyOrder.SortMultiset(ProposalName, ps);
    KeyOrder.SortSorted(DecisionName, vs);
    KeyOrder.SortMultiset(DecisionName, vs);
  }

  /** EDIT_APPROVE against a proposal succeeds exactly when the two field sets are equal. */
  lemma EditAgainstIff(submitted: seq<Submitted>, ps: seq<Proposal>)
    ensures EditAgainstProposal(submitted, ps).Ok? <==>
            (forall i :: 0 <= i < |submitted| ==> exists j :: 0 <= j < |ps| && ps[j].fieldName == submitted[i].fieldName)
            && (forall j :: 0 <= j < |ps| ==> Submits(submitted, ps[j].fieldName))
  {
    UnexpectedEmpty(submitted, ps);
    MissingEmpty(submitted, ps);
    forall i | 0 <= i < |submitted|
      ensures ProposalFor(ps, submitted[i].fieldName).Some? <==> exists j :: 0 <= j < |ps| && ps[j].fieldName == submitted[i].fieldName
    {
      ProposalForIff(ps, submitted[i].fieldName);
    }
  }

  /** A successful EDIT_APPROVE answers every proposal exactly once. */
  lemma EditAnswers(submitted: seq<Submitted>, ps: seq<Proposal>)
    requires DistinctProposals(ps) && KeyOrder.DistinctKeys(SubmittedName, submitted)
    requires EditAgainstProposal(submitted, ps).Ok?
    ensures AnswersAll(EditAgainstProposal(submitted, ps).value, ps)
  {
    var vs := EditAgainstProposal(submitted, ps).value;
    UnexpectedEmpty(submitted, ps);
    MissingEmpty(submitted, ps);
    forall i, j | 0 <= i < j < |vs|
      ensures DecisionName(vs[i]) != DecisionName(vs[j])
    {
      assert SubmittedName(submitted[i]) != SubmittedName(submitted[j]);
    }
    forall v | v in vs
      ensures exists p :: p in ps && Answers(v, p)
    {
      var i :| 0 <= i < |vs| && vs[i] == v;
      ProposalForIff(ps, submitted[i].fieldName);
      assert Answers(v, ProposalFor(ps, submitted[i].fieldName).value);
    }
    forall p | p in ps
      ensures exists v :: v in vs && Answers(v, p)
    {
      var j :| 0 <= j < |ps| && ps[j] == p;
      assert Submits(submitted, ps[j].fieldName);
      var i :| 0 <= i < |submitted| && submitted[i].fieldName == p.fieldName;
      ProposalForIff(ps, p.fieldName);
      assert vs[i] in vs && Answers(vs[i], p);
    }
  }

  lemma AdoptAnswers(ps: seq<Proposal>)
    requires DistinctProposals(ps)
    ensures AnswersAll(AdoptAll(ps), ps)
    ensures forall v :: v in AdoptAll(ps) ==> v.origin == AI && v.prior == Some(v.value)
  {
    var vs := AdoptAll(ps);
    forall i, j | 0 <= i < j < |vs|
      ensures DecisionName(vs[i]) != DecisionName(vs[j])
    {
      assert ProposalName(ps[i]) != ProposalName(ps[j]);
    }
    forall p | p in ps
      ensures exists v :: v in vs && Answers(v, p)
    {
      var j :| 0 <= j < |ps| && ps[j] == p;
      assert vs[j] in vs && Answers(vs[j], p);
    }
    forall v | v in vs
      ensures exists p :: p in ps && Answers(v, p)
    {
      var j :| 0 <= j < |vs| && vs[j] == v;
      assert ps[j] in ps && Answers(v, ps[j]);
    }
  }

  lemma AnswersAfterLoad(vs: seq<DecisionValue>, ps: seq<Proposal>)
    requires AnswersAll(vs, LoadProposals(ps))
    ensures AnswersAll(vs, ps)
  {
    LoadKeepsProposals(ps);
    forall v | v in vs
      ensures exists p :: p in ps && Answers(v, p)
    {
      var p :| p in LoadProposals(ps) && Answers(v, p);
      assert p in ps;
    }
    forall p | p in ps
      ensures exists v :: v in vs && Answers(v, p)
    {
      assert p in LoadProposals(ps);
    }
  }

  /** What a decision of this body leaves, against this recommendation and these received values: APPROVE adopts every
      proposal as it stands; EDIT_APPROVE adopts what was submitted, against the proposals where there are any to see and
      against the received values otherwise; REJECT adopts nothing, and declines every proposal there is to see. */
  ghost predicate Fulfils(body: Body, status: RecommendationStatus, ps: seq<Proposal>, entry: EntryValues,
                          vs: seq<DecisionValue>, rows: seq<AuditValue>) {
    match body.decisionType
    case APPROVE =>
      && status == AVAILABLE && AnswersAll(vs, ps) && (forall v :: v in vs ==> v.origin == AI && v.prior == Some(v.value))
      && AdoptsAll(rows, vs)
    case EDIT_APPROVE =>
      && body.values.Some? && AsSubmitted(vs, body.values.value) && vs != []
      && (if status == AVAILABLE then AnswersAll(vs, ps) else AllAuthored(vs, entry))
      && AdoptsAll(rows, vs)
    case REJECT => vs == [] && if status == AVAILABLE then DeclinesAll(rows, ps) else rows == []
  }

  lemma DeclinedRowsTell(ps: seq<Proposal>)
    requires DistinctProposals(ps)
    ensures DeclinesAll(RecordedAll(DeclinedRows(LoadProposals(ps))), ps)
  {
    hide LoadProposals;
    LoadKeepsProposals(ps);
    var qs, rows := LoadProposals(ps), RecordedAll(DeclinedRows(LoadProposals(ps)));
    assert forall i :: 0 <= i < |rows| ==> Declines(rows[i], qs[i]);
    forall i, j | 0 <= i < j < |rows|
      ensures RowName(rows[i]) != RowName(rows[j])
    {
      assert ProposalName(qs[i]) != ProposalName(qs[j]);
    }
    forall r | r in rows
      ensures exists p :: p in ps && Declines(r, p)
    {
      var i :| 0 <= i < |rows| && rows[i] == r;
      assert qs[i] in qs;
    }
    forall p | p in ps
      ensures exists r :: r in rows && Declines(r, p)
    {
      var i :| 0 <= i < |qs| && qs[i] == p;
      assert rows[i] in rows;
    }
  }

  lemma AuditRowsTell(vs: seq<DecisionValue>)
    ensures AdoptsAll(RecordedAll(AuditRows(vs)), vs)
  {}

  /** Whatever the branch computes is traceable to the recommendation it was computed from, does what the body asks, and
      its audit rows tell exactly what was adopted or declined. */
  lemma PlanTraceable(body: Body, status: RecommendationStatus, ps: seq<Proposal>, entry: EntryValues)
    requires DistinctProposals(ps)
    requires MakePlan(body, status, ps, entry).Ok?
    ensures var plan := MakePlan(body, status, ps, entry).value;
            && Traceable(plan.decisionType, plan.values, status, ps, entry)
            && RowsTell(plan.decisionType, plan.values, status, ps, RecordedAll(plan.auditValues))
            && Fulfils(body, status, ps, entry, plan.values, RecordedAll(plan.auditValues))
            && plan.resulting == (if body.decisionType == REJECT then REJECTED else RESOLVED)
            && plan.decisionType == body.decisionType && plan.seen == status
  {
    hide LoadProposals, ValidateReason, AnswersAll, DistinctProposals, Missing, Unexpected, DeclinesAll, AdoptsAll, RecordedAll;
    var plan := MakePlan(body, status, ps, entry).value;
    LoadKeepsProposals(ps);
    DeclinedRowsTell(ps);
    AuditRowsTell(plan.values);
    if body.decisionType == APPROVE {
      AdoptAnswers(LoadProposals(ps));
      AnswersAfterLoad(plan.values, ps);
    } else if body.decisionType == EDIT_APPROVE && status == AVAILABLE {
      EditAnswers(body.values.value, LoadProposals(ps));
      AnswersAfterLoad(plan.values, ps);
    }
  }

  /** A value marked as changed from its proposal is also marked as changed in its audit row. */
  lemma ChangedIsAudited(r: AuditValue, v: DecisionValue, p: Proposal)
    requires Adopts(r, v) && Answers(v, p) && v.changedFromProposal
    ensures r.changed
  {
    assert v.value != p.value;
  }

  /** A later generation cannot spoil the provenance of a decision already made. */
  lemma TraceableSurvives(t: DecisionType, vs: seq<DecisionValue>, status: RecommendationStatus, ps: seq<Proposal>,
                          status': RecommendationStatus, ps': seq<Proposal>, entry: EntryValues, rows: seq<AuditValue>)
    requires status == AVAILABLE ==> status' == status && ps' == ps
    requires Traceable(t, vs, status, ps, entry) && RowsTell(t, vs, status, ps, rows)
    ensures Traceable(t, vs, status', ps', entry) && RowsTell(t, vs, status', ps', rows)
  {}
}
