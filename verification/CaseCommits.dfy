/** A commit leaves committed rows that satisfy the invariant, and disturbs no other transaction. */
module CaseCommits {
  import opened Text
  import opened HashChain
  import opened AuditWriter
  import opened Decisions
  import opened RuleEngine
  import opened Lifecycle
  import opened CaseInvariant

  // ---- what a commit publishes --------------------------------------------

  lemma ApplyOne(db: Tables, a: Write)
    ensures ApplyAll(db, [a]) == Apply(db, a)
  {
    assert [a][..0] == [];
  }

  lemma ApplyTwo(db: Tables, a: Write, b: Write)
    ensures ApplyAll(db, [a, b]) == Apply(Apply(db, a), b)
  {
    ApplyOne(db, a);
    assert [a, b][..1] == [a];
  }

  lemma ApplyThree(db: Tables, a: Write, b: Write, c: Write)
    ensures ApplyAll(db, [a, b, c]) == Apply(Apply(Apply(db, a), b), c)
  {
    ApplyTwo(db, a, b);
    assert [a, b, c][..2] == [a, b];
  }

  lemma ApplyFour(db: Tables, a: Write, b: Write, c: Write, d: Write)
    ensures ApplyAll(db, [a, b, c, d]) == Apply(Apply(Apply(Apply(db, a), b), c), d)
  {
    ApplyThree(db, a, b, c);
    assert [a, b, c, d][..3] == [a, b, c];
  }

  /** What the committed rows of a new case are. */
  function NewCase(r: ReceiptRequest, refs: Option<Opened>, trail: seq<AuditEntry>): Tables {
    NO_CASE.(entry := Some(EntryRow(StoredValues(r.submitted), OutcomeOf(r), r.principal)),
             validation := Some(ValidationRow(r.evaluation.outcome, |r.evaluation.findings|)),
             exception := if refs.Some? then Some(ExceptionRow(refs.value.exceptionId, OPEN, None)) else None,
             recommendation := if refs.Some? then Some(RecommendationRow(refs.value.recommendationId, PENDING, None)) else None,
             trail := trail)
  }

  lemma ReceiptPublishes(tx: Tx, r: ReceiptRequest, refs: Option<Opened>)
    requires tx.program == Receipt(r, ReceiptCommit(refs)) && tx.rows == PastRows(tx.program)
    ensures Publish(NO_CASE, tx) == NewCase(r, refs, tx.audit)
  {
    hide StoredValues, OutcomeOf;
    match refs
    case None => ApplyTwo(NO_CASE, StoredEntry(r), StoredValidation(r));
    case Some(o) =>
      ApplyFour(NO_CASE, StoredEntry(r), StoredValidation(r), InsertExceptionRow(o.exceptionId),
                InsertPendingRecommendation(o.recommendationId));
  }

  lemma AvailablePublishes(db: Tables, tx: Tx, ex: string, rec: string, entry: EntryValues, ps: seq<Proposal>)
    requires tx.program == Job(ex, CommitAvailable(rec, entry, ps)) && tx.rows == PastRows(tx.program)
    requires db.recommendation.Some? && db.proposals == []
    ensures Publish(db, tx) ==
              db.(recommendation := Some(db.recommendation.value.(status := AVAILABLE, failure := None)),
                  proposals := ps, trail := db.trail + tx.audit)
  {
    var w := UpdateRecommendation(AVAILABLE, None);
    if ps == [] {
      assert [w] + ProposalWrites(ps) == [w];
      ApplyOne(db, w);
    } else {
      assert [w] + ProposalWrites(ps) == [w, InsertProposals(ps)];
      ApplyTwo(db, w, InsertProposals(ps));
      assert db.proposals + ps == ps;
    }
  }

  lemma UnavailablePublishes(db: Tables, tx: Tx, ex: string, rec: string, reason: FailureReason)
    requires tx.program == Job(ex, CommitUnavailable(rec, reason)) && tx.rows == PastRows(tx.program)
    requires db.recommendation.Some?
    ensures Publish(db, tx) ==
              db.(recommendation := Some(db.recommendation.value.(status := UNAVAILABLE, failure := Some(reason))),
                  trail := db.trail + tx.audit)
  {
    ApplyOne(db, UpdateRecommendation(UNAVAILABLE, Some(reason)));
  }

  lemma DecisionPublishes(db: Tables, tx: Tx, ex: string, d: DecisionRequest, rec: string, plan: Plan, id: string)
    requires tx.program == Decide(ex, d, DecisionCommit(rec, plan, id)) && tx.rows == PastRows(tx.program)
    requires db.exception.Some? && db.decisions == [] && db.decisionValues == map[]
    ensures Publish(db, tx) ==
              db.(exception := Some(db.exception.value.(state := plan.resulting, decisionId := Some(id))),
                  decisions := [DecisionRowFor(d, rec, plan, id)], decisionValues := map[id := plan.values],
                  trail := db.trail + tx.audit)
  {
    hide DecisionRowFor;
    var row := DecisionRowFor(d, rec, plan, id);
    ApplyThree(db, InsertDecisionRow(row), InsertDecisionValues(id, plan.values), UpdateException(plan.resulting, id));
    assert db.decisions + [row] == [row];
    assert [] + plan.values == plan.values;
  }

  // ---- a receipt ----------------------------------------------------------

  lemma {:induction false} ProvidedMember(submitted: EntryValues, fields: seq<string>, f: string)
    ensures f in ProvidedAmong(submitted, fields) <==> f in fields && f in submitted
  {
    if fields != [] {
      ProvidedMember(submitted, fields[1..], f);
      assert fields == [fields[0]] + fields[1..];
    }
  }

  /** What passed the writer's check on receipt is free of secrets. */
  lemma ReceivedIsClean(env: Env, c: string, r: ReceiptRequest)
    requires Validate(env, ReceivedInput(c, r)).Ok?
    ensures EntryClean(env, StoredValues(r.submitted))
  {
    hide Validate, ProvidedAmong;
    var input := ReceivedInput(c, r);
    ValidateIff(env, input);
    forall f | f in ENTRY_FIELDS && f in StoredValues(r.submitted)
      ensures !env.secretValue(StoredValues(r.submitted)[f])
    {
      ProvidedMember(r.submitted, ENTRY_FIELDS, f);
      var provided := Provided(r.submitted);
      var i :| 0 <= i < |provided| && provided[i] == f;
      assert RowAcceptable(env, input.values[i]);
    }
  }

  lemma ToldAbout(env: Env, e: AuditEntry, input: AppendInput)
    requires Told(env, e, input)
    ensures var p := e.payload;
            && p.caseId == input.caseId && p.action == input.action
            && p.actorType == ActorTypeOf(input.actor) && p.actorId == ActorIdOf(input.actor)
            && p.exceptionId == input.exceptionId && p.recommendationId == input.recommendationId
            && p.decisionId == input.decisionId && p.beforeState == input.beforeState && p.afterState == input.afterState
            && p.reason == input.reason && p.values == RecordedAll(input.values) && RowsSound(p.values)
            && Reports(p, input)
    ensures ActorOk(input.actor)
  {
    hide NormaliseValues, ActorOk, Utf16Length, Trim, OneRowPerField;
    PayloadReports(env, input, e.payload.sequence, e.payload.occurredAt);
    ValidateIff(env, input);
  }

  /** The three entries of a receipt are the ones the rows call for. */
  lemma ReceiptHead(env: Env, c: string, db: Tables, audit: seq<AuditEntry>, r: ReceiptRequest, refs: Option<Opened>)
    requires AllTold(env, audit, PastInputs(c, Receipt(r, ReceiptCommit(refs))))
    requires db.trail == audit && db.entry == Some(EntryRow(StoredValues(r.submitted), OutcomeOf(r), r.principal))
    requires db.exception == if refs.Some? then Some(ExceptionRow(refs.value.exceptionId, OPEN, None)) else None
    ensures HeadOk(c, db) && |db.trail| == if refs.Some? then 3 else 2
    ensures forall i :: 0 <= i < |audit| ==> audit[i].payload.caseId == c && RowsSound(audit[i].payload.values)
    ensures EntryClean(env, StoredValues(r.submitted))
  {
    hide Told, EntryClean, StoredValues, SubmittedRows, FindingRows, OutcomeOf, RowsSound, StoresAll;
    assert Told(env, audit[0], ReceivedInput(c, r)) && Told(env, audit[1], ValidatedInput(c, r));
    ToldAbout(env, audit[0], ReceivedInput(c, r));
    ToldAbout(env, audit[1], ValidatedInput(c, r));
    if refs.Some? {
      assert Told(env, audit[2], OpenedInput(c, r, refs.value.exceptionId));
      ToldAbout(env, audit[2], OpenedInput(c, r, refs.value.exceptionId));
    }
    ReceivedAccepted(env, c, r, audit[0]);
  }

  lemma StoredValuesAre(submitted: EntryValues)
    ensures StoredAs(StoredValues(submitted), submitted)
  {}

  lemma ReceivedRowsTell(rows: seq<AuditValue>, submitted: EntryValues)
    requires StoresAll(rows, SubmittedRows(submitted, Provided(submitted))) && OneRowPerField(rows)
    ensures ReceivedAll(rows, submitted)
  {
    hide ProvidedAmong, OneRowPerField;
    var provided := Provided(submitted);
    forall r | r in rows
      ensures r.fieldName in ENTRY_FIELDS && r.fieldName in submitted && HumanRow(r, submitted[r.fieldName])
    {
      var i :| 0 <= i < |rows| && rows[i] == r;
      ProvidedMember(submitted, ENTRY_FIELDS, provided[i]);
    }
    forall f | f in ENTRY_FIELDS && f in submitted
      ensures exists r :: r in rows && r.fieldName == f
    {
      ProvidedMember(submitted, ENTRY_FIELDS, f);
      var i :| 0 <= i < |provided| && provided[i] == f;
      assert rows[i] in rows;
    }
  }

  lemma FindingRowsTell(rows: seq<AuditValue>, findings: seq<Finding>)
    requires StoresAll(rows, FindingRows(findings))
    ensures FindingsTold(rows, findings)
  {}

  /** The entries of a receipt at its commit. */
  lemma ReceiptTells(env: Env, c: string, audit: seq<AuditEntry>, r: ReceiptRequest, refs: Option<Opened>, now: string)
    requires AllTold(env, audit, PastInputs(c, Receipt(r, ReceiptCommit(refs))))
    requires forall i :: 0 <= i < |audit| ==> audit[i].payload.occurredAt == now
    ensures ReceiptTrail(audit, c, r, refs, now) && r.principal != ""
  {
    hide Told, SubmittedRows, FindingRows, Provided, ReceivedAll, FindingsTold, RecordedAll, RowsSound, StoresAll, OneRowPerField;
    assert Told(env, audit[0], ReceivedInput(c, r)) && Told(env, audit[1], ValidatedInput(c, r));
    ToldAbout(env, audit[0], ReceivedInput(c, r));
    ToldAbout(env, audit[1], ValidatedInput(c, r));
    OneRowOf(audit[0].payload.values);
    ReceivedRowsTell(audit[0].payload.values, r.submitted);
    FindingRowsTell(audit[1].payload.values, r.evaluation.findings);
    if refs.Some? {
      assert Told(env, audit[2], OpenedInput(c, r, refs.value.exceptionId));
      ToldAbout(env, audit[2], OpenedInput(c, r, refs.value.exceptionId));
      FindingRowsTell(audit[2].payload.values, r.evaluation.findings);
    }
  }

  lemma OneRowOf(values: seq<AuditValue>)
    requires RowsSound(values)
    ensures OneRowPerField(values)
  {}

  lemma NewCaseIs(r: ReceiptRequest, refs: Option<Opened>, trail: seq<AuditEntry>)
    requires refs.Some? <==> r.evaluation.outcome == FAIL
    ensures IsNewCase(NewCase(r, refs, trail), r, refs) && NewCase(r, refs, trail).trail == trail
  {
    hide StoredAs, StoredValues;
    StoredValuesAre(r.submitted);
  }

  lemma ReceivedAccepted(env: Env, c: string, r: ReceiptRequest, e: AuditEntry)
    requires Told(env, e, ReceivedInput(c, r))
    ensures EntryClean(env, StoredValues(r.submitted))
  {
    hide Validate, EntryClean, ReceivedInput, StoredValues;
    ReceivedIsClean(env, c, r);
  }

  lemma ReceiptCommitOk(env: Env, c: string, db: Tables, tx: Tx)
    requires TablesOk(env, c, db) && TxOk(env, c, db, tx)
    requires tx.program.Receipt? && tx.program.receiptPc.ReceiptCommit?
    ensures TablesOk(env, c, Publish(db, tx))
  {
    hide WellChained, AllTold, EntryClean, StoredValues, Publish, HeadOk, PastInputs, PastRows, RowsSound;
    var r, refs := tx.program.receipt, tx.program.receiptPc.refs;
    var db' := Publish(db, tx);
    ReceiptPublishes(tx, r, refs);
    assert db.trail + tx.audit == tx.audit;
    ReceiptHead(env, c, db', tx.audit, r, refs);
    assert ProposalsOk(env, []);
    if refs.Some? {
      assert db'.trail[3..] == [];
    }
  }

  // ---- a generation job ---------------------------------------------------

  /** A committed trail that grew by one entry about the same case. */
  lemma TrailGrows(env: Env, c: string, db: Tables, db': Tables, e: AuditEntry)
    requires TablesOk(env, c, db) && db.entry.Some? && db.exception.Some?
    requires db'.trail == db.trail + [e] && e.payload.caseId == c && RowsSound(e.payload.values)
    requires db'.entry == db.entry && db'.exception.Some? && db'.exception.value.id == db.exception.value.id
    ensures HeadOk(c, db') && |db.trail| >= 3 && db'.trail[3..] == db.trail[3..] + [e]
    ensures forall i :: 0 <= i < |db'.trail| ==> db'.trail[i].payload.caseId == c && RowsSound(db'.trail[i].payload.values)
  {
    hide WellChained, EntryClean, ProposalsOk, DecisionOk, TailOk, RowsSound;
  }

  lemma ProposalsPassed(env: Env, c: string, ex: string, rec: string, entry: EntryValues, ps: seq<Proposal>)
    requires Validate(env, GeneratedInput(c, ex, rec, entry, ps)).Ok?
    requires ProposalsStorable(ps) && AllRealFields(ps)
    ensures ProposalsOk(env, ps)
  {
    hide Validate, DistinctProposals;
    var input := GeneratedInput(c, ex, rec, entry, ps);
    ValidateIff(env, input);
    forall i | 0 <= i < |ps|
      ensures ps[i].fieldName in ENTRY_FIELDS && !env.secretValue(ps[i].value) && Storable(ps[i].value)
    {
      assert RowAcceptable(env, input.values[i]);
    }
  }

  /** A recommendation that leaves PENDING keeps the decision, and what was written about it, in order. */
  lemma DecisionSurvives(db: Tables, db': Tables, e: AuditEntry)
    requires db.entry.Some? && db.exception.Some? && db.recommendation.Some? && db.recommendation.value.status != AVAILABLE
    requires DecisionOk(db)
    requires db'.recommendation.Some? && db'.recommendation.value.id == db.recommendation.value.id
    requires db' == db.(recommendation := db'.recommendation, proposals := db'.proposals, trail := db'.trail)
    ensures DecisionOk(db')
    ensures |db.decisions| == 1 && IsDecisionEntry(db, e) ==> IsDecisionEntry(db', e)
  {}

  /** The rest of the invariant once a recommendation has left PENDING and the AI's entry is in place. */
  lemma ToldTail(db: Tables, db': Tables, e: AuditEntry)
    requires db.entry.Some? && db.exception.Some? && db.recommendation.Some? && db.recommendation.value.status == PENDING
    requires |db.trail| >= 3 && DecisionOk(db) && TailOk(db)
    requires db'.recommendation.Some? && db'.recommendation.value.id == db.recommendation.value.id
    requires db'.recommendation.value.status != PENDING
    requires db' == db.(recommendation := db'.recommendation, proposals := db'.proposals, trail := db.trail + [e])
    requires IsAiEntry(db', e) && db'.trail[3..] == db.trail[3..] + [e]
    ensures DecisionOk(db') && TailOk(db')
  {
    hide IsAiEntry;
    DecisionSurvives(db, db', if db.trail[3..] != [] then db.trail[3..][0] else e);
    hide DecisionOk, IsDecisionEntry;
    assert db.exception.value.state != OPEN ==> |db.decisions| == 1 by { OneDecision(db); }
  }

  lemma OneDecision(db: Tables)
    requires db.entry.Some? && db.exception.Some? && db.recommendation.Some? && DecisionOk(db)
    ensures db.exception.value.state != OPEN ==> |db.decisions| == 1
  {}

  lemma OffersRecorded(entry: EntryValues, ps: seq<Proposal>)
    ensures OffersAll(RecordedAll(ProposalRows(entry, ps)), ps, entry)
  {}

  lemma AvailableCommitOk(env: Env, c: string, db: Tables, tx: Tx)
    requires TablesOk(env, c, db) && TxOk(env, c, db, tx)
    requires tx.program.Job? && tx.program.jobPc.CommitAvailable?
    ensures TablesOk(env, c, Publish(db, tx))
  {
    hide WellChained, Told, EntryClean, RowsSound, Publish, ProposalsStorable, ProposalsOk, DecisionOk, TailOk, HeadOk,
      OffersAll, ProposalRows, StoresAll;
    OffersRecorded(tx.program.jobPc.entry, tx.program.jobPc.proposals);
    var ex, pc := tx.program.exceptionId, tx.program.jobPc;
    var rec, entry, ps := pc.recommendationId, pc.entry, pc.proposals;
    var db', e := Publish(db, tx), tx.audit[0];
    assert tx.audit == [e];
    AvailablePublishes(db, tx, ex, rec, entry, ps);
    var input := GeneratedInput(c, ex, rec, entry, ps);
    ToldAbout(env, e, input);
    AcceptedProposals(env, c, ex, rec, entry, ps, e);
    TrailGrows(env, c, db, db', e);
    ToldTail(db, db', e);
  }

  lemma AcceptedProposals(env: Env, c: string, ex: string, rec: string, entry: EntryValues, ps: seq<Proposal>, e: AuditEntry)
    requires Told(env, e, GeneratedInput(c, ex, rec, entry, ps))
    requires ProposalsStorable(ps) && AllRealFields(ps)
    ensures ProposalsOk(env, ps)
  {
    hide Validate, GeneratedInput, ProposalsOk, ProposalsStorable, AllRealFields;
    ProposalsPassed(env, c, ex, rec, entry, ps);
  }

  lemma UnavailableCommitOk(env: Env, c: string, db: Tables, tx: Tx)
    requires TablesOk(env, c, db) && TxOk(env, c, db, tx)
    requires tx.program.Job? && tx.program.jobPc.CommitUnavailable?
    ensures TablesOk(env, c, Publish(db, tx))
  {
    hide WellChained, Told, EntryClean, RowsSound, Publish, ProposalsOk, DecisionOk, TailOk, HeadOk;
    var ex, pc := tx.program.exceptionId, tx.program.jobPc;
    var db', e := Publish(db, tx), tx.audit[0];
    assert tx.audit == [e];
    UnavailablePublishes(db, tx, ex, pc.recommendationId, pc.reason);
    ToldAbout(env, e, UnavailableInput(c, ex, pc.recommendationId));
    TrailGrows(env, c, db, db', e);
    ToldTail(db, db', e);
  }

  // ---- a decision ---------------------------------------------------------

  lemma PlanActs(body: Body, status: RecommendationStatus, ps: seq<Proposal>, entry: EntryValues)
    requires MakePlan(body, status, ps, entry).Ok?
    ensures var plan := MakePlan(body, status, ps, entry).value;
            plan.action == DecisionAction(plan.decisionType) && plan.resulting != OPEN
  {}

  /** What the plan computed is what the stored rows and the audit rows must tell. */
  lemma PlanRecorded(env: Env, db: Tables, d: DecisionRequest, rec: string, plan: Plan)
    requires db.entry.Some? && db.exception.Some? && db.recommendation.Some? && PlanOk(db, d, rec, plan)
    requires ProposalsOk(env, db.proposals)
    ensures Traceable(plan.decisionType, plan.values, db.recommendation.value.status, db.proposals, db.entry.value.values)
    ensures RowsTell(plan.decisionType, plan.values, db.recommendation.value.status, db.proposals, RecordedAll(plan.auditValues))
    ensures plan.action == DecisionAction(plan.decisionType) && plan.resulting != OPEN
    ensures plan.resulting == REJECTED <==> plan.decisionType == REJECT
  {
    hide Traceable, RowsTell, MakePlan, DistinctProposals;
    PlanTraceable(d.body, plan.seen, db.proposals, db.entry.value.values);
    PlanActs(d.body, plan.seen, db.proposals, db.entry.value.values);
    TraceableSurvives(plan.decisionType, plan.values, plan.seen, db.proposals,
                      db.recommendation.value.status, db.proposals, db.entry.value.values, RecordedAll(plan.auditValues));
  }

  lemma ClosedTail(db: Tables, db': Tables, e: AuditEntry)
    requires db.entry.Some? && db.exception.Some? && db.recommendation.Some? && db.exception.value.state == OPEN
    requires |db.trail| >= 3 && TailOk(db)
    requires db'.exception.Some? && db'.exception.value.id == db.exception.value.id && db'.exception.value.state != OPEN
    requires |db'.decisions| == 1
    requires db' == db.(exception := db'.exception, decisions := db'.decisions, decisionValues := db'.decisionValues,
                        trail := db.trail + [e])
    requires IsDecisionEntry(db', e) && db'.trail[3..] == db.trail[3..] + [e]
    ensures TailOk(db')
  {
    hide IsDecisionEntry;
    if db.trail[3..] != [] {
      assert IsAiEntry(db', db.trail[3..][0]);
    }
  }

  lemma DecisionCommitOk(env: Env, c: string, db: Tables, tx: Tx)
    requires TablesOk(env, c, db) && TxOk(env, c, db, tx)
    requires tx.program.Decide? && tx.program.decisionPc.DecisionCommit?
    ensures TablesOk(env, c, Publish(db, tx))
  {
    hide WellChained, Told, EntryClean, RowsSound, Publish, ProposalsOk, TailOk, HeadOk, Traceable, RowsTell, MakePlan,
      DecisionAction, StoresAll;
    var ex, d, pc := tx.program.exceptionId, tx.program.decision, tx.program.decisionPc;
    var rec, plan, id := pc.recommendationId, pc.plan, pc.decisionId;
    var db', e := Publish(db, tx), tx.audit[0];
    assert tx.audit == [e];
    DecisionPublishes(db, tx, ex, d, rec, plan, id);
    ToldAbout(env, e, DecidedInput(c, ex, rec, id, d, plan));
    PlanRecorded(env, db, d, rec, plan);
    TrailGrows(env, c, db, db', e);
    ClosedTail(db, db', e);
  }

  // ---- the other transactions ---------------------------------------------

  predicate AtCommit(tx: Tx) {
    match tx.program
    case Receipt(_, pc) => pc.ReceiptCommit?
    case Job(_, pc) => pc.CommitAvailable? || pc.CommitUnavailable?
    case Decide(_, _, pc) => pc.DecisionCommit?
  }

  lemma AuditUndisturbed(env: Env, c: string, db: Tables, tx: Tx, other: Tx)
    requires TxOk(env, c, db, tx) && AtCommit(tx)
    requires AuditOk(env, c, db, other) && tx.held !! other.held
    requires WellChained(env.hash, Publish(db, tx).trail)
    ensures AuditOk(env, c, Publish(db, tx), other)
  {
    hide WellChained, Validate, CurrentInput, Publish, PastRows, ProgramOk;
    assert tx.audit != [];
    assert other.audit == [];
    assert Publish(db, tx).trail + other.audit == Publish(db, tx).trail;
  }

  lemma PlanIgnoresProposals(body: Body, status: RecommendationStatus, ps: seq<Proposal>, ps': seq<Proposal>, entry: EntryValues)
    requires status != AVAILABLE
    ensures MakePlan(body, status, ps, entry) == MakePlan(body, status, ps', entry)
  {}

  lemma ProgramUndisturbed(env: Env, c: string, db: Tables, tx: Tx, other: Tx)
    requires TablesOk(env, c, db) && TxOk(env, c, db, tx) && AtCommit(tx)
    requires ProgramOk(db, other) && tx.held !! other.held
    ensures ProgramOk(Publish(db, tx), other)
  {
    hide WellChained, AuditOk, PastRows, Publish, MakePlan, TailOk, HeadOk, IsAiEntry, IsDecisionEntry, Traceable,
      EntryClean, ProposalsOk, ProposalsStorable, AllRealFields;
    match tx.program
    case Receipt(_, _) =>
    case Job(ex, pc) =>
      match pc {
        case CommitAvailable(rec, entry, ps) => AvailablePublishes(db, tx, ex, rec, entry, ps);
        case CommitUnavailable(rec, reason) => UnavailablePublishes(db, tx, ex, rec, reason);
        case _ =>
      }
      if other.program.Decide? {
        forall body, status | status != AVAILABLE
          ensures MakePlan(body, status, db.proposals, db.entry.value.values)
               == MakePlan(body, status, Publish(db, tx).proposals, db.entry.value.values)
        {
          PlanIgnoresProposals(body, status, db.proposals, Publish(db, tx).proposals, db.entry.value.values);
        }
      }
    case Decide(ex, d, pc) =>
      DecisionPublishes(db, tx, ex, d, pc.recommendationId, pc.plan, pc.decisionId);
  }

  /** A commit keeps the committed rows in order. */
  lemma CommitKeepsTables(env: Env, c: string, db: Tables, tx: Tx)
    requires TablesOk(env, c, db) && TxOk(env, c, db, tx) && AtCommit(tx)
    ensures TablesOk(env, c, Publish(db, tx))
  {
    hide TablesOk, TxOk, Publish;
    match tx.program
    case Receipt(_, _) => ReceiptCommitOk(env, c, db, tx);
    case Job(_, pc) => if pc.CommitAvailable? { AvailableCommitOk(env, c, db, tx); } else { UnavailableCommitOk(env, c, db, tx); }
    case Decide(_, _, _) => DecisionCommitOk(env, c, db, tx);
  }

  /** A commit does not disturb a transaction that holds none of its locks. */
  lemma CommitKeepsOther(env: Env, c: string, db: Tables, tx: Tx, other: Tx)
    requires TablesOk(env, c, db) && TxOk(env, c, db, tx) && AtCommit(tx)
    requires TxOk(env, c, db, other) && tx.held !! other.held
    ensures TxOk(env, c, Publish(db, tx), other)
  {
    hide WellChained, AuditOk, ProgramOk, CaseOk, PastRows, Publish;
    CommitKeepsTables(env, c, db, tx);
    AuditUndisturbed(env, c, db, tx, other);
    ProgramUndisturbed(env, c, db, tx, other);
  }

  lemma AppendNeverCommits(env: Env, db: Tables, tx: Tx)
    ensures forall entry, next :: !AppendStep(env, db, tx, entry, next).Commit?
  {
    hide Validate, MaxSequence, PrevHash, RowNumbered, MakeEntry;
  }

  /** The only other way to reach COMMIT is with nothing written. */
  lemma CommitCases(env: Env, c: string, db: Tables, tx: Tx, x: Outside)
    requires TxOk(env, c, db, tx) && Statement(env, c, db, tx, x).Commit?
    ensures AtCommit(tx) || (tx.rows == [] && tx.audit == [] && tx.program.Job?)
  {
    hide WellChained, Told, CursorOk, AppendStep, GeneratedInput, UnavailableInput, ReceivedInput, ValidatedInput, OpenedInput,
      DecidedInput, Validate;
    if CurrentInput(c, tx.program).Some? {
      AppendNeverCommits(env, db, tx);
    }
  }
}
