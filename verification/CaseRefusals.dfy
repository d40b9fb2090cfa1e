/** On what grounds a decision's statement fails, exactly, and why an acceptable decision's never does. */
module CaseRefusals {
  import opened Text
  import opened HashChain
  import opened AuditWriter
  import opened Decisions
  import opened DecisionRules
  import opened RuleEngine
  import opened Lifecycle
  import opened CaseInvariant
  import opened CaseSteps
  import opened CaseCommits
  import opened Protocol
  import opened CaseTheorems

  // ---- when a decision is refused -----------------------------------------

  lemma CaseIsClean(env: Env, c: string, db: Tables)
    requires TablesOk(env, c, db) && db.exception.Some?
    ensures db.entry.Some? && db.recommendation.Some? && KnownClean(env, db.proposals, db.entry.value.values)
    ensures ProposalsStorable(db.proposals)
  {
    hide WellChained, HeadOk, DecisionOk, TailOk, DistinctProposals;
    assert CaseOk(env, c, db) by { CaseIsWhole(env, c, db); }
    forall p | p in db.proposals
      ensures p.fieldName in ENTRY_FIELDS && !env.secretValue(p.value) && Storable(p.value)
    {
      var i :| 0 <= i < |db.proposals| && db.proposals[i] == p;
    }
  }

  lemma PlanHeader(c: string, ex: string, rec: string, id: string, d: DecisionRequest, plan: Plan, ps: seq<Proposal>,
                   entry: EntryValues)
    requires MakePlan(d.body, plan.seen, ps, entry) == Ok(plan)
    ensures HeaderAcceptable(DecidedInput(c, ex, rec, id, d, plan)) <==> d.principal != ""
  {
    hide EditAgainstProposal, LoadProposals, Trim, Utf16Length;
    if d.body.reason.Some? {
      TrimIdempotent(d.body.reason.value);
    }
  }

  /** The writer accepts the entry of a planned decision exactly when the decider is named and no submitted value
      looks like a secret. */
  lemma DecidedInputIff(env: Env, c: string, ex: string, rec: string, id: string, d: DecisionRequest, plan: Plan,
                        ps: seq<Proposal>, entry: EntryValues)
    requires KnownClean(env, ps, entry) && MakePlan(d.body, plan.seen, ps, entry) == Ok(plan)
    ensures Validate(env, DecidedInput(c, ex, rec, id, d, plan)).Ok? <==> d.principal != "" && SubmitsNoSecret(env, d.body)
  {
    hide KnownClean, MakePlan, HeaderAcceptable, RowAcceptable, SubmitsNoSecret, Validate;
    ValidateIff(env, DecidedInput(c, ex, rec, id, d, plan));
    PlanHeader(c, ex, rec, id, d, plan, ps, entry);
    PlanRowsIff(env, d.body, plan.seen, ps, entry);
  }

  /** The statement at which a decision is refused, and on what grounds. */
  ghost predicate Refused(env: Env, db: Tables, tx: Tx)
    requires tx.program.Decide? && db.exception.Some? && db.recommendation.Some?
  {
    var body := tx.program.decision.body;
    match tx.program.decisionPc
    case LockCase => db.exception.value.state != OPEN
    case LoadRecommendation => body.recommendationId.Some? && body.recommendationId != Some(db.recommendation.value.id)
    case Branch(_, status) => !BodyAcceptable(body, status, db.proposals)
    case InsertDecision(_, plan) => !ReasonStorable(plan.decisionType, plan.reason)
    case InsertResolution(_, plan, _) => !ValuesStorable(plan.values)
    case AppendDecision(_, _, _) => tx.cursor == Idle && (tx.program.decision.principal == "" || !SubmitsNoSecret(env, body))
    case _ => false
  }

  /** Whatever is committed meanwhile, a decision's statement fails exactly on these grounds: the case is closed, it was
      aimed at another recommendation, its body breaks the rules of its type or the length checks of the tables, or it
      submits what looks like a secret. */
  lemma DecisionRefusedIff(env: Env, c: string, db: Tables, tx: Tx, x: Outside)
    requires TablesOk(env, c, db) && TxOk(env, c, db, tx) && tx.program.Decide?
    ensures db.exception.Some? && db.recommendation.Some?
    ensures Statement(env, c, db, tx, x).Fail? <==> Refused(env, db, tx)
  {
    hide TablesOk, AuditOk, AppendStep, MakePlan, KnownClean, DecidedInput, Validate, BodyAcceptable,
      SubmitsNoSecret, DecisionRowFor, PastRows, OneRowPerField, ReasonStorable, ValuesStorable, ProposalsStorable;
    CaseIsClean(env, c, db);
    var ex, d := tx.program.exceptionId, tx.program.decision;
    match tx.program.decisionPc
    case Branch(rec, status) => MakePlanIff(d.body, status, db.proposals, db.entry.value.values);
    case AppendDecision(rec, plan, id) =>
      DecidedInputIff(env, c, ex, rec, id, d, plan, db.proposals, db.entry.value.values);
      AppendFailsIff(env, c, db, tx, DecidedInput(c, ex, rec, id, d, plan), Decide(ex, d, DecisionCommit(rec, plan, id)));
      LinkedValues(env, c, db, tx, DecidedInput(c, ex, rec, id, d, plan));
      DecidedOnePerField(env, c, ex, rec, id, d, plan, db.proposals, db.entry.value.values);
    case _ =>
  }

  lemma DecidedOnePerField(env: Env, c: string, ex: string, rec: string, id: string, d: DecisionRequest, plan: Plan,
                           ps: seq<Proposal>, entry: EntryValues)
    requires KnownClean(env, ps, entry) && MakePlan(d.body, plan.seen, ps, entry) == Ok(plan)
    ensures var v := Validate(env, DecidedInput(c, ex, rec, id, d, plan));
            v.Ok? ==> OneRowPerField(v.value)
  {
    hide Validate, MakePlan, OneRowPerField, DistinctProposals;
    PlanOnePerField(d.body, plan.seen, ps, entry);
    if Validate(env, DecidedInput(c, ex, rec, id, d, plan)).Ok? {
      AcceptedRows(env, DecidedInput(c, ex, rec, id, d, plan));
    }
  }

  lemma AppendFailsIff(env: Env, c: string, db: Tables, tx: Tx, entry: AppendInput, next: Program)
    requires AuditOk(env, c, db, tx) && CurrentInput(c, tx.program) == Some(entry)
    requires PastInputs(c, next) == PastInputs(c, tx.program) + [entry]
    ensures AppendStep(env, db, tx, entry, next).Fail? <==>
            (tx.cursor == Idle && Validate(env, entry).Err?) || (tx.cursor.Linked? && !OneRowPerField(tx.cursor.values))
  {
    hide AuditOk, Validate, PastInputs, CurrentInput, MaxSequence, PrevHash, RowNumbered, MakeEntry, OneRowPerField;
    AppendStepKeeps(env, c, db, tx, entry, next);
  }

  // ---- an acceptable decision commits -------------------------------------

  /** The case is open and the request meets the rules against what is committed now. */
  ghost predicate Acceptable(env: Env, db: Tables, d: DecisionRequest)
    requires db.exception.Some? && db.recommendation.Some?
  {
    && db.exception.value.state == OPEN && d.principal != ""
    && (d.body.recommendationId.Some? ==> d.body.recommendationId == Some(db.recommendation.value.id))
    && BodyAcceptable(d.body, db.recommendation.value.status, db.proposals)
    && SubmitsNoSecret(env, d.body) && BodyStorable(d.body)
  }

  /** `tx` is that decision, and what it has read so far is still what is committed. */
  ghost predicate UpToDate(db: Tables, d: DecisionRequest, tx: Tx)
    requires db.recommendation.Some?
  {
    && tx.program.Decide? && tx.program.decision == d
    && var now := db.recommendation.value.status;
       match tx.program.decisionPc
       case LockCase => true
       case LoadRecommendation => true
       case Branch(_, status) => status == now
       case LockAnchor(_, plan) => plan.seen == now
       case InsertDecision(_, plan) => plan.seen == now
       case InsertResolution(_, plan, _) => plan.seen == now
       case CloseCase(_, plan, _) => plan.seen == now
       case AppendDecision(_, plan, _) => plan.seen == now
       case DecisionCommit(_, plan, _) => plan.seen == now
  }

  lemma StaysUpToDate(env: Env, c: string, db: Tables, d: DecisionRequest, tx: Tx, x: Outside)
    requires db.recommendation.Some? && UpToDate(db, d, tx)
    ensures var effect := Statement(env, c, db, tx, x);
            effect.Continue? ==> UpToDate(db, d, effect.tx)
  {
    hide AppendStep, MakePlan, DecidedInput, DecisionRowFor, ReasonStorable, ValuesStorable;
    match tx.program.decisionPc
    case Branch(rec, status) =>
      if db.entry.Some? && MakePlan(d.body, status, db.proposals, db.entry.value.values).Ok? {
        PlanSees(d.body, status, db.proposals, db.entry.value.values);
      }
    case AppendDecision(rec, plan, id) =>
      AppendAdvances(env, db, tx, DecidedInput(c, tx.program.exceptionId, rec, id, d, plan),
                     Decide(tx.program.exceptionId, d, DecisionCommit(rec, plan, id)));
    case _ =>
  }

  /** Each of its statements, once it runs, succeeds and brings it nearer to its commit. */
  lemma StatementAdvances(env: Env, c: string, db: Tables, d: DecisionRequest, tx: Tx, x: Outside)
    requires TablesOk(env, c, db) && TxOk(env, c, db, tx) && tx.program.Decide?
    requires db.exception.Some? && db.recommendation.Some? && Acceptable(env, db, d) && UpToDate(db, d, tx)
    requires !tx.program.decisionPc.DecisionCommit?
    ensures var effect := Statement(env, c, db, tx, x);
            effect.Continue? && UpToDate(db, d, effect.tx) && StepsLeft(effect.tx) < StepsLeft(tx)
  {
    hide TablesOk, WorkOk, HeldAt, Statement, BodyAcceptable, SubmitsNoSecret, StepsLeft, Refused, Acceptable, UpToDate;
    DecisionRefusedIff(env, c, db, tx, x);
    NotRefused(env, c, db, d, tx);
    StaysUpToDate(env, c, db, d, tx, x);
    OutsideAppendIdle(env, c, db, tx);
    StatementsRunOut(env, c, db, tx, x);
    if Statement(env, c, db, tx, x).Commit? {
      CommitCases(env, c, db, tx, x);
    }
  }

  lemma NotRefused(env: Env, c: string, db: Tables, d: DecisionRequest, tx: Tx)
    requires TablesOk(env, c, db) && TxOk(env, c, db, tx) && tx.program.Decide?
    requires db.exception.Some? && db.recommendation.Some? && Acceptable(env, db, d) && UpToDate(db, d, tx)
    ensures !Refused(env, db, tx)
  {
    hide TablesOk, AuditOk, PastRows, BodyAcceptable, SubmitsNoSecret, MakePlan, KnownClean, BodyStorable,
      ReasonStorable, ValuesStorable, ProposalsStorable;
    CaseIsClean(env, c, db);
    match tx.program.decisionPc
    case InsertDecision(_, plan) => PlanStorableIff(d.body, plan.seen, db.proposals, db.entry.value.values);
    case InsertResolution(_, plan, _) => PlanStorableIff(d.body, plan.seen, db.proposals, db.entry.value.values);
    case _ =>
  }

  /** What the case looks like once the decision stands: the rows, values and entry that were asked for against the
      recommendation as it is, in the order of the plan, and nothing else changed. */
  ghost predicate ClosedAsAsked(db: Tables, db': Tables, d: DecisionRequest) {
    && db.exception.Some? && db.entry.Some? && db.recommendation.Some?
    && |db'.trail| == |db.trail| + 1 && |db'.decisions| == 1
    && var status, row, e := db.recommendation.value.status, db'.decisions[0], db'.trail[|db.trail|];
       && Decided(db, db', d, status, e, e.payload.occurredAt)
       && db' == db.(exception := db'.exception, decisions := [row], decisionValues := db'.decisionValues,
                     trail := db.trail + [e])
       && var plan := MakePlan(d.body, status, db.proposals, db.entry.value.values);
          plan.Ok? && row.reason == plan.value.reason && db'.decisionValues == map[row.id := plan.value.values]
  }

  lemma CommitCloses(env: Env, c: string, db: Tables, d: DecisionRequest, tx: Tx)
    requires TablesOk(env, c, db) && TxOk(env, c, db, tx) && db.recommendation.Some? && UpToDate(db, d, tx)
    requires tx.program.Decide? && tx.program.decisionPc.DecisionCommit?
    ensures ClosedAsAsked(db, Publish(db, tx), d)
  {
    hide TablesOk, AuditOk, PastRows, Publish, MakePlan, DecisionAction;
    DecisionCloses(env, c, db, tx);
    hide Decided;
    var plan := tx.program.decisionPc.plan;
    assert PlanOk(db, d, tx.program.decisionPc.recommendationId, plan);
    PlanResult(d.body, plan.seen, db.proposals, db.entry.value.values);
  }

  lemma PlanResult(body: Body, status: RecommendationStatus, ps: seq<Proposal>, entry: EntryValues)
    requires MakePlan(body, status, ps, entry).Ok?
    ensures var plan := MakePlan(body, status, ps, entry).value;
            plan.decisionType == body.decisionType && plan.resulting == if body.decisionType == REJECT then REJECTED else RESOLVED
  {}

  lemma DecisionAtWork(db: Tables, d: DecisionRequest, tx: Tx)
    requires db.recommendation.Some? && UpToDate(db, d, tx)
    ensures tx.program.Decide?
  {}

  lemma CommitStatement(env: Env, c: string, db: Tables, tx: Tx, x: Outside)
    requires tx.program.Decide? && tx.program.decisionPc.DecisionCommit?
    ensures Statement(env, c, db, tx, x).Commit?
  {}
}
