/** What holds of a case's committed rows and of every transaction at work on it, at every moment. */
module CaseInvariant {
  import opened Text
  import opened HashChain
  import opened AuditWriter
  import opened Decisions
  import opened RuleEngine
  import opened Lifecycle
  import Calendar
  import Replay

  // ---- the committed rows -------------------------------------------------

  /** No stored entry value is shaped like a secret. */
  ghost predicate EntryClean(env: Env, values: EntryValues) {
    forall f :: f in ENTRY_FIELDS && f in values ==> !env.secretValue(values[f])
  }

  ghost predicate ProposalsOk(env: Env, ps: seq<Proposal>) {
    && DistinctProposals(ps)
    && forall i :: 0 <= i < |ps| ==>
         ps[i].fieldName in ENTRY_FIELDS && !env.secretValue(ps[i].value) && Storable(ps[i].value)
  }

  function DecisionAction(t: DecisionType): Action {
    match t
    case APPROVE => RecommendationApproved
    case EDIT_APPROVE => RecommendationEditedAndApproved
    case REJECT => RecommendationRejected
  }

  /** What is stored of the submitted values: all of them, but for an arrival date that the calendar does not have. */
  ghost predicate StoredAs(values: EntryValues, submitted: EntryValues) {
    forall f :: (f in values <==> f in submitted && (f == "arrival_date" ==> Calendar.IsCalendarDate(submitted[f])))
                && (f in values ==> values[f] == submitted[f])
  }

  /** A row with a human's text where there was nothing. */
  predicate HumanRow(r: AuditValue, text: string) {
    && r.before == None && r.beforeOrigin == None
    && r.after == Some(text) && r.afterOrigin == Some(HUMAN) && r.changed
  }

  /** Exactly one row for each entry field that was submitted, with the text as it was typed. */
  ghost predicate ReceivedAll(rows: seq<AuditValue>, submitted: EntryValues) {
    && OneRowPerField(rows)
    && (forall r :: r in rows ==>
          r.fieldName in ENTRY_FIELDS && r.fieldName in submitted && HumanRow(r, submitted[r.fieldName]))
    && (forall f :: f in ENTRY_FIELDS && f in submitted ==> exists r :: r in rows && r.fieldName == f)
  }

  /** One row for each finding, in their order, with its code and its message. */
  predicate FindingsTold(rows: seq<AuditValue>, findings: seq<Finding>) {
    |rows| == |findings| && forall i :: 0 <= i < |rows| ==>
      rows[i].fieldName == findings[i].fieldName && HumanRow(rows[i], findings[i].failureCode + ": " + findings[i].message)
  }

  /** The head of an entry made at a receipt: what happened, who is named for it, and when. */
  predicate ReceiptEntry(p: Payload, c: string, r: ReceiptRequest, now: string, action: Action, actor: ActorType,
                         exceptionId: Option<string>, beforeState: Option<string>, afterState: string) {
    && p.caseId == c && p.action == action && p.actorType == actor && p.actorId == Some(r.principal)
    && p.exceptionId == exceptionId && p.recommendationId == None && p.decisionId == None
    && p.beforeState == beforeState && p.afterState == afterState && p.reason == None
    && p.requestId == r.requestId && p.occurredAt == now
  }

  /** The two or three entries of a receipt. */
  ghost predicate ReceiptTrail(trail: seq<AuditEntry>, c: string, r: ReceiptRequest, refs: Option<Opened>, now: string) {
    && |trail| == (if refs.Some? then 3 else 2)
    && ReceiptEntry(trail[0].payload, c, r, now, EntryReceived, SpecialistActor, None, None, "RECEIVED")
    && ReceivedAll(trail[0].payload.values, r.submitted)
    && ReceiptEntry(trail[1].payload, c, r, now, ValidationCompleted, SystemActor, None, Some("RECEIVED"),
                    if r.evaluation.outcome == FAIL then "EXCEPTION_OPENED" else "VALIDATED_CLEAN")
    && FindingsTold(trail[1].payload.values, r.evaluation.findings)
    && (refs.Some? ==>
          && ReceiptEntry(trail[2].payload, c, r, now, ExceptionOpened, SystemActor, Some(refs.value.exceptionId), None, "OPEN")
          && FindingsTold(trail[2].payload.values, r.evaluation.findings))
  }

  /** The rows of a case just received: the entry, its validation, and exactly on FAIL an open exception with a PENDING
      recommendation. */
  ghost predicate IsNewCase(db: Tables, r: ReceiptRequest, refs: Option<Opened>) {
    && (refs.Some? <==> r.evaluation.outcome == FAIL)
    && db.entry.Some? && StoredAs(db.entry.value.values, r.submitted) && db.entry.value.createdBy == r.principal
    && (db.entry.value.outcome == EXCEPTION_OPENED <==> r.evaluation.outcome == FAIL)
    && db.validation == Some(ValidationRow(r.evaluation.outcome, |r.evaluation.findings|))
    && db.exception == (if refs.Some? then Some(ExceptionRow(refs.value.exceptionId, OPEN, None)) else None)
    && db.recommendation == (if refs.Some? then Some(RecommendationRow(refs.value.recommendationId, PENDING, None)) else None)
    && db.proposals == [] && db.decisions == [] && db.decisionValues == map[]
  }

  /** The row of a proposal: what was received for its field, by a human, and what the AI puts in its place. */
  predicate Offers(r: AuditValue, p: Proposal, entry: EntryValues) {
    && r.fieldName == p.fieldName && IsReceived(r.before, r.beforeOrigin, p.fieldName, entry)
    && r.after == Some(p.value) && r.afterOrigin == Some(AI)
    && (r.changed <==> r.before != Some(p.value))
  }

  /** One row for each proposal, in their order. */
  predicate OffersAll(rows: seq<AuditValue>, ps: seq<Proposal>, entry: EntryValues) {
    |rows| == |ps| && forall i :: 0 <= i < |rows| ==> Offers(rows[i], ps[i], entry)
  }

  /** `e` is the AI's entry about the recommendation as it stands. */
  ghost predicate IsAiEntry(db: Tables, e: AuditEntry)
    requires db.entry.Some? && db.exception.Some? && db.recommendation.Some?
  {
    var rec, p := db.recommendation.value, e.payload;
    && p.actorType == AiActor && p.actorId == None
    && p.exceptionId == Some(db.exception.value.id) && p.recommendationId == Some(rec.id) && p.decisionId == None
    && p.beforeState == Some("PENDING") && p.reason == None && p.requestId == None
    && if rec.status == AVAILABLE then
         && p.action == RecommendationGenerated && p.afterState == "AVAILABLE"
         && OffersAll(p.values, db.proposals, db.entry.value.values)
       else
         && rec.status == UNAVAILABLE && p.action == Action.RecommendationUnavailable && p.afterState == "UNAVAILABLE"
         && p.values == []
  }

  /** `e` is the named specialist's entry about the decision as it was recorded. */
  ghost predicate IsDecisionEntry(db: Tables, e: AuditEntry)
    requires db.exception.Some? && db.recommendation.Some? && |db.decisions| == 1
  {
    var d, p := db.decisions[0], e.payload;
    && p.action == DecisionAction(d.decisionType) && p.actorType == SpecialistActor && p.actorId == Some(d.decidedBy)
    && p.exceptionId == Some(db.exception.value.id) && p.recommendationId == Some(d.recommendationId)
    && p.decisionId == Some(d.id)
    && p.beforeState == Some("OPEN") && p.reason == d.reason
    && p.afterState == (if db.exception.value.state == RESOLVED then "RESOLVED" else "REJECTED")
    && d.id in db.decisionValues
    && RowsTell(d.decisionType, db.decisionValues[d.id], db.recommendation.value.status, db.proposals, p.values)
  }

  /** The decision that was asked for stands: its row and state, the values its body calls for against what was seen of the
      recommendation, and its entry. */
  ghost predicate Decided(db: Tables, db': Tables, d: DecisionRequest, seen: RecommendationStatus, e: AuditEntry, now: string) {
    && db.entry.Some? && db.exception.Some? && db.recommendation.Some?
    && db'.exception.Some? && db'.recommendation.Some? && |db'.decisions| == 1
    && var row := db'.decisions[0];
       && row == DecisionRow(row.id, d.body.decisionType, d.principal, Replay.NormalisedReason(d.body.reason),
                             db.recommendation.value.id, if d.body.decisionType == REJECT then REJECTED else RESOLVED, d.key)
       && db'.exception.value == ExceptionRow(db.exception.value.id, row.resulting, Some(row.id))
       && db'.decisionValues.Keys == {row.id}
       && IsDecisionEntry(db', e) && e.payload.requestId == d.requestId && e.payload.occurredAt == now
       && Fulfils(d.body, seen, db.proposals, db.entry.value.values, db'.decisionValues[row.id], e.payload.values)
  }

  /** After the first three entries: at most one by the AI and at most one by a specialist, in either order. */
  ghost predicate TailOk(db: Tables)
    requires db.entry.Some? && db.exception.Some? && db.recommendation.Some?
    requires db.exception.value.state != OPEN ==> |db.decisions| == 1
    requires |db.trail| >= 3
  {
    var tail := db.trail[3..];
    var told := db.recommendation.value.status != PENDING;
    var closed := db.exception.value.state != OPEN;
    if told && closed then
      && |tail| == 2
      && ((IsAiEntry(db, tail[0]) && IsDecisionEntry(db, tail[1]))
          || (IsDecisionEntry(db, tail[0]) && IsAiEntry(db, tail[1])))
    else if told then |tail| == 1 && IsAiEntry(db, tail[0])
    else if closed then |tail| == 1 && IsDecisionEntry(db, tail[0])
    else tail == []
  }

  ghost predicate HeadOk(c: string, db: Tables)
    requires db.entry.Some?
  {
    var e := db.entry.value;
    && |db.trail| >= 2
    && db.trail[0].payload.action == EntryReceived
    && db.trail[0].payload.actorType == SpecialistActor && db.trail[0].payload.actorId == Some(e.createdBy)
    && db.trail[0].payload.beforeState == None && db.trail[0].payload.afterState == "RECEIVED"
    && db.trail[0].payload.decisionId == None
    && db.trail[1].payload.action == ValidationCompleted
    && db.trail[1].payload.decisionId == None
    && db.trail[1].payload.beforeState == Some("RECEIVED")
    && db.trail[1].payload.afterState == (if e.outcome == EXCEPTION_OPENED then "EXCEPTION_OPENED" else "VALIDATED_CLEAN")
    && (db.exception.Some? ==>
          && |db.trail| >= 3
          && db.trail[2].payload.action == ExceptionOpened
          && db.trail[2].payload.exceptionId == Some(db.exception.value.id) && db.trail[2].payload.decisionId == None
          && db.trail[2].payload.beforeState == None && db.trail[2].payload.afterState == "OPEN")
  }

  /** Open and undecided, or closed by exactly one decision whose values are traceable. */
  ghost predicate DecisionOk(db: Tables)
    requires db.entry.Some? && db.exception.Some? && db.recommendation.Some?
  {
    var ex, rec := db.exception.value, db.recommendation.value;
    if ex.state == OPEN then db.decisions == [] && db.decisionValues == map[] && ex.decisionId == None
    else
      && |db.decisions| == 1
      && var d := db.decisions[0];
         && ex.decisionId == Some(d.id) && ex.state == d.resulting && d.recommendationId == rec.id && d.decidedBy != ""
         && (d.resulting == REJECTED <==> d.decisionType == REJECT)
         && db.decisionValues.Keys == {d.id}
         && Traceable(d.decisionType, db.decisionValues[d.id], rec.status, db.proposals, db.entry.value.values)
  }

  /** A received case: assessed, and either clean or opened as an exception with its recommendation. */
  ghost predicate CaseOk(env: Env, c: string, db: Tables)
    requires db.entry.Some?
  {
    var e := db.entry.value;
    && EntryClean(env, e.values)
    && db.validation.Some? && (db.validation.value.outcome == FAIL <==> e.outcome == EXCEPTION_OPENED)
    && HeadOk(c, db)
    && if e.outcome == VALIDATED_CLEAN then
         && db.exception == None && db.recommendation == None && db.proposals == []
         && db.decisions == [] && db.decisionValues == map[] && |db.trail| == 2
       else
         && db.validation.value.findingsCount >= 1
         && db.exception.Some? && db.recommendation.Some?
         && ProposalsOk(env, db.proposals) && (db.recommendation.value.status != AVAILABLE ==> db.proposals == [])
         && DecisionOk(db) && TailOk(db)
  }

  ghost predicate TablesOk(env: Env, c: string, db: Tables) {
    && WellChained(env.hash, db.trail)
    && (forall i :: 0 <= i < |db.trail| ==> db.trail[i].payload.caseId == c && RowsSound(db.trail[i].payload.values))
    && if db.entry.None? then db == NO_CASE else CaseOk(env, c, db)
  }

  // ---- the transactions ---------------------------------------------------

  /** The entry being appended at this point of a program. */
  function CurrentInput(c: string, program: Program): Option<AppendInput> {
    match program
    case Receipt(r, AppendReceived) => Some(ReceivedInput(c, r))
    case Receipt(r, AppendValidated) => Some(ValidatedInput(c, r))
    case Receipt(r, AppendOpened(ex, _)) => Some(OpenedInput(c, r, ex))
    case Job(ex, AppendGenerated(rec, entry, ps)) => Some(GeneratedInput(c, ex, rec, entry, ps))
    case Job(ex, AppendUnavailable(rec, _)) => Some(UnavailableInput(c, ex, rec))
    case Decide(ex, d, AppendDecision(rec, plan, id)) => Some(DecidedInput(c, ex, rec, id, d, plan))
    case _ => None
  }

  /** The entries already appended at this point of a program. */
  function PastInputs(c: string, program: Program): seq<AppendInput> {
    match program
    case Receipt(r, pc) =>
      (match pc
       case InsertEntry => []
       case LockEntry => []
       case AppendReceived => []
       case InsertValidation => [ReceivedInput(c, r)]
       case AppendValidated => [ReceivedInput(c, r)]
       case ReceiptCommit(Some(o)) => [ReceivedInput(c, r), ValidatedInput(c, r), OpenedInput(c, r, o.exceptionId)]
       case _ => [ReceivedInput(c, r), ValidatedInput(c, r)])
    case Job(ex, CommitAvailable(rec, entry, ps)) => [GeneratedInput(c, ex, rec, entry, ps)]
    case Job(ex, CommitUnavailable(rec, _)) => [UnavailableInput(c, ex, rec)]
    case Decide(ex, d, DecisionCommit(rec, plan, id)) => [DecidedInput(c, ex, rec, id, d, plan)]
    case _ => []
  }

  function StoredEntry(r: ReceiptRequest): Write {
    InsertEntryRow(EntryRow(StoredValues(r.submitted), OutcomeOf(r), r.principal))
  }

  function StoredValidation(r: ReceiptRequest): Write {
    InsertValidationRow(ValidationRow(r.evaluation.outcome, |r.evaluation.findings|))
  }

  /** The rows already written at this point of a program. */
  function PastRows(program: Program): seq<Write> {
    match program
    case Receipt(r, pc) =>
      (match pc
       case InsertEntry => []
       case LockEntry => [StoredEntry(r)]
       case AppendReceived => [StoredEntry(r)]
       case InsertValidation => [StoredEntry(r)]
       case AppendValidated => [StoredEntry(r), StoredValidation(r)]
       case InsertException => [StoredEntry(r), StoredValidation(r)]
       case InsertPlaceholder(ex) => [StoredEntry(r), StoredValidation(r), InsertExceptionRow(ex)]
       case AppendOpened(ex, rec) =>
         [StoredEntry(r), StoredValidation(r), InsertExceptionRow(ex), InsertPendingRecommendation(rec)]
       case ReceiptCommit(None) => [StoredEntry(r), StoredValidation(r)]
       case ReceiptCommit(Some(o)) =>
         [StoredEntry(r), StoredValidation(r), InsertExceptionRow(o.exceptionId),
          InsertPendingRecommendation(o.recommendationId)])
    case Job(_, pc) =>
      (match pc
       case InsertValues(_, _, _) => [UpdateRecommendation(AVAILABLE, None)]
       case AppendGenerated(_, _, ps) => [UpdateRecommendation(AVAILABLE, None)] + ProposalWrites(ps)
       case CommitAvailable(_, _, ps) => [UpdateRecommendation(AVAILABLE, None)] + ProposalWrites(ps)
       case AppendUnavailable(_, reason) => [UpdateRecommendation(UNAVAILABLE, Some(reason))]
       case CommitUnavailable(_, reason) => [UpdateRecommendation(UNAVAILABLE, Some(reason))]
       case _ => [])
    case Decide(_, d, pc) =>
      (match pc
       case InsertResolution(rec, plan, id) => [InsertDecisionRow(DecisionRowFor(d, rec, plan, id))]
       case CloseCase(rec, plan, id) =>
         [InsertDecisionRow(DecisionRowFor(d, rec, plan, id)), InsertDecisionValues(id, plan.values)]
       case AppendDecision(rec, plan, id) => DecisionWrites(d, rec, plan, id)
       case DecisionCommit(rec, plan, id) => DecisionWrites(d, rec, plan, id)
       case _ => [])
  }

  function ProposalWrites(ps: seq<Proposal>): seq<Write> {
    if ps == [] then [] else [InsertProposals(ps)]
  }

  function DecisionWrites(d: DecisionRequest, rec: string, plan: Plan, id: string): seq<Write> {
    [InsertDecisionRow(DecisionRowFor(d, rec, plan, id)), InsertDecisionValues(id, plan.values),
     UpdateException(plan.resulting, id)]
  }

  /** `e` records the acceptable input `entry`. */
  ghost predicate Told(env: Env, e: AuditEntry, entry: AppendInput) {
    && Validate(env, entry).Ok?
    && e.payload == PayloadOf(entry, Validate(env, entry).value, e.payload.sequence, e.payload.occurredAt)
    && OneRowPerField(e.payload.values)
  }

  ghost predicate AllTold(env: Env, audit: seq<AuditEntry>, inputs: seq<AppendInput>) {
    |audit| == |inputs| && forall i :: 0 <= i < |audit| ==> Told(env, audit[i], inputs[i])
  }

  /** The append in progress has read the number and the link that the case's rows dictate. */
  ghost predicate CursorOk(env: Env, rows: seq<AuditEntry>, tx: Tx, entry: Option<AppendInput>) {
    match tx.cursor
    case Idle => true
    case Checked(values) => entry.Some? && Validate(env, entry.value) == Ok(values)
    case Anchored(values) => entry.Some? && Validate(env, entry.value) == Ok(values) && CaseAnchor in tx.held
    case Numbered(values, n) =>
      entry.Some? && Validate(env, entry.value) == Ok(values) && CaseAnchor in tx.held && n == |rows| + 1
    case Linked(values, n, prev) =>
      entry.Some? && Validate(env, entry.value) == Ok(values) && CaseAnchor in tx.held && n == |rows| + 1
      && prev == LastHash(rows)
  }

  ghost predicate PlanOk(db: Tables, d: DecisionRequest, rec: string, plan: Plan)
    requires db.entry.Some? && db.exception.Some? && db.recommendation.Some?
  {
    && rec == db.recommendation.value.id
    && (plan.seen == AVAILABLE ==> db.recommendation.value.status == AVAILABLE)
    && MakePlan(d.body, plan.seen, db.proposals, db.entry.value.values) == Ok(plan)
  }

  ghost predicate ReceiptOk(db: Tables, tx: Tx, r: ReceiptRequest, pc: ReceiptPc) {
    && db.entry.None? && EntryKey in tx.held
    && match pc
       case InsertException => r.evaluation.outcome == FAIL
       case InsertPlaceholder(_) => r.evaluation.outcome == FAIL && |r.evaluation.findings| >= 1
       case AppendOpened(_, _) => r.evaluation.outcome == FAIL && |r.evaluation.findings| >= 1
       case ReceiptCommit(None) => r.evaluation.outcome == PASS
       case ReceiptCommit(Some(_)) => r.evaluation.outcome == FAIL && |r.evaluation.findings| >= 1
       case _ => true
  }

  predicate AllRealFields(ps: seq<Proposal>) {
    forall i :: 0 <= i < |ps| ==> ps[i].fieldName in ENTRY_FIELDS
  }

  /** Facts a job carries between its statements. */
  ghost predicate JobOk(db: Tables, tx: Tx, pc: JobPc)
    requires db.entry.Some? && db.recommendation.Some?
  {
    var rec, values := db.recommendation.value, db.entry.value.values;
    match pc
    case Precheck => true
    case ReadCase(id) => id == rec.id
    case Generate(id, entry) => id == rec.id && entry == values
    case MarkAvailable(id, entry, ps) => id == rec.id && entry == values && AllRealFields(ps)
    case MarkUnavailable(id, _) => id == rec.id
    case InsertValues(id, entry, ps) =>
      id == rec.id && entry == values && AllRealFields(ps) && RecommendationLock in tx.held && rec.status == PENDING
    case AppendGenerated(id, entry, ps) =>
      id == rec.id && entry == values && AllRealFields(ps) && ProposalsStorable(ps)
      && RecommendationLock in tx.held && rec.status == PENDING
    case CommitAvailable(id, entry, ps) =>
      id == rec.id && entry == values && AllRealFields(ps) && ProposalsStorable(ps)
      && RecommendationLock in tx.held && rec.status == PENDING
    case AppendUnavailable(id, _) => id == rec.id && RecommendationLock in tx.held && rec.status == PENDING
    case CommitUnavailable(id, _) => id == rec.id && RecommendationLock in tx.held && rec.status == PENDING
  }

  /** Past its first statement a decision holds the exception's row lock, and the case is open. */
  ghost predicate DecideOk(db: Tables, tx: Tx, d: DecisionRequest, pc: DecisionPc)
    requires db.entry.Some? && db.exception.Some? && db.recommendation.Some?
  {
    pc == LockCase ||
    ( && ExceptionLock in tx.held && db.exception.value.state == OPEN
      && match pc
         case LockCase => true
         case LoadRecommendation => true
         case Branch(rec, status) =>
           rec == db.recommendation.value.id && (status == AVAILABLE ==> db.recommendation.value.status == AVAILABLE)
         case LockAnchor(rec, plan) => PlanOk(db, d, rec, plan)
         case InsertDecision(rec, plan) => PlanOk(db, d, rec, plan)
         case InsertResolution(rec, plan, _) => PlanOk(db, d, rec, plan)
         case CloseCase(rec, plan, _) => PlanOk(db, d, rec, plan)
         case AppendDecision(rec, plan, _) => PlanOk(db, d, rec, plan)
         case DecisionCommit(rec, plan, _) => PlanOk(db, d, rec, plan) )
  }

  ghost predicate ProgramOk(db: Tables, tx: Tx) {
    match tx.program
    case Receipt(r, pc) => ReceiptOk(db, tx, r, pc)
    case Job(ex, pc) =>
      && db.entry.Some? && db.exception.Some? && db.recommendation.Some?
      && ex == db.exception.value.id && JobOk(db, tx, pc)
    case Decide(ex, d, pc) =>
      && db.entry.Some? && db.exception.Some? && db.recommendation.Some?
      && ex == db.exception.value.id && DecideOk(db, tx, d, pc)
  }

  /** A transaction with uncommitted audit rows holds the case's lock, and its rows continue the committed chain. */
  ghost predicate AuditOk(env: Env, c: string, db: Tables, tx: Tx) {
    && WellChained(env.hash, db.trail + tx.audit)
    && (tx.audit != [] ==> CaseAnchor in tx.held)
    && AllTold(env, tx.audit, PastInputs(c, tx.program))
    && (forall i :: 0 <= i < |tx.audit| ==> tx.audit[i].payload.occurredAt == tx.now)
    && CursorOk(env, db.trail + tx.audit, tx, CurrentInput(c, tx.program))
  }

  /** The locks a transaction holds at this point: these and no others. */
  function HeldAt(program: Program, cursor: Cursor): set<Lock> {
    match program
    case Receipt(_, pc) =>
      {EntryKey} + (if pc.InsertEntry? || pc.LockEntry? then {} else {CaseAnchor})
      + (if pc.ReceiptCommit? && pc.refs.Some? then {ExceptionLock} else {})
    case Job(_, pc) =>
      var anchored := if cursor.Anchored? || cursor.Numbered? || cursor.Linked? then {CaseAnchor} else {};
      (match pc
       case InsertValues(_, _, _) => {RecommendationLock}
       case AppendGenerated(_, _, _) => {RecommendationLock} + anchored
       case AppendUnavailable(_, _) => {RecommendationLock} + anchored
       case CommitAvailable(_, _, _) => {RecommendationLock, CaseAnchor, ExceptionLock}
       case CommitUnavailable(_, _) => {RecommendationLock, CaseAnchor, ExceptionLock}
       case _ => {})
    case Decide(_, _, pc) =>
      (match pc
       case LockCase => {}
       case LoadRecommendation => {ExceptionLock}
       case Branch(_, _) => {ExceptionLock}
       case LockAnchor(_, _) => {ExceptionLock}
       case _ => {ExceptionLock, CaseAnchor})
  }

  /** What a transaction has written, and what it knows. */
  ghost predicate WorkOk(env: Env, c: string, db: Tables, tx: Tx) {
    && AuditOk(env, c, db, tx)
    && tx.rows == PastRows(tx.program)
    && ProgramOk(db, tx)
  }

  ghost predicate TxOk(env: Env, c: string, db: Tables, tx: Tx) {
    WorkOk(env, c, db, tx) && tx.held == HeldAt(tx.program, tx.cursor)
  }

  ghost predicate LocksExclusive(active: map<nat, Tx>) {
    forall i, j :: i in active && j in active && i != j ==> active[i].held !! active[j].held
  }

  /** The invariant of the protocol. */
  ghost predicate Inv(env: Env, c: string, w: World) {
    && TablesOk(env, c, w.db)
    && (forall id :: id in w.active ==> TxOk(env, c, w.db, w.active[id]))
    && LocksExclusive(w.active)
  }
}
