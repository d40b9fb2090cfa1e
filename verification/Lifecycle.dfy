/** The life of one case under racing transactions: its committed tables, the transactions at work
    on it, and one move per SQL statement. */
module Lifecycle {
  import opened Text
  import opened HashChain
  import opened AuditWriter
  import opened Decisions
  import opened RuleEngine
  import Calendar

  // ---- the committed rows of one case -------------------------------------

  datatype ReceiptOutcome = VALIDATED_CLEAN | EXCEPTION_OPENED

  datatype FailureReason =
    | PROVIDER_TIMEOUT | PROVIDER_UNAVAILABLE | PROVIDER_RATE_LIMITED | PROVIDER_AUTH_FAILED
    | SCHEMA_INVALID | CONTENT_FILTERED | INTERNAL_ERROR

  datatype EntryRow = EntryRow(values: EntryValues, outcome: ReceiptOutcome, createdBy: string)

  datatype ValidationRow = ValidationRow(outcome: Outcome, findingsCount: nat)

  datatype ExceptionRow = ExceptionRow(id: string, state: CaseState, decisionId: Option<string>)

  datatype RecommendationRow = RecommendationRow(id: string, status: RecommendationStatus, failure: Option<FailureReason>)

  datatype DecisionRow = DecisionRow(
    id: string, decisionType: DecisionType, decidedBy: string, reason: Option<string>,
    recommendationId: string, resulting: CaseState, key: Option<string>)

  datatype Tables = Tables(
    entry: Option<EntryRow>, validation: Option<ValidationRow>,
    exception: Option<ExceptionRow>, recommendation: Option<RecommendationRow>, proposals: seq<Proposal>,
    decisions: seq<DecisionRow>, decisionValues: map<string, seq<DecisionValue>>,
    trail: seq<AuditEntry>)

  const NO_CASE := Tables(None, None, None, None, [], [], map[], [])

  // ---- uncommitted writes -------------------------------------------------

  datatype Write =
    | InsertEntryRow(entry: EntryRow)
    | InsertValidationRow(validation: ValidationRow)
    | InsertExceptionRow(exceptionId: string)
    | InsertPendingRecommendation(recommendationId: string)
    | UpdateRecommendation(status: RecommendationStatus, failure: Option<FailureReason>)
    | InsertProposals(proposals: seq<Proposal>)
    | InsertDecisionRow(decision: DecisionRow)
    | InsertDecisionValues(decisionId: string, values: seq<DecisionValue>)
    | UpdateException(state: CaseState, closedBy: string)

  function Apply(db: Tables, w: Write): Tables {
    match w
    case InsertEntryRow(e) => db.(entry := Some(e))
    case InsertValidationRow(v) => db.(validation := Some(v))
    case InsertExceptionRow(id) => db.(exception := Some(ExceptionRow(id, OPEN, None)))
    case InsertPendingRecommendation(id) => db.(recommendation := Some(RecommendationRow(id, PENDING, None)))
    case UpdateRecommendation(status, failure) =>
      if db.recommendation.None? then db
      else db.(recommendation := Some(db.recommendation.value.(status := status, failure := failure)))
    case InsertProposals(ps) => db.(proposals := db.proposals + ps)
    case InsertDecisionRow(d) => db.(decisions := db.decisions + [d])
    case InsertDecisionValues(id, vs) =>
      db.(decisionValues := db.decisionValues[id := (if id in db.decisionValues then db.decisionValues[id] else []) + vs])
    case UpdateException(state, id) =>
      if db.exception.None? then db
      else db.(exception := Some(db.exception.value.(state := state, decisionId := Some(id))))
  }

  function ApplyAll(db: Tables, ws: seq<Write>): Tables {
    if ws == [] then db else Apply(ApplyAll(db, ws[..|ws| - 1]), ws[|ws| - 1])
  }

  // ---- what transactions are asked to do ----------------------------------

  datatype ReceiptRequest = ReceiptRequest(
    principal: string, requestId: Option<string>, submitted: EntryValues, evaluation: Evaluation)

  datatype DecisionRequest = DecisionRequest(
    principal: string, requestId: Option<string>, body: Body, key: Option<string>)

  datatype ProviderReply = Success(proposed: seq<Proposal>) | Failure(reason: FailureReason) | Throws

  /** What a statement may meet outside the case: a generated id, a clock reading, a provider's answer, another case that
      has the entry number already. */
  datatype Outside = Outside(id: string, now: string, reply: ProviderReply, numberTaken: bool)

  datatype ReceiptPc =
    | InsertEntry
    | LockEntry
    | AppendReceived
    | InsertValidation
    | AppendValidated
    | InsertException
    | InsertPlaceholder(exceptionId: string)
    | AppendOpened(exceptionId: string, recommendationId: string)
    | ReceiptCommit(refs: Option<Opened>)

  datatype Opened = Opened(exceptionId: string, recommendationId: string)

  datatype JobPc =
    | Precheck
    | ReadCase(recommendationId: string)
    | Generate(recommendationId: string, entry: EntryValues)
    | MarkAvailable(recommendationId: string, entry: EntryValues, proposals: seq<Proposal>)
    | InsertValues(recommendationId: string, entry: EntryValues, proposals: seq<Proposal>)
    | AppendGenerated(recommendationId: string, entry: EntryValues, proposals: seq<Proposal>)
    | CommitAvailable(recommendationId: string, entry: EntryValues, proposals: seq<Proposal>)
    | MarkUnavailable(recommendationId: string, reason: FailureReason)
    | AppendUnavailable(recommendationId: string, reason: FailureReason)
    | CommitUnavailable(recommendationId: string, reason: FailureReason)

  datatype DecisionPc =
    | LockCase
    | LoadRecommendation
    | Branch(recommendationId: string, status: RecommendationStatus)
    | LockAnchor(recommendationId: string, plan: Plan)
    | InsertDecision(recommendationId: string, plan: Plan)
    | InsertResolution(recommendationId: string, plan: Plan, decisionId: string)
    | CloseCase(recommendationId: string, plan: Plan, decisionId: string)
    | AppendDecision(recommendationId: string, plan: Plan, decisionId: string)
    | DecisionCommit(recommendationId: string, plan: Plan, decisionId: string)

  datatype Program =
    | Receipt(receipt: ReceiptRequest, receiptPc: ReceiptPc)
    | Job(exceptionId: string, jobPc: JobPc)
    | Decide(exceptionId: string, decision: DecisionRequest, decisionPc: DecisionPc)

  /** Row locks, held until the transaction ends. `EntryKey` is the key of a freshly inserted entry. The exception's row
      is locked by a decision for update, and for key share by the foreign key of an audit entry that names the exception;
      the two exclude each other, and two key shares never meet since only the holder of the case anchor inserts entries. */
  datatype Lock = EntryKey | CaseAnchor | ExceptionLock | RecommendationLock

  /** How far the current `append` has come. */
  datatype Cursor =
    | Idle
    | Checked(values: seq<AuditValue>)
    | Anchored(values: seq<AuditValue>)
    | Numbered(values: seq<AuditValue>, n: nat)
    | Linked(values: seq<AuditValue>, n: nat, prev: Digest)

  /** One client at work: what it does next, what it has written but not committed, what it holds. */
  datatype Tx = Tx(
    program: Program, rows: seq<Write>, audit: seq<AuditEntry>,
    held: set<Lock>, cursor: Cursor, now: string)

  // ---- the audit entries --------------------------------------------------

  function Provided(submitted: EntryValues): seq<string> {
    ProvidedAmong(submitted, ENTRY_FIELDS)
  }

  function ProvidedAmong(submitted: EntryValues, fields: seq<string>): seq<string> {
    if fields == [] then [] else
      (if fields[0] in submitted then [fields[0]] else []) + ProvidedAmong(submitted, fields[1..])
  }

  function SubmittedRows(submitted: EntryValues, provided: seq<string>): (rows: seq<AppendValue>)
    ensures |rows| == |provided|
  {
    seq(|provided|, i requires 0 <= i < |provided| =>
      AppendValue(provided[i], None, None,
                  if provided[i] in submitted then Some(submitted[provided[i]]) else None, Some(HUMAN)))
  }

  function FindingRows(findings: seq<Finding>): (rows: seq<AppendValue>)
    ensures |rows| == |findings|
  {
    seq(|findings|, i requires 0 <= i < |findings| =>
      AppendValue(findings[i].fieldName, None, None,
                  Some(findings[i].failureCode + ": " + findings[i].message), Some(HUMAN)))
  }

  /** A mistyped arrival date is kept in the trail and stored as absent. */
  function StoredValues(submitted: EntryValues): EntryValues {
    if "arrival_date" in submitted && !Calendar.IsCalendarDate(submitted["arrival_date"]) then
      submitted - {"arrival_date"}
    else submitted
  }

  /** The most characters the text columns of an entry hold. */
  const COLUMN_WIDTHS: map<string, nat> := map[
    "entry_number" := 20, "importer_of_record_id" := 20, "port_of_entry_code" := 8, "mode_of_transport" := 16,
    "carrier_code" := 8, "conveyance_name" := 100, "bill_of_lading_number" := 40, "air_waybill_number" := 20,
    "country_of_origin_code" := 4, "goods_description" := 2000, "quantity_uom" := 8]

  predicate ColumnsHold(values: EntryValues) {
    forall f :: f in COLUMN_WIDTHS && f in values ==> |values[f]| <= COLUMN_WIDTHS[f]
  }

  /** Another case has this entry number. */
  predicate Duplicate(r: ReceiptRequest, numberTaken: bool) {
    numberTaken && "entry_number" in r.submitted
  }

  /** The checks on a validation and its findings: counts that agree with the outcome, messages of 1 to 500 characters,
      one finding for each rule, ids of three digits. */
  predicate EvaluationStorable(e: Evaluation) {
    && |e.findings| <= e.evaluatedCount && (e.outcome == PASS <==> e.findings == [])
    && (forall i :: 0 <= i < |e.findings| ==> 1 <= |e.findings[i].message| <= 500 && e.findings[i].ruleId < 1000)
    && (forall i, j :: 0 <= i < j < |e.findings| ==> e.findings[i].ruleId != e.findings[j].ruleId)
  }

  function OutcomeOf(r: ReceiptRequest): ReceiptOutcome {
    if r.evaluation.outcome == FAIL then EXCEPTION_OPENED else VALIDATED_CLEAN
  }

  function OutcomeText(o: ReceiptOutcome): string {
    match o
    case VALIDATED_CLEAN => "VALIDATED_CLEAN"
    case EXCEPTION_OPENED => "EXCEPTION_OPENED"
  }

  function StateText(s: CaseState): string {
    match s
    case OPEN => "OPEN"
    case RESOLVED => "RESOLVED"
    case REJECTED => "REJECTED"
  }

  function ReceivedInput(c: string, r: ReceiptRequest): AppendInput {
    AppendInput(c, None, None, None, EntryReceived, Specialist(r.principal), None, "RECEIVED", None,
                SubmittedRows(r.submitted, Provided(r.submitted)), r.requestId)
  }

  function ValidatedInput(c: string, r: ReceiptRequest): AppendInput {
    AppendInput(c, None, None, None, ValidationCompleted, System(r.principal), Some("RECEIVED"),
                OutcomeText(OutcomeOf(r)), None, FindingRows(r.evaluation.findings), r.requestId)
  }

  function OpenedInput(c: string, r: ReceiptRequest, exceptionId: string): AppendInput {
    AppendInput(c, Some(exceptionId), None, None, ExceptionOpened, System(r.principal), None, "OPEN", None,
                FindingRows(r.evaluation.findings), r.requestId)
  }

  function ProposalRows(entry: EntryValues, ps: seq<Proposal>): (rows: seq<AppendValue>)
    ensures |rows| == |ps|
  {
    seq(|ps|, i requires 0 <= i < |ps| =>
      var before := if ps[i].fieldName in entry then Some(entry[ps[i].fieldName]) else None;
      AppendValue(ps[i].fieldName, before, if before.Some? then Some(HUMAN) else None, Some(ps[i].value), Some(AI)))
  }

  function GeneratedInput(c: string, exceptionId: string, recommendationId: string, entry: EntryValues,
                          ps: seq<Proposal>): AppendInput {
    AppendInput(c, Some(exceptionId), Some(recommendationId), None, RecommendationGenerated, Ai,
                Some("PENDING"), "AVAILABLE", None, ProposalRows(entry, ps), None)
  }

  function UnavailableInput(c: string, exceptionId: string, recommendationId: string): AppendInput {
    AppendInput(c, Some(exceptionId), Some(recommendationId), None, Action.RecommendationUnavailable, Ai,
                Some("PENDING"), "UNAVAILABLE", None, [], None)
  }

  function DecidedInput(c: string, exceptionId: string, recommendationId: string, decisionId: string,
                        d: DecisionRequest, plan: Plan): AppendInput {
    AppendInput(c, Some(exceptionId), Some(recommendationId), Some(decisionId), plan.action, Specialist(d.principal),
                Some("OPEN"), StateText(plan.resulting), plan.reason, plan.auditValues, d.requestId)
  }

  // ---- one statement ------------------------------------------------------

  datatype Effect =
    | Continue(tx: Tx)
    | Commit
    | Fail(error: Option<WriteError>)

  /** The entry this program is appending names the exception. */
  predicate NamesException(program: Program) {
    match program
    case Receipt(_, pc) => pc.AppendOpened?
    case _ => true
  }

  /** The row lock the next statement takes. */
  function WantedLock(tx: Tx): Option<Lock> {
    if tx.cursor.Checked? then Some(CaseAnchor)
    else if tx.cursor.Linked? && NamesException(tx.program) then Some(ExceptionLock)
    else match tx.program {
      case Receipt(_, LockEntry) => Some(CaseAnchor)
      case Job(_, MarkAvailable(_, _, _)) => Some(RecommendationLock)
      case Job(_, MarkUnavailable(_, _)) => Some(RecommendationLock)
      case Decide(_, _, LockCase) => Some(ExceptionLock)
      case Decide(_, _, LockAnchor(_, _)) => Some(CaseAnchor)
      case _ => None
    }
  }

  /** One statement of `append`: check, lock the case, number, link, insert. */
  function AppendStep(env: Env, db: Tables, tx: Tx, entry: AppendInput, next: Program): Effect {
    var rows := db.trail + tx.audit;
    match tx.cursor
    case Idle =>
      (match Validate(env, entry)
       case Err(e) => Fail(Some(e))
       case Ok(values) => Continue(tx.(cursor := Checked(values))))
    case Checked(values) => Continue(tx.(cursor := Anchored(values), held := tx.held + {CaseAnchor}))
    case Anchored(values) => Continue(tx.(cursor := Numbered(values, MaxSequence(rows) + 1)))
    case Numbered(values, n) =>
      if n == 0 then Fail(None)
      else
        (match PrevHash(rows, n)
         case None => Fail(Some(SequenceConflict))
         case Some(prev) => Continue(tx.(cursor := Linked(values, n, prev))))
    case Linked(values, n, prev) =>
      if RowNumbered(rows, n).Some? then Fail(Some(SequenceConflict))
      else if !OneRowPerField(values) then Fail(Some(RepeatedField))
      else
        var e := MakeEntry(env, PayloadOf(entry, values, n, tx.now), prev);
        Continue(tx.(cursor := Idle, audit := tx.audit + [e], program := next,
                     held := tx.held + if entry.exceptionId.Some? then {ExceptionLock} else {}))
  }

  function Goto(tx: Tx, program: Program, ws: seq<Write>): Effect {
    Continue(tx.(program := program, rows := tx.rows + ws))
  }

  function ReceiptStep(env: Env, c: string, db: Tables, tx: Tx, r: ReceiptRequest, pc: ReceiptPc, x: Outside): Effect {
    match pc
    case InsertEntry =>
      if !ColumnsHold(StoredValues(r.submitted)) || Duplicate(r, x.numberTaken) then Fail(None)
      else Goto(tx, Receipt(r, LockEntry), [InsertEntryRow(EntryRow(StoredValues(r.submitted), OutcomeOf(r), r.principal))])
    case LockEntry => Continue(tx.(program := Receipt(r, AppendReceived), held := tx.held + {CaseAnchor}))
    case AppendReceived => AppendStep(env, db, tx, ReceivedInput(c, r), Receipt(r, InsertValidation))
    case InsertValidation =>
      if !EvaluationStorable(r.evaluation) then Fail(None)
      else
        Goto(tx, Receipt(r, AppendValidated),
             [InsertValidationRow(ValidationRow(r.evaluation.outcome, |r.evaluation.findings|))])
    case AppendValidated =>
      AppendStep(env, db, tx, ValidatedInput(c, r),
                 Receipt(r, if r.evaluation.outcome == FAIL then InsertException else ReceiptCommit(None)))
    case InsertException =>
      if |r.evaluation.findings| < 1 then Fail(None)
      else Goto(tx, Receipt(r, InsertPlaceholder(x.id)), [InsertExceptionRow(x.id)])
    case InsertPlaceholder(ex) =>
      Goto(tx, Receipt(r, AppendOpened(ex, x.id)), [InsertPendingRecommendation(x.id)])
    case AppendOpened(ex, rec) =>
      AppendStep(env, db, tx, OpenedInput(c, r, ex), Receipt(r, ReceiptCommit(Some(Opened(ex, rec)))))
    case ReceiptCommit(_) => Commit
  }

  /** The proposals whose field is an entry field. */
  function RealFields(ps: seq<Proposal>): (r: seq<Proposal>)
    ensures forall i :: 0 <= i < |r| ==> r[i].fieldName in ENTRY_FIELDS
  {
    if ps == [] then [] else
      (if ps[0].fieldName in ENTRY_FIELDS then [ps[0]] else []) + RealFields(ps[1..])
  }

  function JobStep(env: Env, c: string, db: Tables, tx: Tx, ex: string, pc: JobPc, x: Outside): Effect {
    match pc
    case Precheck =>
      if db.recommendation.None? || db.recommendation.value.status != PENDING then Commit
      else Goto(tx, Job(ex, ReadCase(db.recommendation.value.id)), [])
    case ReadCase(rec) =>
      if db.entry.None? || db.exception.None? || db.validation.None? then Commit
      else Goto(tx, Job(ex, Generate(rec, db.entry.value.values)), [])
    case Generate(rec, entry) =>
      (match x.reply
       case Success(ps) => Goto(tx, Job(ex, MarkAvailable(rec, entry, RealFields(ps))), [])
       case Failure(reason) => Goto(tx, Job(ex, MarkUnavailable(rec, reason)), [])
       case Throws => Fail(None))
    case MarkAvailable(rec, entry, ps) =>
      if db.recommendation.None? || db.recommendation.value.status != PENDING then Commit
      else
        Continue(tx.(program := Job(ex, InsertValues(rec, entry, ps)), held := tx.held + {RecommendationLock},
                     rows := tx.rows + [UpdateRecommendation(AVAILABLE, None)]))
    case InsertValues(rec, entry, ps) =>
      if !ProposalsStorable(ps) then Fail(None)
      else Goto(tx, Job(ex, AppendGenerated(rec, entry, ps)), if ps == [] then [] else [InsertProposals(ps)])
    case AppendGenerated(rec, entry, ps) =>
      var effect := AppendStep(env, db, tx, GeneratedInput(c, ex, rec, entry, ps), Job(ex, CommitAvailable(rec, entry, ps)));
      if effect == Fail(Some(ForbiddenContent)) then
        Continue(Tx(Job(ex, MarkUnavailable(rec, CONTENT_FILTERED)), [], [], {}, Idle, x.now))
      else effect
    case MarkUnavailable(rec, reason) =>
      if db.recommendation.None? || db.recommendation.value.status != PENDING then Commit
      else
        Continue(tx.(program := Job(ex, AppendUnavailable(rec, reason)), held := tx.held + {RecommendationLock},
                     rows := tx.rows + [UpdateRecommendation(UNAVAILABLE, Some(reason))]))
    case AppendUnavailable(rec, reason) =>
      AppendStep(env, db, tx, UnavailableInput(c, ex, rec), Job(ex, CommitUnavailable(rec, reason)))
    case CommitAvailable(_, _, _) => Commit
    case CommitUnavailable(_, _) => Commit
  }

  function DecisionStep(env: Env, c: string, db: Tables, tx: Tx, ex: string, d: DecisionRequest, pc: DecisionPc,
                        x: Outside): Effect {
    match pc
    case LockCase =>
      if db.exception.None? || db.exception.value.state != OPEN then Fail(None)
      else Continue(tx.(program := Decide(ex, d, LoadRecommendation), held := tx.held + {ExceptionLock}))
    case LoadRecommendation =>
      if db.recommendation.None? then Fail(None)
      else
        var rec := db.recommendation.value;
        if d.body.recommendationId.Some? && d.body.recommendationId.value != rec.id then Fail(None)
        else Goto(tx, Decide(ex, d, Branch(rec.id, rec.status)), [])
    case Branch(rec, status) =>
      if db.entry.None? then Fail(None)
      else
        (match MakePlan(d.body, status, db.proposals, db.entry.value.values)
         case Err(_) => Fail(None)
         case Ok(plan) => Goto(tx, Decide(ex, d, LockAnchor(rec, plan)), []))
    case LockAnchor(rec, plan) =>
      Continue(tx.(program := Decide(ex, d, InsertDecision(rec, plan)), held := tx.held + {CaseAnchor}))
    case InsertDecision(rec, plan) =>
      if !ReasonStorable(plan.decisionType, plan.reason) then Fail(None)
      else Goto(tx, Decide(ex, d, InsertResolution(rec, plan, x.id)), [InsertDecisionRow(DecisionRowFor(d, rec, plan, x.id))])
    case InsertResolution(rec, plan, id) =>
      if !ValuesStorable(plan.values) then Fail(None)
      else Goto(tx, Decide(ex, d, CloseCase(rec, plan, id)), [InsertDecisionValues(id, plan.values)])
    case CloseCase(rec, plan, id) =>
      Goto(tx, Decide(ex, d, AppendDecision(rec, plan, id)), [UpdateException(plan.resulting, id)])
    case AppendDecision(rec, plan, id) =>
      AppendStep(env, db, tx, DecidedInput(c, ex, rec, id, d, plan), Decide(ex, d, DecisionCommit(rec, plan, id)))
    case DecisionCommit(_, _, _) => Commit
  }

  function DecisionRowFor(d: DecisionRequest, rec: string, plan: Plan, id: string): DecisionRow {
    DecisionRow(id, plan.decisionType, d.principal, plan.reason, rec, plan.resulting, d.key)
  }

  /** The next statement of a transaction against the committed rows and its own writes. */
  function Statement(env: Env, c: string, db: Tables, tx: Tx, x: Outside): Effect {
    match tx.program
    case Receipt(r, pc) => ReceiptStep(env, c, db, tx, r, pc, x)
    case Job(ex, pc) => JobStep(env, c, db, tx, ex, pc, x)
    case Decide(ex, d, pc) => DecisionStep(env, c, db, tx, ex, d, pc, x)
  }

  /** COMMIT publishes a transaction's rows and audit entries together. */
  function Publish(db: Tables, tx: Tx): Tables {
    var rows := ApplyAll(db, tx.rows);
    rows.(trail := rows.trail + tx.audit)
  }

  // ---- moves --------------------------------------------------------------

  /** The committed rows of a case and the transactions at work on it. */
  datatype World = World(db: Tables, active: map<nat, Tx>)

  const START := World(NO_CASE, map[])

  datatype Event =
    | Begin(id: nat, program: Program, now: string)
    | Run(id: nat, outside: Outside)
    | Rollback(id: nat)

  predicate LockFree(w: World, id: nat, lock: Lock) {
    forall other :: other in w.active && other != id ==> lock !in w.active[other].held
  }

  function InitialLocks(program: Program): set<Lock> {
    if program.Receipt? then {EntryKey} else {}
  }

  /** A receipt starts on a fresh entry; a job or a decision on an exception already committed. */
  predicate MayBegin(w: World, id: nat, program: Program) {
    match program
    case Receipt(_, pc) => pc == InsertEntry && w.db.entry.None? && LockFree(w, id, EntryKey)
    case Job(ex, pc) => pc == Precheck && w.db.exception.Some? && w.db.exception.value.id == ex
    case Decide(ex, _, pc) => pc == LockCase && w.db.exception.Some? && w.db.exception.value.id == ex
  }

  predicate Enabled(w: World, ev: Event) {
    match ev
    case Begin(id, program, _) => id !in w.active && MayBegin(w, id, program)
    case Run(id, _) =>
      id in w.active && (WantedLock(w.active[id]).Some? ==> LockFree(w, id, WantedLock(w.active[id]).value))
    case Rollback(id) => id in w.active
  }

  /** One move: a transaction begins, runs one statement, or is rolled back (by an error, a timeout, a lost client). */
  function Move(env: Env, c: string, w: World, ev: Event): World
    requires Enabled(w, ev)
  {
    match ev
    case Begin(id, program, now) =>
      w.(active := w.active[id := Tx(program, [], [], InitialLocks(program), Idle, now)])
    case Rollback(id) => w.(active := w.active - {id})
    case Run(id, x) =>
      (match Statement(env, c, w.db, w.active[id], x)
       case Continue(tx) => w.(active := w.active[id := tx])
       case Commit => World(Publish(w.db, w.active[id]), w.active - {id})
       case Fail(_) => w.(active := w.active - {id}))
  }

  /** Worlds reached one after another, each by one enabled move. */
  ghost predicate IsRun(env: Env, c: string, run: seq<World>) {
    run != [] && run[0] == START && forall i :: 0 <= i < |run| - 1 ==> Follows(env, c, run[i], run[i + 1])
  }

  ghost predicate Follows(env: Env, c: string, w: World, w': World) {
    exists ev :: Enabled(w, ev) && Move(env, c, w, ev) == w'
  }
}
