/** Every statement keeps its own transaction's part of the invariant. */
module CaseSteps {
  import opened Text
  import opened HashChain
  import opened AuditWriter
  import opened Decisions
  import opened RuleEngine
  import opened Lifecycle
  import opened CaseInvariant

  /** A statement takes at most the lock it waited for. */
  predicate TakesAtMost(tx: Tx, lock: Option<Lock>, tx': Tx) {
    tx.held <= tx'.held <= tx.held + if lock.Some? then {lock.value} else {}
  }

  // ---- statements of `append` ---------------------------------------------

  lemma InsertKeepsAudit(env: Env, c: string, db: Tables, tx: Tx, entry: AppendInput, next: Program, e: AuditEntry,
                         more: set<Lock>)
    requires AuditOk(env, c, db, tx) && tx.cursor.Linked? && CurrentInput(c, tx.program) == Some(entry)
    requires PastInputs(c, next) == PastInputs(c, tx.program) + [entry]
    requires e == MakeEntry(env, PayloadOf(entry, tx.cursor.values, tx.cursor.n, tx.now), tx.cursor.prev)
    requires OneRowPerField(tx.cursor.values)
    ensures AuditOk(env, c, db, tx.(cursor := Idle, audit := tx.audit + [e], program := next, held := tx.held + more))
  {
    hide MaxSequence, RowNumbered, Validate, OneRowPerField, WellChained, AllTold, Told, PastInputs, EntryHash;
    var rows := db.trail + tx.audit;
    var tx' := tx.(cursor := Idle, audit := tx.audit + [e], program := next, held := tx.held + more);
    ChainExtends(env.hash, rows, e.payload);
    assert db.trail + tx'.audit == rows + [e];
    OneMoreTold(env, tx.audit, PastInputs(c, tx.program), e, entry, tx.now);
  }

  lemma OneMoreTold(env: Env, audit: seq<AuditEntry>, inputs: seq<AppendInput>, e: AuditEntry, entry: AppendInput, now: string)
    requires AllTold(env, audit, inputs) && Validate(env, entry).Ok? && OneRowPerField(Validate(env, entry).value)
    requires e.payload == PayloadOf(entry, Validate(env, entry).value, e.payload.sequence, now)
    ensures AllTold(env, audit + [e], inputs + [entry]) && e.payload.occurredAt == now
  {
    hide Validate, OneRowPerField;
  }

  /** A statement of `append` continues the committed chain; only the check itself or the key of the value rows can
      refuse the entry. */
  lemma AppendStepKeeps(env: Env, c: string, db: Tables, tx: Tx, entry: AppendInput, next: Program)
    requires AuditOk(env, c, db, tx) && CurrentInput(c, tx.program) == Some(entry)
    requires PastInputs(c, next) == PastInputs(c, tx.program) + [entry]
    ensures var effect := AppendStep(env, db, tx, entry, next);
            && !effect.Commit?
            && (effect.Fail? ==>
                  (tx.cursor == Idle && effect.error.Some? && Validate(env, entry) == Err(effect.error.value)) ||
                  (tx.cursor.Linked? && effect.error == Some(RepeatedField) && !OneRowPerField(tx.cursor.values)))
            && (effect.Continue? ==>
                  && AuditOk(env, c, db, effect.tx)
                  && effect.tx.rows == tx.rows && effect.tx.now == tx.now
                  && (effect.tx.program == next || effect.tx.program == tx.program)
                  && effect.tx.held == tx.held + (if tx.cursor.Checked? then {CaseAnchor} else {})
                                               + (if tx.cursor.Linked? && entry.exceptionId.Some? then {ExceptionLock} else {}))
  {
    hide MaxSequence, RowNumbered, PrevHash, Validate, WellChained, PastInputs, CurrentInput, MakeEntry, AllTold, OneRowPerField;
    ChainedNumbers(env.hash, db.trail + tx.audit);
    if tx.cursor.Linked? && OneRowPerField(tx.cursor.values) {
      var e := MakeEntry(env, PayloadOf(entry, tx.cursor.values, tx.cursor.n, tx.now), tx.cursor.prev);
      InsertKeepsAudit(env, c, db, tx, entry, next, e, if entry.exceptionId.Some? then {ExceptionLock} else {});
    }
  }

  /** The first `n` statements of an append, with nobody else committing in between. */
  function AppendRun(env: Env, db: Tables, tx: Tx, entry: AppendInput, next: Program, n: nat): Effect {
    if n == 0 then Continue(tx)
    else match AppendRun(env, db, tx, entry, next, n - 1) {
      case Continue(tx') => AppendStep(env, db, tx', entry, next)
      case effect => effect
    }
  }

  /** The five statements together are the one atomic append: same entry, and the case's lock is kept. */
  lemma AppendRunIsAtomic(env: Env, db: Tables, tx: Tx, entry: AppendInput, next: Program)
    requires tx.cursor == Idle && WellChained(env.hash, db.trail + tx.audit)
    ensures var atomic := NextEntry(env, db.trail + tx.audit, entry, tx.now);
            AppendRun(env, db, tx, entry, next, 5) ==
              if atomic.Err? then Fail(Some(atomic.error))
              else
                Continue(tx.(held := tx.held + {CaseAnchor} + (if entry.exceptionId.Some? then {ExceptionLock} else {}),
                             audit := tx.audit + [atomic.value], program := next))
  {
    hide MaxSequence, RowNumbered, PrevHash, Validate, WellChained, MakeEntry, OneRowPerField;
    var rows := db.trail + tx.audit;
    ChainedNumbers(env.hash, rows);
    AppendKeepsChain(env, rows, entry, tx.now);
    var v := Validate(env, entry);
    if v.Err? {
      assert AppendRun(env, db, tx, entry, next, 1) == Fail(Some(v.error));
      assert AppendRun(env, db, tx, entry, next, 3) == Fail(Some(v.error));
    } else {
      var n := |rows| + 1;
      var t1 := tx.(cursor := Checked(v.value));
      assert AppendRun(env, db, tx, entry, next, 1) == Continue(t1);
      var t2 := t1.(cursor := Anchored(v.value), held := tx.held + {CaseAnchor});
      assert AppendRun(env, db, tx, entry, next, 2) == Continue(t2);
      var t3 := t2.(cursor := Numbered(v.value, n));
      assert AppendRun(env, db, tx, entry, next, 3) == Continue(t3);
      var t4 := t3.(cursor := Linked(v.value, n, LastHash(rows)));
      assert AppendRun(env, db, tx, entry, next, 4) == Continue(t4);
    }
  }

  // ---- other statements ---------------------------------------------------

  /** A statement of `append` takes the lock it waited for: the case anchor, and the exception's row with an entry that
      names it. */
  lemma AppendTakes(env: Env, c: string, db: Tables, tx: Tx, entry: AppendInput, next: Program)
    requires AuditOk(env, c, db, tx) && CurrentInput(c, tx.program) == Some(entry)
    requires PastInputs(c, next) == PastInputs(c, tx.program) + [entry]
    ensures var effect := AppendStep(env, db, tx, entry, next);
            && !effect.Commit?
            && (effect.Continue? ==>
                  && AuditOk(env, c, db, effect.tx) && TakesAtMost(tx, WantedLock(tx), effect.tx)
                  && effect.tx.rows == tx.rows && effect.tx.now == tx.now
                  && (effect.tx.program == next || effect.tx.program == tx.program))
  {
    hide AuditOk, AppendStep, PastInputs;
    AppendStepKeeps(env, c, db, tx, entry, next);
    InputNames(c, tx.program);
  }

  lemma InputNames(c: string, program: Program)
    ensures CurrentInput(c, program).Some? ==>
              (CurrentInput(c, program).value.exceptionId.Some? <==> NamesException(program))
  {
    hide SubmittedRows, FindingRows, ProposalRows, Provided, OutcomeText, OutcomeOf, StateText;
  }

  /** Outside an append a statement leaves the audit rows alone. */
  lemma AuditFrame(env: Env, c: string, db: Tables, tx: Tx, tx': Tx)
    requires AuditOk(env, c, db, tx) && CurrentInput(c, tx.program).None?
    requires tx'.audit == tx.audit && tx'.now == tx.now && tx'.cursor == tx.cursor && tx.held <= tx'.held
    requires PastInputs(c, tx'.program) == PastInputs(c, tx.program)
    ensures AuditOk(env, c, db, tx') && tx.cursor == Idle
  {
    hide WellChained, AllTold, PastInputs, CurrentInput;
  }

  /** A transaction that has not appended yet is in order on any chained trail. */
  lemma FreshAudit(env: Env, c: string, db: Tables, tx: Tx)
    requires WellChained(env.hash, db.trail) && tx.audit == [] && tx.cursor == Idle && PastInputs(c, tx.program) == []
    ensures AuditOk(env, c, db, tx)
  {
    hide WellChained, PastInputs, CurrentInput;
    assert db.trail + tx.audit == db.trail;
  }

  lemma ReceiptStepKeeps(env: Env, c: string, db: Tables, tx: Tx, x: Outside)
    requires tx.program.Receipt? && WorkOk(env, c, db, tx)
    ensures var effect := Statement(env, c, db, tx, x);
            effect.Continue? ==> WorkOk(env, c, db, effect.tx) && TakesAtMost(tx, WantedLock(tx), effect.tx)
  {
    hide AuditOk, AppendStep, ReceivedInput, ValidatedInput, OpenedInput, OutcomeOf;
    var r, pc := tx.program.receipt, tx.program.receiptPc;
    var effect := Statement(env, c, db, tx, x);
    match pc
    case AppendReceived => AppendTakes(env, c, db, tx, ReceivedInput(c, r), Receipt(r, InsertValidation));
    case AppendValidated =>
      AppendTakes(env, c, db, tx, ValidatedInput(c, r),
                  Receipt(r, if r.evaluation.outcome == FAIL then InsertException else ReceiptCommit(None)));
    case AppendOpened(ex, rec) =>
      AppendTakes(env, c, db, tx, OpenedInput(c, r, ex), Receipt(r, ReceiptCommit(Some(Opened(ex, rec)))));
    case ReceiptCommit(_) =>
    case _ =>
      if effect.Continue? {
        AuditFrame(env, c, db, tx, effect.tx);
      }
  }

  lemma JobStepKeeps(env: Env, c: string, db: Tables, tx: Tx, x: Outside)
    requires tx.program.Job? && WorkOk(env, c, db, tx) && WellChained(env.hash, db.trail)
    ensures var effect := Statement(env, c, db, tx, x);
            effect.Continue? ==>
              WorkOk(env, c, db, effect.tx) && (effect.tx.held == {} || TakesAtMost(tx, WantedLock(tx), effect.tx))
  {
    hide AuditOk, AppendStep, GeneratedInput, UnavailableInput, WellChained, ProposalsStorable, RealFields;
    var ex, pc := tx.program.exceptionId, tx.program.jobPc;
    var effect := Statement(env, c, db, tx, x);
    match pc
    case AppendGenerated(rec, entry, ps) =>
      AppendTakes(env, c, db, tx, GeneratedInput(c, ex, rec, entry, ps), Job(ex, CommitAvailable(rec, entry, ps)));
      FreshAudit(env, c, db, Tx(Job(ex, MarkUnavailable(rec, CONTENT_FILTERED)), [], [], {}, Idle, x.now));
    case AppendUnavailable(rec, reason) =>
      AppendTakes(env, c, db, tx, UnavailableInput(c, ex, rec), Job(ex, CommitUnavailable(rec, reason)));
    case CommitAvailable(_, _, _) =>
    case CommitUnavailable(_, _) =>
    case _ =>
      if effect.Continue? {
        AuditFrame(env, c, db, tx, effect.tx);
      }
  }

  lemma PlanSees(body: Body, status: RecommendationStatus, ps: seq<Proposal>, entry: EntryValues)
    requires MakePlan(body, status, ps, entry).Ok?
    ensures MakePlan(body, status, ps, entry).value.seen == status
  {}

  lemma DecisionStepKeeps(env: Env, c: string, db: Tables, tx: Tx, x: Outside)
    requires tx.program.Decide? && WorkOk(env, c, db, tx)
    ensures var effect := Statement(env, c, db, tx, x);
            effect.Continue? ==> WorkOk(env, c, db, effect.tx) && TakesAtMost(tx, WantedLock(tx), effect.tx)
  {
    hide AuditOk, AppendStep, DecidedInput, MakePlan, DecisionRowFor, ReasonStorable, ValuesStorable;
    var ex, d, pc := tx.program.exceptionId, tx.program.decision, tx.program.decisionPc;
    var effect := Statement(env, c, db, tx, x);
    match pc
    case AppendDecision(rec, plan, id) =>
      AppendTakes(env, c, db, tx, DecidedInput(c, ex, rec, id, d, plan), Decide(ex, d, DecisionCommit(rec, plan, id)));
    case Branch(rec, status) =>
      if effect.Continue? {
        PlanSees(d.body, status, db.proposals, db.entry.value.values);
        AuditFrame(env, c, db, tx, effect.tx);
      }
    case DecisionCommit(_, _, _) =>
    case _ =>
      if effect.Continue? {
        AuditFrame(env, c, db, tx, effect.tx);
      }
  }

  // ---- the locks ----------------------------------------------------------

  /** What a statement of `append` does to cursor, program and locks. */
  lemma AppendHolds(env: Env, db: Tables, tx: Tx, entry: AppendInput, next: Program)
    ensures var effect := AppendStep(env, db, tx, entry, next);
            effect.Continue? ==>
              match tx.cursor
              case Idle => effect.tx.cursor.Checked? && effect.tx.program == tx.program && effect.tx.held == tx.held
              case Checked(_) =>
                effect.tx.cursor.Anchored? && effect.tx.program == tx.program && effect.tx.held == tx.held + {CaseAnchor}
              case Anchored(_) => effect.tx.cursor.Numbered? && effect.tx.program == tx.program && effect.tx.held == tx.held
              case Numbered(_, _) => effect.tx.cursor.Linked? && effect.tx.program == tx.program && effect.tx.held == tx.held
              case Linked(_, _, _) =>
                && effect.tx.cursor == Idle && effect.tx.program == next
                && effect.tx.held == tx.held + if entry.exceptionId.Some? then {ExceptionLock} else {}
  {
    hide Validate, MaxSequence, PrevHash, RowNumbered, MakeEntry, OneRowPerField;
  }

  lemma OutsideAppendIdle(env: Env, c: string, db: Tables, tx: Tx)
    requires WorkOk(env, c, db, tx)
    ensures CurrentInput(c, tx.program).None? ==> tx.cursor == Idle
  {
    hide WellChained, AllTold, PastInputs, PastRows, ProgramOk, CurrentInput;
  }

  /** A transaction holds, after every statement, exactly the locks of the point it has reached. */
  lemma HeldKeeps(env: Env, c: string, db: Tables, tx: Tx, x: Outside)
    requires tx.held == HeldAt(tx.program, tx.cursor) && (CurrentInput(c, tx.program).None? ==> tx.cursor == Idle)
    ensures var effect := Statement(env, c, db, tx, x);
            effect.Continue? ==> effect.tx.held == HeldAt(effect.tx.program, effect.tx.cursor)
  {
    hide Statement;
    match tx.program
    case Receipt(_, _) => ReceiptHolds(env, c, db, tx, x);
    case Job(_, _) => JobHolds(env, c, db, tx, x);
    case Decide(_, _, _) => DecisionHolds(env, c, db, tx, x);
  }

  lemma ReceiptHolds(env: Env, c: string, db: Tables, tx: Tx, x: Outside)
    requires tx.held == HeldAt(tx.program, tx.cursor) && (CurrentInput(c, tx.program).None? ==> tx.cursor == Idle)
    requires tx.program.Receipt?
    ensures var effect := Statement(env, c, db, tx, x);
            effect.Continue? ==> effect.tx.held == HeldAt(effect.tx.program, effect.tx.cursor)
  {
    hide AppendStep, SubmittedRows, FindingRows, Provided, StoredValues, OutcomeOf, OutcomeText;
    var r := tx.program.receipt;
    match tx.program.receiptPc
    case AppendReceived => AppendHolds(env, db, tx, ReceivedInput(c, r), Receipt(r, InsertValidation));
    case AppendValidated =>
      AppendHolds(env, db, tx, ValidatedInput(c, r),
                  Receipt(r, if r.evaluation.outcome == FAIL then InsertException else ReceiptCommit(None)));
    case AppendOpened(ex, rec) =>
      AppendHolds(env, db, tx, OpenedInput(c, r, ex), Receipt(r, ReceiptCommit(Some(Opened(ex, rec)))));
    case _ =>
  }

  lemma JobHolds(env: Env, c: string, db: Tables, tx: Tx, x: Outside)
    requires tx.held == HeldAt(tx.program, tx.cursor) && (CurrentInput(c, tx.program).None? ==> tx.cursor == Idle)
    requires tx.program.Job?
    ensures var effect := Statement(env, c, db, tx, x);
            effect.Continue? ==> effect.tx.held == HeldAt(effect.tx.program, effect.tx.cursor)
  {
    hide AppendStep, ProposalRows, ProposalsStorable, RealFields;
    var ex := tx.program.exceptionId;
    match tx.program.jobPc
    case AppendGenerated(rec, entry, ps) =>
      AppendHolds(env, db, tx, GeneratedInput(c, ex, rec, entry, ps), Job(ex, CommitAvailable(rec, entry, ps)));
    case AppendUnavailable(rec, reason) =>
      AppendHolds(env, db, tx, UnavailableInput(c, ex, rec), Job(ex, CommitUnavailable(rec, reason)));
    case _ =>
  }

  lemma DecisionHolds(env: Env, c: string, db: Tables, tx: Tx, x: Outside)
    requires tx.held == HeldAt(tx.program, tx.cursor) && (CurrentInput(c, tx.program).None? ==> tx.cursor == Idle)
    requires tx.program.Decide?
    ensures var effect := Statement(env, c, db, tx, x);
            effect.Continue? ==> effect.tx.held == HeldAt(effect.tx.program, effect.tx.cursor)
  {
    hide AppendStep, MakePlan, DecisionRowFor, ReasonStorable, ValuesStorable, StateText;
    var ex, d := tx.program.exceptionId, tx.program.decision;
    match tx.program.decisionPc
    case AppendDecision(rec, plan, id) =>
      AppendHolds(env, db, tx, DecidedInput(c, ex, rec, id, d, plan), Decide(ex, d, DecisionCommit(rec, plan, id)));
    case _ =>
  }

  /** One statement of any transaction keeps its own part of the invariant. */
  lemma StatementKeeps(env: Env, c: string, db: Tables, tx: Tx, x: Outside)
    requires TablesOk(env, c, db) && TxOk(env, c, db, tx)
    ensures var effect := Statement(env, c, db, tx, x);
            effect.Continue? ==>
              TxOk(env, c, db, effect.tx) && (effect.tx.held == {} || TakesAtMost(tx, WantedLock(tx), effect.tx))
  {
    hide WellChained, CaseOk, WorkOk, Statement, TakesAtMost, WantedLock, HeldAt, CurrentInput;
    OutsideAppendIdle(env, c, db, tx);
    HeldKeeps(env, c, db, tx, x);
    match tx.program
    case Receipt(_, _) => ReceiptStepKeeps(env, c, db, tx, x);
    case Job(_, _) => JobStepKeeps(env, c, db, tx, x);
    case Decide(_, _, _) => DecisionStepKeeps(env, c, db, tx, x);
  }
}
