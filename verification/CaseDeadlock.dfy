/** The deadlock is real: every exception that can be received can come to it. */
module CaseDeadlock {
  import opened Text
  import opened HashChain
  import opened AuditWriter
  import opened Decisions
  import opened DecisionRules
  import opened RuleEngine
  import opened Lifecycle
  import opened CaseInvariant
  import opened CaseSteps
  import opened CaseCommits
  import opened Protocol
  import opened CaseTheorems
  import opened CaseRefusals
  import opened CaseWaits
  import opened CaseProgress
  import CaseClosing
  import CaseService

  // ---- a receipt runs to its commit ---------------------------------------

  /** No statement of an acceptable receipt fails. */
  lemma ReceiptNotRefused(env: Env, c: string, db: Tables, tx: Tx, x: Outside)
    requires TablesOk(env, c, db) && TxOk(env, c, db, tx)
    requires tx.program.Receipt? && CaseService.ReceiptAcceptable(env, tx.program.receipt) && !x.numberTaken
    ensures !Statement(env, c, db, tx, x).Fail?
  {
    hide TablesOk, AuditOk, AppendStep, PastRows, OneRowPerField, ReceivedInput, ValidatedInput, OpenedInput,
      StoredValues, OutcomeOf, CaseService.SubmittedClean, CaseService.FindingsClean, OneFindingPerField,
      CaseService.ReceiptAcceptable, Validate, HeaderAcceptable, ColumnsHold, EvaluationStorable;
    var r := tx.program.receipt;
    CaseService.AcceptableParts(env, r);
    CaseService.StorableFindings(r.evaluation);
    match tx.program.receiptPc
    case AppendReceived =>
      CaseService.ReceivedIff(env, c, r);
      CaseService.ReceivedOnePerField(env, c, r);
      LinkedValues(env, c, db, tx, ReceivedInput(c, r));
      AppendFailsIff(env, c, db, tx, ReceivedInput(c, r), Receipt(r, InsertValidation));
    case AppendValidated =>
      FindingsFit(env, c, r, ValidatedInput(c, r), "");
      LinkedValues(env, c, db, tx, ValidatedInput(c, r));
      AppendFailsIff(env, c, db, tx, ValidatedInput(c, r),
                     Receipt(r, if r.evaluation.outcome == FAIL then InsertException else ReceiptCommit(None)));
    case AppendOpened(ex, rec) =>
      FindingsFit(env, c, r, OpenedInput(c, r, ex), ex);
      LinkedValues(env, c, db, tx, OpenedInput(c, r, ex));
      AppendFailsIff(env, c, db, tx, OpenedInput(c, r, ex), Receipt(r, ReceiptCommit(Some(Opened(ex, rec)))));
    case _ =>
  }

  lemma FindingsFit(env: Env, c: string, r: ReceiptRequest, input: AppendInput, ex: string)
    requires CaseService.ReceiptAcceptable(env, r) && input in {ValidatedInput(c, r), OpenedInput(c, r, ex)}
    ensures Validate(env, input).Ok? && OneRowPerField(Validate(env, input).value)
  {
    hide Validate, OneRowPerField, HeaderAcceptable, ValidatedInput, OpenedInput, CaseService.ReceiptAcceptable,
      CaseService.FindingsClean, OneFindingPerField, CaseService.SubmittedClean;
    CaseService.AcceptableParts(env, r);
    CaseService.FindingHeaders(c, r, ex);
    CaseService.FindingsIff(env, input, r.evaluation.findings);
    CaseService.FindingsOnePerField(env, input, r.evaluation.findings);
  }

  lemma ReceiptKept(env: Env, c: string, db: Tables, tx: Tx, x: Outside)
    requires tx.program.Receipt?
    ensures var effect := Statement(env, c, db, tx, x);
            effect.Continue? ==> effect.tx.program.Receipt? && effect.tx.program.receipt == tx.program.receipt
  {
    hide Validate, MaxSequence, PrevHash, RowNumbered, MakeEntry, OneRowPerField, PayloadOf, ReceivedInput, ValidatedInput,
      OpenedInput, StoredValues, OutcomeOf;
  }

  /** An acceptable receipt that failed its validation, run on, commits an open and unanswered exception. */
  lemma {:induction false} ReceiptRuns(env: Env, c: string, w: World, id: nat, r: ReceiptRequest, x: Outside)
    returns (evs: seq<Event>, w': World)
    requires Inv(env, c, w) && id in w.active && w.active[id].program.Receipt? && w.active[id].program.receipt == r
    requires CaseService.ReceiptAcceptable(env, r) && r.evaluation.outcome == FAIL && !x.numberTaken
    ensures Play(env, c, w, evs) == Some(w') && Inv(env, c, w') && w'.active == w.active - {id}
    ensures w'.db.exception.Some? && w'.db.exception.value.state == OPEN
    ensures w'.db.recommendation.Some? && w'.db.recommendation.value.status == PENDING
    decreases StepsLeft(w.active[id])
  {
    hide Inv, CanRun, Statement, StepsLeft, Publish, Enabled, WantedLock, InWaitCycle, CaseService.ReceiptAcceptable, Play,
      TablesOk, TxOk;
    var tx := w.active[id];
    ReceiptNeverWaits(env, c, w, id);
    OneStep(env, c, w, id, x);
    Together(env, c, w, id);
    ReceiptNotRefused(env, c, w.db, tx, x);
    var w1 := Move(env, c, w, Run(id, x));
    if Statement(env, c, w.db, tx, x).Continue? {
      ReceiptKept(env, c, w.db, tx, x);
      CaseProgress.SameOthers(w.active, w1.active, id);
      var rest;
      rest, w' := ReceiptRuns(env, c, w1, id, r, x);
      evs := [Run(id, x)] + rest;
      PlayFirst(env, c, w, Run(id, x), rest);
      assert w1.active - {id} == w.active - {id};
    } else {
      CommitCases(env, c, w.db, tx, x);
      evs, w' := [Run(id, x)], w1;
      CaseClosing.PlayOne(env, c, w, Run(id, x));
      FailOpens(env, c, w, id);
    }
  }

  lemma FailOpens(env: Env, c: string, w: World, id: nat)
    requires Inv(env, c, w) && id in w.active && w.active[id].program.Receipt? && AtCommit(w.active[id])
    requires w.active[id].program.receipt.evaluation.outcome == FAIL
    ensures var db' := Publish(w.db, w.active[id]);
            && db'.exception.Some? && db'.exception.value.state == OPEN
            && db'.recommendation.Some? && db'.recommendation.value.status == PENDING
  {
    hide CaseOk, WellChained, AuditOk, PastRows, Publish, LocksExclusive, HeldAt;
    var tx := w.active[id];
    assert TxOk(env, c, w.db, tx);
    ReceiptPublishes(tx, tx.program.receipt, tx.program.receiptPc.refs);
  }

  // ---- the job comes to its insert, the decision to the anchor ------------

  /** A job on its way to the entry that says UNAVAILABLE. */
  predicate Unavailing(tx: Tx) {
    tx.program.Job? &&
    (tx.program.jobPc.Precheck? || tx.program.jobPc.ReadCase? || tx.program.jobPc.Generate? ||
     tx.program.jobPc.MarkUnavailable? || tx.program.jobPc.AppendUnavailable?)
  }

  /** While the recommendation is PENDING and the provider reports a failure, it stays on that way until its insert. */
  lemma UnavailingGoesOn(env: Env, c: string, db: Tables, tx: Tx, x: Outside)
    requires TablesOk(env, c, db) && TxOk(env, c, db, tx) && Unavailing(tx) && x.reply.Failure?
    requires db.recommendation.Some? && db.recommendation.value.status == PENDING
    requires !(tx.program.jobPc.AppendUnavailable? && tx.cursor.Linked?)
    ensures var effect := Statement(env, c, db, tx, x);
            effect.Continue? && Unavailing(effect.tx)
  {
    hide TablesOk, AuditOk, AppendStep, UnavailableInput, Validate, OneRowPerField;
    var ex, pc := tx.program.exceptionId, tx.program.jobPc;
    assert db.entry.Some? && db.exception.Some? && db.validation.Some? by { JobIsWhole(env, c, db, tx); }
    if pc.AppendUnavailable? {
      var next := Job(ex, CommitUnavailable(pc.recommendationId, pc.reason));
      UnavailableAccepted(env, c, ex, pc.recommendationId);
      AppendStepKeeps(env, c, db, tx, UnavailableInput(c, ex, pc.recommendationId), next);
      AppendHolds(env, db, tx, UnavailableInput(c, ex, pc.recommendationId), next);
    }
  }

  lemma JobIsWhole(env: Env, c: string, db: Tables, tx: Tx)
    requires TablesOk(env, c, db) && TxOk(env, c, db, tx) && tx.program.Job?
    ensures db.entry.Some? && db.exception.Some? && db.validation.Some?
  {
    hide CaseOk, AuditOk, PastRows, WellChained, JobOk, HeldAt;
    CaseIsWhole(env, c, db);
  }

  /** Beside a decision that has the exception's row, such a job runs on to its insert. */
  lemma {:induction false} JobReachesInsert(env: Env, c: string, w: World, job: nat, decision: nat, x: Outside)
    returns (evs: seq<Event>, w': World)
    requires Inv(env, c, w) && job in w.active && decision in w.active && job != decision && x.reply.Failure?
    requires w.db.recommendation.Some? && w.db.recommendation.value.status == PENDING && Unavailing(w.active[job])
    requires w.active[decision].held == {ExceptionLock}
    requires forall o :: o in w.active && o != job && o != decision ==> w.active[o].held == {}
    ensures Play(env, c, w, evs) == Some(w') && Inv(env, c, w') && w'.db == w.db && w'.active - {job} == w.active - {job}
    ensures job in w'.active && Appending(w'.active[job].program) && w'.active[job].cursor.Linked?
    decreases StepsLeft(w.active[job])
  {
    hide Inv, CanRun, Statement, StepsLeft, Publish, Enabled, WantedLock, Play, TablesOk, TxOk;
    var tx := w.active[job];
    if tx.program.jobPc.AppendUnavailable? && tx.cursor.Linked? {
      evs, w' := [], w;
      PlayNothing(env, c, w);
      return;
    }
    HeldHere(env, c, w, job);
    WantsNotException(c, w, job, decision);
    OneStep(env, c, w, job, x);
    Together(env, c, w, job);
    UnavailingGoesOn(env, c, w.db, tx, x);
    var w1 := Move(env, c, w, Run(job, x));
    SameOthers(w.active, w1.active, job);
    var rest;
    rest, w' := JobReachesInsert(env, c, w1, job, decision, x);
    evs := [Run(job, x)] + rest;
    PlayFirst(env, c, w, Run(job, x), rest);
    assert w1.active - {job} == w.active - {job};
  }

  lemma WantsNotException(c: string, w: World, job: nat, decision: nat)
    requires job in w.active && decision in w.active && Unavailing(w.active[job])
    requires !w.active[job].cursor.Linked? || !w.active[job].program.jobPc.AppendUnavailable?
    requires CurrentInput(c, w.active[job].program).None? ==> w.active[job].cursor == Idle
    requires w.active[decision].held == {ExceptionLock}
    requires forall o :: o in w.active && o != job && o != decision ==> w.active[o].held == {}
    ensures CanRun(w, job)
  {}

  /** Beside a job at its insert, an acceptable decision that has the exception's row runs on to the anchor. */
  lemma {:induction false} DecisionReachesAnchor(env: Env, c: string, w: World, job: nat, decision: nat, d: DecisionRequest,
                                                 x: Outside)
    returns (evs: seq<Event>, w': World)
    requires Inv(env, c, w) && job in w.active && Appending(w.active[job].program) && w.active[job].cursor.Linked?
    requires decision in w.active && w.active[decision].program.Decide? && ExceptionLock in w.active[decision].held
    requires w.db.exception.Some? && w.db.recommendation.Some?
    requires Acceptable(env, w.db, d) && UpToDate(w.db, d, w.active[decision])
    ensures Play(env, c, w, evs) == Some(w') && Deadlocked(w', job, decision) && w'.active.Keys == w.active.Keys
    ensures w'.db == w.db && decision in w'.active && UpToDate(w'.db, d, w'.active[decision])
    decreases StepsLeft(w.active[decision])
  {
    hide Inv, CanRun, Statement, StepsLeft, Publish, Enabled, WantedLock, Play, TablesOk, TxOk, Acceptable, UpToDate,
      InWaitCycle;
    var tx := w.active[decision];
    AcceptableAdvances(env, c, w, decision, d, x);
    HeldHere(env, c, w, decision);
    HeldHere(env, c, w, job);
    Apart(env, c, w, job, decision);
    if CanRun(w, decision) {
      OneStep(env, c, w, decision, x);
      var w1 := Move(env, c, w, Run(decision, x));
      SameOthers(w.active, w1.active, decision);
      StillDecides(env, c, w.db, d, tx, x);
      var rest;
      rest, w' := DecisionReachesAnchor(env, c, w1, job, decision, d, x);
      evs := [Run(decision, x)] + rest;
      PlayFirst(env, c, w, Run(decision, x), rest);
    } else {
      evs, w' := [], w;
      PlayNothing(env, c, w);
    }
  }

  lemma StillDecides(env: Env, c: string, db: Tables, d: DecisionRequest, tx: Tx, x: Outside)
    requires db.recommendation.Some? && UpToDate(db, d, tx)
    ensures Statement(env, c, db, tx, x).Continue? ==> Statement(env, c, db, tx, x).tx.program.Decide?
  {
    hide Statement;
    StaysUpToDate(env, c, db, d, tx, x);
  }

  // ---- the deadlock is reached --------------------------------------------

  /** With nobody at work on an open and unanswered exception: a decision takes the exception's row, a job whose provider
      is unavailable comes to its insert, and the decision comes to the anchor. */
  lemma DeadlockFollows(env: Env, c: string, w: World, d: DecisionRequest, now: string, x: Outside)
    returns (evs: seq<Event>, w': World)
    requires Inv(env, c, w) && w.active == map[] && x.reply.Failure?
    requires w.db.exception.Some? && w.db.recommendation.Some? && w.db.recommendation.value.status == PENDING
    requires Acceptable(env, w.db, d)
    ensures Play(env, c, w, evs) == Some(w') && Deadlocked(w', 1, 0) && w'.active.Keys == {0, 1}
    ensures w'.db == w.db && UpToDate(w'.db, d, w'.active[0])
  {
    hide Inv, CanRun, Statement, StepsLeft, Publish, Play, TablesOk, TxOk, Acceptable, InWaitCycle;
    var ex := w.db.exception.value.id;
    var first := Begin(0, Decide(ex, d, LockCase), now);
    MoveKeepsInv(env, c, w, first);
    var w1 := Move(env, c, w, first);
    CaseLocked(env, c, w1, d, x);
    var w2 := Move(env, c, w1, Run(0, x));
    var second := Begin(1, Job(ex, Precheck), now);
    MoveKeepsInv(env, c, w2, second);
    var w3 := Move(env, c, w2, second);
    var rest, w4 := JobReachesInsert(env, c, w3, 1, 0, x);
    SameOthers(w3.active, w4.active, 1);
    var last;
    last, w' := DecisionReachesAnchor(env, c, w4, 1, 0, d, x);
    PlayJoins(env, c, w3, rest, last);
    PlayFirst(env, c, w2, second, rest + last);
    PlayFirst(env, c, w1, Run(0, x), [second] + (rest + last));
    PlayFirst(env, c, w, first, [Run(0, x)] + ([second] + (rest + last)));
    evs := [first] + ([Run(0, x)] + ([second] + (rest + last)));
  }

  lemma CaseLocked(env: Env, c: string, w: World, d: DecisionRequest, x: Outside)
    requires Inv(env, c, w) && w.active.Keys == {0} && w.active[0].program.Decide?
    requires w.active[0].program.decisionPc == LockCase && w.active[0].program.decision == d
    requires w.db.exception.Some? && w.db.recommendation.Some? && Acceptable(env, w.db, d)
    ensures Enabled(w, Run(0, x))
    ensures var w' := Move(env, c, w, Run(0, x));
            && Inv(env, c, w') && w'.db == w.db && w'.active.Keys == {0} && w'.active[0].program.Decide?
            && w'.active[0].held == {ExceptionLock} && UpToDate(w.db, d, w'.active[0])
  {
    hide Inv, BodyAcceptable, SubmitsNoSecret, BodyStorable;
    HeldHere(env, c, w, 0);
    MoveKeepsInv(env, c, w, Run(0, x));
  }

  /** A REJECT as a specialist may send it. */
  function RejectOf(principal: string, reason: string): DecisionRequest {
    DecisionRequest(principal, None, Body(REJECT, Some(reason), None, None), None)
  }

  lemma NotAtWork(w: World, id: nat)
    requires id !in w.active
    ensures !CanRun(w, id)
  {}

  lemma RejectAcceptable(env: Env, db: Tables, principal: string, reason: string)
    requires db.exception.Some? && db.exception.value.state == OPEN && db.recommendation.Some?
    requires principal != "" && CaseClosing.ReasonAmple(reason)
    ensures Acceptable(env, db, RejectOf(principal, reason))
  {
    hide ReasonGiven;
    CaseClosing.AmpleIsGiven(reason);
  }

  /** The receipt, from its beginning to its commit. */
  lemma ReceiptFirst(env: Env, c: string, r: ReceiptRequest, now: string, x: Outside)
    returns (evs: seq<Event>, w: World)
    requires CaseService.ReceiptAcceptable(env, r) && r.evaluation.outcome == FAIL && !x.numberTaken
    ensures Play(env, c, START, evs) == Some(w) && Inv(env, c, w) && w.active == map[]
    ensures w.db.exception.Some? && w.db.exception.value.state == OPEN
    ensures w.db.recommendation.Some? && w.db.recommendation.value.status == PENDING
  {
    hide Inv, Play, CaseService.ReceiptAcceptable;
    var begin := Begin(0, Receipt(r, InsertEntry), now);
    StartOk(env, c);
    MoveKeepsInv(env, c, START, begin);
    var w1 := Move(env, c, START, begin);
    var rest;
    rest, w := ReceiptRuns(env, c, w1, 0, r, x);
    evs := [begin] + rest;
    PlayFirst(env, c, START, begin, rest);
  }

  /** The deadlock can be reached, from the receipt of any entry whose validation fails and that is received at all: an
      acceptable decision stands in it, whose every statement so far has succeeded, nobody can run, and one of the two will
      be aborted. */
  lemma DeadlockReachable(env: Env, c: string, r: ReceiptRequest, principal: string, reason: string, now: string,
                          x: Outside)
    returns (run: seq<World>)
    requires CaseService.ReceiptAcceptable(env, r) && r.evaluation.outcome == FAIL && !x.numberTaken
    requires principal != "" && CaseClosing.ReasonAmple(reason) && x.reply.Failure?
    ensures IsRun(env, c, run) && run != [] && Deadlocked(Last(run), 1, 0)
    ensures Last(run).db.exception.Some? && Last(run).db.recommendation.Some? && 0 in Last(run).active
    ensures Acceptable(env, Last(run).db, RejectOf(principal, reason))
    ensures UpToDate(Last(run).db, RejectOf(principal, reason), Last(run).active[0])
    ensures forall id :: !CanRun(Last(run), id)
    ensures InWaitCycle(Last(run), 0) && InWaitCycle(Last(run), 1)
  {
    hide Inv, CanRun, Play, IsRun, CaseService.ReceiptAcceptable, CaseClosing.ReasonAmple, InWaitCycle, Deadlocked,
      Acceptable, UpToDate;
    var received, w := ReceiptFirst(env, c, r, now, x);
    RejectAcceptable(env, w.db, principal, reason);
    var more, w' := DeadlockFollows(env, c, w, RejectOf(principal, reason), now, x);
    PlayJoins(env, c, START, received, more);
    PlayKeepsInv(env, c, START, received + more) by { StartOk(env, c); }
    assert IsRun(env, c, [START]) by { StartIsRun(env, c); }
    run := RunGoesOn(env, c, [START], received + more);
    DeadlockCycle(env, c, w', 1, 0);
    DeadlockWaits(env, c, w', 1, 0);
    WaitingStops(w', 1, 0);
    WaitingStops(w', 0, 1);
    forall id
      ensures !CanRun(w', id)
    {
      if id !in w'.active {
        NotAtWork(w', id);
      }
    }
  }
}
