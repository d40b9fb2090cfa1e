/** The invariant over whole runs, and what it says of each move. */
module Protocol {
  import opened Text
  import opened HashChain
  import opened AuditWriter
  import opened Decisions
  import opened RuleEngine
  import opened Lifecycle
  import opened CaseInvariant
  import opened CaseSteps
  import opened CaseCommits
  import Replay

  // ---- the invariant is kept ----------------------------------------------

  lemma BeginKeeps(env: Env, c: string, w: World, id: nat, program: Program, now: string)
    requires Inv(env, c, w) && Enabled(w, Begin(id, program, now))
    ensures Inv(env, c, Move(env, c, w, Begin(id, program, now)))
  {
    hide WellChained, EntryClean, ProposalsOk, DecisionOk, TailOk, HeadOk, AuditOk;
    var tx := Tx(program, [], [], InitialLocks(program), Idle, now);
    FreshAudit(env, c, w.db, tx);
    assert TxOk(env, c, w.db, tx);
  }

  lemma EndKeeps(env: Env, c: string, w: World, id: nat)
    requires Inv(env, c, w)
    ensures Inv(env, c, w.(active := w.active - {id}))
  {
    hide TablesOk, TxOk;
  }

  /** A transaction that took at most the lock it had waited for leaves every lock with one holder. */
  lemma LocksStayExclusive(w: World, id: nat, tx: Tx)
    requires LocksExclusive(w.active) && id in w.active
    requires WantedLock(w.active[id]).Some? ==> LockFree(w, id, WantedLock(w.active[id]).value)
    requires tx.held == {} || TakesAtMost(w.active[id], WantedLock(w.active[id]), tx)
    ensures LocksExclusive(w.active[id := tx])
  {
    hide WantedLock;
    var active' := w.active[id := tx];
    forall i, j | i in active' && j in active' && i != j
      ensures active'[i].held !! active'[j].held
    {
      if i != id && j != id {
        assert w.active[i].held !! w.active[j].held;
      } else {
        var other := if i == id then j else i;
        assert w.active[id].held !! w.active[other].held;
        if WantedLock(w.active[id]).Some? {
          assert WantedLock(w.active[id]).value !in w.active[other].held;
        }
      }
    }
  }

  lemma ContinueKeeps(env: Env, c: string, w: World, id: nat, x: Outside)
    requires Inv(env, c, w) && Enabled(w, Run(id, x)) && Statement(env, c, w.db, w.active[id], x).Continue?
    ensures Inv(env, c, Move(env, c, w, Run(id, x)))
  {
    hide TablesOk, TxOk, Statement, WantedLock, LocksExclusive, LockFree, TakesAtMost;
    var tx := Statement(env, c, w.db, w.active[id], x).tx;
    StatementKeeps(env, c, w.db, w.active[id], x);
    LocksStayExclusive(w, id, tx);
  }

  lemma NothingPublished(db: Tables, tx: Tx)
    requires tx.rows == [] && tx.audit == []
    ensures Publish(db, tx) == db
  {
    assert db.trail + [] == db.trail;
  }

  lemma CommitKeeps(env: Env, c: string, w: World, id: nat, x: Outside)
    requires Inv(env, c, w) && Enabled(w, Run(id, x)) && Statement(env, c, w.db, w.active[id], x).Commit?
    ensures Inv(env, c, Move(env, c, w, Run(id, x)))
  {
    hide TablesOk, TxOk, Statement, WantedLock, LockFree, Publish;
    var tx := w.active[id];
    CommitCases(env, c, w.db, tx, x);
    if AtCommit(tx) {
      hide AtCommit;
      CommitKeepsTables(env, c, w.db, tx);
      forall other | other in w.active && other != id
        ensures TxOk(env, c, Publish(w.db, tx), w.active[other])
      {
        assert tx.held !! w.active[other].held;
        CommitKeepsOther(env, c, w.db, tx, w.active[other]);
      }
    } else {
      NothingPublished(w.db, tx);
    }
  }

  /** Every move keeps the invariant. */
  lemma MoveKeepsInv(env: Env, c: string, w: World, ev: Event)
    requires Inv(env, c, w) && Enabled(w, ev)
    ensures Inv(env, c, Move(env, c, w, ev))
  {
    hide Inv, Statement, Publish, MayBegin, LockFree, WantedLock;
    match ev
    case Begin(id, program, now) => BeginKeeps(env, c, w, id, program, now);
    case Rollback(id) => EndKeeps(env, c, w, id);
    case Run(id, x) =>
      match Statement(env, c, w.db, w.active[id], x) {
        case Continue(_) => ContinueKeeps(env, c, w, id, x);
        case Commit => CommitKeeps(env, c, w, id, x);
        case Fail(_) => EndKeeps(env, c, w, id);
      }
  }

  lemma StartOk(env: Env, c: string)
    ensures Inv(env, c, START)
  {}

  /** The invariant holds at every point of every run. */
  lemma {:induction false} RunKeepsInv(env: Env, c: string, run: seq<World>, i: nat)
    requires IsRun(env, c, run) && i < |run|
    ensures Inv(env, c, run[i])
  {
    hide Inv, Move, Enabled;
    if i == 0 {
      StartOk(env, c);
    } else {
      RunKeepsInv(env, c, run, i - 1);
      assert Follows(env, c, run[i - 1], run[i - 1 + 1]);
      var ev :| Enabled(run[i - 1], ev) && Move(env, c, run[i - 1], ev) == run[i];
      MoveKeepsInv(env, c, run[i - 1], ev);
    }
  }

  lemma StartIsRun(env: Env, c: string)
    ensures IsRun(env, c, [START])
  {}

  function Last(run: seq<World>): World
    requires run != []
  {
    run[|run| - 1]
  }

  lemma RunGrows(env: Env, c: string, run: seq<World>, ev: Event)
    requires IsRun(env, c, run) && Enabled(Last(run), ev)
    ensures IsRun(env, c, run + [Move(env, c, Last(run), ev)])
  {
    hide Move, Enabled;
    var run' := run + [Move(env, c, Last(run), ev)];
    forall i | 0 <= i < |run'| - 1
      ensures Follows(env, c, run'[i], run'[i + 1])
    {
      if i < |run| - 1 {
        assert Follows(env, c, run[i], run[i + 1]);
      }
    }
  }

  // ---- what a move does to the committed rows -----------------------------

  /** Committed rows change only when a transaction commits what it wrote. */
  lemma OnlyCommitsPublish(env: Env, c: string, w: World, ev: Event)
    requires Inv(env, c, w) && Enabled(w, ev)
    ensures var w' := Move(env, c, w, ev);
            w'.db == w.db ||
            (ev.Run? && AtCommit(w.active[ev.id]) && w'.db == Publish(w.db, w.active[ev.id]) && w'.active == w.active - {ev.id})
  {
    hide TablesOk, TxOk, Statement, Publish, MayBegin, LockFree, WantedLock, AtCommit, LocksExclusive;
    if ev.Run? && Statement(env, c, w.db, w.active[ev.id], ev.outside).Commit? {
      CommitCases(env, c, w.db, w.active[ev.id], ev.outside);
      if !AtCommit(w.active[ev.id]) {
        NothingPublished(w.db, w.active[ev.id]);
      }
    }
  }

  /** What a committing decision publishes: its row, its values, the closed state and one entry naming the specialist. */
  ghost predicate ClosedBy(db: Tables, db': Tables, tx: Tx)
    requires tx.program.Decide? && tx.program.decisionPc.DecisionCommit?
  {
    var d, pc := tx.program.decision, tx.program.decisionPc;
    && db.exception.Some? && db.exception.value.state == OPEN && db.decisions == []
    && |tx.audit| == 1
    && db' == db.(exception := Some(db.exception.value.(state := pc.plan.resulting, decisionId := Some(pc.decisionId))),
                  decisions := [DecisionRowFor(d, pc.recommendationId, pc.plan, pc.decisionId)],
                  decisionValues := map[pc.decisionId := pc.plan.values],
                  trail := db.trail + tx.audit)
    && pc.plan.resulting != OPEN && d.principal != ""
    && tx.audit[0].payload.actorType == SpecialistActor && tx.audit[0].payload.actorId == Some(d.principal)
    && tx.audit[0].payload.decisionId == Some(pc.decisionId)
    && tx.audit[0].payload.action == DecisionAction(pc.plan.decisionType)
    && Decided(db, db', d, pc.plan.seen, tx.audit[0], tx.now)
  }

  /** The published rows and the entry are those of the decision that was asked for. */
  lemma DecisionDecides(env: Env, c: string, db: Tables, db': Tables, ex: string, d: DecisionRequest, rec: string, plan: Plan,
                        id: string, e: AuditEntry)
    requires db.entry.Some? && db.exception.Some? && db.recommendation.Some? && PlanOk(db, d, rec, plan)
    requires ProposalsOk(env, db.proposals) && ex == db.exception.value.id
    requires db' == db.(exception := Some(db.exception.value.(state := plan.resulting, decisionId := Some(id))),
                        decisions := [DecisionRowFor(d, rec, plan, id)], decisionValues := map[id := plan.values],
                        trail := db'.trail)
    requires Told(env, e, DecidedInput(c, ex, rec, id, d, plan))
    ensures Decided(db, db', d, plan.seen, e, e.payload.occurredAt)
  {
    hide Told, Traceable, RowsTell, MakePlan, Fulfils, StoresAll, RowsSound, RecordedAll, DistinctProposals;
    ToldAbout(env, e, DecidedInput(c, ex, rec, id, d, plan));
    PlanRecorded(env, db, d, rec, plan);
    PlanTraceable(d.body, plan.seen, db.proposals, db.entry.value.values);
    Replay.PlanReason(d.body, plan.seen, db.proposals, db.entry.value.values);
  }

  lemma DecisionCloses(env: Env, c: string, db: Tables, tx: Tx)
    requires TablesOk(env, c, db) && TxOk(env, c, db, tx)
    requires tx.program.Decide? && tx.program.decisionPc.DecisionCommit?
    ensures ClosedBy(db, Publish(db, tx), tx)
  {
    hide WellChained, Told, EntryClean, Publish, ProposalsOk, TailOk, HeadOk, Traceable, RowsTell, MakePlan, DecisionAction,
      DecisionRowFor, Decided, StoresAll, RowsSound, RecordedAll, Reports;
    var ex, d, pc := tx.program.exceptionId, tx.program.decision, tx.program.decisionPc;
    var e := tx.audit[0];
    DecisionPublishes(db, tx, ex, d, pc.recommendationId, pc.plan, pc.decisionId);
    assert Told(env, e, DecidedInput(c, ex, pc.recommendationId, pc.decisionId, d, pc.plan));
    ToldAbout(env, e, DecidedInput(c, ex, pc.recommendationId, pc.decisionId, d, pc.plan));
    PlanRecorded(env, db, d, pc.recommendationId, pc.plan);
    DecisionDecides(env, c, db, Publish(db, tx), ex, d, pc.recommendationId, pc.plan, pc.decisionId, e);
  }

  /** What a committing job publishes: the recommendation out of PENDING, its proposals, one entry by the AI. */
  ghost predicate ToldBy(db: Tables, db': Tables, tx: Tx)
    requires tx.program.Job? && (tx.program.jobPc.CommitAvailable? || tx.program.jobPc.CommitUnavailable?)
  {
    var pc := tx.program.jobPc;
    && db.recommendation.Some? && db.recommendation.value.status == PENDING && db.proposals == []
    && |tx.audit| == 1 && tx.audit[0].payload.actorType == AiActor
    && db' == db.(recommendation := Some(if pc.CommitAvailable?
                                         then db.recommendation.value.(status := AVAILABLE, failure := None)
                                         else db.recommendation.value.(status := UNAVAILABLE, failure := Some(pc.reason))),
                  proposals := if pc.CommitAvailable? then pc.proposals else [],
                  trail := db.trail + tx.audit)
    && db.entry.Some? && db.exception.Some? && IsAiEntry(db', tx.audit[0]) && tx.audit[0].payload.occurredAt == tx.now
  }

  lemma JobTells(env: Env, c: string, db: Tables, tx: Tx)
    requires TablesOk(env, c, db) && TxOk(env, c, db, tx)
    requires tx.program.Job? && (tx.program.jobPc.CommitAvailable? || tx.program.jobPc.CommitUnavailable?)
    ensures ToldBy(db, Publish(db, tx), tx)
  {
    hide WellChained, Told, EntryClean, Publish, ProposalsOk, TailOk, HeadOk, DecisionOk, ProposalRows, OffersAll, RowsSound,
      StoresAll;
    var ex, pc := tx.program.exceptionId, tx.program.jobPc;
    if pc.CommitAvailable? {
      AvailablePublishes(db, tx, ex, pc.recommendationId, pc.entry, pc.proposals);
      OffersRecorded(pc.entry, pc.proposals);
      assert Told(env, tx.audit[0], GeneratedInput(c, ex, pc.recommendationId, pc.entry, pc.proposals));
      ToldAbout(env, tx.audit[0], GeneratedInput(c, ex, pc.recommendationId, pc.entry, pc.proposals));
    } else {
      UnavailablePublishes(db, tx, ex, pc.recommendationId, pc.reason);
      assert Told(env, tx.audit[0], UnavailableInput(c, ex, pc.recommendationId));
      ToldAbout(env, tx.audit[0], UnavailableInput(c, ex, pc.recommendationId));
    }
  }

  /** What a committing receipt publishes: the whole of a new case, with its two or three entries. */
  ghost predicate ReceivedBy(c: string, db: Tables, db': Tables, tx: Tx)
    requires tx.program.Receipt? && tx.program.receiptPc.ReceiptCommit?
  {
    var r, refs := tx.program.receipt, tx.program.receiptPc.refs;
    && db == NO_CASE && db'.trail == tx.audit && r.principal != ""
    && IsNewCase(db', r, refs) && ReceiptTrail(tx.audit, c, r, refs, tx.now)
    && (refs.Some? ==> r.evaluation.findings != [])
  }

  lemma ReceiptReceives(env: Env, c: string, db: Tables, tx: Tx)
    requires TablesOk(env, c, db) && TxOk(env, c, db, tx)
    requires tx.program.Receipt? && tx.program.receiptPc.ReceiptCommit?
    ensures ReceivedBy(c, db, Publish(db, tx), tx)
  {
    hide WellChained, CaseOk, AllTold, Publish, NewCase, PastRows, PastInputs, HeldAt, IsNewCase, ReceiptTrail;
    var r, refs := tx.program.receipt, tx.program.receiptPc.refs;
    ReceiptPublishes(tx, r, refs);
    ReceiptTells(env, c, tx.audit, r, refs, tx.now);
    NewCaseIs(r, refs, tx.audit);
  }

  /** Every change of the committed rows: a receipt of a new case, one answer of the AI, or one human decision. */
  lemma ChangesAreGoverned(env: Env, c: string, w: World, ev: Event)
    requires Inv(env, c, w) && Enabled(w, ev)
    ensures var w' := Move(env, c, w, ev);
            w'.db == w.db ||
            (ev.Run? && AtCommit(w.active[ev.id]) &&
             var tx := w.active[ev.id];
             match tx.program
             case Receipt(_, _) => ReceivedBy(c, w.db, w'.db, tx)
             case Job(_, _) => ToldBy(w.db, w'.db, tx)
             case Decide(_, _, _) => ClosedBy(w.db, w'.db, tx))
  {
    OnlyCommitsPublish(env, c, w, ev);
    hide ReceivedBy, ToldBy, ClosedBy, CaseOk, WellChained, AuditOk, PastRows, Move, Publish;
    if Move(env, c, w, ev).db != w.db {
      var tx := w.active[ev.id];
      assert TxOk(env, c, w.db, tx);
      match tx.program {
        case Receipt(_, _) => ReceiptReceives(env, c, w.db, tx);
        case Job(_, _) => JobTells(env, c, w.db, tx);
        case Decide(_, _, _) => DecisionCloses(env, c, w.db, tx);
      }
    }
  }

  /** A case leaves OPEN only by the commit of one decision of a named specialist, with its one entry. */
  lemma HumanInTheLoop(env: Env, c: string, w: World, ev: Event)
    requires Inv(env, c, w) && Enabled(w, ev)
    requires w.db.exception.Some? && w.db.exception.value.state == OPEN
    requires Move(env, c, w, ev).db.exception != w.db.exception
    ensures ev.Run? && w.active[ev.id].program.Decide? && w.active[ev.id].program.decisionPc.DecisionCommit?
    ensures ClosedBy(w.db, Move(env, c, w, ev).db, w.active[ev.id])
  {
    hide Move, Inv, MayBegin, LockFree, WantedLock, DecisionRowFor, ToldBy, ClosedBy;
    assert w.db != NO_CASE;
    ChangesAreGoverned(env, c, w, ev);
    var tx := w.active[ev.id];
    if tx.program.Job? && ToldBy(w.db, Move(env, c, w, ev).db, tx) {
      TellingKeepsState(w.db, Move(env, c, w, ev).db, tx);
    }
  }

  lemma TellingKeepsState(db: Tables, db': Tables, tx: Tx)
    requires tx.program.Job? && (tx.program.jobPc.CommitAvailable? || tx.program.jobPc.CommitUnavailable?)
    requires ToldBy(db, db', tx)
    ensures db'.exception == db.exception && db'.decisions == db.decisions && db'.decisionValues == db.decisionValues
  {}

  /** A closed case stays as it was decided: no second decision, no other state, no other values. */
  lemma ClosedIsFinal(env: Env, c: string, w: World, ev: Event)
    requires Inv(env, c, w) && Enabled(w, ev)
    requires w.db.exception.Some? && w.db.exception.value.state != OPEN
    ensures var w' := Move(env, c, w, ev);
            && w'.db.exception == w.db.exception && w'.db.decisions == w.db.decisions
            && w'.db.decisionValues == w.db.decisionValues && |w'.db.decisions| == 1
  {
    assert |w.db.decisions| == 1 by { OneDecisionHere(env, c, w); }
    hide Move, Inv, Enabled, DecisionRowFor;
    assert w.db != NO_CASE;
    ChangesAreGoverned(env, c, w, ev);
  }

  lemma OneDecisionHere(env: Env, c: string, w: World)
    requires Inv(env, c, w) && w.db.exception.Some? && w.db.exception.value.state != OPEN
    ensures |w.db.decisions| == 1 && w.db.recommendation.Some? && w.db.entry.Some?
  {
    hide WellChained, EntryClean, ProposalsOk, TailOk, HeadOk, Traceable, TxOk, LocksExclusive;
  }

  /** Two deciders are never both past the row lock, and one that comes late fails without a trace. */
  lemma LosersLeaveNoTrace(env: Env, c: string, w: World, id: nat, x: Outside)
    requires Inv(env, c, w) && Enabled(w, Run(id, x)) && w.active[id].program.Decide?
    ensures w.active[id].program.decisionPc == LockCase && w.db.exception.value.state != OPEN ==>
              Move(env, c, w, Run(id, x)) == w.(active := w.active - {id})
    ensures w.active[id].program.decisionPc != LockCase ==>
              && w.db.exception.value.state == OPEN
              && forall other :: other in w.active && other != id && w.active[other].program.Decide? ==>
                   w.active[other].program.decisionPc == LockCase
  {
    hide TablesOk, AuditOk, PastRows, MakePlan;
    assert TxOk(env, c, w.db, w.active[id]);
    if w.active[id].program.decisionPc != LockCase {
      forall other | other in w.active && other != id && w.active[other].program.Decide?
        ensures w.active[other].program.decisionPc == LockCase
      {
        assert TxOk(env, c, w.db, w.active[other]);
        assert w.active[id].held !! w.active[other].held;
      }
    }
  }

  /** A recommendation leaves PENDING at most once, by one job, which also wrote its proposals; then it is fixed. */
  lemma RecommendationSettlesOnce(env: Env, c: string, w: World, ev: Event)
    requires Inv(env, c, w) && Enabled(w, ev) && w.db.recommendation.Some?
    ensures var w' := Move(env, c, w, ev);
            if w.db.recommendation.value.status != PENDING then
              w'.db.recommendation == w.db.recommendation && w'.db.proposals == w.db.proposals
            else
              (w'.db.recommendation == w.db.recommendation && w'.db.proposals == w.db.proposals) ||
              (ev.Run? && w.active[ev.id].program.Job?
               && (w.active[ev.id].program.jobPc.CommitAvailable? || w.active[ev.id].program.jobPc.CommitUnavailable?)
               && ToldBy(w.db, w'.db, w.active[ev.id]))
  {
    hide Move, Inv, Enabled, DecisionRowFor;
    assert w.db != NO_CASE;
    ChangesAreGoverned(env, c, w, ev);
  }
}
