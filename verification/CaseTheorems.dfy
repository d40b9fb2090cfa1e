/** What holds over whole runs of a case. */
module CaseTheorems {
  import opened Text
  import opened HashChain
  import opened AuditWriter
  import opened Decisions
  import opened DecisionRules
  import opened RuleEngine
  import opened Lifecycle
  import opened CaseInvariant
  import opened CaseSteps
  import opened CaseCommits
  import opened Protocol

  // ---- the trail ----------------------------------------------------------

  /** At every moment the committed trail is numbered 1..n, linked and hashed without a gap; every hash covers a text that
      tells its entry component by component; and every entry has one row per field, marked changed where it is. */
  lemma TrailIsChain(env: Env, c: string, run: seq<World>, i: nat, k: nat)
    requires IsRun(env, c, run) && i < |run| && k < |run[i].db.trail|
    ensures var trail := run[i].db.trail;
            && trail[k].payload.caseId == c && trail[k].payload.sequence == k + 1
            && (if k == 0 then forall j :: 0 <= j < 32 ==> trail[0].prev[j] == 0 else trail[k].prev == trail[k - 1].hash)
            && trail[k].hash == EntryHash(env.hash, trail[k].payload, trail[k].prev) && HashCovers(env.hash, trail[k])
            && RowsSound(trail[k].payload.values)
  {
    hide IsRun, CaseOk, TxOk, LocksExclusive, EntryHash, HashCovers;
    RunKeepsInv(env, c, run, i);
    assert ChainedAt(env.hash, run[i].db.trail, k);
    EntryHashCovers(env.hash, run[i].db.trail[k]);
  }

  /** Whoever has entries waiting to be committed holds the case's lock and continues the committed chain,
      and nobody else does at the same time. */
  lemma OneWriterAtATime(env: Env, c: string, run: seq<World>, i: nat, a: nat)
    requires IsRun(env, c, run) && i < |run| && a in run[i].active && run[i].active[a].audit != []
    ensures CaseAnchor in run[i].active[a].held && WellChained(env.hash, run[i].db.trail + run[i].active[a].audit)
    ensures forall b :: b in run[i].active && b != a ==>
              run[i].active[b].audit == [] && CaseAnchor !in run[i].active[b].held
  {
    hide IsRun, TablesOk, ProgramOk, PastRows, AllTold, CursorOk, WellChained, PastInputs, CurrentInput;
    RunKeepsInv(env, c, run, i);
    var active := run[i].active;
    assert TxOk(env, c, run[i].db, active[a]);
    forall b | b in active && b != a
      ensures active[b].audit == [] && CaseAnchor !in active[b].held
    {
      assert TxOk(env, c, run[i].db, active[b]);
      assert active[a].held !! active[b].held;
    }
  }

  /** No committed entry has two rows for one field, so the order in which its rows are read back is immaterial: any
      rearrangement of them has the same hash. */
  lemma RowOrderNeverMatters(env: Env, c: string, run: seq<World>, i: nat, k: nat, q: Payload)
    requires IsRun(env, c, run) && i < |run| && k < |run[i].db.trail|
    requires var p := run[i].db.trail[k].payload;
             && p.(values := []) == q.(values := []) && OneRowPerField(q.values) && forall v :: v in p.values <==> v in q.values
    ensures var e := run[i].db.trail[k];
            EntryHash(env.hash, q, e.prev) == e.hash && SameRecord(e.payload, q)
  {
    hide IsRun, CaseOk, TxOk, LocksExclusive, EntryHash, SameRecord;
    RunKeepsInv(env, c, run, i);
    var e := run[i].db.trail[k];
    assert ChainedAt(env.hash, run[i].db.trail, k);
    assert OneRowPerField(e.payload.values);
    RowOrderIrrelevant(env.hash, e.payload, q, e.prev);
  }

  /** A receipt that gets as far as its commit has at most one finding for each field; with two, the key of the value
      rows has refused its second entry. */
  lemma ReceiptFindingsDistinct(env: Env, c: string, w: World, id: nat)
    requires Inv(env, c, w) && id in w.active && w.active[id].program.Receipt? && w.active[id].program.receiptPc.ReceiptCommit?
    ensures var fs := w.active[id].program.receipt.evaluation.findings;
            forall i, j :: 0 <= i < j < |fs| ==> fs[i].fieldName != fs[j].fieldName
  {
    hide TablesOk, LocksExclusive, WellChained, CursorOk, PastRows, Validate;
    var tx := w.active[id];
    var r := tx.program.receipt;
    assert TxOk(env, c, w.db, tx);
    assert Told(env, tx.audit[1], ValidatedInput(c, r));
    ToldAbout(env, tx.audit[1], ValidatedInput(c, r));
    RowsFromFindings(r.evaluation.findings);
  }

  lemma RowsFromFindings(fs: seq<Finding>)
    requires OneRowPerField(RecordedAll(FindingRows(fs)))
    ensures forall i, j :: 0 <= i < j < |fs| ==> fs[i].fieldName != fs[j].fieldName
  {
    var rows := RecordedAll(FindingRows(fs));
    forall i, j | 0 <= i < j < |fs|
      ensures fs[i].fieldName != fs[j].fieldName
    {
      assert RowName(rows[i]) != RowName(rows[j]);
    }
  }

  /** What a trail says happened. */
  datatype Summary = Summary(
    outcome: Option<ReceiptOutcome>, state: Option<CaseState>, status: Option<RecommendationStatus>)

  function OutcomeNamed(text: string): Option<ReceiptOutcome> {
    if text == "VALIDATED_CLEAN" then Some(VALIDATED_CLEAN)
    else if text == "EXCEPTION_OPENED" then Some(EXCEPTION_OPENED)
    else None
  }

  function StateNamed(text: string): Option<CaseState> {
    if text == "OPEN" then Some(OPEN)
    else if text == "RESOLVED" then Some(RESOLVED)
    else if text == "REJECTED" then Some(REJECTED)
    else None
  }

  function StatusNamed(text: string): Option<RecommendationStatus> {
    if text == "PENDING" then Some(PENDING)
    else if text == "AVAILABLE" then Some(AVAILABLE)
    else if text == "UNAVAILABLE" then Some(UNAVAILABLE)
    else None
  }

  /** An entry says by its action what changed and by its after-state what it became. */
  function Tell(s: Summary, p: Payload): Summary {
    match p.action
    case EntryReceived => s
    case ValidationCompleted => s.(outcome := OutcomeNamed(p.afterState))
    case ExceptionOpened => s.(state := StateNamed(p.afterState), status := Some(PENDING))
    case RecommendationGenerated => s.(status := StatusNamed(p.afterState))
    case RecommendationUnavailable => s.(status := StatusNamed(p.afterState))
    case RecommendationApproved => s.(state := StateNamed(p.afterState))
    case RecommendationEditedAndApproved => s.(state := StateNamed(p.afterState))
    case RecommendationRejected => s.(state := StateNamed(p.afterState))
  }

  function Fold(trail: seq<AuditEntry>): Summary {
    if trail == [] then Summary(None, None, None) else Tell(Fold(trail[..|trail| - 1]), trail[|trail| - 1].payload)
  }

  function SummaryOf(db: Tables): Summary {
    Summary(if db.entry.None? then None else Some(db.entry.value.outcome),
            if db.exception.None? then None else Some(db.exception.value.state),
            if db.recommendation.None? then None else Some(db.recommendation.value.status))
  }

  lemma FoldSnoc(trail: seq<AuditEntry>, e: AuditEntry)
    ensures Fold(trail + [e]) == Tell(Fold(trail), e.payload)
  {
    assert (trail + [e])[..|trail|] == trail;
  }

  lemma NamesDiffer()
    ensures forall o: ReceiptOutcome :: OutcomeNamed(if o == EXCEPTION_OPENED then "EXCEPTION_OPENED" else "VALIDATED_CLEAN") == Some(o)
    ensures StateNamed("OPEN") == Some(OPEN) && StateNamed("RESOLVED") == Some(RESOLVED) && StateNamed("REJECTED") == Some(REJECTED)
    ensures StatusNamed("AVAILABLE") == Some(AVAILABLE) && StatusNamed("UNAVAILABLE") == Some(UNAVAILABLE)
  {}

  lemma FoldHead(c: string, db: Tables)
    requires db.entry.Some? && HeadOk(c, db)
    ensures Fold(db.trail[..2]) == Summary(Some(db.entry.value.outcome), None, None)
    ensures db.exception.Some? ==> Fold(db.trail[..3]) == Summary(Some(db.entry.value.outcome), Some(OPEN), Some(PENDING))
  {
    hide OutcomeNamed, StateNamed, StatusNamed;
    var t := db.trail;
    NamesDiffer();
    assert t[..0] == [] && t[..1] == t[..0] + [t[0]] && t[..2] == t[..1] + [t[1]];
    FoldSnoc(t[..0], t[0]);
    FoldSnoc(t[..1], t[1]);
    if db.exception.Some? {
      assert t[..3] == t[..2] + [t[2]];
      FoldSnoc(t[..2], t[2]);
    }
  }

  /** A trail entry, read alone, moves the summary to what the rows now say. */
  lemma TailTells(db: Tables, s: Summary, e: AuditEntry)
    requires db.entry.Some? && db.exception.Some? && db.recommendation.Some? && DecisionOk(db)
    ensures IsAiEntry(db, e) ==> Tell(s, e.payload) == s.(status := Some(db.recommendation.value.status))
    ensures |db.decisions| == 1 && IsDecisionEntry(db, e) && db.exception.value.state != OPEN ==>
              Tell(s, e.payload) == s.(state := Some(db.exception.value.state))
  {
    hide Traceable, RowsTell, OffersAll, OutcomeNamed, StateNamed, StatusNamed;
    NamesDiffer();
    if |db.decisions| == 1 && db.exception.value.state != OPEN {
      assert db.exception.value.state == RESOLVED || db.exception.value.state == REJECTED;
    }
  }

  lemma FoldTail(env: Env, c: string, db: Tables)
    requires TablesOk(env, c, db) && db.exception.Some?
    ensures Fold(db.trail) == SummaryOf(db)
    ensures db.recommendation.Some?
    ensures |db.trail| == 3 + (if db.recommendation.value.status == PENDING then 0 else 1)
                            + (if db.exception.value.state == OPEN then 0 else 1)
  {
    hide WellChained, EntryClean, ProposalsOk, IsAiEntry, IsDecisionEntry, Traceable, Tell;
    var t, tail := db.trail, db.trail[3..];
    FoldHead(c, db);
    hide HeadOk;
    assert t == t[..3] + tail;
    if |tail| >= 1 {
      assert t[..4] == t[..3] + [tail[0]];
      FoldSnoc(t[..3], tail[0]);
      TailTells(db, Fold(t[..3]), tail[0]);
    }
    if |tail| == 2 {
      assert t == t[..4] + [tail[1]];
      FoldSnoc(t[..4], tail[1]);
      TailTells(db, Fold(t[..4]), tail[1]);
    } else if |tail| == 1 {
      assert t == t[..4];
    } else {
      assert t == t[..3];
    }
  }

  /** The log refines the tables: at every moment of every run, folding the committed trail gives exactly the
      receipt outcome, exception state and recommendation status of the committed rows, and its length is fixed by them. */
  lemma LogRefinesTables(env: Env, c: string, run: seq<World>, i: nat)
    requires IsRun(env, c, run) && i < |run|
    ensures Fold(run[i].db.trail) == SummaryOf(run[i].db)
    ensures var db := run[i].db;
            |db.trail| == if db.entry.None? then 0
                          else if db.exception.None? then 2
                          else 3 + (if db.recommendation.Some? && db.recommendation.value.status == PENDING then 0 else 1)
                                 + (if db.exception.value.state == OPEN then 0 else 1)
  {
    RunKeepsInv(env, c, run, i);
    hide IsRun, TxOk, WellChained, EntryClean, ProposalsOk, DecisionOk, TailOk, HeadOk;
    var db := run[i].db;
    if db.exception.Some? {
      FoldTail(env, c, db);
    } else if db.entry.Some? {
      FoldHead(c, db);
      assert db.trail[..2] == db.trail;
    }
  }

  function Actions(trail: seq<AuditEntry>): (actions: seq<Action>)
    ensures |actions| == |trail|
  {
    seq(|trail|, i requires 0 <= i < |trail| => trail[i].payload.action)
  }

  /** What the trail of an exception may hold after its first three entries: at most one answer of the AI and at most
      one decision, in either order. */
  ghost predicate TailActions(db: Tables, tail: seq<Action>)
    requires db.exception.Some? && db.recommendation.Some?
  {
    var ai := if db.recommendation.value.status == AVAILABLE then RecommendationGenerated else Action.RecommendationUnavailable;
    match (db.recommendation.value.status == PENDING, db.exception.value.state == OPEN)
    case (true, true) => tail == []
    case (false, true) => tail == [ai]
    case (true, false) => |db.decisions| == 1 && tail == [DecisionAction(db.decisions[0].decisionType)]
    case (false, false) =>
      |db.decisions| == 1 && (tail == [ai, DecisionAction(db.decisions[0].decisionType)]
                              || tail == [DecisionAction(db.decisions[0].decisionType), ai])
  }

  /** Exactly one entry of the AI if and only if the recommendation has been answered, exactly one of a specialist's
      decision if and only if the case is closed, and nothing else. */
  lemma TrailShape(env: Env, c: string, run: seq<World>, i: nat)
    requires IsRun(env, c, run) && i < |run| && run[i].db.entry.Some?
    ensures run[i].db.exception.None? ==> Actions(run[i].db.trail) == [EntryReceived, ValidationCompleted]
    ensures run[i].db.exception.Some? ==>
              var db, actions := run[i].db, Actions(run[i].db.trail);
              && db.recommendation.Some? && |actions| >= 3
              && actions[..3] == [EntryReceived, ValidationCompleted, ExceptionOpened] && TailActions(db, actions[3..])
  {
    hide IsRun, TxOk, WellChained, EntryClean, ProposalsOk, LocksExclusive, TailActions, IsAiEntry, IsDecisionEntry, Traceable;
    RunKeepsInv(env, c, run, i);
    var db, actions := run[i].db, Actions(run[i].db.trail);
    if db.exception.Some? {
      TailShape(db);
    }
  }

  lemma TailShape(db: Tables)
    requires db.entry.Some? && db.exception.Some? && db.recommendation.Some? && DecisionOk(db) && |db.trail| >= 3 && TailOk(db)
    ensures TailActions(db, Actions(db.trail)[3..])
  {
    hide Traceable, RowsTell, OffersAll;
    var actions, tail := Actions(db.trail)[3..], db.trail[3..];
    assert |actions| == |tail| && forall i :: 0 <= i < |tail| ==> actions[i] == tail[i].payload.action;
  }

  /** The log says what the rows say: a closed case has an entry that names its decider, reason and decision, and whose
      rows are exactly what was adopted or declined; an answered one has an entry of the AI whose rows are exactly its
      proposals against the values received. */
  lemma TrailTellsRows(env: Env, c: string, run: seq<World>, i: nat)
    requires IsRun(env, c, run) && i < |run| && run[i].db.exception.Some?
    ensures var db := run[i].db;
            && db.entry.Some? && db.recommendation.Some?
            && (db.exception.value.state != OPEN ==>
                  |db.decisions| == 1 && exists e :: e in db.trail && IsDecisionEntry(db, e))
            && (db.recommendation.value.status != PENDING ==> exists e :: e in db.trail && IsAiEntry(db, e))
  {
    hide IsRun, TxOk, WellChained, EntryClean, ProposalsOk, HeadOk, IsDecisionEntry, IsAiEntry, Traceable, LocksExclusive;
    RunKeepsInv(env, c, run, i);
    var db := run[i].db;
    CaseIsWhole(env, c, db);
    var tail := db.trail[3..];
    assert forall k :: 0 <= k < |tail| ==> tail[k] in db.trail;
  }

  /** No received case without its assessment, and the first entries of every trail are fixed. */
  lemma ReceivedMeansAssessed(env: Env, c: string, run: seq<World>, i: nat)
    requires IsRun(env, c, run) && i < |run| && run[i].db.entry.Some?
    ensures var db := run[i].db;
            && db.validation.Some?
            && (db.validation.value.outcome == FAIL <==> db.exception.Some?)
            && (db.exception.Some? <==> db.recommendation.Some?)
            && |db.trail| >= 2 && db.trail[0].payload.action == EntryReceived
            && db.trail[1].payload.action == ValidationCompleted
            && (db.exception.Some? ==> |db.trail| >= 3 && db.trail[2].payload.action == ExceptionOpened)
  {
    RunKeepsInv(env, c, run, i);
    hide IsRun, TxOk, WellChained, EntryClean, ProposalsOk, DecisionOk, TailOk;
  }

  // ---- decisions and recommendations over runs ----------------------------

  lemma Next(env: Env, c: string, run: seq<World>, i: nat) returns (ev: Event)
    requires IsRun(env, c, run) && i + 1 < |run|
    ensures Inv(env, c, run[i]) && Enabled(run[i], ev) && Move(env, c, run[i], ev) == run[i + 1]
  {
    hide Inv, Move, Enabled;
    RunKeepsInv(env, c, run, i);
    assert Follows(env, c, run[i], run[i + 1]);
    ev :| Enabled(run[i], ev) && Move(env, c, run[i], ev) == run[i + 1];
  }

  /** Once closed, a case keeps its one decision, its values and its state for the rest of the run. */
  lemma {:induction false} DecidedOnce(env: Env, c: string, run: seq<World>, i: nat, j: nat)
    requires IsRun(env, c, run) && i <= j < |run|
    requires run[i].db.exception.Some? && run[i].db.exception.value.state != OPEN
    ensures var db, db' := run[i].db, run[j].db;
            && |db.decisions| == 1 && db'.decisions == db.decisions && db'.decisionValues == db.decisionValues
            && db'.exception == db.exception
  {
    hide Inv, Move, Enabled, IsRun;
    if i == j {
      RunKeepsInv(env, c, run, i);
      OneDecisionHere(env, c, run[i]);
    } else {
      DecidedOnce(env, c, run, i, j - 1);
      var ev := Next(env, c, run, j - 1);
      ClosedIsFinal(env, c, run[j - 1], ev);
    }
  }

  /** Once out of PENDING, a recommendation and its proposals stay as they are for the rest of the run. */
  lemma {:induction false} AnsweredOnce(env: Env, c: string, run: seq<World>, i: nat, j: nat)
    requires IsRun(env, c, run) && i <= j < |run|
    requires run[i].db.recommendation.Some? && run[i].db.recommendation.value.status != PENDING
    ensures run[j].db.recommendation == run[i].db.recommendation && run[j].db.proposals == run[i].db.proposals
  {
    hide Inv, Move, Enabled, IsRun;
    if i < j {
      AnsweredOnce(env, c, run, i, j - 1);
      var ev := Next(env, c, run, j - 1);
      RecommendationSettlesOnce(env, c, run[j - 1], ev);
    }
  }

  /** A receipt opens its exception; it never closes one, and its recommendation is unanswered. */
  lemma ReceiptOpens(env: Env, c: string, w: World, id: nat)
    requires Inv(env, c, w) && id in w.active && w.active[id].program.Receipt? && AtCommit(w.active[id])
    ensures var db' := Publish(w.db, w.active[id]);
            && (db'.exception.Some? ==> db'.exception.value.state == OPEN)
            && (db'.recommendation.Some? ==> db'.recommendation.value.status == PENDING)
  {
    hide CaseOk, WellChained, AuditOk, PastRows, Publish, LocksExclusive;
    var tx := w.active[id];
    assert TxOk(env, c, w.db, tx);
    ReceiptPublishes(tx, tx.program.receipt, tx.program.receiptPc.refs);
  }

  /** Every closed case was closed at one moment of the run by the commit of a named specialist's decision, and that
      decision is the one it still has. */
  lemma {:induction false} ClosedByHuman(env: Env, c: string, run: seq<World>, j: nat) returns (i: nat, id: nat)
    requires IsRun(env, c, run) && j < |run|
    requires run[j].db.exception.Some? && run[j].db.exception.value.state != OPEN
    ensures i < j && id in run[i].active
    ensures run[i].active[id].program.Decide? && run[i].active[id].program.decisionPc.DecisionCommit?
    ensures ClosedBy(run[i].db, run[i + 1].db, run[i].active[id])
    ensures run[j].db.decisions == run[i + 1].db.decisions && run[j].db.exception == run[i + 1].db.exception
  {
    hide Inv, Move, Enabled, IsRun, ClosedBy, ToldBy, Publish;
    RunStarts(env, c, run);
    var before := run[j - 1].db;
    if before.exception.Some? && before.exception.value.state != OPEN {
      i, id := ClosedByHuman(env, c, run, j - 1);
      DecidedOnce(env, c, run, j - 1, j);
    } else {
      var ev := Next(env, c, run, j - 1);
      i := j - 1;
      id := ClosingMove(env, c, run[i], ev);
    }
  }

  lemma RunStarts(env: Env, c: string, run: seq<World>)
    requires IsRun(env, c, run)
    ensures run != [] && run[0] == START
  {}

  lemma ClosingMove(env: Env, c: string, w: World, ev: Event) returns (id: nat)
    requires Inv(env, c, w) && Enabled(w, ev) && (w.db.exception.Some? ==> w.db.exception.value.state == OPEN)
    requires var db' := Move(env, c, w, ev).db; db'.exception.Some? && db'.exception.value.state != OPEN
    ensures id in w.active && w.active[id].program.Decide? && w.active[id].program.decisionPc.DecisionCommit?
    ensures ClosedBy(w.db, Move(env, c, w, ev).db, w.active[id])
  {
    hide Inv, ClosedBy, ToldBy, Publish, MayBegin, Statement;
    ChangesAreGoverned(env, c, w, ev);
    OnlyCommitsPublish(env, c, w, ev);
    id := ev.id;
    var tx := w.active[id];
    if tx.program.Receipt? {
      ReceiptOpens(env, c, w, id);
    } else if tx.program.Job? {
      TellingKeepsState(w.db, Move(env, c, w, ev).db, tx);
    }
  }

  /** Every answered recommendation was answered at one moment of the run by the commit of one job, and the proposals
      are the ones that job wrote. */
  lemma {:induction false} AnsweredByJob(env: Env, c: string, run: seq<World>, j: nat) returns (i: nat, id: nat)
    requires IsRun(env, c, run) && j < |run|
    requires run[j].db.recommendation.Some? && run[j].db.recommendation.value.status != PENDING
    ensures i < j && id in run[i].active && run[i].active[id].program.Job?
    ensures run[i].active[id].program.jobPc.CommitAvailable? || run[i].active[id].program.jobPc.CommitUnavailable?
    ensures ToldBy(run[i].db, run[i + 1].db, run[i].active[id])
    ensures run[j].db.recommendation == run[i + 1].db.recommendation && run[j].db.proposals == run[i + 1].db.proposals
  {
    hide Inv, Move, Enabled, IsRun, ClosedBy, ToldBy, Publish;
    RunStarts(env, c, run);
    var before := run[j - 1].db;
    if before.recommendation.Some? && before.recommendation.value.status != PENDING {
      i, id := AnsweredByJob(env, c, run, j - 1);
      AnsweredOnce(env, c, run, j - 1, j);
    } else {
      var ev := Next(env, c, run, j - 1);
      i := j - 1;
      id := AnsweringMove(env, c, run[i], ev);
    }
  }

  lemma AnsweringMove(env: Env, c: string, w: World, ev: Event) returns (id: nat)
    requires Inv(env, c, w) && Enabled(w, ev) && (w.db.recommendation.Some? ==> w.db.recommendation.value.status == PENDING)
    requires var db' := Move(env, c, w, ev).db; db'.recommendation.Some? && db'.recommendation.value.status != PENDING
    ensures id in w.active && w.active[id].program.Job?
    ensures w.active[id].program.jobPc.CommitAvailable? || w.active[id].program.jobPc.CommitUnavailable?
    ensures ToldBy(w.db, Move(env, c, w, ev).db, w.active[id])
  {
    hide Inv, ClosedBy, ToldBy, Publish, MayBegin, Statement;
    ChangesAreGoverned(env, c, w, ev);
    OnlyCommitsPublish(env, c, w, ev);
    id := ev.id;
    var tx := w.active[id];
    if tx.program.Receipt? {
      ReceiptOpens(env, c, w, id);
    } else if tx.program.Decide? {
      ClosingKeepsAnswer(w.db, Move(env, c, w, ev).db, tx);
    }
  }

  lemma ClosingKeepsAnswer(db: Tables, db': Tables, tx: Tx)
    requires tx.program.Decide? && tx.program.decisionPc.DecisionCommit? && ClosedBy(db, db', tx)
    ensures db'.recommendation == db.recommendation && db'.proposals == db.proposals
  {
    hide DecisionRowFor, DecisionAction;
  }

  /** The committed trail is append-only. */
  lemma {:induction false} TrailOnlyGrows(env: Env, c: string, run: seq<World>, i: nat, j: nat)
    requires IsRun(env, c, run) && i <= j < |run|
    ensures run[i].db.trail <= run[j].db.trail
  {
    hide Inv, Move, Enabled, IsRun, AtCommit, DecisionRowFor, DecisionAction;
    if i < j {
      TrailOnlyGrows(env, c, run, i, j - 1);
      var ev := Next(env, c, run, j - 1);
      ChangesAreGoverned(env, c, run[j - 1], ev);
    }
  }

  /** The trail has the decision's entry with the row of this value, marked as changed if the value was changed from a
      proposal of the AI. */
  ghost predicate Audited(db: Tables, d: DecisionRow, v: DecisionValue) {
    exists e, r :: e in db.trail && e.payload.decisionId == Some(d.id) && r in e.payload.values && Adopts(r, v)
                   && (v.priorOrigin == Some(AI) && v.changedFromProposal ==> r.changed)
  }

  /** A recorded decision and what it may claim. */
  ghost predicate DecisionTraceable(db: Tables, d: DecisionRow)
    requires db.entry.Some? && db.exception.Some? && db.recommendation.Some?
  {
    && d.id in db.decisionValues && d.decidedBy != "" && d.resulting == db.exception.value.state
    && Traceable(d.decisionType, db.decisionValues[d.id], db.recommendation.value.status, db.proposals, db.entry.value.values)
    && forall v :: v in db.decisionValues[d.id] ==> Audited(db, d, v)
  }

  /** Provenance: at every moment a recorded decision is traceable to the recommendation of its case,
      whatever was generated before or after it, and proposals exist only where they are available. */
  lemma ProvenanceHolds(env: Env, c: string, run: seq<World>, i: nat)
    requires IsRun(env, c, run) && i < |run| && run[i].db.exception.Some?
    ensures run[i].db.entry.Some? && run[i].db.recommendation.Some? && DistinctProposals(run[i].db.proposals)
    ensures run[i].db.proposals != [] ==> run[i].db.recommendation.value.status == AVAILABLE
    ensures forall d :: d in run[i].db.decisions ==> DecisionTraceable(run[i].db, d)
  {
    hide IsRun, TablesOk, TxOk, DistinctProposals, LocksExclusive, DecisionTraceable;
    RunKeepsInv(env, c, run, i);
    ProposalsWhereAvailable(env, c, run[i].db);
    TablesTraceable(env, c, run[i].db);
  }

  lemma ProposalsWhereAvailable(env: Env, c: string, db: Tables)
    requires TablesOk(env, c, db) && db.exception.Some?
    ensures db.entry.Some? && db.recommendation.Some? && DistinctProposals(db.proposals)
    ensures db.proposals != [] ==> db.recommendation.value.status == AVAILABLE
  {
    hide WellChained, EntryClean, HeadOk, TailOk, DecisionOk, DistinctProposals;
  }

  lemma TablesTraceable(env: Env, c: string, db: Tables)
    requires TablesOk(env, c, db) && db.exception.Some? && db.entry.Some? && db.recommendation.Some?
    ensures forall d :: d in db.decisions ==> DecisionTraceable(db, d)
  {
    hide WellChained, EntryClean, HeadOk, ProposalsOk, Traceable, Audited, IsDecisionEntry, IsAiEntry;
    CaseIsWhole(env, c, db);
    if db.decisions != [] {
      var d := db.decisions[0];
      var vs, tail := db.decisionValues[d.id], db.trail[3..];
      assert forall k :: 0 <= k < |tail| ==> tail[k] in db.trail;
      var e :| e in db.trail && IsDecisionEntry(db, e);
      forall v | v in vs
        ensures Audited(db, d, v)
      {
        ValueAudited(db, e, v);
      }
    }
  }

  lemma ValueAudited(db: Tables, e: AuditEntry, v: DecisionValue)
    requires db.entry.Some? && db.exception.Some? && db.recommendation.Some? && |db.decisions| == 1
    requires e in db.trail && IsDecisionEntry(db, e) && v in db.decisionValues[db.decisions[0].id]
    requires var d := db.decisions[0];
             Traceable(d.decisionType, db.decisionValues[d.id], db.recommendation.value.status, db.proposals, db.entry.value.values)
    ensures Audited(db, db.decisions[0], v)
  {
    hide AnswersAll, AllAuthored;
    var d, rows := db.decisions[0], e.payload.values;
    var vs := db.decisionValues[d.id];
    var k :| 0 <= k < |vs| && vs[k] == v;
    assert Adopts(rows[k], v) && rows[k] in rows;
    if v.priorOrigin == Some(AI) && v.changedFromProposal {
      AiPriorAnswers(d.decisionType, vs, db.recommendation.value.status, db.proposals, db.entry.value.values, v, rows[k]);
    }
  }

  lemma AiPriorAnswers(t: DecisionType, vs: seq<DecisionValue>, status: RecommendationStatus, ps: seq<Proposal>,
                       entry: EntryValues, v: DecisionValue, r: AuditValue)
    requires Traceable(t, vs, status, ps, entry) && v in vs && v.priorOrigin == Some(AI) && v.changedFromProposal
    requires Adopts(r, v)
    ensures r.changed
  {
    assert !AllAuthored(vs, entry) by {
      var i :| 0 <= i < |vs| && vs[i] == v;
    }
    var p :| p in ps && Answers(v, p);
    ChangedIsAudited(r, v, p);
  }

  // ---- generation comes to an end -----------------------------------------

  /** An upper bound on the statements a transaction still runs. */
  function StepsLeft(tx: Tx): nat {
    var append := match tx.cursor case Idle => 5 case Checked(_) => 4 case Anchored(_) => 3 case Numbered(_, _) => 2 case Linked(_, _, _) => 1;
    match tx.program
    case Receipt(_, pc) =>
      (match pc
       case InsertEntry => 23 case LockEntry => 22 case AppendReceived => 16 + append case InsertValidation => 15
       case AppendValidated => 9 + append case InsertException => 8 case InsertPlaceholder(_) => 7
       case AppendOpened(_, _) => 1 + append case ReceiptCommit(_) => 0)
    case Job(_, pc) =>
      (match pc
       case Precheck => 18 case ReadCase(_) => 17 case Generate(_, _) => 16
       case MarkAvailable(_, _, _) => 15 case InsertValues(_, _, _) => 14
       case AppendGenerated(_, _, _) => 8 + append case CommitAvailable(_, _, _) => 0
       case MarkUnavailable(_, _) => 7 case AppendUnavailable(_, _) => 1 + append case CommitUnavailable(_, _) => 0)
    case Decide(_, _, pc) =>
      (match pc
       case LockCase => 13 case LoadRecommendation => 12 case Branch(_, _) => 11 case LockAnchor(_, _) => 10
       case InsertDecision(_, _) => 9 case InsertResolution(_, _, _) => 8 case CloseCase(_, _, _) => 7
       case AppendDecision(_, _, _) => 1 + append case DecisionCommit(_, _, _) => 0)
  }

  lemma AppendAdvances(env: Env, db: Tables, tx: Tx, entry: AppendInput, next: Program)
    ensures var effect := AppendStep(env, db, tx, entry, next);
            effect.Continue? ==>
              if tx.cursor.Linked? then effect.tx.program == next && effect.tx.cursor == Idle
              else
                && effect.tx.program == tx.program
                && match tx.cursor case Idle => effect.tx.cursor.Checked? case Checked(_) => effect.tx.cursor.Anchored?
                                   case Anchored(_) => effect.tx.cursor.Numbered? case _ => effect.tx.cursor.Linked?
  {
    hide Validate, MaxSequence, PrevHash, RowNumbered, MakeEntry;
  }

  /** Every transaction ends after finitely many of its own statements, the job's fallback included. */
  lemma StatementsRunOut(env: Env, c: string, db: Tables, tx: Tx, x: Outside)
    requires CurrentInput(c, tx.program).None? ==> tx.cursor == Idle
    ensures var effect := Statement(env, c, db, tx, x);
            effect.Continue? ==> StepsLeft(effect.tx) < StepsLeft(tx)
  {
    hide AppendStep, MakePlan, GeneratedInput, UnavailableInput, ReceivedInput, ValidatedInput, OpenedInput, DecidedInput,
      RealFields, DecisionRowFor, StoredValues, OutcomeOf;
    match tx.program
    case Receipt(r, pc) =>
      match pc {
        case AppendReceived => AppendAdvances(env, db, tx, ReceivedInput(c, r), Receipt(r, InsertValidation));
        case AppendValidated =>
          AppendAdvances(env, db, tx, ValidatedInput(c, r),
                         Receipt(r, if r.evaluation.outcome == FAIL then InsertException else ReceiptCommit(None)));
        case AppendOpened(ex, rec) =>
          AppendAdvances(env, db, tx, OpenedInput(c, r, ex), Receipt(r, ReceiptCommit(Some(Opened(ex, rec)))));
        case _ =>
      }
    case Job(ex, pc) =>
      match pc {
        case AppendGenerated(rec, entry, ps) =>
          AppendAdvances(env, db, tx, GeneratedInput(c, ex, rec, entry, ps), Job(ex, CommitAvailable(rec, entry, ps)));
        case AppendUnavailable(rec, reason) =>
          AppendAdvances(env, db, tx, UnavailableInput(c, ex, rec), Job(ex, CommitUnavailable(rec, reason)));
        case _ =>
      }
    case Decide(ex, d, pc) =>
      match pc {
        case AppendDecision(rec, plan, id) =>
          AppendAdvances(env, db, tx, DecidedInput(c, ex, rec, id, d, plan), Decide(ex, d, DecisionCommit(rec, plan, id)));
        case _ =>
      }
  }

  /** A job that ends of its own accord leaves a recommendation that is no longer PENDING:
      it answered it, or found it answered. */
  lemma JobEndsAnswered(env: Env, c: string, w: World, id: nat, x: Outside)
    requires Inv(env, c, w) && Enabled(w, Run(id, x)) && w.active[id].program.Job?
    requires Statement(env, c, w.db, w.active[id], x).Commit?
    ensures var w' := Move(env, c, w, Run(id, x));
            w'.db.recommendation.Some? && w'.db.recommendation.value.status != PENDING
  {
    hide WellChained, CaseOk, CursorOk, Told, Publish, ApplyAll, AppendStep, Validate, ToldBy, GeneratedInput, UnavailableInput;
    var tx := w.active[id];
    assert TxOk(env, c, w.db, tx);
    CommitCases(env, c, w.db, tx, x);
    if AtCommit(tx) {
      JobTells(env, c, w.db, tx);
      TellingSettles(w.db, Publish(w.db, tx), tx);
    } else {
      AppendNeverCommits(env, w.db, tx);
      NothingPublished(w.db, tx);
      CaseIsWhole(env, c, w.db);
    }
  }

  lemma CaseIsWhole(env: Env, c: string, db: Tables)
    requires TablesOk(env, c, db) && db.exception.Some?
    ensures db.entry.Some? && db.validation.Some? && db.recommendation.Some? && |db.trail| >= 3
  {
    hide WellChained, EntryClean, ProposalsOk, DecisionOk, TailOk;
  }

  lemma TellingSettles(db: Tables, db': Tables, tx: Tx)
    requires tx.program.Job? && (tx.program.jobPc.CommitAvailable? || tx.program.jobPc.CommitUnavailable?)
    requires ToldBy(db, db', tx)
    ensures db'.recommendation.Some? && db'.recommendation.value.status != PENDING
  {}

  /** The grounds on which a job's statement fails: the provider throws, or the tables refuse the rows it proposed. */
  predicate JobRefused(tx: Tx, x: Outside)
    requires tx.program.Job?
  {
    (tx.program.jobPc.Generate? && x.reply.Throws?) ||
    (tx.program.jobPc.InsertValues? && !ProposalsStorable(tx.program.jobPc.proposals))
  }

  /** A job's statement fails exactly on these grounds; a value that looks like a secret is not a failure but an
      UNAVAILABLE answer in a second transaction. */
  lemma JobRefusedIff(env: Env, c: string, db: Tables, tx: Tx, x: Outside)
    requires TablesOk(env, c, db) && TxOk(env, c, db, tx) && tx.program.Job?
    ensures Statement(env, c, db, tx, x).Fail? <==> JobRefused(tx, x)
  {
    hide WellChained, CaseOk, AuditOk, AppendStep, ProposalsStorable, RealFields, AllRealFields, Validate,
      OneRowPerField, GeneratedInput, UnavailableInput;
    var ex, pc := tx.program.exceptionId, tx.program.jobPc;
    match pc {
      case AppendGenerated(rec, entry, ps) =>
        AppendStepKeeps(env, c, db, tx, GeneratedInput(c, ex, rec, entry, ps), Job(ex, CommitAvailable(rec, entry, ps)));
        GeneratedOnlyForbidden(env, c, ex, rec, entry, ps);
        LinkedValues(env, c, db, tx, GeneratedInput(c, ex, rec, entry, ps));
        GeneratedOnePerField(env, c, ex, rec, entry, ps);
      case AppendUnavailable(rec, reason) =>
        AppendStepKeeps(env, c, db, tx, UnavailableInput(c, ex, rec), Job(ex, CommitUnavailable(rec, reason)));
        LinkedValues(env, c, db, tx, UnavailableInput(c, ex, rec));
        UnavailableAccepted(env, c, ex, rec);
      case _ =>
    }
  }

  lemma LinkedValues(env: Env, c: string, db: Tables, tx: Tx, entry: AppendInput)
    requires AuditOk(env, c, db, tx) && CurrentInput(c, tx.program) == Some(entry)
    ensures tx.cursor.Linked? ==> Validate(env, entry) == Ok(tx.cursor.values)
  {
    hide WellChained, AllTold, CurrentInput, Validate;
  }

  lemma GeneratedOnePerField(env: Env, c: string, ex: string, rec: string, entry: EntryValues, ps: seq<Proposal>)
    requires ProposalsStorable(ps)
    ensures var v := Validate(env, GeneratedInput(c, ex, rec, entry, ps));
            v.Ok? ==> OneRowPerField(v.value)
  {
    hide Validate, OneRowPerField;
    var rows := ProposalRows(entry, ps);
    forall i, j | 0 <= i < j < |rows|
      ensures rows[i].fieldName != rows[j].fieldName
    {
      assert ProposalName(ps[i]) != ProposalName(ps[j]);
    }
    RowsOnePerField(rows);
    if Validate(env, GeneratedInput(c, ex, rec, entry, ps)).Ok? {
      AcceptedRows(env, GeneratedInput(c, ex, rec, entry, ps));
    }
  }

  lemma UnavailableAccepted(env: Env, c: string, ex: string, rec: string)
    ensures Validate(env, UnavailableInput(c, ex, rec)) == Ok([]) && OneRowPerField([])
  {
    ValidateIff(env, UnavailableInput(c, ex, rec));
  }

  lemma GeneratedOnlyForbidden(env: Env, c: string, ex: string, rec: string, entry: EntryValues, ps: seq<Proposal>)
    requires AllRealFields(ps)
    ensures var v := Validate(env, GeneratedInput(c, ex, rec, entry, ps));
            v.Ok? || v == Err(ForbiddenContent)
  {
    hide NormaliseValues;
    var input := GeneratedInput(c, ex, rec, entry, ps);
    OnlySecretsRefuse(env, input.values);
    var v := Validate(env, input);
    if v.Err? {
      assert v == Err(v.error) && v.error != Invalid && v.error != SequenceConflict;
    }
  }
}
