/** A decision resubmitted under its key, at any later moment of the run. */
module CaseReplay {
  import opened Text
  import opened HashChain
  import opened AuditWriter
  import opened Decisions
  import opened Replay
  import opened RuleEngine
  import opened Lifecycle
  import opened CaseInvariant
  import opened CaseCommits
  import opened Protocol
  import opened CaseTheorems
  import KeyOrder

  /** What the caller is told about a decision. */
  datatype Response = Response(
    id: string, decisionType: DecisionType, decidedBy: string, reason: Option<string>, values: seq<DecisionValue>,
    exceptionId: string, state: CaseState, entry: AuditEntry, isReplay: bool)

  datatype PreCheckOutcome = Fresh | KeyReused | Replayed(response: Response) | RowMissing

  function DecisionUnder(ds: seq<DecisionRow>, key: string): Option<DecisionRow> {
    if ds == [] then None else if ds[0].key == Some(key) then Some(ds[0]) else DecisionUnder(ds[1..], key)
  }

  function EntryAbout(trail: seq<AuditEntry>, decisionId: string): Option<AuditEntry> {
    if trail == [] then None
    else if trail[0].payload.decisionId == Some(decisionId) then Some(trail[0])
    else EntryAbout(trail[1..], decisionId)
  }

  /** The look-up made before any transaction begins; it reads the committed rows and writes nothing. */
  function PreCheck(db: Tables, body: Body, key: Option<string>): PreCheckOutcome {
    if key.None? then Fresh
    else match DecisionUnder(db.decisions, key.value) {
      case None => Fresh
      case Some(row) =>
        var stored := LoadDecisionValues(if row.id in db.decisionValues then db.decisionValues[row.id] else []);
        if !Matches(row.decisionType, row.reason, stored, body) then KeyReused
        else if db.exception.None? || EntryAbout(db.trail, row.id).None? then RowMissing
        else
          Replayed(Response(row.id, row.decisionType, row.decidedBy, row.reason, stored, db.exception.value.id,
                            db.exception.value.state, EntryAbout(db.trail, row.id).value, true))
    }
  }

  lemma {:induction false} DecisionUnderIff(ds: seq<DecisionRow>, key: string)
    ensures DecisionUnder(ds, key).Some? <==> exists d :: d in ds && d.key == Some(key)
    ensures DecisionUnder(ds, key).Some? ==> DecisionUnder(ds, key).value in ds && DecisionUnder(ds, key).value.key == Some(key)
  {
    if ds != [] {
      DecisionUnderIff(ds[1..], key);
      assert ds == [ds[0]] + ds[1..];
    }
  }

  /** The look-up lets the transaction begin exactly when the caller gave no key or no decision is recorded under it;
      otherwise it answers for a decision under that key, with `KeyReused` exactly when the body is not that decision's. */
  lemma FreshIff(db: Tables, body: Body, key: Option<string>)
    ensures PreCheck(db, body, key) == Fresh <==> key.None? || forall d :: d in db.decisions ==> d.key != key
    ensures PreCheck(db, body, key) != Fresh ==>
              exists d :: d in db.decisions && d.key == key &&
                (PreCheck(db, body, key) == KeyReused <==>
                 !Matches(d.decisionType, d.reason,
                          LoadDecisionValues(if d.id in db.decisionValues then db.decisionValues[d.id] else []), body))
  {
    hide Matches, EntryAbout, LoadDecisionValues;
    if key.Some? {
      DecisionUnderIff(db.decisions, key.value);
    }
  }

  /** What the transaction itself answered. */
  function ResponseOf(tx: Tx): Response
    requires tx.program.Decide? && tx.program.decisionPc.DecisionCommit? && |tx.audit| == 1
  {
    var pc := tx.program.decisionPc;
    Response(pc.decisionId, pc.plan.decisionType, tx.program.decision.principal, pc.plan.reason, pc.plan.values,
             tx.program.exceptionId, pc.plan.resulting, tx.audit[0], false)
  }

  predicate SameUpToValueOrder(a: Response, b: Response) {
    a.(values := b.values, isReplay := b.isReplay) == b && multiset(a.values) == multiset(b.values)
  }

  lemma {:induction false} EntryAboutFinds(trail: seq<AuditEntry>, decisionId: string, k: nat)
    requires k < |trail| && trail[k].payload.decisionId == Some(decisionId)
    requires forall i :: 0 <= i < |trail| && i != k ==> trail[i].payload.decisionId == None
    ensures EntryAbout(trail, decisionId) == Some(trail[k])
  {
    if k > 0 {
      EntryAboutFinds(trail[1..], decisionId, k - 1);
    }
  }

  /** On a closed case exactly one entry is about a decision. */
  lemma OneEntryAbout(env: Env, c: string, db: Tables) returns (k: nat)
    requires TablesOk(env, c, db) && db.exception.Some? && db.exception.value.state != OPEN
    ensures k < |db.trail| && db.trail[k].payload.decisionId.Some?
    ensures forall i :: 0 <= i < |db.trail| && i != k ==> db.trail[i].payload.decisionId == None
  {
    hide WellChained, EntryClean, ProposalsOk, OffersAll, RowsTell, Traceable, DecisionAction;
    var tail := db.trail[3..];
    assert forall i :: 3 <= i < |db.trail| ==> db.trail[i] == tail[i - 3];
    k := if IsDecisionEntry(db, tail[0]) then 3 else 4;
  }

  /** The committed rows right after the commit, and at every later moment. */
  lemma RecordStands(env: Env, c: string, run: seq<World>, i: nat, id: nat, x: Outside, j: nat)
    requires IsRun(env, c, run) && i < j < |run|
    requires Enabled(run[i], Run(id, x)) && Move(env, c, run[i], Run(id, x)) == run[i + 1]
    requires run[i].active[id].program.Decide? && run[i].active[id].program.decisionPc.DecisionCommit?
    ensures var tx, db := run[i].active[id], run[j].db;
            var d, pc := tx.program.decision, tx.program.decisionPc;
            && |tx.audit| == 1 && EntryAbout(db.trail, pc.decisionId) == Some(tx.audit[0])
            && db.exception == Some(ExceptionRow(tx.program.exceptionId, pc.plan.resulting, Some(pc.decisionId)))
            && db.decisions == [DecisionRowFor(d, pc.recommendationId, pc.plan, pc.decisionId)]
            && db.decisionValues == map[pc.decisionId := pc.plan.values]
  {
    hide TablesOk, AuditOk, PastRows, MakePlan, DecisionAction, IsRun, Publish, DecisionRowFor, LockFree, LocksExclusive;
    var tx := run[i].active[id];
    RunKeepsInv(env, c, run, i);
    assert TxOk(env, c, run[i].db, tx);
    DecisionCloses(env, c, run[i].db, tx);
    DecidedOnce(env, c, run, i + 1, j);
    TrailOnlyGrows(env, c, run, i + 1, j);
    RunKeepsInv(env, c, run, j);
    var k := OneEntryAbout(env, c, run[j].db);
    var n := |run[i].db.trail|;
    assert run[j].db.trail[n] == tx.audit[0];
    EntryAboutFinds(run[j].db.trail, tx.program.decisionPc.decisionId, k);
  }

  lemma PlanAtCommit(env: Env, c: string, run: seq<World>, i: nat, id: nat)
    requires IsRun(env, c, run) && i < |run| && id in run[i].active
    requires run[i].active[id].program.Decide? && run[i].active[id].program.decisionPc.DecisionCommit?
    ensures var db, plan := run[i].db, run[i].active[id].program.decisionPc.plan;
            && db.entry.Some? && DistinctProposals(db.proposals)
            && MakePlan(run[i].active[id].program.decision.body, plan.seen, db.proposals, db.entry.value.values) == Ok(plan)
  {
    hide AuditOk, PastRows, MakePlan, IsRun, LocksExclusive, DistinctProposals, TailOk, HeadOk, EntryClean, DecisionOk,
      WellChained;
    RunKeepsInv(env, c, run, i);
    assert TxOk(env, c, run[i].db, run[i].active[id]);
  }

  /** What the look-up finds under the key of a recorded decision: its one row, its values as read back, its entry. */
  lemma LookUp(env: Env, c: string, run: seq<World>, i: nat, id: nat, x: Outside, j: nat, body: Body)
    requires IsRun(env, c, run) && i < j < |run|
    requires Enabled(run[i], Run(id, x)) && Move(env, c, run[i], Run(id, x)) == run[i + 1]
    requires run[i].active[id].program.Decide? && run[i].active[id].program.decisionPc.DecisionCommit?
    requires run[i].active[id].program.decision.key.Some?
    ensures var tx := run[i].active[id];
            var d, plan := tx.program.decision, tx.program.decisionPc.plan;
            && |tx.audit| == 1
            && PreCheck(run[j].db, body, d.key) ==
                 if Matches(plan.decisionType, plan.reason, LoadDecisionValues(plan.values), body) then
                   Replayed(ResponseOf(tx).(values := LoadDecisionValues(plan.values), isReplay := true))
                 else KeyReused
  {
    hide IsRun, Move, MakePlan, LoadDecisionValues, Matches, EntryAbout, LockFree;
    RecordStands(env, c, run, i, id, x, j);
  }

  /** A recorded body resubmitted under its key, at any later moment, gets the record back up to the order of its values;
      nothing is written. */
  lemma ReplayReturnsTheRecord(env: Env, c: string, run: seq<World>, i: nat, id: nat, x: Outside, j: nat)
    requires IsRun(env, c, run) && i < j < |run|
    requires Enabled(run[i], Run(id, x)) && Move(env, c, run[i], Run(id, x)) == run[i + 1]
    requires run[i].active[id].program.Decide? && run[i].active[id].program.decisionPc.DecisionCommit?
    requires run[i].active[id].program.decision.key.Some?
    ensures var tx := run[i].active[id];
            var d := tx.program.decision;
            && |tx.audit| == 1
            && PreCheck(run[j].db, d.body, d.key).Replayed?
            && SameUpToValueOrder(ResponseOf(tx), PreCheck(run[j].db, d.body, d.key).response)
  {
    var tx := run[i].active[id];
    var d, plan := tx.program.decision, tx.program.decisionPc.plan;
    hide IsRun, Move, Enabled, MakePlan, LoadDecisionValues, Matches, DistinctProposals, PreCheck;
    LookUp(env, c, run, i, id, x, j, d.body);
    PlanAtCommit(env, c, run, i, id);
    RecordedBodyMatches(d.body, plan.seen, run[i].db.proposals, run[i].db.entry.value.values);
    PlanStores(d.body, plan.seen, run[i].db.proposals, run[i].db.entry.value.values);
    LoadKeepsMap(plan.values);
  }

  /** The body says what the plan recorded: the type, the normalised reason and, where it names values, as many of them,
      no field with two, and none that is not recorded. */
  predicate Repeats(body: Body, plan: Plan) {
    && body.decisionType == plan.decisionType && NormalisedReason(body.reason) == plan.reason
    && (body.values.Some? ==>
          && |body.values.value| == |plan.values| && Consistent(body.values.value)
          && Within(MapOf(body.values.value), MapOf(Pairs(plan.values))))
  }

  /** Any body at all under the key of a recorded decision, at any later moment, gets the record or a refusal, and the
      record exactly when it repeats it; without a repeated field that is when its fields and texts are the recorded ones. */
  lemma RecordOrKeyReused(env: Env, c: string, run: seq<World>, i: nat, id: nat, x: Outside, j: nat, body: Body)
    requires IsRun(env, c, run) && i < j < |run|
    requires Enabled(run[i], Run(id, x)) && Move(env, c, run[i], Run(id, x)) == run[i + 1]
    requires run[i].active[id].program.Decide? && run[i].active[id].program.decisionPc.DecisionCommit?
    requires run[i].active[id].program.decision.key.Some?
    ensures var d, plan := run[i].active[id].program.decision, run[i].active[id].program.decisionPc.plan;
            && PreCheck(run[j].db, body, d.key) ==
                 (if Repeats(body, plan) then PreCheck(run[j].db, d.body, d.key) else KeyReused)
            && (body.values.Some? && KeyOrder.DistinctKeys(SubmittedName, body.values.value) ==>
                  (Repeats(body, plan) <==>
                     && body.decisionType == plan.decisionType && NormalisedReason(body.reason) == plan.reason
                     && MapOf(body.values.value) == MapOf(Pairs(plan.values))))
  {
    var tx := run[i].active[id];
    var d, plan := tx.program.decision, tx.program.decisionPc.plan;
    hide IsRun, Move, Enabled, MakePlan, LoadDecisionValues, DistinctProposals, PreCheck, MapOf, Within, Consistent,
      ValuesMatch;
    LookUp(env, c, run, i, id, x, j, body);
    LookUp(env, c, run, i, id, x, j, d.body);
    PlanAtCommit(env, c, run, i, id);
    RecordedBodyMatches(d.body, plan.seen, run[i].db.proposals, run[i].db.entry.value.values);
    PlanStores(d.body, plan.seen, run[i].db.proposals, run[i].db.entry.value.values);
    LoadKeepsMap(plan.values);
    LoadKeepsLength(plan.values);
    if body.values.Some? {
      ValuesMatchExactly(LoadDecisionValues(plan.values), body.values.value);
      if KeyOrder.DistinctKeys(SubmittedName, body.values.value) {
        ValuesMatchIff(LoadDecisionValues(plan.values), body.values.value);
      }
    }
  }

  lemma LoadKeepsLength(vs: seq<DecisionValue>)
    requires KeyOrder.DistinctKeys(DecisionName, vs)
    ensures |LoadDecisionValues(vs)| == |vs|
  {
    hide LoadDecisionValues, MapOf;
    LoadKeepsMap(vs);
    assert |LoadDecisionValues(vs)| == |multiset(LoadDecisionValues(vs))| == |multiset(vs)| == |vs|;
  }
}
