/** No open case is stuck: once those at work have come to their ends, any decision the rules accept can be taken through
    to its commit. */
module CaseClosing {
  import opened Text
  import opened HashChain
  import opened AuditWriter
  import opened Decisions
  import opened DecisionRules
  import opened RuleEngine
  import opened Lifecycle
  import opened CaseInvariant
  import opened CaseSteps
  import opened CaseCommits
  import opened Protocol
  import opened CaseTheorems
  import opened CaseRefusals
  import opened CaseWaits
  import opened CaseProgress

  // ---- what a schedule changes --------------------------------------------

  /** An exception case, read later: closed for good, answered for good, and otherwise not changed at all. */
  ghost predicate Later(db: Tables, db': Tables)
    requires db.exception.Some? && db.recommendation.Some?
  {
    && db'.exception.Some? && db'.recommendation.Some?
    && (db.exception.value.state != OPEN ==> db'.exception == db.exception)
    && (db.recommendation.value.status != PENDING ==>
          db'.recommendation == db.recommendation && db'.proposals == db.proposals)
    && (db'.exception == db.exception && db'.recommendation.value.status == db.recommendation.value.status ==> db' == db)
    && (db'.exception != db.exception ==> db'.exception.value.state != OPEN)
  }

  lemma MoveLater(env: Env, c: string, w: World, ev: Event)
    requires Inv(env, c, w) && Enabled(w, ev) && w.db.exception.Some? && w.db.recommendation.Some?
    ensures Later(w.db, Move(env, c, w, ev).db)
  {
    hide Move, Inv, Enabled, DecisionRowFor, DecisionAction;
    ChangesAreGoverned(env, c, w, ev);
  }

  lemma {:induction false} PlayLater(env: Env, c: string, w: World, evs: seq<Event>)
    requires Inv(env, c, w) && w.db.exception.Some? && w.db.recommendation.Some? && Play(env, c, w, evs).Some?
    ensures Later(w.db, Play(env, c, w, evs).value.db)
    decreases |evs|
  {
    hide Move, Inv, Enabled;
    if evs != [] {
      MoveLater(env, c, w, evs[0]);
      MoveKeepsInv(env, c, w, evs[0]);
      PlayLater(env, c, Move(env, c, w, evs[0]), evs[1..]);
    }
  }

  /** The same kind of program. */
  predicate SameKind(a: Program, b: Program) {
    a.Receipt? == b.Receipt? && a.Job? == b.Job? && a.Decide? == b.Decide?
  }

  lemma KindKept(env: Env, c: string, db: Tables, tx: Tx, x: Outside)
    ensures var effect := Statement(env, c, db, tx, x);
            effect.Continue? ==> SameKind(tx.program, effect.tx.program)
  {
    hide Validate, MaxSequence, PrevHash, RowNumbered, MakeEntry, OneRowPerField, MakePlan, PayloadOf, RealFields,
      GeneratedInput, UnavailableInput, ReceivedInput, ValidatedInput, OpenedInput, DecidedInput, ProposalsStorable,
      StoredValues, DecisionRowFor, ReasonStorable, ValuesStorable, OutcomeOf;
  }

  lemma MoveKinds(env: Env, c: string, w: World, ev: Event)
    requires Enabled(w, ev) && !ev.Begin?
    ensures ev.id in w.active
    ensures var active' := Move(env, c, w, ev).active;
            forall o :: o in active' ==> o in w.active && SameKind(w.active[o].program, active'[o].program)
  {
    hide Statement, WantedLock, Publish;
    if ev.Run? {
      KindKept(env, c, w.db, w.active[ev.id], ev.outside);
    }
  }

  /** Without a decision among those that move the case is not closed, and without a job it is not answered. */
  lemma {:induction false} WhoChanges(env: Env, c: string, w: World, evs: seq<Event>)
    requires Inv(env, c, w) && w.db.exception.Some? && w.db.recommendation.Some? && Play(env, c, w, evs).Some?
    requires forall ev :: ev in evs ==> !ev.Begin?
    ensures var db' := Play(env, c, w, evs).value.db;
            && ((forall ev :: ev in evs && ev.id in w.active ==> !w.active[ev.id].program.Decide?) ==>
                  db'.exception == w.db.exception)
            && ((forall ev :: ev in evs && ev.id in w.active ==> !w.active[ev.id].program.Job?) ==>
                  db'.recommendation == w.db.recommendation && db'.proposals == w.db.proposals)
    decreases |evs|
  {
    hide Move, Inv, Enabled;
    if evs != [] {
      assert evs[0] in evs && forall ev :: ev in evs[1..] ==> ev in evs;
      MoveLater(env, c, w, evs[0]);
      MoveKeepsInv(env, c, w, evs[0]);
      MoveKinds(env, c, w, evs[0]);
      OneChange(env, c, w, evs[0]);
      WhoChanges(env, c, Move(env, c, w, evs[0]), evs[1..]);
    }
  }

  lemma OneChange(env: Env, c: string, w: World, ev: Event)
    requires Inv(env, c, w) && Enabled(w, ev) && w.db.exception.Some? && w.db.recommendation.Some?
    requires !ev.Begin? && ev.id in w.active
    ensures var db' := Move(env, c, w, ev).db;
            && (!w.active[ev.id].program.Decide? ==> db'.exception == w.db.exception)
            && (!w.active[ev.id].program.Job? ==>
                  db'.recommendation == w.db.recommendation && db'.proposals == w.db.proposals)
  {
    hide Move, Inv, Enabled, DecisionRowFor, DecisionAction;
    ChangesAreGoverned(env, c, w, ev);
  }

  // ---- a decision is taken through ----------------------------------------

  /** A decision that nobody stands in the way of, acceptable and up to date, runs through to its commit. */
  lemma {:induction false} Drive(env: Env, c: string, w: World, id: nat, d: DecisionRequest, x: Outside)
    returns (evs: seq<Event>, w': World)
    requires Inv(env, c, w) && id in w.active
    requires forall other :: other in w.active && other != id ==> w.active[other].held == {}
    requires w.db.exception.Some? && w.db.recommendation.Some?
    requires Acceptable(env, w.db, d) && UpToDate(w.db, d, w.active[id])
    ensures Play(env, c, w, evs) == Some(w') && ClosedAsAsked(w.db, w'.db, d) && w'.active == w.active - {id}
    ensures forall ev :: ev in evs ==> ev == Run(id, x)
    decreases StepsLeft(w.active[id])
  {
    hide Inv, Acceptable, UpToDate, Statement, StepsLeft, Publish, ClosedAsAsked, WantedLock, CanRun, Enabled, Play;
    var tx := w.active[id];
    assert tx.program.Decide? by { DecisionAtWork(w.db, d, tx); }
    Unopposed(w, id);
    AcceptableAdvances(env, c, w, id, d, x);
    OneStep(env, c, w, id, x);
    var w1 := Move(env, c, w, Run(id, x));
    if tx.program.decisionPc.DecisionCommit? {
      Together(env, c, w, id);
      CommitCloses(env, c, w.db, d, tx);
      evs, w' := [Run(id, x)], w1;
      PlayOne(env, c, w, Run(id, x));
    } else {
      SameOthers(w.active, w1.active, id);
      var rest;
      rest, w' := Drive(env, c, w1, id, d, x);
      evs := [Run(id, x)] + rest;
      PlayFirst(env, c, w, Run(id, x), rest);
      assert w1.active - {id} == w.active - {id};
    }
  }

  lemma PlayOne(env: Env, c: string, w: World, ev: Event)
    requires Enabled(w, ev)
    ensures Play(env, c, w, [ev]) == Some(Move(env, c, w, ev))
  {
    hide Move, Enabled;
    assert [ev][1..] == [];
  }

  /** The decision begins where nobody holds a lock, and runs through. */
  lemma BeginAndDrive(env: Env, c: string, w: World, id: nat, d: DecisionRequest, now: string, x: Outside)
    returns (evs: seq<Event>, w': World)
    requires Inv(env, c, w) && id !in w.active && forall other :: other in w.active ==> w.active[other].held == {}
    requires w.db.exception.Some? && w.db.recommendation.Some? && Acceptable(env, w.db, d)
    ensures Play(env, c, w, evs) == Some(w') && ClosedAsAsked(w.db, w'.db, d) && w'.active == w.active
    ensures evs != [] && evs[0] == Begin(id, Decide(w.db.exception.value.id, d, LockCase), now)
    ensures forall ev :: ev in evs[1..] ==> ev == Run(id, x)
  {
    hide Inv, Acceptable, ClosedAsAsked, Play;
    var begin := Begin(id, Decide(w.db.exception.value.id, d, LockCase), now);
    MoveKeepsInv(env, c, w, begin);
    var w1 := Move(env, c, w, begin);
    var rest;
    rest, w' := Drive(env, c, w1, id, d, x);
    evs := [begin] + rest;
    PlayFirst(env, c, w, begin, rest);
    assert w1.active - {id} == w.active;
  }

  // ---- no open case is stuck ----------------------------------------------

  /** Those at work with a lock run on to their ends, at most one of them the victim of a deadlock; then nobody else has
      moved, nobody holds a lock, and the case is as `m` says. */
  ghost predicate SettlesInto(env: Env, c: string, w: World, before: seq<Event>, victim: seq<Event>, after: seq<Event>,
                              m: World) {
    && HoldersRunOn(env, c, w, before, victim, after) && Play(env, c, w, before + victim + after) == Some(m)
    && m.active == Resting(w.active)
  }

  /** Every decision at work holds no lock. */
  predicate NoDecider(w: World) {
    forall id :: id in w.active && w.active[id].program.Decide? ==> w.active[id].held == {}
  }

  /** Every job at work holds no lock. */
  predicate NoAnswerer(w: World) {
    forall id :: id in w.active && w.active[id].program.Job? ==> w.active[id].held == {}
  }

  lemma Settle(env: Env, c: string, run: seq<World>, x: Outside, jobYields: bool)
    returns (before: seq<Event>, victim: seq<Event>, after: seq<Event>, m: World)
    requires IsRun(env, c, run) && run != [] && Last(run).db.exception.Some?
    ensures SettlesInto(env, c, Last(run), before, victim, after, m) && Inv(env, c, m)
    ensures Last(run).db.recommendation.Some? && Later(Last(run).db, m.db)
    ensures NoDecider(Last(run)) ==> m.db.exception == Last(run).db.exception
    ensures NoAnswerer(Last(run)) ==>
              m.db.recommendation == Last(run).db.recommendation && m.db.proposals == Last(run).db.proposals
  {
    hide IsRun, Inv, Play, Later, KnownClean, InWaitCycle;
    RunKeepsInv(env, c, run, |run| - 1);
    OpenCaseIsWhole(env, c, run);
    var w := Last(run);
    before, victim, after, m := LetHoldersFinish(env, c, w, x, jobYields);
    PlayLater(env, c, w, before + victim + after);
    NobodyBegins(env, c, w, before, victim, after);
    WhoChanges(env, c, w, before + victim + after);
  }

  lemma NobodyBegins(env: Env, c: string, w: World, before: seq<Event>, victim: seq<Event>, after: seq<Event>)
    requires HoldersRunOn(env, c, w, before, victim, after)
    ensures forall ev :: ev in before + victim + after ==> !ev.Begin? && ev.id in w.active && w.active[ev.id].held != {}
  {
    hide Play, InWaitCycle;
    forall ev | ev in before + victim + after
      ensures !ev.Begin?
    {
      assert ev in before + after || ev in victim;
    }
  }

  lemma OpenCaseIsWhole(env: Env, c: string, run: seq<World>)
    requires IsRun(env, c, run) && run != [] && Last(run).db.exception.Some?
    ensures var db := Last(run).db;
            db.entry.Some? && db.recommendation.Some? && KnownClean(env, db.proposals, db.entry.value.values)
  {
    hide IsRun, TablesOk, TxOk, KnownClean, LocksExclusive;
    RunKeepsInv(env, c, run, |run| - 1);
    CaseIsClean(env, c, Last(run).db);
  }

  /** No open case is stuck. From every reachable state of an exception, those at work with a lock come to their ends,
      at most one of them rolled back as the victim of a deadlock, whichever of the two the database picks. Then a
      decision that the rules accept begins and runs through to its commit, unless one of those at work had closed the
      case already. Those at work change nothing but to close the case, which needs a decision among them, or to answer
      its recommendation, which needs a job. */
  lemma OpenCaseCanClose(env: Env, c: string, run: seq<World>, d: DecisionRequest, id: nat, now: string, x: Outside,
                         jobYields: bool)
    returns (before: seq<Event>, victim: seq<Event>, after: seq<Event>, m: World, own: seq<Event>, run': seq<World>)
    requires IsRun(env, c, run) && run != [] && Last(run).db.exception.Some? && id !in Last(run).active
    ensures SettlesInto(env, c, Last(run), before, victim, after, m)
    ensures Last(run).db.recommendation.Some? && Later(Last(run).db, m.db)
    ensures NoDecider(Last(run)) ==> m.db.exception == Last(run).db.exception
    ensures NoAnswerer(Last(run)) ==>
              m.db.recommendation == Last(run).db.recommendation && m.db.proposals == Last(run).db.proposals
    ensures IsRun(env, c, run') && run <= run' && run' != [] && Play(env, c, m, own) == Some(Last(run'))
    ensures forall ev :: ev in own ==> ev.id == id && !ev.Rollback?
    ensures if Acceptable(env, m.db, d) then ClosedAsAsked(m.db, Last(run').db, d) else Last(run') == m
  {
    hide IsRun, Inv, Play, HoldersRunOn, Later, Acceptable, ClosedAsAsked, KnownClean, NoDecider, NoAnswerer;
    before, victim, after, m := Settle(env, c, run, x, jobYields);
    assert m.db.exception.Some? && m.db.recommendation.Some? by { LaterIsWhole(Last(run).db, m.db); }
    var w';
    if Acceptable(env, m.db, d) {
      own, w' := BeginAndDrive(env, c, m, id, d, now, x);
      assert own == [own[0]] + own[1..];
    } else {
      own, w' := [], m;
      PlayNothing(env, c, m);
    }
    PlayJoins(env, c, Last(run), before + victim + after, own);
    run' := RunGoesOn(env, c, run, before + victim + after + own);
  }

  lemma LaterIsWhole(db: Tables, db': Tables)
    requires db.exception.Some? && db.recommendation.Some? && Later(db, db')
    ensures db'.exception.Some? && db'.recommendation.Some?
  {}

  // ---- which decisions the rules always accept ----------------------------

  /** A reason of ten characters or more and two thousand UTF-16 units or fewer, white space around it aside. */
  predicate ReasonAmple(reason: string) {
    10 <= |Trim(reason)| && Utf16Length(Trim(reason)) <= 2000
  }

  lemma AmpleIsGiven(reason: string)
    requires ReasonAmple(reason)
    ensures ReasonGiven(Some(reason))
  {
    CharactersBound(Trim(reason));
  }

  lemma OpenBefore(db: Tables, db': Tables)
    requires db.exception.Some? && db.recommendation.Some? && Later(db, db')
    ensures db'.exception.Some? && db'.recommendation.Some?
    ensures db'.exception.value.state == OPEN ==> db.exception.value.state == OPEN && db'.exception == db.exception
    ensures db.recommendation.value.status != PENDING ==>
              db'.recommendation == db.recommendation && db'.proposals == db.proposals
  {}

  /** A REJECT with a reason of proper length, from every reachable state of an exception: in the end the case is closed,
      by this decision unless by one of those at work. */
  lemma RejectCommits(env: Env, c: string, run: seq<World>, principal: string, reason: string, id: nat, now: string,
                      x: Outside, jobYields: bool)
    returns (before: seq<Event>, victim: seq<Event>, after: seq<Event>, m: World, run': seq<World>)
    requires IsRun(env, c, run) && run != [] && Last(run).db.exception.Some? && id !in Last(run).active
    requires principal != "" && ReasonAmple(reason)
    ensures SettlesInto(env, c, Last(run), before, victim, after, m) && IsRun(env, c, run') && run <= run' && run' != []
    ensures m.db.exception.Some?
    ensures if m.db.exception.value.state == OPEN then
              ClosedAsAsked(m.db, Last(run').db,
                            DecisionRequest(principal, None, Body(REJECT, Some(reason), None, None), None))
            else Last(run') == m
  {
    hide IsRun, ReasonGiven, ClosedAsAsked, SettlesInto, Later, NoDecider, NoAnswerer, Play;
    AmpleIsGiven(reason);
    var d := DecisionRequest(principal, None, Body(REJECT, Some(reason), None, None), None);
    var own;
    before, victim, after, m, own, run' := OpenCaseCanClose(env, c, run, d, id, now, x, jobYields);
    OpenBefore(Last(run).db, m.db);
  }

  /** An APPROVE, when the recommendation is available: likewise. */
  lemma ApproveCommits(env: Env, c: string, run: seq<World>, principal: string, id: nat, now: string, x: Outside,
                       jobYields: bool)
    returns (before: seq<Event>, victim: seq<Event>, after: seq<Event>, m: World, run': seq<World>)
    requires IsRun(env, c, run) && run != [] && Last(run).db.exception.Some? && id !in Last(run).active
    requires principal != "" && Last(run).db.recommendation.Some? && Last(run).db.recommendation.value.status == AVAILABLE
    ensures SettlesInto(env, c, Last(run), before, victim, after, m) && IsRun(env, c, run') && run <= run' && run' != []
    ensures m.db.exception.Some?
    ensures if m.db.exception.value.state == OPEN then
              m.db == Last(run).db
              && ClosedAsAsked(m.db, Last(run').db, DecisionRequest(principal, None, Body(APPROVE, None, None, None), None))
            else Last(run') == m
  {
    hide IsRun, ClosedAsAsked, SettlesInto, NoDecider, NoAnswerer, Play;
    var d := DecisionRequest(principal, None, Body(APPROVE, None, None, None), None);
    var own;
    before, victim, after, m, own, run' := OpenCaseCanClose(env, c, run, d, id, now, x, jobYields);
  }

  /** An EDIT_APPROVE that repeats the proposals, when there is at least one: likewise. */
  lemma EchoCommits(env: Env, c: string, run: seq<World>, principal: string, reason: string, id: nat, now: string,
                    x: Outside, jobYields: bool)
    returns (before: seq<Event>, victim: seq<Event>, after: seq<Event>, m: World, run': seq<World>)
    requires IsRun(env, c, run) && run != [] && Last(run).db.exception.Some? && id !in Last(run).active
    requires principal != "" && ReasonAmple(reason) && Last(run).db.proposals != []
    ensures SettlesInto(env, c, Last(run), before, victim, after, m) && IsRun(env, c, run') && run <= run' && run' != []
    ensures m.db.exception.Some?
    ensures var body := Body(EDIT_APPROVE, Some(reason), Some(Echo(Last(run).db.proposals)), None);
            if m.db.exception.value.state == OPEN then
              m.db == Last(run).db && ClosedAsAsked(m.db, Last(run').db, DecisionRequest(principal, None, body, None))
            else Last(run') == m
  {
    hide IsRun, ReasonGiven, ClosedAsAsked, KnownClean, BodyAcceptable, SettlesInto, NoDecider, NoAnswerer, Play;
    AmpleIsGiven(reason);
    OpenCaseIsWhole(env, c, run);
    var db := Last(run).db;
    ProvenanceHolds(env, c, run, |run| - 1);
    var body := Body(EDIT_APPROVE, Some(reason), Some(Echo(db.proposals)), None);
    EchoAcceptable(db.proposals, reason);
    EchoIsClean(env, db);
    var own;
    before, victim, after, m, own, run' :=
      OpenCaseCanClose(env, c, run, DecisionRequest(principal, None, body, None), id, now, x, jobYields);
  }

  lemma EchoIsClean(env: Env, db: Tables)
    requires db.entry.Some? && KnownClean(env, db.proposals, db.entry.value.values)
    ensures forall s :: s in Echo(db.proposals) ==> !env.secretValue(s.value) && Storable(s.value)
  {
    forall s | s in Echo(db.proposals)
      ensures !env.secretValue(s.value) && Storable(s.value)
    {
      var i :| 0 <= i < |db.proposals| && Echo(db.proposals)[i] == s;
      assert db.proposals[i] in db.proposals;
    }
  }
}
