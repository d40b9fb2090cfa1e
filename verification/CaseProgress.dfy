/** Nobody is stuck: everyone at work can go on to an end, with at most one victim of a deadlock, and however they are
    interleaved their statements run out. */
module CaseProgress {
  import opened Text
  import opened HashChain
  import opened AuditWriter
  import opened Decisions
  import opened DecisionRules
  import opened RuleEngine
  import opened Lifecycle
  import opened CaseInvariant
  import opened CaseSteps
  import opened CaseCommits
  import opened Protocol
  import opened CaseTheorems
  import opened CaseRefusals
  import opened CaseWaits

  // ---- schedules ----------------------------------------------------------

  /** The world after these moves, one after another, if each is enabled when its turn comes. */
  function Play(env: Env, c: string, w: World, evs: seq<Event>): Option<World>
    decreases |evs|
  {
    if evs == [] then Some(w)
    else if !Enabled(w, evs[0]) then None
    else Play(env, c, Move(env, c, w, evs[0]), evs[1..])
  }

  lemma {:induction false} PlayJoins(env: Env, c: string, w: World, a: seq<Event>, b: seq<Event>)
    requires Play(env, c, w, a).Some?
    ensures Play(env, c, w, a + b) == Play(env, c, Play(env, c, w, a).value, b)
    decreases |a|
  {
    hide Move, Enabled;
    if a == [] {
      assert a + b == b;
    } else {
      assert (a + b)[1..] == a[1..] + b;
      PlayJoins(env, c, Move(env, c, w, a[0]), a[1..], b);
    }
  }

  /** What can be played goes on from a run. */
  lemma {:induction false} RunGoesOn(env: Env, c: string, run: seq<World>, evs: seq<Event>) returns (run': seq<World>)
    requires IsRun(env, c, run) && run != [] && Play(env, c, Last(run), evs).Some?
    ensures IsRun(env, c, run') && run <= run' && Last(run') == Play(env, c, Last(run), evs).value
    decreases |evs|
  {
    hide Move, Enabled, IsRun;
    if evs == [] {
      run' := run;
    } else {
      RunGrows(env, c, run, evs[0]);
      run' := RunGoesOn(env, c, run + [Move(env, c, Last(run), evs[0])], evs[1..]);
    }
  }

  lemma {:induction false} PlayKeepsInv(env: Env, c: string, w: World, evs: seq<Event>)
    requires Inv(env, c, w) && Play(env, c, w, evs).Some?
    ensures Inv(env, c, Play(env, c, w, evs).value)
    decreases |evs|
  {
    hide Inv, Move, Enabled;
    if evs != [] {
      MoveKeepsInv(env, c, w, evs[0]);
      PlayKeepsInv(env, c, Move(env, c, w, evs[0]), evs[1..]);
    }
  }

  // ---- one transaction runs on --------------------------------------------

  /** The locks that are kept, once taken, until the transaction ends. */
  const FIRM := {CaseAnchor, ExceptionLock}

  /** Once a transaction has the case's anchor or the exception's row, it gives up no lock before it ends.
      Before that a job gives up the recommendation's row when it falls back to UNAVAILABLE. */
  lemma FirmKept(env: Env, c: string, db: Tables, tx: Tx, x: Outside)
    requires TablesOk(env, c, db) && TxOk(env, c, db, tx) && (CaseAnchor in tx.held || ExceptionLock in tx.held)
    ensures var effect := Statement(env, c, db, tx, x);
            effect.Continue? ==> tx.held <= effect.tx.held
  {
    hide Statement, TablesOk, WorkOk, WantedLock, HeldAt, AppendStep;
    match tx.program
    case Receipt(_, _) => ReceiptStepKeeps(env, c, db, tx, x);
    case Job(_, _) => JobFirm(env, c, db, tx, x);
    case Decide(_, _, _) => DecisionStepKeeps(env, c, db, tx, x);
  }

  lemma JobFirm(env: Env, c: string, db: Tables, tx: Tx, x: Outside)
    requires WorkOk(env, c, db, tx) && tx.held == HeldAt(tx.program, tx.cursor) && tx.program.Job?
    requires CaseAnchor in tx.held || ExceptionLock in tx.held
    ensures var effect := Statement(env, c, db, tx, x);
            effect.Continue? ==> tx.held <= effect.tx.held
  {
    hide AuditOk, AppendStep, ProposalsStorable, RealFields, AllRealFields, GeneratedInput, UnavailableInput, Validate,
      OneRowPerField;
    var ex := tx.program.exceptionId;
    match tx.program.jobPc
    case AppendGenerated(rec, entry, ps) =>
      AppendStepKeeps(env, c, db, tx, GeneratedInput(c, ex, rec, entry, ps), Job(ex, CommitAvailable(rec, entry, ps)));
    case AppendUnavailable(rec, reason) =>
      AppendStepKeeps(env, c, db, tx, UnavailableInput(c, ex, rec), Job(ex, CommitUnavailable(rec, reason)));
    case _ =>
  }

  /** One statement of one transaction: nobody else is touched, and unless it ends it comes nearer to its end, publishes
      nothing and keeps what it has. */
  lemma OneStep(env: Env, c: string, w: World, id: nat, x: Outside)
    requires Inv(env, c, w) && CanRun(w, id)
    ensures Enabled(w, Run(id, x))
    ensures var w' := Move(env, c, w, Run(id, x));
            && Inv(env, c, w') && w'.active - {id} == w.active - {id}
            && (id in w'.active ==>
                  && w'.db == w.db && StepsLeft(w'.active[id]) < StepsLeft(w.active[id])
                  && w.active[id].held * FIRM <= w'.active[id].held)
  {
    hide Inv, Statement, StepsLeft, Publish, WantedLock, TablesOk, TxOk;
    var tx := w.active[id];
    RunsOrWaits(w, id, x);
    Together(env, c, w, id);
    MoveKeepsInv(env, c, w, Run(id, x));
    if Statement(env, c, w.db, tx, x).Continue? {
      assert TxOk(env, c, w.db, tx);
      LeftAndKept(env, c, w.db, tx, x);
    }
  }

  lemma LeftAndKept(env: Env, c: string, db: Tables, tx: Tx, x: Outside)
    requires TablesOk(env, c, db) && TxOk(env, c, db, tx) && Statement(env, c, db, tx, x).Continue?
    ensures var tx' := Statement(env, c, db, tx, x).tx;
            StepsLeft(tx') < StepsLeft(tx) && tx.held * FIRM <= tx'.held
  {
    hide TablesOk, WorkOk, Statement, StepsLeft, HeldAt;
    OutsideAppendIdle(env, c, db, tx);
    StatementsRunOut(env, c, db, tx, x);
    if CaseAnchor in tx.held || ExceptionLock in tx.held {
      FirmKept(env, c, db, tx, x);
    }
  }

  /** A transaction runs on until it ends or has to wait; nobody else is touched, and while it is at work nothing is
      published. */
  lemma {:induction false} RunOn(env: Env, c: string, w: World, id: nat, x: Outside) returns (evs: seq<Event>, w': World)
    requires Inv(env, c, w) && id in w.active
    ensures Play(env, c, w, evs) == Some(w') && Inv(env, c, w')
    ensures forall ev :: ev in evs ==> ev == Run(id, x)
    ensures w'.active - {id} == w.active - {id}
    ensures id in w'.active ==> !CanRun(w', id) && w'.db == w.db && w.active[id].held * FIRM <= w'.active[id].held
    decreases StepsLeft(w.active[id])
  {
    hide Inv, CanRun, Statement, StepsLeft, Publish, Enabled, Move;
    evs, w' := [], w;
    if CanRun(w, id) {
      OneStep(env, c, w, id, x);
      w' := Move(env, c, w, Run(id, x));
      evs := [Run(id, x)];
      if id in w'.active {
        var rest;
        rest, w' := RunOn(env, c, w', id, x);
        evs := [Run(id, x)] + rest;
      }
    }
  }

  // ---- everybody who holds a lock runs on to an end -----------------------

  /** The transactions that hold no lock. */
  function Resting(active: map<nat, Tx>): map<nat, Tx> {
    map id | id in active && active[id].held == {} :: active[id]
  }

  lemma LoneEnds(env: Env, c: string, w: World, id: nat, x: Outside) returns (evs: seq<Event>, w': World)
    requires Inv(env, c, w) && id in w.active
    requires forall other :: other in w.active && other != id ==> w.active[other].held == {}
    ensures Play(env, c, w, evs) == Some(w') && Inv(env, c, w')
    ensures forall ev :: ev in evs ==> ev == Run(id, x)
    ensures w'.active == w.active - {id}
  {
    hide Inv, CanRun, Play;
    evs, w' := RunOn(env, c, w, id, x);
    SameOthers(w.active, w'.active, id);
    if id in w'.active {
      Unopposed(w', id);
    }
  }

  lemma SameOthers(active: map<nat, Tx>, active': map<nat, Tx>, id: nat)
    requires active' - {id} == active - {id}
    ensures forall o :: o != id ==> (o in active <==> o in active') && (o in active ==> active[o] == active'[o])
    ensures id in active && id in active' ==> active.Keys == active'.Keys
    ensures id in active && id !in active' ==>
              active'.Keys < active.Keys && (active[id].held != {} ==> Resting(active') == Resting(active))
    ensures id in active && id in active' && active[id].held != {} && active'[id].held != {} ==>
              Resting(active') == Resting(active)
  {
    forall o | o != id
      ensures (o in active <==> o in active') && (o in active ==> active[o] == active'[o])
    {
      assert o in active <==> o in active - {id};
      assert o in active' <==> o in active' - {id};
    }
  }

  lemma Unopposed(w: World, id: nat)
    requires id in w.active && forall other :: other in w.active && other != id ==> w.active[other].held == {}
    ensures CanRun(w, id)
  {
    hide WantedLock;
  }

  /** Where nobody has the anchor or the exception's row, at most one transaction holds anything. */
  lemma SoftAlone(env: Env, c: string, w: World, a: nat, b: nat)
    requires Inv(env, c, w) && a in w.active && b in w.active && a != b
    requires w.active[a].held != {} && w.active[a].held * FIRM == {} && w.active[b].held * FIRM == {}
    ensures w.active[b].held == {}
  {
    hide Inv, CurrentInput;
    HeldHere(env, c, w, a);
    HeldHere(env, c, w, b);
    ReceiptAlone(env, c, w, a, b);
    ReceiptAlone(env, c, w, b, a);
    Apart(env, c, w, a, b);
    NeverBoth(w.active[a]);
    NeverBoth(w.active[b]);
  }

  lemma NeverBoth(tx: Tx)
    requires tx.held == HeldAt(tx.program, tx.cursor) && !tx.program.Receipt?
    ensures EntryKey !in tx.held
    ensures tx.held != {} && tx.held * FIRM == {} ==> RecommendationLock in tx.held
  {}

  /** Two that have the anchor and the exception's row between them, each waiting, are the deadlock. */
  lemma TwoBlocked(env: Env, c: string, w: World, a: nat, b: nat, e: nat)
    requires Inv(env, c, w) && Waits(w, a, b) && Waits(w, b, e)
    requires w.active[a].held * FIRM != {} && w.active[b].held * FIRM != {}
    ensures Deadlocked(w, a, b) || Deadlocked(w, b, a)
  {
    hide Inv, WantedLock;
    WaiterKinds(env, c, w, a, b);
    WaiterKinds(env, c, w, b, e);
    Apart(env, c, w, a, b);
  }

  /** Who waits with the anchor or the exception's row in hand wants the other of the two. */
  lemma WantsFirm(env: Env, c: string, w: World, a: nat, b: nat)
    requires Inv(env, c, w) && Waits(w, a, b) && w.active[a].held * FIRM != {}
    ensures WantedLock(w.active[a]).value in FIRM && w.active[b].held * FIRM != {}
  {
    hide Inv;
    WaiterKinds(env, c, w, a, b);
    HeldHere(env, c, w, a);
    assert WantedLock(w.active[a]).value in w.active[b].held * FIRM;
  }

  /** With one of the two rolled back, the other runs on to its end. */
  lemma EndDeadlock(env: Env, c: string, w: World, job: nat, decision: nat, x: Outside, jobYields: bool)
    returns (victim: nat, after: seq<Event>, m: World)
    requires Inv(env, c, w) && Deadlocked(w, job, decision)
    ensures victim == (if jobYields then job else decision) && InWaitCycle(w, victim)
    ensures job in w.active && decision in w.active
    ensures Play(env, c, w, [Rollback(victim)] + after) == Some(m) && Inv(env, c, m)
    ensures forall ev :: ev in after ==> ev.Run? && ev.id in {job, decision}
    ensures m.active == w.active - {job, decision}
  {
    hide Inv, Deadlocked, Play, InWaitCycle;
    AtWork(w, job, decision);
    DeadlockCycle(env, c, w, job, decision);
    victim := if jobYields then job else decision;
    var other := if jobYields then decision else job;
    var w1 := Move(env, c, w, Rollback(victim));
    MoveKeepsInv(env, c, w, Rollback(victim));
    assert job != decision by { DeadlockWaits(env, c, w, job, decision); }
    forall o | o in w1.active && o != other
      ensures w1.active[o].held == {}
    {
      DeadlockHoldsAll(env, c, w, job, decision, o);
    }
    after, m := LoneEnds(env, c, w1, other, x);
    PlayFirst(env, c, w, Rollback(victim), after);
  }

  lemma PlayFirst(env: Env, c: string, w: World, ev: Event, evs: seq<Event>)
    requires Enabled(w, ev)
    ensures Play(env, c, w, [ev] + evs) == Play(env, c, Move(env, c, w, ev), evs)
  {
    hide Move, Enabled;
    assert ([ev] + evs)[1..] == evs;
  }

  lemma DeadlockHoldsAll(env: Env, c: string, w: World, job: nat, decision: nat, o: nat)
    requires Inv(env, c, w) && Deadlocked(w, job, decision) && o in w.active && o != job && o != decision
    ensures w.active[o].held == {}
  {
    hide Inv, Deadlocked;
    AtWork(w, job, decision);
    DeadlockWaits(env, c, w, job, decision);
    Apart(env, c, w, o, job);
    Apart(env, c, w, o, decision);
    ReceiptAlone(env, c, w, o, job);
    HeldHere(env, c, w, o);
    NeverBoth(w.active[o]);
  }

  /** `before` lets those who hold a lock run on, `victim` is at most one of them, rolled back out of a cycle of waits,
      and `after` lets the rest run on. Nobody begins, and those who hold nothing make no move. */
  ghost predicate HoldersRunOn(env: Env, c: string, w: World, before: seq<Event>, victim: seq<Event>, after: seq<Event>) {
    && (forall ev :: ev in before + after ==> ev.Run?)
    && (forall ev :: ev in before + victim + after ==> ev.id in w.active && w.active[ev.id].held != {})
    && Play(env, c, w, before).Some? && Play(env, c, w, before + victim + after).Some?
    && (victim == [] ||
        (|victim| == 1 && victim[0].Rollback? && InWaitCycle(Play(env, c, w, before).value, victim[0].id)))
  }

  lemma RunsBefore(env: Env, c: string, w: World, id: nat, x: Outside, evs: seq<Event>, w1: World,
                   before: seq<Event>, victim: seq<Event>, after: seq<Event>)
    requires id in w.active && w.active[id].held != {} && (forall ev :: ev in evs ==> ev == Run(id, x))
    requires Play(env, c, w, evs) == Some(w1) && w1.active - {id} == w.active - {id}
    requires HoldersRunOn(env, c, w1, before, victim, after)
    ensures HoldersRunOn(env, c, w, evs + before, victim, after)
    ensures Play(env, c, w, evs + before + victim + after) == Play(env, c, w1, before + victim + after)
  {
    hide Play, InWaitCycle;
    PlayJoins(env, c, w, evs, before);
    PlayJoins(env, c, w, evs, before + victim + after);
    assert evs + before + victim + after == evs + (before + victim + after);
    forall ev | ev in evs + before + victim + after
      ensures ev.id in w.active && w.active[ev.id].held != {}
    {
      if ev !in evs {
        assert ev in before + victim + after;
        assert ev.id == id || (ev.id in w1.active - {id} && ev.id in w.active);
      }
    }
    forall ev | ev in evs + before + after
      ensures ev.Run?
    {
      if ev !in evs {
        assert ev in before + after;
      }
    }
  }

  lemma NobodyYields(env: Env, c: string, w: World, id: nat, x: Outside, evs: seq<Event>, m: World)
    requires Play(env, c, w, evs) == Some(m) && forall ev :: ev in evs ==> ev == Run(id, x)
    requires evs != [] ==> id in w.active && w.active[id].held != {}
    ensures HoldersRunOn(env, c, w, evs, [], []) && Play(env, c, w, evs + [] + []) == Some(m)
  {
    hide Play, InWaitCycle;
    assert evs + [] + [] == evs && evs + [] == evs;
  }

  lemma OneYields(env: Env, c: string, w: World, b: nat, x: Outside, evs: seq<Event>, w1: World, victim: nat,
                  after: seq<Event>, a: nat)
    requires Play(env, c, w, evs) == Some(w1) && forall ev :: ev in evs ==> ev == Run(b, x)
    requires a in w.active && b in w.active && w.active[a].held != {} && w.active[b].held != {} && victim in {a, b}
    requires forall ev :: ev in after ==> ev.Run? && ev.id in {a, b}
    requires InWaitCycle(w1, victim) && Play(env, c, w1, [Rollback(victim)] + after).Some?
    ensures HoldersRunOn(env, c, w, evs, [Rollback(victim)], after)
    ensures Play(env, c, w, evs + [Rollback(victim)] + after) == Play(env, c, w1, [Rollback(victim)] + after)
  {
    hide Play, InWaitCycle;
    PlayJoins(env, c, w, evs, [Rollback(victim)] + after);
    assert evs + [Rollback(victim)] + after == evs + ([Rollback(victim)] + after);
  }

  /** Everybody who holds a lock can run on to an end, with at most one of them the victim of a deadlock: the job or the
      decision, as the database chooses. Those who hold none stay as they are. */
  lemma {:induction false} LetHoldersFinish(env: Env, c: string, w: World, x: Outside, jobYields: bool)
    returns (before: seq<Event>, victim: seq<Event>, after: seq<Event>, m: World)
    requires Inv(env, c, w)
    ensures HoldersRunOn(env, c, w, before, victim, after)
    ensures Play(env, c, w, before + victim + after) == Some(m) && Inv(env, c, m) && m.active == Resting(w.active)
    decreases w.active.Keys, 1
  {
    hide Inv, Play, InWaitCycle, CanRun, Deadlocked, HoldersRunOn, WantedLock;
    if a :| a in w.active && w.active[a].held * FIRM != {} {
      var evs, w1 := RunOn(env, c, w, a, x);
      SameOthers(w.active, w1.active, a);
      if a in w1.active {
        before, victim, after, m := OneWaits(env, c, w1, a, x, jobYields);
      } else {
        before, victim, after, m := LetHoldersFinish(env, c, w1, x, jobYields);
      }
      RunsBefore(env, c, w, a, x, evs, w1, before, victim, after);
      before := evs + before;
    } else if a :| a in w.active && w.active[a].held != {} {
      forall b | b in w.active && b != a
        ensures w.active[b].held == {}
      {
        SoftAlone(env, c, w, a, b);
      }
      before, m := LoneEnds(env, c, w, a, x);
      victim, after := [], [];
      NobodyYields(env, c, w, a, x, before, m);
    } else {
      before, victim, after, m := [], [], [], w;
      PlayNothing(env, c, w);
      NobodyYields(env, c, w, 0, x, [], w);
    }
  }

  lemma PlayNothing(env: Env, c: string, w: World)
    ensures Play(env, c, w, []) == Some(w)
  {}

  /** One who waits with the anchor or the exception's row in hand waits for one who ends, or for the other of the
      deadlock. */
  lemma {:induction false} OneWaits(env: Env, c: string, w: World, a: nat, x: Outside, jobYields: bool)
    returns (before: seq<Event>, victim: seq<Event>, after: seq<Event>, m: World)
    requires Inv(env, c, w) && a in w.active && w.active[a].held * FIRM != {} && !CanRun(w, a)
    ensures HoldersRunOn(env, c, w, before, victim, after)
    ensures Play(env, c, w, before + victim + after) == Some(m) && Inv(env, c, m) && m.active == Resting(w.active)
    decreases w.active.Keys, 0
  {
    hide Inv, Play, InWaitCycle, CanRun, Deadlocked, HoldersRunOn, WantedLock;
    var b := Blocker(w, a);
    WantsFirm(env, c, w, a, b);
    var evs, w1 := RunOn(env, c, w, b, x);
    SameOthers(w.active, w1.active, b);
    if b in w1.active {
      var e := Blocker(w1, b);
      TwoBlocked(env, c, w1, a, b, e);
      var job, decision := if Deadlocked(w1, a, b) then a else b, if Deadlocked(w1, a, b) then b else a;
      var loser;
      loser, after, m := EndDeadlock(env, c, w1, job, decision, x, jobYields);
      OneYields(env, c, w, b, x, evs, w1, loser, after, a);
      before, victim := evs, [Rollback(loser)];
      PairEnds(env, c, w, w1, a, b);
    } else {
      before, victim, after, m := LetHoldersFinish(env, c, w1, x, jobYields);
      RunsBefore(env, c, w, b, x, evs, w1, before, victim, after);
      before := evs + before;
    }
  }

  lemma PairEnds(env: Env, c: string, w: World, w1: World, a: nat, b: nat)
    requires a in w.active && b in w.active && w.active[a].held != {} && w.active[b].held != {}
    requires w1.active - {b} == w.active - {b} && Inv(env, c, w1)
    requires Deadlocked(w1, a, b) || Deadlocked(w1, b, a)
    ensures w1.active - {a, b} == Resting(w.active)
  {
    hide Inv, Deadlocked;
    SameOthers(w.active, w1.active, b);
    forall o | o in w.active && o != a && o != b
      ensures w.active[o].held == {}
    {
      if Deadlocked(w1, a, b) {
        DeadlockHoldsAll(env, c, w1, a, b, o);
      } else {
        DeadlockHoldsAll(env, c, w1, b, a, o);
      }
    }
  }

  // ---- everybody comes to an end ------------------------------------------

  lemma {:induction false} LetRestingFinish(env: Env, c: string, w: World, x: Outside) returns (evs: seq<Event>, m: World)
    requires Inv(env, c, w) && forall id :: id in w.active ==> w.active[id].held == {}
    ensures Play(env, c, w, evs) == Some(m) && m.active == map[] && forall ev :: ev in evs ==> ev.Run?
    decreases w.active.Keys
  {
    hide Inv, Play;
    if id :| id in w.active {
      var first, w1 := LoneEnds(env, c, w, id, x);
      SameOthers(w.active, w1.active, id);
      var rest;
      rest, m := LetRestingFinish(env, c, w1, x);
      evs := first + rest;
      PlayJoins(env, c, w, first, rest);
    } else {
      evs, m := [], w;
      PlayNothing(env, c, w);
    }
  }

  /** From every reachable world everybody at work can run on to an end of its own, but for at most one victim of a
      deadlock. */
  lemma EveryoneCanEnd(env: Env, c: string, run: seq<World>, x: Outside, jobYields: bool)
    returns (before: seq<Event>, victim: seq<Event>, after: seq<Event>, rest: seq<Event>, run': seq<World>)
    requires IsRun(env, c, run) && run != []
    ensures HoldersRunOn(env, c, Last(run), before, victim, after) && forall ev :: ev in rest ==> ev.Run?
    ensures var m := Play(env, c, Last(run), before + victim + after + rest); m.Some? && m.value.active == map[]
    ensures IsRun(env, c, run') && run <= run' && Last(run').active == map[]
  {
    hide IsRun, Inv, Play, HoldersRunOn;
    RunKeepsInv(env, c, run, |run| - 1);
    var m, m';
    before, victim, after, m := LetHoldersFinish(env, c, Last(run), x, jobYields);
    rest, m' := LetRestingFinish(env, c, m, x);
    PlayJoins(env, c, Last(run), before + victim + after, rest);
    run' := RunGoesOn(env, c, run, before + victim + after + rest);
  }

  /** An upper bound on the statements all of them still run. */
  ghost function Total(active: map<nat, Tx>): nat
    decreases active.Keys
  {
    if active == map[] then 0
    else
      var id :| id in active;
      SameOthers(active, active - {id}, id);
      StepsLeft(active[id]) + 1 + Total(active - {id})
  }

  lemma {:induction false} TotalWithout(active: map<nat, Tx>, id: nat)
    requires id in active
    ensures Total(active) == StepsLeft(active[id]) + 1 + Total(active - {id})
    decreases active.Keys
  {
    hide StepsLeft;
    var first :| first in active && Total(active) == StepsLeft(active[first]) + 1 + Total(active - {first});
    if first != id {
      SameOthers(active, active - {first}, first);
      TotalWithout(active - {first}, id);
      SameOthers(active, active - {id}, id);
      TotalWithout(active - {id}, first);
      assert active - {first} - {id} == active - {id} - {first};
    }
  }

  /** However the statements of those at work are interleaved, they run out. */
  lemma {:induction false} RunsAreBounded(env: Env, c: string, w: World, evs: seq<Event>)
    requires Inv(env, c, w) && Play(env, c, w, evs).Some? && forall ev :: ev in evs ==> ev.Run?
    ensures |evs| + Total(Play(env, c, w, evs).value.active) <= Total(w.active)
    decreases |evs|
  {
    hide Inv, Move, StepsLeft, Total, CanRun, WantedLock;
    if evs != [] {
      var id := evs[0].id;
      RunsOrWaits(w, id, evs[0].outside);
      OneStep(env, c, w, id, evs[0].outside);
      var w1 := Move(env, c, w, evs[0]);
      RunsAreBounded(env, c, w1, evs[1..]);
      TotalWithout(w.active, id);
      if id in w1.active {
        TotalWithout(w1.active, id);
      } else {
        assert w1.active - {id} == w1.active;
      }
    }
  }
}
