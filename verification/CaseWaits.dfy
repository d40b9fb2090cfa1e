/** Who waits for whom: the one deadlock of the protocol, and every way in which a decision or a job can come to fail. */
module CaseWaits {
  import opened Text
  import opened HashChain
  import opened AuditWriter
  import opened Decisions
  import opened RuleEngine
  import opened Lifecycle
  import opened CaseInvariant
  import opened CaseSteps
  import opened CaseCommits
  import opened Protocol
  import opened CaseTheorems
  import opened CaseRefusals

  // ---- waiting ------------------------------------------------------------

  /** `a` cannot run its next statement before `b` ends. */
  predicate Waits(w: World, a: nat, b: nat) {
    && a in w.active && b in w.active && a != b
    && WantedLock(w.active[a]).Some? && WantedLock(w.active[a]).value in w.active[b].held
  }

  predicate CanRun(w: World, id: nat) {
    id in w.active && (WantedLock(w.active[id]).Some? ==> LockFree(w, id, WantedLock(w.active[id]).value))
  }

  lemma RunsOrWaits(w: World, id: nat, x: Outside)
    requires id in w.active
    ensures CanRun(w, id) <==> Enabled(w, Run(id, x))
    ensures CanRun(w, id) <==> forall b :: !Waits(w, id, b)
  {
    hide WantedLock;
    if !CanRun(w, id) {
      var b :| b in w.active && b != id && WantedLock(w.active[id]).value in w.active[b].held;
      assert Waits(w, id, b);
    }
  }

  /** Each on the path waits for the next, and the path comes back to where it began. */
  ghost predicate IsWaitCycle(w: World, path: seq<nat>) {
    |path| >= 2 && path[0] == path[|path| - 1] && forall i :: 0 <= i < |path| - 1 ==> Waits(w, path[i], path[i + 1])
  }

  /** What the database detects, and resolves by aborting the transaction that finds itself on the cycle. */
  ghost predicate InWaitCycle(w: World, id: nat) {
    exists path :: IsWaitCycle(w, path) && path[0] == id
  }

  predicate Appending(program: Program) {
    program.Job? && (program.jobPc.AppendGenerated? || program.jobPc.AppendUnavailable?)
  }

  /** A job is about to insert its entry, which needs the exception's row; a decision that has that row wants the case's
      anchor, which the job has. */
  predicate Deadlocked(w: World, job: nat, decision: nat) {
    && job in w.active && decision in w.active
    && Appending(w.active[job].program) && w.active[job].cursor.Linked?
    && w.active[decision].program.Decide? && w.active[decision].program.decisionPc.LockAnchor?
  }

  // ---- what the locks of a waiting transaction can be ---------------------

  lemma HeldHere(env: Env, c: string, w: World, id: nat)
    requires Inv(env, c, w) && id in w.active
    ensures var tx := w.active[id];
            && tx.held == HeldAt(tx.program, tx.cursor)
            && (CurrentInput(c, tx.program).None? ==> tx.cursor == Idle)
            && (if tx.program.Receipt? then w.db.entry.None?
                else w.db.entry.Some? && w.db.exception.Some? && w.db.recommendation.Some?)
  {
    hide TablesOk, LocksExclusive, AuditOk, PastRows, HeldAt, JobOk, DecideOk, CurrentInput;
    assert TxOk(env, c, w.db, w.active[id]);
    OutsideAppendIdle(env, c, w.db, w.active[id]);
  }

  lemma Apart(env: Env, c: string, w: World, a: nat, b: nat)
    requires Inv(env, c, w) && a in w.active && b in w.active && a != b
    ensures w.active[a].held !! w.active[b].held
  {
    hide TablesOk, TxOk;
  }

  /** A receipt works alone. */
  lemma ReceiptAlone(env: Env, c: string, w: World, a: nat, b: nat)
    requires Inv(env, c, w) && a in w.active && b in w.active && a != b
    ensures !w.active[a].program.Receipt?
  {
    hide Inv;
    HeldHere(env, c, w, a);
    HeldHere(env, c, w, b);
    Apart(env, c, w, a, b);
  }

  /** Who waits holds nothing, or is a job on its way to its entry, or a decision on its way to the anchor. */
  lemma WaiterKinds(env: Env, c: string, w: World, a: nat, b: nat)
    requires Inv(env, c, w) && Waits(w, a, b)
    ensures var x, y := w.active[a], w.active[b];
            || x.held == {}
            || (Appending(x.program) && x.cursor.Checked? && x.held == {RecommendationLock} && CaseAnchor in y.held)
            || (Appending(x.program) && x.cursor.Linked? && x.held == {RecommendationLock, CaseAnchor}
                && ExceptionLock in y.held)
            || (x.program.Decide? && x.program.decisionPc.LockAnchor? && x.held == {ExceptionLock} && CaseAnchor in y.held)
  {
    hide Inv;
    HeldHere(env, c, w, a);
    Apart(env, c, w, a, b);
    ReceiptAlone(env, c, w, a, b);
    hide HeldAt;
    WaiterLocks(c, w.active[a]);
  }

  lemma WaiterLocks(c: string, x: Tx)
    requires !x.program.Receipt? && x.held == HeldAt(x.program, x.cursor)
    requires WantedLock(x).Some? && WantedLock(x).value !in x.held
    requires CurrentInput(c, x.program).None? ==> x.cursor == Idle
    ensures || x.held == {}
            || (Appending(x.program) && x.cursor.Checked? && x.held == {RecommendationLock}
                && WantedLock(x).value == CaseAnchor)
            || (Appending(x.program) && x.cursor.Linked? && x.held == {RecommendationLock, CaseAnchor}
                && WantedLock(x).value == ExceptionLock)
            || (x.program.Decide? && x.program.decisionPc.LockAnchor? && x.held == {ExceptionLock}
                && WantedLock(x).value == CaseAnchor)
  {
    hide ProposalRows, StateText;
  }

  // ---- the deadlock -------------------------------------------------------

  /** The two of a deadlock wait for each other, and between them they hold every lock of the case. */
  lemma DeadlockWaits(env: Env, c: string, w: World, job: nat, decision: nat)
    requires Inv(env, c, w) && Deadlocked(w, job, decision)
    ensures Waits(w, job, decision) && Waits(w, decision, job)
    ensures w.active[job].held == {RecommendationLock, CaseAnchor} && w.active[decision].held == {ExceptionLock}
  {
    hide Inv;
    HeldHere(env, c, w, job);
    HeldHere(env, c, w, decision);
  }

  lemma DeadlockCycle(env: Env, c: string, w: World, job: nat, decision: nat)
    requires Inv(env, c, w) && Deadlocked(w, job, decision)
    ensures InWaitCycle(w, job) && InWaitCycle(w, decision)
  {
    hide Inv, Waits, Deadlocked;
    DeadlockWaits(env, c, w, job, decision);
    assert IsWaitCycle(w, [job, decision, job]);
    assert IsWaitCycle(w, [decision, job, decision]);
  }

  /** Three waits in a row show the deadlock. */
  lemma ThreeWaits(env: Env, c: string, w: World, z: nat, a: nat, b: nat, e: nat)
    requires Inv(env, c, w) && Waits(w, z, a) && Waits(w, a, b) && Waits(w, b, e)
    ensures Deadlocked(w, a, b) || Deadlocked(w, b, a)
  {
    hide Inv, WantedLock;
    WaiterKinds(env, c, w, a, b);
    WaiterKinds(env, c, w, b, e);
    Apart(env, c, w, a, b);
    assert w.active[a].held != {} && w.active[b].held != {};
  }

  /** A transaction is on a cycle of waits exactly when it is one of the two of the deadlock. */
  lemma WaitCycleIff(env: Env, c: string, w: World, id: nat)
    requires Inv(env, c, w)
    ensures InWaitCycle(w, id) <==> exists other :: Deadlocked(w, id, other) || Deadlocked(w, other, id)
  {
    hide Inv, Waits, Deadlocked;
    if path :| IsWaitCycle(w, path) && path[0] == id {
      var n := |path| - 1;
      assert Waits(w, path[0], path[0 + 1]);
      assert Waits(w, path[n - 1], path[n - 1 + 1]);
      assert n >= 2 by { NotItself(w, id); }
      assert Waits(w, path[1], path[1 + 1]);
      ThreeWaits(env, c, w, path[n - 1], path[0], path[1], path[2]);
    }
    if other :| Deadlocked(w, id, other) || Deadlocked(w, other, id) {
      if Deadlocked(w, id, other) {
        DeadlockCycle(env, c, w, id, other);
      } else {
        DeadlockCycle(env, c, w, other, id);
      }
    }
  }

  lemma NotItself(w: World, id: nat)
    ensures !Waits(w, id, id)
  {}

  /** There is at most one deadlock at a time. */
  lemma OneDeadlock(env: Env, c: string, w: World, a: nat, b: nat, a': nat, b': nat)
    requires Inv(env, c, w) && Deadlocked(w, a, b) && Deadlocked(w, a', b')
    ensures a == a' && b == b'
  {
    hide Inv, Waits, Deadlocked;
    DeadlockWaits(env, c, w, a, b);
    DeadlockWaits(env, c, w, a', b');
    assert a in w.active && a' in w.active && b in w.active && b' in w.active by { AtWork(w, a, b); AtWork(w, a', b'); }
    if a != a' { Apart(env, c, w, a, a'); }
    if b != b' { Apart(env, c, w, b, b'); }
  }

  lemma AtWork(w: World, job: nat, decision: nat)
    requires Deadlocked(w, job, decision)
    ensures job in w.active && decision in w.active
  {}

  /** With transactions at work, nobody can run a statement exactly when the deadlock is there and everyone else is
      waiting too. Whatever else waits, waits for somebody who can go on. */
  lemma NobodyRunsIff(env: Env, c: string, w: World)
    requires Inv(env, c, w) && w.active != map[]
    ensures (forall id :: !CanRun(w, id)) <==>
            && (exists job, decision :: Deadlocked(w, job, decision))
            && (forall id :: id in w.active ==> WantedLock(w.active[id]).Some?)
  {
    hide Inv, Deadlocked, WantedLock, LockFree;
    if forall id :: !CanRun(w, id) {
      var z :| z in w.active;
      var a := Blocker(w, z);
      var b := Blocker(w, a);
      var e := Blocker(w, b);
      ThreeWaits(env, c, w, z, a, b, e);
    }
    if exists job, decision :: Deadlocked(w, job, decision) {
      NobodyElse(env, c, w);
    }
  }

  /** With the deadlock there, those who cannot run are those who want a lock at all. */
  lemma NobodyElse(env: Env, c: string, w: World)
    requires Inv(env, c, w) && exists job, decision :: Deadlocked(w, job, decision)
    ensures forall id :: id in w.active ==> (CanRun(w, id) <==> WantedLock(w.active[id]).None?)
  {
    hide Inv, Deadlocked, WantedLock;
    var job, decision :| Deadlocked(w, job, decision);
    forall id | id in w.active && WantedLock(w.active[id]).Some?
      ensures !CanRun(w, id)
    {
      EveryLockTaken(env, c, w, job, decision, id);
    }
  }

  lemma Blocker(w: World, id: nat) returns (b: nat)
    requires id in w.active && !CanRun(w, id)
    ensures Waits(w, id, b) && b in w.active
  {
    hide WantedLock;
    b :| b in w.active && b != id && WantedLock(w.active[id]).value in w.active[b].held;
  }

  lemma EveryLockTaken(env: Env, c: string, w: World, job: nat, decision: nat, id: nat)
    requires Inv(env, c, w) && Deadlocked(w, job, decision) && id in w.active && WantedLock(w.active[id]).Some?
    ensures !CanRun(w, id)
  {
    hide Inv, WantedLock;
    DeadlockWaits(env, c, w, job, decision);
    NeverEntryKey(w.active[id]);
    if id == job {
      WaitingStops(w, job, decision);
    } else if id == decision {
      WaitingStops(w, decision, job);
    } else {
      WaitingStops(w, id, if WantedLock(w.active[id]).value == ExceptionLock then decision else job);
    }
  }

  lemma WaitingStops(w: World, id: nat, b: nat)
    requires Waits(w, id, b)
    ensures !CanRun(w, id)
  {
    hide WantedLock;
  }

  lemma NeverEntryKey(tx: Tx)
    requires WantedLock(tx).Some?
    ensures WantedLock(tx).value != EntryKey
  {}

  // ---- every way to fail --------------------------------------------------

  /** A transaction can end here against its will: its next statement can run and fails, or it is the victim of a
      deadlock. */
  ghost predicate Aborts(env: Env, c: string, w: World, id: nat, x: Outside)
    requires id in w.active
  {
    (CanRun(w, id) && Statement(env, c, w.db, w.active[id], x).Fail?) || InWaitCycle(w, id)
  }

  /** Whatever races with it, a decision comes to fail exactly on these grounds: its statement is refused for the case
      being closed, the recommendation being another, its body or a secret in it; or it wants the anchor of a job that is
      about to insert its entry. */
  lemma DecisionFailsIff(env: Env, c: string, w: World, id: nat, x: Outside)
    requires Inv(env, c, w) && id in w.active && w.active[id].program.Decide?
    ensures w.db.exception.Some? && w.db.recommendation.Some?
    ensures Aborts(env, c, w, id, x) <==>
            (CanRun(w, id) && Refused(env, w.db, w.active[id])) || exists job :: Deadlocked(w, job, id)
  {
    hide Statement, Refused, CanRun, TablesOk, LocksExclusive, Inv, InWaitCycle;
    Together(env, c, w, id);
    DecisionRefusedIff(env, c, w.db, w.active[id], x);
    WaitCycleIff(env, c, w, id);
  }

  lemma Together(env: Env, c: string, w: World, id: nat)
    requires Inv(env, c, w) && id in w.active
    ensures TablesOk(env, c, w.db) && TxOk(env, c, w.db, w.active[id])
  {
    hide TablesOk, TxOk, LocksExclusive;
  }

  /** A job comes to fail exactly on these grounds: the provider throws, the tables refuse what it proposed, or a
      decision that has the exception's row wants the anchor while the job is about to insert its entry. */
  lemma JobFailsIff(env: Env, c: string, w: World, id: nat, x: Outside)
    requires Inv(env, c, w) && id in w.active && w.active[id].program.Job?
    ensures Aborts(env, c, w, id, x) <==>
            (CanRun(w, id) && JobRefused(w.active[id], x)) || exists decision :: Deadlocked(w, id, decision)
  {
    hide Statement, JobRefused, CanRun, TablesOk, LocksExclusive, Inv, InWaitCycle;
    Together(env, c, w, id);
    JobRefusedIff(env, c, w.db, w.active[id], x);
    WaitCycleIff(env, c, w, id);
  }

  /** A receipt never waits. */
  lemma ReceiptNeverWaits(env: Env, c: string, w: World, id: nat)
    requires Inv(env, c, w) && id in w.active && w.active[id].program.Receipt?
    ensures CanRun(w, id) && !InWaitCycle(w, id)
  {
    hide Inv, WantedLock;
    forall b | b in w.active && b != id
      ensures false
    {
      ReceiptAlone(env, c, w, id, b);
    }
    WaitCycleIff(env, c, w, id);
  }

  /** An acceptable, up-to-date decision advances with every statement it can run; it waits only for the holder of the
      exception's row before it starts, or of the anchor; and only a job about to insert its entry can undo it. */
  lemma AcceptableAdvances(env: Env, c: string, w: World, id: nat, d: DecisionRequest, x: Outside)
    requires Inv(env, c, w) && id in w.active && w.db.exception.Some? && w.db.recommendation.Some?
    requires Acceptable(env, w.db, d) && UpToDate(w.db, d, w.active[id]) && w.active[id].program.Decide?
    ensures var tx := w.active[id];
            if CanRun(w, id) then
              var effect := Statement(env, c, w.db, tx, x);
              if tx.program.decisionPc.DecisionCommit? then effect.Commit?
              else effect.Continue? && UpToDate(w.db, d, effect.tx) && StepsLeft(effect.tx) < StepsLeft(tx)
            else tx.program.decisionPc.LockCase? || tx.program.decisionPc.LockAnchor?
    ensures Aborts(env, c, w, id, x) <==> exists job :: Deadlocked(w, job, id)
  {
    hide Statement, Refused, TablesOk, TxOk, LocksExclusive, Inv, InWaitCycle, Acceptable, UpToDate, WantedLock, StepsLeft;
    Together(env, c, w, id);
    var tx := w.active[id];
    DecisionFailsIff(env, c, w, id, x);
    NotRefused(env, c, w.db, d, tx);
    if tx.program.decisionPc.DecisionCommit? {
      CommitStatement(env, c, w.db, tx, x);
    } else {
      StatementAdvances(env, c, w.db, d, tx, x);
    }
    if !CanRun(w, id) {
      var b := Blocker(w, id);
      DecisionWaitsAt(env, c, w, id, b);
    }
  }

  lemma DecisionWaitsAt(env: Env, c: string, w: World, id: nat, b: nat)
    requires Inv(env, c, w) && Waits(w, id, b) && w.active[id].program.Decide?
    ensures w.active[id].program.decisionPc.LockCase? || w.active[id].program.decisionPc.LockAnchor?
  {
    hide Inv, WantedLock;
    WaiterKinds(env, c, w, id, b);
    HeldHere(env, c, w, id);
  }
}
