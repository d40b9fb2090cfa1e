/** Any number of cases side by side: transactions of different cases interleave freely, and what is proved of the runs
    of one case holds of every case. */
module CaseSystem {
  import opened AuditWriter
  import opened Lifecycle
  import opened CaseInvariant
  import opened CaseTheorems
  import opened Protocol

  /** The cases that something has happened on, by case id. */
  type System = map<string, World>

  function WorldOf(s: System, c: string): World {
    if c in s then s[c] else START
  }

  /** One transaction on one case moves. */
  ghost predicate SystemFollows(env: Env, s: System, s': System) {
    exists c, ev :: Enabled(WorldOf(s, c), ev) && s' == s[c := Move(env, c, WorldOf(s, c), ev)]
  }

  ghost predicate IsSystemRun(env: Env, run: seq<System>) {
    run != [] && run[0] == map[] && forall i :: 0 <= i < |run| - 1 ==> SystemFollows(env, run[i], run[i + 1])
  }

  /** What one case sees of a run of the system is a run of that case. */
  lemma {:induction false} Projection(env: Env, run: seq<System>, i: nat, c: string) returns (own: seq<World>)
    requires IsSystemRun(env, run) && i < |run|
    ensures IsRun(env, c, own) && own != [] && Last(own) == WorldOf(run[i], c)
  {
    hide Move, Enabled, IsRun;
    if i == 0 {
      StartIsRun(env, c);
      return [START];
    }
    own := Projection(env, run, i - 1, c);
    assert SystemFollows(env, run[i - 1], run[i - 1 + 1]);
    var moved, ev :| Enabled(WorldOf(run[i - 1], moved), ev)
                     && run[i] == run[i - 1][moved := Move(env, moved, WorldOf(run[i - 1], moved), ev)];
    if moved == c {
      RunGrows(env, c, own, ev);
      own := own + [Move(env, c, Last(own), ev)];
    }
  }

  /** In every reachable state of the whole system every case satisfies the invariant, and its log tells its rows. */
  lemma EveryCaseInOrder(env: Env, run: seq<System>, i: nat, c: string)
    requires IsSystemRun(env, run) && i < |run|
    ensures Inv(env, c, WorldOf(run[i], c))
    ensures Fold(WorldOf(run[i], c).db.trail) == SummaryOf(WorldOf(run[i], c).db)
  {
    hide Inv, IsRun, IsSystemRun;
    var own := Projection(env, run, i, c);
    RunKeepsInv(env, c, own, |own| - 1);
    LogRefinesTables(env, c, own, |own| - 1);
  }
}
