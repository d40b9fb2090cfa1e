/** The boot-time check of the rule registry, and what it does and does not guarantee to the evaluation loop. */
module Registry {
  import opened Text
  import opened RuleEngine

  /** The ids and gates of a registry. */
  datatype Gate = Gate(id: nat, requiresPassed: seq<nat>)

  predicate DistinctGates(gates: seq<Gate>) {
    forall i, j :: 0 <= i < j < |gates| ==> gates[i].id != gates[j].id
  }

  // ---- cycles -------------------------------------------------------------

  /** Rule `a` requires rule `b`, and both exist. */
  ghost predicate Requires(gates: seq<Gate>, a: nat, b: nat) {
    && (exists i :: 0 <= i < |gates| && gates[i].id == a && b in gates[i].requiresPassed)
    && exists j :: 0 <= j < |gates| && gates[j].id == b
  }

  /** Each rule on the path requires the next. */
  ghost predicate IsPath(gates: seq<Gate>, path: seq<nat>) {
    forall i :: 0 <= i < |path| - 1 ==> Requires(gates, path[i], path[i + 1])
  }

  ghost predicate IsCycle(gates: seq<Gate>, path: seq<nat>) {
    |path| >= 2 && path[0] == path[|path| - 1] && IsPath(gates, path)
  }

  ghost predicate HasCycle(gates: seq<Gate>) {
    exists path :: IsCycle(gates, path)
  }

  // ---- a ranking excludes cycles ------------------------------------------

  /** Whatever a removed rule requires was removed before it. */
  ghost predicate Ranked(gates: seq<Gate>, rank: map<nat, nat>) {
    forall a, b :: a in rank && Requires(gates, a, b) ==> b in rank && rank[b] < rank[a]
  }

  lemma {:induction false} RankFalls(gates: seq<Gate>, rank: map<nat, nat>, path: seq<nat>, k: nat)
    requires Ranked(gates, rank) && IsPath(gates, path) && 1 <= k < |path| && path[0] in rank
    ensures path[k] in rank && rank[path[k]] < rank[path[0]]
  {
    if k > 1 {
      RankFalls(gates, rank, path, k - 1);
    }
    assert Requires(gates, path[k - 1], path[k - 1 + 1]);
  }

  lemma RankedMeansAcyclic(gates: seq<Gate>, rank: map<nat, nat>)
    requires Ranked(gates, rank) && forall i :: 0 <= i < |gates| ==> gates[i].id in rank
    ensures !HasCycle(gates)
  {
    if path :| IsCycle(gates, path) {
      assert Requires(gates, path[0], path[1]);
      RankFalls(gates, rank, path, |path| - 1);
      assert false;
    }
  }

  // ---- being stuck yields a cycle -----------------------------------------

  ghost predicate NextIn(gates: seq<Gate>, left: set<nat>, a: nat) {
    exists b :: b in left && Requires(gates, a, b)
  }

  /** Every rule left requires a rule left. */
  ghost predicate Stuck(gates: seq<Gate>, left: set<nat>) {
    forall a :: a in left ==> NextIn(gates, left, a)
  }

  lemma Next(gates: seq<Gate>, left: set<nat>, a: nat) returns (b: nat)
    requires NextIn(gates, left, a)
    ensures b in left && Requires(gates, a, b)
  {
    b :| b in left && Requires(gates, a, b);
  }

  lemma {:induction false} Walk(gates: seq<Gate>, left: set<nat>, start: nat, n: nat) returns (path: seq<nat>)
    requires Stuck(gates, left) && start in left
    ensures |path| == n + 1 && IsPath(gates, path) && forall i :: 0 <= i < |path| ==> path[i] in left
  {
    hide NextIn, Requires;
    if n == 0 {
      path := [start];
    } else {
      var init := Walk(gates, left, start, n - 1);
      var b := Next(gates, left, init[n - 1]);
      path := init + [b];
    }
  }

  lemma {:induction false} Pigeonhole(xs: seq<nat>, s: set<nat>) returns (i: nat, j: nat)
    requires |xs| > |s| && forall k :: 0 <= k < |xs| ==> xs[k] in s
    ensures i < j < |xs| && xs[i] == xs[j]
    decreases |s|
  {
    var last := xs[|xs| - 1];
    if k :| 0 <= k < |xs| - 1 && xs[k] == last {
      i, j := k, |xs| - 1;
    } else {
      i, j := Pigeonhole(xs[..|xs| - 1], s - {last});
    }
  }

  lemma StuckMeansCycle(gates: seq<Gate>, left: set<nat>)
    requires Stuck(gates, left) && left != {}
    ensures HasCycle(gates)
  {
    hide Stuck, Requires;
    var start :| start in left;
    var path := Walk(gates, left, start, |left|);
    var i, j := Pigeonhole(path, left);
    var cycle := path[i..j + 1];
    forall k | 0 <= k < |cycle| - 1
      ensures Requires(gates, cycle[k], cycle[k + 1])
    {
      assert Requires(gates, path[i + k], path[i + k + 1]);
    }
    assert IsCycle(gates, cycle);
  }

  // ---- Kahn's algorithm ---------------------------------------------------

  predicate KnownId(gates: seq<Gate>, id: nat) {
    exists i :: 0 <= i < |gates| && gates[i].id == id
  }

  /** What the maps of the algorithm mean while it runs: `remaining` holds, for each rule not yet removed, a part of
      what it requires that covers everything it requires and that is not yet removed. */
  ghost predicate Consistent(gates: seq<Gate>, remaining: map<nat, set<nat>>, rank: map<nat, nat>, clock: nat) {
    && (forall i :: 0 <= i < |gates| ==> gates[i].id in remaining || gates[i].id in rank)
    && (forall id :: id in remaining ==> KnownId(gates, id) && id !in rank)
    && (forall i :: 0 <= i < |gates| && gates[i].id in remaining ==>
          && (forall d :: d in remaining[gates[i].id] ==> d in gates[i].requiresPassed)
          && (forall d :: d in gates[i].requiresPassed && KnownId(gates, d) && d !in remaining[gates[i].id] ==> d in rank))
    && Ranked(gates, rank)
    && (forall id :: id in rank ==> rank[id] < clock)
  }

  lemma PruneKeeps(gates: seq<Gate>, remaining: map<nat, set<nat>>, rank: map<nat, nat>, clock: nat, i: nat, deps: set<nat>)
    requires DistinctGates(gates) && Consistent(gates, remaining, rank, clock) && i < |gates| && gates[i].id in remaining
    requires deps == set d | d in remaining[gates[i].id] && d in remaining
    ensures Consistent(gates, remaining[gates[i].id := deps], rank, clock)
  {
    hide Ranked;
    forall d | d in gates[i].requiresPassed && KnownId(gates, d) && d !in deps
      ensures d in rank
    {
      var k :| 0 <= k < |gates| && gates[k].id == d;
      assert gates[k].id in remaining || gates[k].id in rank;
    }
  }

  lemma RemoveKeeps(gates: seq<Gate>, remaining: map<nat, set<nat>>, rank: map<nat, nat>, clock: nat, i: nat)
    requires DistinctGates(gates) && Consistent(gates, remaining, rank, clock) && i < |gates| && gates[i].id in remaining
    requires remaining[gates[i].id] == {}
    ensures Consistent(gates, remaining - {gates[i].id}, rank[gates[i].id := clock], clock + 1)
  {
    var id := gates[i].id;
    var rank' := rank[id := clock];
    forall a, b | a in rank' && Requires(gates, a, b)
      ensures b in rank' && rank'[b] < rank'[a]
    {
      if a == id {
        var k :| 0 <= k < |gates| && gates[k].id == a && b in gates[k].requiresPassed;
        assert k == i;
        assert KnownId(gates, b);
        assert b in rank;
      } else {
        assert b in rank;
      }
    }
  }

  lemma Place(gates: seq<Gate>, id: nat) returns (k: nat)
    requires KnownId(gates, id)
    ensures k < |gates| && gates[k].id == id
  {
    k :| 0 <= k < |gates| && gates[k].id == id;
  }

  lemma Leads(gates: seq<Gate>, left: set<nat>, k: nat, b: nat)
    requires k < |gates| && b in gates[k].requiresPassed && KnownId(gates, b) && b in left
    ensures NextIn(gates, left, gates[k].id)
  {
    assert Requires(gates, gates[k].id, b);
  }

  lemma StillStuck(gates: seq<Gate>, remaining: map<nat, set<nat>>, rank: map<nat, nat>, clock: nat)
    requires Consistent(gates, remaining, rank, clock)
    requires forall k :: 0 <= k < |gates| && gates[k].id in remaining ==>
               remaining[gates[k].id] != {} && remaining[gates[k].id] <= remaining.Keys
    ensures Stuck(gates, remaining.Keys)
  {
    hide Ranked, Requires, NextIn, KnownId;
    forall a | a in remaining
      ensures NextIn(gates, remaining.Keys, a)
    {
      var k := Place(gates, a);
      var b :| b in remaining[a];
      assert b in gates[k].requiresPassed && b in remaining;
      Leads(gates, remaining.Keys, k, b);
    }
  }

  /** The map the algorithm starts from. */
  method DeclaredGates(gates: seq<Gate>) returns (remaining: map<nat, set<nat>>)
    requires DistinctGates(gates)
    ensures Consistent(gates, remaining, map[], 0)
  {
    remaining := map[];
    for i := 0 to |gates|
      invariant forall id :: id in remaining <==> exists k :: 0 <= k < i && gates[k].id == id
      invariant forall k :: 0 <= k < i ==> remaining[gates[k].id] == set d | d in gates[k].requiresPassed
    {
      remaining := remaining[gates[i].id := set d | d in gates[i].requiresPassed];
    }
  }

  /** The first `n` rules, where not removed, still require something that is left. */
  ghost predicate Waiting(gates: seq<Gate>, remaining: map<nat, set<nat>>, left: set<nat>, n: nat)
    requires n <= |gates|
  {
    forall k :: 0 <= k < n && gates[k].id in remaining ==> remaining[gates[k].id] != {} && remaining[gates[k].id] <= left
  }

  lemma WaitingStays(gates: seq<Gate>, remaining: map<nat, set<nat>>, left: set<nat>, i: nat, deps: set<nat>)
    requires DistinctGates(gates) && i < |gates| && Waiting(gates, remaining, left, i) && deps != {} && deps <= left
    ensures Waiting(gates, remaining[gates[i].id := deps], left, i + 1)
  {}

  /** One walk over the map in insertion order. */
  method Pass(gates: seq<Gate>, remaining0: map<nat, set<nat>>, ghost rank0: map<nat, nat>, ghost clock0: nat)
    returns (remaining: map<nat, set<nat>>, progressed: bool, ghost rank: map<nat, nat>, ghost clock: nat)
    requires DistinctGates(gates) && Consistent(gates, remaining0, rank0, clock0)
    ensures Consistent(gates, remaining, rank, clock)
    ensures progressed ==> |remaining| < |remaining0|
    ensures !progressed ==> remaining.Keys == remaining0.Keys && Stuck(gates, remaining.Keys)
  {
    hide Ranked, Stuck, DistinctGates, Consistent, Waiting;
    remaining, rank, clock := remaining0, rank0, clock0;
    progressed := false;
    ghost var left := remaining0.Keys;
    assert Waiting(gates, remaining, left, 0) by { NobodyWaiting(gates, remaining, left); }
    for i := 0 to |gates|
      invariant Consistent(gates, remaining, rank, clock)
      invariant remaining.Keys <= left && (progressed <==> remaining.Keys != left)
      invariant !progressed ==> Waiting(gates, remaining, left, i)
    {
      var id := gates[i].id;
      if id in remaining {
        var deps := PruneResolved(remaining[id], remaining);
        PruneKeeps(gates, remaining, rank, clock, i, deps);
        if deps == {} {
          RemoveKeeps(gates, remaining[id := deps], rank, clock, i);
          remaining := remaining[id := deps] - {id};
          rank, clock := rank[id := clock], clock + 1;
          progressed := true;
        } else {
          if !progressed {
            WaitingStays(gates, remaining, left, i, deps);
          }
          remaining := remaining[id := deps];
        }
      } else if !progressed {
        WaitingSkips(gates, remaining, left, i);
      }
    }
    if progressed {
      FewerLeft(remaining.Keys, left);
    } else {
      AllWaiting(gates, remaining, left);
      StillStuck(gates, remaining, rank, clock);
    }
  }

  lemma NobodyWaiting(gates: seq<Gate>, remaining: map<nat, set<nat>>, left: set<nat>)
    ensures Waiting(gates, remaining, left, 0)
  {}

  lemma WaitingSkips(gates: seq<Gate>, remaining: map<nat, set<nat>>, left: set<nat>, i: nat)
    requires i < |gates| && Waiting(gates, remaining, left, i) && gates[i].id !in remaining
    ensures Waiting(gates, remaining, left, i + 1)
  {}

  lemma AllWaiting(gates: seq<Gate>, remaining: map<nat, set<nat>>, left: set<nat>)
    requires Waiting(gates, remaining, left, |gates|) && left == remaining.Keys
    ensures forall k :: 0 <= k < |gates| && gates[k].id in remaining ==>
              remaining[gates[k].id] != {} && remaining[gates[k].id] <= remaining.Keys
  {}

  /** Succeeds exactly when no rule requires itself, directly or along any chain. The map is deleted from while it is
      being walked, and a pass without progress ends the walk. */
  method AssertAcyclic(gates: seq<Gate>) returns (ok: bool)
    requires DistinctGates(gates)
    ensures ok <==> !HasCycle(gates)
  {
    hide HasCycle, Ranked, Stuck, DistinctGates;
    var remaining := DeclaredGates(gates);
    ghost var rank: map<nat, nat>, clock := map[], 0;
    hide Consistent;
    var progressed := true;
    while |remaining| > 0 && progressed
      invariant Consistent(gates, remaining, rank, clock)
      invariant !progressed ==> Stuck(gates, remaining.Keys)
      decreases |remaining|, progressed
    {
      remaining, progressed, rank, clock := Pass(gates, remaining, rank, clock);
    }
    if |remaining| > 0 {
      StuckMeansCycle(gates, remaining.Keys);
    } else {
      AllRemoved(gates, remaining, rank, clock);
    }
    ok := |remaining| == 0;
  }

  lemma FewerLeft(a: set<nat>, b: set<nat>)
    requires a <= b && a != b
    ensures |a| < |b|
  {
    assert b == a + (b - a);
  }

  lemma AllRemoved(gates: seq<Gate>, remaining: map<nat, set<nat>>, rank: map<nat, nat>, clock: nat)
    requires Consistent(gates, remaining, rank, clock) && remaining == map[]
    ensures !HasCycle(gates)
  {
    RankedMeansAcyclic(gates, rank);
  }

  /** Drops what is no longer there. */
  method PruneResolved(deps: set<nat>, remaining: map<nat, set<nat>>) returns (kept: set<nat>)
    ensures kept == set d | d in deps && d in remaining
  {
    kept := deps;
    var snapshot := deps;
    while snapshot != {}
      invariant snapshot <= deps
      invariant kept == set d | d in deps && (d in snapshot || d in remaining)
      decreases |snapshot|
    {
      var dep :| dep in snapshot;
      if dep !in remaining {
        kept := kept - {dep};
      }
      snapshot := snapshot - {dep};
    }
  }

  /** A rule as the registry declares it. A primary field or a message that is computed from the record is `None`. */
  datatype Declared = Declared(
    gate: Gate, code: string, fields: seq<string>, primary: Option<string>, message: Option<string>)

  const MAX_MESSAGE_LEN := 500

  function Gates(rules: seq<Declared>): (gates: seq<Gate>)
    ensures |gates| == |rules| && forall i :: 0 <= i < |rules| ==> gates[i] == rules[i].gate
  {
    seq(|rules|, i requires 0 <= i < |rules| => rules[i].gate)
  }

  predicate FieldsKnown(rule: Declared, known: seq<string>) {
    && (forall f :: f in rule.fields ==> f in known)
    && (rule.primary.Some? ==> rule.primary.value in known)
  }

  predicate MessageFits(rule: Declared) {
    rule.message.Some? ==> 1 <= Utf16Length(rule.message.value) <= MAX_MESSAGE_LEN
  }

  /** Three digits, new and ascending. */
  predicate IdsAscend(rules: seq<Declared>) {
    && (forall i :: 0 <= i < |rules| ==> rules[i].gate.id < 1000)
    && (forall i, j :: 0 <= i < j < |rules| ==> rules[i].gate.id < rules[j].gate.id)
  }

  predicate CodesDiffer(rules: seq<Declared>) {
    forall i, j :: 0 <= i < j < |rules| ==> rules[i].code != rules[j].code
  }

  /** What the boot check demands of ids, failure codes, fields, gates and messages. */
  ghost predicate RegistryValid(rules: seq<Declared>, known: seq<string>) {
    && IdsAscend(rules) && CodesDiffer(rules)
    && (forall i :: 0 <= i < |rules| ==> FieldsKnown(rules[i], known))
    && (forall i, d :: 0 <= i < |rules| && d in rules[i].gate.requiresPassed ==> KnownId(Gates(rules), d))
    && !HasCycle(Gates(rules))
    && (forall i :: 0 <= i < |rules| ==> MessageFits(rules[i]))
  }

  lemma SelfGateIsCycle(gates: seq<Gate>, i: nat)
    requires i < |gates| && gates[i].id in gates[i].requiresPassed
    ensures HasCycle(gates)
  {
    assert Requires(gates, gates[i].id, gates[i].id);
    assert IsCycle(gates, [gates[i].id, gates[i].id]);
  }

  method CheckIds(rules: seq<Declared>) returns (ok: bool, seenIds: set<nat>)
    ensures ok <==> IdsAscend(rules)
    ensures ok ==> forall id :: id in seenIds <==> exists k :: 0 <= k < |rules| && Gates(rules)[k].id == id
  {
    var gates := Gates(rules);
    seenIds := {};
    for i := 0 to |rules|
      invariant forall k :: 0 <= k < i ==> rules[k].gate.id < 1000
      invariant forall k, l :: 0 <= k < l < i ==> rules[k].gate.id < rules[l].gate.id
      invariant forall id :: id in seenIds <==> exists k :: 0 <= k < i && gates[k].id == id
    {
      var id := gates[i].id;
      if id >= 1000 || id in seenIds || (i > 0 && id <= gates[i - 1].id) {
        return false, seenIds;
      }
      seenIds := seenIds + {id};
    }
    return true, seenIds;
  }

  method CheckCodes(rules: seq<Declared>) returns (ok: bool)
    ensures ok <==> CodesDiffer(rules)
  {
    var seenCodes: set<string> := {};
    for i := 0 to |rules|
      invariant forall k, l :: 0 <= k < l < i ==> rules[k].code != rules[l].code
      invariant forall code :: code in seenCodes <==> exists k :: 0 <= k < i && rules[k].code == code
    {
      if rules[i].code in seenCodes {
        return false;
      }
      seenCodes := seenCodes + {rules[i].code};
    }
    return true;
  }

  method CheckFields(rules: seq<Declared>, known: seq<string>) returns (ok: bool)
    ensures ok <==> forall i :: 0 <= i < |rules| ==> FieldsKnown(rules[i], known)
  {
    for i := 0 to |rules|
      invariant forall k :: 0 <= k < i ==> FieldsKnown(rules[k], known)
    {
      for n := 0 to |rules[i].fields|
        invariant forall m :: 0 <= m < n ==> rules[i].fields[m] in known
      {
        if rules[i].fields[n] !in known {
          assert !FieldsKnown(rules[i], known);
          return false;
        }
      }
      if rules[i].primary.Some? && rules[i].primary.value !in known {
        assert !FieldsKnown(rules[i], known);
        return false;
      }
    }
    return true;
  }

  /** Every gate is a rule, and none gates itself. */
  method CheckGates(gates: seq<Gate>, seenIds: set<nat>) returns (ok: bool)
    requires forall id :: id in seenIds <==> exists k :: 0 <= k < |gates| && gates[k].id == id
    ensures ok ==> forall i, d :: 0 <= i < |gates| && d in gates[i].requiresPassed ==> KnownId(gates, d)
    ensures !ok ==> HasCycle(gates) || exists i, d :: 0 <= i < |gates| && d in gates[i].requiresPassed && !KnownId(gates, d)
  {
    hide HasCycle, KnownId;
    for i := 0 to |gates|
      invariant forall k, d :: 0 <= k < i && d in gates[k].requiresPassed ==> KnownId(gates, d)
    {
      for n := 0 to |gates[i].requiresPassed|
        invariant forall m :: 0 <= m < n ==> KnownId(gates, gates[i].requiresPassed[m])
      {
        var dep := gates[i].requiresPassed[n];
        KnownIff(gates, seenIds, dep);
        if dep !in seenIds {
          return false;
        }
        if dep == gates[i].id {
          SelfGateIsCycle(gates, i);
          return false;
        }
      }
    }
    return true;
  }

  method CheckMessages(rules: seq<Declared>) returns (ok: bool)
    ensures ok <==> forall i :: 0 <= i < |rules| ==> MessageFits(rules[i])
  {
    for i := 0 to |rules|
      invariant forall k :: 0 <= k < i ==> MessageFits(rules[k])
    {
      if !MessageFits(rules[i]) {
        return false;
      }
    }
    return true;
  }

  /** Ids, then codes, then fields, then gates and cycles, then messages. */
  method AssertRegistryValid(rules: seq<Declared>, known: seq<string>) returns (ok: bool)
    ensures ok <==> RegistryValid(rules, known)
  {
    hide HasCycle, KnownId, MessageFits, FieldsKnown, CodesDiffer;
    var seenIds;
    ok, seenIds := CheckIds(rules);
    if !ok { return; }
    ok := CheckCodes(rules);
    if !ok { return; }
    ok := CheckFields(rules, known);
    if !ok { return; }
    var gates := Gates(rules);
    ok := CheckGates(gates, seenIds);
    if !ok { return; }
    ok := AssertAcyclic(gates);
    if !ok { return; }
    ok := CheckMessages(rules);
  }

  lemma KnownIff(gates: seq<Gate>, seen: set<nat>, id: nat)
    requires forall k :: k in seen <==> exists i :: 0 <= i < |gates| && gates[i].id == k
    ensures id in seen <==> KnownId(gates, id)
  {}

  // ---- the order of the rules is needed -----------------------------------

  predicate HasGates<R>(rules: seq<Rule<R>>, gates: seq<Gate>) {
    |rules| == |gates| &&
    forall i :: 0 <= i < |rules| ==> rules[i].id == gates[i].id && rules[i].requiresPassed == gates[i].requiresPassed
  }

  /** The loop reports a declared meaning, and there is no other. */
  ghost predicate Decides<R>(rules: seq<Rule<R>>, record: R) {
    Turns(rules, record).Ok? ==>
      && IsMeaning(rules, record, Turns(rules, record).value.failed)
      && forall other :: IsMeaning(rules, record, other) ==> other == Turns(rules, record).value.failed
  }

  /** No rule requires itself or a later one. */
  predicate InOrder(gates: seq<Gate>) {
    forall i, j :: 0 <= i <= j < |gates| ==> gates[j].id !in gates[i].requiresPassed
  }

  /** A registry with these gates in which exactly the rules `broken` are not satisfied. */
  function Sample<R>(gates: seq<Gate>, broken: set<nat>): (rules: seq<Rule<R>>)
    ensures HasGates(rules, gates)
    ensures forall i :: 0 <= i < |rules| ==> rules[i] == SampleRule(gates[i], broken)
  {
    seq(|gates|, i requires 0 <= i < |gates| => SampleRule(gates[i], broken))
  }

  function SampleRule<R>(g: Gate, broken: set<nat>): Rule<R> {
    Rule(g.id, "", g.requiresPassed, _ => Some(true), _ => Some(g.id !in broken), _ => Some(""), _ => Some(""))
  }

  lemma {:induction false} SampleRuns<R>(rules: seq<Rule<R>>, gates: seq<Gate>, broken: set<nat>, record: R)
    requires |rules| == |gates| && forall i :: 0 <= i < |rules| ==> rules[i] == SampleRule(gates[i], broken)
    ensures Turns(rules, record).Ok?
    ensures forall id :: id in Turns(rules, record).value.failed ==> id in broken && HasId(rules, id)
  {
    if rules != [] {
      var n := |rules| - 1;
      SampleRuns(rules[..n], gates[..n], broken, record);
      LastHasId(rules);
      forall id | id in Turns(rules[..n], record).value.failed
        ensures HasId(rules, id)
      {
        PrefixHasId(rules, n, id);
      }
      SampleTurn(gates[n], broken, record, Turns(rules[..n], record).value);
    }
  }

  lemma SampleTurn<R>(g: Gate, broken: set<nat>, record: R, p: Progress)
    ensures var r := Turn(SampleRule(g, broken), record, p);
            && r.Ok?
            && r.value.failed == if g.id in broken && !IsGated<R>(SampleRule(g, broken), p.failed) then p.failed + {g.id} else p.failed
  {
    hide IsGated;
  }

  /** The first broken rule is reported, whatever it requires further on. */
  lemma {:induction false} FirstBrokenIsReported<R>(rules: seq<Rule<R>>, gates: seq<Gate>, broken: set<nat>, record: R, i: nat)
    requires |rules| == |gates| && forall k :: 0 <= k < |rules| ==> rules[k] == SampleRule(gates[k], broken)
    requires i < |gates| && gates[i].id in broken && forall k :: 0 <= k < i ==> gates[k].id !in broken
    ensures Turns(rules, record).Ok? && gates[i].id in Turns(rules, record).value.failed
    decreases |rules|
  {
    var n := |rules| - 1;
    SampleRuns(rules[..n], gates[..n], broken, record);
    SampleTurn(gates[n], broken, record, Turns(rules[..n], record).value);
    if i < n {
      FirstBrokenIsReported(rules[..n], gates[..n], broken, record, i);
    } else {
      var before := Turns(rules[..n], record).value.failed;
      forall id | id in broken
        ensures id !in before
      {
        NoSuchId(rules[..n], id);
      }
    }
  }

  lemma SelfGateFails<R(!new)>(gates: seq<Gate>, record: R, j: nat)
    requires DistinctGates(gates) && j < |gates| && gates[j].id in gates[j].requiresPassed
    ensures !Decides(Sample(gates, {gates[j].id}), record)
  {
    var rules: seq<Rule<R>> := Sample(gates, {gates[j].id});
    FirstBrokenIsReported(rules, gates, {gates[j].id}, record, j);
    assert rules[j].id == gates[j].id && gates[j].id in rules[j].requiresPassed;
  }

  lemma LaterGateFails<R(!new)>(gates: seq<Gate>, record: R, i: nat, j: nat)
    requires DistinctGates(gates) && i < j < |gates|
    requires gates[j].id in gates[i].requiresPassed && gates[j].id !in gates[j].requiresPassed
    ensures !Decides(Sample(gates, {gates[i].id, gates[j].id}), record)
  {
    var broken := {gates[i].id, gates[j].id};
    var rules: seq<Rule<R>> := Sample(gates, broken);
    FirstBrokenIsReported(rules, gates, broken, record, i);
    SampleRuns(rules, gates, broken, record);
    var reported := Turns(rules, record).value.failed;
    if IsMeaning(rules, record, reported) {
      assert rules[i].id in reported && gates[j].id in rules[i].requiresPassed;
      assert rules[j].id !in reported;
      var other := {gates[j].id};
      LastOf(rules, j);
      forall k | 0 <= k < |rules|
        ensures rules[k].id in other <==> Breaks(rules[k], record) && !IsGated(rules[k], other)
      {
        assert Breaks(rules[k], record) <==> gates[k].id in broken;
        if k == i {
          assert gates[j].id in rules[i].requiresPassed && gates[j].id in other;
        }
      }
      assert IsMeaning(rules, record, other);
      assert rules[j].id in other;
    }
  }

  lemma LastOf<R>(rules: seq<Rule<R>>, j: nat)
    requires j < |rules|
    ensures HasId(rules, rules[j].id)
  {}

  /** The loop decides every registry with these gates exactly when no rule requires itself or a later rule. */
  lemma InOrderIff<R(!new)>(gates: seq<Gate>, record: R)
    requires DistinctGates(gates)
    ensures InOrder(gates) <==> forall rules: seq<Rule<R>> :: HasGates(rules, gates) ==> Decides(rules, record)
  {
    if InOrder(gates) {
      forall rules: seq<Rule<R>> | HasGates(rules, gates)
        ensures Decides(rules, record)
      {
        InOrderDecides(rules, gates, record);
      }
    } else {
      var i, j :| 0 <= i <= j < |gates| && gates[j].id in gates[i].requiresPassed;
      if gates[j].id in gates[j].requiresPassed {
        SelfGateFails(gates, record, j);
      } else {
        LaterGateFails(gates, record, i, j);
      }
    }
  }

  lemma InOrderDecides<R>(rules: seq<Rule<R>>, gates: seq<Gate>, record: R)
    requires HasGates(rules, gates) && InOrder(gates) && DistinctGates(gates)
    ensures DistinctIds(rules) && NothingLater(rules) && Decides(rules, record)
  {
    assert forall i, j :: 0 <= i < j < |rules| ==> gates[i].id != gates[j].id;
    assert forall i, j :: 0 <= i <= j < |rules| ==> gates[j].id !in gates[i].requiresPassed;
    hide IsMeaning, Turns;
    if Turns(rules, record).Ok? {
      LoopMeans(rules, record);
      var reported := Turns(rules, record).value.failed;
      forall other | IsMeaning(rules, record, other)
        ensures other == reported
      {
        MeaningUnique(rules, record, other, reported);
      }
    }
  }

  /** Rules in order have no cycle. */
  lemma InOrderMeansAcyclic(gates: seq<Gate>)
    requires DistinctGates(gates) && InOrder(gates)
    ensures !HasCycle(gates)
  {
    var rank := RankByPlace(gates);
    forall a, b | a in rank && Requires(gates, a, b)
      ensures b in rank && rank[b] < rank[a]
    {
      var i :| 0 <= i < |gates| && gates[i].id == a && b in gates[i].requiresPassed;
      var j :| 0 <= j < |gates| && gates[j].id == b;
      assert j < i;
    }
    RankedMeansAcyclic(gates, rank);
  }

  function RankByPlace(gates: seq<Gate>): (rank: map<nat, nat>)
    requires DistinctGates(gates)
    ensures forall i :: 0 <= i < |gates| ==> gates[i].id in rank && rank[gates[i].id] == i
  {
    if gates == [] then map[] else
      var n := |gates| - 1;
      assert forall i, j :: 0 <= i < j < n ==> gates[i].id != gates[j].id;
      RankByPlace(gates[..n])[gates[n].id := n]
  }

  /** But a registry can pass the whole boot check and still be out of order. */
  lemma AcyclicIsNotEnough()
    ensures exists rules: seq<Declared> :: RegistryValid(rules, []) && !InOrder(Gates(rules))
  {
    var first := Declared(Gate(1, [2]), "A", [], None, None);
    var second := Declared(Gate(2, []), "B", [], None, None);
    var rules := [first, second];
    var gates := Gates(rules);
    assert gates == [Gate(1, [2]), Gate(2, [])];
    var rank: map<nat, nat> := map[1 := 1, 2 := 0];
    assert Ranked(gates, rank);
    RankedMeansAcyclic(gates, rank);
    assert gates[1].id in gates[0].requiresPassed;
    assert KnownId(gates, 2);
    assert first.code[0] != second.code[0];
    assert RegistryValid(rules, []) && !InOrder(gates);
  }

  // ---- the registry of this rule set --------------------------------------

  /** The thirty-one rules, RIV-010 to RIV-132, with their gates. */
  const REGISTRY: seq<Gate> := [
    Gate(10, []), Gate(11, [10]), Gate(20, []), Gate(21, [20]), Gate(30, []), Gate(31, [30]), Gate(32, [30, 31]),
    Gate(40, []), Gate(41, [40]), Gate(50, []), Gate(51, [50]), Gate(60, []), Gate(70, []), Gate(71, []), Gate(72, []),
    Gate(73, []), Gate(80, []), Gate(81, [80]), Gate(82, [80, 81]), Gate(90, []), Gate(91, [90]), Gate(92, [90]),
    Gate(100, []), Gate(101, [100]), Gate(110, []), Gate(111, [110]), Gate(120, []), Gate(121, [120]),
    Gate(130, []), Gate(131, [130]), Gate(132, [130, 131])]

  lemma IdsStep()
    ensures |REGISTRY| == 31
    ensures forall i :: 0 <= i < 30 ==> REGISTRY[i].id < REGISTRY[i + 1].id
  {}

  /** The last digit of a group of ten. */
  function LastDigit(group: nat): nat {
    if group == 6 then 0 else if group == 7 then 3 else if group in {3, 8, 9, 13} then 2 else 1
  }

  /** Where each group begins, and the end. */
  const STARTS: seq<nat> := [0, 0, 2, 4, 7, 9, 11, 12, 16, 19, 22, 24, 26, 28, 31]

  /** Thirteen groups of ten, one after the other, each numbered from zero without a gap. */
  lemma RuleIds(group: nat, digit: nat)
    requires 1 <= group <= 13 && digit <= LastDigit(group)
    ensures STARTS[1] == 0 && STARTS[14] == |REGISTRY| && STARTS[group + 1] == STARTS[group] + LastDigit(group) + 1
    ensures STARTS[group] + digit < |REGISTRY| && REGISTRY[STARTS[group] + digit].id == 10 * group + digit
  {}

  /** A rule waits for every earlier rule of its group, except in the seventies and except 92 on 91. */
  predicate WaitsFor(id: nat, d: nat) {
    id - id % 10 <= d < id && !(70 <= id < 80) && !(d == 91 && id == 92)
  }

  lemma GatesAre(i: nat, d: nat)
    requires i < |REGISTRY|
    ensures d in REGISTRY[i].requiresPassed <==> WaitsFor(REGISTRY[i].id, d)
  {
    hide REGISTRY, WaitsFor;
    if i < 16 {
      GatesBelow80(i, d);
    } else {
      GatesFrom80(i, d);
    }
  }

  lemma GatesBelow80(i: nat, d: nat)
    requires i < 16
    ensures |REGISTRY| == 31 && (d in REGISTRY[i].requiresPassed <==> WaitsFor(REGISTRY[i].id, d))
  {}

  lemma GatesFrom80(i: nat, d: nat)
    requires 16 <= i < |REGISTRY|
    ensures d in REGISTRY[i].requiresPassed <==> WaitsFor(REGISTRY[i].id, d)
  {}

  lemma GatesPointBack(i: nat)
    requires i < 31
    ensures |REGISTRY| == 31
    ensures forall d :: d in REGISTRY[i].requiresPassed ==> d < REGISTRY[i].id
  {}

  /** The registry passes the check and is in order. */
  lemma RegistryInOrder()
    ensures |REGISTRY| == 31 && DistinctGates(REGISTRY) && InOrder(REGISTRY)
    ensures forall i, j :: 0 <= i < j < |REGISTRY| ==> REGISTRY[i].id < REGISTRY[j].id
  {
    IdsStep();
    forall i: nat | i < 31
      ensures forall d :: d in REGISTRY[i].requiresPassed ==> d < REGISTRY[i].id
    {
      GatesPointBack(i);
    }
    BackwardInOrder(REGISTRY);
  }

  /** Whatever the predicates of the thirty-one rules say, the loop decides them; and the rules wait as declared. */
  lemma RegistryDecides<R(!new)>(rules: seq<Rule<R>>, record: R)
    requires HasGates(rules, REGISTRY)
    ensures Decides(rules, record) && !HasCycle(REGISTRY)
    ensures forall i: nat, d: nat :: i < |rules| ==> (d in rules[i].requiresPassed <==> WaitsFor(rules[i].id, d))
  {
    hide Decides, HasCycle, InOrder, DistinctGates, REGISTRY, WaitsFor;
    forall i: nat, d: nat | i < |rules|
      ensures d in rules[i].requiresPassed <==> WaitsFor(rules[i].id, d)
    {
      GatesAre(i, d);
    }
    RegistryInOrder();
    InOrderDecides(rules, REGISTRY, record);
    InOrderMeansAcyclic(REGISTRY);
  }

  lemma BackwardInOrder(gates: seq<Gate>)
    requires forall i :: 0 <= i < |gates| - 1 ==> gates[i].id < gates[i + 1].id
    requires forall i: nat :: i < |gates| ==> forall d :: d in gates[i].requiresPassed ==> d < gates[i].id
    ensures DistinctGates(gates) && InOrder(gates)
    ensures forall i, j :: 0 <= i < j < |gates| ==> gates[i].id < gates[j].id
  {
    AscendingFromSteps(gates);
  }

  lemma AscendingFromSteps(gates: seq<Gate>)
    requires forall i :: 0 <= i < |gates| - 1 ==> gates[i].id < gates[i + 1].id
    ensures forall i, j :: 0 <= i < j < |gates| ==> gates[i].id < gates[j].id
  {
    forall i, j | 0 <= i < j < |gates|
      ensures gates[i].id < gates[j].id
    {
      StepsAscend(gates, i, j);
    }
  }

  lemma {:induction false} StepsAscend(gates: seq<Gate>, i: nat, j: nat)
    requires i < j < |gates| && forall k :: 0 <= k < |gates| - 1 ==> gates[k].id < gates[k + 1].id
    ensures gates[i].id < gates[j].id
  {
    if i + 1 < j {
      StepsAscend(gates, i, j - 1);
    }
    assert gates[j - 1].id < gates[j - 1 + 1].id;
  }
}
