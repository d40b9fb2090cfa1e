/** The in-process dispatcher: a FIFO queue drained by at most `concurrency` jobs at a time. */
module Worker {

  /** The dispatcher's two variables, and what it has started so far. */
  datatype State = State(queue: seq<string>, active: nat, started: seq<string>)

  datatype Event = Dispatched(id: string) | Settled

  function Pumped(concurrency: nat, s: State): State
    decreases |s.queue|
  {
    if s.active < concurrency && s.queue != [] then
      Pumped(concurrency, State(s.queue[1..], s.active + 1, s.started + [s.queue[0]]))
    else s
  }

  /** A settlement is the settlement of a job that is running. */
  predicate Possible(s: State, ev: Event) {
    ev.Settled? ==> s.active > 0
  }

  function Step(concurrency: nat, s: State, ev: Event): State
    requires Possible(s, ev)
  {
    match ev
    case Dispatched(id) => Pumped(concurrency, s.(queue := s.queue + [id]))
    case Settled => Pumped(concurrency, s.(active := s.active - 1))
  }

  const IDLE := State([], 0, [])

  /** The state after a history of events, `None` if a settlement came out of nowhere. */
  function After(concurrency: nat, history: seq<Event>): (r: Result)
  {
    if history == [] then Reached(IDLE)
    else match After(concurrency, history[..|history| - 1]) {
      case Impossible => Impossible
      case Reached(s) =>
        var ev := history[|history| - 1];
        if Possible(s, ev) then Reached(Step(concurrency, s, ev)) else Impossible
    }
  }

  datatype Result = Reached(state: State) | Impossible

  function DispatchedIds(history: seq<Event>): seq<string> {
    if history == [] then [] else
      var ev := history[|history| - 1];
      DispatchedIds(history[..|history| - 1]) + (if ev.Dispatched? then [ev.id] else [])
  }

  function Settlements(history: seq<Event>): nat {
    if history == [] then 0 else
      Settlements(history[..|history| - 1]) + (if history[|history| - 1].Settled? then 1 else 0)
  }

  function Min(a: nat, b: nat): nat {
    if a < b then a else b
  }

  /** Pumping starts the head of the queue for each free slot. */
  lemma {:induction false} PumpStarts(concurrency: nat, s: State)
    requires s.active <= concurrency
    ensures var n, r := Min(|s.queue|, concurrency - s.active), Pumped(concurrency, s);
            r == State(s.queue[n..], s.active + n, s.started + s.queue[..n])
    decreases |s.queue|
  {
    if s.active < concurrency && s.queue != [] {
      var next := State(s.queue[1..], s.active + 1, s.started + [s.queue[0]]);
      PumpStarts(concurrency, next);
      var n := Min(|next.queue|, concurrency - next.active);
      assert next.queue[n..] == s.queue[n + 1..];
      assert [s.queue[0]] + next.queue[..n] == s.queue[..n + 1];
      assert next.started + next.queue[..n] == s.started + s.queue[..n + 1];
    } else {
      assert s.started + s.queue[..0] == s.started;
      assert s.queue[0..] == s.queue;
    }
  }

  /** Started: exactly the first so-many of the dispatched ids, one for each slot and one for each settlement. */
  ghost predicate Balanced(concurrency: nat, s: State, ids: seq<string>, settled: nat) {
    var n := Min(|ids|, concurrency + settled);
    && s.started == ids[..n] && s.queue == ids[n..]
    && settled <= n && s.active == n - settled
  }

  lemma DispatchKeeps(concurrency: nat, s: State, ids: seq<string>, settled: nat, id: string)
    requires Balanced(concurrency, s, ids, settled)
    ensures Balanced(concurrency, Step(concurrency, s, Dispatched(id)), ids + [id], settled)
  {
    if |ids| < concurrency + settled {
      assert s.queue == [] && s.started == ids;
      assert [] + [id] == [id] && [id][1..] == [];
      var r := State([], s.active + 1, s.started + [id]);
      assert Step(concurrency, s, Dispatched(id)) == Pumped(concurrency, s.(queue := [id])) == r;
      WholePrefix(ids + [id]);
    } else {
      var n := concurrency + settled;
      PrefixOfMore(ids, id, n);
    }
  }

  lemma WholePrefix(ids: seq<string>)
    ensures ids[..|ids|] == ids && ids[|ids|..] == []
  {}

  lemma PrefixOfMore(ids: seq<string>, id: string, n: nat)
    requires n <= |ids|
    ensures (ids + [id])[..n] == ids[..n] && (ids + [id])[n..] == ids[n..] + [id]
  {}

  lemma SettleKeeps(concurrency: nat, s: State, ids: seq<string>, settled: nat)
    requires Balanced(concurrency, s, ids, settled) && s.active > 0
    ensures Balanced(concurrency, Step(concurrency, s, Settled), ids, settled + 1)
  {
    var freed := s.(active := s.active - 1);
    PumpStarts(concurrency, freed);
    var n := Min(|ids|, concurrency + settled);
    var k := Min(|freed.queue|, concurrency - freed.active);
    assert freed.started + freed.queue[..k] == ids[..n + k];
    assert freed.queue[k..] == ids[n + k..];
  }

  lemma {:induction false} AlwaysBalanced(concurrency: nat, history: seq<Event>)
    requires After(concurrency, history).Reached?
    ensures Balanced(concurrency, After(concurrency, history).state, DispatchedIds(history), Settlements(history))
  {
    hide Balanced, Step;
    if history == [] {
      StartBalanced(concurrency);
    } else {
      var init, ev := history[..|history| - 1], history[|history| - 1];
      AlwaysBalanced(concurrency, init);
      var s, ids, settled := After(concurrency, init).state, DispatchedIds(init), Settlements(init);
      match ev {
        case Dispatched(id) => DispatchKeeps(concurrency, s, ids, settled, id);
        case Settled =>
          SettleKeeps(concurrency, s, ids, settled);
          assert DispatchedIds(history) == ids;
      }
    }
  }

  lemma StartBalanced(concurrency: nat)
    ensures Balanced(concurrency, IDLE, [], 0)
  {}

  /** What has been started is always exactly the first so-many of what was dispatched, in dispatch order and each
      once; never more than `concurrency` jobs are at work, and no slot is idle while something waits. */
  lemma StartedIsPrefix(concurrency: nat, history: seq<Event>)
    requires After(concurrency, history).Reached?
    ensures var s, ids, settled := After(concurrency, history).state, DispatchedIds(history), Settlements(history);
            && s.started + s.queue == ids
            && |s.started| == Min(|ids|, concurrency + settled)
            && s.active == |s.started| - settled <= concurrency
            && (s.queue != [] ==> s.active == concurrency)
  {
    AlwaysBalanced(concurrency, history);
  }

  /** Whatever waits starts after finitely many settlements, and until then there is always a job left to settle. */
  lemma EveryDispatchStarts(concurrency: nat, history: seq<Event>, k: nat)
    requires concurrency >= 1 && After(concurrency, history).Reached? && k < |DispatchedIds(history)|
    ensures var s := After(concurrency, history).state;
            if Settlements(history) + concurrency > k then k < |s.started| && s.started[k] == DispatchedIds(history)[k]
            else s.active == concurrency
  {
    StartedIsPrefix(concurrency, history);
  }

  // ---- the dispatcher -----------------------------------------------------

  class RecommendationWorker {
    const concurrency: nat
    var queue: seq<string>
    var active: nat
    ghost var started: seq<string>

    ghost function Now(): State
      reads this
    {
      State(queue, active, started)
    }

    constructor (concurrency: nat)
      ensures this.concurrency == concurrency && Now() == IDLE
    {
      this.concurrency := concurrency;
      queue, active, started := [], 0, [];
    }

    /** Starts queued jobs while there is a free slot. */
    method Pump()
      modifies this
      ensures Now() == Pumped(concurrency, old(Now()))
    {
      while active < concurrency && |queue| > 0
        invariant Pumped(concurrency, Now()) == Pumped(concurrency, old(Now()))
        decreases |queue|
      {
        var id := queue[0];
        queue := queue[1..];
        active := active + 1;
        started := started + [id];
      }
    }

    method Dispatch(id: string)
      modifies this
      ensures Now() == Step(concurrency, old(Now()), Dispatched(id))
    {
      queue := queue + [id];
      Pump();
    }

    /** The callback of a job that has settled. */
    method Settle()
      requires active > 0
      modifies this
      ensures Now() == Step(concurrency, old(Now()), Settled)
    {
      active := active - 1;
      Pump();
    }
  }
}
