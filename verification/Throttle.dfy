/** The sign-in throttle: a pruned log of recent failures for each account key. */
module Throttle {

  const MAX_FAILURES := 5
  const WINDOW_MS := 15 * 60 * 1000

  /** What the credentials turn out to be, once they are looked at. */
  datatype Credentials = Wrong | Deactivated | Right

  datatype Attempt = Attempt(now: int, credentials: Credentials)

  datatype Verdict = TooManyAttempts(retryAfterSeconds: int) | AuthFailed | AccountInactive | SignedIn

  /** The failures still inside the window. */
  function Prune(failures: seq<int>, now: int): (r: seq<int>)
    ensures |r| <= |failures|
    ensures forall t :: t in r <==> t in failures && now - t < WINDOW_MS
  {
    if failures == [] then []
    else
      assert failures == [failures[0]] + failures[1..];
      (if now - failures[0] < WINDOW_MS then [failures[0]] else []) + Prune(failures[1..], now)
  }

  predicate Blocked(failures: seq<int>, now: int) {
    |Prune(failures, now)| >= MAX_FAILURES
  }

  function RetryAfterMs(surviving: seq<int>, now: int): int {
    if surviving == [] then 0
    else if WINDOW_MS - (now - surviving[0]) < 0 then 0 else WINDOW_MS - (now - surviving[0])
  }

  /** Milliseconds rounded up to whole seconds. */
  function CeilSeconds(ms: int): int {
    (ms + 999) / 1000
  }

  function VerdictOf(failures: seq<int>, a: Attempt): Verdict {
    var surviving := Prune(failures, a.now);
    if |surviving| >= MAX_FAILURES then TooManyAttempts(CeilSeconds(RetryAfterMs(surviving, a.now)))
    else match a.credentials
      case Wrong => AuthFailed
      case Deactivated => AccountInactive
      case Right => SignedIn
  }

  // ---- the pruned log -----------------------------------------------------

  /** The log after an attempt: pruned, and a failure added unless the attempt was turned away. */
  function LogAfterOne(log: seq<int>, a: Attempt): seq<int> {
    var surviving := Prune(log, a.now);
    if |surviving| >= MAX_FAILURES then surviving
    else match a.credentials
      case Wrong => surviving + [a.now]
      case Deactivated => surviving
      case Right => []
  }

  function LogAfter(attempts: seq<Attempt>): seq<int> {
    if attempts == [] then [] else LogAfterOne(LogAfter(attempts[..|attempts| - 1]), attempts[|attempts| - 1])
  }

  // ---- the full history ---------------------------------------------------

  /** Every failure since the last success, none forgotten; attempts turned away and deactivated accounts do not count. */
  function HistoryAfter(attempts: seq<Attempt>): seq<int> {
    if attempts == [] then [] else
      var history, a := HistoryAfter(attempts[..|attempts| - 1]), attempts[|attempts| - 1];
      if Blocked(history, a.now) then history
      else match a.credentials
        case Wrong => history + [a.now]
        case Deactivated => history
        case Right => []
  }

  predicate InOrder(attempts: seq<Attempt>) {
    forall i, j :: 0 <= i <= j < |attempts| ==> attempts[i].now <= attempts[j].now
  }

  lemma {:induction false} PruneAppend(a: seq<int>, b: seq<int>, now: int)
    ensures Prune(a + b, now) == Prune(a, now) + Prune(b, now)
  {
    if a == [] {
      assert a + b == b;
    } else {
      assert (a + b)[1..] == a[1..] + b;
      PruneAppend(a[1..], b, now);
    }
  }

  /** Forgetting what has left the window loses nothing as long as the clock does not go back. */
  lemma {:induction false} PruneTwice(failures: seq<int>, earlier: int, now: int)
    requires earlier <= now
    ensures Prune(Prune(failures, earlier), now) == Prune(failures, now)
  {
    if failures != [] {
      PruneTwice(failures[1..], earlier, now);
      var head := if earlier - failures[0] < WINDOW_MS then [failures[0]] else [];
      PruneAppend(head, Prune(failures[1..], earlier), now);
      assert Prune(failures, earlier) == head + Prune(failures[1..], earlier);
    }
  }

  /** At any moment from the last attempt on, the pruned log and the full history have the same recent failures. */
  lemma {:induction false} LogIsHistory(attempts: seq<Attempt>, now: int)
    requires InOrder(attempts) && (attempts != [] ==> attempts[|attempts| - 1].now <= now)
    ensures Prune(LogAfter(attempts), now) == Prune(HistoryAfter(attempts), now)
  {
    if attempts != [] {
      var init, a := attempts[..|attempts| - 1], attempts[|attempts| - 1];
      assert InOrder(init) && (init != [] ==> init[|init| - 1].now <= a.now);
      LogIsHistory(init, a.now);
      var log, history := LogAfter(init), HistoryAfter(init);
      PruneTwice(log, a.now, now);
      PruneTwice(history, a.now, now);
      PruneAppend(Prune(log, a.now), [a.now], now);
      PruneAppend(history, [a.now], now);
    }
  }

  /** The pruned log gives the verdict that the full history since the last success would give. */
  lemma SameVerdict(attempts: seq<Attempt>, a: Attempt)
    requires InOrder(attempts + [a])
    ensures VerdictOf(LogAfter(attempts), a) == VerdictOf(HistoryAfter(attempts), a)
  {
    var all := attempts + [a];
    assert forall i :: 0 <= i < |attempts| ==> attempts[i] == all[i];
    assert attempts != [] ==> all[|attempts| - 1].now <= all[|attempts|].now;
    LogIsHistory(attempts, a.now);
  }

  predicate Ordered(failures: seq<int>) {
    forall i, j :: 0 <= i <= j < |failures| ==> failures[i] <= failures[j]
  }

  /** The log never grows beyond five entries, and its entries are in order and not in the future. */
  lemma {:induction false} LogIsShort(attempts: seq<Attempt>)
    requires InOrder(attempts)
    ensures var log := LogAfter(attempts);
            && |log| <= MAX_FAILURES
            && Ordered(log)
            && (log != [] ==> attempts != [] && log[|log| - 1] <= attempts[|attempts| - 1].now)
  {
    if attempts != [] {
      var init, a := attempts[..|attempts| - 1], attempts[|attempts| - 1];
      assert InOrder(init) && (init != [] ==> init[|init| - 1].now <= a.now);
      hide LogAfterOne, InOrder;
      LogIsShort(init);
      OneMore(LogAfter(init), a);
    }
  }

  lemma OneMore(log: seq<int>, a: Attempt)
    requires |log| <= MAX_FAILURES && Ordered(log) && (log != [] ==> log[|log| - 1] <= a.now)
    ensures var r := LogAfterOne(log, a);
            |r| <= MAX_FAILURES && Ordered(r) && (r != [] ==> r[|r| - 1] <= a.now)
  {
    hide Prune;
    PruneOrdered(log, a.now);
    var surviving := Prune(log, a.now);
    if surviving != [] {
      assert surviving[|surviving| - 1] == log[|log| - 1];
    }
  }

  /** Pruning an ordered log leaves its end. */
  lemma {:induction false} PruneOrdered(failures: seq<int>, now: int)
    requires Ordered(failures)
    ensures var r := Prune(failures, now);
            Ordered(r) && r == failures[|failures| - |r|..]
  {
    if failures != [] {
      var tail, r := failures[1..], Prune(failures, now);
      assert Ordered(tail);
      PruneOrdered(tail, now);
      if now - failures[0] < WINDOW_MS {
        NothingLeaves(failures, now);
      } else {
        assert r == Prune(tail, now);
        assert tail[|tail| - |r|..] == failures[|failures| - |r|..];
      }
    }
  }

  /** The failures of a history that are less than fifteen minutes old, each counted once. */
  function Recent(history: seq<int>, now: int): set<nat> {
    set i: nat | i < |history| && now - history[i] < 900_000
  }

  lemma {:induction false} RecentCount(history: seq<int>, now: int)
    ensures |Recent(history, now)| == |Prune(history, now)|
  {
    if history == [] {
      assert Recent(history, now) == {};
    } else {
      var n := |history| - 1;
      var init, last := history[..n], history[n];
      RecentCount(init, now);
      PruneAppend(init, [last], now);
      assert history == init + [last];
      assert Recent(history, now) == Recent(init, now) + if now - last < 900_000 then {n} else {};
    }
  }

  /** One is turned away exactly when the full history since the last success has five failures within fifteen minutes,
      whatever the credentials; otherwise the credentials decide the answer. */
  lemma AnswerIff(attempts: seq<Attempt>, a: Attempt)
    requires InOrder(attempts + [a])
    ensures var answer := VerdictOf(LogAfter(attempts), a);
            && (answer.TooManyAttempts? <==> |Recent(HistoryAfter(attempts), a.now)| >= 5)
            && (!answer.TooManyAttempts? ==>
                  && (answer.AuthFailed? <==> a.credentials.Wrong?)
                  && (answer.AccountInactive? <==> a.credentials.Deactivated?)
                  && (answer.SignedIn? <==> a.credentials.Right?))
  {
    hide Prune, LogAfter, HistoryAfter;
    SameVerdict(attempts, a);
    RecentCount(HistoryAfter(attempts), a.now);
  }

  // ---- the announced wait -------------------------------------------------

  lemma {:induction false} NothingLeaves(failures: seq<int>, now: int)
    requires Ordered(failures) && (failures != [] ==> now - failures[0] < WINDOW_MS)
    ensures Prune(failures, now) == failures
  {
    if failures != [] {
      var tail := failures[1..];
      assert forall i :: 0 <= i < |tail| ==> tail[i] == failures[i + 1];
      NothingLeaves(tail, now);
    }
  }

  lemma {:induction false} OneLeaves(failures: seq<int>, now: int)
    requires failures != [] && now - failures[0] >= WINDOW_MS
    ensures |Prune(failures, now)| < |failures|
  {}

  /** Turned away, one is told exactly how long: the full history stays blocking until that moment and not beyond, and
      the announced seconds are the least whole number that reaches it. */
  lemma WaitIsExact(attempts: seq<Attempt>, a: Attempt, later: int)
    requires InOrder(attempts + [a]) && Blocked(HistoryAfter(attempts), a.now) && later >= a.now
    ensures var wait := RetryAfterMs(Prune(LogAfter(attempts), a.now), a.now);
            && (Blocked(HistoryAfter(attempts), later) <==> later < a.now + wait)
            && 0 < wait <= 1000 * CeilSeconds(wait) < wait + 1000
  {
    hide Prune, HistoryAfter, LogAfter;
    var all := attempts + [a];
    assert forall i :: 0 <= i < |attempts| ==> attempts[i] == all[i];
    assert attempts != [] ==> all[|attempts| - 1].now <= all[|attempts|].now;
    LogIsHistory(attempts, a.now);
    LogIsHistory(attempts, later);
    LogIsShort(attempts);
    var log, surviving := LogAfter(attempts), Prune(LogAfter(attempts), a.now);
    PruneTwice(log, a.now, later);
    PruneOrdered(log, a.now);
    assert surviving[0] in surviving;
    BlockedUntil(surviving, a.now, later);
  }

  lemma BlockedUntil(surviving: seq<int>, now: int, later: int)
    requires |surviving| == MAX_FAILURES && later >= now
    requires Ordered(surviving) && now - surviving[0] < WINDOW_MS
    ensures Blocked(surviving, later) <==> later < now + RetryAfterMs(surviving, now)
    ensures RetryAfterMs(surviving, now) > 0
  {
    if later - surviving[0] < WINDOW_MS {
      NothingLeaves(surviving, later);
    } else {
      OneLeaves(surviving, later);
    }
  }

  // ---- the store ----------------------------------------------------------

  class ThrottleStore {
    var store: map<string, seq<int>>

    function Failures(key: string): seq<int>
      reads this
    {
      if key in store then store[key] else []
    }

    constructor ()
      ensures forall key :: Failures(key) == []
    {
      store := map[];
    }

    method RecordFailure(key: string, now: int)
      modifies this
      ensures Failures(key) == Prune(old(Failures(key)), now) + [now]
      ensures forall other :: other != key ==> Failures(other) == old(Failures(other))
    {
      var failures := if key in store then store[key] else [];
      failures := Prune(failures, now);
      store := store[key := failures + [now]];
    }

    method Clear(key: string)
      modifies this
      ensures Failures(key) == []
      ensures forall other :: other != key ==> Failures(other) == old(Failures(other))
    {
      store := store - {key};
    }

    /** Throttle check, then the credentials: the log becomes what `LogAfterOne` says and the caller gets the verdict of
        the log as it was. The log is pruned in every case, gets the failure of a wrong password and nothing else, and is
        emptied by a success. */
    method SignIn(key: string, a: Attempt) returns (verdict: Verdict)
      modifies this
      ensures Failures(key) == LogAfterOne(old(Failures(key)), a)
      ensures verdict == VerdictOf(old(Failures(key)), a)
      ensures verdict.TooManyAttempts? <==> |Recent(old(Failures(key)), a.now)| >= 5
      ensures !verdict.TooManyAttempts? ==>
                && (verdict.AuthFailed? <==> a.credentials.Wrong?)
                && (verdict.AccountInactive? <==> a.credentials.Deactivated?)
                && (verdict.SignedIn? <==> a.credentials.Right?)
      ensures Failures(key) == if verdict.SignedIn? then []
                               else Prune(old(Failures(key)), a.now) + if verdict.AuthFailed? then [a.now] else []
      ensures forall other :: other != key ==> Failures(other) == old(Failures(other))
    {
      RecentCount(Failures(key), a.now);
      if key in store {
        var surviving := Prune(store[key], a.now);
        store := store[key := surviving];
        if |surviving| >= MAX_FAILURES {
          return TooManyAttempts(CeilSeconds(RetryAfterMs(surviving, a.now)));
        }
      }
      match a.credentials
      case Wrong =>
        PruneTwice(old(Failures(key)), a.now, a.now);
        RecordFailure(key, a.now);
        verdict := AuthFailed;
      case Deactivated =>
        verdict := AccountInactive;
      case Right =>
        Clear(key);
        verdict := SignedIn;
    }
  }
}
