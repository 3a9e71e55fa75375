/** The rate limit on logs of technical caller rejections (internal/grpcproxy/caller_auth_errors.go). */
module LogLimiter {

  /** Ten seconds in nanoseconds. */
  const INTERVAL := 10_000_000_000

  datatype State = State(last: map<string, int>, suppressed: map<string, nat>)

  datatype Event = Event(cause: string, now: int)

  function CountOf(m: map<string, nat>, cause: string): nat {
    if cause in m then m[cause] else 0
  }

  function Step(s: State, e: Event): (bool, nat, State) {
    if e.cause in s.last && e.now - s.last[e.cause] < INTERVAL
    then (false, 0, s.(suppressed := s.suppressed[e.cause := CountOf(s.suppressed, e.cause) + 1]))
    else (true, CountOf(s.suppressed, e.cause), State(s.last[e.cause := e.now], s.suppressed[e.cause := 0]))
  }

  class CallerLogLimiter {
    var last: map<string, int>
    var suppressed: map<string, nat>

    function View(): State
      reads this
    {
      State(last, suppressed)
    }

    constructor ()
      ensures View() == State(map[], map[])
    {
      last := map[];
      suppressed := map[];
    }

    method Allow(cause: string, now: int) returns (emit: bool, count: nat)
      modifies this
      ensures (emit, count, View()) == Step(old(View()), Event(cause, now))
    {
      if cause in last && now - last[cause] < INTERVAL {
        suppressed := suppressed[cause := CountOf(suppressed, cause) + 1];
        return false, 0;
      }
      count := CountOf(suppressed, cause);
      last := last[cause := now];
      suppressed := suppressed[cause := 0];
      emit := true;
    }
  }

  // ---------- whole runs ----------

  function After(events: seq<Event>): State {
    if events == [] then State(map[], map[]) else Step(After(events[..|events| - 1]), events[|events| - 1]).2
  }

  /** Whether event `i` is logged, and the number it reports. */
  function Outcome(events: seq<Event>, i: nat): (bool, nat)
    requires i < |events|
  {
    var r := Step(After(events[..i]), events[i]);
    (r.0, r.1)
  }

  predicate Logged(events: seq<Event>, i: nat)
    requires i < |events|
  {
    Outcome(events, i).0
  }

  function Occurrences(events: seq<Event>, cause: string): nat {
    if events == [] then 0
    else
      var n := |events| - 1;
      Occurrences(events[..n], cause) + if events[n].cause == cause then 1 else 0
  }

  /** What the logs of a cause tell: each log stands for itself and the suppressed ones it reports. */
  function Told(events: seq<Event>, cause: string): nat {
    if events == [] then 0
    else
      var n := |events| - 1;
      var (logged, reported) := Outcome(events, n);
      Told(events[..n], cause) + if events[n].cause == cause && logged then 1 + reported else 0
  }

  /** No rejection is lost or counted twice: every one was told by a log or waits for the next. */
  lemma {:induction false} EveryRejectionAccounted(events: seq<Event>, cause: string)
    ensures Occurrences(events, cause) == Told(events, cause) + CountOf(After(events).suppressed, cause)
  {
    if events != [] {
      EveryRejectionAccounted(events[..|events| - 1], cause);
    }
  }

  /** The index of a cause's latest log, or -1. */
  function Latest(events: seq<Event>, cause: string): (i: int)
    ensures -1 <= i < |events|
  {
    var n := |events| - 1;
    if n < 0 then -1 else if events[n].cause == cause && Logged(events, n) then n else Latest(events[..n], cause)
  }

  lemma LoggedInPrefix(events: seq<Event>, n: nat, i: nat)
    requires i < n <= |events|
    ensures Logged(events[..n], i) == Logged(events, i)
  {
    assert events[..n][..i] == events[..i];
  }

  /** The remembered instant of a cause is that of its latest log. */
  lemma {:induction false} LastIsLatestLog(events: seq<Event>, cause: string)
    ensures
      var k, last := Latest(events, cause), After(events).last;
      if k < 0 then cause !in last
      else events[k].cause == cause && Logged(events, k) && cause in last && last[cause] == events[k].now
  {
    if events != [] {
      var n := |events| - 1;
      LastIsLatestLog(events[..n], cause);
      var k := Latest(events[..n], cause);
      if k >= 0 {
        LoggedInPrefix(events, n, k);
      }
    }
  }

  lemma {:induction false} LatestIsAtLeast(events: seq<Event>, i: nat)
    requires i < |events| && Logged(events, i)
    ensures i <= Latest(events, events[i].cause)
  {
    var n := |events| - 1;
    if i < n {
      LoggedInPrefix(events, n, i);
      LatestIsAtLeast(events[..n], i);
    }
  }

  /** Two logs of one cause are at least the interval apart. */
  lemma {:induction false} LogsAreApart(events: seq<Event>, i: nat, j: nat)
    requires i < j < |events| && events[i].cause == events[j].cause && Logged(events, i) && Logged(events, j)
    ensures events[j].now - events[i].now >= INTERVAL
    decreases j
  {
    var cause, before := events[i].cause, events[..j];
    LoggedInPrefix(events, j, i);
    LatestIsAtLeast(before, i);
    LastIsLatestLog(before, cause);
    var k := Latest(before, cause);
    if i < k {
      LoggedInPrefix(events, j, k);
      LogsAreApart(events, i, k);
    }
  }

  predicate InOrder(events: seq<Event>) {
    forall i, j :: 0 <= i < j < |events| ==> events[i].now <= events[j].now
  }

  /** A rejection is logged exactly if its cause has not been logged in the ten seconds before. */
  lemma LoggedExact(events: seq<Event>, i: nat)
    requires InOrder(events) && i < |events|
    ensures Logged(events, i) <==>
            forall j: nat :: j < i && events[j].cause == events[i].cause && Logged(events, j) ==> events[i].now - events[j].now >= INTERVAL
  {
    var before, cause := events[..i], events[i].cause;
    LastIsLatestLog(before, cause);
    var k := Latest(before, cause);
    if k >= 0 {
      LoggedInPrefix(events, i, k);
    }
    forall j: nat | j < i && events[j].cause == cause && Logged(events, j) ensures j <= k {
      LoggedInPrefix(events, i, j);
      LatestIsAtLeast(before, j);
    }
  }
}
