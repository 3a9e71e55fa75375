/**
 Single-flight group for caller introspection (internal/grpcproxy/caller_auth_cache.go).

 `Group` is the state guarded by the mutex plus the slot channel; the functions on it are the
 atomic steps of the source. Class `IntrospectionFlights` performs the same steps in place.
 `System` interleaves those steps with any number of callers. The deferred block of `run` is
 four separate steps, and only its first one holds the mutex.
 */
module FlightGroup {
  import opened Common

  /** A token digest. */
  type Key = nat

  /** Pointer identity of a flight: its index in the arena of all flights ever started. */
  type FlightId = nat

  /** How far the goroutine of a flight has come. */
  datatype Stage = Fetching | Returned | Forgotten | Canceled | Freed | Done

  /** `Abandoned` is the error "introspection abandoned by all callers". */
  datatype Outcome = Unset | Answer(result: int) | Abandoned

  datatype Flight = Flight(key: Key, stage: Stage, canceled: bool, waiters: int, outcome: Outcome)

  /** A nil slot channel is `limit == None`. */
  datatype Group = Group(limit: Option<nat>, pending: map<Key, FlightId>, flights: seq<Flight>, used: nat)

  datatype Joined = Shared(flight: FlightId) | Started(flight: FlightId) | Overloaded

  function EmptyGroup(limit: Option<nat>): Group {
    Group(limit, map[], [], 0)
  }

  // ---------- atomic steps ----------

  function Full(g: Group): bool {
    g.limit.Some? && g.used >= g.limit.value
  }

  predicate Sound(g: Group) {
    forall k :: k in g.pending ==> g.pending[k] < |g.flights|
  }

  function Join(g: Group, key: Key): (r: (Group, Joined))
    requires Sound(g)
  {
    if key in g.pending then
      var f := g.pending[key];
      (g.(flights := g.flights[f := g.flights[f].(waiters := g.flights[f].waiters + 1)]), Shared(f))
    else if Full(g) then
      (g, Overloaded)
    else
      (Group(g.limit,
             g.pending[key := |g.flights|],
             g.flights + [Flight(key, Fetching, false, 1, Unset)],
             if g.limit.Some? then g.used + 1 else g.used),
       Started(|g.flights|))
  }

  /** `forgetLocked`: deletes the pending entry only when it still is this very flight. */
  function Forget(g: Group, f: FlightId): Group
    requires f < |g.flights|
  {
    var key := g.flights[f].key;
    if key in g.pending && g.pending[key] == f then g.(pending := g.pending - {key}) else g
  }

  function SetFlight(g: Group, f: FlightId, flight: Flight): Group
    requires f < |g.flights|
  {
    g.(flights := g.flights[f := flight])
  }

  function Leave(g: Group, f: FlightId): Group
    requires f < |g.flights|
  {
    var flight := g.flights[f].(waiters := g.flights[f].waiters - 1);
    if flight.waiters > 0 || flight.stage == Done then
      SetFlight(g, f, flight)
    else
      SetFlight(Forget(g, f), f, flight.(canceled := true))
  }

  /** The next step of the goroutine `run`; `None` when it has to wait or has ended. */
  function RunStep(g: Group, f: FlightId, fetched: Outcome): Option<Group>
    requires f < |g.flights|
  {
    var flight := g.flights[f];
    match flight.stage
    case Fetching =>
      // An abandoned answer is produced only once the flight's context is canceled.
      if fetched == Unset || (fetched == Abandoned && !flight.canceled) then None
      else Some(SetFlight(g, f, flight.(stage := Returned, outcome := fetched)))
    case Returned => Some(SetFlight(Forget(g, f), f, flight.(stage := Forgotten)))
    case Forgotten => Some(SetFlight(g, f, flight.(stage := Canceled, canceled := true)))
    case Canceled =>
      if g.limit.None? then Some(SetFlight(g, f, flight.(stage := Freed)))
      else if g.used == 0 then None // receiving from an empty channel blocks
      else Some(SetFlight(g, f, flight.(stage := Freed)).(used := g.used - 1))
    case Freed => Some(SetFlight(g, f, flight.(stage := Done)))
    case Done => None
  }

  // ---------- the mutable object ----------

  class IntrospectionFlights {
    const limit: Option<nat>
    var pending: map<Key, FlightId>
    var flights: seq<Flight>
    var used: nat

    function View(): Group
      reads this
    {
      Group(limit, pending, flights, used)
    }

    constructor (limit: Option<nat>)
      ensures View() == EmptyGroup(limit)
    {
      this.limit := limit;
      pending, flights, used := map[], [], 0;
    }

    method JoinFlight(key: Key) returns (joined: Joined)
      requires Sound(View())
      modifies this
      ensures (View(), joined) == Join(old(View()), key)
    {
      if key in pending {
        var f := pending[key];
        flights := flights[f := flights[f].(waiters := flights[f].waiters + 1)];
        return Shared(f);
      }
      if limit.Some? {
        if used >= limit.value {
          return Overloaded;
        }
        used := used + 1;
      }
      pending := pending[key := |flights|];
      flights := flights + [Flight(key, Fetching, false, 1, Unset)];
      joined := Started(|flights| - 1);
    }

    method ForgetLocked(f: FlightId)
      requires f < |flights|
      modifies this`pending
      ensures View() == Forget(old(View()), f)
    {
      var key := flights[f].key;
      if key in pending && pending[key] == f {
        pending := pending - {key};
      }
    }

    method LeaveFlight(f: FlightId)
      requires f < |flights|
      modifies this
      ensures View() == Leave(old(View()), f)
    {
      flights := flights[f := flights[f].(waiters := flights[f].waiters - 1)];
      if flights[f].waiters > 0 {
        return;
      }
      if flights[f].stage == Done {
        return;
      }
      ForgetLocked(f);
      flights := flights[f := flights[f].(canceled := true)];
    }

    /** Runs the deferred block of `run` without interruption. */
    method FinishRun(f: FlightId)
      requires f < |flights| && flights[f].stage == Returned
      requires limit.Some? ==> used > 0
      modifies this
      ensures
        var g1 := RunStep(old(View()), f, Unset);
        g1.Some? &&
        var g2 := RunStep(g1.value, f, Unset);
        g2.Some? &&
        var g3 := RunStep(g2.value, f, Unset);
        g3.Some? && RunStep(g3.value, f, Unset) == Some(View())
    {
      ForgetLocked(f);
      flights := flights[f := flights[f].(stage := Forgotten)];
      flights := flights[f := flights[f].(stage := Canceled, canceled := true)];
      if limit.Some? {
        used := used - 1;
      }
      flights := flights[f := flights[f].(stage := Freed)];
      flights := flights[f := flights[f].(stage := Done)];
    }
  }

  // ---------- interleavings ----------

  type CallerId = nat

  /** A caller inside `introspectCaller`, or after it. */
  datatype Caller =
    | Waiting(flight: FlightId)
    | Served(flight: FlightId, outcome: Outcome)
    | GaveUp(flight: FlightId)
    | Refused
    | Left(flight: FlightId)

  datatype System = System(group: Group, callers: map<CallerId, Caller>)

  datatype Label =
    | Arrive(caller: CallerId, key: Key)
    | Receive(caller: CallerId)
    | Expire(caller: CallerId)
    | Depart(caller: CallerId)
    | Run(flight: FlightId, fetched: Outcome)

  function Initial(limit: Option<nat>): System {
    System(EmptyGroup(limit), map[])
  }

  function Apply(s: System, l: Label): Option<System>
    requires Sound(s.group)
  {
    match l
    case Arrive(c, key) =>
      if c in s.callers then None
      else
        var (g, joined) := Join(s.group, key);
        Some(System(g, s.callers[c := if joined.Overloaded? then Refused else Waiting(joined.flight)]))
    case Receive(c) =>
      if c in s.callers && s.callers[c].Waiting? && s.callers[c].flight < |s.group.flights|
         && s.group.flights[s.callers[c].flight].stage == Done
      then
        var f := s.callers[c].flight;
        Some(s.(callers := s.callers[c := Served(f, s.group.flights[f].outcome)]))
      else None
    case Expire(c) =>
      if c in s.callers && s.callers[c].Waiting?
      then Some(s.(callers := s.callers[c := GaveUp(s.callers[c].flight)]))
      else None
    case Depart(c) =>
      if c in s.callers && (s.callers[c].Served? || s.callers[c].GaveUp?) && s.callers[c].flight < |s.group.flights|
      then
        var f := s.callers[c].flight;
        Some(System(Leave(s.group, f), s.callers[c := Left(f)]))
      else None
    case Run(f, fetched) =>
      if f < |s.group.flights| then
        var g := RunStep(s.group, f, fetched);
        if g.Some? then Some(s.(group := g.value)) else None
      else None
  }

  function Execute(s: System, labels: seq<Label>): Option<System>
    decreases |labels|
  {
    if labels == [] then Some(s)
    else if !Sound(s.group) then None
    else
      var next := Apply(s, labels[0]);
      if next.None? then None else Execute(next.value, labels[1..])
  }

  // ---------- the invariant ----------

  predicate Before(stage: Stage, limit: Stage) {
    Rank(stage) < Rank(limit)
  }

  function Rank(stage: Stage): nat {
    match stage
    case Fetching => 0 case Returned => 1 case Forgotten => 2
    case Canceled => 3 case Freed => 4 case Done => 5
  }

  function HoldsSlot(flight: Flight): bool {
    Before(flight.stage, Freed)
  }

  function SlotHolders(flights: seq<Flight>): set<FlightId> {
    set f | 0 <= f < |flights| && HoldsSlot(flights[f])
  }

  function Inside(caller: Caller, f: FlightId): bool {
    (caller.Waiting? || caller.Served? || caller.GaveUp?) && caller.flight == f
  }

  function CallersInside(callers: map<CallerId, Caller>, f: FlightId): set<CallerId> {
    set c | c in callers && Inside(callers[c], f)
  }

  predicate SlotsCounted(g: Group) {
    match g.limit
    case Some(n) => g.used == |SlotHolders(g.flights)| && g.used <= n
    case None => g.used == 0
  }

  /** Joined and not yet left. */
  predicate WaitersCounted(s: System) {
    && (forall f :: 0 <= f < |s.group.flights| ==> s.group.flights[f].waiters == |CallersInside(s.callers, f)|)
    && (forall c :: c in s.callers && !s.callers[c].Refused? ==> s.callers[c].flight < |s.group.flights|)
  }

  predicate Unfinished(flight: Flight) {
    Before(flight.stage, Forgotten)
  }

  predicate Live(flight: Flight) {
    Unfinished(flight) && !flight.canceled
  }

  predicate PointsToLive(g: Group, k: Key)
    requires k in g.pending
  {
    var f := g.pending[k];
    f < |g.flights| && g.flights[f].key == k && Live(g.flights[f])
  }

  predicate IsPending(g: Group, f: FlightId)
    requires f < |g.flights|
  {
    var key := g.flights[f].key;
    key in g.pending && g.pending[key] == f
  }

  /** The pending table holds exactly the unfinished flights that nobody abandoned. */
  predicate PendingExact(g: Group) {
    && (forall k :: k in g.pending ==> PointsToLive(g, k))
    && (forall f :: 0 <= f < |g.flights| && Live(g.flights[f]) ==> IsPending(g, f))
  }

  /** A flight is canceled early only after its last waiter left, and then nobody joins it again. */
  predicate WaitersExact(g: Group) {
    forall f :: 0 <= f < |g.flights| ==>
      && g.flights[f].waiters >= 0
      && (Unfinished(g.flights[f]) ==> (g.flights[f].canceled <==> g.flights[f].waiters == 0))
      && (g.flights[f].outcome == Abandoned ==> g.flights[f].waiters == 0)
      && (g.flights[f].stage == Fetching ==> g.flights[f].outcome == Unset)
  }

  predicate ServedWell(s: System) {
    forall c :: c in s.callers && s.callers[c].Served? ==> s.callers[c].outcome != Abandoned
  }

  predicate Inv(s: System) {
    && GroupInv(s.group)
    && WaitersCounted(s)
    && ServedWell(s)
  }

  lemma InsideBounds(s: System, f: FlightId)
    requires WaitersCounted(s) && f < |s.group.flights|
    ensures s.group.flights[f].waiters >= 0
    ensures forall c :: c in s.callers && Inside(s.callers[c], f) ==> s.group.flights[f].waiters > 0
  {
    forall c | c in s.callers && Inside(s.callers[c], f)
      ensures s.group.flights[f].waiters > 0
    {
      assert c in CallersInside(s.callers, f);
    }
  }

  lemma HoldersUnchanged(a: seq<Flight>, b: seq<Flight>)
    requires |a| == |b|
    requires forall f :: 0 <= f < |a| ==> HoldsSlot(a[f]) == HoldsSlot(b[f])
    ensures SlotHolders(a) == SlotHolders(b)
  {
  }

  lemma InsideUnchanged(a: map<CallerId, Caller>, c: CallerId, caller: Caller)
    requires c in a && forall f :: Inside(a[c], f) == Inside(caller, f)
    ensures forall f :: CallersInside(a[c := caller], f) == CallersInside(a, f)
  {
    forall f ensures CallersInside(a[c := caller], f) == CallersInside(a, f) {
      forall x ensures x in CallersInside(a[c := caller], f) <==> x in CallersInside(a, f) {
      }
    }
  }

  predicate GroupInv(g: Group) {
    Sound(g) && SlotsCounted(g) && PendingExact(g) && WaitersExact(g)
  }

  lemma JoinSharedKeeps(g: Group, key: Key)
    requires GroupInv(g) && key in g.pending
    ensures GroupInv(Join(g, key).0)
  {
    HoldersUnchanged(g.flights, Join(g, key).0.flights);
  }

  lemma JoinStartedKeeps(g: Group, key: Key)
    requires GroupInv(g) && key !in g.pending && !Full(g)
    ensures GroupInv(Join(g, key).0)
  {
    JoinStartedPending(g, key);
    JoinStartedSlots(g, key);
  }

  lemma JoinStartedSlots(g: Group, key: Key)
    requires Sound(g) && SlotsCounted(g) && key !in g.pending && !Full(g)
    ensures SlotsCounted(Join(g, key).0)
  {
    var h := Join(g, key).0;
    assert SlotHolders(h.flights) == SlotHolders(g.flights) + {|g.flights|};
    assert |g.flights| !in SlotHolders(g.flights);
  }

  lemma JoinStartedPending(g: Group, key: Key)
    requires Sound(g) && PendingExact(g) && key !in g.pending && !Full(g)
    ensures PendingExact(Join(g, key).0)
  {
    var h := Join(g, key).0;
    forall k | k in h.pending ensures PointsToLive(h, k) {
      assert k != key ==> PointsToLive(g, k);
    }
    forall f | 0 <= f < |h.flights| && Live(h.flights[f]) ensures IsPending(h, f) {
      assert f < |g.flights| ==> h.flights[f] == g.flights[f] && IsPending(g, f);
    }
  }

  lemma LeavePending(g: Group, f: FlightId)
    requires Sound(g) && PendingExact(g) && WaitersExact(g) && f < |g.flights| && g.flights[f].waiters > 0
    ensures PendingExact(Leave(g, f))
  {
    var h := Leave(g, f);
    forall k | k in h.pending ensures PointsToLive(h, k) {
      assert PointsToLive(g, k);
    }
    forall x | 0 <= x < |h.flights| && Live(h.flights[x]) ensures IsPending(h, x) {
      assert IsPending(g, x);
    }
  }

  lemma LeaveWaiters(g: Group, f: FlightId)
    requires WaitersExact(g) && f < |g.flights| && g.flights[f].waiters > 0
    ensures WaitersExact(Leave(g, f))
  {
  }

  lemma LeaveKeeps(g: Group, f: FlightId)
    requires GroupInv(g) && f < |g.flights| && g.flights[f].waiters > 0
    ensures GroupInv(Leave(g, f))
  {
    LeavePending(g, f);
    LeaveWaiters(g, f);
    HoldersUnchanged(g.flights, Leave(g, f).flights);
  }

  lemma RunStepPending(g: Group, f: FlightId, fetched: Outcome)
    requires Sound(g) && PendingExact(g) && f < |g.flights| && RunStep(g, f, fetched).Some?
    ensures PendingExact(RunStep(g, f, fetched).value)
  {
    var h := RunStep(g, f, fetched).value;
    forall k | k in h.pending ensures PointsToLive(h, k) {
      assert PointsToLive(g, k);
    }
    forall x | 0 <= x < |h.flights| && Live(h.flights[x]) ensures IsPending(h, x) {
      assert IsPending(g, x);
    }
  }

  lemma RunStepSlots(g: Group, f: FlightId, fetched: Outcome)
    requires SlotsCounted(g) && f < |g.flights| && RunStep(g, f, fetched).Some?
    ensures SlotsCounted(RunStep(g, f, fetched).value)
  {
    var h := RunStep(g, f, fetched).value;
    if g.flights[f].stage == Canceled {
      assert SlotHolders(h.flights) == SlotHolders(g.flights) - {f};
      assert f in SlotHolders(g.flights);
    } else {
      HoldersUnchanged(g.flights, h.flights);
    }
  }

  lemma RunStepKeeps(g: Group, f: FlightId, fetched: Outcome)
    requires GroupInv(g) && f < |g.flights| && RunStep(g, f, fetched).Some?
    ensures GroupInv(RunStep(g, f, fetched).value)
  {
    RunStepPending(g, f, fetched);
    RunStepSlots(g, f, fetched);
    RunStepExact(g, f, fetched);
  }

  lemma RunStepExact(g: Group, f: FlightId, fetched: Outcome)
    requires WaitersExact(g) && f < |g.flights| && RunStep(g, f, fetched).Some?
    ensures WaitersExact(RunStep(g, f, fetched).value)
  {
  }

  lemma ArriveKeeps(s: System, c: CallerId, key: Key)
    requires Inv(s) && c !in s.callers
    ensures Inv(Apply(s, Arrive(c, key)).value)
  {
    var t := Apply(s, Arrive(c, key)).value;
    var (g, joined) := Join(s.group, key);
    if joined.Started? {
      JoinStartedKeeps(s.group, key);
    } else if joined.Shared? {
      JoinSharedKeeps(s.group, key);
    }
    forall f | 0 <= f < |g.flights|
      ensures g.flights[f].waiters == |CallersInside(t.callers, f)|
    {
      ArriveCounts(s, c, key, f);
    }
  }

  lemma ArriveCounts(s: System, c: CallerId, key: Key, f: FlightId)
    requires Inv(s) && c !in s.callers && f < |Join(s.group, key).0.flights|
    ensures
      var t := Apply(s, Arrive(c, key)).value;
      t.group.flights[f].waiters == |CallersInside(t.callers, f)|
  {
    var t := Apply(s, Arrive(c, key)).value;
    if Inside(t.callers[c], f) {
      assert CallersInside(t.callers, f) == CallersInside(s.callers, f) + {c};
    } else {
      assert CallersInside(t.callers, f) == CallersInside(s.callers, f);
    }
    if f == |s.group.flights| {
      assert CallersInside(s.callers, f) == {} by {
        forall x | x in s.callers && Inside(s.callers[x], f) ensures false { }
      }
    }
  }

  lemma ReceiveKeeps(s: System, c: CallerId)
    requires Inv(s) && Apply(s, Receive(c)).Some?
    ensures Inv(Apply(s, Receive(c)).value)
  {
    var t := Apply(s, Receive(c)).value;
    InsideUnchanged(s.callers, c, t.callers[c]);
    InsideBounds(s, s.callers[c].flight);
  }

  lemma ExpireKeeps(s: System, c: CallerId)
    requires Inv(s) && Apply(s, Expire(c)).Some?
    ensures Inv(Apply(s, Expire(c)).value)
  {
    var t := Apply(s, Expire(c)).value;
    InsideUnchanged(s.callers, c, t.callers[c]);
  }

  lemma DepartKeeps(s: System, c: CallerId)
    requires Inv(s) && Apply(s, Depart(c)).Some?
    ensures Inv(Apply(s, Depart(c)).value)
  {
    var t := Apply(s, Depart(c)).value;
    var id := s.callers[c].flight;
    InsideBounds(s, id);
    LeaveKeeps(s.group, id);
    forall f | 0 <= f < |s.group.flights|
      ensures t.group.flights[f].waiters == |CallersInside(t.callers, f)|
    {
      DepartCounts(s.callers, c, f);
    }
  }

  lemma DepartCounts(callers: map<CallerId, Caller>, c: CallerId, f: FlightId)
    requires c in callers && (callers[c].Served? || callers[c].GaveUp?)
    ensures
      var rest := callers[c := Left(callers[c].flight)];
      |CallersInside(rest, f)| == |CallersInside(callers, f)| - if callers[c].flight == f then 1 else 0
  {
    var rest := callers[c := Left(callers[c].flight)];
    if callers[c].flight == f {
      assert CallersInside(callers, f) == CallersInside(rest, f) + {c};
    } else {
      assert CallersInside(rest, f) == CallersInside(callers, f);
    }
  }

  lemma RunKeeps(s: System, f: FlightId, fetched: Outcome)
    requires Inv(s) && Apply(s, Run(f, fetched)).Some?
    ensures Inv(Apply(s, Run(f, fetched)).value)
  {
    InsideBounds(s, f);
    RunStepKeeps(s.group, f, fetched);
    RunStepWaiters(s.group, f, fetched);
  }

  lemma RunStepWaiters(g: Group, f: FlightId, fetched: Outcome)
    requires f < |g.flights| && RunStep(g, f, fetched).Some?
    ensures
      var h := RunStep(g, f, fetched).value;
      |h.flights| == |g.flights| && forall x :: 0 <= x < |g.flights| ==> h.flights[x].waiters == g.flights[x].waiters
  {
  }

  lemma StepKeeps(s: System, l: Label)
    requires Inv(s) && Apply(s, l).Some?
    ensures Inv(Apply(s, l).value)
  {
    match l
    case Arrive(c, key) => ArriveKeeps(s, c, key);
    case Receive(c) => ReceiveKeeps(s, c);
    case Expire(c) => ExpireKeeps(s, c);
    case Depart(c) => DepartKeeps(s, c);
    case Run(f, fetched) => RunKeeps(s, f, fetched);
  }

  lemma {:induction false} ExecuteKeeps(s: System, labels: seq<Label>)
    requires Inv(s) && Execute(s, labels).Some?
    ensures Inv(Execute(s, labels).value)
    decreases |labels|
  {
    if labels != [] {
      StepKeeps(s, labels[0]);
      ExecuteKeeps(Apply(s, labels[0]).value, labels[1..]);
    }
  }

  // ---------- main results, for every interleaving ----------

  ghost predicate Reachable(limit: Option<nat>, s: System) {
    exists labels :: Execute(Initial(limit), labels) == Some(s)
  }

  lemma ReachableInv(limit: Option<nat>, s: System)
    requires Reachable(limit, s)
    ensures Inv(s)
  {
    var labels :| Execute(Initial(limit), labels) == Some(s);
    ExecuteKeeps(Initial(limit), labels);
  }

  lemma {:induction false} LimitFixed(s: System, labels: seq<Label>)
    requires Execute(s, labels).Some?
    ensures Execute(s, labels).value.group.limit == s.group.limit
    decreases |labels|
  {
    if labels != [] {
      LimitFixed(Apply(s, labels[0]).value, labels[1..]);
    }
  }

  /** Used slots are the flights that have not freed theirs, and never exceed the capacity. */
  lemma SlotConservation(limit: Option<nat>, s: System)
    requires Reachable(limit, s)
    ensures limit.Some? ==> s.group.used == |SlotHolders(s.group.flights)| <= limit.value
    ensures |s.group.pending| <= |SlotHolders(s.group.flights)|
  {
    var labels :| Execute(Initial(limit), labels) == Some(s);
    LimitFixed(Initial(limit), labels);
    ReachableInv(limit, s);
    PendingFits(s.group.pending, s.group.flights);
  }

  function Fetches(flights: seq<Flight>): set<FlightId> {
    set f | 0 <= f < |flights| && flights[f].stage == Fetching
  }

  lemma SubsetSize(small: set<FlightId>, large: set<FlightId>)
    requires small <= large
    ensures |small| <= |large|
  {
    assert large == small + (large - small);
  }

  /** The issuer never sees more concurrent introspection requests than there are slots, abandoned ones included. */
  lemma FetchesWithinLimit(limit: Option<nat>, s: System)
    requires Reachable(limit, s) && limit.Some?
    ensures |Fetches(s.group.flights)| <= limit.value
  {
    SlotConservation(limit, s);
    SubsetSize(Fetches(s.group.flights), SlotHolders(s.group.flights));
  }

  lemma {:induction false} PendingFits(pending: map<Key, FlightId>, flights: seq<Flight>)
    requires forall k :: k in pending ==> pending[k] < |flights| && flights[pending[k]].key == k && HoldsSlot(flights[pending[k]])
    ensures |pending| <= |SlotHolders(flights)|
  {
    if pending != map[] {
      var k :| k in pending;
      var f := pending[k];
      var rest := flights[f := flights[f].(stage := Done)];
      assert SlotHolders(flights) == SlotHolders(rest) + {f};
      assert (pending - {k}).Keys == pending.Keys - {k};
      PendingFits(pending - {k}, rest);
    } else {
      assert |pending| == 0;
    }
  }

  /** The receive from the slot channel and every other deferred step is enabled: `run` never blocks once the fetch returned. */
  lemma DeferredStepsEnabled(limit: Option<nat>, s: System, f: FlightId)
    requires Reachable(limit, s) && f < |s.group.flights|
    requires s.group.flights[f].stage != Fetching && s.group.flights[f].stage != Done
    ensures RunStep(s.group, f, Unset).Some?
  {
    ReachableInv(limit, s);
    if s.group.flights[f].stage == Canceled && s.group.limit.Some? {
      assert f in SlotHolders(s.group.flights);
    }
  }

  /** At every moment at most one flight of a token is running and not abandoned. */
  lemma OneLiveFlightPerToken(limit: Option<nat>, s: System, a: FlightId, b: FlightId)
    requires Reachable(limit, s) && a < |s.group.flights| && b < |s.group.flights|
    requires Live(s.group.flights[a]) && Live(s.group.flights[b])
    requires s.group.flights[a].key == s.group.flights[b].key
    ensures a == b
  {
    ReachableInv(limit, s);
  }

  /** A pending flight is unfinished and has a waiter. */
  lemma PendingIsWaitedFor(limit: Option<nat>, s: System, k: Key)
    requires Reachable(limit, s) && k in s.group.pending
    ensures
      var f := s.group.pending[k];
      f < |s.group.flights| && Unfinished(s.group.flights[f]) && |CallersInside(s.callers, f)| >= 1
  {
    ReachableInv(limit, s);
  }

  /** No flight is canceled before its fetch returns while a caller is still inside. */
  lemma NoCancelWhileWaited(limit: Option<nat>, s: System, c: CallerId)
    requires Reachable(limit, s)
    requires c in s.callers && s.callers[c].Waiting?
    ensures s.callers[c].flight < |s.group.flights|
    ensures s.group.flights[s.callers[c].flight].stage == Fetching ==> !s.group.flights[s.callers[c].flight].canceled
    ensures s.group.flights[s.callers[c].flight].outcome != Abandoned
  {
    ReachableInv(limit, s);
    InsideBounds(s, s.callers[c].flight);
  }

  /** No caller ever receives the "abandoned by all callers" result. */
  lemma NobodyReceivesAbandoned(limit: Option<nat>, s: System, c: CallerId)
    requires Reachable(limit, s) && c in s.callers && s.callers[c].Served?
    ensures s.callers[c].outcome != Abandoned
  {
    ReachableInv(limit, s);
  }

  /** A late, abandoned flight never removes the fresh flight started under its key. */
  lemma LateForgetIsHarmless(limit: Option<nat>, s: System, f: FlightId)
    requires Reachable(limit, s) && f < |s.group.flights|
    requires s.group.flights[f].stage == Returned && s.group.flights[f].canceled
    ensures RunStep(s.group, f, Unset).value.pending == s.group.pending
  {
    ReachableInv(limit, s);
  }

  /** Once all flights have ended, no slot is held and nothing is pending. */
  lemma Quiescence(limit: Option<nat>, s: System)
    requires Reachable(limit, s)
    requires forall f :: 0 <= f < |s.group.flights| ==> s.group.flights[f].stage == Done
    ensures s.group.used == 0 && s.group.pending == map[]
  {
    ReachableInv(limit, s);
    assert SlotHolders(s.group.flights) == {};
    assert forall k :: k !in s.group.pending;
  }

  // ---------- sharing ----------

  /** The running flight of a token that nobody abandoned. */
  predicate LiveFlightOf(g: Group, key: Key, f: FlightId) {
    f < |g.flights| && g.flights[f].key == key && Live(g.flights[f])
  }

  ghost predicate SomeLiveFlight(g: Group, key: Key) {
    exists f: FlightId :: LiveFlightOf(g, key, f)
  }

  predicate AllSlotsHeld(limit: Option<nat>, g: Group) {
    limit.Some? && |SlotHolders(g.flights)| == limit.value
  }

  /**
   * Where an arriving caller ends up. It shares the token's running flight that nobody abandoned, if there is one,
   * and starts nothing. Otherwise it is refused exactly if every slot is held, and nothing changes; and if not,
   * it waits, alone, on a fresh flight of its token.
   */
  ghost predicate Arrived(limit: Option<nat>, s: System, c: CallerId, key: Key, t: System) {
    && c in t.callers && t.callers == s.callers[c := t.callers[c]]
    && (forall f: FlightId :: LiveFlightOf(s.group, key, f) ==>
          t.callers[c] == Waiting(f) && t.group.flights == s.group.flights[f := s.group.flights[f].(waiters := s.group.flights[f].waiters + 1)])
    && (!SomeLiveFlight(s.group, key) ==>
          if AllSlotsHeld(limit, s.group) then t.callers[c] == Refused && t.group == s.group
          else t.callers[c] == Waiting(|s.group.flights|)
               && t.group.flights == s.group.flights + [Flight(key, Fetching, false, 1, Unset)])
  }

  /** The pending table finds exactly the running flights that nobody abandoned. */
  lemma PendingIffLive(g: Group, key: Key)
    requires PendingExact(g)
    ensures key in g.pending <==> SomeLiveFlight(g, key)
    ensures forall f: FlightId :: LiveFlightOf(g, key, f) ==> key in g.pending && g.pending[key] == f
  {
    forall f: FlightId | LiveFlightOf(g, key, f) ensures key in g.pending && g.pending[key] == f {
      assert IsPending(g, f);
    }
    if key in g.pending {
      assert PointsToLive(g, key);
      assert LiveFlightOf(g, key, g.pending[key]);
    }
  }

  lemma FullIffAllHeld(limit: Option<nat>, s: System)
    requires Reachable(limit, s)
    ensures Full(s.group) == AllSlotsHeld(limit, s.group)
  {
    SlotConservation(limit, s);
    var labels :| Execute(Initial(limit), labels) == Some(s);
    LimitFixed(Initial(limit), labels);
  }

  /** Joining, over every reachable state: a caller shares the live flight of its token, is refused exactly if there is none and every slot is held, and otherwise starts a fresh one. */
  lemma ArrivalExact(limit: Option<nat>, s: System, c: CallerId, key: Key)
    requires Reachable(limit, s) && c !in s.callers
    ensures Sound(s.group) && Apply(s, Arrive(c, key)).Some?
    ensures Arrived(limit, s, c, key, Apply(s, Arrive(c, key)).value)
  {
    ReachableInv(limit, s);
    PendingIffLive(s.group, key);
    FullIffAllHeld(limit, s);
  }

  /** What the first step of a flight's goroutine brought: the outcome of its fetch. */
  function FetchedBy(labels: seq<Label>, f: FlightId): Option<Outcome> {
    if labels == [] then None
    else if labels[0].Run? && labels[0].flight == f then Some(labels[0].fetched)
    else FetchedBy(labels[1..], f)
  }

  predicate HasReturned(g: Group, f: FlightId) {
    f < |g.flights| && g.flights[f].stage != Fetching
  }

  /** A flight that has returned keeps the outcome of its fetch. */
  lemma FetchStep(s: System, l: Label, f: FlightId)
    requires Sound(s.group) && Apply(s, l).Some?
    ensures
      var t := Apply(s, l).value;
      if HasReturned(s.group, f) then HasReturned(t.group, f) && t.group.flights[f].outcome == s.group.flights[f].outcome
      else if l.Run? && l.flight == f then HasReturned(t.group, f) && t.group.flights[f].outcome == l.fetched
      else !HasReturned(t.group, f)
  {
  }

  lemma {:induction false} OutcomeIsFetched(s: System, labels: seq<Label>, f: FlightId)
    requires Execute(s, labels).Some?
    ensures
      var t := Execute(s, labels).value;
      if HasReturned(s.group, f) then HasReturned(t.group, f) && t.group.flights[f].outcome == s.group.flights[f].outcome
      else if FetchedBy(labels, f).Some? then HasReturned(t.group, f) && t.group.flights[f].outcome == FetchedBy(labels, f).value
      else !HasReturned(t.group, f)
    decreases |labels|
  {
    if labels != [] {
      FetchStep(s, labels[0], f);
      OutcomeIsFetched(Apply(s, labels[0]).value, labels[1..], f);
    }
  }

  predicate ServedByFlight(s: System, c: CallerId) {
    c in s.callers && s.callers[c].Served? ==>
      var f := s.callers[c].flight;
      HasReturned(s.group, f) && s.group.flights[f].outcome == s.callers[c].outcome
  }

  lemma ServedStep(s: System, l: Label, c: CallerId)
    requires Sound(s.group) && Apply(s, l).Some? && ServedByFlight(s, c)
    ensures ServedByFlight(Apply(s, l).value, c)
  {
    if c in s.callers && s.callers[c].Served? {
      FetchStep(s, l, s.callers[c].flight);
    }
  }

  lemma {:induction false} ServedStays(s: System, labels: seq<Label>, c: CallerId)
    requires Execute(s, labels).Some? && ServedByFlight(s, c)
    ensures ServedByFlight(Execute(s, labels).value, c)
    decreases |labels|
  {
    if labels != [] {
      ServedStep(s, labels[0], c);
      ServedStays(Apply(s, labels[0]).value, labels[1..], c);
    }
  }

  /** A served caller holds exactly the outcome the fetch of its flight brought. */
  lemma ServedOutcomeIsFetched(limit: Option<nat>, labels: seq<Label>, s: System, c: CallerId)
    requires Execute(Initial(limit), labels) == Some(s) && c in s.callers && s.callers[c].Served?
    ensures FetchedBy(labels, s.callers[c].flight) == Some(s.callers[c].outcome)
  {
    ServedStays(Initial(limit), labels, c);
    OutcomeIsFetched(Initial(limit), labels, s.callers[c].flight);
  }

  /** The remaining steps of a flight whose fetch, if it is still under way, brings this answer. */
  function FinishLabels(stage: Stage, f: FlightId, fetched: Outcome): seq<Label>
    decreases 5 - Rank(stage)
  {
    match stage
    case Fetching => [Run(f, fetched)] + FinishLabels(Returned, f, fetched)
    case Returned => [Run(f, Unset)] + FinishLabels(Forgotten, f, fetched)
    case Forgotten => [Run(f, Unset)] + FinishLabels(Canceled, f, fetched)
    case Canceled => [Run(f, Unset)] + FinishLabels(Freed, f, fetched)
    case Freed => [Run(f, Unset)]
    case Done => []
  }

  lemma ConsRun(s: System, l: Label, rest: seq<Label>)
    requires Sound(s.group) && Apply(s, l).Some?
    ensures Execute(s, [l] + rest) == Execute(Apply(s, l).value, rest)
  {
    var run := [l] + rest;
    assert run[0] == l && run[1..] == rest;
  }

  /** One step of a flight's goroutine brings it to its next stage and changes no caller. */
  lemma NextStage(s: System, f: FlightId, fetched: Outcome)
    requires Inv(s) && f < |s.group.flights| && s.group.flights[f].stage != Done
    requires fetched.Answer? <==> s.group.flights[f].stage == Fetching
    requires !fetched.Abandoned?
    ensures
      var r := Apply(s, Run(f, fetched));
      && r.Some? && r.value.callers == s.callers && f < |r.value.group.flights|
      && Rank(r.value.group.flights[f].stage) == Rank(s.group.flights[f].stage) + 1
      && r.value.group.flights[f].outcome == (if fetched.Answer? then fetched else s.group.flights[f].outcome)
  {
    if s.group.flights[f].stage == Canceled && s.group.limit.Some? {
      assert f in SlotHolders(s.group.flights);
    }
  }

  /** From every reachable state the flight a caller waits on can run to its end, whatever it fetches, and then serves the caller. */
  lemma {:induction false} WaiterCanBeServed(s: System, c: CallerId, answer: int)
    requires Inv(s) && c in s.callers && s.callers[c].Waiting?
    ensures
      var f := s.callers[c].flight;
      f < |s.group.flights| &&
      var t := Execute(s, FinishLabels(s.group.flights[f].stage, f, Answer(answer)) + [Receive(c)]);
      && t.Some? && c in t.value.callers
      && t.value.callers[c] == Served(f, if s.group.flights[f].stage == Fetching then Answer(answer) else s.group.flights[f].outcome)
    decreases 5 - Rank(s.group.flights[s.callers[c].flight].stage)
  {
    var f := s.callers[c].flight;
    var flight := s.group.flights[f];
    var run := FinishLabels(flight.stage, f, Answer(answer)) + [Receive(c)];
    if flight.stage == Done {
      assert run[0] == Receive(c) && run[1..] == [];
    } else {
      var fetched := if flight.stage == Fetching then Answer(answer) else Unset;
      NextStage(s, f, fetched);
      var next := Apply(s, Run(f, fetched)).value;
      RunKeeps(s, f, fetched);
      WaiterCanBeServed(next, c, answer);
      var rest := FinishLabels(next.group.flights[f].stage, f, Answer(answer)) + [Receive(c)];
      assert run == [Run(f, fetched)] + rest;
      ConsRun(s, Run(f, fetched), rest);
    }
  }
}
