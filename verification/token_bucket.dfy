/**
 * The token bucket (internal/ratelimit/token_bucket.go). Instants are nanoseconds of a monotonic clock;
 * the credit of an instant is what a steady refill would have produced up to it.
 */
module TokenBuckets {

  /** A bucket whose last refill is given by its credit. */
  datatype Bucket = Bucket(burst: real, last: real, tokens: real)

  function Seconds(duration: int): real {
    duration as real / 1_000_000_000.0
  }

  function Credit(rate: real, instant: int): real {
    Seconds(instant) * rate
  }

  lemma CreditDifference(rate: real, from: int, to: int)
    ensures Seconds(to - from) * rate == Credit(rate, to) - Credit(rate, from)
    ensures rate > 0.0 && from <= to ==> Credit(rate, from) <= Credit(rate, to)
  {
    assert Seconds(to - from) == Seconds(to) - Seconds(from);
  }

  function Refilled(b: Bucket, now: real): real {
    var tokens := b.tokens + (now - b.last);
    if tokens > b.burst then b.burst else tokens
  }

  /** One call at `now` with a positive rate, and the bucket after it. */
  function Draw(b: Bucket, now: real): (bool, Bucket) {
    var tokens := Refilled(b, now);
    if tokens >= 1.0 then (true, Bucket(b.burst, now, tokens - 1.0)) else (false, Bucket(b.burst, now, tokens))
  }

  function Full(burst: real, now: real): Bucket {
    Bucket(burst, now, burst)
  }

  class TokenBucket {
    const rate: real
    const burst: real
    var last: int
    var tokens: real

    function View(): Bucket
      reads this
    {
      Bucket(burst, Credit(rate, last), tokens)
    }

    constructor (rate: real, burst: int, now: int)
      ensures this.rate == rate && View() == Full(burst as real, Credit(rate, now))
    {
      this.rate := rate;
      this.burst := burst as real;
      last := now;
      tokens := burst as real;
    }

    method Allow(now: int) returns (allowed: bool)
      modifies this
      ensures rate <= 0.0 ==> allowed && View() == old(View())
      ensures rate > 0.0 ==> (allowed, View()) == Draw(old(View()), Credit(rate, now))
    {
      if rate <= 0.0 {
        return true;
      }
      CreditDifference(rate, last, now);
      ghost var refill := Credit(rate, now) - Credit(rate, last);
      var elapsed := Seconds(now - last);
      assert elapsed * rate == refill;
      last := now;
      tokens := tokens + elapsed * rate;
      assert tokens == old(tokens) + refill;
      if tokens > burst {
        tokens := burst;
      }
      if tokens >= 1.0 {
        tokens := tokens - 1.0;
        return true;
      }
      return false;
    }
  }

  // ---------- whole runs ----------

  /** The bucket after calls at these credits. */
  function After(b: Bucket, calls: seq<real>): Bucket {
    if calls == [] then b else Draw(After(b, calls[..|calls| - 1]), calls[|calls| - 1]).1
  }

  /** The verdict of the last call. */
  predicate LastAllowed(b: Bucket, calls: seq<real>)
    requires calls != []
  {
    Draw(After(b, calls[..|calls| - 1]), calls[|calls| - 1]).0
  }

  /** How many calls were granted from call `i` on. */
  function Granted(b: Bucket, calls: seq<real>, i: nat): nat {
    if |calls| <= i then 0 else Granted(b, calls[..|calls| - 1], i) + if LastAllowed(b, calls) then 1 else 0
  }

  /** A clock that does not run backwards. */
  predicate Monotonic(start: real, calls: seq<real>) {
    && (forall i :: 0 <= i < |calls| ==> start <= calls[i])
    && (forall i, j :: 0 <= i < j < |calls| ==> calls[i] <= calls[j])
  }

  /** What the window from call `i` to `now` may still grant: burst and refill, less what it granted. */
  function Room(b: Bucket, calls: seq<real>, i: nat, now: real): real
    requires i < |calls|
  {
    b.burst + (now - calls[i]) - Granted(b, calls, i) as real
  }

  lemma {:induction false} AfterKeeps(b: Bucket, calls: seq<real>)
    ensures After(b, calls).burst == b.burst
    ensures After(b, calls).last == if calls == [] then b.last else calls[|calls| - 1]
  {
    if calls != [] {
      AfterKeeps(b, calls[..|calls| - 1]);
    }
  }

  lemma MonotonicPrefix(start: real, calls: seq<real>)
    requires Monotonic(start, calls) && calls != []
    ensures Monotonic(start, calls[..|calls| - 1])
  {
  }

  /** In every reachable state the bucket holds between zero and burst tokens. */
  lemma {:induction false} TokensWithinBurst(burst: real, start: real, calls: seq<real>)
    requires burst >= 0.0 && Monotonic(start, calls)
    ensures 0.0 <= After(Full(burst, start), calls).tokens <= burst
  {
    if calls != [] {
      MonotonicPrefix(start, calls);
      TokensWithinBurst(burst, start, calls[..|calls| - 1]);
      AfterKeeps(Full(burst, start), calls[..|calls| - 1]);
    }
  }

  /** Window `i` is the tightest: the tokens are what it may still grant, and no window may grant less. */
  ghost predicate Tightest(b: Bucket, calls: seq<real>, i: nat)
    requires calls != []
  {
    var now, tokens := calls[|calls| - 1], After(b, calls).tokens;
    && i < |calls|
    && tokens == Room(b, calls, i, now)
    && forall j :: 0 <= j < |calls| ==> tokens <= Room(b, calls, j, now)
  }

  /** Every window gains and pays alike; a call adds a window of its own. */
  lemma RoomStep(b: Bucket, calls: seq<real>, j: nat, was: real)
    requires j < |calls|
    ensures
      var n := |calls| - 1;
      var spent := if LastAllowed(b, calls) then 1.0 else 0.0;
      Room(b, calls, j, calls[n]) == (if j == n then b.burst else Room(b, calls[..n], j, was) + (calls[n] - was)) - spent
  {
    if j == |calls| - 1 {
      assert Granted(b, calls[..j], j) == 0;
    }
  }

  lemma {:induction false} TokensAreTightestRoom(b: Bucket, calls: seq<real>) returns (i: nat)
    requires b.tokens == b.burst && calls != [] && Monotonic(b.last, calls)
    ensures Tightest(b, calls, i)
  {
    var n := |calls| - 1;
    var before, now := calls[..n], calls[n];
    AfterKeeps(b, before);
    var was, tokens := After(b, before).last, After(b, before).tokens;
    i := n;
    if n > 0 {
      MonotonicPrefix(b.last, calls);
      var k := TokensAreTightestRoom(b, before);
      if tokens + (now - was) <= b.burst {
        i := k;
      }
    }
    forall j | 0 <= j < |calls| ensures After(b, calls).tokens <= Room(b, calls, j, now) {
      RoomStep(b, calls, j, was);
      if j < n {
        assert tokens <= Room(b, before, j, was);
      }
    }
    RoomStep(b, calls, i, was);
  }

  /** In any window the grants are at most burst plus the refill of the window. */
  lemma WindowBound(b: Bucket, calls: seq<real>, i: nat)
    requires b.tokens == b.burst >= 0.0 && i < |calls| && Monotonic(b.last, calls)
    ensures Granted(b, calls, i) as real <= b.burst + (calls[|calls| - 1] - calls[i])
  {
    var k := TokensAreTightestRoom(b, calls);
    TokensWithinBurst(b.burst, b.last, calls);
    assert After(b, calls).tokens <= Room(b, calls, i, calls[|calls| - 1]);
  }

  /** Granting the last call keeps every window that ends with it within its bound. */
  ghost predicate Fits(b: Bucket, calls: seq<real>)
    requires calls != []
  {
    var n := |calls| - 1;
    b.burst >= 1.0 && forall i :: 0 <= i < n ==> 1.0 <= Room(b, calls[..n], i, calls[n])
  }

  /** A call is denied exactly where granting it would break the bound of some window. */
  lemma AllowedIffEveryWindowFits(b: Bucket, calls: seq<real>)
    requires b.tokens == b.burst && calls != [] && Monotonic(b.last, calls)
    ensures LastAllowed(b, calls) <==> Fits(b, calls)
  {
    var n := |calls| - 1;
    var before, now := calls[..n], calls[n];
    AfterKeeps(b, before);
    if n > 0 {
      MonotonicPrefix(b.last, calls);
      var k := TokensAreTightestRoom(b, before);
      var was := before[n - 1];
      forall j | 0 <= j < n ensures Room(b, before, j, now) == Room(b, before, j, was) + (now - was) {
      }
      if Fits(b, calls) {
        assert Room(b, before, k, now) >= 1.0;
      } else if b.burst >= 1.0 {
        var j :| 0 <= j < n && Room(b, before, j, now) < 1.0;
        assert After(b, before).tokens <= Room(b, before, j, was);
      }
    }
  }

  // ---------- in time ----------

  function Credits(rate: real, times: seq<int>): (r: seq<real>)
    ensures |r| == |times|
  {
    seq(|times|, i requires 0 <= i < |times| => Credit(rate, times[i]))
  }

  predicate Ordered(start: int, times: seq<int>) {
    && (forall i :: 0 <= i < |times| ==> start <= times[i])
    && (forall i, j :: 0 <= i < j < |times| ==> times[i] <= times[j])
  }

  lemma CreditsMonotonic(rate: real, start: int, times: seq<int>)
    requires rate > 0.0 && Ordered(start, times)
    ensures Monotonic(Credit(rate, start), Credits(rate, times))
  {
    forall i | 0 <= i < |times| ensures Credit(rate, start) <= Credits(rate, times)[i] {
      CreditDifference(rate, start, times[i]);
    }
    forall i, j | 0 <= i < j < |times| ensures Credits(rate, times)[i] <= Credits(rate, times)[j] {
      CreditDifference(rate, times[i], times[j]);
    }
  }
}

/** Which RPCs are mirrored (internal/grpcproxy/handler.go). */
module ShadowPolicy {
  import opened Common
  import opened TokenBuckets

  datatype ShadowMode = Inherit | Auto | Never | Always

  datatype SkipReason = NoTargets | Rule(reason: string) | RateLimited

  datatype PolicyDecision = PolicyDecision(doShadow: bool, forced: bool, skip: Option<SkipReason>)

  const SKIP_RULE := "grpc_rule"

  /** One RPC at the policy: when it arrives, the rule's verdict, the force metadata and the random draw below 100. */
  datatype Rpc = Rpc(now: int, targets: nat, mode: ShadowMode, reason: string, forced: bool, draw: int)

  predicate Sampled(percent: int, draw: int) {
    percent >= 100 || (percent > 0 && draw < percent)
  }

  predicate Wanted(percent: int, r: Rpc) {
    r.targets > 0 && r.mode != Never && (r.mode == Always || r.forced || Sampled(percent, r.draw))
  }

  /** Whether the RPC asks the limiter. */
  predicate Asks(percent: int, r: Rpc) {
    Wanted(percent, r) && !r.forced
  }

  /** The limiter's rate and its bucket. */
  datatype Limiter = Limiter(rate: real, bucket: Bucket)

  function AllowAt(l: Limiter, now: int): (bool, Limiter) {
    if l.rate <= 0.0 then (true, l)
    else
      var (allowed, bucket) := Draw(l.bucket, Credit(l.rate, now));
      (allowed, l.(bucket := bucket))
  }

  function Decide(percent: int, limiter: Option<Limiter>, r: Rpc): (PolicyDecision, Option<Limiter>) {
    if r.targets == 0 then (PolicyDecision(false, r.forced, Some(NoTargets)), limiter)
    else if r.mode == Never then (PolicyDecision(false, r.forced, Some(Rule(if r.reason == "" then SKIP_RULE else r.reason))), limiter)
    else if !Asks(percent, r) || limiter.None? then (PolicyDecision(Wanted(percent, r), r.forced, None), limiter)
    else
      var (allowed, after) := AllowAt(limiter.value, r.now);
      (if allowed then PolicyDecision(true, false, None) else PolicyDecision(false, false, Some(RateLimited)), Some(after))
  }

  function LimiterOf(bucket: TokenBucket): Limiter
    reads bucket
  {
    Limiter(bucket.rate, bucket.View())
  }

  method ShouldShadow(percent: int, limiter: TokenBucket?, r: Rpc) returns (d: PolicyDecision)
    modifies limiter
    ensures limiter == null ==> (d, None) == Decide(percent, None, r)
    ensures limiter != null ==> (d, Some(LimiterOf(limiter))) == Decide(percent, Some(old(LimiterOf(limiter))), r)
  {
    if r.targets == 0 {
      return PolicyDecision(false, r.forced, Some(NoTargets));
    }
    if r.mode == Never {
      var reason := r.reason;
      if reason == "" {
        reason := SKIP_RULE;
      }
      return PolicyDecision(false, r.forced, Some(Rule(reason)));
    }
    var doShadow := false;
    match r.mode {
      case Always =>
        doShadow := true;
      case _ =>
        doShadow := r.forced || Sampled(percent, r.draw);
    }
    if doShadow && !r.forced && limiter != null {
      var allowed := limiter.Allow(r.now);
      if !allowed {
        return PolicyDecision(false, r.forced, Some(RateLimited));
      }
    }
    d := PolicyDecision(doShadow, r.forced, None);
  }

  /** A token is spent exactly on an unforced positive decision; nothing else takes tokens out. */
  lemma TokenSpentIffUnforcedStart(percent: int, l: Limiter, r: Rpc)
    requires l.rate > 0.0 && l.bucket.tokens <= l.bucket.burst && l.bucket.last <= Credit(l.rate, r.now)
    ensures
      var (d, after) := Decide(percent, Some(l), r);
      var full := Refilled(l.bucket, Credit(l.rate, r.now));
      after.Some? && l.bucket.tokens <= full &&
      after.value.bucket.tokens ==
      if d.doShadow && !d.forced then full - 1.0 else if Asks(percent, r) then full else l.bucket.tokens
  {
  }

  /** What any number of RPCs leave of the limiter. */
  function LimiterAfter(percent: int, l: Limiter, rpcs: seq<Rpc>): Limiter {
    if rpcs == [] then l
    else
      var n := |rpcs| - 1;
      Decide(percent, Some(LimiterAfter(percent, l, rpcs[..n])), rpcs[n]).1.value
  }

  predicate LastStarts(percent: int, l: Limiter, rpcs: seq<Rpc>)
    requires rpcs != []
  {
    var n := |rpcs| - 1;
    var d := Decide(percent, Some(LimiterAfter(percent, l, rpcs[..n])), rpcs[n]).0;
    d.doShadow && !d.forced
  }

  /** Unforced shadow starts from RPC `i` on. */
  function UnforcedStarts(percent: int, l: Limiter, rpcs: seq<Rpc>, i: nat): nat {
    if |rpcs| <= i then 0
    else UnforcedStarts(percent, l, rpcs[..|rpcs| - 1], i) + if LastStarts(percent, l, rpcs) then 1 else 0
  }

  /** The instants at which the limiter is asked. */
  function Calls(percent: int, rpcs: seq<Rpc>): seq<int> {
    if rpcs == [] then []
    else
      var n := |rpcs| - 1;
      Calls(percent, rpcs[..n]) + if Asks(percent, rpcs[n]) then [rpcs[n].now] else []
  }

  predicate InOrder(start: int, rpcs: seq<Rpc>) {
    && (forall i :: 0 <= i < |rpcs| ==> start <= rpcs[i].now)
    && (forall i, j :: 0 <= i < j < |rpcs| ==> rpcs[i].now <= rpcs[j].now)
  }

  lemma {:induction false} CallsOrdered(percent: int, start: int, rpcs: seq<Rpc>)
    requires InOrder(start, rpcs)
    ensures Ordered(start, Calls(percent, rpcs))
    ensures forall c :: 0 <= c < |Calls(percent, rpcs)| ==> rpcs != [] && Calls(percent, rpcs)[c] <= rpcs[|rpcs| - 1].now
  {
    if rpcs != [] {
      CallsOrdered(percent, start, rpcs[..|rpcs| - 1]);
    }
  }

  /** Calls made from RPC `i` on are made no earlier than it. */
  lemma {:induction false} CallsFrom(percent: int, start: int, rpcs: seq<Rpc>, i: nat)
    requires InOrder(start, rpcs) && i < |rpcs|
    ensures |Calls(percent, rpcs[..i])| <= |Calls(percent, rpcs)|
    ensures forall c :: |Calls(percent, rpcs[..i])| <= c < |Calls(percent, rpcs)| ==> rpcs[i].now <= Calls(percent, rpcs)[c]
  {
    var n := |rpcs| - 1;
    if i < n {
      CallsFrom(percent, start, rpcs[..n], i);
      assert rpcs[..n][..i] == rpcs[..i];
    }
  }

  lemma CallsSnoc(percent: int, rpcs: seq<Rpc>, rate: real)
    requires rpcs != []
    ensures
      var n := |rpcs| - 1;
      var calls, before := Credits(rate, Calls(percent, rpcs)), Credits(rate, Calls(percent, rpcs[..n]));
      if Asks(percent, rpcs[n]) then calls != [] && calls[..|calls| - 1] == before && calls[|calls| - 1] == Credit(rate, rpcs[n].now)
      else calls == before
  {
  }

  lemma {:induction false} LimiterSeesCalls(percent: int, l: Limiter, rpcs: seq<Rpc>)
    requires l.rate > 0.0
    ensures LimiterAfter(percent, l, rpcs) == Limiter(l.rate, After(l.bucket, Credits(l.rate, Calls(percent, rpcs))))
  {
    if rpcs != [] {
      LimiterSeesCalls(percent, l, rpcs[..|rpcs| - 1]);
      CallsSnoc(percent, rpcs, l.rate);
    }
  }

  lemma LastStartIsGrant(percent: int, l: Limiter, rpcs: seq<Rpc>)
    requires l.rate > 0.0 && rpcs != []
    ensures
      var asks, calls := Asks(percent, rpcs[|rpcs| - 1]), Credits(l.rate, Calls(percent, rpcs));
      && (asks ==> calls != [])
      && (LastStarts(percent, l, rpcs) <==> asks && LastAllowed(l.bucket, calls))
  {
    LimiterSeesCalls(percent, l, rpcs[..|rpcs| - 1]);
    CallsSnoc(percent, rpcs, l.rate);
  }

  lemma GrantedNext(b: Bucket, calls: seq<real>, before: seq<real>, k: nat)
    requires calls != [] && before == calls[..|calls| - 1] && k <= |before|
    ensures Granted(b, calls, k) == Granted(b, before, k) + if LastAllowed(b, calls) then 1 else 0
  {
  }

  /** The limiter sees the asking RPCs only, and its grants are the unforced starts. */
  lemma {:induction false} StartsAreGrants(percent: int, l: Limiter, rpcs: seq<Rpc>, i: nat)
    requires l.rate > 0.0 && i <= |rpcs|
    ensures |Calls(percent, rpcs[..i])| <= |Calls(percent, rpcs)|
    ensures UnforcedStarts(percent, l, rpcs, i) == Granted(l.bucket, Credits(l.rate, Calls(percent, rpcs)), |Calls(percent, rpcs[..i])|)
  {
    if i == |rpcs| {
      assert rpcs[..i] == rpcs;
    } else {
      var n := |rpcs| - 1;
      var calls, before := Credits(l.rate, Calls(percent, rpcs)), Credits(l.rate, Calls(percent, rpcs[..n]));
      StartsAreGrants(percent, l, rpcs[..n], i);
      assert rpcs[..n][..i] == rpcs[..i];
      LastStartIsGrant(percent, l, rpcs);
      CallsSnoc(percent, rpcs, l.rate);
      if Asks(percent, rpcs[n]) {
        GrantedNext(l.bucket, calls, before, |Calls(percent, rpcs[..i])|);
      }
    }
  }

  lemma WiderWindow(granted: real, burst: real, from: real, first: real, last: real, to: real)
    requires granted <= burst + (last - first) && from <= first && last <= to
    ensures granted <= burst + (to - from)
  {
  }

  /** The grants from call `k` on, in a window that contains those calls. */
  lemma GrantsInWindow(rate: real, burst: real, start: int, calls: seq<int>, k: nat, from: int, to: int)
    requires rate > 0.0 && burst >= 0.0 && Ordered(start, calls) && from <= to
    requires forall c :: k <= c < |calls| ==> from <= calls[c] <= to
    ensures Granted(Full(burst, Credit(rate, start)), Credits(rate, calls), k) as real <= burst + Seconds(to - from) * rate
  {
    CreditDifference(rate, from, to);
    if k < |calls| {
      var credits := Credits(rate, calls);
      CreditsMonotonic(rate, start, calls);
      WindowBound(Full(burst, Credit(rate, start)), credits, k);
      CreditDifference(rate, from, calls[k]);
      CreditDifference(rate, calls[|calls| - 1], to);
      WiderWindow(Granted(Full(burst, Credit(rate, start)), credits, k) as real, burst, Credit(rate, from), credits[k], credits[|calls| - 1], Credit(rate, to));
    }
  }

  /** Calls made from RPC `i` on lie between it and the last RPC. */
  lemma CallsBetween(percent: int, start: int, rpcs: seq<Rpc>, i: nat)
    requires i < |rpcs| && InOrder(start, rpcs)
    ensures Ordered(start, Calls(percent, rpcs)) && rpcs[i].now <= rpcs[|rpcs| - 1].now
    ensures forall c :: |Calls(percent, rpcs[..i])| <= c < |Calls(percent, rpcs)| ==> rpcs[i].now <= Calls(percent, rpcs)[c] <= rpcs[|rpcs| - 1].now
  {
    CallsOrdered(percent, start, rpcs);
    CallsFrom(percent, start, rpcs, i);
  }

  /** Among the RPCs of any window of T seconds at most burst + rate * T unforced shadows start. */
  lemma UnforcedStartsBounded(percent: int, rate: real, burst: real, start: int, rpcs: seq<Rpc>, i: nat)
    requires rate > 0.0 && burst >= 0.0 && i < |rpcs| && InOrder(start, rpcs)
    ensures
      var starts := UnforcedStarts(percent, Limiter(rate, Full(burst, Credit(rate, start))), rpcs, i);
      starts as real <= burst + Seconds(rpcs[|rpcs| - 1].now - rpcs[i].now) * rate
  {
    var l := Limiter(rate, Full(burst, Credit(rate, start)));
    var calls, k := Calls(percent, rpcs), |Calls(percent, rpcs[..i])|;
    assert UnforcedStarts(percent, l, rpcs, i) == Granted(l.bucket, Credits(rate, calls), k) by {
      StartsAreGrants(percent, l, rpcs, i);
    }
    CallsBetween(percent, start, rpcs, i);
    GrantsInWindow(rate, burst, start, calls, k, rpcs[i].now, rpcs[|rpcs| - 1].now);
  }

  /** The draws below `n`. */
  function DrawsBelow(n: nat): (draws: set<int>)
    ensures |draws| == n && forall d :: d in draws <==> 0 <= d < n
  {
    if n == 0 then {} else DrawsBelow(n - 1) + {n - 1}
  }

  /** Of the hundred equally likely draws, exactly as many as the configured percentage start a shadow. */
  lemma SampledShare(percent: int)
    ensures |set d | d in DrawsBelow(100) && Sampled(percent, d)| == if percent <= 0 then 0 else if percent >= 100 then 100 else percent
  {
    var n := if percent <= 0 then 0 else if percent >= 100 then 100 else percent;
    assert (set d | d in DrawsBelow(100) && Sampled(percent, d)) == DrawsBelow(n);
  }

  /** The limiter has a token to give, or there is none to ask. */
  predicate Affordable(limiter: Option<Limiter>, now: int) {
    limiter.None? || limiter.value.rate <= 0.0 || Refilled(limiter.value.bucket, Credit(limiter.value.rate, now)) >= 1.0
  }

  /**
   * When a shadow starts: never without targets or against a `never` rule, whatever the force metadata says; always
   * when forced otherwise, at no cost; and else exactly if the rule always wants it or the draw is within the
   * percentage, and a token can be had. The reason for not starting names the first of these that failed.
   */
  lemma DecisionExact(percent: int, limiter: Option<Limiter>, r: Rpc)
    requires 0 <= r.draw < 100
    ensures
      var (d, after) := Decide(percent, limiter, r);
      var wanted := r.mode == Always || r.draw < percent;
      && (d.doShadow <==> r.targets > 0 && r.mode != Never && (r.forced || (wanted && Affordable(limiter, r.now))))
      && d.forced == r.forced
      && (r.targets == 0 || r.mode == Never || r.forced ==> after == limiter)
      && (d.skip == Some(NoTargets) <==> r.targets == 0)
      && (d.skip == Some(RateLimited) <==> r.targets > 0 && r.mode != Never && !r.forced && wanted && !Affordable(limiter, r.now))
      && (d.skip.Some? && d.skip.value.Rule? <==> r.targets > 0 && r.mode == Never)
      && (r.targets > 0 && r.mode == Never && r.reason != "" ==> d.skip == Some(Rule(r.reason)))
  {
  }
}
