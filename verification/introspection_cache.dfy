/**
 Positive introspection cache (internal/grpcproxy/caller_auth_cache.go) and the claim checks
 that guard it (internal/grpcproxy/caller_auth.go). Times are nanoseconds since the Unix epoch.
 */
module IntrospectionCaching {
  import opened Common

  type Key = nat

  const SECOND := 1_000_000_000
  const EVICTION_SAMPLE := 8

  type int64 = n: int | -TWO_63 <= n < TWO_63

  /** Seconds from the year 1, where Go's internal clock starts, to the Unix epoch. */
  const UNIX_OFFSET := 62_135_596_800

  /** What `encoding/json` finds in the raw `aud` member. */
  datatype Audience = Missing | Null | Single(name: string) | Many(names: seq<string>) | Malformed

  datatype Claims = Claims(active: bool, issuer: string, audience: Audience, scopes: seq<string>,
                           expires: int64, notBefore: int64)

  datatype MethodScopes = MethodScopes(fullMethod: string, scopes: seq<string>)

  datatype Config = Config(issuer: string, audience: string, requiredScopes: seq<string>, methodScopes: seq<MethodScopes>)

  datatype Verdict = Permitted | Inactive | BadClaims | MethodDenied | ScopeDenied

  // ---------- claim checks ----------

  function UnixSeconds(now: int): int {
    now / SECOND
  }

  /** `time.Unix(sec, 0)`: the internal second counter wraps around at 64 bits. */
  function UnixTime(sec: int64): int {
    var internal := sec + UNIX_OFFSET;
    ((if internal >= TWO_63 then internal - 2 * TWO_63 else internal) - UNIX_OFFSET) * SECOND
  }

  predicate HasAudience(claims: Claims, expected: string) {
    match claims.audience
    case Missing => false
    case Null => expected == ""
    case Single(name) => name == expected
    case Many(names) => expected in names
    case Malformed => false
  }

  function Validate(claims: Claims, cfg: Config, nowSeconds: int): Verdict {
    if !claims.active then Inactive
    else if claims.issuer != cfg.issuer || claims.expires <= nowSeconds || claims.notBefore > nowSeconds
            || !HasAudience(claims, cfg.audience)
    then BadClaims
    else Permitted
  }

  function RuleIndex(rules: seq<MethodScopes>, fullMethod: string): (i: nat)
    ensures i <= |rules|
    ensures i < |rules| ==> rules[i].fullMethod == fullMethod
    ensures forall j :: 0 <= j < i ==> rules[j].fullMethod != fullMethod
  {
    if rules == [] || rules[0].fullMethod == fullMethod then 0 else 1 + RuleIndex(rules[1..], fullMethod)
  }

  function Authorize(claims: Claims, cfg: Config, fullMethod: string, nowSeconds: int): Verdict {
    var verdict := Validate(claims, cfg, nowSeconds);
    if verdict != Permitted then verdict
    else
      var i := RuleIndex(cfg.methodScopes, fullMethod);
      if |cfg.methodScopes| > 0 && i == |cfg.methodScopes| then MethodDenied
      else
        var required := cfg.requiredScopes + if |cfg.methodScopes| > 0 then cfg.methodScopes[i].scopes else [];
        if forall scope :: scope in required ==> scope in claims.scopes then Permitted else ScopeDenied
  }

  // ---------- who is admitted ----------

  /** The `aud` member names the audience: as its one string, or among its strings; null names the empty audience only. */
  predicate NamesAudience(aud: Audience, expected: string) {
    || aud == Single(expected)
    || (aud == Null && expected == "")
    || (aud.Many? && exists i :: 0 <= i < |aud.names| && aud.names[i] == expected)
  }

  /** Active claims of the configured issuer for the configured audience, within their time. */
  predicate Genuine(claims: Claims, cfg: Config, nowSeconds: int) {
    && claims.active && claims.issuer == cfg.issuer
    && claims.notBefore <= nowSeconds < claims.expires
    && NamesAudience(claims.audience, cfg.audience)
  }

  predicate HoldsAll(claims: Claims, scopes: seq<string>) {
    forall i :: 0 <= i < |scopes| ==> exists j :: 0 <= j < |claims.scopes| && claims.scopes[j] == scopes[i]
  }

  /** Rule `i` is the first for this method. */
  predicate FirstRule(rules: seq<MethodScopes>, fullMethod: string, i: nat) {
    i < |rules| && rules[i].fullMethod == fullMethod && forall j :: 0 <= j < i ==> rules[j].fullMethod != fullMethod
  }

  /** The scopes everybody needs, and those of the first rule for the method, if there are rules. */
  ghost predicate ScopesHeld(claims: Claims, cfg: Config, fullMethod: string) {
    && HoldsAll(claims, cfg.requiredScopes)
    && forall i: nat :: FirstRule(cfg.methodScopes, fullMethod, i) ==> HoldsAll(claims, cfg.methodScopes[i].scopes)
  }

  ghost predicate MethodNamed(cfg: Config, fullMethod: string) {
    cfg.methodScopes == [] || exists i: nat :: FirstRule(cfg.methodScopes, fullMethod, i)
  }

  lemma ValidateExact(claims: Claims, cfg: Config, nowSeconds: int)
    ensures Validate(claims, cfg, nowSeconds) == if !claims.active then Inactive else if Genuine(claims, cfg, nowSeconds) then Permitted else BadClaims
  {
    if claims.audience.Many? && cfg.audience in claims.audience.names {
      var i :| 0 <= i < |claims.audience.names| && claims.audience.names[i] == cfg.audience;
    }
  }

  lemma HoldsAllIff(claims: Claims, scopes: seq<string>)
    ensures HoldsAll(claims, scopes) <==> forall scope :: scope in scopes ==> scope in claims.scopes
  {
    if HoldsAll(claims, scopes) {
      forall scope | scope in scopes ensures scope in claims.scopes {
        var i :| 0 <= i < |scopes| && scopes[i] == scope;
      }
    } else {
      var i :| 0 <= i < |scopes| && forall j :: 0 <= j < |claims.scopes| ==> claims.scopes[j] != scopes[i];
      assert scopes[i] in scopes;
    }
  }

  lemma RuleIsFirst(cfg: Config, fullMethod: string)
    ensures
      var i := RuleIndex(cfg.methodScopes, fullMethod);
      && (i < |cfg.methodScopes| <==> exists k: nat :: FirstRule(cfg.methodScopes, fullMethod, k))
      && forall k: nat :: FirstRule(cfg.methodScopes, fullMethod, k) ==> k == i
  {
    var i := RuleIndex(cfg.methodScopes, fullMethod);
    if i < |cfg.methodScopes| {
      assert FirstRule(cfg.methodScopes, fullMethod, i);
    }
  }

  /**
   * Who is admitted to a method. The caller is let in exactly if its claims are genuine, the method is named by a rule
   * where there are rules, and it holds every scope required of everybody and by the first rule for the method; and
   * every refusal has its exact condition.
   */
  lemma AuthorizeExact(claims: Claims, cfg: Config, fullMethod: string, nowSeconds: int)
    ensures
      var verdict, genuine := Authorize(claims, cfg, fullMethod, nowSeconds), Genuine(claims, cfg, nowSeconds);
      && (verdict == Permitted <==> genuine && MethodNamed(cfg, fullMethod) && ScopesHeld(claims, cfg, fullMethod))
      && (verdict == Inactive <==> !claims.active)
      && (verdict == BadClaims <==> claims.active && !genuine)
      && (verdict == MethodDenied <==> genuine && !MethodNamed(cfg, fullMethod))
      && (verdict == ScopeDenied <==> genuine && MethodNamed(cfg, fullMethod) && !ScopesHeld(claims, cfg, fullMethod))
  {
    ValidateExact(claims, cfg, nowSeconds);
    if Genuine(claims, cfg, nowSeconds) {
      RuleIsFirst(cfg, fullMethod);
      var i := RuleIndex(cfg.methodScopes, fullMethod);
      HoldsAllIff(claims, cfg.requiredScopes);
      if i < |cfg.methodScopes| {
        HoldsAllIff(claims, cfg.methodScopes[i].scopes);
      }
    }
  }

  // ---------- the cache as a value ----------

  datatype Entry = Entry(claims: Claims, expires: int)

  type Entries = map<Key, Entry>

  /** One effective `put`. */
  datatype Record = Record(key: Key, claims: Claims, at: int)

  function Min(a: int, b: int): int {
    if b < a then b else a
  }

  function Expiry(claims: Claims, now: int, ttl: int): int {
    Min(now + ttl, UnixTime(claims.expires))
  }

  predicate Live(entries: Entries, key: Key, now: int) {
    key in entries && now < entries[key].expires
  }

  /** Any order in which Go may enumerate a map with these keys. */
  ghost predicate Enumerates(order: seq<Key>, keys: set<Key>) {
    && (forall i, j :: 0 <= i < j < |order| ==> order[i] != order[j])
    && (forall k :: k in order <==> k in keys)
  }

  function Sample(order: seq<Key>): seq<Key> {
    order[..Min(EVICTION_SAMPLE, |order|)]
  }

  function StaleKeys(entries: Entries, sample: seq<Key>, now: int): set<Key> {
    set k | k in sample && k in entries && entries[k].expires <= now
  }

  ghost predicate EarliestLive(entries: Entries, sample: seq<Key>, now: int, victim: Key) {
    && victim in sample && Live(entries, victim, now)
    && (forall k :: k in sample && Live(entries, k, now) ==> entries[victim].expires <= entries[k].expires)
  }

  ghost predicate NoneLive(entries: Entries, sample: seq<Key>, now: int) {
    forall k :: k in sample ==> !Live(entries, k, now)
  }

  /** What one eviction may leave behind. */
  ghost predicate Evicted(before: Entries, after: Entries, sample: seq<Key>, now: int, maxEntries: int) {
    var kept := before - StaleKeys(before, sample, now);
    if |kept| < maxEntries || NoneLive(before, sample, now) then after == kept
    else exists victim :: EarliestLive(before, sample, now, victim) && after == kept - {victim}
  }

  lemma RemovedCount(entries: Entries, keys: set<Key>)
    requires keys <= entries.Keys
    ensures |entries - keys| == |entries| - |keys|
  {
    assert (entries - keys).Keys == entries.Keys - keys;
    assert |entries.Keys| == |entries.Keys - keys| + |keys|;
  }

  /** In a full cache: if a sampled entry was expired no live entry is lost; otherwise exactly one entry goes, the earliest-expiring sampled one. Either way there is room for one more. */
  lemma EvictionFromFull(before: Entries, after: Entries, order: seq<Key>, now: int, maxEntries: int)
    requires 0 < maxEntries == |before| && Enumerates(order, before.Keys)
    requires Evicted(before, after, Sample(order), now, maxEntries)
    ensures |after| < maxEntries
    ensures StaleKeys(before, Sample(order), now) != {} ==>
              forall k :: Live(before, k, now) ==> k in after && after[k] == before[k]
    ensures StaleKeys(before, Sample(order), now) == {} ==>
              exists victim :: EarliestLive(before, Sample(order), now, victim) && after == before - {victim}
  {
    var stale := StaleKeys(before, Sample(order), now);
    if stale == {} {
      FirstSampled(before, order);
      EvictionOfLive(before, after, Sample(order), now, maxEntries);
    } else {
      RemovedCount(before, stale);
      assert after == before - stale;
    }
  }

  lemma FirstSampled(entries: Entries, order: seq<Key>)
    requires Enumerates(order, entries.Keys) && 0 < |entries|
    ensures Sample(order) != [] && Sample(order)[0] in entries
  {
    var some :| some in entries.Keys;
    assert some in order;
    assert order[0] in order;
  }

  lemma EvictionOfLive(before: Entries, after: Entries, sample: seq<Key>, now: int, maxEntries: int)
    requires 0 < maxEntries == |before| && sample != [] && sample[0] in before
    requires Evicted(before, after, sample, now, maxEntries) && StaleKeys(before, sample, now) == {}
    ensures |after| < maxEntries
    ensures exists victim :: EarliestLive(before, sample, now, victim) && after == before - {victim}
  {
    assert sample[0] !in StaleKeys(before, sample, now);
    assert Live(before, sample[0], now);
    assert !NoneLive(before, sample, now);
    assert before - StaleKeys(before, sample, now) == before;
    var victim :| EarliestLive(before, sample, now, victim) && after == before - {victim};
    RemovedCount(before, {victim});
  }

  /** `PutOutcome(...)` holds of exactly the maps that one `put` may leave behind. */
  ghost predicate PutOutcome(before: Entries, after: Entries, key: Key, claims: Claims, now: int, ttl: int, maxEntries: int, order: seq<Key>) {
    var expires := Expiry(claims, now, ttl);
    if expires <= now then after == before
    else if key !in before && |before| >= maxEntries then
      exists rest :: Evicted(before, rest, Sample(order), now, maxEntries) && after == rest[key := Entry(claims, expires)]
    else after == before[key := Entry(claims, expires)]
  }

  function Logged(log: seq<Record>, key: Key, claims: Claims, now: int, ttl: int): seq<Record> {
    if Expiry(claims, now, ttl) <= now then log else log + [Record(key, claims, now)]
  }

  // ---------- refinement of the log of stores ----------

  ghost predicate LatestFor(log: seq<Record>, key: Key, i: nat) {
    i < |log| && log[i].key == key && forall j :: i < j < |log| ==> log[j].key != key
  }

  /** The entry holds the latest claims stored under its key. */
  ghost predicate Explains(log: seq<Record>, key: Key, entry: Entry, ttl: int) {
    exists i: nat :: LatestFor(log, key, i) && entry == Entry(log[i].claims, Expiry(log[i].claims, log[i].at, ttl))
  }

  ghost predicate Refines(entries: Entries, log: seq<Record>, ttl: int, maxEntries: int) {
    && |entries| <= maxEntries
    && (forall k :: k in entries ==> Explains(log, k, entries[k], ttl))
  }

  lemma EmptyRefines(ttl: int, maxEntries: nat)
    ensures Refines(map[], [], ttl, maxEntries)
  {
    var none: Entries := map[];
    assert |none| == 0;
  }

  lemma ShrinkRefines(entries: Entries, smaller: Entries, log: seq<Record>, ttl: int, maxEntries: int)
    requires Refines(entries, log, ttl, maxEntries)
    requires forall k :: k in smaller ==> k in entries && smaller[k] == entries[k]
    ensures Refines(smaller, log, ttl, maxEntries)
  {
    SubmapSize(entries, smaller);
    forall k | k in smaller ensures Explains(log, k, smaller[k], ttl) {
      assert Explains(log, k, entries[k], ttl);
    }
  }

  lemma SubmapSize(entries: Entries, smaller: Entries)
    requires smaller.Keys <= entries.Keys
    ensures |smaller| <= |entries|
  {
    assert |smaller.Keys| + |entries.Keys - smaller.Keys| == |entries.Keys|;
  }

  /** Every `put`, in any enumeration order, keeps the bound and the refinement. */
  lemma PutKeeps(before: Entries, after: Entries, log: seq<Record>, key: Key, claims: Claims, now: int,
                 ttl: int, maxEntries: int, order: seq<Key>)
    requires 0 < maxEntries && Refines(before, log, ttl, maxEntries) && Enumerates(order, before.Keys)
    requires PutOutcome(before, after, key, claims, now, ttl, maxEntries, order)
    ensures Refines(after, Logged(log, key, claims, now, ttl), ttl, maxEntries)
  {
    var expires := Expiry(claims, now, ttl);
    if expires <= now {
    } else if key !in before && |before| >= maxEntries {
      var rest :| Evicted(before, rest, Sample(order), now, maxEntries) && after == rest[key := Entry(claims, expires)];
      PutEvicting(before, rest, log, key, claims, now, ttl, maxEntries, order);
    } else {
      InsertKeeps(before, log, key, claims, now, ttl, maxEntries);
    }
  }

  lemma PutEvicting(before: Entries, rest: Entries, log: seq<Record>, key: Key, claims: Claims, now: int,
                    ttl: int, maxEntries: int, order: seq<Key>)
    requires 0 < maxEntries <= |before| && Refines(before, log, ttl, maxEntries) && Enumerates(order, before.Keys)
    requires Evicted(before, rest, Sample(order), now, maxEntries)
    ensures Refines(rest[key := Entry(claims, Expiry(claims, now, ttl))], log + [Record(key, claims, now)], ttl, maxEntries)
  {
    EvictKeeps(before, rest, log, now, ttl, maxEntries, order);
    InsertKeeps(rest, log, key, claims, now, ttl, maxEntries);
  }

  lemma EvictKeeps(before: Entries, rest: Entries, log: seq<Record>, now: int, ttl: int, maxEntries: int, order: seq<Key>)
    requires 0 < maxEntries <= |before| && Refines(before, log, ttl, maxEntries) && Enumerates(order, before.Keys)
    requires Evicted(before, rest, Sample(order), now, maxEntries)
    ensures Refines(rest, log, ttl, maxEntries) && |rest| < maxEntries
  {
    EvictionFromFull(before, rest, order, now, maxEntries);
    EvictedIsSubmap(before, rest, Sample(order), now, maxEntries);
    ShrinkRefines(before, rest, log, ttl, maxEntries);
  }

  lemma EvictedIsSubmap(before: Entries, after: Entries, sample: seq<Key>, now: int, maxEntries: int)
    requires Evicted(before, after, sample, now, maxEntries)
    ensures forall k :: k in after ==> k in before && after[k] == before[k]
  {
  }

  lemma InsertKeeps(rest: Entries, log: seq<Record>, key: Key, claims: Claims, now: int, ttl: int, maxEntries: int)
    requires Refines(rest, log, ttl, maxEntries) && (key in rest || |rest| < maxEntries)
    ensures Refines(rest[key := Entry(claims, Expiry(claims, now, ttl))], log + [Record(key, claims, now)], ttl, maxEntries)
  {
    var after := rest[key := Entry(claims, Expiry(claims, now, ttl))];
    InsertExplained(rest, log, key, claims, now, ttl, maxEntries);
    if key in rest {
      assert after.Keys == rest.Keys;
      assert |after| == |after.Keys| == |rest.Keys|;
    } else {
      assert after.Keys == rest.Keys + {key};
      assert |after| == |after.Keys| == |rest.Keys| + 1;
    }
  }

  lemma InsertExplained(rest: Entries, log: seq<Record>, key: Key, claims: Claims, now: int, ttl: int, maxEntries: int)
    requires Refines(rest, log, ttl, maxEntries)
    ensures
      var after := rest[key := Entry(claims, Expiry(claims, now, ttl))];
      forall k :: k in after ==> Explains(log + [Record(key, claims, now)], k, after[k], ttl)
  {
    var after := rest[key := Entry(claims, Expiry(claims, now, ttl))];
    var log' := log + [Record(key, claims, now)];
    forall k | k in after ensures Explains(log', k, after[k], ttl) {
      if k == key {
        assert LatestFor(log', key, |log|);
      } else {
        assert Explains(log, k, rest[k], ttl);
        var i: nat :| LatestFor(log, k, i) && rest[k] == Entry(log[i].claims, Expiry(log[i].claims, log[i].at, ttl));
        assert LatestFor(log', k, i);
      }
    }
  }

  // ---------- whole runs ----------

  datatype Operation =
    | Lookup(key: Key, now: int)
    | Store(key: Key, claims: Claims, now: int, order: seq<Key>)

  datatype State = State(entries: Entries, log: seq<Record>)

  function AfterLookup(entries: Entries, key: Key, now: int): Entries {
    if key in entries && entries[key].expires <= now then entries - {key} else entries
  }

  ghost predicate Step(s: State, op: Operation, t: State, ttl: int, maxEntries: int) {
    match op
    case Lookup(key, now) => t == State(AfterLookup(s.entries, key, now), s.log)
    case Store(key, claims, now, order) =>
      && Enumerates(order, s.entries.Keys)
      && PutOutcome(s.entries, t.entries, key, claims, now, ttl, maxEntries, order)
      && t.log == Logged(s.log, key, claims, now, ttl)
  }

  ghost predicate IsRun(states: seq<State>, ops: seq<Operation>, ttl: int, maxEntries: int) {
    && |states| == |ops| + 1
    && states[0] == State(map[], [])
    && (forall i :: 0 <= i < |ops| ==> Step(states[i], ops[i], states[i + 1], ttl, maxEntries))
  }

  /** Bound and refinement hold after every prefix of every run. */
  lemma {:induction false} RunRefinesLog(states: seq<State>, ops: seq<Operation>, ttl: int, maxEntries: int, n: nat)
    requires 0 < ttl && 0 < maxEntries && IsRun(states, ops, ttl, maxEntries) && n < |states|
    ensures Refines(states[n].entries, states[n].log, ttl, maxEntries)
  {
    if n == 0 {
      EmptyRefines(ttl, maxEntries);
    } else {
      RunRefinesLog(states, ops, ttl, maxEntries, n - 1);
      var s, t := states[n - 1], states[n];
      assert Step(s, ops[n - 1], t, ttl, maxEntries);
      match ops[n - 1]
      case Lookup(key, now) =>
        ShrinkRefines(s.entries, t.entries, s.log, ttl, maxEntries);
      case Store(key, claims, now, order) =>
        PutKeeps(s.entries, t.entries, s.log, key, claims, now, ttl, maxEntries, order);
    }
  }

  /** A hit returns the latest claims stored under the key, before both the time-to-live and the token's own expiry have passed. */
  lemma HitReturnsLatest(states: seq<State>, ops: seq<Operation>, ttl: int, maxEntries: int, n: nat, key: Key, now: int)
    requires 0 < ttl && 0 < maxEntries && IsRun(states, ops, ttl, maxEntries) && n < |states|
    requires Live(states[n].entries, key, now)
    ensures exists i: nat :: LatestFor(states[n].log, key, i)
              && states[n].entries[key].claims == states[n].log[i].claims
              && now < states[n].log[i].at + ttl
              && now < UnixTime(states[n].log[i].claims.expires)
  {
    RunRefinesLog(states, ops, ttl, maxEntries, n);
    assert Explains(states[n].log, key, states[n].entries[key], ttl);
  }

  lemma BeforeExpiry(sec: int64, now: int)
    requires now < UnixTime(sec)
    ensures UnixSeconds(now) < sec
  {
  }

  /** Cached decisions agree with fresh ones: claims that passed `validate` at `checked` and are returned by a hit at a later `now` pass `validate` at that very instant. */
  lemma HitPassesValidate(states: seq<State>, ops: seq<Operation>, ttl: int, maxEntries: int, n: nat, key: Key,
                          cfg: Config, checked: int, now: int)
    requires 0 < ttl && 0 < maxEntries && IsRun(states, ops, ttl, maxEntries) && n < |states|
    requires Live(states[n].entries, key, now)
    requires checked <= now
    requires Validate(states[n].entries[key].claims, cfg, UnixSeconds(checked)) == Permitted
    ensures Validate(states[n].entries[key].claims, cfg, UnixSeconds(now)) == Permitted
    ensures forall fullMethod :: Authorize(states[n].entries[key].claims, cfg, fullMethod, UnixSeconds(now))
                           == Authorize(states[n].entries[key].claims, cfg, fullMethod, UnixSeconds(checked))
  {
    HitReturnsLatest(states, ops, ttl, maxEntries, n, key, now);
    BeforeExpiry(states[n].entries[key].claims.expires, now);
    assert UnixSeconds(checked) <= UnixSeconds(now);
  }

  /** Every entry was put there by a store of its claims. */
  lemma {:induction false} EntryFromStore(states: seq<State>, ops: seq<Operation>, ttl: int, maxEntries: int, n: nat, key: Key)
    returns (i: nat)
    requires IsRun(states, ops, ttl, maxEntries) && n < |states| && key in states[n].entries
    ensures i < n && ops[i].Store? && ops[i].claims == states[n].entries[key].claims
  {
    var s, t := states[n - 1], states[n];
    assert Step(s, ops[n - 1], t, ttl, maxEntries);
    if ops[n - 1].Store? && ops[n - 1].key == key && ops[n - 1].now < Expiry(ops[n - 1].claims, ops[n - 1].now, ttl) {
      i := n - 1;
    } else {
      assert key in s.entries && s.entries[key] == t.entries[key];
      i := EntryFromStore(states, ops, ttl, maxEntries, n - 1, key);
    }
  }

  /** The claims passed `validate` at `checked`, before they were stored. */
  predicate VettedAt(op: Operation, cfg: Config, checked: int) {
    op.Store? ==> checked <= op.now && Validate(op.claims, cfg, UnixSeconds(checked)) == Permitted
  }

  ghost predicate Vetted(ops: seq<Operation>, cfg: Config) {
    forall i :: 0 <= i < |ops| ==> exists checked :: VettedAt(ops[i], cfg, checked)
  }

  /** In every run whose stores were validated first and whose clock does not run backwards, a hit is answered as a fresh reply would be. */
  lemma HitDecidesFresh(states: seq<State>, ops: seq<Operation>, ttl: int, maxEntries: int, n: nat, key: Key, cfg: Config, now: int)
    returns (checked: int)
    requires 0 < ttl && 0 < maxEntries && IsRun(states, ops, ttl, maxEntries) && n < |states| && Vetted(ops, cfg)
    requires Live(states[n].entries, key, now) && forall i :: 0 <= i < n ==> ops[i].now <= now
    ensures
      var claims := states[n].entries[key].claims;
      && checked <= now
      && Validate(claims, cfg, UnixSeconds(now)) == Permitted
      && forall fullMethod :: Authorize(claims, cfg, fullMethod, UnixSeconds(now)) == Authorize(claims, cfg, fullMethod, UnixSeconds(checked))
  {
    var i := EntryFromStore(states, ops, ttl, maxEntries, n, key);
    checked :| VettedAt(ops[i], cfg, checked);
    HitPassesValidate(states, ops, ttl, maxEntries, n, key, cfg, checked, now);
  }

  /** `time.Unix` is the plain instant for every expiry but the last 62 billion seconds of the range, which wrap to before the year 1. */
  lemma UnixTimeExact(sec: int64)
    ensures UnixTime(sec) == if sec < TWO_63 - UNIX_OFFSET then sec * SECOND else (sec - 2 * TWO_63) * SECOND
  {
  }

  /** The operation stores claims under this key. */
  predicate Stores(op: Operation, key: Key, ttl: int) {
    op.Store? && op.key == key && op.now < Expiry(op.claims, op.now, ttl)
  }

  /** The operation makes room for another key, at the cost of this one. */
  predicate EvictedBy(s: State, op: Operation, t: State, key: Key, maxEntries: int) {
    op.Store? && op.key != key && op.key !in s.entries && |s.entries| >= maxEntries && key !in t.entries
  }

  /** The operation comes before the entry's claims or its time-to-live expire. */
  predicate Within(op: Operation, stored: Operation, ttl: int)
    requires stored.Store?
  {
    op.now < stored.now + ttl && op.now < UnixTime(stored.claims.expires)
  }

  lemma EvictedKeepsValues(before: Entries, after: Entries, sample: seq<Key>, now: int, maxEntries: int, key: Key)
    requires Evicted(before, after, sample, now, maxEntries) && key in after
    ensures key in before && after[key] == before[key]
  {
  }

  /** An entry survives every operation that neither replaces nor evicts it, before it expires. */
  lemma EntrySurvives(s: State, op: Operation, t: State, ttl: int, maxEntries: int, key: Key)
    requires Step(s, op, t, ttl, maxEntries) && key in s.entries && op.now < s.entries[key].expires
    requires !Stores(op, key, ttl) && !EvictedBy(s, op, t, key, maxEntries)
    ensures key in t.entries && t.entries[key] == s.entries[key]
  {
    if op.Store? && op.now < Expiry(op.claims, op.now, ttl) && op.key !in s.entries && |s.entries| >= maxEntries {
      var rest :| Evicted(s.entries, rest, Sample(op.order), op.now, maxEntries) && t.entries == rest[op.key := Entry(op.claims, Expiry(op.claims, op.now, ttl))];
      EvictedKeepsValues(s.entries, rest, Sample(op.order), op.now, maxEntries, key);
    }
  }

  lemma StoreEnters(s: State, op: Operation, t: State, ttl: int, maxEntries: int)
    requires Step(s, op, t, ttl, maxEntries) && op.Store? && op.now < op.now + ttl && op.now < UnixTime(op.claims.expires)
    ensures op.key in t.entries && t.entries[op.key] == Entry(op.claims, Expiry(op.claims, op.now, ttl))
  {
  }

  /** From its store on, nothing in the run has replaced or evicted the entry, and everything came before its expiry. */
  predicate Undisturbed(states: seq<State>, ops: seq<Operation>, ttl: int, maxEntries: int, i: nat, n: nat)
    requires |states| == |ops| + 1 && i < n < |states| && ops[i].Store?
  {
    forall m :: i < m < n ==> Within(ops[m], ops[i], ttl) && !Stores(ops[m], ops[i].key, ttl)
                              && !EvictedBy(states[m], ops[m], states[m + 1], ops[i].key, maxEntries)
  }

  /** The stored entry survives one undisturbed operation before it expires. */
  lemma StoredSurvives(s: State, op: Operation, t: State, stored: Operation, ttl: int, maxEntries: int)
    requires Step(s, op, t, ttl, maxEntries) && stored.Store? && Within(op, stored, ttl)
    requires !Stores(op, stored.key, ttl) && !EvictedBy(s, op, t, stored.key, maxEntries)
    requires stored.key in s.entries && s.entries[stored.key] == Entry(stored.claims, Expiry(stored.claims, stored.now, ttl))
    ensures stored.key in t.entries && t.entries[stored.key] == s.entries[stored.key]
  {
    EntrySurvives(s, op, t, ttl, maxEntries, stored.key);
  }

  lemma UndisturbedBefore(states: seq<State>, ops: seq<Operation>, ttl: int, maxEntries: int, i: nat, n: nat)
    requires |states| == |ops| + 1 && i + 1 < n < |states| && ops[i].Store? && Undisturbed(states, ops, ttl, maxEntries, i, n)
    ensures Undisturbed(states, ops, ttl, maxEntries, i, n - 1)
    ensures Within(ops[n - 1], ops[i], ttl) && !Stores(ops[n - 1], ops[i].key, ttl)
    ensures !EvictedBy(states[n - 1], ops[n - 1], states[n], ops[i].key, maxEntries)
  {
    assert Within(ops[n - 1], ops[i], ttl);
  }

  lemma {:induction false} StoredStays(states: seq<State>, ops: seq<Operation>, ttl: int, maxEntries: int, i: nat, n: nat)
    requires 0 < ttl && IsRun(states, ops, ttl, maxEntries) && i < n < |states|
    requires ops[i].Store? && Within(ops[i], ops[i], ttl) && Undisturbed(states, ops, ttl, maxEntries, i, n)
    ensures ops[i].key in states[n].entries
    ensures states[n].entries[ops[i].key] == Entry(ops[i].claims, Expiry(ops[i].claims, ops[i].now, ttl))
    decreases n
  {
    var before, last, after, stored := states[n - 1], ops[n - 1], states[n], ops[i];
    assert Step(before, last, after, ttl, maxEntries);
    if n == i + 1 {
      StoreEnters(before, stored, after, ttl, maxEntries);
    } else {
      UndisturbedBefore(states, ops, ttl, maxEntries, i, n);
      StoredStays(states, ops, ttl, maxEntries, i, n - 1);
      StoredSurvives(before, last, after, stored, ttl, maxEntries);
    }
  }

  /**
   * Stored claims are found again: from the store on, as long as no later store replaces them and no eviction takes
   * them, every lookup before store time + ttl and before the claims' own expiry hits and returns them, and every
   * later one misses.
   */
  lemma StoredIsHit(states: seq<State>, ops: seq<Operation>, ttl: int, maxEntries: int, i: nat, n: nat, now: int)
    requires 0 < ttl && IsRun(states, ops, ttl, maxEntries) && i < n < |states|
    requires ops[i].Store? && Within(ops[i], ops[i], ttl) && Undisturbed(states, ops, ttl, maxEntries, i, n)
    ensures ops[i].key in states[n].entries && states[n].entries[ops[i].key].claims == ops[i].claims
    ensures Live(states[n].entries, ops[i].key, now) <==> now < ops[i].now + ttl && now < UnixTime(ops[i].claims.expires)
  {
    StoredStays(states, ops, ttl, maxEntries, i, n);
  }

  // ---------- many flights on one cache ----------

  /** No claims stand for any failed introspection. */
  datatype FlightResult = FlightResult(claims: Option<Claims>, cached: bool)

  /** How far one flight has come: its request is under way, its reply is about to be stored, or it has ended. */
  datatype Phase =
    | Asking(wanted: Key)
    | Storing(key: Key, claims: Claims, checked: int)
    | Ended(result: FlightResult, requested: bool)

  /** The cache is locked for one lookup or one store only; between them other flights use it. */
  datatype FlightStep =
    | Look(flight: nat, key: Key, now: int)
    | Reply(flight: nat, reply: Option<Claims>, now: int)
    | Save(flight: nat, now: int, order: seq<Key>)

  datatype Shared = Shared(entries: Entries, log: seq<Record>, clock: int, flights: map<nat, Phase>)

  function Passes(claims: Claims, cfg: Config, now: int): bool {
    Validate(claims, cfg, UnixSeconds(now)) == Permitted
  }

  /** One step of one flight, at a clock that does not run backwards. */
  ghost predicate FlightMoves(a: Shared, step: FlightStep, b: Shared, cfg: Config, ttl: int, maxEntries: int) {
    && a.clock <= step.now == b.clock
    && match step
       case Look(f, key, now) =>
         && f !in a.flights
         && b.entries == AfterLookup(a.entries, key, now) && b.log == a.log
         && b.flights == a.flights[f := if Live(a.entries, key, now) then Ended(FlightResult(Some(a.entries[key].claims), true), false) else Asking(key)]
       case Reply(f, reply, now) =>
         && f in a.flights && a.flights[f].Asking?
         && b.entries == a.entries && b.log == a.log
         && b.flights == a.flights[f := if reply.Some? && Passes(reply.value, cfg, now) then Storing(a.flights[f].wanted, reply.value, now)
                                        else Ended(FlightResult(reply, false), true)]
       case Save(f, now, order) =>
         && f in a.flights && a.flights[f].Storing? && Enumerates(order, a.entries.Keys)
         && PutOutcome(a.entries, b.entries, a.flights[f].key, a.flights[f].claims, now, ttl, maxEntries, order)
         && b.log == Logged(a.log, a.flights[f].key, a.flights[f].claims, now, ttl)
         && b.flights == a.flights[f := Ended(FlightResult(Some(a.flights[f].claims), false), true)]
  }

  ghost predicate IsFlightRun(states: seq<Shared>, steps: seq<FlightStep>, cfg: Config, ttl: int, maxEntries: int) {
    && |states| == |steps| + 1
    && states[0].entries == map[] && states[0].log == [] && states[0].flights == map[]
    && (forall i :: 0 <= i < |steps| ==> FlightMoves(states[i], steps[i], states[i + 1], cfg, ttl, maxEntries))
  }

  predicate PassedAt(r: Record, cfg: Config, checked: int) {
    checked <= r.at && Passes(r.claims, cfg, checked)
  }

  ghost predicate VettedRecord(r: Record, clock: int, cfg: Config) {
    r.at <= clock && exists checked :: PassedAt(r, cfg, checked)
  }

  ghost predicate RecordsVetted(s: Shared, cfg: Config) {
    forall i :: 0 <= i < |s.log| ==> VettedRecord(s.log[i], s.clock, cfg)
  }

  predicate StoresVetted(s: Shared, cfg: Config) {
    forall f :: f in s.flights && s.flights[f].Storing? ==> s.flights[f].checked <= s.clock && Passes(s.flights[f].claims, cfg, s.flights[f].checked)
  }

  lemma SaveVetted(a: Shared, f: nat, b: Shared, cfg: Config, ttl: int)
    requires RecordsVetted(a, cfg) && StoresVetted(a, cfg) && f in a.flights && a.flights[f].Storing? && a.clock <= b.clock
    requires b.log == Logged(a.log, a.flights[f].key, a.flights[f].claims, b.clock, ttl)
    ensures RecordsVetted(b, cfg)
  {
    var r := Record(a.flights[f].key, a.flights[f].claims, b.clock);
    assert PassedAt(r, cfg, a.flights[f].checked);
    assert VettedRecord(r, b.clock, cfg);
    forall i | 0 <= i < |b.log| ensures VettedRecord(b.log[i], b.clock, cfg) {
      if i < |a.log| {
        assert b.log[i] == a.log[i];
        assert VettedRecord(a.log[i], a.clock, cfg);
      } else {
        assert b.log[i] == r;
      }
    }
  }

  lemma RecordsLater(a: Shared, b: Shared, cfg: Config)
    requires RecordsVetted(a, cfg) && b.log == a.log && a.clock <= b.clock
    ensures RecordsVetted(b, cfg)
  {
    forall i | 0 <= i < |b.log| ensures VettedRecord(b.log[i], b.clock, cfg) {
      assert VettedRecord(a.log[i], a.clock, cfg);
    }
  }

  lemma RecordsKept(a: Shared, step: FlightStep, b: Shared, cfg: Config, ttl: int, maxEntries: int)
    requires RecordsVetted(a, cfg) && StoresVetted(a, cfg) && FlightMoves(a, step, b, cfg, ttl, maxEntries)
    ensures RecordsVetted(b, cfg)
  {
    if step.Save? {
      SaveVetted(a, step.flight, b, cfg, ttl);
    } else {
      RecordsLater(a, b, cfg);
    }
  }

  lemma StoresKept(a: Shared, step: FlightStep, b: Shared, cfg: Config, ttl: int, maxEntries: int)
    requires StoresVetted(a, cfg) && FlightMoves(a, step, b, cfg, ttl, maxEntries)
    ensures StoresVetted(b, cfg)
  {
    forall f | f in b.flights && b.flights[f].Storing?
      ensures b.flights[f].checked <= b.clock && Passes(b.flights[f].claims, cfg, b.flights[f].checked)
    {
      if f != step.flight {
        assert f in a.flights && b.flights[f] == a.flights[f];
      }
    }
  }

  lemma RefinesKept(a: Shared, step: FlightStep, b: Shared, cfg: Config, ttl: int, maxEntries: int)
    requires 0 < maxEntries && Refines(a.entries, a.log, ttl, maxEntries) && FlightMoves(a, step, b, cfg, ttl, maxEntries)
    ensures Refines(b.entries, b.log, ttl, maxEntries)
  {
    if step.Look? {
      ShrinkRefines(a.entries, b.entries, a.log, ttl, maxEntries);
    } else if step.Save? {
      var phase := a.flights[step.flight];
      PutKeeps(a.entries, b.entries, a.log, phase.key, phase.claims, step.now, ttl, maxEntries, step.order);
    }
  }

  /** Whatever flights do in between, the bound and the refinement hold and only validated claims are stored. */
  lemma {:induction false} FlightsKeep(states: seq<Shared>, steps: seq<FlightStep>, cfg: Config, ttl: int, maxEntries: int, n: nat)
    requires 0 < ttl && 0 < maxEntries && IsFlightRun(states, steps, cfg, ttl, maxEntries) && n < |states|
    ensures Refines(states[n].entries, states[n].log, ttl, maxEntries)
    ensures RecordsVetted(states[n], cfg) && StoresVetted(states[n], cfg)
  {
    if n == 0 {
      EmptyRefines(ttl, maxEntries);
    } else {
      FlightsKeep(states, steps, cfg, ttl, maxEntries, n - 1);
      assert FlightMoves(states[n - 1], steps[n - 1], states[n], cfg, ttl, maxEntries);
      RefinesKept(states[n - 1], steps[n - 1], states[n], cfg, ttl, maxEntries);
      RecordsKept(states[n - 1], steps[n - 1], states[n], cfg, ttl, maxEntries);
      StoresKept(states[n - 1], steps[n - 1], states[n], cfg, ttl, maxEntries);
    }
  }

  lemma StillPasses(claims: Claims, cfg: Config, checked: int, now: int)
    requires Passes(claims, cfg, checked) && checked <= now < UnixTime(claims.expires)
    ensures Passes(claims, cfg, now)
  {
    BeforeExpiry(claims.expires, now);
    assert UnixSeconds(checked) <= UnixSeconds(now);
  }

  /**
   * Under every interleaving of flights: a flight that finds an entry ends with the latest claims any flight stored
   * under its key, and they pass `validate` at the very instant of its lookup.
   */
  lemma FlightHitDecidesFresh(states: seq<Shared>, steps: seq<FlightStep>, cfg: Config, ttl: int, maxEntries: int, n: nat)
    returns (i: nat)
    requires 0 < ttl && 0 < maxEntries && IsFlightRun(states, steps, cfg, ttl, maxEntries) && n < |steps|
    requires steps[n].Look? && states[n + 1].flights[steps[n].flight].Ended?
    ensures
      var phase := states[n + 1].flights[steps[n].flight];
      && LatestFor(states[n].log, steps[n].key, i)
      && phase == Ended(FlightResult(Some(states[n].log[i].claims), true), false)
      && Passes(states[n].log[i].claims, cfg, steps[n].now)
      && Genuine(states[n].log[i].claims, cfg, UnixSeconds(steps[n].now))
  {
    FlightsKeep(states, steps, cfg, ttl, maxEntries, n);
    var s, key, now := states[n], steps[n].key, steps[n].now;
    assert FlightMoves(s, steps[n], states[n + 1], cfg, ttl, maxEntries);
    assert Explains(s.log, key, s.entries[key], ttl);
    i :| LatestFor(s.log, key, i) && s.entries[key] == Entry(s.log[i].claims, Expiry(s.log[i].claims, s.log[i].at, ttl));
    assert VettedRecord(s.log[i], s.clock, cfg);
    var checked :| PassedAt(s.log[i], cfg, checked);
    StillPasses(s.log[i].claims, cfg, checked, now);
    ValidateExact(s.log[i].claims, cfg, UnixSeconds(now));
  }

  predicate Requested(phase: Phase) {
    phase.Asking? || phase.Storing? || phase.requested
  }

  /** A flight has asked the network only if it looked and no live entry was there. */
  lemma {:induction false} RequestsOnlyWithoutEntry(states: seq<Shared>, steps: seq<FlightStep>, cfg: Config, ttl: int, maxEntries: int, n: nat, f: nat)
    returns (i: nat)
    requires IsFlightRun(states, steps, cfg, ttl, maxEntries) && n < |states|
    requires f in states[n].flights && Requested(states[n].flights[f])
    ensures i < n && steps[i].Look? && steps[i].flight == f && !Live(states[i].entries, steps[i].key, steps[i].now)
  {
    var a := states[n - 1];
    assert FlightMoves(a, steps[n - 1], states[n], cfg, ttl, maxEntries);
    if steps[n - 1].Look? && steps[n - 1].flight == f {
      i := n - 1;
    } else {
      i := RequestsOnlyWithoutEntry(states, steps, cfg, ttl, maxEntries, n - 1, f);
    }
  }

  /** What a save leaves in the cache: the claims until the earlier of the time-to-live and their own expiry, if that is still to come. */
  predicate SavedAt(states: seq<Shared>, steps: seq<FlightStep>, ttl: int, key: Key, claims: Claims, k: nat)
    requires |states| == |steps| + 1 && k < |steps|
  {
    var a, b, now := states[k], states[k + 1], steps[k].now;
    if now < UnixTime(claims.expires) then
      && key in b.entries && b.entries[key] == Entry(claims, Min(now + ttl, UnixTime(claims.expires)))
      && b.log == a.log + [Record(key, claims, now)]
    else b.entries == a.entries && b.log == a.log
  }

  /**
   * What one flight has come to, by its own labels: look `i`, reply `j` and save `k`. With a live entry it ended on the
   * spot with the claims held there. Otherwise it asked; a reply of genuine claims is stored before the flight ends with
   * it, and any other reply ends the flight at once.
   */
  predicate FlightTold(states: seq<Shared>, steps: seq<FlightStep>, cfg: Config, ttl: int, n: nat, f: nat, i: nat, j: nat, k: nat)
    requires |states| == |steps| + 1 && n < |states| && f in states[n].flights
  {
    && i < n && steps[i].Look? && steps[i].flight == f
    && var phase, key := states[n].flights[f], steps[i].key;
       if Live(states[i].entries, key, steps[i].now) then
         phase == Ended(FlightResult(Some(states[i].entries[key].claims), true), false)
       else if phase.Asking? then phase.wanted == key
       else
         && i < j < n && steps[j].Reply? && steps[j].flight == f
         && var reply := steps[j].reply;
            if reply.Some? && Genuine(reply.value, cfg, UnixSeconds(steps[j].now)) then
              if phase.Storing? then phase == Storing(key, reply.value, steps[j].now)
              else
                && j < k < n && steps[k].Save? && steps[k].flight == f
                && SavedAt(states, steps, ttl, key, reply.value, k)
                && phase == Ended(FlightResult(reply, false), true)
            else phase == Ended(FlightResult(reply, false), true)
  }

  lemma SaveSaves(states: seq<Shared>, steps: seq<FlightStep>, cfg: Config, ttl: int, maxEntries: int, k: nat)
    requires 0 < ttl && IsFlightRun(states, steps, cfg, ttl, maxEntries) && k < |steps| && steps[k].Save?
    ensures steps[k].flight in states[k].flights && states[k].flights[steps[k].flight].Storing?
    ensures
      var phase := states[k].flights[steps[k].flight];
      SavedAt(states, steps, ttl, phase.key, phase.claims, k)
  {
    assert FlightMoves(states[k], steps[k], states[k + 1], cfg, ttl, maxEntries);
  }

  /** Every flight of every run does exactly what its labels say. */
  lemma {:induction false} FlightExact(states: seq<Shared>, steps: seq<FlightStep>, cfg: Config, ttl: int, maxEntries: int, n: nat, f: nat)
    returns (i: nat, j: nat, k: nat)
    requires 0 < ttl && IsFlightRun(states, steps, cfg, ttl, maxEntries) && n < |states| && f in states[n].flights
    ensures FlightTold(states, steps, cfg, ttl, n, f, i, j, k)
  {
    var a, step := states[n - 1], steps[n - 1];
    assert FlightMoves(a, step, states[n], cfg, ttl, maxEntries);
    if step.Look? && step.flight == f {
      i, j, k := n - 1, 0, 0;
    } else {
      assert f in a.flights;
      i, j, k := FlightExact(states, steps, cfg, ttl, maxEntries, n - 1, f);
      if step.flight == f {
        if step.Reply? {
          j := n - 1;
          if step.reply.Some? {
            ValidateExact(step.reply.value, cfg, UnixSeconds(step.now));
          }
        } else {
          k := n - 1;
          SaveSaves(states, steps, cfg, ttl, maxEntries, k);
        }
      }
    }
  }

  /** A look or a save, as an operation of the cache. */
  function OpOf(a: Shared, step: FlightStep): Operation
    requires step.Look? || (step.Save? && step.flight in a.flights && a.flights[step.flight].Storing?)
  {
    match step
    case Look(_, key, now) => Lookup(key, now)
    case Save(f, now, order) => Store(a.flights[f].key, a.flights[f].claims, now, order)
  }

  /** The step is a save that replaces or evicts the entry of this key. */
  predicate Disturbs(a: Shared, step: FlightStep, b: Shared, ttl: int, maxEntries: int, key: Key) {
    && step.Save? && step.flight in a.flights && a.flights[step.flight].Storing?
    && (Stores(OpOf(a, step), key, ttl) || EvictedBy(State(a.entries, a.log), OpOf(a, step), State(b.entries, b.log), key, maxEntries))
  }

  lemma EntryStays(a: Shared, step: FlightStep, b: Shared, cfg: Config, ttl: int, maxEntries: int, key: Key)
    requires FlightMoves(a, step, b, cfg, ttl, maxEntries) && !Disturbs(a, step, b, ttl, maxEntries, key)
    requires key in a.entries && b.clock < a.entries[key].expires
    ensures key in b.entries && b.entries[key] == a.entries[key]
  {
    if !step.Reply? {
      EntrySurvives(State(a.entries, a.log), OpOf(a, step), State(b.entries, b.log), ttl, maxEntries, key);
    }
  }

  lemma {:induction false} SavedStays(states: seq<Shared>, steps: seq<FlightStep>, cfg: Config, ttl: int, maxEntries: int, key: Key, m: nat, n: nat)
    requires IsFlightRun(states, steps, cfg, ttl, maxEntries) && m <= n < |states|
    requires key in states[m].entries && states[n].clock < states[m].entries[key].expires
    requires forall x :: m <= x < n ==> !Disturbs(states[x], steps[x], states[x + 1], ttl, maxEntries, key)
    ensures key in states[n].entries && states[n].entries[key] == states[m].entries[key]
    decreases n
  {
    if m < n {
      assert FlightMoves(states[n - 1], steps[n - 1], states[n], cfg, ttl, maxEntries);
      SavedStays(states, steps, cfg, ttl, maxEntries, key, m, n - 1);
      EntryStays(states[n - 1], steps[n - 1], states[n], cfg, ttl, maxEntries, key);
    }
  }

  /**
   * A request is not repeated: after a flight has saved its claims, every later look for the same token before save time
   * + ttl and before the claims' own expiry ends its flight at once with these claims, as long as no save has replaced
   * or evicted them in between.
   */
  lemma SavedIsFound(states: seq<Shared>, steps: seq<FlightStep>, cfg: Config, ttl: int, maxEntries: int, k: nat, n: nat)
    requires 0 < ttl && IsFlightRun(states, steps, cfg, ttl, maxEntries) && k < n < |steps| && steps[k].Save? && steps[n].Look?
    requires steps[k].flight in states[k].flights && states[k].flights[steps[k].flight].Storing?
    requires
      var phase := states[k].flights[steps[k].flight];
      && steps[n].key == phase.key
      && steps[n].now < steps[k].now + ttl && steps[n].now < UnixTime(phase.claims.expires)
      && forall x :: k < x < n ==> !Disturbs(states[x], steps[x], states[x + 1], ttl, maxEntries, phase.key)
    ensures
      steps[n].flight in states[n + 1].flights
      && states[n + 1].flights[steps[n].flight] == Ended(FlightResult(Some(states[k].flights[steps[k].flight].claims), true), false)
  {
    SaveSaves(states, steps, cfg, ttl, maxEntries, k);
    assert FlightMoves(states[k], steps[k], states[k + 1], cfg, ttl, maxEntries);
    assert FlightMoves(states[n], steps[n], states[n + 1], cfg, ttl, maxEntries);
    ClockRises(states, steps, cfg, ttl, maxEntries, k + 1, n);
    SavedStays(states, steps, cfg, ttl, maxEntries, steps[n].key, k + 1, n);
  }

  lemma {:induction false} ClockRises(states: seq<Shared>, steps: seq<FlightStep>, cfg: Config, ttl: int, maxEntries: int, m: nat, n: nat)
    requires IsFlightRun(states, steps, cfg, ttl, maxEntries) && m <= n < |states|
    ensures states[m].clock <= states[n].clock
    decreases n
  {
    if m < n {
      ClockRises(states, steps, cfg, ttl, maxEntries, m, n - 1);
      assert FlightMoves(states[n - 1], steps[n - 1], states[n], cfg, ttl, maxEntries);
    }
  }

  // ---------- the mutable object ----------

  /** The victim chosen among the keys sampled so far. */
  ghost predicate Best(entries: Entries, sample: seq<Key>, now: int, found: bool, victim: Key, victimExpires: int) {
    if found then EarliestLive(entries, sample, now, victim) && victimExpires == entries[victim].expires
    else NoneLive(entries, sample, now)
  }

  lemma EvictionComplete(before: Entries, kept: Entries, sample: seq<Key>, now: int, maxEntries: int,
                         found: bool, victim: Key, victimExpires: int)
    requires kept == before - StaleKeys(before, sample, now)
    requires Best(before, sample, now, found, victim, victimExpires)
    ensures Evicted(before, if |kept| >= maxEntries && found then kept - {victim} else kept, sample, now, maxEntries)
  {
    if found {
      assert EarliestLive(before, sample, now, victim);
      assert Live(before, victim, now);
    }
  }

  lemma PutStep(before: Entries, rest: Entries, log: seq<Record>, key: Key, claims: Claims, now: int, ttl: int, maxEntries: int, order: seq<Key>)
    requires now < Expiry(claims, now, ttl)
    requires 0 < maxEntries && Refines(before, log, ttl, maxEntries) && Enumerates(order, before.Keys)
    requires if key !in before && |before| >= maxEntries then Evicted(before, rest, Sample(order), now, maxEntries) else rest == before
    ensures
      var after := rest[key := Entry(claims, Expiry(claims, now, ttl))];
      && PutOutcome(before, after, key, claims, now, ttl, maxEntries, order)
      && Refines(after, Logged(log, key, claims, now, ttl), ttl, maxEntries)
  {
    PutKeeps(before, rest[key := Entry(claims, Expiry(claims, now, ttl))], log, key, claims, now, ttl, maxEntries, order);
  }

  /** What sampling one more key means for the stale keys and for the victim. */
  lemma SampleStep(before: Entries, order: seq<Key>, i: nat, now: int, found: bool, victim: Key, victimExpires: int)
    requires Enumerates(order, before.Keys) && i < |order|
    requires Best(before, order[..i], now, found, victim, victimExpires)
    ensures
      var key := order[i];
      var rest := before - StaleKeys(before, order[..i], now);
      && key in rest && rest[key] == before[key]
      && (if before[key].expires <= now then
            && rest - {key} == before - StaleKeys(before, order[..i + 1], now)
            && Best(before, order[..i + 1], now, found, victim, victimExpires)
          else
            && rest == before - StaleKeys(before, order[..i + 1], now)
            && if !found || before[key].expires < victimExpires
               then Best(before, order[..i + 1], now, true, key, before[key].expires)
               else Best(before, order[..i + 1], now, found, victim, victimExpires))
  {
    var key := order[i];
    var stale := StaleKeys(before, order[..i], now);
    assert key in order;
    assert order[..i + 1] == order[..i] + [key];
    if before[key].expires <= now {
      assert StaleKeys(before, order[..i + 1], now) == stale + {key};
      assert before - stale - {key} == before - (stale + {key});
    } else {
      assert StaleKeys(before, order[..i + 1], now) == stale;
    }
  }

  class IntrospectionCache {
    const ttl: int
    const maxEntries: int
    var entries: Entries
    ghost var log: seq<Record>

    ghost predicate Valid()
      reads this
    {
      0 < ttl && 0 < maxEntries && Refines(entries, log, ttl, maxEntries)
    }

    /** `newIntrospectionCache` returns nil unless both arguments are positive. */
    constructor (ttl: int, maxEntries: int)
      requires 0 < ttl && 0 < maxEntries
      ensures Valid() && entries == map[] && log == []
      ensures this.ttl == ttl && this.maxEntries == maxEntries
    {
      this.ttl, this.maxEntries := ttl, maxEntries;
      entries, log := map[], [];
      new;
      EmptyRefines(ttl, maxEntries);
    }

    method Get(key: Key, now: int) returns (hit: Option<Claims>)
      requires Valid()
      modifies this`entries
      ensures Valid()
      ensures entries == AfterLookup(old(entries), key, now)
      ensures hit.Some? <==> Live(old(entries), key, now)
      ensures hit.Some? ==> hit.value == old(entries)[key].claims
    {
      ghost var before := entries;
      if key !in entries {
        return None;
      }
      var entry := entries[key];
      if entry.expires <= now {
        entries := entries - {key};
        ShrinkRefines(before, entries, log, ttl, maxEntries);
        return None;
      }
      return Some(entry.claims);
    }

    method Put(key: Key, claims: Claims, now: int, order: seq<Key>)
      requires Valid() && Enumerates(order, entries.Keys)
      modifies this
      ensures Valid()
      ensures PutOutcome(old(entries), entries, key, claims, now, ttl, maxEntries, order)
      ensures log == Logged(old(log), key, claims, now, ttl)
    {
      ghost var before, logged := entries, log;
      var expires := now + ttl;
      var tokenExpiry := UnixTime(claims.expires);
      if tokenExpiry < expires {
        expires := tokenExpiry;
      }
      assert expires == Expiry(claims, now, ttl);
      if expires <= now {
        return;
      }
      if key !in entries && |entries| >= maxEntries {
        EvictLocked(now, order);
      }
      PutStep(before, entries, logged, key, claims, now, ttl, maxEntries, order);
      entries := entries[key := Entry(claims, expires)];
      log := log + [Record(key, claims, now)];
    }

    /** `order` is the enumeration Go's map iteration happens to produce. */
    method EvictLocked(now: int, order: seq<Key>)
      requires Enumerates(order, entries.Keys)
      modifies this`entries
      ensures Evicted(old(entries), entries, Sample(order), now, maxEntries)
    {
      ghost var before := entries;
      var victim, victimExpires, found := 0, 0, false;
      var sampled := 0;
      while sampled < |order| && sampled < EVICTION_SAMPLE
        invariant 0 <= sampled <= |order| && sampled <= EVICTION_SAMPLE
        invariant entries == before - StaleKeys(before, order[..sampled], now)
        invariant Best(before, order[..sampled], now, found, victim, victimExpires)
      {
        var key := order[sampled];
        SampleStep(before, order, sampled, now, found, victim, victimExpires);
        var entry := entries[key];
        sampled := sampled + 1;
        if entry.expires <= now {
          entries := entries - {key};
        } else if !found || entry.expires < victimExpires {
          victim, victimExpires, found := key, entry.expires, true;
        }
      }
      assert order[..sampled] == Sample(order);
      EvictionComplete(before, entries, Sample(order), now, maxEntries, found, victim, victimExpires);
      if |entries| >= maxEntries && found {
        entries := entries - {victim};
      }
    }
  }

  // ---------- one flight on top of the cache ----------

  /** `runIntrospectionFlight`: the network is asked only if no live entry exists, and only claims that pass `validate` are stored. */
  method RunIntrospectionFlight(cache: IntrospectionCache, cfg: Config, key: Key, lookupAt: int,
                                reply: Option<Claims>, validateAt: int, storeAt: int, order: seq<Key>)
    returns (result: FlightResult, requested: bool)
    requires cache.Valid() && Enumerates(order, AfterLookup(cache.entries, key, lookupAt).Keys)
    modifies cache
    ensures cache.Valid()
    ensures requested <==> !Live(old(cache.entries), key, lookupAt)
    ensures !requested ==> result == FlightResult(Some(old(cache.entries)[key].claims), true) && cache.entries == old(cache.entries)
    ensures requested ==> result == FlightResult(reply, false)
    ensures if requested && reply.Some? && Validate(reply.value, cfg, UnixSeconds(validateAt)) == Permitted
            then PutOutcome(AfterLookup(old(cache.entries), key, lookupAt), cache.entries, key, reply.value, storeAt, cache.ttl, cache.maxEntries, order)
                 && cache.log == Logged(old(cache.log), key, reply.value, storeAt, cache.ttl)
            else cache.entries == AfterLookup(old(cache.entries), key, lookupAt) && cache.log == old(cache.log)
  {
    var hit := cache.Get(key, lookupAt);
    if hit.Some? {
      return FlightResult(hit, true), false;
    }
    if reply.Some? && Validate(reply.value, cfg, UnixSeconds(validateAt)) == Permitted {
      cache.Put(key, reply.value, storeAt, order);
    }
    return FlightResult(reply, false), true;
  }
}
