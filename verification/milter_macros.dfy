/**
 Macro bookkeeping of one Milter connection (internal/milterproxy/macros.go): the state machine, and a
 specification in terms of the frames seen so far with which it agrees.
 */
module MilterMacros {
  import opened Common
  import opened GoText
  import opened MilterCodec
  import Utf8

  type Values = map<bytes, bytes>

  type Stage = byte

  /** A selected macro and the alias it is logged under. */
  datatype Field = Field(macro: bytes, alias: bytes)

  const MAX_DEFINITION := 65536
  const MAX_VALUE := 4096
  const BUDGET := 16384

  const STAGES: string := "CHMRTNE"

  predicate IsStage(b: byte) {
    (b as char) in STAGES
  }

  const MESSAGE_STAGES: seq<Stage> := ['M' as int, 'R' as int, 'T' as int, 'N' as int, 'E' as int]

  /** The stages of one message. */
  predicate MessageStage(s: Stage) {
    s in MESSAGE_STAGES
  }

  predicate Is(b: byte, c: char) {
    b as char == c
  }

  // ---------- definitions ----------

  /** `macroName`: one surrounding pair of braces is ignored. */
  function MacroName(name: bytes): bytes {
    var open := if name != [] && Is(name[0], '{') then name[1..] else name;
    if open != [] && Is(open[|open| - 1], '}') then open[..|open| - 1] else open
  }

  /** A name means the same with either brace and without; one brace on each side is dropped, no more. */
  lemma BracesIgnored(name: bytes, open: bool, close: bool)
    requires open || name == [] || !Is(name[0], '{')
    requires close || name == [] || !Is(name[|name| - 1], '}')
    ensures MacroName((if open then ['{' as int] else []) + name + (if close then ['}' as int] else [])) == name
  {
    var text := (if open then ['{' as int] else []) + name + (if close then ['}' as int] else []);
    var rest := name + (if close then ['}' as int] else []);
    assert if open then text[1..] == rest else text == rest;
    assert close ==> rest[..|name|] == name;
    assert !close ==> rest == name;
  }

  predicate Selected(fields: seq<Field>, name: bytes) {
    exists i :: 0 <= i < |fields| && MacroName(fields[i].macro) == name
  }

  predicate Usable(fields: seq<Field>, name: bytes, value: bytes) {
    Selected(fields, name) && |value| <= MAX_VALUE && Utf8.Valid(value)
  }

  /** The name/value pairs from index `i` on; `None` when a name is empty or the budget is exceeded. */
  function Pairs(fields: seq<Field>, pairs: seq<bytes>, i: nat, values: Values, total: nat): Option<Values>
    decreases |pairs| - i
  {
    if i + 1 >= |pairs| then Some(values)
    else
      var name, value := MacroName(pairs[i]), pairs[i + 1];
      if name == [] then None
      else if !Usable(fields, name, value) then Pairs(fields, pairs, i + 2, values, total)
      else if total + |value| > BUDGET then None
      else Pairs(fields, pairs, i + 2, values[name := value], total + |value|)
  }

  /** The values of a well-formed definition. */
  function Defined(fields: seq<Field>, payload: bytes): Option<Values> {
    if payload == [] || !IsStage(payload[0]) || |payload| > MAX_DEFINITION then None
    else
      var pairs := Split(payload[1..], 0);
      if pairs[|pairs| - 1] != [] || |pairs| % 2 != 1 then None
      else Pairs(fields, pairs, 0, map[], 0)
  }

  // ---------- what a definition says ----------

  /** A name and its value, as the MTA sends them. */
  datatype Pair = Pair(name: bytes, value: bytes)

  predicate NulFree(pairs: seq<Pair>) {
    forall i :: 0 <= i < |pairs| ==> Free(pairs[i].name, 0) && Free(pairs[i].value, 0)
  }

  /** Every name and every value is followed by a NUL. */
  function PairsText(pairs: seq<Pair>): bytes {
    if pairs == [] then [] else pairs[0].name + [0] + (pairs[0].value + [0] + PairsText(pairs[1..]))
  }

  function Parts(pairs: seq<Pair>): seq<bytes> {
    if pairs == [] then [[]] else [pairs[0].name] + ([pairs[0].value] + Parts(pairs[1..]))
  }

  lemma {:induction false} PairsTextParts(pairs: seq<Pair>)
    requires NulFree(pairs)
    ensures Split(PairsText(pairs), 0) == Parts(pairs)
  {
    if pairs != [] {
      var first, rest := pairs[0], PairsText(pairs[1..]);
      PairsTextParts(pairs[1..]);
      SplitFirst(first.value, rest, 0);
      SplitFirst(first.name, first.value + [0] + rest, 0);
    }
  }

  lemma {:induction false} PartsLayout(pairs: seq<Pair>)
    ensures |Parts(pairs)| == 2 * |pairs| + 1 && Parts(pairs)[2 * |pairs|] == []
    ensures forall k :: 0 <= k < |pairs| ==> Parts(pairs)[2 * k] == pairs[k].name && Parts(pairs)[2 * k + 1] == pairs[k].value
  {
    if pairs != [] {
      PartsLayout(pairs[1..]);
      var rest, parts := Parts(pairs[1..]), Parts(pairs);
      assert forall i :: 2 <= i < |parts| ==> parts[i] == rest[i - 2];
      forall k | 0 <= k < |pairs| ensures parts[2 * k] == pairs[k].name && parts[2 * k + 1] == pairs[k].value {
        if k > 0 {
          assert parts[2 * k] == rest[2 * (k - 1)] && parts[2 * k + 1] == rest[2 * (k - 1) + 1];
        }
      }
    }
  }

  /** A text whose last part is empty and whose parts are odd in number is a list of pairs. */
  lemma {:induction false} PartsArePairs(parts: seq<bytes>) returns (pairs: seq<Pair>)
    requires parts != [] && |parts| % 2 == 1 && parts[|parts| - 1] == []
    requires forall i :: 0 <= i < |parts| ==> Free(parts[i], 0)
    ensures NulFree(pairs) && PairsText(pairs) == Join(parts, 0)
    decreases |parts|
  {
    if |parts| == 1 {
      pairs := [];
    } else {
      var rest := PartsArePairs(parts[2..]);
      pairs := [Pair(parts[0], parts[1])] + rest;
      assert pairs[1..] == rest;
      assert parts[1..][1..] == parts[2..];
    }
  }

  predicate UsableAt(fields: seq<Field>, pairs: seq<Pair>, k: nat) {
    k < |pairs| && Usable(fields, MacroName(pairs[k].name), pairs[k].value)
  }

  /** The size of the usable values. */
  function UsableSize(fields: seq<Field>, pairs: seq<Pair>): nat {
    if pairs == [] then 0 else (if UsableAt(fields, pairs, 0) then |pairs[0].value| else 0) + UsableSize(fields, pairs[1..])
  }

  predicate NamesGiven(pairs: seq<Pair>) {
    forall k :: 0 <= k < |pairs| ==> MacroName(pairs[k].name) != []
  }

  /** Pair `k` is the last usable one for this macro. */
  predicate LastFor(fields: seq<Field>, pairs: seq<Pair>, name: bytes, k: nat) {
    && UsableAt(fields, pairs, k) && MacroName(pairs[k].name) == name
    && forall m: nat :: k < m < |pairs| && UsableAt(fields, pairs, m) ==> MacroName(pairs[m].name) != name
  }

  predicate NoneFor(fields: seq<Field>, pairs: seq<Pair>, name: bytes) {
    forall m: nat :: m < |pairs| && UsableAt(fields, pairs, m) ==> MacroName(pairs[m].name) != name
  }

  /** What collecting the pairs adds to the values before. */
  ghost predicate Collected(fields: seq<Field>, pairs: seq<Pair>, before: Values, after: Values) {
    forall name :: CollectedName(fields, pairs, before, after, name)
  }

  ghost predicate CollectedName(fields: seq<Field>, pairs: seq<Pair>, before: Values, after: Values, name: bytes) {
    && (NoneFor(fields, pairs, name) ==> (name in after <==> name in before) && (name in after ==> after[name] == before[name]))
    && (forall k: nat :: LastFor(fields, pairs, name, k) ==> name in after && after[name] == pairs[k].value)
  }

  lemma UsableShift(fields: seq<Field>, pairs: seq<Pair>, k: nat)
    requires pairs != []
    ensures UsableAt(fields, pairs[1..], k) == UsableAt(fields, pairs, k + 1)
  {
  }

  lemma CollectedCons(fields: seq<Field>, pairs: seq<Pair>, before: Values, after: Values, name: bytes)
    requires pairs != []
    requires
      var n, v := MacroName(pairs[0].name), pairs[0].value;
      CollectedName(fields, pairs[1..], if UsableAt(fields, pairs, 0) then before[n := v] else before, after, name)
    ensures CollectedName(fields, pairs, before, after, name)
  {
    var rest := pairs[1..];
    forall m: nat ensures UsableAt(fields, rest, m) == UsableAt(fields, pairs, m + 1) {
      UsableShift(fields, pairs, m);
    }
    if NoneFor(fields, pairs, name) {
      forall m: nat | m < |rest| && UsableAt(fields, rest, m) ensures MacroName(rest[m].name) != name {
        assert UsableAt(fields, pairs, m + 1);
      }
      assert NoneFor(fields, rest, name);
    }
    forall k: nat | LastFor(fields, pairs, name, k) ensures name in after && after[name] == pairs[k].value {
      if k > 0 {
        assert UsableAt(fields, rest, k - 1);
        forall m: nat | k - 1 < m < |rest| && UsableAt(fields, rest, m) ensures MacroName(rest[m].name) != name {
          assert UsableAt(fields, pairs, m + 1);
        }
        assert LastFor(fields, rest, name, k - 1);
      } else {
        forall m: nat | m < |rest| && UsableAt(fields, rest, m) ensures MacroName(rest[m].name) != name {
          assert UsableAt(fields, pairs, m + 1);
        }
        assert NoneFor(fields, rest, name);
      }
    }
  }

  /** Collecting the parts from a pair on depends on the remaining pairs only. */
  lemma {:induction false} PairsShift(fields: seq<Field>, a: seq<bytes>, b: seq<bytes>, i: nat, j: nat, values: Values, total: nat)
    requires i <= |a| && j <= |b| && a[i..] == b[j..]
    ensures Pairs(fields, a, i, values, total) == Pairs(fields, b, j, values, total)
    decreases |a| - i
  {
    if i + 1 < |a| {
      assert a[i] == a[i..][0] == b[j..][0] == b[j] && a[i + 1] == a[i..][1] == b[j..][1] == b[j + 1];
      assert a[i + 2..] == a[i..][2..] == b[j..][2..] == b[j + 2..];
      PairsShift(fields, a, b, i + 2, j + 2, values, total);
      PairsShift(fields, a, b, i + 2, j + 2, values[MacroName(a[i]) := a[i + 1]], total + |a[i + 1]|);
    }
  }

  /** Collecting the first pair. */
  lemma PairsStep(fields: seq<Field>, pairs: seq<Pair>, values: Values, total: nat)
    requires pairs != []
    ensures
      var name, value := MacroName(pairs[0].name), pairs[0].value;
      Pairs(fields, Parts(pairs), 0, values, total) ==
      if name == [] then None
      else if !UsableAt(fields, pairs, 0) then Pairs(fields, Parts(pairs[1..]), 0, values, total)
      else if total + |value| > BUDGET then None
      else Pairs(fields, Parts(pairs[1..]), 0, values[name := value], total + |value|)
  {
    var name, value := MacroName(pairs[0].name), pairs[0].value;
    var parts, rest := Parts(pairs), Parts(pairs[1..]);
    assert parts[0] == pairs[0].name && parts[1] == value && parts[2..] == rest[0..];
    PairsShift(fields, parts, rest, 2, 0, values, total);
    PairsShift(fields, parts, rest, 2, 0, values[name := value], total + |value|);
  }

  lemma NamesGivenCons(pairs: seq<Pair>)
    requires pairs != []
    ensures NamesGiven(pairs) == (MacroName(pairs[0].name) != [] && NamesGiven(pairs[1..]))
  {
    assert pairs == [pairs[0]] + pairs[1..];
  }

  /** Collecting succeeds for this list with this result. */
  ghost predicate CollectsExactly(fields: seq<Field>, pairs: seq<Pair>, values: Values, total: nat) {
    var result := Pairs(fields, Parts(pairs), 0, values, total);
    && (result.Some? <==> NamesGiven(pairs) && total + UsableSize(fields, pairs) <= BUDGET)
    && (result.Some? ==> Collected(fields, pairs, values, result.value))
  }

  lemma CollectedAllCons(fields: seq<Field>, pairs: seq<Pair>, before: Values, after: Values)
    requires pairs != []
    requires
      var n, v := MacroName(pairs[0].name), pairs[0].value;
      Collected(fields, pairs[1..], if UsableAt(fields, pairs, 0) then before[n := v] else before, after)
    ensures Collected(fields, pairs, before, after)
  {
    var n, v := MacroName(pairs[0].name), pairs[0].value;
    var next := if UsableAt(fields, pairs, 0) then before[n := v] else before;
    forall name ensures CollectedName(fields, pairs, before, after, name) {
      assert CollectedName(fields, pairs[1..], next, after, name);
      CollectedCons(fields, pairs, before, after, name);
    }
  }

  function NextValues(fields: seq<Field>, pairs: seq<Pair>, values: Values): Values
    requires pairs != []
  {
    if UsableAt(fields, pairs, 0) then values[MacroName(pairs[0].name) := pairs[0].value] else values
  }

  function FirstSize(fields: seq<Field>, pairs: seq<Pair>): nat
    requires pairs != []
  {
    if UsableAt(fields, pairs, 0) then |pairs[0].value| else 0
  }

  lemma PairsNext(fields: seq<Field>, pairs: seq<Pair>, values: Values, total: nat)
    requires pairs != [] && total <= BUDGET
    ensures Pairs(fields, Parts(pairs), 0, values, total) ==
            if MacroName(pairs[0].name) == [] || total + FirstSize(fields, pairs) > BUDGET then None
            else Pairs(fields, Parts(pairs[1..]), 0, NextValues(fields, pairs, values), total + FirstSize(fields, pairs))
  {
    PairsStep(fields, pairs, values, total);
  }

  lemma UsableSizeCons(fields: seq<Field>, pairs: seq<Pair>)
    requires pairs != []
    ensures UsableSize(fields, pairs) == FirstSize(fields, pairs) + UsableSize(fields, pairs[1..])
  {
  }

  lemma CollectedNext(fields: seq<Field>, pairs: seq<Pair>, values: Values, after: Values)
    requires pairs != [] && Collected(fields, pairs[1..], NextValues(fields, pairs, values), after)
    ensures Collected(fields, pairs, values, after)
  {
    CollectedAllCons(fields, pairs, values, after);
  }

  lemma PairsExactCons(fields: seq<Field>, pairs: seq<Pair>, values: Values, total: nat)
    requires pairs != [] && total <= BUDGET
    requires MacroName(pairs[0].name) != [] && total + FirstSize(fields, pairs) <= BUDGET ==>
               CollectsExactly(fields, pairs[1..], NextValues(fields, pairs, values), total + FirstSize(fields, pairs))
    ensures CollectsExactly(fields, pairs, values, total)
  {
    PairsNext(fields, pairs, values, total);
    NamesGivenCons(pairs);
    UsableSizeCons(fields, pairs);
    var result := Pairs(fields, Parts(pairs), 0, values, total);
    if result.Some? {
      CollectedNext(fields, pairs, values, result.value);
    }
  }

  lemma {:induction false} PairsExact(fields: seq<Field>, pairs: seq<Pair>, values: Values, total: nat)
    requires total <= BUDGET
    ensures CollectsExactly(fields, pairs, values, total)
    decreases |pairs|
  {
    if pairs == [] {
      assert Parts(pairs) == [[]];
    } else {
      if total + FirstSize(fields, pairs) <= BUDGET {
        PairsExact(fields, pairs[1..], NextValues(fields, pairs, values), total + FirstSize(fields, pairs));
      }
      PairsExactCons(fields, pairs, values, total);
    }
  }

  lemma DefinedUnfolds(fields: seq<Field>, s: Stage, text: bytes, parts: seq<bytes>)
    requires Split(text, 0) == parts && |parts| % 2 == 1 && parts[|parts| - 1] == []
    ensures Defined(fields, [s] + text) ==
            if IsStage(s) && 1 + |text| <= MAX_DEFINITION then Pairs(fields, parts, 0, map[], 0) else None
  {
    assert ([s] + text)[1..] == text;
  }

  /**
   * A definition is well formed exactly if its payload is short enough and is a stage letter and a list of NUL-ended
   * names and values, in which no name is empty and the usable values fit the budget; it then gives every macro the
   * value of the last usable pair that names it, and no other macro any.
   */
  lemma DefinitionExact(fields: seq<Field>, s: Stage, pairs: seq<Pair>)
    requires NulFree(pairs)
    ensures
      var payload := [s] + PairsText(pairs);
      && (Defined(fields, payload).Some? <==>
          IsStage(s) && |payload| <= MAX_DEFINITION && NamesGiven(pairs) && UsableSize(fields, pairs) <= BUDGET)
      && (Defined(fields, payload).Some? ==> Collected(fields, pairs, map[], Defined(fields, payload).value))
  {
    PairsTextParts(pairs);
    PartsLayout(pairs);
    DefinedUnfolds(fields, s, PairsText(pairs), Parts(pairs));
    PairsExact(fields, pairs, map[], 0);
  }

  /** Every well-formed definition is such a list. */
  lemma DefinitionIsPairs(fields: seq<Field>, payload: bytes) returns (pairs: seq<Pair>)
    requires Defined(fields, payload).Some?
    ensures NulFree(pairs) && payload == [payload[0]] + PairsText(pairs)
  {
    SplitJoin(payload[1..], 0);
    pairs := PartsArePairs(Split(payload[1..], 0));
    assert payload == [payload[0]] + payload[1..];
  }

  // ---------- the state machine ----------

  datatype State = State(pending: map<Stage, Values>, active: map<Stage, Values>, message: nat)

  const START := State(map[], map[], 0)

  /** Reading a Go map of maps: an absent entry reads as an empty map. */
  function Get(m: map<Stage, Values>, s: Stage): Values {
    if s in m then m[s] else map[]
  }

  function Without(m: map<Stage, Values>, stages: seq<Stage>): map<Stage, Values> {
    map s | s in m && s !in stages :: m[s]
  }

  lemma WithoutOneMore(m: map<Stage, Values>, i: nat)
    requires i < |MESSAGE_STAGES|
    ensures Without(m, MESSAGE_STAGES[..i]) - {MESSAGE_STAGES[i]} == Without(m, MESSAGE_STAGES[..i + 1])
    ensures Without(m, MESSAGE_STAGES[..0]) == m
  {
    assert MESSAGE_STAGES[..i + 1] == MESSAGE_STAGES[..i] + [MESSAGE_STAGES[i]];
  }

  function ClearMessage(st: State): State {
    st.(active := Without(st.active, MESSAGE_STAGES), pending := Without(st.pending, MESSAGE_STAGES))
  }

  function Define(fields: seq<Field>, st: State, payload: bytes): State {
    if payload == [] then st.(pending := map[], active := map[])
    else
      var s := payload[0];
      var values := Defined(fields, payload);
      st.(active := st.active - {s},
          pending := if values.Some? then (st.pending - {s})[s := values.value] else st.pending - {s})
  }

  /** What a frame does before the snapshot is taken ... */
  function Before(fields: seq<Field>, st: State, f: Frame): State {
    if Is(f.command, 'D') then Define(fields, st, f.payload)
    else
      var cleared :=
        if Is(f.command, 'C') then st.(active := map[], pending := map[f.command := Get(st.pending, f.command)])
        else if Is(f.command, 'H') then ClearMessage(st.(active := st.active - {f.command}))
        else if Is(f.command, 'M') then
          var kept := ClearMessage(st);
          kept.(pending := kept.pending[f.command := Get(st.pending, f.command)], message := st.message + 1)
        else st;
      if IsStage(f.command)
      then cleared.(active := cleared.active[f.command := Get(cleared.pending, f.command)], pending := cleared.pending - {f.command})
      else cleared
  }

  /** ... and after it. */
  function After(st: State, f: Frame): State {
    if Is(f.command, 'E') || Is(f.command, 'A') then ClearMessage(st)
    else if Is(f.command, 'K') || Is(f.command, 'Q') then st.(active := map[], pending := map[])
    else st
  }

  function Observe(fields: seq<Field>, st: State, f: Frame): State {
    After(Before(fields, st, f), f)
  }

  function Run(fields: seq<Field>, frames: seq<Frame>): State {
    if frames == [] then START else Observe(fields, Run(fields, frames[..|frames| - 1]), frames[|frames| - 1])
  }

  // ---------- snapshots ----------

  /** Later stages override earlier ones. */
  function Shown(active: map<Stage, Values>, stages: string): Values
    requires forall i :: 0 <= i < |stages| ==> stages[i] in STAGES
  {
    if stages == "" then map[]
    else
      var last := stages[|stages| - 1];
      Shown(active, stages[..|stages| - 1]) + Get(active, last as int)
  }

  function Attrs(fields: seq<Field>, values: Values, total: nat): seq<Attr<bytes>> {
    if fields == [] then []
    else
      var name := MacroName(fields[0].macro);
      var value := if name in values then values[name] else [];
      if value == [] || total + |value| > BUDGET then Attrs(fields[1..], values, total)
      else [Attr(fields[0].alias, value)] + Attrs(fields[1..], values, total + |value|)
  }

  function Size(attrs: seq<Attr<bytes>>): nat {
    if attrs == [] then 0 else |attrs[0].value| + Size(attrs[1..])
  }

  function Snapshot(fields: seq<Field>, st: State): seq<Attr<bytes>> {
    Attrs(fields, Shown(st.active, STAGES), 0)
  }

  lemma {:induction false} AttrsWithinBudget(fields: seq<Field>, values: Values, total: nat)
    requires total <= BUDGET
    ensures total + Size(Attrs(fields, values, total)) <= BUDGET
  {
    if fields != [] {
      var name := MacroName(fields[0].macro);
      var value := if name in values then values[name] else [];
      if value == [] || total + |value| > BUDGET {
        AttrsWithinBudget(fields[1..], values, total);
      } else {
        AttrsWithinBudget(fields[1..], values, total + |value|);
        var attrs := Attrs(fields, values, total);
        assert attrs[1..] == Attrs(fields[1..], values, total + |value|);
      }
    }
  }

  /** Every snapshot stays within the budget. */
  lemma SnapshotWithinBudget(fields: seq<Field>, st: State)
    ensures Size(Snapshot(fields, st)) <= BUDGET
  {
    AttrsWithinBudget(fields, Shown(st.active, STAGES), 0);
  }

  // ---------- the history specification ----------

  predicate DefinesStage(f: Frame, s: Stage) {
    Is(f.command, 'D') && f.payload != [] && f.payload[0] == s
  }

  predicate Resets(f: Frame) {
    (Is(f.command, 'D') && f.payload == []) || Is(f.command, 'K') || Is(f.command, 'Q')
  }

  /** The frame consumes the pending definition of its own stage. */
  predicate Consumes(f: Frame, s: Stage) {
    f.command == s && IsStage(s)
  }

  predicate EndsMessage(f: Frame) {
    Is(f.command, 'E') || Is(f.command, 'A')
  }

  predicate StartsMessage(f: Frame) {
    Is(f.command, 'H') || Is(f.command, 'M')
  }

  /** After this frame an earlier definition of the stage is no longer waiting. */
  predicate EndsPending(f: Frame, s: Stage) {
    || DefinesStage(f, s) || Resets(f) || Consumes(f, s)
    || Is(f.command, 'C')
    || (MessageStage(s) && (EndsMessage(f) || StartsMessage(f)))
  }

  /** After this frame an earlier value of the stage is no longer shown. */
  predicate EndsActive(f: Frame, s: Stage) {
    HidesActive(f, s) || (MessageStage(s) && EndsMessage(f)) || Is(f.command, 'K') || Is(f.command, 'Q')
  }

  /** Already in the snapshot of this frame an earlier value of the stage is not shown. */
  predicate HidesActive(f: Frame, s: Stage) {
    || DefinesStage(f, s) || (Is(f.command, 'D') && f.payload == []) || Consumes(f, s)
    || Is(f.command, 'C')
    || (MessageStage(s) && StartsMessage(f))
  }

  /** The definition at `j` is well formed and still waiting at the end of the history. */
  predicate Waiting(fields: seq<Field>, h: seq<Frame>, s: Stage, j: nat) {
    && j < |h| && DefinesStage(h[j], s) && Defined(fields, h[j].payload).Some?
    && (forall k :: j < k < |h| ==> !EndsPending(h[k], s))
  }

  /** The definition at `j` was consumed at `i` and nothing has cleared it since. */
  predicate Lasting(fields: seq<Field>, h: seq<Frame>, s: Stage, i: nat, j: nat) {
    && i < |h| && Consumes(h[i], s) && !EndsMessage(h[i])
    && Waiting(fields, h[..i], s, j)
    && (forall k :: i < k < |h| ==> !EndsActive(h[k], s))
  }

  function ValuesAt(fields: seq<Field>, h: seq<Frame>, j: nat): Values
    requires j < |h| && Defined(fields, h[j].payload).Some?
  {
    Defined(fields, h[j].payload).value
  }

  /** What one frame does to the waiting definition of a stage. */
  lemma ObservePending(fields: seq<Field>, st: State, f: Frame, s: Stage)
    ensures Get(Observe(fields, st, f).pending, s) ==
            if DefinesStage(f, s) && Defined(fields, f.payload).Some? then Defined(fields, f.payload).value
            else if EndsPending(f, s) then map[]
            else Get(st.pending, s)
  {
  }

  /** What is shown in the snapshot of one frame. */
  lemma ObserveSnapshot(fields: seq<Field>, st: State, f: Frame, s: Stage)
    ensures Get(Before(fields, st, f).active, s) ==
            if Consumes(f, s) then Get(st.pending, s)
            else if HidesActive(f, s) then map[]
            else Get(st.active, s)
  {
  }

  lemma AfterActive(st: State, f: Frame, s: Stage)
    ensures Get(After(st, f).active, s) ==
            if (MessageStage(s) && EndsMessage(f)) || Is(f.command, 'K') || Is(f.command, 'Q') then map[] else Get(st.active, s)
  {
  }

  /** What one frame does to the value shown for a stage after it. */
  lemma ObserveActive(fields: seq<Field>, st: State, f: Frame, s: Stage)
    ensures Get(Observe(fields, st, f).active, s) ==
            if Consumes(f, s) && !EndsMessage(f) then Get(st.pending, s)
            else if EndsActive(f, s) then map[]
            else Get(st.active, s)
  {
    ObserveSnapshot(fields, st, f, s);
    AfterActive(Before(fields, st, f), f, s);
  }

  lemma WaitingExtends(fields: seq<Field>, h: seq<Frame>, s: Stage, j: nat)
    requires h != [] && Waiting(fields, h[..|h| - 1], s, j) && !EndsPending(h[|h| - 1], s)
    ensures Waiting(fields, h, s, j)
  {
    var g := h[..|h| - 1];
    forall k | j < k < |h| ensures !EndsPending(h[k], s) {
      if k < |g| {
        assert !EndsPending(g[k], s);
      }
    }
    assert h[j] == g[j];
  }

  lemma LastingExtends(fields: seq<Field>, h: seq<Frame>, s: Stage, i: nat, j: nat)
    requires h != [] && Lasting(fields, h[..|h| - 1], s, i, j) && !EndsActive(h[|h| - 1], s)
    ensures Lasting(fields, h, s, i, j)
  {
    var g := h[..|h| - 1];
    assert g[..i] == h[..i];
    forall k | i < k < |h| ensures !EndsActive(h[k], s) {
      if k < |g| {
        assert !EndsActive(g[k], s);
      }
    }
    assert h[i] == g[i];
  }

  lemma {:induction false} PendingComplete(fields: seq<Field>, h: seq<Frame>, s: Stage, j: nat)
    requires Waiting(fields, h, s, j)
    ensures Get(Run(fields, h).pending, s) == ValuesAt(fields, h, j)
    decreases |h|
  {
    var g, f := h[..|h| - 1], h[|h| - 1];
    ObservePending(fields, Run(fields, g), f, s);
    if j < |g| {
      assert Waiting(fields, g, s, j);
      PendingComplete(fields, g, s, j);
    }
  }

  lemma {:induction false} PendingSound(fields: seq<Field>, h: seq<Frame>, s: Stage) returns (j: nat)
    requires Get(Run(fields, h).pending, s) != map[]
    ensures Waiting(fields, h, s, j)
    decreases |h|
  {
    var g, f := h[..|h| - 1], h[|h| - 1];
    ObservePending(fields, Run(fields, g), f, s);
    if DefinesStage(f, s) && Defined(fields, f.payload).Some? {
      j := |g|;
    } else {
      j := PendingSound(fields, g, s);
      WaitingExtends(fields, h, s, j);
    }
  }

  /** A definition that was consumed and not cleared since is the value shown for its stage. */
  lemma {:induction false} ActiveComplete(fields: seq<Field>, h: seq<Frame>, s: Stage, i: nat, j: nat)
    requires Lasting(fields, h, s, i, j)
    ensures Get(Run(fields, h).active, s) == ValuesAt(fields, h, j)
    decreases |h|
  {
    var g, f := h[..|h| - 1], h[|h| - 1];
    ObserveActive(fields, Run(fields, g), f, s);
    if i < |g| {
      assert g[..i] == h[..i];
      assert Lasting(fields, g, s, i, j);
      ActiveComplete(fields, g, s, i, j);
    } else {
      assert g == h[..i];
      PendingComplete(fields, g, s, j);
    }
  }

  /** Every value held for a stage comes from such a definition. */
  lemma {:induction false} ActiveSound(fields: seq<Field>, h: seq<Frame>, s: Stage) returns (i: nat, j: nat)
    requires Get(Run(fields, h).active, s) != map[]
    ensures Lasting(fields, h, s, i, j)
    decreases |h|
  {
    var g, f := h[..|h| - 1], h[|h| - 1];
    ObserveActive(fields, Run(fields, g), f, s);
    if Consumes(f, s) && !EndsMessage(f) {
      i := |g|;
      j := PendingSound(fields, g, s);
      assert h[..i] == g;
    } else {
      i, j := ActiveSound(fields, g, s);
      LastingExtends(fields, h, s, i, j);
    }
  }

  /** The definition at `j` is what the snapshot of frame `f` after history `h` shows for the stage: `f` consumes it, or it lasts and `f` does not hide it. */
  predicate ShownAt(fields: seq<Field>, h: seq<Frame>, f: Frame, s: Stage, j: nat) {
    if Consumes(f, s) then Waiting(fields, h, s, j)
    else !HidesActive(f, s) && exists i :: 0 <= i < |h| && Lasting(fields, h, s, i, j)
  }

  /** The state machine agrees with the history: a stage shows exactly the values of the latest well-formed definition consumed by it with no clearing frame since. */
  lemma SnapshotMatchesHistory(fields: seq<Field>, h: seq<Frame>, f: Frame, s: Stage)
    ensures forall j: nat :: ShownAt(fields, h, f, s, j) ==>
              Get(Before(fields, Run(fields, h), f).active, s) == ValuesAt(fields, h, j)
    ensures Get(Before(fields, Run(fields, h), f).active, s) != map[] ==> exists j: nat :: ShownAt(fields, h, f, s, j)
  {
    ObserveSnapshot(fields, Run(fields, h), f, s);
    forall j: nat | ShownAt(fields, h, f, s, j)
      ensures Get(Before(fields, Run(fields, h), f).active, s) == ValuesAt(fields, h, j)
    {
      if Consumes(f, s) {
        PendingComplete(fields, h, s, j);
      } else {
        var i :| 0 <= i < |h| && Lasting(fields, h, s, i, j);
        ActiveComplete(fields, h, s, i, j);
      }
    }
    if Get(Before(fields, Run(fields, h), f).active, s) != map[] {
      if Consumes(f, s) {
        var j := PendingSound(fields, h, s);
        assert ShownAt(fields, h, f, s, j);
      } else {
        var i, j := ActiveSound(fields, h, s);
        assert ShownAt(fields, h, f, s, j);
      }
    }
  }

  // ---------- what a snapshot lists ----------

  /** The definition the snapshot of frame `f` draws on for this stage gives the macro this value. */
  ghost predicate Gives(fields: seq<Field>, h: seq<Frame>, f: Frame, s: Stage, name: bytes, value: bytes) {
    exists j: nat :: GivesAt(fields, h, f, s, name, value, j)
  }

  predicate GivesAt(fields: seq<Field>, h: seq<Frame>, f: Frame, s: Stage, name: bytes, value: bytes, j: nat) {
    && ShownAt(fields, h, f, s, j) && j < |h| && Defined(fields, h[j].payload).Some?
    && name in ValuesAt(fields, h, j) && ValuesAt(fields, h, j)[name] == value
  }

  lemma GivesIffActive(fields: seq<Field>, h: seq<Frame>, f: Frame, s: Stage, name: bytes, value: bytes)
    ensures
      var active := Get(Before(fields, Run(fields, h), f).active, s);
      Gives(fields, h, f, s, name, value) <==> name in active && active[name] == value
  {
    SnapshotMatchesHistory(fields, h, f, s);
    var active := Get(Before(fields, Run(fields, h), f).active, s);
    if name in active && active[name] == value {
      var j: nat :| ShownAt(fields, h, f, s, j);
      assert GivesAt(fields, h, f, s, name, value, j);
    }
  }

  function StageAt(k: nat): Stage
    requires k < |STAGES|
  {
    STAGES[k] as int
  }

  ghost predicate GivesSome(fields: seq<Field>, h: seq<Frame>, f: Frame, s: Stage, name: bytes) {
    exists v :: Gives(fields, h, f, s, name, v)
  }

  /** A stage gives the macro this value, and no later stage gives it any. */
  ghost predicate LatestAt(fields: seq<Field>, h: seq<Frame>, f: Frame, name: bytes, value: bytes, k: nat) {
    && k < |STAGES| && Gives(fields, h, f, StageAt(k), name, value)
    && forall m: nat :: k < m < |STAGES| ==> !GivesSome(fields, h, f, StageAt(m), name)
  }

  ghost predicate Latest(fields: seq<Field>, h: seq<Frame>, f: Frame, name: bytes, value: bytes) {
    exists k: nat :: LatestAt(fields, h, f, name, value, k)
  }

  ghost predicate NoStageGives(fields: seq<Field>, h: seq<Frame>, f: Frame, name: bytes) {
    forall k: nat :: k < |STAGES| ==> !GivesSome(fields, h, f, StageAt(k), name)
  }

  lemma GivesSomeIffActive(fields: seq<Field>, h: seq<Frame>, f: Frame, s: Stage, name: bytes)
    ensures GivesSome(fields, h, f, s, name) <==> name in Get(Before(fields, Run(fields, h), f).active, s)
  {
    var active := Get(Before(fields, Run(fields, h), f).active, s);
    if name in active {
      GivesIffActive(fields, h, f, s, name, active[name]);
    }
    if GivesSome(fields, h, f, s, name) {
      var v :| Gives(fields, h, f, s, name, v);
      GivesIffActive(fields, h, f, s, name, v);
    }
  }

  /** Stage `k` is the last of the first `n` that holds the macro. */
  predicate LastHolder(active: map<Stage, Values>, name: bytes, n: nat, k: nat)
    requires n <= |STAGES|
  {
    && k < n && name in Get(active, StageAt(k))
    && forall m: nat :: k < m < n ==> name !in Get(active, StageAt(m))
  }

  predicate NoHolder(active: map<Stage, Values>, name: bytes, n: nat)
    requires n <= |STAGES|
  {
    forall m: nat :: m < n ==> name !in Get(active, StageAt(m))
  }

  lemma {:induction false} ShownByLast(active: map<Stage, Values>, name: bytes, n: nat)
    requires n <= |STAGES|
    ensures NoHolder(active, name, n) <==> name !in Shown(active, STAGES[..n])
    ensures forall k: nat :: LastHolder(active, name, n, k) ==> name in Shown(active, STAGES[..n]) && Shown(active, STAGES[..n])[name] == Get(active, StageAt(k))[name]
  {
    if n > 0 {
      ShownByLast(active, name, n - 1);
      assert STAGES[..n][..n - 1] == STAGES[..n - 1];
      assert Shown(active, STAGES[..n]) == Shown(active, STAGES[..n - 1]) + Get(active, StageAt(n - 1));
      forall k: nat | LastHolder(active, name, n, k) && k < n - 1 ensures LastHolder(active, name, n - 1, k) {
      }
    }
  }

  lemma {:induction false} SomeLastHolder(active: map<Stage, Values>, name: bytes, n: nat) returns (k: nat)
    requires n <= |STAGES| && !NoHolder(active, name, n)
    ensures LastHolder(active, name, n, k)
  {
    if name in Get(active, StageAt(n - 1)) {
      k := n - 1;
    } else {
      k := SomeLastHolder(active, name, n - 1);
    }
  }

  /** The merged values are those of the latest stage that gives one. */
  lemma MergedExact(fields: seq<Field>, h: seq<Frame>, f: Frame, name: bytes)
    ensures
      var values := Shown(Before(fields, Run(fields, h), f).active, STAGES);
      if name in values then Latest(fields, h, f, name, values[name]) else NoStageGives(fields, h, f, name)
  {
    var active := Before(fields, Run(fields, h), f).active;
    var n := |STAGES|;
    assert STAGES[..n] == STAGES;
    ShownByLast(active, name, n);
    forall k: nat | k < n ensures GivesSome(fields, h, f, StageAt(k), name) <==> name in Get(active, StageAt(k)) {
      GivesSomeIffActive(fields, h, f, StageAt(k), name);
    }
    if !NoHolder(active, name, n) {
      var k := SomeLastHolder(active, name, n);
      GivesIffActive(fields, h, f, StageAt(k), name, Shown(active, STAGES)[name]);
      assert LatestAt(fields, h, f, name, Shown(active, STAGES)[name], k);
    }
  }

  function ValueIn(values: Values, field: Field): bytes {
    if MacroName(field.macro) in values then values[MacroName(field.macro)] else []
  }

  function CountBelow(chosen: seq<nat>, i: nat): (n: nat)
    ensures n <= |chosen|
  {
    if chosen == [] || chosen[0] >= i then 0 else 1 + CountBelow(chosen[1..], i)
  }

  /** The attributes list the chosen fields in order; `total` was used up before. */
  predicate Lists(fields: seq<Field>, values: Values, from: nat, total: nat, chosen: seq<nat>, attrs: seq<Attr<bytes>>) {
    && |chosen| == |attrs|
    && (forall k :: 0 <= k < |chosen| ==> from <= chosen[k] < |fields|)
    && (forall k, m :: 0 <= k < m < |chosen| ==> chosen[k] < chosen[m])
    && (forall k :: 0 <= k < |chosen| ==>
          attrs[k] == Attr(fields[chosen[k]].alias, ValueIn(values, fields[chosen[k]])) && attrs[k].value != [])
    && (forall i :: from <= i < |fields| && i !in chosen ==> Misses(fields, values, total, chosen, attrs, i))
  }

  /** Field `i` has no value, or it does not fit what is left of the budget after the fields listed before it. */
  predicate Misses(fields: seq<Field>, values: Values, total: nat, chosen: seq<nat>, attrs: seq<Attr<bytes>>, i: nat)
    requires i < |fields| && |chosen| == |attrs|
  {
    ValueIn(values, fields[i]) == [] || total + Size(attrs[..CountBelow(chosen, i)]) + |ValueIn(values, fields[i])| > BUDGET
  }

  lemma ListsSkip(fields: seq<Field>, values: Values, from: nat, total: nat, chosen: seq<nat>, attrs: seq<Attr<bytes>>)
    requires from < |fields| && Lists(fields, values, from + 1, total, chosen, attrs)
    requires ValueIn(values, fields[from]) == [] || total + |ValueIn(values, fields[from])| > BUDGET
    ensures Lists(fields, values, from, total, chosen, attrs)
  {
    assert CountBelow(chosen, from) == 0 && attrs[..0] == [];
  }

  lemma ListsTake(fields: seq<Field>, values: Values, from: nat, total: nat, chosen: seq<nat>, attrs: seq<Attr<bytes>>)
    requires from < |fields| && ValueIn(values, fields[from]) != []
    requires Lists(fields, values, from + 1, total + |ValueIn(values, fields[from])|, chosen, attrs)
    ensures Lists(fields, values, from, total, [from] + chosen, [Attr(fields[from].alias, ValueIn(values, fields[from]))] + attrs)
  {
    var value := ValueIn(values, fields[from]);
    var first := Attr(fields[from].alias, value);
    var all, list := [from] + chosen, [first] + attrs;
    forall i: nat | from <= i < |fields| && i !in all ensures Misses(fields, values, total, all, list, i) {
      assert i != from && i !in chosen;
      MissesLater(fields, values, from, total, chosen, attrs, i, first);
    }
  }

  lemma MissesLater(fields: seq<Field>, values: Values, from: nat, total: nat, chosen: seq<nat>, attrs: seq<Attr<bytes>>, i: nat, first: Attr<bytes>)
    requires from < i < |fields| && |chosen| == |attrs| && Misses(fields, values, total + |first.value|, chosen, attrs, i)
    ensures Misses(fields, values, total, [from] + chosen, [first] + attrs, i)
  {
    var all, list := [from] + chosen, [first] + attrs;
    var n := CountBelow(chosen, i);
    assert all[1..] == chosen && CountBelow(all, i) == 1 + n;
    assert list[..n + 1][0] == first && list[..n + 1][1..] == attrs[..n];
  }

  lemma {:induction false} AttrsExact(fields: seq<Field>, values: Values, from: nat, total: nat) returns (chosen: seq<nat>)
    requires from <= |fields|
    ensures Lists(fields, values, from, total, chosen, Attrs(fields[from..], values, total))
    decreases |fields| - from
  {
    if from == |fields| {
      chosen := [];
    } else {
      var value := ValueIn(values, fields[from]);
      assert fields[from..][0] == fields[from] && fields[from..][1..] == fields[from + 1..];
      if value == [] || total + |value| > BUDGET {
        chosen := AttrsExact(fields, values, from + 1, total);
        ListsSkip(fields, values, from, total, chosen, Attrs(fields[from + 1..], values, total));
      } else {
        var rest := AttrsExact(fields, values, from + 1, total + |value|);
        ListsTake(fields, values, from, total, rest, Attrs(fields[from + 1..], values, total + |value|));
        chosen := [from] + rest;
      }
    }
  }

  /** Field `i` may be missing: no stage gives its macro a value, the latest value is empty, or it does not fit what is left of the budget. */
  ghost predicate MayMiss(fields: seq<Field>, h: seq<Frame>, f: Frame, used: nat, i: nat)
    requires i < |fields|
  {
    var name := MacroName(fields[i].macro);
    NoStageGives(fields, h, f, name) || exists v :: Latest(fields, h, f, name, v) && (v == [] || used + |v| > BUDGET)
  }

  /**
   * What the snapshot of a frame lists, over every history: some fields, in field order, each under its alias with the
   * nonempty value which the latest of the stages C, H, M, R, T, N, E that gives its macro one gives it; and every field
   * left out has no value, an empty one, or one that does not fit what the listed fields before it left of the budget.
   */
  lemma SnapshotListsLatest(fields: seq<Field>, h: seq<Frame>, f: Frame) returns (chosen: seq<nat>)
    ensures
      var attrs := Snapshot(fields, Before(fields, Run(fields, h), f));
      && |chosen| == |attrs|
      && (forall k :: 0 <= k < |chosen| ==> chosen[k] < |fields|)
      && (forall k, m :: 0 <= k < m < |chosen| ==> chosen[k] < chosen[m])
      && (forall k :: 0 <= k < |chosen| ==>
            && attrs[k].key == fields[chosen[k]].alias && attrs[k].value != []
            && Latest(fields, h, f, MacroName(fields[chosen[k]].macro), attrs[k].value))
      && (forall i: nat :: i < |fields| && i !in chosen ==> MayMiss(fields, h, f, Size(attrs[..CountBelow(chosen, i)]), i))
  {
    var values := Shown(Before(fields, Run(fields, h), f).active, STAGES);
    var attrs := Snapshot(fields, Before(fields, Run(fields, h), f));
    assert fields[0..] == fields;
    chosen := AttrsExact(fields, values, 0, 0);
    forall k | 0 <= k < |chosen| ensures Latest(fields, h, f, MacroName(fields[chosen[k]].macro), attrs[k].value) {
      MergedExact(fields, h, f, MacroName(fields[chosen[k]].macro));
    }
    forall i: nat | i < |fields| && i !in chosen ensures MayMiss(fields, h, f, Size(attrs[..CountBelow(chosen, i)]), i) {
      MergedExact(fields, h, f, MacroName(fields[i].macro));
      assert Misses(fields, values, 0, chosen, attrs, i);
    }
  }

  // ---------- message numbers ----------

  /** How many messages have begun. */
  function Number(h: seq<Frame>): nat {
    if h == [] then 0 else Number(h[..|h| - 1]) + if Is(h[|h| - 1].command, 'M') then 1 else 0
  }

  lemma {:induction false} MessageIsNumber(fields: seq<Field>, h: seq<Frame>)
    ensures Run(fields, h).message == Number(h)
    decreases |h|
  {
    if h != [] {
      MessageIsNumber(fields, h[..|h| - 1]);
    }
  }

  lemma {:induction false} NumberStays(h: seq<Frame>, i: nat)
    requires i <= |h| && forall k :: i <= k < |h| ==> !Is(h[k].command, 'M')
    ensures Number(h[..i]) == Number(h)
    decreases |h|
  {
    if i < |h| {
      var g := h[..|h| - 1];
      NumberStays(g, i);
      assert g[..i] == h[..i];
    } else {
      assert h[..i] == h;
    }
  }

  /** What a message stage holds after a history was consumed under the current number, and, except for MAIL, defined under it. */
  lemma HeldInMessage(fields: seq<Field>, h: seq<Frame>, s: Stage, i: nat, j: nat)
    requires MessageStage(s) && Lasting(fields, h, s, i, j)
    ensures Number(h[..i + 1]) == Run(fields, h).message
    ensures !Is(s, 'M') ==> Number(h[..j]) == Run(fields, h).message
  {
    MessageIsNumber(fields, h);
    NumberStays(h, i + 1);
    if !Is(s, 'M') {
      NoMailSince(fields, h, s, i, j);
      NumberStays(h, j);
    }
  }

  /** No message begins while a definition of a message stage waits. */
  lemma WaitingInMessage(fields: seq<Field>, h: seq<Frame>, s: Stage, j: nat)
    requires MessageStage(s) && Waiting(fields, h, s, j)
    ensures Number(h[..j]) == Number(h)
  {
    forall k | j <= k < |h| ensures !Is(h[k].command, 'M') {
      assert k == j || !EndsPending(h[k], s);
    }
    NumberStays(h, j);
  }

  /** What MAIL holds was defined one number before the MAIL frame that consumed it. */
  lemma MailHeldInMessage(fields: seq<Field>, h: seq<Frame>, s: Stage, i: nat, j: nat)
    requires MessageStage(s) && Is(s, 'M') && Lasting(fields, h, s, i, j)
    ensures Number(h[..j]) + 1 == Run(fields, h).message
  {
    HeldInMessage(fields, h, s, i, j);
    WaitingInMessage(fields, h[..i], s, j);
    NumberNext(h, i);
    assert h[..i][..j] == h[..j];
  }

  lemma NumberNext(h: seq<Frame>, i: nat)
    requires i < |h|
    ensures Number(h[..i + 1]) == Number(h[..i]) + if Is(h[i].command, 'M') then 1 else 0
  {
    assert h[..i + 1][..i] == h[..i] && h[..i + 1][i] == h[i];
  }

  lemma BeforeNumber(fields: seq<Field>, st: State, f: Frame)
    ensures Before(fields, st, f).message == st.message + if Is(f.command, 'M') then 1 else 0
  {
  }

  /**
   * Values of one message never show under a later message number: whatever a snapshot shows for a message
   * stage was defined under the number the snapshot carries; for MAIL, whose frame begins the message,
   * it was defined right before that number began.
   */
  lemma NoValueCrossesMessages(fields: seq<Field>, h: seq<Frame>, f: Frame, s: Stage, j: nat)
    requires MessageStage(s) && ShownAt(fields, h, f, s, j)
    ensures Number(h[..j]) + (if Is(s, 'M') then 1 else 0) == Before(fields, Run(fields, h), f).message
  {
    BeforeNumber(fields, Run(fields, h), f);
    MessageIsNumber(fields, h);
    if Consumes(f, s) {
      WaitingInMessage(fields, h, s, j);
    } else {
      var i :| 0 <= i < |h| && Lasting(fields, h, s, i, j);
      if Is(s, 'M') {
        MailHeldInMessage(fields, h, s, i, j);
      } else {
        HeldInMessage(fields, h, s, i, j);
      }
    }
  }

  lemma NoMailSince(fields: seq<Field>, h: seq<Frame>, s: Stage, i: nat, j: nat)
    requires MessageStage(s) && !Is(s, 'M') && Lasting(fields, h, s, i, j)
    ensures j < |h| && forall k :: j <= k < |h| ==> !Is(h[k].command, 'M')
  {
    forall k | j <= k < |h| ensures !Is(h[k].command, 'M') {
      if k < i {
        assert h[..i][k] == h[k];
        assert k == j || !EndsPending(h[..i][k], s);
      } else if k > i {
        assert !EndsActive(h[k], s);
      }
    }
  }

  // ---------- the mutable object ----------

  class MacroState {
    const fields: seq<Field>
    var pending: map<Stage, Values>
    var active: map<Stage, Values>
    var message: nat

    function View(): State
      reads this
    {
      State(pending, active, message)
    }

    constructor (fields: seq<Field>)
      ensures View() == START && this.fields == fields
    {
      this.fields := fields;
      pending, active, message := map[], map[], 0;
    }

    method ObserveFrame(f: Frame) returns (attrs: seq<Attr<bytes>>)
      modifies this
      ensures View() == Observe(fields, old(View()), f)
      ensures attrs == Snapshot(fields, Before(fields, old(View()), f))
    {
      if Is(f.command, 'D') {
        DefineStage(f.payload);
        attrs := TakeSnapshot();
        return;
      }
      if Is(f.command, 'C') {
        var kept := Get(pending, f.command);
        active := map[];
        pending := map[f.command := kept];
      } else if Is(f.command, 'H') {
        active := active - {f.command};
        ClearMessageStages();
      } else if Is(f.command, 'M') {
        var kept := Get(pending, f.command);
        ClearMessageStages();
        pending := pending[f.command := kept];
        message := message + 1;
      }
      if IsStage(f.command) {
        active := active[f.command := Get(pending, f.command)];
        pending := pending - {f.command};
      }
      attrs := TakeSnapshot();
      if EndsMessage(f) {
        ClearMessageStages();
      } else if Is(f.command, 'K') || Is(f.command, 'Q') {
        active := map[];
        pending := map[];
      }
    }

    method ClearMessageStages()
      modifies this
      ensures View() == ClearMessage(old(View()))
    {
      var i := 0;
      WithoutOneMore(active, 0);
      WithoutOneMore(pending, 0);
      while i < |MESSAGE_STAGES|
        invariant 0 <= i <= |MESSAGE_STAGES|
        invariant View() == old(View()).(active := Without(old(active), MESSAGE_STAGES[..i]))
      {
        WithoutOneMore(old(active), i);
        active := active - {MESSAGE_STAGES[i]};
        i := i + 1;
      }
      assert MESSAGE_STAGES[..i] == MESSAGE_STAGES;
      i := 0;
      while i < |MESSAGE_STAGES|
        invariant 0 <= i <= |MESSAGE_STAGES|
        invariant View() == old(View()).(active := Without(old(active), MESSAGE_STAGES), pending := Without(old(pending), MESSAGE_STAGES[..i]))
      {
        WithoutOneMore(old(pending), i);
        pending := pending - {MESSAGE_STAGES[i]};
        i := i + 1;
      }
      assert MESSAGE_STAGES[..i] == MESSAGE_STAGES;
    }

    method DefineStage(payload: bytes)
      modifies this
      ensures View() == Define(fields, old(View()), payload)
    {
      if payload == [] {
        pending, active := map[], map[];
        return;
      }
      var stage := payload[0];
      pending, active := pending - {stage}, active - {stage};
      if !IsStage(stage) || |payload| > MAX_DEFINITION {
        return;
      }
      var pairs := Split(payload[1..], 0);
      if pairs[|pairs| - 1] != [] || |pairs| % 2 != 1 {
        return;
      }
      var values := ParsePairs(pairs);
      if values.Some? {
        pending := pending[stage := values.value];
      }
    }

    method ParsePairs(pairs: seq<bytes>) returns (result: Option<Values>)
      ensures result == Pairs(fields, pairs, 0, map[], 0)
    {
      var values: Values := map[];
      var total, i := 0, 0;
      while i + 1 < |pairs|
        invariant 0 <= i && 0 <= total
        invariant Pairs(fields, pairs, 0, map[], 0) == Pairs(fields, pairs, i, values, total)
      {
        var name, value := MacroName(pairs[i]), pairs[i + 1];
        if name == [] {
          return None;
        }
        if Usable(fields, name, value) {
          total := total + |value|;
          if total > BUDGET {
            return None;
          }
          values := values[name := value];
        }
        i := i + 2;
      }
      result := Some(values);
    }

    method TakeSnapshot() returns (attrs: seq<Attr<bytes>>)
      ensures attrs == Snapshot(fields, View())
    {
      var values: Values := map[];
      var i := 0;
      while i < |STAGES|
        invariant 0 <= i <= |STAGES|
        invariant values == Shown(active, STAGES[..i])
      {
        values := values + Get(active, STAGES[i] as int);
        assert STAGES[..i + 1][..i] == STAGES[..i];
        i := i + 1;
      }
      assert STAGES[..i] == STAGES;
      attrs := SelectAttrs(values);
    }

    /** The values of the selected fields, in field order, within the budget. */
    method SelectAttrs(values: Values) returns (attrs: seq<Attr<bytes>>)
      ensures attrs == Attrs(fields, values, 0)
    {
      attrs := [];
      var total, i := 0, 0;
      assert fields[0..] == fields;
      while i < |fields|
        invariant 0 <= i <= |fields| && 0 <= total
        invariant attrs + Attrs(fields[i..], values, total) == Attrs(fields, values, 0)
      {
        var name := MacroName(fields[i].macro);
        var value := if name in values then values[name] else [];
        ghost var before := attrs;
        if value != [] && total + |value| <= BUDGET {
          total := total + |value|;
          attrs := attrs + [Attr(fields[i].alias, value)];
          Associative(before, [Attr(fields[i].alias, value)], Attrs(fields[i + 1..], values, total));
        }
        assert fields[i..][1..] == fields[i + 1..];
        i := i + 1;
      }
      assert attrs + [] == attrs;
    }
  }
}
