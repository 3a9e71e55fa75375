/** The recursive JSON comparison (internal/compare/json.go) on parsed values. */
module JsonCompare {
  import opened Common
  import opened GoText
  import opened JsonPaths
  import opened JsonValues

  type Json = Value<string>

  // ---------- values ----------

  predicate Container(j: Json) {
    j.Arr? || j.Obj?
  }

  predicate SameKind(p: Json, s: Json) {
    (p.Arr? && s.Arr?) || (p.Obj? && s.Obj?)
  }

  predicate Fits(j: Json, step: Step) {
    (j.Arr? && step.Element?) || (j.Obj? && step.Member?)
  }

  /** `primary[key]` and `sliceValue`: missing parts are nil. */
  function Child(j: Json, step: Step): Json {
    match j
    case Obj(m) => if step.Member? && step.key in m then m[step.key] else Null
    case Arr(e) => if step.Element? && step.index < |e| then e[step.index] else Null
    case _ => Null
  }

  function At(j: Json, location: Location): Json
    decreases |location|
  {
    if location == [] then j else At(Child(j, location[0]), location[1..])
  }

  function Trim(elems: seq<Json>): seq<Json> {
    if elems != [] && elems[|elems| - 1].Null? then Trim(elems[..|elems| - 1]) else elems
  }

  /** Null members and trailing null elements dropped, at every level. */
  function Norm(j: Json): Json {
    match j
    case Obj(m) => Obj(map k | k in m && !m[k].Null? :: Norm(m[k]))
    case Arr(e) => Arr(Trim(seq(|e|, i requires 0 <= i < |e| => Norm(e[i]))))
    case _ => j
  }

  ghost function MaxOf(s: set<nat>): (m: nat)
    ensures forall x :: x in s ==> x <= m
  {
    if s == {} then 0
    else
      var x :| x in s;
      var m := MaxOf(s - {x});
      assert s == (s - {x}) + {x};
      if m < x then x else m
  }

  ghost function Depth(j: Json): (d: nat)
    ensures j.Obj? ==> forall k :: k in j.members ==> Depth(j.members[k]) < d
    ensures j.Arr? ==> forall i :: 0 <= i < |j.elems| ==> Depth(j.elems[i]) < d
  {
    match j
    case Obj(m) =>
      var depths := set k | k in m :: Depth(m[k]);
      assert forall k :: k in m ==> Depth(m[k]) in depths;
      1 + MaxOf(depths)
    case Arr(e) =>
      var depths := set i | 0 <= i < |e| :: Depth(e[i]);
      assert forall i :: 0 <= i < |e| ==> Depth(e[i]) in depths;
      1 + MaxOf(depths)
    case _ => 0
  }

  lemma ChildDepth(j: Json, step: Step)
    requires Container(j)
    ensures Depth(Child(j, step)) < Depth(j)
  {
  }

  // ---------- equality of normal forms ----------

  predicate Equivalent(p: Json, s: Json) {
    Norm(p) == Norm(s)
  }

  function PaddedAt(elems: seq<Json>, i: nat): Json {
    if i < |elems| then elems[i] else Null
  }

  lemma {:induction false} TrimKeeps(elems: seq<Json>)
    ensures forall i: nat :: PaddedAt(Trim(elems), i) == PaddedAt(elems, i)
    ensures Trim(elems) != [] ==> !Trim(elems)[|Trim(elems)| - 1].Null?
  {
    if elems != [] && elems[|elems| - 1].Null? {
      TrimKeeps(elems[..|elems| - 1]);
      forall i: nat ensures PaddedAt(elems[..|elems| - 1], i) == PaddedAt(elems, i) { }
    }
  }

  lemma TrimLength(a: seq<Json>, b: seq<Json>)
    requires forall i: nat :: PaddedAt(a, i) == PaddedAt(b, i)
    requires b != [] ==> !b[|b| - 1].Null?
    ensures |b| <= |a|
  {
    if b != [] {
      assert PaddedAt(a, |b| - 1) == PaddedAt(b, |b| - 1);
    }
  }

  lemma TrimEqual(a: seq<Json>, b: seq<Json>)
    ensures Trim(a) == Trim(b) <==> forall i: nat :: PaddedAt(a, i) == PaddedAt(b, i)
  {
    TrimKeeps(a);
    TrimKeeps(b);
    if Trim(a) == Trim(b) {
      forall i: nat ensures PaddedAt(a, i) == PaddedAt(b, i) {
        assert PaddedAt(Trim(a), i) == PaddedAt(Trim(b), i);
      }
    } else if forall i: nat :: PaddedAt(a, i) == PaddedAt(b, i) {
      var x, y := Trim(a), Trim(b);
      assert forall i: nat :: PaddedAt(x, i) == PaddedAt(y, i);
      TrimLength(x, y);
      TrimLength(y, x);
      forall i | 0 <= i < |x| ensures x[i] == y[i] {
        assert PaddedAt(x, i) == PaddedAt(y, i);
      }
    }
  }

  lemma NormNull(j: Json)
    ensures Norm(j).Null? <==> j.Null?
  {
  }

  /** Two arrays or two objects are equivalent exactly when all their children are. */
  /** The same step leads to equivalent values. */
  predicate Alike(p: Json, s: Json, step: Step) {
    Equivalent(Child(p, step), Child(s, step))
  }

  lemma EquivalentChildren(p: Json, s: Json)
    requires SameKind(p, s)
    ensures Equivalent(p, s) <==> forall step :: Alike(p, s, step)
  {
    if p.Obj? {
      ObjectChildren(p.members, s.members);
    } else {
      ArrayChildren(p.elems, s.elems);
    }
  }

  function NormElems(e: seq<Json>): seq<Json> {
    seq(|e|, i requires 0 <= i < |e| => Norm(e[i]))
  }

  lemma NormElemsAt(e: seq<Json>, i: nat)
    ensures PaddedAt(NormElems(e), i) == Norm(Child(Arr(e), Element(i)))
  {
  }

  lemma ArrayChildren(a: seq<Json>, b: seq<Json>)
    ensures Equivalent(Arr(a), Arr(b)) <==> forall step :: Alike(Arr(a), Arr(b), step)
  {
    TrimEqual(NormElems(a), NormElems(b));
    assert Norm(Arr(a)) == Arr(Trim(NormElems(a))) && Norm(Arr(b)) == Arr(Trim(NormElems(b)));
    if Equivalent(Arr(a), Arr(b)) {
      forall step ensures Alike(Arr(a), Arr(b), step) {
        if step.Element? {
          NormElemsAt(a, step.index);
          NormElemsAt(b, step.index);
        }
      }
    } else {
      var i: nat :| PaddedAt(NormElems(a), i) != PaddedAt(NormElems(b), i);
      NormElemsAt(a, i);
      NormElemsAt(b, i);
      assert !Alike(Arr(a), Arr(b), Element(i));
    }
  }

  function NormMembers(m: map<string, Json>): map<string, Json> {
    map k | k in m && !m[k].Null? :: Norm(m[k])
  }

  lemma NormMemberAt(m: map<string, Json>, key: string)
    ensures (if key in NormMembers(m) then NormMembers(m)[key] else Null) == Norm(Child(Obj(m), Member(key)))
    ensures key in NormMembers(m) ==> !NormMembers(m)[key].Null?
  {
  }

  lemma ObjectChildren(a: map<string, Json>, b: map<string, Json>)
    ensures Equivalent(Obj(a), Obj(b)) <==> forall step :: Alike(Obj(a), Obj(b), step)
  {
    var x, y := NormMembers(a), NormMembers(b);
    assert Norm(Obj(a)) == Obj(x) && Norm(Obj(b)) == Obj(y);
    if x == y {
      forall step ensures Alike(Obj(a), Obj(b), step) {
        if step.Member? {
          NormMemberAt(a, step.key);
          NormMemberAt(b, step.key);
        }
      }
    }
    if forall step :: Alike(Obj(a), Obj(b), step) {
      forall k ensures (k in x <==> k in y) && (k in x && k in y ==> x[k] == y[k]) {
        NormMemberAt(a, k);
        NormMemberAt(b, k);
        assert Alike(Obj(a), Obj(b), Member(k));
      }
      assert x == y;
    }
  }

  // ---------- sorted key unions ----------

  /** `unionKeys`: whatever order the two maps are enumerated in, the result is the same. */
  method UnionKeys(primary: map<string, Json>, shadow: map<string, Json>) returns (keys: seq<string>)
    ensures keys == SortedKeys(primary.Keys + shadow.Keys)
  {
    keys := [];
    var seen: set<string> := {};
    var left := primary.Keys;
    while left != {}
      invariant left <= primary.Keys
      invariant Distinct(keys)
      invariant forall k :: k in keys <==> k in primary.Keys - left
      invariant seen == primary.Keys - left
      decreases left
    {
      var key :| key in left;
      left := left - {key};
      if key !in seen {
        seen := seen + {key};
        keys := keys + [key];
      }
    }
    left := shadow.Keys;
    while left != {}
      invariant left <= shadow.Keys
      invariant Distinct(keys)
      invariant forall k :: k in keys <==> k in seen
      invariant seen == primary.Keys + (shadow.Keys - left)
      decreases left
    {
      var key :| key in left;
      left := left - {key};
      if key !in seen {
        seen := seen + {key};
        keys := keys + [key];
      }
    }
    SortStringsSorts(keys);
    SortedUnique(SortStrings(keys), SortedKeys(primary.Keys + shadow.Keys));
    keys := SortStrings(keys);
  }

  // ---------- the differences ----------

  datatype Diff = Diff(location: Location, primary: Json, shadow: Json)

  function MemberSteps(keys: seq<string>): seq<Step> {
    seq(|keys|, i requires 0 <= i < |keys| => Member(keys[i]))
  }

  function ElementSteps(n: nat): seq<Step> {
    seq(n, i requires 0 <= i < n => Element(i))
  }

  function MaxLen(a: nat, b: nat): nat {
    if b > a then b else a
  }

  /** The children visited, in order. */
  ghost function Steps(p: Json, s: Json): seq<Step>
    requires SameKind(p, s)
  {
    if p.Obj? then MemberSteps(SortedKeys(p.members.Keys + s.members.Keys))
    else ElementSteps(MaxLen(|p.elems|, |s.elems|))
  }

  function Prefixed(step: Step, diffs: seq<Diff>): seq<Diff> {
    seq(|diffs|, i requires 0 <= i < |diffs| => diffs[i].(location := [step] + diffs[i].location))
  }

  ghost function Diffs(p: Json, s: Json): seq<Diff>
    decreases Depth(p) + Depth(s), 1, 0
  {
    if p.Null? && s.Null? then []
    else if p.Null? || s.Null? then [Diff([], p, s)]
    else if Container(p) then
      if SameKind(p, s) then StepDiffs(Steps(p, s), p, s) else [Diff([], p, s)]
    else if p != s then [Diff([], p, s)]
    else []
  }

  ghost function StepDiffs(steps: seq<Step>, p: Json, s: Json): seq<Diff>
    requires SameKind(p, s)
    decreases Depth(p) + Depth(s), 0, |steps|
  {
    if steps == [] then []
    else
      ChildDepth(p, steps[0]);
      ChildDepth(s, steps[0]);
      Prefixed(steps[0], Diffs(Child(p, steps[0]), Child(s, steps[0]))) + StepDiffs(steps[1..], p, s)
  }

  lemma StepsCover(p: Json, s: Json, step: Step)
    requires SameKind(p, s)
    ensures step in Steps(p, s) || (Child(p, step).Null? && Child(s, step).Null?)
    ensures step in Steps(p, s) ==> Fits(p, step)
  {
    if p.Obj? && step.Member? {
      var keys := SortedKeys(p.members.Keys + s.members.Keys);
      if step.key in keys {
        var i :| 0 <= i < |keys| && keys[i] == step.key;
        assert MemberSteps(keys)[i] == step;
      }
    } else if p.Arr? && step.Element? {
      var n := MaxLen(|p.elems|, |s.elems|);
      if step.index < n {
        assert ElementSteps(n)[step.index] == step;
      }
    }
  }

  predicate DistinctSteps(steps: seq<Step>) {
    forall i, j :: 0 <= i < j < |steps| ==> steps[i] != steps[j]
  }

  lemma StepsDistinct(p: Json, s: Json)
    requires SameKind(p, s)
    ensures DistinctSteps(Steps(p, s))
  {
    if p.Obj? {
      var keys := SortedKeys(p.members.Keys + s.members.Keys);
      forall i, j | 0 <= i < j < |keys| ensures keys[i] != keys[j] {
        BelowTotal(keys[i], keys[j]);
      }
    }
  }

  // ---------- exactness ----------

  /** The comparison reports nothing exactly for equivalent values. */
  lemma {:induction false} EmptyIffEquivalent(p: Json, s: Json)
    ensures Diffs(p, s) == [] <==> Equivalent(p, s)
    decreases Depth(p) + Depth(s), 1, 0
  {
    NormNull(p);
    NormNull(s);
    if SameKind(p, s) {
      StepsEmptyIff(Steps(p, s), p, s);
      AlikeIffEquivalent(p, s);
    }
  }

  lemma AlikeIffEquivalent(p: Json, s: Json)
    requires SameKind(p, s)
    ensures AllAlike(Steps(p, s), p, s) <==> Equivalent(p, s)
  {
    EquivalentChildren(p, s);
    if AllAlike(Steps(p, s), p, s) {
      forall step ensures Alike(p, s, step) {
        StepsCover(p, s, step);
        if step in Steps(p, s) {
          var i :| 0 <= i < |Steps(p, s)| && Steps(p, s)[i] == step;
          assert Alike(p, s, Steps(p, s)[i]);
        }
      }
    }
  }

  predicate AllAlike(steps: seq<Step>, p: Json, s: Json) {
    forall i :: 0 <= i < |steps| ==> Alike(p, s, steps[i])
  }

  lemma AllAlikeCons(steps: seq<Step>, p: Json, s: Json)
    requires steps != []
    ensures AllAlike(steps, p, s) == (Alike(p, s, steps[0]) && AllAlike(steps[1..], p, s))
  {
    assert steps == [steps[0]] + steps[1..];
  }

  lemma {:induction false} StepsEmptyIff(steps: seq<Step>, p: Json, s: Json)
    requires SameKind(p, s)
    ensures StepDiffs(steps, p, s) == [] <==> AllAlike(steps, p, s)
    decreases Depth(p) + Depth(s), 0, |steps|
  {
    if steps != [] {
      ChildDepth(p, steps[0]);
      ChildDepth(s, steps[0]);
      EmptyIffEquivalent(Child(p, steps[0]), Child(s, steps[0]));
      StepsEmptyIff(steps[1..], p, s);
      AllAlikeCons(steps, p, s);
    }
  }

  /** A reported difference carries the two values found at its location, and they are not equivalent. */
  predicate Honest(p: Json, s: Json, d: Diff) {
    d.primary == At(p, d.location) && d.shadow == At(s, d.location) && !Equivalent(d.primary, d.shadow)
  }

  lemma {:induction false} EveryDiffHonest(p: Json, s: Json)
    ensures forall i :: 0 <= i < |Diffs(p, s)| ==> Honest(p, s, Diffs(p, s)[i])
    decreases Depth(p) + Depth(s), 1, 0
  {
    NormNull(p);
    NormNull(s);
    if SameKind(p, s) {
      StepsHonest(Steps(p, s), p, s);
    }
  }

  lemma {:induction false} StepsHonest(steps: seq<Step>, p: Json, s: Json)
    requires SameKind(p, s)
    ensures forall i :: 0 <= i < |StepDiffs(steps, p, s)| ==>
              && Honest(p, s, StepDiffs(steps, p, s)[i])
              && StepDiffs(steps, p, s)[i].location != []
              && StepDiffs(steps, p, s)[i].location[0] in steps
    decreases Depth(p) + Depth(s), 0, |steps|
  {
    if steps != [] {
      ChildDepth(p, steps[0]);
      ChildDepth(s, steps[0]);
      var inner := Diffs(Child(p, steps[0]), Child(s, steps[0]));
      EveryDiffHonest(Child(p, steps[0]), Child(s, steps[0]));
      StepsHonest(steps[1..], p, s);
      forall i | 0 <= i < |inner| ensures Honest(p, s, Prefixed(steps[0], inner)[i]) {
        assert Honest(Child(p, steps[0]), Child(s, steps[0]), inner[i]);
        var location := [steps[0]] + inner[i].location;
        assert location[1..] == inner[i].location;
      }
    }
  }

  /** No reported location is equal to, or lies beneath, another one. */
  predicate Antichain(diffs: seq<Diff>) {
    forall i, j :: 0 <= i < |diffs| && 0 <= j < |diffs| && i != j ==> !(diffs[i].location <= diffs[j].location)
  }

  lemma {:induction false} DiffsAntichain(p: Json, s: Json)
    ensures Antichain(Diffs(p, s))
    decreases Depth(p) + Depth(s), 1, 0
  {
    if SameKind(p, s) {
      StepsDistinct(p, s);
      StepsAntichain(Steps(p, s), p, s);
    }
  }

  lemma {:induction false} StepsAntichain(steps: seq<Step>, p: Json, s: Json)
    requires SameKind(p, s) && DistinctSteps(steps)
    ensures Antichain(StepDiffs(steps, p, s))
    decreases Depth(p) + Depth(s), 0, |steps|
  {
    if steps != [] {
      ChildDepth(p, steps[0]);
      ChildDepth(s, steps[0]);
      var inner := Diffs(Child(p, steps[0]), Child(s, steps[0]));
      DiffsAntichain(Child(p, steps[0]), Child(s, steps[0]));
      StepsAntichain(steps[1..], p, s);
      StepsHonest(steps[1..], p, s);
      BelowAntichain(steps[0], inner);
      assert steps[0] !in steps[1..];
      JoinAntichains(steps[0], Prefixed(steps[0], inner), StepDiffs(steps[1..], p, s));
    }
  }

  lemma BelowAntichain(step: Step, diffs: seq<Diff>)
    requires Antichain(diffs)
    ensures Antichain(Prefixed(step, diffs))
  {
    var moved := Prefixed(step, diffs);
    forall i, j | 0 <= i < |moved| && 0 <= j < |moved| && i != j
      ensures !(moved[i].location <= moved[j].location)
    {
      PrefixTail(step, diffs[i].location, diffs[j].location);
    }
  }

  lemma PrefixTail(step: Step, a: Location, b: Location)
    ensures [step] + a <= [step] + b ==> a <= b
  {
    assert ([step] + a)[1..] == a && ([step] + b)[1..] == b;
  }

  lemma JoinAntichains(step: Step, a: seq<Diff>, b: seq<Diff>)
    requires Antichain(a) && Antichain(b)
    requires forall i :: 0 <= i < |a| ==> a[i].location != [] && a[i].location[0] == step
    requires forall i :: 0 <= i < |b| ==> b[i].location != [] && b[i].location[0] != step
    ensures Antichain(a + b)
  {
  }

  // ---------- replacing the differing parts ----------

  /** `j` with the child at `step` replaced; an array grows with nulls when needed. */
  function Put(j: Json, step: Step, v: Json): Json
    requires Fits(j, step)
  {
    match j
    case Obj(m) => Obj(m[step.key := v])
    case Arr(e) =>
      Arr(seq(MaxLen(|e|, step.index + 1), i requires 0 <= i => if i == step.index then v else PaddedAt(e, i)))
  }

  function Replace(j: Json, location: Location, v: Json): Json
    decreases |location|
  {
    if location == [] then v
    else if !Fits(j, location[0]) then j
    else Put(j, location[0], Replace(Child(j, location[0]), location[1..], v))
  }

  /** All reported locations replaced by shadow's values, one after the other. */
  function ApplyAll(j: Json, diffs: seq<Diff>): Json
    decreases |diffs|
  {
    if diffs == [] then j else ApplyAll(Replace(j, diffs[0].location, diffs[0].shadow), diffs[1..])
  }

  lemma PutChild(j: Json, step: Step, v: Json, other: Step)
    requires Fits(j, step)
    ensures SameKind(j, Put(j, step, v))
    ensures Child(Put(j, step, v), other) == if other == step then v else Child(j, other)
  {
  }

  lemma {:induction false} ApplyAppend(j: Json, a: seq<Diff>, b: seq<Diff>)
    ensures ApplyAll(j, a + b) == ApplyAll(ApplyAll(j, a), b)
    decreases |a|
  {
    if a == [] {
      assert a + b == b;
    } else {
      var c := a + b;
      assert c[0] == a[0];
      assert c[1..] == a[1..] + b;
      ApplyAppend(Replace(j, a[0].location, a[0].shadow), a[1..], b);
    }
  }

  /** Patching beneath one child changes that child only. */
  lemma {:induction false} ApplyBelow(j: Json, step: Step, diffs: seq<Diff>)
    requires Fits(j, step)
    ensures SameKind(j, ApplyAll(j, Prefixed(step, diffs)))
    ensures forall other :: Child(ApplyAll(j, Prefixed(step, diffs)), other) ==
                            if other == step then ApplyAll(Child(j, step), diffs) else Child(j, other)
    decreases |diffs|
  {
    if diffs != [] {
      var d := diffs[0];
      var location := [step] + d.location;
      assert location[1..] == d.location;
      var child := Replace(Child(j, step), d.location, d.shadow);
      var k := Put(j, step, child);
      assert Replace(j, location, d.shadow) == k;
      forall other ensures Child(k, other) == if other == step then child else Child(j, other) {
        PutChild(j, step, child, other);
      }
      PutChild(j, step, child, step);
      assert Prefixed(step, diffs)[1..] == Prefixed(step, diffs[1..]);
      ApplyBelow(k, step, diffs[1..]);
    }
  }

  /** Replacing every reported location in primary by shadow's value gives a value equivalent to shadow. */
  lemma {:induction false} PatchReachesShadow(p: Json, s: Json)
    ensures Equivalent(ApplyAll(p, Diffs(p, s)), s)
    decreases Depth(p) + Depth(s), 1, 0
  {
    if SameKind(p, s) {
      var steps := Steps(p, s);
      StepsDistinct(p, s);
      forall step | step in steps ensures Fits(p, step) {
        StepsCover(p, s, step);
      }
      PatchSteps(p, steps, p, s);
      var r := ApplyAll(p, StepDiffs(steps, p, s));
      EquivalentChildren(r, s);
      forall step ensures Alike(r, s, step) {
        StepsCover(p, s, step);
      }
    } else if Diffs(p, s) != [] {
      assert ApplyAll(p, [Diff([], p, s)]) == ApplyAll(s, []);
    }
  }

  lemma {:induction false} PatchSteps(j: Json, steps: seq<Step>, p: Json, s: Json)
    requires SameKind(p, s) && SameKind(j, p) && DistinctSteps(steps)
    requires forall step :: step in steps ==> Fits(p, step) && Child(j, step) == Child(p, step)
    ensures
      var r := ApplyAll(j, StepDiffs(steps, p, s));
      SameKind(r, p) && forall step :: if step in steps then Alike(r, s, step) else Child(r, step) == Child(j, step)
    decreases Depth(p) + Depth(s), 0, |steps|
  {
    if steps != [] {
      var first, rest := steps[0], steps[1..];
      ChildDepth(p, first);
      ChildDepth(s, first);
      var inner := Diffs(Child(p, first), Child(s, first));
      PatchReachesShadow(Child(p, first), Child(s, first));
      ApplyBelow(j, first, inner);
      var k := ApplyAll(j, Prefixed(first, inner));
      ApplyAppend(j, Prefixed(first, inner), StepDiffs(rest, p, s));
      assert steps == [first] + rest && first !in rest;
      PatchSteps(k, rest, p, s);
    }
  }

  // ---------- symmetry ----------

  function Swapped(diffs: seq<Diff>): seq<Diff> {
    seq(|diffs|, i requires 0 <= i < |diffs| => Diff(diffs[i].location, diffs[i].shadow, diffs[i].primary))
  }

  /** Exchanging the two sides exchanges the two values of every difference and nothing else. */
  lemma {:induction false} DiffsSymmetric(p: Json, s: Json)
    ensures Diffs(s, p) == Swapped(Diffs(p, s))
    decreases Depth(p) + Depth(s), 1, 0
  {
    if SameKind(p, s) {
      StepsSymmetric(Steps(p, s), p, s);
      if p.Obj? {
        assert p.members.Keys + s.members.Keys == s.members.Keys + p.members.Keys;
      }
    }
  }

  lemma {:induction false} StepsSymmetric(steps: seq<Step>, p: Json, s: Json)
    requires SameKind(p, s)
    ensures StepDiffs(steps, s, p) == Swapped(StepDiffs(steps, p, s))
    decreases Depth(p) + Depth(s), 0, |steps|
  {
    if steps != [] {
      ChildDepth(p, steps[0]);
      ChildDepth(s, steps[0]);
      var inner := Diffs(Child(p, steps[0]), Child(s, steps[0]));
      DiffsSymmetric(Child(p, steps[0]), Child(s, steps[0]));
      StepsSymmetric(steps[1..], p, s);
      SwappedPrefixed(steps[0], inner);
      SwappedAppend(Prefixed(steps[0], inner), StepDiffs(steps[1..], p, s));
    }
  }

  lemma SwappedPrefixed(step: Step, diffs: seq<Diff>)
    ensures Swapped(Prefixed(step, diffs)) == Prefixed(step, Swapped(diffs))
  {
  }

  lemma SwappedAppend(a: seq<Diff>, b: seq<Diff>)
    ensures Swapped(a + b) == Swapped(a) + Swapped(b)
  {
  }

  // ---------- the text of the differences ----------

  /** `JSONPathDiff`, with the two values in place of their JSON text. */
  datatype PathDiff = PathDiff(path: string, primary: Json, shadow: Json)

  function Texts(base: Location, diffs: seq<Diff>): seq<PathDiff> {
    seq(|diffs|, i requires 0 <= i < |diffs| => PathDiff(PathText(base + diffs[i].location), diffs[i].primary, diffs[i].shadow))
  }

  /** No two differences of one comparison have the same path text. */
  lemma PathTextsDistinct(p: Json, s: Json, i: nat, j: nat)
    requires i < |Diffs(p, s)| && j < |Diffs(p, s)| && i != j
    ensures Texts([], Diffs(p, s))[i].path != Texts([], Diffs(p, s))[j].path
  {
    var a, b := Diffs(p, s)[i].location, Diffs(p, s)[j].location;
    DiffsAntichain(p, s);
    assert !(a <= b);
    assert [] + a == a && [] + b == b;
    if PathText(a) == PathText(b) {
      PathsUniquelyDecodable(a, b);
    }
  }

  lemma TextsBelow(base: Location, step: Step, diffs: seq<Diff>)
    ensures Texts(base, Prefixed(step, diffs)) == Texts(base + [step], diffs)
  {
    forall i | 0 <= i < |diffs|
      ensures base + ([step] + diffs[i].location) == base + [step] + diffs[i].location
    {
    }
  }

  lemma TextsAppend(base: Location, a: seq<Diff>, b: seq<Diff>)
    ensures Texts(base, a + b) == Texts(base, a) + Texts(base, b)
  {
  }

  lemma {:induction false} StepDiffsSnoc(steps: seq<Step>, step: Step, p: Json, s: Json)
    requires SameKind(p, s)
    ensures StepDiffs(steps + [step], p, s) ==
            StepDiffs(steps, p, s) + Prefixed(step, Diffs(Child(p, step), Child(s, step)))
    decreases |steps|
  {
    var all := steps + [step];
    var last := Prefixed(step, Diffs(Child(p, step), Child(s, step)));
    if steps == [] {
      assert all[0] == step && all[1..] == [];
      assert StepDiffs(all, p, s) == last + [];
    } else {
      assert all[0] == steps[0];
      assert all[1..] == steps[1..] + [step];
      StepDiffsSnoc(steps[1..], step, p, s);
      Associative(Prefixed(steps[0], Diffs(Child(p, steps[0]), Child(s, steps[0]))), StepDiffs(steps[1..], p, s), last);
    }
  }

  /** `list` after the first `n` children have been compared. */
  ghost function Visited(list: seq<PathDiff>, base: Location, steps: seq<Step>, n: nat, p: Json, s: Json): seq<PathDiff>
    requires n <= |steps|
  {
    if n == 0 then list
    else Visited(list, base, steps, n - 1, p, s) + ChildTexts(base, steps[n - 1], p, s)
  }

  ghost function ChildTexts(base: Location, step: Step, p: Json, s: Json): seq<PathDiff> {
    Texts(base + [step], Diffs(Child(p, step), Child(s, step)))
  }

  lemma TextsSnoc(base: Location, steps: seq<Step>, step: Step, p: Json, s: Json)
    requires SameKind(p, s)
    ensures Texts(base, StepDiffs(steps + [step], p, s)) == Texts(base, StepDiffs(steps, p, s)) + ChildTexts(base, step, p, s)
  {
    var inner := Diffs(Child(p, step), Child(s, step));
    StepDiffsSnoc(steps, step, p, s);
    TextsAppend(base, StepDiffs(steps, p, s), Prefixed(step, inner));
    TextsBelow(base, step, inner);
  }

  lemma {:induction false} VisitedTexts(list: seq<PathDiff>, base: Location, steps: seq<Step>, n: nat, p: Json, s: Json)
    requires SameKind(p, s) && n <= |steps|
    ensures Visited(list, base, steps, n, p, s) == list + Texts(base, StepDiffs(steps[..n], p, s))
  {
    if n == 0 {
      assert list + [] == list;
    } else {
      VisitedTexts(list, base, steps, n - 1, p, s);
      TextsSnoc(base, steps[..n - 1], steps[n - 1], p, s);
      assert steps[..n] == steps[..n - 1] + [steps[n - 1]];
      Associative(list, Texts(base, StepDiffs(steps[..n - 1], p, s)), ChildTexts(base, steps[n - 1], p, s));
    }
  }

  lemma VisitAll(list: seq<PathDiff>, base: Location, p: Json, s: Json)
    requires SameKind(p, s)
    ensures Visited(list, base, Steps(p, s), |Steps(p, s)|, p, s) == list + Texts(base, Diffs(p, s))
  {
    VisitedTexts(list, base, Steps(p, s), |Steps(p, s)|, p, s);
    assert Steps(p, s)[..|Steps(p, s)|] == Steps(p, s);
  }

  /** The slice all recursive calls append to. */
  class DiffList {
    var list: seq<PathDiff>

    constructor ()
      ensures list == []
    {
      list := [];
    }
  }

  method CompareValues(path: string, ghost base: Location, primary: Json, shadow: Json, diffs: DiffList)
    requires path == PathText(base)
    modifies diffs
    ensures diffs.list == old(diffs.list) + Texts(base, Diffs(primary, shadow))
    decreases Depth(primary) + Depth(shadow), 1
  {
    assert base + [] == base;
    if primary.Null? && shadow.Null? {
      return;
    }
    if primary.Null? || shadow.Null? {
      AppendDiff(path, primary, shadow, diffs);
      return;
    }
    if primary.Obj? {
      CompareObject(path, base, primary, shadow, diffs);
    } else if primary.Arr? {
      CompareArray(path, base, primary, shadow, diffs);
    } else if primary != shadow {
      AppendDiff(path, primary, shadow, diffs);
    }
  }

  method AppendDiff(path: string, primary: Json, shadow: Json, diffs: DiffList)
    modifies diffs
    ensures diffs.list == old(diffs.list) + [PathDiff(path, primary, shadow)]
  {
    diffs.list := diffs.list + [PathDiff(path, primary, shadow)];
  }

  method CompareObject(path: string, ghost base: Location, primary: Json, shadow: Json, diffs: DiffList)
    requires path == PathText(base) && primary.Obj? && !shadow.Null?
    modifies diffs
    ensures diffs.list == old(diffs.list) + Texts(base, Diffs(primary, shadow))
    decreases Depth(primary) + Depth(shadow), 0
  {
    assert base + [] == base;
    if !shadow.Obj? {
      AppendDiff(path, primary, shadow, diffs);
      return;
    }
    var keys := UnionKeys(primary.members, shadow.members);
    ghost var steps, before := MemberSteps(keys), diffs.list;
    var i := 0;
    while i < |keys|
      invariant 0 <= i <= |keys|
      invariant diffs.list == Visited(before, base, steps, i, primary, shadow)
    {
      ChildDepth(primary, steps[i]);
      ChildDepth(shadow, steps[i]);
      AppendStep(base, keys[i], 0);
      CompareValues(AppendKey(path, keys[i]), base + [steps[i]],
                    Child(primary, Member(keys[i])), Child(shadow, Member(keys[i])), diffs);
      i := i + 1;
    }
    VisitAll(before, base, primary, shadow);
  }

  method CompareArray(path: string, ghost base: Location, primary: Json, shadow: Json, diffs: DiffList)
    requires path == PathText(base) && primary.Arr? && !shadow.Null?
    modifies diffs
    ensures diffs.list == old(diffs.list) + Texts(base, Diffs(primary, shadow))
    decreases Depth(primary) + Depth(shadow), 0
  {
    assert base + [] == base;
    if !shadow.Arr? {
      AppendDiff(path, primary, shadow, diffs);
      return;
    }
    var n := MaxLen(|primary.elems|, |shadow.elems|);
    ghost var steps, before := ElementSteps(n), diffs.list;
    var i := 0;
    while i < n
      invariant 0 <= i <= n
      invariant diffs.list == Visited(before, base, steps, i, primary, shadow)
    {
      ChildDepth(primary, steps[i]);
      ChildDepth(shadow, steps[i]);
      AppendStep(base, "", i);
      CompareValues(AppendIndex(path, i), base + [steps[i]],
                    Child(primary, Element(i)), Child(shadow, Element(i)), diffs);
      i := i + 1;
    }
    VisitAll(before, base, primary, shadow);
  }
}
