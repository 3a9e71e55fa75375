/** The check of alias-to-selector mappings on a YAML node graph (internal/config/json_log_fields.go). */
module YamlAlias {
  import opened Common

  datatype Kind = Document | Sequence | Mapping | Scalar | Alias

  datatype Tag = NullTag | StringTag | MergeTag | OtherTag

  /** A pointer to a node; `None` is nil. */
  type Ref = Option<nat>

  datatype Node = Node(kind: Kind, tag: Tag, content: seq<Ref>, target: Ref)

  type Graph = map<nat, Node>

  datatype YamlError =
    | CyclicAliases
    | CyclicScalar
    | ExpectedMapping
    | ExpectedString
    | BadAlias(cause: YamlError)
    | BadSelector(cause: YamlError)

  predicate Allocated(g: Graph, ref: Ref) {
    ref.Some? ==> ref.value in g
  }

  /** Pointers lead to nodes, and a mapping holds pairs whose keys are nodes. */
  predicate WellFormedNode(g: Graph, node: Node) {
    && Allocated(g, node.target)
    && (forall i :: 0 <= i < |node.content| ==> Allocated(g, node.content[i]))
    && (node.kind == Mapping ==>
          |node.content| % 2 == 0 && forall i :: 0 <= i < |node.content| && i % 2 == 0 ==> node.content[i].Some?)
  }

  predicate WellFormed(g: Graph) {
    forall n :: n in g ==> WellFormedNode(g, g[n])
  }

  predicate WellFormedRefs(g: Graph, refs: seq<Ref>) {
    forall i :: 0 <= i < |refs| ==> Allocated(g, refs[i])
  }

  predicate WellFormedPairs(g: Graph, refs: seq<Ref>) {
    WellFormedRefs(g, refs) && |refs| % 2 == 0 && forall i :: 0 <= i < |refs| && i % 2 == 0 ==> refs[i].Some?
  }

  // ---------- the walk ----------

  /** The error of `validateJSONAliasYAML`, if any. */
  function Validate(g: Graph, ref: Ref, visiting: set<nat>): Option<YamlError>
    requires WellFormed(g) && Allocated(g, ref)
    decreases g.Keys - visiting, 0, 0
  {
    if ref.None? || ref.value in visiting then Some(CyclicAliases)
    else
      var node := g[ref.value];
      assert WellFormedNode(g, node);
      var inside := visiting + {ref.value};
      match node.kind
      case Alias => Validate(g, node.target, inside)
      case Sequence => ValidateAll(g, node.content, inside)
      case Mapping => ValidatePairs(g, node.content, inside)
      case Scalar => if node.tag == NullTag then None else Some(ExpectedMapping)
      case Document => Some(ExpectedMapping)
  }

  function ValidateAll(g: Graph, refs: seq<Ref>, visiting: set<nat>): Option<YamlError>
    requires WellFormed(g) && WellFormedRefs(g, refs)
    decreases g.Keys - visiting, 1, |refs|
  {
    if refs == [] then None
    else
      var error := Validate(g, refs[0], visiting);
      if error.Some? then error else ValidateAll(g, refs[1..], visiting)
  }

  function ValidatePairs(g: Graph, refs: seq<Ref>, visiting: set<nat>): Option<YamlError>
    requires WellFormed(g) && WellFormedPairs(g, refs)
    decreases g.Keys - visiting, 1, |refs|
  {
    if refs == [] then None
    else
      var error := ValidatePair(g, refs[0], refs[1], visiting);
      if error.Some? then error else ValidatePairs(g, refs[2..], visiting)
  }

  function ValidatePair(g: Graph, key: Ref, value: Ref, visiting: set<nat>): Option<YamlError>
    requires WellFormed(g) && key.Some? && Allocated(g, key) && Allocated(g, value)
    decreases g.Keys - visiting, 0, 1
  {
    if g[key.value].tag == MergeTag then Validate(g, value, visiting)
    else
      var bad := ValidateString(g, key, visiting);
      if bad.Some? then Some(BadAlias(bad.value))
      else
        var error := ValidateString(g, value, visiting);
        if error.Some? then Some(BadSelector(error.value)) else None
  }

  /** The error of `validateYAMLString`, if any; only alias nodes count as visited here. */
  function ValidateString(g: Graph, ref: Ref, visiting: set<nat>): Option<YamlError>
    requires WellFormed(g) && Allocated(g, ref)
    decreases g.Keys - visiting, 0, 0
  {
    if ref.None? || ref.value in visiting then Some(CyclicScalar)
    else
      var node := g[ref.value];
      assert WellFormedNode(g, node);
      if node.kind == Alias then ValidateString(g, node.target, visiting + {ref.value})
      else if node.kind != Scalar || node.tag != StringTag then Some(ExpectedString)
      else None
  }

  // ---------- the walk in place ----------

  class Walk {
    const graph: Graph
    var visiting: set<nat>

    constructor (graph: Graph)
      ensures this.graph == graph && visiting == {}
    {
      this.graph := graph;
      visiting := {};
    }

    method ValidateJSONAliasYAML(node: Ref) returns (error: Option<YamlError>)
      requires WellFormed(graph) && Allocated(graph, node)
      modifies this
      ensures visiting == old(visiting)
      ensures error == Validate(graph, node, old(visiting))
      decreases graph.Keys - visiting, 0, 0
    {
      if node.None? || node.value in visiting {
        return Some(CyclicAliases);
      }
      ghost var outside := visiting;
      visiting := visiting + {node.value};
      var n := graph[node.value];
      assert WellFormedNode(graph, n);
      match n.kind {
        case Alias =>
          error := ValidateJSONAliasYAML(n.target);
        case Sequence =>
          var i := 0;
          error := None;
          assert n.content[0..] == n.content;
          while i < |n.content| && error.None?
            invariant 0 <= i <= |n.content| && visiting == outside + {node.value}
            invariant Validate(graph, node, outside) ==
                      if error.Some? then error else ValidateAll(graph, n.content[i..], visiting)
          {
            assert n.content[i..][1..] == n.content[i + 1..];
            error := ValidateJSONAliasYAML(n.content[i]);
            i := i + 1;
          }
        case Mapping =>
          error := ValidateJSONMappingYAML(n.content);
        case Scalar =>
          error := if n.tag == NullTag then None else Some(ExpectedMapping);
        case Document =>
          error := Some(ExpectedMapping);
      }
      visiting := visiting - {node.value};
    }

    method ValidateJSONMappingYAML(content: seq<Ref>) returns (error: Option<YamlError>)
      requires WellFormed(graph) && WellFormedPairs(graph, content)
      modifies this
      ensures visiting == old(visiting)
      ensures error == ValidatePairs(graph, content, old(visiting))
      decreases graph.Keys - visiting, 1, 0
    {
      var i := 0;
      assert content[0..] == content;
      while i < |content|
        invariant 0 <= i <= |content| && i % 2 == 0 && visiting == old(visiting)
        invariant ValidatePairs(graph, content, visiting) == ValidatePairs(graph, content[i..], visiting)
      {
        var key, value := content[i], content[i + 1];
        ghost var left := content[i..];
        assert left[0] == key && left[1] == value && left[2..] == content[i + 2..];
        if graph[key.value].tag == MergeTag {
          error := ValidateJSONAliasYAML(value);
          if error.Some? {
            return;
          }
          i := i + 2;
          continue;
        }
        error := ValidateYAMLString(key);
        if error.Some? {
          return Some(BadAlias(error.value));
        }
        error := ValidateYAMLString(value);
        if error.Some? {
          return Some(BadSelector(error.value));
        }
        i := i + 2;
      }
      error := None;
    }

    method ValidateYAMLString(node: Ref) returns (error: Option<YamlError>)
      requires WellFormed(graph) && Allocated(graph, node)
      modifies this
      ensures visiting == old(visiting)
      ensures error == ValidateString(graph, node, old(visiting))
      decreases graph.Keys - visiting, 0, 0
    {
      if node.None? || node.value in visiting {
        return Some(CyclicScalar);
      }
      var n := graph[node.value];
      assert WellFormedNode(graph, n);
      if n.kind == Alias {
        visiting := visiting + {node.value};
        error := ValidateYAMLString(n.target);
        visiting := visiting - {node.value};
        return;
      }
      if n.kind != Scalar || n.tag != StringTag {
        return Some(ExpectedString);
      }
      error := None;
    }
  }

  // ---------- what is accepted ----------

  /** Following aliases from here ends, within `d` nodes, at a string scalar. */
  predicate StringTree(g: Graph, ref: Ref, d: nat)
    decreases d
  {
    && ref.Some? && ref.value in g && d > 0
    && var node := g[ref.value];
    if node.kind == Alias then StringTree(g, node.target, d - 1) else node.kind == Scalar && node.tag == StringTag
  }

  /**
   * The graph unfolds from here to a tree of at most `d` levels: string-to-string mappings,
   * possibly with merges of such trees, sequences of such trees, and nulls.
   */
  predicate Tree(g: Graph, ref: Ref, d: nat)
    decreases d, 0
  {
    && ref.Some? && ref.value in g && d > 0
    && var node := g[ref.value];
    match node.kind
    case Alias => Tree(g, node.target, d - 1)
    case Sequence => forall i :: 0 <= i < |node.content| ==> Tree(g, node.content[i], d - 1)
    case Mapping => forall i :: 0 <= i < |node.content| / 2 ==> PairTree(g, node.content[2 * i], node.content[2 * i + 1], d - 1)
    case Scalar => node.tag == NullTag
    case Document => false
  }

  predicate PairTree(g: Graph, key: Ref, value: Ref, d: nat)
    decreases d, 1
  {
    && key.Some? && key.value in g
    && if g[key.value].tag == MergeTag then Tree(g, value, d) else StringTree(g, key, d) && StringTree(g, value, d)
  }

  lemma {:induction false} StringTreeUp(g: Graph, ref: Ref, d: nat)
    requires StringTree(g, ref, d)
    ensures StringTree(g, ref, d + 1)
    decreases d
  {
    if g[ref.value].kind == Alias {
      StringTreeUp(g, g[ref.value].target, d - 1);
    }
  }

  lemma {:induction false} TreeUp(g: Graph, ref: Ref, d: nat)
    requires Tree(g, ref, d)
    ensures Tree(g, ref, d + 1)
    decreases d, 0
  {
    var node := g[ref.value];
    match node.kind
    case Alias =>
      TreeUp(g, node.target, d - 1);
    case Sequence =>
      forall i | 0 <= i < |node.content| ensures Tree(g, node.content[i], d) {
        TreeUp(g, node.content[i], d - 1);
      }
    case Mapping =>
      forall i | 0 <= i < |node.content| / 2 ensures PairTree(g, node.content[2 * i], node.content[2 * i + 1], d) {
        PairTreeUp(g, node.content[2 * i], node.content[2 * i + 1], d - 1);
      }
    case _ =>
  }

  lemma PairTreeUp(g: Graph, key: Ref, value: Ref, d: nat)
    requires PairTree(g, key, value, d)
    ensures PairTree(g, key, value, d + 1)
    decreases d, 1
  {
    if g[key.value].tag == MergeTag {
      TreeUp(g, value, d);
    } else {
      StringTreeUp(g, key, d);
      StringTreeUp(g, value, d);
    }
  }

  /** Nothing is both a string and a mapping. */
  lemma {:induction false} TreeIsNoString(g: Graph, ref: Ref, d: nat, k: nat)
    requires Tree(g, ref, d)
    ensures !StringTree(g, ref, k)
    decreases d
  {
    if g[ref.value].kind == Alias && k > 0 {
      TreeIsNoString(g, g[ref.value].target, d - 1, k - 1);
    }
  }

  // ---------- accepted graphs are trees ----------

  /** The nodes not being visited, and one more: a bound on the levels below. */
  ghost function Room(g: Graph, visiting: set<nat>): nat {
    |g.Keys - visiting| + 1
  }

  lemma LessRoom(g: Graph, visiting: set<nat>, n: nat)
    requires n in g && n !in visiting
    ensures Room(g, visiting) == Room(g, visiting + {n}) + 1
  {
    var inside := g.Keys - (visiting + {n});
    assert g.Keys - visiting == inside + {n};
    assert n !in inside;
  }

  lemma {:induction false} AcceptedString(g: Graph, ref: Ref, visiting: set<nat>)
    requires WellFormed(g) && Allocated(g, ref) && ValidateString(g, ref, visiting).None?
    ensures StringTree(g, ref, Room(g, visiting))
    decreases g.Keys - visiting
  {
    var node := g[ref.value];
    assert WellFormedNode(g, node);
    if node.kind == Alias {
      LessRoom(g, visiting, ref.value);
      AcceptedString(g, node.target, visiting + {ref.value});
    }
  }

  lemma {:induction false} AcceptedTree(g: Graph, ref: Ref, visiting: set<nat>)
    requires WellFormed(g) && Allocated(g, ref) && Validate(g, ref, visiting).None?
    ensures Tree(g, ref, Room(g, visiting))
    decreases g.Keys - visiting, 0, 0
  {
    var node := g[ref.value];
    assert WellFormedNode(g, node);
    var inside := visiting + {ref.value};
    LessRoom(g, visiting, ref.value);
    match node.kind
    case Alias => AcceptedTree(g, node.target, inside);
    case Sequence => AcceptedAll(g, node.content, inside);
    case Mapping => AcceptedPairs(g, node.content, inside);
    case _ =>
  }

  lemma {:induction false} AcceptedAll(g: Graph, refs: seq<Ref>, visiting: set<nat>)
    requires WellFormed(g) && WellFormedRefs(g, refs) && ValidateAll(g, refs, visiting).None?
    ensures forall i :: 0 <= i < |refs| ==> Tree(g, refs[i], Room(g, visiting))
    decreases g.Keys - visiting, 1, |refs|
  {
    if refs != [] {
      AcceptedTree(g, refs[0], visiting);
      AcceptedAll(g, refs[1..], visiting);
      forall i | 0 <= i < |refs| ensures Tree(g, refs[i], Room(g, visiting)) {
        if i > 0 {
          assert refs[i] == refs[1..][i - 1];
        }
      }
    }
  }

  ghost predicate PairTrees(g: Graph, refs: seq<Ref>, d: nat) {
    forall i :: 0 <= i < |refs| / 2 ==> PairTree(g, refs[2 * i], refs[2 * i + 1], d)
  }

  lemma PairTreesCons(g: Graph, refs: seq<Ref>, d: nat)
    requires |refs| >= 2
    ensures PairTrees(g, refs, d) <==> PairTree(g, refs[0], refs[1], d) && PairTrees(g, refs[2..], d)
  {
    var rest := refs[2..];
    if PairTrees(g, refs, d) {
      assert PairTree(g, refs[2 * 0], refs[2 * 0 + 1], d);
      forall i | 0 <= i < |rest| / 2 ensures PairTree(g, rest[2 * i], rest[2 * i + 1], d) {
        assert PairTree(g, refs[2 * (i + 1)], refs[2 * (i + 1) + 1], d);
      }
    }
    if PairTree(g, refs[0], refs[1], d) && PairTrees(g, rest, d) {
      forall i | 0 <= i < |refs| / 2 ensures PairTree(g, refs[2 * i], refs[2 * i + 1], d) {
        if i > 0 {
          assert PairTree(g, rest[2 * (i - 1)], rest[2 * (i - 1) + 1], d);
        }
      }
    }
  }

  lemma {:induction false} AcceptedPairs(g: Graph, refs: seq<Ref>, visiting: set<nat>)
    requires WellFormed(g) && WellFormedPairs(g, refs) && ValidatePairs(g, refs, visiting).None?
    ensures PairTrees(g, refs, Room(g, visiting))
    decreases g.Keys - visiting, 1, |refs|
  {
    if refs != [] {
      AcceptedPair(g, refs[0], refs[1], visiting);
      AcceptedPairs(g, refs[2..], visiting);
      PairTreesCons(g, refs, Room(g, visiting));
    }
  }

  lemma AcceptedPair(g: Graph, key: Ref, value: Ref, visiting: set<nat>)
    requires WellFormed(g) && key.Some? && Allocated(g, key) && Allocated(g, value)
    requires ValidatePair(g, key, value, visiting).None?
    ensures PairTree(g, key, value, Room(g, visiting))
    decreases g.Keys - visiting, 0, 1
  {
    if g[key.value].tag == MergeTag {
      AcceptedTree(g, value, visiting);
    } else {
      AcceptedString(g, key, visiting);
      AcceptedString(g, value, visiting);
    }
  }

  // ---------- trees are accepted ----------

  /** The nodes being visited are strings of no fewer levels than this. */
  ghost predicate StringsAbove(g: Graph, visiting: set<nat>, d: nat) {
    forall a :: a in visiting ==> !StringTree(g, Some(a), d)
  }

  /** The nodes being visited need more levels than this, and none of them is a string. */
  ghost predicate Above(g: Graph, visiting: set<nat>, d: nat) {
    forall a :: a in visiting ==> !Tree(g, Some(a), d) && forall k: nat :: !StringTree(g, Some(a), k)
  }

  lemma {:induction false} StringAccepted(g: Graph, ref: Ref, visiting: set<nat>, d: nat)
    requires WellFormed(g) && StringTree(g, ref, d) && StringsAbove(g, visiting, d)
    ensures ValidateString(g, ref, visiting).None?
    decreases d
  {
    var node := g[ref.value];
    assert WellFormedNode(g, node);
    forall a | a in visiting ensures !StringTree(g, Some(a), d - 1) {
      if StringTree(g, Some(a), d - 1) {
        StringTreeUp(g, Some(a), d - 1);
      }
    }
    if StringTree(g, ref, d - 1) {
      StringAccepted(g, ref, visiting, d - 1);
    } else if node.kind == Alias {
      StringAccepted(g, node.target, visiting + {ref.value}, d - 1);
    }
  }

  lemma AboveLess(g: Graph, visiting: set<nat>, d: nat)
    requires d > 0 && Above(g, visiting, d)
    ensures Above(g, visiting, d - 1)
  {
    forall a | a in visiting ensures !Tree(g, Some(a), d - 1) {
      if Tree(g, Some(a), d - 1) {
        TreeUp(g, Some(a), d - 1);
      }
    }
  }

  lemma AboveInside(g: Graph, n: nat, visiting: set<nat>, d: nat)
    requires d > 0 && Above(g, visiting, d) && Tree(g, Some(n), d) && !Tree(g, Some(n), d - 1)
    ensures Above(g, visiting + {n}, d - 1)
  {
    AboveLess(g, visiting, d);
    forall k: nat ensures !StringTree(g, Some(n), k) {
      TreeIsNoString(g, Some(n), d, k);
    }
  }

  lemma {:induction false} TreeAccepted(g: Graph, ref: Ref, visiting: set<nat>, d: nat)
    requires WellFormed(g) && Tree(g, ref, d) && Above(g, visiting, d)
    ensures Validate(g, ref, visiting).None?
    decreases d, 0, 0
  {
    var node := g[ref.value];
    assert WellFormedNode(g, node);
    AboveLess(g, visiting, d);
    if Tree(g, ref, d - 1) {
      TreeAccepted(g, ref, visiting, d - 1);
    } else {
      var inside := visiting + {ref.value};
      AboveInside(g, ref.value, visiting, d);
      match node.kind
      case Alias => TreeAccepted(g, node.target, inside, d - 1);
      case Sequence => TreesAccepted(g, node.content, inside, d - 1);
      case Mapping => PairsAccepted(g, node.content, inside, d - 1);
      case _ =>
    }
  }

  lemma {:induction false} TreesAccepted(g: Graph, refs: seq<Ref>, visiting: set<nat>, d: nat)
    requires WellFormed(g) && WellFormedRefs(g, refs) && Above(g, visiting, d)
    requires forall i :: 0 <= i < |refs| ==> Tree(g, refs[i], d)
    ensures ValidateAll(g, refs, visiting).None?
    decreases d, 1, |refs|
  {
    if refs != [] {
      TreeAccepted(g, refs[0], visiting, d);
      TreesAccepted(g, refs[1..], visiting, d);
    }
  }

  lemma {:induction false} PairsAccepted(g: Graph, refs: seq<Ref>, visiting: set<nat>, d: nat)
    requires WellFormed(g) && WellFormedPairs(g, refs) && Above(g, visiting, d) && PairTrees(g, refs, d)
    ensures ValidatePairs(g, refs, visiting).None?
    decreases d, 1, |refs|
  {
    if refs != [] {
      PairTreesCons(g, refs, d);
      PairsAccepted(g, refs[2..], visiting, d);
      var key, value := refs[0], refs[1];
      if g[key.value].tag == MergeTag {
        TreeAccepted(g, value, visiting, d);
      } else {
        StringAccepted(g, key, visiting, d);
        StringAccepted(g, value, visiting, d);
      }
    }
  }

  /**
   * The walk accepts exactly the graphs that unfold from the root to a finite tree of the allowed shape;
   * such a tree has no more levels than the graph has nodes, plus one.
   */
  lemma AcceptsExactlyTrees(g: Graph, root: Ref)
    requires WellFormed(g) && Allocated(g, root)
    ensures Validate(g, root, {}).None? <==> exists d: nat :: Tree(g, root, d)
    ensures (exists d: nat :: Tree(g, root, d)) ==> Tree(g, root, |g.Keys| + 1)
  {
    if Validate(g, root, {}).None? {
      AcceptedTree(g, root, {});
      assert g.Keys - {} == g.Keys;
      assert Tree(g, root, |g.Keys| + 1);
    }
    forall d: nat | Tree(g, root, d) ensures Validate(g, root, {}).None? {
      TreeAccepted(g, root, {}, d);
    }
  }
}
