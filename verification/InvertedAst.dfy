/** The inverted syntax tree and its adjacency matrix (`inverted_ast.c`). Weights are real numbers, labels
    are not part of this model. */
module InvertedAst {
  import opened Basics
  import opened JordanMatrix

  datatype Kind =
    | Unknown
    | Program | Function | Class | Interface | Module | If | Loop | Block | Type | Constraint | Route
    | Identifier | LiteralInt | LiteralStr | LiteralBool | LiteralNull | Comment | Parameter

  /** The kinds that carry routing authority. */
  const STRUCTURAL: set<Kind> :=
    {Program, Function, Class, Interface, Module, If, Loop, Block, Type, Constraint, Route}

  function NodeWeight(kind: Kind): (w: real)
    ensures w == if kind in STRUCTURAL then 1.0 else 0.0
  {
    match kind
    case Program | Function | Class | Interface | Module | If | Loop | Block | Type | Constraint | Route => 1.0
    case Identifier | LiteralInt | LiteralStr | LiteralBool | LiteralNull | Comment | Parameter | Unknown => 0.0
  }

  const MAX_CHILDREN: nat := 16

  class AstNode {
    const kind: Kind
    const weight: real
    const children: array<AstNode?>
    var childCount: nat
    var parentIdx: int

    constructor (kind: Kind)
      ensures this.kind == kind && childCount == 0 && parentIdx == -1
      ensures Valid() && fresh(children)
    {
      this.kind := kind;
      weight := NodeWeight(kind);
      children := new AstNode?[MAX_CHILDREN](_ => null);
      childCount := 0;
      parentIdx := -1;
    }

    /** The first `childCount` slots hold nodes, and a payload node has payload children only. */
    ghost predicate Valid()
      reads this, children
    {
      && weight == NodeWeight(kind) && children.Length == MAX_CHILDREN && childCount <= MAX_CHILDREN
      && forall i :: 0 <= i < childCount ==> children[i] != null && (weight == 0.0 ==> children[i].weight == 0.0)
    }

    ghost function Kids(): (s: seq<AstNode>)
      requires Valid()
      reads this, children
      ensures |s| == childCount && forall i :: 0 <= i < childCount ==> s[i] == children[i]
    {
      seq(childCount, i requires 0 <= i < childCount && Valid() reads this, children => children[i])
    }
  }

  // ---- adding children ----

  /** A set of nodes built with `AstNode` and `AddChild`: all valid, no two sharing their child buffer. */
  ghost predicate Family(nodes: set<AstNode>)
    reads nodes, set n | n in nodes :: n.children
  {
    && (forall n :: n in nodes ==> n.Valid())
    && (forall n, m :: n in nodes && m in nodes && n != m ==> n.children != m.children)
    && (forall n, i :: n in nodes && 0 <= i < n.childCount ==> n.children[i] in nodes)
  }

  /** `hk_ast_add_child`. */
  method AddChild(parent: AstNode?, child: AstNode?, ghost nodes: set<AstNode>) returns (s: Status)
    requires Family(nodes) && (parent != null ==> parent in nodes) && (child != null ==> child in nodes)
    modifies if parent != null && child != null then {parent, parent.children, child} else {}
    ensures Family(nodes)
    ensures s == if parent == null || child == null then HkErrNull
                 else if parent.weight == 0.0 && child.weight == 1.0 then HkErrInvalidState
                 else if old(parent.childCount) >= 16 then HkErrAlloc else HkOk
    ensures forall n :: n in nodes ==> n.Kids() == if s == HkOk && n == parent then old(n.Kids()) + [child] else old(n.Kids())
    ensures forall n :: n in nodes ==> n.parentIdx == if s == HkOk && n == child then old(parent.childCount) else old(n.parentIdx)
  {
    if parent == null || child == null { return HkErrNull; }
    if parent.weight == 0.0 && child.weight == 1.0 { return HkErrInvalidState; }
    if parent.childCount >= MAX_CHILDREN { return HkErrAlloc; }
    parent.children[parent.childCount] := child;
    child.parentIdx := parent.childCount;
    parent.childCount := parent.childCount + 1;
    return HkOk;
  }

  // ---- what a node spans ----

  /** The unfolding of some siblings: the first one, what is below it, and the siblings after it. */
  datatype Forest = Nil | Cons(node: AstNode, kids: Forest, rest: Forest)

  ghost function Heads(f: Forest): seq<AstNode> {
    if f.Nil? then [] else [f.node] + Heads(f.rest)
  }

  ghost predicate Shape(f: Forest, nodes: set<AstNode>)
    requires Family(nodes)
    reads nodes, set n | n in nodes :: n.children
  {
    f.Cons? ==>
      f.node in nodes && f.node.Kids() == Heads(f.kids) && Shape(f.kids, nodes) && Shape(f.rest, nodes)
  }

  ghost function Preorder(f: Forest): seq<AstNode> {
    if f.Nil? then [] else [f.node] + (Preorder(f.kids) + Preorder(f.rest))
  }

  /** How many structural nodes there are. */
  ghost function Structural(f: Forest): nat {
    if f.Nil? then 0 else (if f.node.weight == 1.0 then 1 else 0) + Structural(f.kids) + Structural(f.rest)
  }

  ghost function Tree(root: AstNode, kids: Forest): Forest { Cons(root, kids, Nil) }

  /** Payload carries no authority: below payload nodes there are payload nodes only. */
  lemma {:induction false} PayloadSpansPayload(f: Forest, nodes: set<AstNode>)
    requires Family(nodes) && Shape(f, nodes)
    requires forall n :: n in Heads(f) ==> n.weight == 0.0
    ensures Structural(f) == 0 && forall n :: n in Preorder(f) ==> n.weight == 0.0
  {
    if f.Cons? {
      assert f.node in Heads(f);
      forall n | n in f.node.Kids() ensures n.weight == 0.0 {
        var i :| 0 <= i < f.node.childCount && f.node.Kids()[i] == n;
        assert f.node.children[i] == n;
      }
      PayloadSpansPayload(f.kids, nodes);
      PayloadSpansPayload(f.rest, nodes);
    }
  }

  /** Walking over the children of a node: `rest` unfolds those from the `i`-th on. */
  ghost predicate Walking(node: AstNode, i: nat, rest: Forest, nodes: set<AstNode>)
    requires Family(nodes)
    reads nodes, set n | n in nodes :: n.children
  {
    node in nodes && i <= node.childCount && Shape(rest, nodes) && Heads(rest) == node.Kids()[i..]
  }

  lemma WalkStarts(node: AstNode, kids: Forest, nodes: set<AstNode>)
    requires Family(nodes) && Shape(Tree(node, kids), nodes)
    ensures Walking(node, 0, kids, nodes)
  {
  }

  /** The next child stands first, and the siblings after it remain. */
  lemma NextChild(node: AstNode, i: nat, rest: Forest, nodes: set<AstNode>)
    requires Family(nodes) && Walking(node, i, rest, nodes) && i < node.childCount
    ensures rest.Cons? && rest.node == node.children[i] && (node.weight == 0.0 ==> rest.node.weight == 0.0)
    ensures Shape(Tree(rest.node, rest.kids), nodes) && Shape(rest, nodes) && Walking(node, i + 1, rest.rest, nodes)
    ensures |Preorder(rest)| == |Preorder(Tree(rest.node, rest.kids))| + |Preorder(rest.rest)|
    ensures |Preorder(rest.kids)| < |Preorder(rest)|
  {
    assert rest.node == Heads(rest)[0] == node.Kids()[i..][0];
    assert Heads(rest)[1..] == node.Kids()[i..][1..] == node.Kids()[i + 1..];
    assert Heads(rest)[1..] == Heads(rest.rest);
  }

  lemma WalkEnds(node: AstNode, rest: Forest, nodes: set<AstNode>)
    requires Family(nodes) && Walking(node, node.childCount, rest, nodes)
    ensures rest == Nil
  {
  }

  // ---- weights ----

  function EdgeWeight(from: real, to: real): real {
    if from == 1.0 && to == 1.0 then 1.0
    else if from == 1.0 && to == 0.0 then 0.1
    else 0.0
  }

  lemma Scaled(e: real, w: real)
    ensures e == 1.0 ==> Times(e, w) == w
    ensures e == 0.0 || w == 0.0 ==> Times(e, w) == 0.0
  {
  }

  /** The weight that `count` structural nodes give a node: none if the node itself is payload. */
  ghost function Authority(node: AstNode, count: int): real { if node.weight == 1.0 then count as real else 0.0 }

  /** A child adds its structural nodes to the weight of its parent, unless the parent is payload. */
  lemma ChildShare(parent: AstNode, f: Forest, nodes: set<AstNode>, all: nat, total: real, childWeight: real)
    requires Family(nodes) && Shape(f, nodes) && f.Cons? && parent in nodes
    requires parent.weight == 0.0 ==> f.node.weight == 0.0
    requires childWeight == Authority(f.node, Structural(Tree(f.node, f.kids)))
    requires total == Authority(parent, 1 + all - Structural(f))
    ensures total + Times(EdgeWeight(parent.weight, f.node.weight), childWeight) ==
            Authority(parent, 1 + all - Structural(f.rest))
  {
    hide Times;
    Scaled(EdgeWeight(parent.weight, f.node.weight), childWeight);
    assert Structural(Tree(f.node, f.kids)) == Structural(f) - Structural(f.rest);
    if f.node.weight == 0.0 {
      PayloadSpansPayload(Tree(f.node, f.kids), nodes);
    }
  }

  /** `hk_ast_compute_weight`: the number of structural nodes below a structural root, 0 for a payload root. */
  method ComputeWeight(node: AstNode?, ghost kids: Forest, ghost nodes: set<AstNode>) returns (total: real)
    requires Family(nodes) && (node != null ==> Shape(Tree(node, kids), nodes))
    ensures total == if node == null then 0.0 else Authority(node, Structural(Tree(node, kids)))
    decreases |Preorder(kids)|
  {
    if node == null { return 0.0; }
    total := node.weight;
    ghost var rest := kids;
    OwnWeight(node, kids);
    WalkStarts(node, kids, nodes);
    hide Structural, EdgeWeight, Times, Authority, Shape, Walking, Preorder;
    for i := 0 to node.childCount
      invariant Walking(node, i, rest, nodes) && |Preorder(rest)| <= |Preorder(kids)|
      invariant total == Authority(node, 1 + Structural(kids) - Structural(rest))
    {
      var child := node.children[i];
      NextChild(node, i, rest, nodes);
      var edgeWeight := EdgeWeight(node.weight, child.weight);
      var childWeight := ComputeWeight(child, rest.kids, nodes);
      ChildShare(node, rest, nodes, Structural(kids), total, childWeight);
      total := total + Times(edgeWeight, childWeight);
      rest := rest.rest;
    }
    WalkEnds(node, rest, nodes);
    AllCounted(node, kids);
  }

  lemma OwnWeight(node: AstNode, kids: Forest)
    requires node.weight == NodeWeight(node.kind)
    ensures node.weight == Authority(node, 1 + Structural(kids) - Structural(kids))
  {
  }

  lemma AllCounted(node: AstNode, kids: Forest)
    ensures Authority(node, Structural(Tree(node, kids))) == Authority(node, 1 + Structural(kids) - Structural(Nil))
  {
  }

  // ---- flattening ----

  method CountNodes(root: AstNode?, ghost kids: Forest, ghost nodes: set<AstNode>) returns (count: nat)
    requires Family(nodes) && (root != null ==> Shape(Tree(root, kids), nodes))
    ensures count == if root == null then 0 else |Preorder(Tree(root, kids))|
    decreases |Preorder(kids)|
  {
    if root == null { return 0; }
    count := 1;
    ghost var rest := kids;
    WalkStarts(root, kids, nodes);
    for i := 0 to root.childCount
      invariant Walking(root, i, rest, nodes)
      invariant count == 1 + |Preorder(kids)| - |Preorder(rest)| && |Preorder(rest)| <= |Preorder(kids)|
    {
      var child := root.children[i];
      NextChild(root, i, rest, nodes);
      var below := CountNodes(child, rest.kids, nodes);
      count := count + below;
      rest := rest.rest;
    }
    WalkEnds(root, rest, nodes);
  }

  /** `flat` holds `s` from `at` on. */
  ghost predicate Holds(flat: seq<AstNode?>, at: nat, s: seq<AstNode>) {
    at + |s| <= |flat| && forall k :: 0 <= k < |s| ==> flat[at + k] == s[k]
  }

  /** `flatten_tree`: the nodes in preorder, from `idx` on; returns the new index. */
  method FlattenTree(root: AstNode?, flat: array<AstNode?>, idx: nat, ghost kids: Forest, ghost nodes: set<AstNode>)
      returns (next: nat)
    requires Family(nodes) && (root != null ==> Shape(Tree(root, kids), nodes))
    requires forall n :: n in nodes ==> n.children != flat
    requires root != null ==> idx + |Preorder(Tree(root, kids))| <= flat.Length
    requires idx <= flat.Length
    modifies flat
    ensures next == (if root == null then idx else idx + |Preorder(Tree(root, kids))|) && next <= flat.Length
    ensures flat[..idx] == old(flat[..idx])
    ensures root != null ==> Holds(flat[..], idx, Preorder(Tree(root, kids)))
    decreases |Preorder(kids)|
  {
    if root == null { return idx; }
    FlattenStarts(root, kids, flat[..], idx);
    WalkStarts(root, kids, nodes);
    hide Walking, Shape, Heads, Holds, Preorder;
    flat[idx] := root;
    next := idx + 1;
    ghost var rest := kids;
    ghost var done: seq<AstNode> := [root];
    assert flat[..] == old(flat[..])[idx := root];
    for i := 0 to root.childCount
      invariant Family(nodes)
      invariant Walking(root, i, rest, nodes) && |Preorder(rest)| <= |Preorder(kids)|
      invariant next == idx + |done| && next + |Preorder(rest)| <= flat.Length
      invariant done + Preorder(rest) == Preorder(Tree(root, kids))
      invariant flat[..idx] == old(flat[..idx]) && Holds(flat[..], idx, done)
    {
      var child := root.children[i];
      NextChild(root, i, rest, nodes);
      ghost var before := flat[..];
      ghost var part := Preorder(Tree(child, rest.kids));
      Spliced(done, rest);
      next := FlattenTree(child, flat, next, rest.kids, nodes);
      HoldsMore(before, flat[..], idx, done, part);
      done := done + part;
      rest := rest.rest;
    }
    WalkEnds(root, rest, nodes);
    assert done + [] == done;
  }

  lemma FlattenStarts(root: AstNode, kids: Forest, flat: seq<AstNode?>, idx: nat)
    requires idx < |flat|
    ensures Holds(flat[idx := root], idx, [root]) && flat[idx := root][..idx] == flat[..idx]
    ensures [root] + Preorder(kids) == Preorder(Tree(root, kids)) && Preorder(Nil) == []
    ensures |Preorder(Tree(root, kids))| == 1 + |Preorder(kids)|
  {
  }

  lemma Spliced(done: seq<AstNode>, rest: Forest)
    requires rest.Cons?
    ensures done + Preorder(rest) == (done + Preorder(Tree(rest.node, rest.kids))) + Preorder(rest.rest)
  {
    assert Preorder(Tree(rest.node, rest.kids)) == [rest.node] + (Preorder(rest.kids) + []);
    Regroup(done, [rest.node], Preorder(rest.kids), Preorder(rest.rest));
  }

  lemma Regroup<T>(done: seq<T>, n: seq<T>, a: seq<T>, b: seq<T>)
    ensures done + (n + (a + b)) == (done + (n + (a + []))) + b
  {
  }

  lemma HoldsMore(before: seq<AstNode?>, after: seq<AstNode?>, at: nat, done: seq<AstNode>, part: seq<AstNode>)
    requires |before| == |after| && Holds(before, at, done) && after[..at + |done|] == before[..at + |done|]
    requires Holds(after, at + |done|, part)
    ensures Holds(after, at, done + part) && after[..at] == before[..at]
  {
    assert forall k :: 0 <= k < at + |done| ==> after[k] == after[..at + |done|][k] == before[k];
    forall k | 0 <= k < |done + part| ensures after[at + k] == (done + part)[k] {
      if k >= |done| { assert after[at + |done| + (k - |done|)] == part[k - |done|]; }
    }
  }

  // ---- the adjacency matrix ----

  ghost predicate FirstAt(flat: seq<AstNode>, k: nat)
    requires k < |flat|
  {
    forall l :: 0 <= l < k ==> flat[l] != flat[k]
  }

  /** The entry for places `i` and `k`: the edge weight if the node at `k`, where it first occurs, is a child. */
  ghost function EntryFor(flat: seq<AstNode>, i: nat, k: nat, kids: seq<AstNode>): real
    requires i < |flat| && k < |flat|
  {
    if flat[k] in kids && FirstAt(flat, k) then EdgeWeight(flat[i].weight, flat[k].weight) else 0.0
  }

  ghost predicate IsGraph(m: Matrix, flat: seq<AstNode>, nodes: set<AstNode>)
    requires Family(nodes)
    reads nodes, set n | n in nodes :: n.children
  {
    && Sized(m, |flat|, |flat|) && (forall n :: n in flat ==> n in nodes)
    && forall i, k :: 0 <= i < |flat| && 0 <= k < |flat| ==> m[i][k] == EntryFor(flat, i, k, flat[i].Kids())
  }

  /** The innermost loop: the first place of a child. */
  method FindNode(flat: array<AstNode?>, child: AstNode) returns (k: nat)
    ensures k <= flat.Length && (k < flat.Length ==> flat[k] == child)
    ensures forall l :: 0 <= l < k ==> flat[l] != child
  {
    k := 0;
    while k < flat.Length
      invariant k <= flat.Length && forall l :: 0 <= l < k ==> flat[l] != child
    {
      if flat[k] == child { break; }
      k := k + 1;
    }
  }

  lemma EntryForMore(flat: seq<AstNode>, i: nat, k: nat, kids: seq<AstNode>, child: AstNode)
    requires i < |flat| && k < |flat|
    ensures EntryFor(flat, i, k, kids + [child]) ==
              if flat[k] == child && FirstAt(flat, k) then EdgeWeight(flat[i].weight, child.weight)
              else EntryFor(flat, i, k, kids)
  {
  }

  /** The loop over the children of the node at place `i`. */
  method FillRow(adj: array2<real>, i: nat, flat: array<AstNode?>, ghost places: seq<AstNode>, ghost nodes: set<AstNode>)
    requires Family(nodes) && (forall n :: n in places ==> n in nodes)
    requires flat.Length == |places| == adj.Length0 == adj.Length1 && Holds(flat[..], 0, places) && i < |places|
    requires forall k :: 0 <= k < |places| ==> adj[i, k] == 0.0
    modifies adj
    ensures forall k :: 0 <= k < |places| ==> adj[i, k] == EntryFor(places, i, k, places[i].Kids())
    ensures forall r, k :: 0 <= r < |places| && 0 <= k < |places| && r != i ==> adj[r, k] == old(adj[r, k])
  {
    assert forall k :: 0 <= k < |places| ==> flat[k] == flat[..][0 + k] == places[k];
    var node := flat[i];
    assert node == places[i] && node in nodes;
    for j := 0 to node.childCount
      invariant forall k :: 0 <= k < |places| ==> adj[i, k] == EntryFor(places, i, k, node.Kids()[..j])
      invariant forall r, k :: 0 <= r < |places| && 0 <= k < |places| && r != i ==> adj[r, k] == old(adj[r, k])
    {
      var child := node.children[j];
      assert node.Kids()[..j + 1] == node.Kids()[..j] + [child];
      forall k | 0 <= k < |places| {
        EntryForMore(places, i, k, node.Kids()[..j], child);
      }
      var k := FindNode(flat, child);
      if k < flat.Length {
        adj[i, k] := EdgeWeight(node.weight, child.weight);
      }
    }
    assert node.Kids()[..node.childCount] == node.Kids();
  }

  /** The outer loop over the flattened nodes. */
  method FillMatrix(adj: array2<real>, flat: array<AstNode?>, ghost places: seq<AstNode>, ghost nodes: set<AstNode>)
    requires Family(nodes) && (forall n :: n in places ==> n in nodes)
    requires flat.Length == |places| == adj.Length0 == adj.Length1 && Holds(flat[..], 0, places)
    requires forall i, k :: 0 <= i < |places| && 0 <= k < |places| ==> adj[i, k] == 0.0
    modifies adj
    ensures Family(nodes) && IsGraph(Value(adj), places, nodes)
  {
    for i := 0 to adj.Length0
      invariant Family(nodes)
      invariant forall r, k :: 0 <= r < i && 0 <= k < |places| ==> adj[r, k] == EntryFor(places, r, k, places[r].Kids())
      invariant forall r, k :: i <= r < |places| && 0 <= k < |places| ==> adj[r, k] == 0.0
    {
      FillRow(adj, i, flat, places, nodes);
    }
  }

  /** `hk_ast_to_graph`; the labels are left out. */
  method ToGraph(root: AstNode?, ghost kids: Forest, ghost nodes: set<AstNode>) returns (adj: array2?<real>)
    requires Family(nodes) && (root != null ==> Shape(Tree(root, kids), nodes))
    ensures root == null <==> adj == null
    ensures root != null ==> fresh(adj) && IsGraph(Value(adj), Preorder(Tree(root, kids)), nodes)
  {
    if root == null { return null; }
    var dim := CountNodes(root, kids, nodes);
    adj := new real[dim, dim]((_, _) => 0.0);
    var flat := new AstNode?[dim](_ => null);
    ghost var places := Preorder(Tree(root, kids));
    PreorderInFamily(Tree(root, kids), nodes);
    var idx := FlattenTree(root, flat, 0, kids, nodes);
    FillMatrix(adj, flat, places, nodes);
  }

  lemma {:induction false} PreorderInFamily(f: Forest, nodes: set<AstNode>)
    requires Family(nodes) && Shape(f, nodes)
    ensures forall n :: n in Preorder(f) ==> n in nodes
  {
    if f.Cons? {
      PreorderInFamily(f.kids, nodes);
      PreorderInFamily(f.rest, nodes);
    }
  }

  // ---- levels: no chain of children is longer than the unfolding ----

  /** How many levels there are. */
  ghost function Depth(f: Forest): nat {
    if f.Nil? then 0 else if Depth(f.kids) + 1 >= Depth(f.rest) then Depth(f.kids) + 1 else Depth(f.rest)
  }

  /** What is below the node at a place of the preorder. */
  ghost function KidsAt(f: Forest, i: nat): Forest
    requires i < |Preorder(f)|
  {
    var n := |Preorder(f.kids)|;
    if i == 0 then f.kids else if i <= n then KidsAt(f.kids, i - 1) else KidsAt(f.rest, i - 1 - n)
  }

  /** The node at a place, as the preorder is put together. */
  lemma Places(f: Forest, i: nat)
    requires i < |Preorder(f)|
    ensures var n := |Preorder(f.kids)|;
            && f.Cons? && |Preorder(f)| == 1 + n + |Preorder(f.rest)|
            && Preorder(f)[i] == if i == 0 then f.node else if i <= n then Preorder(f.kids)[i - 1]
                                 else Preorder(f.rest)[i - 1 - n]
  {
  }

  lemma {:induction false} PlaceSpans(f: Forest, nodes: set<AstNode>, i: nat)
    requires Family(nodes) && Shape(f, nodes) && i < |Preorder(f)|
    ensures Preorder(f)[i] in nodes && Shape(KidsAt(f, i), nodes) && Preorder(f)[i].Kids() == Heads(KidsAt(f, i))
    ensures Depth(KidsAt(f, i)) < Depth(f)
  {
    Places(f, i);
    var n := |Preorder(f.kids)|;
    if 0 < i <= n {
      PlaceSpans(f.kids, nodes, i - 1);
    } else if i > n {
      PlaceSpans(f.rest, nodes, i - 1 - n);
    }
  }

  lemma {:induction false} DepthWithinSize(f: Forest)
    ensures Depth(f) <= |Preorder(f)|
  {
    if f.Cons? {
      DepthWithinSize(f.kids);
      DepthWithinSize(f.rest);
    }
  }

  ghost function KidsMap(nodes: set<AstNode>): (m: map<AstNode, seq<AstNode>>)
    requires Family(nodes)
    reads nodes, set n | n in nodes :: n.children
    ensures m.Keys == nodes && forall n :: n in nodes ==> m[n] == n.Kids()
  {
    map n | n in nodes :: n.Kids()
  }

  /** `Shape`, by what the children of the nodes are. */
  ghost predicate Unfolds(f: Forest, kidsOf: map<AstNode, seq<AstNode>>) {
    f.Cons? ==>
      f.node in kidsOf && kidsOf[f.node] == Heads(f.kids) && Unfolds(f.kids, kidsOf) && Unfolds(f.rest, kidsOf)
  }

  lemma {:induction false} ShapeIsUnfolding(f: Forest, nodes: set<AstNode>)
    requires Family(nodes)
    ensures Shape(f, nodes) <==> Unfolds(f, KidsMap(nodes))
  {
    if f.Cons? {
      ShapeIsUnfolding(f.kids, nodes);
      ShapeIsUnfolding(f.rest, nodes);
    }
  }

  lemma {:induction false} SameSiblingsUnfoldAlike(f: Forest, g: Forest, kidsOf: map<AstNode, seq<AstNode>>)
    requires Unfolds(f, kidsOf) && Unfolds(g, kidsOf) && Heads(f) == Heads(g)
    ensures f == g
  {
    if f.Cons? && g.Cons? {
      assert f.node == Heads(f)[0] == Heads(g)[0] == g.node;
      assert Heads(f.rest) == Heads(f)[1..] == Heads(g)[1..] == Heads(g.rest);
      SameSiblingsUnfoldAlike(f.kids, g.kids, kidsOf);
      SameSiblingsUnfoldAlike(f.rest, g.rest, kidsOf);
    }
  }

  /** A list of siblings unfolds in one way only. */
  lemma UnfoldingIsUnique(f: Forest, g: Forest, nodes: set<AstNode>)
    requires Family(nodes) && Shape(f, nodes) && Shape(g, nodes) && Heads(f) == Heads(g)
    ensures f == g
  {
    ShapeIsUnfolding(f, nodes);
    ShapeIsUnfolding(g, nodes);
    SameSiblingsUnfoldAlike(f, g, KidsMap(nodes));
  }

  /** What is below one of the siblings has fewer levels than the siblings. */
  lemma {:induction false} SiblingSpans(f: Forest, nodes: set<AstNode>, c: AstNode) returns (kids: Forest)
    requires Family(nodes) && Shape(f, nodes) && c in Heads(f)
    ensures c in nodes && Shape(kids, nodes) && c.Kids() == Heads(kids) && Depth(kids) < Depth(f)
  {
    if c == f.node {
      kids := f.kids;
    } else {
      kids := SiblingSpans(f.rest, nodes, c);
    }
  }

  /** The level of each place: how deep it is below it. */
  ghost function Levels(f: Forest): (level: seq<nat>)
    ensures |level| == |Preorder(f)| && forall i :: 0 <= i < |level| ==> level[i] == Depth(KidsAt(f, i))
  {
    seq(|Preorder(f)|, i requires 0 <= i < |Preorder(f)| => Depth(KidsAt(f, i)))
  }

  /** A child is on a lower level than its parent, wherever it is listed. */
  lemma ChildIsLower(f: Forest, nodes: set<AstNode>, i: nat, k: nat)
    requires Family(nodes) && Shape(f, nodes) && i < |Preorder(f)| && k < |Preorder(f)|
    requires Preorder(f)[i] in nodes && Preorder(f)[k] in Preorder(f)[i].Kids()
    ensures Levels(f)[k] < Levels(f)[i]
  {
    PlaceSpans(f, nodes, i);
    PlaceSpans(f, nodes, k);
    var kids := SiblingSpans(KidsAt(f, i), nodes, Preorder(f)[k]);
    UnfoldingIsUnique(kids, KidsAt(f, k), nodes);
  }

  lemma TreeMatrixIsGraded(m: Matrix, f: Forest, nodes: set<AstNode>)
    requires Family(nodes) && Shape(f, nodes) && IsGraph(m, Preorder(f), nodes)
    ensures Graded(m, |Preorder(f)|, Levels(f), 1)
    ensures forall i :: 0 <= i < |Preorder(f)| ==> Levels(f)[i] < Depth(f)
  {
    var s, level := Preorder(f), Levels(f);
    forall i, k | 0 <= i < |s| && 0 <= k < |s| && level[i] < level[k] + 1 ensures m[i][k] == 0.0 {
      assert s[i] in s;
      if s[k] in s[i].Kids() { ChildIsLower(f, nodes, i, k); }
    }
    forall i | 0 <= i < |s| ensures level[i] < Depth(f) {
      PlaceSpans(f, nodes, i);
    }
  }

  /** For everything that can be unfolded, with nodes shared or not, the squaring loop run on the adjacency
      matrix with a positive tolerance and enough iterations stops after `ceil(log2 depth)` squarings at the
      latest, hence within `ceil(log2 n)`. */
  lemma TreesConverge(m: Matrix, f: Forest, nodes: set<AstNode>, maxIterations: int, tolerance: real, r: int)
    requires Family(nodes) && Shape(f, nodes) && f.Cons? && IsGraph(m, Preorder(f), nodes)
    requires tolerance > 0.0 && maxIterations > CeilLog2(Depth(f))
    requires FirstSettled(m, |Preorder(f)|, maxIterations, tolerance, r)
    ensures 0 <= r <= CeilLog2(Depth(f)) <= CeilLog2(|Preorder(f)|)
  {
    TreeMatrixIsGraded(m, f, nodes);
    DepthWithinSize(f);
    CeilLog2Grows(Depth(f), |Preorder(f)|);
    GradedConverges(m, |Preorder(f)|, Levels(f), Depth(f), maxIterations, tolerance, r);
  }

  /** And it always scores as stable. */
  lemma TreesAreStable(m: Matrix, g: Forest, nodes: set<AstNode>, f: Features)
    requires Family(nodes) && Shape(g, nodes) && g.Cons? && IsGraph(m, Preorder(g), nodes)
    requires FeaturesOf(m, |Preorder(g)|, f)
    ensures f.spectralRadius == 0.0 && f.stabilityScore == 0.9 && f.spectralGap == 0.0
  {
    TreeMatrixIsGraded(m, g, nodes);
    forall i | 0 <= i < |Preorder(g)| ensures m[i][i] == 0.0 {
      assert Levels(g)[i] < Levels(g)[i] + 1;
    }
    ZeroDiagonalFeatures(m, |Preorder(g)|, f);
  }

  // ---- when the matrix is strictly upper triangular ----

  /** Every place of a structural node comes before every place of its children. */
  ghost predicate ParentsFirst(s: seq<AstNode>, nodes: set<AstNode>)
    requires Family(nodes) && forall n :: n in s ==> n in nodes
    reads nodes, set n | n in nodes :: n.children
  {
    forall i, k :: 0 <= i < |s| && 0 <= k < |s| && s[i].weight == 1.0 && s[k] in s[i].Kids() ==> i < k
  }

  lemma {:induction false} FirstPlace(s: seq<AstNode>, k: nat) returns (first: nat)
    requires k < |s|
    ensures first <= k && s[first] == s[k] && FirstAt(s, first)
    decreases k
  {
    if FirstAt(s, k) {
      first := k;
    } else {
      var l :| 0 <= l < k && s[l] == s[k];
      first := FirstPlace(s, l);
    }
  }

  /** For any flattened nodes the matrix is strictly upper triangular exactly if structural parents stand first. */
  lemma StrictlyUpperExactly(m: Matrix, s: seq<AstNode>, nodes: set<AstNode>)
    requires Family(nodes) && IsGraph(m, s, nodes)
    ensures StrictlyUpper(m, |s|) <==> ParentsFirst(s, nodes)
  {
    if ParentsFirst(s, nodes) {
      forall i, k | 0 <= i < |s| && 0 <= k < |s| && k < i + 1 ensures m[i][k] == 0.0 {
        assert m[i][k] == EntryFor(s, i, k, s[i].Kids());
      }
    }
    if StrictlyUpper(m, |s|) {
      forall i, k | 0 <= i < |s| && 0 <= k < |s| && s[i].weight == 1.0 && s[k] in s[i].Kids() ensures i < k {
        var first := FirstPlace(s, k);
        assert m[i][first] == EntryFor(s, i, first, s[i].Kids()) == EdgeWeight(1.0, s[k].weight);
        assert s[k] in nodes && s[k].weight == NodeWeight(s[k].kind);
      }
    }
  }

  lemma {:induction false} HeadsInside(f: Forest, c: AstNode) returns (l: nat)
    requires c in Heads(f)
    ensures l < |Preorder(f)| && Preorder(f)[l] == c
  {
    if c == f.node {
      l := 0;
    } else {
      var k := HeadsInside(f.rest, c);
      l := 1 + |Preorder(f.kids)| + k;
      Places(f, l);
    }
  }

  /** Every child of a listed node is listed again behind it. */
  lemma {:induction false} KidListedLater(f: Forest, nodes: set<AstNode>, i: nat, c: AstNode) returns (l: nat)
    requires Family(nodes) && Shape(f, nodes) && i < |Preorder(f)| && Preorder(f)[i] in nodes && c in Preorder(f)[i].Kids()
    ensures i < l < |Preorder(f)| && Preorder(f)[l] == c
  {
    Places(f, i);
    var n := |Preorder(f.kids)|;
    if i == 0 {
      var k := HeadsInside(f.kids, c);
      l := 1 + k;
    } else if i <= n {
      var k := KidListedLater(f.kids, nodes, i - 1, c);
      l := 1 + k;
    } else {
      var k := KidListedLater(f.rest, nodes, i - 1 - n, c);
      l := 1 + n + k;
    }
    Places(f, l);
  }

  /** The first child of a listed node is listed right behind it. */
  lemma {:induction false} FirstKidNext(f: Forest, nodes: set<AstNode>, i: nat)
    requires Family(nodes) && Shape(f, nodes) && i < |Preorder(f)| && Preorder(f)[i] in nodes && Preorder(f)[i].Kids() != []
    ensures i + 1 < |Preorder(f)| && Preorder(f)[i + 1] == Preorder(f)[i].Kids()[0]
  {
    Places(f, i);
    var n := |Preorder(f.kids)|;
    if i == 0 {
      assert f.kids.Cons? && Preorder(f.kids)[0] == f.kids.node == Heads(f.kids)[0];
    } else if i <= n {
      FirstKidNext(f.kids, nodes, i - 1);
    } else {
      FirstKidNext(f.rest, nodes, i - 1 - n);
    }
    Places(f, i + 1);
  }

  /** No structural node with children is listed twice. */
  ghost predicate ParentsOnce(s: seq<AstNode>, nodes: set<AstNode>)
    requires Family(nodes) && forall n :: n in s ==> n in nodes
    reads nodes, set n | n in nodes :: n.children
  {
    forall i, j :: 0 <= i < j < |s| && s[i] == s[j] && s[i].weight == 1.0 ==> s[i].Kids() == []
  }

  /** No node is listed before a structural parent of it. */
  ghost predicate NoneBeforeParent(s: seq<AstNode>, nodes: set<AstNode>)
    requires Family(nodes) && forall n :: n in s ==> n in nodes
    reads nodes, set n | n in nodes :: n.children
  {
    forall i, k :: 0 <= k < i < |s| && s[i].weight == 1.0 ==> s[k] !in s[i].Kids()
  }

  /** Between two places of a node with children stands one of them. */
  lemma KidBetween(f: Forest, nodes: set<AstNode>, i: nat, j: nat)
    requires Family(nodes) && Shape(f, nodes) && i < j < |Preorder(f)|
    requires Preorder(f)[i] == Preorder(f)[j] && Preorder(f)[i] in nodes && Preorder(f)[i].Kids() != []
    ensures Preorder(f)[i + 1] in Preorder(f)[j].Kids()
  {
    FirstKidNext(f, nodes, i);
  }

  /** In an unfolding structural parents stand first exactly if none of them that has children is listed twice
      and none stands behind a child. */
  lemma ParentsFirstExactly(f: Forest, nodes: set<AstNode>)
    requires Family(nodes) && Shape(f, nodes) && forall n :: n in Preorder(f) ==> n in nodes
    ensures ParentsFirst(Preorder(f), nodes) <==> ParentsOnce(Preorder(f), nodes) && NoneBeforeParent(Preorder(f), nodes)
  {
    var s := Preorder(f);
    if ParentsFirst(s, nodes) {
      forall i, j | 0 <= i < j < |s| && s[i] == s[j] && s[i].weight == 1.0 ensures s[i].Kids() == [] {
        if s[i].Kids() != [] { KidBetween(f, nodes, i, j); }
      }
    }
    if ParentsOnce(s, nodes) && NoneBeforeParent(s, nodes) {
      forall i, k | 0 <= i < |s| && 0 <= k < |s| && s[i].weight == 1.0 && s[k] in s[i].Kids() ensures i < k {
        assert s[i] in s;
        var l := KidListedLater(f, nodes, i, s[k]);
      }
    }
  }

  /** In a preorder without repetitions every child stands after its parent. */
  lemma ChildrenComeLater(f: Forest, nodes: set<AstNode>, i: nat, k: nat)
    requires Family(nodes) && Shape(f, nodes) && Distinct(Preorder(f))
    requires i < |Preorder(f)| && k < |Preorder(f)| && Preorder(f)[i] in nodes && Preorder(f)[k] in Preorder(f)[i].Kids()
    ensures i < k
  {
    var l := KidListedLater(f, nodes, i, Preorder(f)[k]);
    assert l == k;
  }

  /** The matrix of an unfolding is strictly upper triangular exactly if no structural node with children is
      listed twice and no node stands before a structural parent. */
  lemma TreeMatrixExactly(m: Matrix, f: Forest, nodes: set<AstNode>)
    requires Family(nodes) && Shape(f, nodes) && IsGraph(m, Preorder(f), nodes)
    ensures StrictlyUpper(m, |Preorder(f)|) <==>
            ParentsOnce(Preorder(f), nodes) && NoneBeforeParent(Preorder(f), nodes)
  {
    StrictlyUpperExactly(m, Preorder(f), nodes);
    ParentsFirstExactly(f, nodes);
  }

  /** In particular that of a tree without shared nodes. */
  lemma TreeMatrixIsStrictlyUpper(m: Matrix, f: Forest, nodes: set<AstNode>)
    requires Family(nodes) && Shape(f, nodes) && Distinct(Preorder(f)) && IsGraph(m, Preorder(f), nodes)
    ensures StrictlyUpper(m, |Preorder(f)|)
  {
    var s := Preorder(f);
    forall i, k | 0 <= k < i < |s| && s[i].weight == 1.0 ensures s[k] !in s[i].Kids() {
      assert s[i] in s;
      if s[k] in s[i].Kids() { ChildrenComeLater(f, nodes, i, k); }
    }
    TreeMatrixExactly(m, f, nodes);
  }

  // ---- trees built by adding children ----

  /** The siblings of `f` and behind them those of `g`. */
  ghost function Beside(f: Forest, g: Forest): Forest {
    if f.Nil? then g else Cons(f.node, f.kids, Beside(f.rest, g))
  }

  /** `t` added as the last child of `parent`, wherever it is listed. */
  ghost function Attach(f: Forest, parent: AstNode, t: Forest): Forest {
    if f.Nil? then Nil
    else
      var kids := Attach(f.kids, parent, t);
      Cons(f.node, if f.node == parent then Beside(kids, t) else kids, Attach(f.rest, parent, t))
  }

  lemma {:induction false} BesideUnfolds(f: Forest, g: Forest, kidsOf: map<AstNode, seq<AstNode>>)
    requires Unfolds(f, kidsOf) && Unfolds(g, kidsOf)
    ensures Unfolds(Beside(f, g), kidsOf) && Heads(Beside(f, g)) == Heads(f) + Heads(g)
  {
    if f.Cons? { BesideUnfolds(f.rest, g, kidsOf); }
  }

  lemma {:induction false} AttachKeepsHeads(f: Forest, parent: AstNode, t: Forest)
    ensures Heads(Attach(f, parent, t)) == Heads(f)
  {
    if f.Cons? { AttachKeepsHeads(f.rest, parent, t); }
  }

  /** A tree without the node that gets another child stays as it is. */
  lemma {:induction false} OthersKeepShape(f: Forest, parent: AstNode, more: seq<AstNode>, kidsOf: map<AstNode, seq<AstNode>>)
    requires Unfolds(f, kidsOf) && parent !in Preorder(f)
    ensures Unfolds(f, kidsOf[parent := more])
  {
    if f.Cons? {
      assert f.node in Preorder(f);
      OthersKeepShape(f.kids, parent, more, kidsOf);
      OthersKeepShape(f.rest, parent, more, kidsOf);
    }
  }

  /** With one child more for `parent`, the tree with `t` attached unfolds. */
  lemma {:induction false} AttachedUnfolds(f: Forest, parent: AstNode, t: Forest, kidsOf: map<AstNode, seq<AstNode>>)
    requires Unfolds(f, kidsOf) && parent in kidsOf && Unfolds(t, kidsOf[parent := kidsOf[parent] + Heads(t)])
    ensures Unfolds(Attach(f, parent, t), kidsOf[parent := kidsOf[parent] + Heads(t)])
  {
    if f.Cons? {
      AttachedUnfolds(f.kids, parent, t, kidsOf);
      AttachedUnfolds(f.rest, parent, t, kidsOf);
      AttachKeepsHeads(f.kids, parent, t);
      BesideUnfolds(Attach(f.kids, parent, t), t, kidsOf[parent := kidsOf[parent] + Heads(t)]);
    }
  }

  /** How often a node is listed. */
  ghost function Listed(f: Forest, x: AstNode): nat {
    if f.Nil? then 0 else (if f.node == x then 1 else 0) + Listed(f.kids, x) + Listed(f.rest, x)
  }

  lemma {:induction false} ListedInPreorder(f: Forest, x: AstNode)
    ensures multiset(Preorder(f))[x] == Listed(f, x)
  {
    if f.Cons? {
      ListedInPreorder(f.kids, x);
      ListedInPreorder(f.rest, x);
      Together(f.node, Preorder(f.kids), Preorder(f.rest), x);
    }
  }

  lemma Together<T>(n: T, a: seq<T>, b: seq<T>, x: T)
    ensures multiset([n] + (a + b))[x] == (if n == x then 1 else 0) + multiset(a)[x] + multiset(b)[x]
  {
  }

  lemma {:induction false} ListedBeside(f: Forest, g: Forest, x: AstNode)
    ensures Listed(Beside(f, g), x) == Listed(f, x) + Listed(g, x)
  {
    if f.Cons? { ListedBeside(f.rest, g, x); }
  }

  /** Attaching to a tree that lists the parent once adds the new nodes once. */
  lemma {:induction false} ListedAttached(f: Forest, parent: AstNode, t: Forest, x: AstNode)
    ensures Listed(f, parent) == 0 ==> Listed(Attach(f, parent, t), x) == Listed(f, x)
    ensures Listed(f, parent) == 1 ==> Listed(Attach(f, parent, t), x) == Listed(f, x) + Listed(t, x)
  {
    if f.Cons? {
      ListedAttached(f.kids, parent, t, x);
      ListedAttached(f.rest, parent, t, x);
      ListedBeside(Attach(f.kids, parent, t), t, x);
    }
  }

  lemma DistinctCounts<T>(s: seq<T>)
    ensures Distinct(s) <==> forall x :: multiset(s)[x] <= 1
  {
    if Distinct(s) {
      forall x ensures multiset(s)[x] <= 1 {
        AtMostOnce(s, x);
      }
    } else {
      var i, j :| 0 <= i < j < |s| && s[i] == s[j];
      assert s == (s[..i] + [s[i]]) + (s[i + 1..j] + [s[j]] + s[j + 1..]);
      assert multiset(s)[s[i]] >= 2;
    }
  }

  lemma {:induction false} AtMostOnce<T>(s: seq<T>, x: T)
    requires Distinct(s)
    ensures multiset(s)[x] <= 1
  {
    if s != [] {
      AtMostOnce(s[1..], x);
      assert s == [s[0]] + s[1..];
      assert s[0] !in s[1..];
    }
  }

  lemma AttachedIsDistinct(f: Forest, parent: AstNode, t: Forest)
    requires Distinct(Preorder(f) + Preorder(t)) && parent in Preorder(f)
    ensures Distinct(Preorder(Attach(f, parent, t)))
  {
    var g := Attach(f, parent, t);
    DistinctCounts(Preorder(f) + Preorder(t));
    forall x ensures multiset(Preorder(f) + Preorder(t))[x] == Listed(f, x) + Listed(t, x) {
      ListedInPreorder(f, x);
      ListedInPreorder(t, x);
    }
    assert Listed(f, parent) == 1 by {
      ListedInPreorder(f, parent);
      assert multiset(Preorder(f))[parent] > 0;
    }
    forall x ensures multiset(Preorder(g))[x] <= 1 {
      ListedInPreorder(g, x);
      ListedAttached(f, parent, t, x);
    }
    DistinctCounts(Preorder(g));
  }

  /** What a listed node spans. */
  lemma {:induction false} Spanned(f: Forest, kidsOf: map<AstNode, seq<AstNode>>, n: AstNode) returns (kids: Forest)
    requires Unfolds(f, kidsOf) && n in Preorder(f)
    ensures n in kidsOf && Unfolds(kids, kidsOf) && Heads(kids) == kidsOf[n] && |Preorder(kids)| < |Preorder(f)|
  {
    if n == f.node {
      kids := f.kids;
    } else if n in Preorder(f.kids) {
      kids := Spanned(f.kids, kidsOf, n);
    } else {
      kids := Spanned(f.rest, kidsOf, n);
    }
  }

  lemma {:induction false} HeadsAreListed(f: Forest)
    ensures forall n :: n in Heads(f) ==> n in Preorder(f)
  {
    if f.Cons? { HeadsAreListed(f.rest); }
  }

  /** No node is listed below a child of it. */
  lemma NoneBelowItself(kids: Forest, kidsOf: map<AstNode, seq<AstNode>>, parent: AstNode, child: AstNode)
    requires Unfolds(Tree(child, kids), kidsOf) && parent in kidsOf && child in kidsOf[parent]
    ensures parent !in Preorder(Tree(child, kids))
  {
    if parent in Preorder(Tree(child, kids)) {
      var siblings := Spanned(Tree(child, kids), kidsOf, parent);
      HeadsAreListed(siblings);
      assert |Preorder(Tree(child, kids))| == 1 + |Preorder(kids)|;
      var again := Spanned(siblings, kidsOf, child);
      SameSiblingsUnfoldAlike(kids, again, kidsOf);
    }
  }

  /** A node with a new child: its unfoldings before that do not list `parent` are those it has after. */
  lemma UnfoldsExactlyWithoutParent(h: Forest, parent: AstNode, child: AstNode, kidsOf: map<AstNode, seq<AstNode>>)
    requires parent in kidsOf && Heads(h) == [child]
    ensures Unfolds(h, kidsOf[parent := kidsOf[parent] + [child]]) <==> Unfolds(h, kidsOf) && parent !in Preorder(h)
  {
    var more := kidsOf[parent] + [child];
    assert h.node == Heads(h)[0] && |Heads(h)| == 1 + |Heads(h.rest)|;
    assert h.rest == Nil && h == Tree(child, h.kids);
    if Unfolds(h, kidsOf[parent := more]) {
      assert child in kidsOf[parent := more][parent];
      NoneBelowItself(h.kids, kidsOf[parent := more], parent, child);
      OthersKeepShape(h, parent, kidsOf[parent], kidsOf[parent := more]);
      assert kidsOf[parent := more][parent := kidsOf[parent]] == kidsOf;
    } else if Unfolds(h, kidsOf) && parent !in Preorder(h) {
      OthersKeepShape(h, parent, more, kidsOf);
    }
  }

  /** With a cycle through `parent`, nothing that lists `parent` unfolds. */
  lemma CyclesDoNotUnfold(f: Forest, h: Forest, parent: AstNode, t: Forest, child: AstNode, kidsOf: map<AstNode, seq<AstNode>>)
    requires parent in kidsOf && Heads(t) == [child] && Unfolds(t, kidsOf) && parent in Preorder(t)
    requires Unfolds(f, kidsOf) && parent in Preorder(f)
    requires Heads(h) == Heads(f)
    ensures !Unfolds(h, kidsOf[parent := kidsOf[parent] + [child]])
  {
    var after := kidsOf[parent := kidsOf[parent] + [child]];
    if Unfolds(h, after) {
      if parent in Preorder(h) {
        var siblings := Spanned(h, after, parent);
        HeadsAreListed(siblings);
        assert child in Heads(siblings);
        var kids := Spanned(siblings, after, child);
        UnfoldsExactlyWithoutParent(Tree(child, kids), parent, child, kidsOf);
        SameSiblingsUnfoldAlike(t, Tree(child, kids), kidsOf);
      } else {
        OthersKeepShape(h, parent, kidsOf[parent], after);
        assert after[parent := kidsOf[parent]] == kidsOf;
        SameSiblingsUnfoldAlike(f, h, kidsOf);
      }
    }
  }

  lemma {:induction false} NothingAttached(f: Forest, parent: AstNode, t: Forest)
    requires parent !in Preorder(f)
    ensures Attach(f, parent, t) == f
  {
    if f.Cons? {
      NothingAttached(f.kids, parent, t);
      NothingAttached(f.rest, parent, t);
    }
  }

  /** One child more: the siblings of `f` unfold after that exactly if there is no cycle through `parent` that they
      reach, and then in one way, with `t` attached. */
  lemma AttachedUnfoldsExactly(f: Forest, parent: AstNode, t: Forest, child: AstNode, kidsOf: map<AstNode, seq<AstNode>>)
    requires Unfolds(f, kidsOf) && parent in kidsOf && Unfolds(t, kidsOf) && Heads(t) == [child]
    ensures var after, g := kidsOf[parent := kidsOf[parent] + [child]], Attach(f, parent, t);
            && (Unfolds(g, after) <==> parent !in Preorder(f) || parent !in Preorder(t))
            && forall h :: Unfolds(h, after) && Heads(h) == Heads(f) ==> h == g
  {
    var after, g := kidsOf[parent := kidsOf[parent] + [child]], Attach(f, parent, t);
    AttachKeepsHeads(f, parent, t);
    if parent !in Preorder(t) {
      OthersKeepShape(t, parent, kidsOf[parent] + [child], kidsOf);
      AttachedUnfolds(f, parent, t, kidsOf);
    } else if parent !in Preorder(f) {
      NothingAttached(f, parent, t);
      OthersKeepShape(f, parent, kidsOf[parent] + [child], kidsOf);
    }
    forall h | Unfolds(h, after) && Heads(h) == Heads(f) ensures h == g && Unfolds(g, after) {
      if parent in Preorder(f) && parent in Preorder(t) { CyclesDoNotUnfold(f, h, parent, t, child, kidsOf); }
      SameSiblingsUnfoldAlike(h, g, after);
    }
    if parent in Preorder(f) && parent in Preorder(t) { CyclesDoNotUnfold(f, g, parent, t, child, kidsOf); }
  }

  /** The same for the two outcomes of adding a child. */
  lemma AddedUnfolds(f: Forest, g: Forest, parent: AstNode, t: Forest, child: AstNode,
                     before: map<AstNode, seq<AstNode>>, after: map<AstNode, seq<AstNode>>, added: bool)
    requires Unfolds(f, before) && parent in before && Unfolds(t, before) && Heads(t) == [child]
    requires after == if added then before[parent := before[parent] + [child]] else before
    requires g == if added then Attach(f, parent, t) else f
    ensures Unfolds(g, after) <==> !added || parent !in Preorder(f) || parent !in Preorder(t)
    ensures forall h :: Unfolds(h, after) && Heads(h) == Heads(f) ==> h == g
    ensures forall h :: Heads(h) == [child] ==> (Unfolds(h, after) <==> h == t && (added ==> parent !in Preorder(h)))
  {
    hide Unfolds, Attach, Preorder;
    if added {
      AttachedUnfoldsExactly(f, parent, t, child, before);
    } else {
      forall h | Unfolds(h, after) && Heads(h) == Heads(f) ensures h == g {
        SameSiblingsUnfoldAlike(h, g, after);
      }
    }
    forall h | Heads(h) == [child] ensures Unfolds(h, after) <==> h == t && (added ==> parent !in Preorder(h)) {
      if added { UnfoldsExactlyWithoutParent(h, parent, child, before); }
      if Unfolds(h, before) { SameSiblingsUnfoldAlike(h, t, before); }
    }
  }

  /** `hk_ast_add_child` on trees: when the root of another tree is added somewhere in a tree, it stays a tree with
      the other one attached, exactly if that does not close a cycle in it, that is if it does not list the new
      parent or the other one does not. No node is shared if the two had none in common. */
  method AddSubtree(parent: AstNode, child: AstNode, ghost f: Forest, ghost kids: Forest, ghost nodes: set<AstNode>)
      returns (s: Status, ghost g: Forest)
    requires Family(nodes) && parent in nodes && Shape(f, nodes) && Shape(Tree(child, kids), nodes)
    modifies parent, parent.children, child
    ensures Family(nodes)
    ensures s == if parent.weight == 0.0 && child.weight == 1.0 then HkErrInvalidState
                 else if old(parent.childCount) >= 16 then HkErrAlloc else HkOk
    ensures g == if s == HkOk then Attach(f, parent, Tree(child, kids)) else f
    ensures Shape(g, nodes) <==> s != HkOk || parent !in Preorder(f) || parent !in Preorder(Tree(child, kids))
    ensures forall h :: Shape(h, nodes) && Heads(h) == Heads(f) ==> h == g
    ensures forall h :: Heads(h) == [child] ==>
              (Shape(h, nodes) <==> h == Tree(child, kids) && (s == HkOk ==> parent !in Preorder(h)))
    ensures s == HkOk && parent in Preorder(f) && Distinct(Preorder(f) + Preorder(Tree(child, kids))) ==> Distinct(Preorder(g))
  {
    ghost var before, t := KidsMap(nodes), Tree(child, kids);
    ShapeIsUnfolding(f, nodes);
    ShapeIsUnfolding(t, nodes);
    s := AddChild(parent, child, nodes);
    g := f;
    assert Heads(t) == [child];
    if s == HkOk {
      g := Attach(f, parent, t);
      assert KidsMap(nodes) == before[parent := before[parent] + [child]];
      if parent in Preorder(f) && Distinct(Preorder(f) + Preorder(t)) { AttachedIsDistinct(f, parent, t); }
    } else {
      assert KidsMap(nodes) == before;
    }
    ghost var after := KidsMap(nodes);
    AddedUnfolds(f, g, parent, t, child, before, after, s == HkOk);
    forall h ensures Shape(h, nodes) <==> Unfolds(h, after) {
      ShapeIsUnfolding(h, nodes);
    }
  }

  /** A new node is a tree of its own; the trees there were stay trees. */
  method NewNode(kind: Kind, ghost nodes: set<AstNode>) returns (n: AstNode)
    requires Family(nodes)
    ensures fresh(n) && fresh(n.children) && n.kind == kind && n.childCount == 0
    ensures Family(nodes + {n}) && Shape(Tree(n, Nil), nodes + {n}) && Distinct(Preorder(Tree(n, Nil)))
  {
    n := new AstNode(kind);
    assert forall m :: m in nodes ==> m.children != n.children && m.Valid();
  }

  /** The entries of the matrix: 1 from a structural node to a structural child, a tenth to a payload child, at the
      first place of the child; everything else is 0. */
  lemma EdgesExactly(m: Matrix, flat: seq<AstNode>, nodes: set<AstNode>, i: nat, k: nat)
    requires Family(nodes) && IsGraph(m, flat, nodes) && i < |flat| && k < |flat|
    ensures flat[i] in nodes && flat[k] in nodes
    ensures m[i][k] == if flat[i].kind !in STRUCTURAL || flat[k] !in flat[i].Kids() || flat[k] in flat[..k] then 0.0
                       else if flat[k].kind in STRUCTURAL then 1.0 else 0.1
  {
    assert flat[i] in flat && flat[k] in flat;
    assert FirstAt(flat, k) <==> flat[k] !in flat[..k];
  }

  /** The places of structural nodes in a preorder. */
  ghost function StructuralPlaces(s: seq<AstNode>): set<nat> { set i | 0 <= i < |s| && s[i].weight == 1.0 }

  lemma {:induction false} CountedPlaces(s: seq<AstNode>, t: seq<AstNode>)
    ensures |StructuralPlaces(s + t)| == |StructuralPlaces(s)| + |StructuralPlaces(t)|
  {
    if t == [] {
      assert s + t == s && StructuralPlaces(t) == {};
    } else {
      var init, last := t[..|t| - 1], t[|t| - 1];
      CountedPlaces(s, init);
      assert t == init + [last] && s + t == (s + init) + [last];
      OneMorePlace(init, last);
      OneMorePlace(s + init, last);
    }
  }

  lemma OneMorePlace(s: seq<AstNode>, n: AstNode)
    ensures |StructuralPlaces(s + [n])| == |StructuralPlaces(s)| + if n.weight == 1.0 then 1 else 0
  {
    assert StructuralPlaces(s + [n]) == StructuralPlaces(s) + if n.weight == 1.0 then {|s|} else {};
  }

  /** The structural nodes that are counted are those of the preorder, once for each place. */
  lemma {:induction false} StructuralCounts(f: Forest)
    ensures Structural(f) == |StructuralPlaces(Preorder(f))|
  {
    if f.Nil? {
      assert StructuralPlaces([]) == {};
    } else {
      StructuralCounts(f.kids);
      StructuralCounts(f.rest);
      CountedPlaces(Preorder(f.kids), Preorder(f.rest));
      CountedPlaces([f.node], Preorder(f.kids) + Preorder(f.rest));
      assert [] + [f.node] == [f.node] && StructuralPlaces([]) == {};
      OneMorePlace([], f.node);
    }
  }

  /** Payload has no outgoing weight in the matrix, and no edge into payload is worth more than a tenth. */
  lemma PayloadHasNoAuthority(m: Matrix, flat: seq<AstNode>, nodes: set<AstNode>, i: nat, k: nat)
    requires Family(nodes) && IsGraph(m, flat, nodes) && i < |flat| && k < |flat|
    ensures flat[i].weight == 0.0 ==> m[i][k] == 0.0
    ensures flat[k].weight == 0.0 ==> 0.0 <= m[i][k] <= 0.1
  {
  }

  /** A node reached along two ways can stand before one of its parents: then the matrix has an entry below
      the diagonal. */
  lemma SharedNodesBreakTheOrder(r: AstNode, a: AstNode, b: AstNode, m: Matrix, nodes: set<AstNode>)
    requires r.weight == 1.0 && a.weight == 1.0 && b.weight == 1.0 && r != a && r != b && a != b && Family(nodes)
    requires var f := Tree(r, Cons(a, Nil, Cons(b, Cons(a, Nil, Nil), Nil)));
             Shape(f, nodes) && IsGraph(m, Preorder(f), nodes)
    ensures Sized(m, 4, 4) && m[2][1] == 1.0
  {
    var last := Cons(a, Nil, Nil);
    var second := Cons(b, last, Nil);
    var first := Cons(a, Nil, second);
    assert Preorder(last) == [a] && Preorder(Nil) == [];
    assert Preorder(second) == [b] + ([a] + []);
    assert Preorder(first) == [a] + ([] + [b, a]);
    assert Preorder(Tree(r, first)) == [r] + ([a, b, a] + []);
    assert [r] + ([a, b, a] + []) == [r, a, b, a];
    assert Heads(last) == [a] && Shape(second, nodes);
    assert FirstAt([r, a, b, a], 1);
  }
}
