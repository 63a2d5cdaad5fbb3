/** The node tree of the blame engine: mutable nodes, built from the flat list and given depths. */
module BlameTree {
  import opened Common
  import opened Spans
  import opened Roles
  import opened Forest
  import opened Worklist

  class SpanNode {
    const span: Span
    var children: seq<SpanNode>
    var parent: SpanNode?
    var depth: nat
    var selfError: bool
    var selfNullOutput: bool
    var selfEmptyOutput: bool
    var selfBad: bool
    var selfBadInput: bool
    var subtreeBad: bool
    var badDescendantCount: nat
    var upstreamBad: bool
    var badnessInherited: bool
    var role: Role

    constructor (span: Span)
      ensures this.span == span
      ensures children == [] && parent == null && depth == 0
      ensures !subtreeBad && badDescendantCount == 0
      ensures !upstreamBad && !badnessInherited && role == Clean
    {
      this.span := span;
      children, parent, depth := [], null, 0;
      selfError, selfNullOutput, selfEmptyOutput, selfBad, selfBadInput := false, false, false, false, false;
      subtreeBad, badDescendantCount := false, 0;
      upstreamBad, badnessInherited := false, false;
      role := Clean;
    }
  }

  type NodeMap = map<Id, SpanNode>

  /** The node objects of a map, as a frame. */
  ghost function Objects(nodes: NodeMap): set<SpanNode> {
    set x | x in nodes :: nodes[x]
  }

  /** The node map has one node per span of the table. */
  ghost predicate Indexed(t: Table, nodes: NodeMap) {
    nodes.Keys == t.Keys && forall x :: x in nodes ==> nodes[x].span == t[x] && t[x].id == x
  }

  ghost predicate Listed(nodes: NodeMap, list: seq<SpanNode>, ids: seq<Id>) {
    |list| == |ids| && forall i :: 0 <= i < |ids| ==> ids[i] in nodes && list[i] == nodes[ids[i]]
  }

  ghost function ParentNode(t: Table, nodes: NodeMap, x: Id): SpanNode? {
    if Par(t, x).Some? && Par(t, x).value in nodes then nodes[Par(t, x).value] else null
  }

  type KidMap = map<Id, seq<Id>>

  /** The children of every span, as a value. */
  ghost predicate Shape(t: Table, kids: KidMap) {
    && kids.Keys == t.Keys
    && (forall x :: x in t ==> NoDup(kids[x]))
    && (forall x, c {:trigger c in kids[x]} :: x in t ==> (c in kids[x] <==> c in t && Par(t, c) == Some(x)))
  }

  ghost function KidsUpTo(t: Table, part: seq<Span>): (kids: KidMap) {
    map x | x in t :: KidsIn(t, part, x)
  }

  lemma KidsShape(spans: seq<Span>)
    requires Unique(spans)
    ensures Shape(TableOf(spans), KidsUpTo(TableOf(spans), spans))
  {
    var t := TableOf(spans);
    var kids := KidsUpTo(t, spans);
    forall x | x in t
      ensures NoDup(kids[x]) && forall c :: c in kids[x] <==> c in t && Par(t, c) == Some(x)
    {
      KidsNoDup(t, spans, x);
      KidsInMembers(t, spans, x);
      assert kids[x] == KidsIn(t, spans, x);
    }
  }

  /** Children fields agree with the parent pointers of the table. */
  ghost predicate Kin(t: Table, kids: KidMap, nodes: NodeMap)
    reads Objects(nodes)`children
  {
    && Indexed(t, nodes) && kids.Keys == t.Keys
    && (forall x {:trigger nodes[x].children} :: x in nodes ==> Listed(nodes, nodes[x].children, kids[x]))
  }

  /** Parent fields agree with the parent pointers of the table. */
  ghost predicate Parents(t: Table, nodes: NodeMap)
    reads Objects(nodes)`parent
  {
    forall x {:trigger nodes[x].parent} :: x in nodes ==> nodes[x].parent == ParentNode(t, nodes, x)
  }

  // ----- Pass 1: build the tree -----

  /** Nodes as the constructor leaves them. */
  ghost predicate Unlinked(nodes: NodeMap)
    reads Objects(nodes)`children, Objects(nodes)`parent
  {
    forall x :: x in nodes ==> nodes[x].children == [] && nodes[x].parent == null
  }

  ghost predicate AtDepthZero(nodes: NodeMap)
    reads Objects(nodes)`depth
  {
    forall x :: x in nodes ==> nodes[x].depth == 0
  }

  ghost predicate Blank(nodes: NodeMap)
    reads Objects(nodes)`subtreeBad, Objects(nodes)`badDescendantCount,
          Objects(nodes)`upstreamBad, Objects(nodes)`badnessInherited
  {
    forall x :: x in nodes ==>
      && !nodes[x].subtreeBad && nodes[x].badDescendantCount == 0
      && !nodes[x].upstreamBad && !nodes[x].badnessInherited
  }

  ghost predicate Created(part: seq<Span>, nodes: NodeMap) {
    && (forall i :: 0 <= i < |part| ==> part[i].id in nodes && nodes[part[i].id].span == part[i])
    && (forall x :: x in nodes ==> exists i :: 0 <= i < |part| && part[i].id == x)
  }

  lemma CreatedIsIndexed(spans: seq<Span>, nodes: NodeMap)
    requires Unique(spans) && Created(spans, nodes)
    ensures Indexed(TableOf(spans), nodes)
  {
    forall x | x in nodes ensures x in TableOf(spans) && nodes[x].span == TableOf(spans)[x] {
      var i :| 0 <= i < |spans| && spans[i].id == x;
      TableAt(spans, i);
    }
    forall x | x in TableOf(spans) ensures x in nodes {
      var i :| 0 <= i < |spans| && spans[i] == TableOf(spans)[x];
      assert spans[i].id in nodes;
    }
  }

  lemma CreatedStep(spans: seq<Span>, i: nat, nodes: NodeMap, node: SpanNode)
    requires Unique(spans) && i < |spans| && Created(spans[..i], nodes) && node.span == spans[i]
    ensures Created(spans[..i + 1], nodes[spans[i].id := node])
  {
    var part, more := spans[..i + 1], nodes[spans[i].id := node];
    forall j | 0 <= j < |part| ensures part[j].id in more && more[part[j].id].span == part[j] {
      if j < i {
        assert spans[..i][j] == part[j];
      }
    }
    forall x | x in more ensures exists j :: 0 <= j < |part| && part[j].id == x {
      if x == spans[i].id {
        assert part[i].id == x;
      } else {
        var j :| 0 <= j < i && spans[..i][j].id == x;
        assert part[j].id == x;
      }
    }
  }

  method CreateNodes(spans: seq<Span>) returns (nodes: NodeMap)
    requires Unique(spans)
    ensures Indexed(TableOf(spans), nodes) && fresh(Objects(nodes))
    ensures Unlinked(nodes) && AtDepthZero(nodes) && Blank(nodes)
  {
    nodes := map[];
    for i := 0 to |spans|
      invariant Created(spans[..i], nodes) && Unlinked(nodes) && AtDepthZero(nodes) && Blank(nodes)
      invariant forall x :: x in nodes ==> fresh(nodes[x])
    {
      var node := new SpanNode(spans[i]);
      CreatedStep(spans, i, nodes, node);
      nodes := nodes[spans[i].id := node];
    }
    assert spans[..|spans|] == spans;
    CreatedIsIndexed(spans, nodes);
  }

  lemma KidsInStep(t: Table, part: seq<Span>, s: Span, x: Id)
    ensures KidsIn(t, part + [s], x) == KidsIn(t, part, x) + (if Par(t, s.id) == Some(x) then [s.id] else [])
    ensures RootsIn(t, part + [s]) == RootsIn(t, part) + (if Par(t, s.id).None? then [s.id] else [])
  {
    assert (part + [s])[..|part|] == part;
  }

  /** One more span: it joins its parent's children. */
  lemma KidsUpToStep(t: Table, part: seq<Span>, s: Span)
    ensures KidsUpTo(t, part + [s]) == AddKid(KidsUpTo(t, part), Par(t, s.id), s.id)
  {
    var a, b := KidsUpTo(t, part + [s]), AddKid(KidsUpTo(t, part), Par(t, s.id), s.id);
    forall x | x in t ensures a[x] == b[x] {
      KidsInStep(t, part, s, x);
    }
    assert a.Keys == b.Keys;
  }

  ghost function AddKid(kids: KidMap, p: Option<Id>, x: Id): KidMap {
    if p.Some? && p.value in kids then kids[p.value := kids[p.value] + [x]] else kids
  }

  ghost function AddRoot(rootIds: seq<Id>, p: Option<Id>, x: Id): seq<Id> {
    if p.None? then rootIds + [x] else rootIds
  }

  method LinkChild(ghost t: Table, ghost kids: KidMap, ghost nodes: NodeMap, parentNode: SpanNode, node: SpanNode)
    requires Kin(t, kids, nodes)
    requires node.span.id in nodes && nodes[node.span.id] == node
    requires parentNode.span.id in nodes && nodes[parentNode.span.id] == parentNode
    modifies parentNode`children, node`parent
    ensures node.parent == parentNode
    ensures Kin(t, AddKid(kids, Some(parentNode.span.id), node.span.id), nodes)
  {
    parentNode.children := parentNode.children + [node];
    node.parent := parentNode;
  }

  /** Parent fields are set for the spans handled so far and still null for the others. */
  ghost predicate ParentsSet(t: Table, nodes: NodeMap, linked: set<Id>)
    reads Objects(nodes)`parent
  {
    forall y {:trigger nodes[y].parent} :: y in nodes ==>
      nodes[y].parent == if y in linked then ParentNode(t, nodes, y) else null
  }

  method LinkNode(ghost t: Table, ghost kids: KidMap, ghost linked: set<Id>, ghost rootIds: seq<Id>,
                  nodes: NodeMap, s: Span, roots: seq<SpanNode>)
    returns (more: seq<SpanNode>)
    requires Kin(t, kids, nodes) && s.id in t && t[s.id] == s
    requires ParentsSet(t, nodes, linked) && s.id !in linked && Listed(nodes, roots, rootIds)
    requires Blank(nodes) && AtDepthZero(nodes)
    modifies Objects(nodes)`children, Objects(nodes)`parent
    ensures Blank(nodes) && AtDepthZero(nodes)
    ensures ParentsSet(t, nodes, linked + {s.id})
    ensures Kin(t, AddKid(kids, Par(t, s.id), s.id), nodes)
    ensures Listed(nodes, more, AddRoot(rootIds, Par(t, s.id), s.id))
  {
    more := roots;
    var node := nodes[s.id];
    var pid := s.parent;
    if pid.Some? && pid.value != "" && pid.value in nodes {
      LinkChild(t, kids, nodes, nodes[pid.value], node);
    } else {
      more := more + [node];
    }
  }

  /** The first spans of the list are linked. */
  ghost predicate Linking(t: Table, nodes: NodeMap, part: seq<Span>, kids: KidMap, linked: set<Id>, rootIds: seq<Id>,
                          roots: seq<SpanNode>)
    reads Objects(nodes)
  {
    && LinkState(t, part, kids, linked, rootIds) && Kin(t, kids, nodes) && ParentsSet(t, nodes, linked)
    && Listed(nodes, roots, rootIds) && Blank(nodes) && AtDepthZero(nodes)
  }

  method LinkNext(ghost t: Table, spans: seq<Span>, nodes: NodeMap, i: nat, ghost kids: KidMap, ghost linked: set<Id>,
                  ghost rootIds: seq<Id>, roots: seq<SpanNode>)
    returns (more: seq<SpanNode>)
    requires Unique(spans) && t == TableOf(spans) && i < |spans|
    requires Linking(t, nodes, spans[..i], kids, linked, rootIds, roots)
    modifies Objects(nodes)`children, Objects(nodes)`parent
    ensures var s := spans[i];
            Linking(t, nodes, spans[..i + 1], AddKid(kids, Par(t, s.id), s.id), linked + {s.id},
                    AddRoot(rootIds, Par(t, s.id), s.id), more)
  {
    NextSpan(spans, i);
    LinkStep(t, spans[..i], spans[i], kids, linked, rootIds);
    more := LinkNode(t, kids, linked, rootIds, nodes, spans[i], roots);
  }

  method LinkNodes(spans: seq<Span>, nodes: NodeMap) returns (roots: seq<SpanNode>)
    requires Unique(spans) && Indexed(TableOf(spans), nodes) && Unlinked(nodes)
    requires Blank(nodes) && AtDepthZero(nodes)
    modifies Objects(nodes)`children, Objects(nodes)`parent
    ensures Blank(nodes) && AtDepthZero(nodes)
    ensures Kin(TableOf(spans), KidsUpTo(TableOf(spans), spans), nodes) && Parents(TableOf(spans), nodes)
    ensures Listed(nodes, roots, Roots(spans))
  {
    ghost var t := TableOf(spans);
    ghost var kids, linked, rootIds := KidsUpTo(t, []), {}, [];
    roots := [];
    KidsUpToNone(t, spans);
    for i := 0 to |spans|
      invariant Linking(t, nodes, spans[..i], kids, linked, rootIds, roots)
    {
      roots := LinkNext(t, spans, nodes, i, kids, linked, rootIds, roots);
      ghost var x := spans[i].id;
      kids, linked, rootIds := AddKid(kids, Par(t, x), x), linked + {x}, AddRoot(rootIds, Par(t, x), x);
    }
    assert spans[..|spans|] == spans;
  }

  /** What has been linked after a prefix of the list. */
  ghost predicate LinkState(t: Table, part: seq<Span>, kids: KidMap, linked: set<Id>, rootIds: seq<Id>) {
    kids == KidsUpTo(t, part) && linked == IdSet(part) && rootIds == RootsIn(t, part)
  }

  lemma KidsUpToNone(t: Table, spans: seq<Span>)
    ensures LinkState(t, spans[..0], KidsUpTo(t, []), {}, [])
    ensures KidsUpTo(t, []).Keys == t.Keys
    ensures forall x :: x in t ==> KidsUpTo(t, [])[x] == []
  {
    assert spans[..0] == [];
  }

  lemma LinkStep(t: Table, part: seq<Span>, s: Span, kids: KidMap, linked: set<Id>, rootIds: seq<Id>)
    requires LinkState(t, part, kids, linked, rootIds)
    ensures LinkState(t, part + [s], AddKid(kids, Par(t, s.id), s.id), linked + {s.id},
                      AddRoot(rootIds, Par(t, s.id), s.id))
  {
    KidsUpToStep(t, part, s);
    KidsInStep(t, part, s, "");
    IdSetSnoc(part, s);
  }

  lemma NextSpan(spans: seq<Span>, i: nat)
    requires Unique(spans) && i < |spans|
    ensures spans[..i + 1] == spans[..i] + [spans[i]]
    ensures spans[i].id in TableOf(spans) && TableOf(spans)[spans[i].id] == spans[i]
    ensures spans[i].id !in IdSet(spans[..i])
  {
    PrefixSnoc(spans, i);
    TableAt(spans, i);
    FreshId(spans, i);
  }

  lemma FreshId(spans: seq<Span>, i: nat)
    requires Unique(spans) && i < |spans|
    ensures spans[i].id !in IdSet(spans[..i])
  {}

  // ----- Walking down from a root -----

  ghost predicate IsRoot(t: Table, nodes: NodeMap, root: SpanNode) {
    root.span.id in nodes && nodes[root.span.id] == root && Par(t, root.span.id).None?
  }

  lemma ShapeAt(t: Table, kids: KidMap, x: Id)
    requires Shape(t, kids) && x in t
    ensures NoDup(kids[x]) && forall c :: c in kids[x] <==> c in t && Par(t, c) == Some(x)
  {}

  lemma SplitPending(open: seq<Id>)
    requires open != []
    ensures open == open[..|open| - 1] + [open[|open| - 1]]
  {}

  /** Pending ids after the last one was visited and its children pushed. */
  ghost function NextOpen(kids: KidMap, open: seq<Id>): seq<Id>
    requires open != [] && open[|open| - 1] in kids
  {
    open[..|open| - 1] + kids[open[|open| - 1]]
  }

  lemma PopStep(t: Table, kids: KidMap, root: Id, done: set<Id>, open: seq<Id>)
    requires Shape(t, kids) && Frontier(t, root, done, open) && open != []
    ensures var x := open[|open| - 1];
            x in t && x !in done && Frontier(t, root, done + {x}, NextOpen(kids, open))
  {
    var x, rest := open[|open| - 1], open[..|open| - 1];
    SplitPending(open);
    assert x in t by { assert x in open; }
    ShapeAt(t, kids, x);
    FrontierStep(t, root, done, rest, x, kids[x]);
  }

  ghost function Subtree(t: Table, x: Id): set<Id> {
    set y | y in t && AtOrBelow(t, x, y)
  }

  /** Pop the top entry and push the children one level deeper. */
  function PushChildren(stack: seq<(SpanNode, nat)>, children: seq<SpanNode>): seq<(SpanNode, nat)>
    requires stack != []
  {
    stack[..|stack| - 1] +
    seq(|children|, i requires 0 <= i < |children| => (children[i], stack[|stack| - 1].1 + 1))
  }

  ghost predicate DepthStack(t: Table, nodes: NodeMap, stack: seq<(SpanNode, nat)>, open: seq<Id>) {
    |stack| == |open| && forall i :: 0 <= i < |open| ==>
      open[i] in nodes && stack[i].0 == nodes[open[i]] && Grounded(t, open[i]) && stack[i].1 == DepthOf(t, open[i])
  }

  lemma PushDepths(t: Table, kids: KidMap, nodes: NodeMap, stack: seq<(SpanNode, nat)>, open: seq<Id>,
                   children: seq<SpanNode>)
    requires Shape(t, kids) && Indexed(t, nodes) && DepthStack(t, nodes, stack, open) && open != []
    requires var x := stack[|stack| - 1].0.span.id; x in t && Listed(nodes, children, kids[x])
    ensures var k := |open| - 1; var (node, d) := stack[k];
            && open[k] in t && open[k] == node.span.id && nodes[open[k]] == node && d == DepthOf(t, open[k])
            && DepthStack(t, nodes, PushChildren(stack, children), NextOpen(kids, open))
  {
    var k := |open| - 1;
    forall c | c in kids[open[k]] ensures Grounded(t, c) && DepthOf(t, c) == stack[k].1 + 1 {
      GroundedByParent(t, c);
      DepthParent(t, c);
    }
  }

  lemma TopIsNode(t: Table, nodes: NodeMap, stack: seq<(SpanNode, nat)>, open: seq<Id>)
    requires Indexed(t, nodes) && DepthStack(t, nodes, stack, open) && open != []
    ensures var node := stack[|stack| - 1].0; node.span.id in nodes && nodes[node.span.id] == node
  {}

  ghost predicate DepthsUpTo(t: Table, nodes: NodeMap, covered: set<Id>)
    reads Objects(nodes)`depth
  {
    forall y :: y in nodes ==> nodes[y].depth == if y in covered then DepthOf(t, y) else 0
  }

  method WriteDepth(ghost t: Table, ghost kids: KidMap, ghost nodes: NodeMap, node: SpanNode, depth: nat,
                    ghost written: set<Id>)
    requires Kin(t, kids, nodes) && node.span.id in nodes && nodes[node.span.id] == node
    requires DepthsUpTo(t, nodes, written) && depth == DepthOf(t, node.span.id)
    modifies node`depth
    ensures Kin(t, kids, nodes)
    ensures DepthsUpTo(t, nodes, written + {node.span.id})
  {
    node.depth := depth;
  }

  method SetDepthsBelow(ghost t: Table, ghost kids: KidMap, ghost nodes: NodeMap, root: SpanNode, ghost before: set<Id>)
    requires Kin(t, kids, nodes) && Shape(t, kids) && IsRoot(t, nodes, root)
    requires DepthsUpTo(t, nodes, before)
    modifies Objects(nodes)`depth
    ensures Kin(t, kids, nodes)
    ensures DepthsUpTo(t, nodes, before + Subtree(t, root.span.id))
  {
    var stack := [(root, 0)];
    ghost var r := root.span.id;
    ghost var open, done := [r], {};
    FrontierInit(t, r);
    GroundedByParent(t, r);
    DepthParent(t, r);
    assert before + done == before;
    while stack != []
      invariant Frontier(t, r, done, open) && DepthStack(t, nodes, stack, open)
      invariant Kin(t, kids, nodes)
      invariant DepthsUpTo(t, nodes, before + done)
      decreases t.Keys - done
    {
      var (node, depth) := stack[|stack| - 1];
      TopIsNode(t, nodes, stack, open);
      var children := node.children;
      PushDepths(t, kids, nodes, stack, open, children);
      PopStep(t, kids, r, done, open);
      WriteDepth(t, kids, nodes, node, depth, before + done);
      assert before + done + {node.span.id} == before + (done + {node.span.id});
      stack := PushChildren(stack, children);
      open, done := NextOpen(kids, open), done + {node.span.id};
    }
    FrontierAll(t, r, done);
  }

  lemma FrontierAll(t: Table, r: Id, done: set<Id>)
    requires Frontier(t, r, done, [])
    ensures done == Subtree(t, r)
  {
    forall y | y in t ensures y in done <==> AtOrBelow(t, r, y) { FrontierDone(t, r, done, y); }
  }

  // ----- One root after the other -----

  ghost predicate AllRoots(t: Table, rootIds: seq<Id>) {
    forall c :: c in rootIds <==> c in t && Par(t, c).None?
  }

  /** The spans below the first `n` roots. */
  ghost function Covered(t: Table, rootIds: seq<Id>, n: nat): set<Id>
    requires n <= |rootIds|
  {
    if n == 0 then {} else Covered(t, rootIds, n - 1) + Subtree(t, rootIds[n - 1])
  }

  lemma CoveredStep(t: Table, rootIds: seq<Id>, i: nat, x: Id)
    requires i < |rootIds| && rootIds[i] == x
    ensures Covered(t, rootIds, i + 1) == Covered(t, rootIds, i) + Subtree(t, x)
  {}

  lemma {:induction false} CoveredMembers(t: Table, rootIds: seq<Id>, n: nat, y: Id)
    requires n <= |rootIds|
    ensures y in Covered(t, rootIds, n) <==> exists j :: 0 <= j < n && AtOrBelow(t, rootIds[j], y)
  {
    if n > 0 { CoveredMembers(t, rootIds, n - 1, y); }
  }

  /** All roots together cover exactly the grounded spans. */
  lemma RootsCover(t: Table, rootIds: seq<Id>, y: Id)
    requires AllRoots(t, rootIds) && y in t
    ensures y in Covered(t, rootIds, |rootIds|) <==> Grounded(t, y)
  {
    CoveredMembers(t, rootIds, |rootIds|, y);
    GroundedIffUnderRoot(t, y);
    if r :| r in t && Par(t, r).None? && (r == y || Anc(t, r, y)) {
      assert r in rootIds;
      var j :| 0 <= j < |rootIds| && rootIds[j] == r;
      assert AtOrBelow(t, rootIds[j], y);
    }
    forall j | 0 <= j < |rootIds| && AtOrBelow(t, rootIds[j], y)
      ensures rootIds[j] in t && Par(t, rootIds[j]).None?
    {
      assert rootIds[j] in rootIds;
    }
  }

  lemma AllCovered(t: Table, rootIds: seq<Id>)
    requires AllRoots(t, rootIds)
    ensures forall y :: y in t ==> (y in Covered(t, rootIds, |rootIds|) <==> Grounded(t, y))
  {
    forall y | y in t ensures y in Covered(t, rootIds, |rootIds|) <==> Grounded(t, y) {
      RootsCover(t, rootIds, y);
    }
  }

  lemma RootAt(t: Table, nodes: NodeMap, roots: seq<SpanNode>, rootIds: seq<Id>, i: nat)
    requires Indexed(t, nodes) && Listed(nodes, roots, rootIds) && AllRoots(t, rootIds) && i < |roots|
    ensures IsRoot(t, nodes, roots[i]) && roots[i].span.id == rootIds[i]
  {
    assert rootIds[i] in rootIds;
  }

  method SetDepths(ghost t: Table, ghost kids: KidMap, ghost nodes: NodeMap, roots: seq<SpanNode>,
                   ghost rootIds: seq<Id>)
    requires Kin(t, kids, nodes) && Shape(t, kids)
    requires Listed(nodes, roots, rootIds) && AllRoots(t, rootIds)
    requires DepthsUpTo(t, nodes, {})
    modifies Objects(nodes)`depth
    ensures Kin(t, kids, nodes)
    ensures DepthsUpTo(t, nodes, Covered(t, rootIds, |rootIds|))
  {
    ghost var covered: set<Id> := {};
    var i := 0;
    while i < |roots|
      invariant 0 <= i <= |roots| == |rootIds| && covered == Covered(t, rootIds, i)
      invariant Kin(t, kids, nodes) && DepthsUpTo(t, nodes, covered)
    {
      RootAt(t, nodes, roots, rootIds, i);
      CoveredStep(t, rootIds, i, roots[i].span.id);
      SetDepthsBelow(t, kids, nodes, roots[i], covered);
      covered := covered + Subtree(t, roots[i].span.id);
      i := i + 1;
    }
  }

  lemma DepthsDone(t: Table, nodes: NodeMap, rootIds: seq<Id>)
    requires Indexed(t, nodes) && AllRoots(t, rootIds)
    requires DepthsUpTo(t, nodes, Covered(t, rootIds, |rootIds|))
    ensures forall y :: y in nodes ==> nodes[y].depth == DepthOf(t, y)
  {
    AllCovered(t, rootIds);
  }

  method SetAllDepths(ghost t: Table, ghost kids: KidMap, ghost nodes: NodeMap, roots: seq<SpanNode>,
                      ghost rootIds: seq<Id>)
    requires Kin(t, kids, nodes) && Shape(t, kids) && Parents(t, nodes) && Blank(nodes)
    requires Listed(nodes, roots, rootIds) && AllRoots(t, rootIds)
    requires AtDepthZero(nodes)
    modifies Objects(nodes)`depth
    ensures Kin(t, kids, nodes) && Parents(t, nodes) && Blank(nodes)
    ensures forall y :: y in nodes ==> nodes[y].depth == DepthOf(t, y)
  {
    SetDepths(t, kids, nodes, roots, rootIds);
    assert Blank(nodes);
    assert Parents(t, nodes);
    DepthsDone(t, nodes, rootIds);
  }

  /** Children and roots in the order of the list. */
  lemma ListOrder(spans: seq<Span>)
    requires Unique(spans)
    ensures Shape(TableOf(spans), KidsUpTo(TableOf(spans), spans))
    ensures AllRoots(TableOf(spans), Roots(spans))
  {
    KidsShape(spans);
  }

  method NewForest(spans: seq<Span>) returns (nodes: NodeMap, roots: seq<SpanNode>)
    requires Unique(spans)
    ensures fresh(Objects(nodes)) && Blank(nodes) && AtDepthZero(nodes)
    ensures Kin(TableOf(spans), KidsUpTo(TableOf(spans), spans), nodes) && Parents(TableOf(spans), nodes)
    ensures Listed(nodes, roots, Roots(spans))
  {
    nodes := CreateNodes(spans);
    roots := LinkNodes(spans, nodes);
  }

  method BuildTree(spans: seq<Span>, ghost t: Table, ghost kids: KidMap) returns (nodes: NodeMap, roots: seq<SpanNode>)
    requires Unique(spans) && t == TableOf(spans) && kids == KidsUpTo(t, spans)
    ensures fresh(Objects(nodes)) && Blank(nodes)
    ensures Kin(t, kids, nodes) && Parents(t, nodes) && Listed(nodes, roots, Roots(spans))
    ensures forall x :: x in nodes ==> nodes[x].depth == DepthOf(t, x)
  {
    nodes, roots := NewForest(spans);
    ListOrder(spans);
    SetAllDepths(t, kids, nodes, roots, Roots(spans));
  }

  // ----- Collecting a subtree -----

  /** Nodes below a root with every parent before its children. */
  method ReversePreOrder(ghost t: Table, ghost kids: KidMap, ghost nodes: NodeMap, root: SpanNode)
    returns (rpo: seq<SpanNode>, ghost order: seq<Id>)
    requires Kin(t, kids, nodes) && Shape(t, kids) && IsRoot(t, nodes, root)
    ensures Listed(nodes, rpo, order) && NoDup(order) && ParentsFirst(t, root.span.id, order)
    ensures SetOf(order) == Subtree(t, root.span.id)
  {
    ghost var r := root.span.id;
    var stack := [root];
    ghost var open := [r];
    rpo, order := [], [];
    FrontierInit(t, r);
    while stack != []
      invariant Frontier(t, r, SetOf(order), open) && Listed(nodes, stack, open)
      invariant Listed(nodes, rpo, order) && NoDup(order) && ParentsFirst(t, r, order)
      decreases t.Keys - SetOf(order)
    {
      var node := stack[|stack| - 1];
      PopStep(t, kids, r, SetOf(order), open);
      PopNode(t, kids, nodes, stack, open, node.children);
      OrderStep(t, r, order, open);
      stack := PushNodes(stack, node.children);
      rpo, order, open := rpo + [node], order + [node.span.id], NextOpen(kids, open);
    }
    FrontierAll(t, r, SetOf(order));
  }

  function PushNodes(stack: seq<SpanNode>, children: seq<SpanNode>): seq<SpanNode>
    requires stack != []
  {
    stack[..|stack| - 1] + children
  }

  lemma PopNode(t: Table, kids: KidMap, nodes: NodeMap, stack: seq<SpanNode>, open: seq<Id>, children: seq<SpanNode>)
    requires Indexed(t, nodes) && kids.Keys == t.Keys && Listed(nodes, stack, open) && open != []
    requires Listed(nodes, children, kids[open[|open| - 1]])
    ensures var node := stack[|stack| - 1];
            node.span.id == open[|open| - 1] && node.span.id in nodes && nodes[node.span.id] == node
    ensures Listed(nodes, PushNodes(stack, children), NextOpen(kids, open))
  {}

  lemma OrderStep(t: Table, r: Id, order: seq<Id>, open: seq<Id>)
    requires Frontier(t, r, SetOf(order), open) && open != [] && NoDup(order) && ParentsFirst(t, r, order)
    ensures var x := open[|open| - 1];
            && NoDup(order + [x]) && ParentsFirst(t, r, order + [x])
            && SetOf(order + [x]) == SetOf(order) + {x}
  {
    var x := open[|open| - 1];
    assert x in open;
    NoDupSnoc(order, x);
    assert forall i :: 0 <= i <= |order| ==> (order + [x])[..i] == order[..i];
  }
}
