/** The two report builders of the blame engine: depth-first loops over the analysed nodes. */
module BlameReports {
  import opened Common
  import opened Spans
  import opened Roles
  import opened Forest
  import opened Reports
  import opened Worklist
  import opened BlameTree
  import opened BlamePasses

  /** The stack holds the pending spans, the next one on top. */
  ghost predicate Stacked(nodes: NodeMap, stack: seq<SpanNode>, pending: seq<Id>) {
    |stack| == |pending| && forall i :: 0 <= i < |pending| ==>
      pending[i] in nodes && stack[|stack| - 1 - i] == nodes[pending[i]]
  }

  /** Pop the top and push the children so that the leftmost comes next. */
  function PushReversed(stack: seq<SpanNode>, children: seq<SpanNode>): seq<SpanNode>
    requires stack != []
  {
    stack[..|stack| - 1] + Reverse(children)
  }

  function Pop(stack: seq<SpanNode>): seq<SpanNode>
    requires stack != []
  {
    stack[..|stack| - 1]
  }

  lemma StackedRoots(nodes: NodeMap, roots: seq<SpanNode>, rootIds: seq<Id>)
    requires Listed(nodes, roots, rootIds)
    ensures Stacked(nodes, Reverse(roots), rootIds)
  {}

  lemma StackedPop(nodes: NodeMap, stack: seq<SpanNode>, pending: seq<Id>)
    requires Stacked(nodes, stack, pending) && pending != []
    ensures pending[0] in nodes && stack[|stack| - 1] == nodes[pending[0]]
    ensures Stacked(nodes, Pop(stack), pending[1..])
  {
    assert stack[|stack| - 1 - 0] == nodes[pending[0]];
    forall i | 0 <= i < |pending| - 1
      ensures pending[1..][i] in nodes && Pop(stack)[|pending| - 2 - i] == nodes[pending[1..][i]]
    {
      assert pending[1..][i] == pending[i + 1];
      assert stack[|stack| - 1 - (i + 1)] == nodes[pending[i + 1]];
    }
  }

  lemma StackedPush(nodes: NodeMap, stack: seq<SpanNode>, rest: seq<Id>, children: seq<SpanNode>, ks: seq<Id>)
    requires stack != [] && Stacked(nodes, Pop(stack), rest) && Listed(nodes, children, ks)
    ensures Stacked(nodes, PushReversed(stack, children), ks + rest)
  {
    var next, pending := PushReversed(stack, children), ks + rest;
    forall i | 0 <= i < |pending|
      ensures pending[i] in nodes && next[|next| - 1 - i] == nodes[pending[i]]
    {
      if i < |ks| {
        assert next[|next| - 1 - i] == Reverse(children)[|ks| - 1 - i] == children[i];
      } else {
        assert pending[i] == rest[i - |ks|];
        assert next[|next| - 1 - i] == Pop(stack)[|Pop(stack)| - 1 - (i - |ks|)];
      }
    }
  }

  // ----- Propagation chain -----

  ghost predicate LeftToTell(spans: seq<Span>, pending: seq<Id>, left: seq<ChainLine>) {
    AllGrounded(TableOf(spans), pending) && left == ChainFrom(spans, pending)
  }

  ghost function ListingSize(spans: seq<Span>, pending: seq<Id>): nat {
    if AllGrounded(TableOf(spans), pending) then |PreOrder(spans, pending)| else 0
  }

  lemma Tell(spans: seq<Span>, pending: seq<Id>, left: seq<ChainLine>) returns (next: seq<ChainLine>)
    requires LeftToTell(spans, pending, left) && pending != []
    ensures Grounded(TableOf(spans), pending[0])
    ensures left == OwnLine(TableOf(spans), pending[0]) + next
    ensures LeftToTell(spans, Kids(spans, pending[0]) + pending[1..], next)
    ensures ListingSize(spans, Kids(spans, pending[0]) + pending[1..]) < ListingSize(spans, pending)
  {
    var x, rest := pending[0], pending[1..];
    assert pending == [x] + rest;
    ChainStep(spans, x, rest);
    PreOrderStep(spans, x, rest);
    next := ChainFrom(spans, Kids(spans, x) + rest);
  }

  lemma Skip(spans: seq<Span>, pending: seq<Id>, left: seq<ChainLine>)
    requires LeftToTell(spans, pending, left) && pending != []
    requires !SubtreeBad(TableOf(spans), pending[0])
    ensures LeftToTell(spans, pending[1..], left)
    ensures ListingSize(spans, pending[1..]) < ListingSize(spans, pending)
  {
    var x, rest := pending[0], pending[1..];
    assert pending == [x] + rest;
    ChainPrune(spans, x, rest);
    PreOrderAppend(spans, [x], rest);
    PreOrderStep(spans, x, []);
    assert Kids(spans, x) + [] == Kids(spans, x);
    assert [x] + [] == [x];
  }

  /** What the loop reads in a node. */
  ghost predicate Told(t: Table, kids: KidMap, nodes: NodeMap, node: SpanNode)
    reads node
  {
    var x := node.span.id;
    && x in kids && Listed(nodes, node.children, kids[x]) && x in t && t[x] == node.span
    && node.selfBad == Bad(node.span) && node.selfError == HasError(node.span)
    && node.subtreeBad == SubtreeBad(t, x) && node.role == RoleOf(t, x)
  }

  method EmitLine(ghost t: Table, ghost kids: KidMap, ghost nodes: NodeMap, node: SpanNode)
    returns (lines: seq<ChainLine>)
    requires Told(t, kids, nodes, node)
    ensures lines == OwnLine(t, node.span.id)
  {
    var x := node.span.id;
    if node.role == Originator {
      lines := if node.selfError then [Failed(x)] else [ProducedBadOutput(x)];
    } else if node.role == Propagator {
      lines := [PropagatedFailure(x)];
    } else if node.role == Manifestor {
      lines := if node.selfError then [FailedUpstream(x)] else [ReceivedBadInput(x)];
    } else {
      lines := [];
    }
  }

  ghost predicate AllTold(t: Table, kids: KidMap, nodes: NodeMap)
    reads Objects(nodes)
  {
    forall x :: x in nodes ==> Told(t, kids, nodes, nodes[x])
  }

  ghost predicate Context(spans: seq<Span>, t: Table, kids: KidMap, nodes: NodeMap)
    reads Objects(nodes)
  {
    && t == TableOf(spans) && AllTold(t, kids, nodes)
    && (forall x :: x in kids ==> kids[x] == Kids(spans, x))
    && (forall x :: x in nodes ==> nodes[x].span.id == x)
  }

  /** One visit: skip a branch without a bad span, or emit its line and go to its children. */
  method TellStep(ghost spans: seq<Span>, ghost t: Table, ghost kids: KidMap, ghost nodes: NodeMap,
                  stack: seq<SpanNode>, ghost pending: seq<Id>, ghost left: seq<ChainLine>)
    returns (next: seq<SpanNode>, lines: seq<ChainLine>, ghost after: seq<Id>, ghost rest: seq<ChainLine>)
    requires Context(spans, t, kids, nodes)
    requires stack != [] && Stacked(nodes, stack, pending) && LeftToTell(spans, pending, left)
    ensures Stacked(nodes, next, after) && LeftToTell(spans, after, rest)
    ensures left == lines + rest && ListingSize(spans, after) < ListingSize(spans, pending)
  {
    StackedPop(nodes, stack, pending);
    var node := stack[|stack| - 1];
    ghost var x := pending[0];
    assert Told(t, kids, nodes, nodes[x]);
    if !node.subtreeBad && !node.selfBad {
      Skip(spans, pending, left);
      next, after, lines, rest := Pop(stack), pending[1..], [], left;
    } else {
      lines := EmitLine(t, kids, nodes, node);
      rest := Tell(spans, pending, left);
      StackedPush(nodes, stack, pending[1..], node.children, kids[x]);
      next, after := PushReversed(stack, node.children), Kids(spans, x) + pending[1..];
    }
  }

  method TellChain(ghost spans: seq<Span>, ghost t: Table, ghost kids: KidMap, ghost nodes: NodeMap,
                   roots: seq<SpanNode>)
    returns (chain: seq<ChainLine>)
    requires Context(spans, t, kids, nodes) && Listed(nodes, roots, Roots(spans))
    ensures AllGrounded(t, Roots(spans)) && chain == ChainFrom(spans, Roots(spans))
  {
    chain := [];
    RootsGrounded(spans);
    StackedRoots(nodes, roots, Roots(spans));
    var stack := Reverse(roots);
    ghost var pending, left := Roots(spans), ChainFrom(spans, Roots(spans));
    ghost var all := left;
    while stack != []
      invariant Stacked(nodes, stack, pending) && LeftToTell(spans, pending, left)
      invariant chain + left == all
      decreases ListingSize(spans, pending)
    {
      var lines;
      ghost var rest;
      stack, lines, pending, rest := TellStep(spans, t, kids, nodes, stack, pending, left);
      Shift(chain, lines, rest);
      chain, left := chain + lines, rest;
    }
    NothingLeft(spans, pending, left);
  }

  lemma NothingLeft(spans: seq<Span>, pending: seq<Id>, left: seq<ChainLine>)
    requires LeftToTell(spans, pending, left) && pending == []
    ensures left == []
  {}

  /** The narrative of the failure: one line per bad span in pre-order, or a placeholder. */
  method BuildPropagationChain(ghost spans: seq<Span>, ghost t: Table, ghost kids: KidMap, ghost nodes: NodeMap,
                               roots: seq<SpanNode>) returns (chain: seq<ChainLine>)
    requires Context(spans, t, kids, nodes) && Listed(nodes, roots, Roots(spans))
    ensures AllGrounded(t, Roots(spans))
    ensures var told := ChainFrom(spans, Roots(spans)); chain == if told != [] then told else [NoDetail]
  {
    chain := TellChain(spans, t, kids, nodes, roots);
    if chain == [] {
      chain := [NoDetail];
    }
  }

  // ----- Full chain: which spans -----

  /** A span is on a failure path when it has a role or a child on such a path. */
  lemma OnPathRule(t: Table, kids: KidMap, x: Id)
    requires Shape(t, kids) && Grounded(t, x)
    ensures SubtreeBad(t, x) <==>
            RoleOf(t, x) != Clean || exists j :: 0 <= j < |kids[x]| && SubtreeBad(t, kids[x][j])
  {
    RolesCharacterised(t, x);
    forall c | c in kids[x] ensures Grounded(t, c) { GroundedByParent(t, c); RolesCharacterised(t, c); }
    if y :| y in t && Bad(t[y]) && Anc(t, x, y) {
      var c := AncChild(t, x, y);
      assert c in kids[x];
      var j :| 0 <= j < |kids[x]| && kids[x][j] == c;
      RolesCharacterised(t, c);
    }
    if j :| 0 <= j < |kids[x]| && SubtreeBad(t, kids[x][j]) {
      var c := kids[x][j];
      assert c in kids[x];
      RolesCharacterised(t, c);
      var y :| y in t && Bad(t[y]) && (y == c || Anc(t, c, y));
      AncStep(t, x, c);
      if y != c { AncTrans(t, x, c, y); }
    }
  }

  ghost predicate PathMap(t: Table, onPath: map<Id, bool>) {
    forall x :: x in onPath ==> x in t && onPath[x] == SubtreeBad(t, x)
  }

  method ChildOnPath(ghost t: Table, children: seq<SpanNode>, ghost ks: seq<Id>, onPath: map<Id, bool>)
    returns (found: bool)
    requires |children| == |ks| && forall i :: 0 <= i < |ks| ==> children[i].span.id == ks[i] && ks[i] in onPath
    requires PathMap(t, onPath)
    ensures found <==> exists j :: 0 <= j < |ks| && SubtreeBad(t, ks[j])
  {
    found := false;
    for i := 0 to |children|
      invariant forall j :: 0 <= j < i ==> !SubtreeBad(t, ks[j])
    {
      var c := children[i].span.id;
      assert c == ks[i];
      if c in onPath && onPath[c] {
        return true;
      }
    }
  }

  method OnPath(ghost t: Table, ghost kids: KidMap, ghost nodes: NodeMap, node: SpanNode, onPath: map<Id, bool>)
    returns (b: bool)
    requires Told(t, kids, nodes, node) && Shape(t, kids) && Grounded(t, node.span.id) && PathMap(t, onPath)
    requires forall x :: x in nodes ==> nodes[x].span.id == x
    requires forall c :: c in kids[node.span.id] ==> c in onPath
    ensures b == SubtreeBad(t, node.span.id)
  {
    ghost var ks := kids[node.span.id];
    assert forall i :: 0 <= i < |ks| ==> ks[i] in ks;
    OnPathRule(t, kids, node.span.id);
    var childOnPath := ChildOnPath(t, node.children, ks, onPath);
    if node.role == Clean {
      b := childOnPath;
    } else {
      b := node.role in {Originator, Propagator, Manifestor} || childOnPath;
    }
  }

  /** The verdicts found so far, and the ids collected from them. */
  ghost predicate PathsFound(t: Table, onPath: map<Id, bool>, chainIds: set<Id>, done: set<Id>) {
    onPath.Keys == done && PathMap(t, onPath) && chainIds == SliceIds(t) * done
  }

  lemma PathStep(t: Table, onPath: map<Id, bool>, chainIds: set<Id>, done: set<Id>, x: Id, b: bool)
    requires PathsFound(t, onPath, chainIds, done) && x in t && b == SubtreeBad(t, x)
    ensures PathsFound(t, onPath[x := b], if b then chainIds + {x} else chainIds, done + {x})
  {}

  method OnPathStep(ghost spans: seq<Span>, ghost t: Table, ghost kids: KidMap, ghost nodes: NodeMap, node: SpanNode,
                    onPath: map<Id, bool>, chainIds: set<Id>, ghost done: set<Id>)
    returns (more: map<Id, bool>, ids: set<Id>)
    requires Context(spans, t, kids, nodes) && Shape(t, kids) && PathsFound(t, onPath, chainIds, done)
    requires node.span.id in nodes && nodes[node.span.id] == node && Grounded(t, node.span.id)
    requires forall c :: c in kids[node.span.id] ==> c in done
    ensures PathsFound(t, more, ids, done + {node.span.id})
  {
    assert Told(t, kids, nodes, nodes[node.span.id]);
    var b := OnPath(t, kids, nodes, node, onPath);
    PathStep(t, onPath, chainIds, done, node.span.id, b);
    more := onPath[node.span.id := b];
    ids := if b then chainIds + {node.span.id} else chainIds;
  }

  /** The same at one place of the post-order. */
  method OnPathAt(ghost spans: seq<Span>, ghost t: Table, ghost kids: KidMap, ghost nodes: NodeMap, ghost root: Id,
                  rpo: seq<SpanNode>, ghost order: seq<Id>, i: nat, onPath: map<Id, bool>, chainIds: set<Id>)
    returns (more: map<Id, bool>, ids: set<Id>)
    requires Context(spans, t, kids, nodes) && Indexed(t, nodes) && Shape(t, kids)
    requires Listed(nodes, rpo, order) && NoDup(order) && ParentsFirst(t, root, order) && i < |order|
    requires root in t && Par(t, root).None? && SetOf(order) == Subtree(t, root)
    requires PathsFound(t, onPath, chainIds, SetOf(order[i + 1..]))
    ensures Context(spans, t, kids, nodes) && PathsFound(t, more, ids, SetOf(order[i..]))
  {
    PostOrderStep(t, kids, nodes, root, rpo, order, i);
    more, ids := OnPathStep(spans, t, kids, nodes, rpo[i], onPath, chainIds, SetOf(order[i + 1..]));
  }

  /** Spans below one root that lie on a failure path. */
  method OnPathBelow(ghost spans: seq<Span>, ghost t: Table, ghost kids: KidMap, ghost nodes: NodeMap, root: SpanNode)
    returns (chainIds: set<Id>)
    requires Context(spans, t, kids, nodes) && Kin(t, kids, nodes) && Shape(t, kids) && IsRoot(t, nodes, root)
    ensures chainIds == SliceIds(t) * Subtree(t, root.span.id)
  {
    ghost var r := root.span.id;
    var rpo, order := ReversePreOrder(t, kids, nodes, root);
    var onPath: map<Id, bool> := map[];
    chainIds := {};
    var i := |rpo|;
    assert order[i..] == [];
    while i > 0
      invariant 0 <= i <= |order| && PathsFound(t, onPath, chainIds, SetOf(order[i..]))
      invariant Context(spans, t, kids, nodes)
    {
      i := i - 1;
      onPath, chainIds := OnPathAt(spans, t, kids, nodes, r, rpo, order, i, onPath, chainIds);
    }
    assert order[0..] == order;
  }

  // ----- Full chain: in which order -----

  ghost predicate LeftToList(spans: seq<Span>, pending: seq<Id>, keep: set<Id>, left: seq<Span>) {
    AllGrounded(TableOf(spans), pending) && left == Pick(PreOrder(spans, pending), keep)
  }

  lemma ListNext(spans: seq<Span>, pending: seq<Id>, keep: set<Id>, left: seq<Span>) returns (next: seq<Span>)
    requires LeftToList(spans, pending, keep, left) && pending != []
    ensures Grounded(TableOf(spans), pending[0])
    ensures left == (if pending[0] in keep then [TableOf(spans)[pending[0]]] else []) + next
    ensures LeftToList(spans, Kids(spans, pending[0]) + pending[1..], keep, next)
    ensures ListingSize(spans, Kids(spans, pending[0]) + pending[1..]) < ListingSize(spans, pending)
  {
    var x, rest := pending[0], pending[1..];
    assert pending == [x] + rest;
    PreOrderStep(spans, x, rest);
    next := Pick(PreOrder(spans, Kids(spans, x) + rest), keep);
    assert ([TableOf(spans)[x]] + PreOrder(spans, Kids(spans, x) + rest))[1..] ==
           PreOrder(spans, Kids(spans, x) + rest);
  }

  method ListStep(ghost spans: seq<Span>, ghost t: Table, ghost kids: KidMap, ghost nodes: NodeMap, keep: set<Id>,
                  stack: seq<SpanNode>, ghost pending: seq<Id>, ghost left: seq<Span>)
    returns (next: seq<SpanNode>, listed: seq<Span>, ghost after: seq<Id>, ghost rest: seq<Span>)
    requires Context(spans, t, kids, nodes)
    requires stack != [] && Stacked(nodes, stack, pending) && LeftToList(spans, pending, keep, left)
    ensures Stacked(nodes, next, after) && LeftToList(spans, after, keep, rest)
    ensures left == listed + rest && ListingSize(spans, after) < ListingSize(spans, pending)
  {
    StackedPop(nodes, stack, pending);
    var node := stack[|stack| - 1];
    ghost var x := pending[0];
    assert Told(t, kids, nodes, nodes[x]);
    rest := ListNext(spans, pending, keep, left);
    listed := if node.span.id in keep then [node.span] else [];
    StackedPush(nodes, stack, pending[1..], node.children, kids[x]);
    next, after := PushReversed(stack, node.children), Kids(spans, x) + pending[1..];
  }

  /** The kept spans below one root, in pre-order. */
  method ListBelow(ghost spans: seq<Span>, ghost t: Table, ghost kids: KidMap, ghost nodes: NodeMap, root: SpanNode,
                   keep: set<Id>)
    returns (ordered: seq<Span>)
    requires Context(spans, t, kids, nodes) && IsRoot(t, nodes, root) && root.span.id in t
    ensures AllGrounded(t, [root.span.id]) && ordered == Pick(PreOrder(spans, [root.span.id]), keep)
  {
    ordered := [];
    GroundedByParent(t, root.span.id);
    var stack := [root];
    ghost var pending := [root.span.id];
    ghost var left := Pick(PreOrder(spans, pending), keep);
    ghost var all := left;
    while stack != []
      invariant Stacked(nodes, stack, pending) && LeftToList(spans, pending, keep, left)
      invariant ordered + left == all
      decreases ListingSize(spans, pending)
    {
      var listed;
      ghost var rest;
      stack, listed, pending, rest := ListStep(spans, t, kids, nodes, keep, stack, pending, left);
      Shift(ordered, listed, rest);
      ordered, left := ordered + listed, rest;
    }
    NothingToList(spans, pending, keep, left);
  }

  lemma NothingToList(spans: seq<Span>, pending: seq<Id>, keep: set<Id>, left: seq<Span>)
    requires LeftToList(spans, pending, keep, left) && pending == []
    ensures left == []
  {}

  // ----- Full chain -----

  /** `(n for n in node_map.values() if n.parent is None)`. */
  /** A span is a root exactly when its node has no parent. */
  lemma NextRoot(t: Table, nodes: NodeMap, spans: seq<Span>, i: nat)
    requires i < |spans| && t == TableOf(spans) && Indexed(t, nodes) && Parents(t, nodes) && spans[i].id in nodes
    ensures RootsIn(t, spans[..i + 1]) == AddRoot(RootsIn(t, spans[..i]), Par(t, spans[i].id), spans[i].id)
    ensures nodes[spans[i].id].parent == null <==> Par(t, spans[i].id).None?
  {
    PrefixSnoc(spans, i);
    KidsInStep(t, spans[..i], spans[i], "");
  }

  method RootNodes(ghost spans: seq<Span>, ghost t: Table, nodes: NodeMap, order: seq<Id>)
    returns (roots: seq<SpanNode>)
    requires t == TableOf(spans) && Indexed(t, nodes) && Parents(t, nodes)
    requires |order| == |spans| && forall i :: 0 <= i < |order| ==> order[i] == spans[i].id && order[i] in nodes
    ensures Listed(nodes, roots, Roots(spans))
  {
    roots := [];
    for i := 0 to |order|
      invariant Listed(nodes, roots, RootsIn(t, spans[..i]))
    {
      NextRoot(t, nodes, spans, i);
      var node := nodes[order[i]];
      if node.parent == null {
        roots := roots + [node];
      }
    }
    assert spans[..|order|] == spans;
  }

  lemma CoveredIsGrounded(t: Table, rootIds: seq<Id>)
    requires AllRoots(t, rootIds)
    ensures SliceIds(t) * Covered(t, rootIds, |rootIds|) == SliceIds(t)
  {
    AllCovered(t, rootIds);
  }

  lemma Distribute(s: set<Id>, a: set<Id>, b: set<Id>)
    ensures s * a + s * b == s * (a + b)
  {}

  method FailurePathIds(ghost spans: seq<Span>, ghost t: Table, ghost kids: KidMap, ghost nodes: NodeMap,
                        roots: seq<SpanNode>) returns (chainIds: set<Id>)
    requires Context(spans, t, kids, nodes) && Kin(t, kids, nodes) && Shape(t, kids)
    requires Listed(nodes, roots, Roots(spans)) && AllRoots(t, Roots(spans))
    ensures chainIds == SliceIds(t)
  {
    ghost var rootIds := Roots(spans);
    ghost var covered: set<Id> := {};
    chainIds := {};
    var i := 0;
    while i < |roots|
      invariant 0 <= i <= |roots| == |rootIds| && covered == Covered(t, rootIds, i)
      invariant chainIds == SliceIds(t) * covered
    {
      RootAt(t, nodes, roots, rootIds, i);
      CoveredStep(t, rootIds, i, roots[i].span.id);
      var below := OnPathBelow(spans, t, kids, nodes, roots[i]);
      Distribute(SliceIds(t), covered, Subtree(t, roots[i].span.id));
      chainIds := chainIds + below;
      covered := covered + Subtree(t, roots[i].span.id);
      i := i + 1;
    }
    CoveredIsGrounded(t, rootIds);
  }

  lemma ListingStep(spans: seq<Span>, rootIds: seq<Id>, i: nat, keep: set<Id>)
    requires i < |rootIds| && AllGrounded(TableOf(spans), rootIds)
    ensures AllGrounded(TableOf(spans), rootIds[..i]) && AllGrounded(TableOf(spans), [rootIds[i]])
    ensures AllGrounded(TableOf(spans), rootIds[..i + 1])
    ensures Pick(PreOrder(spans, rootIds[..i + 1]), keep) ==
            Pick(PreOrder(spans, rootIds[..i]), keep) + Pick(PreOrder(spans, [rootIds[i]]), keep)
  {
    assert rootIds[..i + 1] == rootIds[..i] + [rootIds[i]];
    assert rootIds[i] in rootIds;
    assert AllGrounded(TableOf(spans), rootIds[..i]);
    PreOrderAppend(spans, rootIds[..i], [rootIds[i]]);
    PickAppend(PreOrder(spans, rootIds[..i]), PreOrder(spans, [rootIds[i]]), keep);
  }

  ghost predicate ListedSoFar(spans: seq<Span>, rootIds: seq<Id>, i: nat, keep: set<Id>, ordered: seq<Span>) {
    i <= |rootIds| && AllGrounded(TableOf(spans), rootIds[..i]) && ordered == Pick(PreOrder(spans, rootIds[..i]), keep)
  }

  method ListAll(ghost spans: seq<Span>, ghost t: Table, ghost kids: KidMap, ghost nodes: NodeMap,
                 roots: seq<SpanNode>, keep: set<Id>) returns (ordered: seq<Span>)
    requires Context(spans, t, kids, nodes) && Indexed(t, nodes)
    requires Listed(nodes, roots, Roots(spans)) && AllRoots(t, Roots(spans))
    ensures ordered == Pick(Listing(spans), keep)
  {
    ghost var rootIds := Roots(spans);
    RootsGrounded(spans);
    ordered := [];
    assert rootIds[..0] == [];
    var i := 0;
    while i < |roots|
      invariant 0 <= i <= |roots| == |rootIds| && ListedSoFar(spans, rootIds, i, keep, ordered)
    {
      RootAt(t, nodes, roots, rootIds, i);
      ListingStep(spans, rootIds, i, keep);
      var below := ListBelow(spans, t, kids, nodes, roots[i], keep);
      ordered := ordered + below;
      i := i + 1;
    }
    assert rootIds[..i] == rootIds;
  }

  /** Ids the full chain keeps: the failure paths, or the first reported originator when there are none. */
  function KeptIds(paths: set<Id>, first: Option<Id>): set<Id> {
    if paths == {} && first.Some? then {first.value} else paths
  }

  /** The full chain as a value. */
  ghost function FullChain(spans: seq<Span>, first: Option<Id>): seq<Span>
    requires first.None? || first.value in TableOf(spans)
  {
    var ordered := Pick(Listing(spans), KeptIds(SliceIds(TableOf(spans)), first));
    if ordered != [] || first.None? then ordered else [TableOf(spans)[first.value]]
  }

  lemma FullChainCases(spans: seq<Span>, first: Option<Id>, ordered: seq<Span>)
    requires first.None? || first.value in TableOf(spans)
    requires ordered == Pick(Listing(spans), KeptIds(SliceIds(TableOf(spans)), first))
    ensures ordered != [] || first.None? ==> FullChain(spans, first) == ordered
    ensures ordered == [] && first.Some? ==> FullChain(spans, first) == [TableOf(spans)[first.value]]
  {}

  /** With a grounded bad span, the fallbacks play no part. */
  lemma FullChainIsFailing(spans: seq<Span>, first: Option<Id>, x: Id)
    requires Unique(spans) && (first.None? || first.value in TableOf(spans))
    requires x in TableOf(spans) && SubtreeBad(TableOf(spans), x)
    ensures FullChain(spans, first) == FailingBranches(spans)
  {
    FailingBranchesExact(spans, TableOf(spans)[x]);
    assert x in SliceIds(TableOf(spans));
  }

  method BuildFullChain(ghost spans: seq<Span>, ghost t: Table, ghost kids: KidMap, nodes: NodeMap, order: seq<Id>,
                        first: Option<SpanNode>) returns (chain: seq<Span>)
    requires Context(spans, t, kids, nodes) && Kin(t, kids, nodes) && Shape(t, kids) && Parents(t, nodes)
    requires |order| == |spans| && forall i :: 0 <= i < |order| ==> order[i] == spans[i].id && order[i] in nodes
    requires AllRoots(t, Roots(spans))
    requires first.Some? ==> first.value.span.id in t && t[first.value.span.id] == first.value.span
    ensures chain == FullChain(spans, if first.Some? then Some(first.value.span.id) else None)
  {
    var roots := RootNodes(spans, t, nodes, order);
    var paths := FailurePathIds(spans, t, kids, nodes, roots);
    var firstId := if first.Some? then Some(first.value.span.id) else None;
    chain := ListAll(spans, t, kids, nodes, roots, KeptIds(paths, firstId));
    FullChainCases(spans, firstId, chain);
    if chain == [] && first.Some? {
      chain := [first.value.span];
    }
  }
}
