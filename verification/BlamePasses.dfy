/** Passes 2 to 5 over the mutable nodes, each tied to its meaning on the table. */
module BlamePasses {
  import opened Common
  import opened Spans
  import opened Roles
  import opened Worklist
  import opened BlameTree

  // ----- Pass 2: intrinsic state -----

  ghost predicate Marked(node: SpanNode)
    reads node`selfError, node`selfNullOutput, node`selfEmptyOutput, node`selfBad, node`selfBadInput
  {
    && node.selfError == HasError(node.span)
    && node.selfNullOutput == NullOutput(node.span)
    && node.selfEmptyOutput == EmptyOutput(node.span)
    && node.selfBad == Bad(node.span)
    && node.selfBadInput == BadInput(node.span)
  }

  ghost predicate Intrinsic(nodes: NodeMap)
    reads Objects(nodes)`selfError, Objects(nodes)`selfNullOutput, Objects(nodes)`selfEmptyOutput,
          Objects(nodes)`selfBad, Objects(nodes)`selfBadInput
  {
    forall x :: x in nodes ==> Marked(nodes[x])
  }

  method MarkNode(node: SpanNode)
    modifies node`selfError, node`selfNullOutput, node`selfEmptyOutput, node`selfBad, node`selfBadInput
    ensures Marked(node)
  {
    node.selfError := HasError(node.span);
    node.selfNullOutput := NullOutput(node.span);
    node.selfEmptyOutput := EmptyOutput(node.span);
    node.selfBad := node.selfError || node.selfNullOutput || node.selfEmptyOutput;
    node.selfBadInput := BadInput(node.span);
  }

  method MarkIntrinsic(nodes: NodeMap, order: seq<Id>)
    requires SetOf(order) == nodes.Keys
    modifies Objects(nodes)`selfError, Objects(nodes)`selfNullOutput, Objects(nodes)`selfEmptyOutput,
             Objects(nodes)`selfBad, Objects(nodes)`selfBadInput
    ensures Intrinsic(nodes)
  {
    for i := 0 to |order|
      invariant forall x :: x in nodes && x in order[..i] ==> Marked(nodes[x])
    {
      assert order[i] in SetOf(order);
      PrefixSnoc(order, i);
      MarkNode(nodes[order[i]]);
    }
    assert order[..|order|] == order;
  }

  // ----- Pass 3: aggregate bottom-up -----

  ghost predicate Aggregated(t: Table, node: SpanNode)
    reads node`badDescendantCount, node`subtreeBad
  {
    && node.badDescendantCount == |BadBelow(t, node.span.id)|
    && node.subtreeBad == (Bad(node.span) || BadBelow(t, node.span.id) != {})
  }

  /** Counts are final on `covered` and initial elsewhere. */
  ghost predicate CountsUpTo(t: Table, nodes: NodeMap, covered: set<Id>)
    reads Objects(nodes)`badDescendantCount, Objects(nodes)`subtreeBad
  {
    forall y :: y in nodes ==>
      if y in covered then Aggregated(t, nodes[y])
      else nodes[y].badDescendantCount == 0 && !nodes[y].subtreeBad
  }

  lemma SumKidsStep(t: Table, cs: seq<Id>, i: nat)
    requires i < |cs| && forall c :: c in cs ==> c in t
    ensures SumKids(t, cs[..i + 1]) == SumKids(t, cs[..i]) + |BadBelow(t, cs[i])| + One(Bad(t[cs[i]]))
  {
    assert cs[..i + 1][..i] == cs[..i];
  }

  /** What this pass reads: children, and which spans are bad. */
  ghost predicate Judged(t: Table, kids: KidMap, nodes: NodeMap)
    reads Objects(nodes)`children, Objects(nodes)`selfBad
  {
    Kin(t, kids, nodes) && forall x :: x in nodes ==> nodes[x].selfBad == Bad(nodes[x].span)
  }

  method SumChildren(ghost t: Table, ghost kids: KidMap, ghost cs: seq<Id>, ghost nodes: NodeMap,
                     children: seq<SpanNode>)
    returns (sum: nat)
    requires Judged(t, kids, nodes) && Listed(nodes, children, cs)
    requires forall c :: c in cs ==> c in t && Aggregated(t, nodes[c])
    ensures sum == SumKids(t, cs)
  {
    sum := 0;
    for i := 0 to |children|
      invariant sum == SumKids(t, cs[..i])
    {
      var child := children[i];
      assert cs[i] in cs && child == nodes[cs[i]];
      SumKidsStep(t, cs, i);
      sum := sum + child.badDescendantCount + One(child.selfBad);
    }
    assert cs[..|children|] == cs;
  }

  method WriteCount(ghost t: Table, ghost kids: KidMap, ghost nodes: NodeMap, node: SpanNode, sum: nat,
                    ghost covered: set<Id>)
    requires Judged(t, kids, nodes) && node.span.id in nodes && nodes[node.span.id] == node
    requires CountsUpTo(t, nodes, covered) && sum == |BadBelow(t, node.span.id)|
    modifies node`badDescendantCount, node`subtreeBad
    ensures Judged(t, kids, nodes)
    ensures CountsUpTo(t, nodes, covered + {node.span.id})
  {
    ghost var x, below := node.span.id, BadBelow(t, node.span.id);
    assert sum > 0 <==> below != {};
    node.badDescendantCount := sum;
    node.subtreeBad := node.selfBad || node.badDescendantCount > 0;
    assert Aggregated(t, nodes[x]);
  }

  lemma SuffixStep(order: seq<Id>, i: nat)
    requires i < |order|
    ensures SetOf(order[i..]) == SetOf(order[i + 1..]) + {order[i]}
  {
    assert order[i..] == [order[i]] + order[i + 1..];
  }

  lemma ChildrenLater(t: Table, kids: KidMap, root: Id, order: seq<Id>, i: nat)
    requires Shape(t, kids) && NoDup(order) && ParentsFirst(t, root, order) && i < |order|
    requires root in t && Par(t, root).None? && SetOf(order) == Subtree(t, root)
    ensures order[i] in t && Grounded(t, order[i])
    ensures forall c :: c in kids[order[i]] ==> c in order[i + 1..]
  {
    var x := order[i];
    assert x in SetOf(order);
    GroundedByParent(t, root);
    if x != root { AncUngrounded(t, root, x); }
    forall c | c in kids[x] ensures c in order[i + 1..] {
      AncStep(t, root, c);
      assert c in SetOf(order);
      var p := ChildComesLater(t, root, order, i, c);
      assert order[i + 1..][p - i - 1] == c;
    }
  }

  /** One node of the post-order, once everything after it in the pre-order is final. */
  method AggregateNode(ghost t: Table, ghost kids: KidMap, ghost nodes: NodeMap, node: SpanNode, ghost covered: set<Id>)
    requires Judged(t, kids, nodes) && Shape(t, kids) && CountsUpTo(t, nodes, covered)
    requires node.span.id in nodes && nodes[node.span.id] == node && Grounded(t, node.span.id)
    requires forall c :: c in kids[node.span.id] ==> c in covered
    modifies node`badDescendantCount, node`subtreeBad
    ensures Judged(t, kids, nodes)
    ensures CountsUpTo(t, nodes, covered + {node.span.id})
  {
    ghost var x := node.span.id;
    ShapeAt(t, kids, x);
    CountIsSum(t, kids[x], x);
    var sum := SumChildren(t, kids, kids[x], nodes, node.children);
    WriteCount(t, kids, nodes, node, sum, covered);
  }

  lemma PostOrderStep(t: Table, kids: KidMap, nodes: NodeMap, root: Id, rpo: seq<SpanNode>, order: seq<Id>, i: nat)
    requires Indexed(t, nodes) && Shape(t, kids) && Listed(nodes, rpo, order) && NoDup(order)
    requires ParentsFirst(t, root, order) && i < |order|
    requires root in t && Par(t, root).None? && SetOf(order) == Subtree(t, root)
    ensures var node := rpo[i];
            && node.span.id == order[i] && order[i] in nodes && nodes[order[i]] == node && Grounded(t, order[i])
            && forall c :: c in kids[order[i]] ==> c in SetOf(order[i + 1..])
    ensures SetOf(order[i..]) == SetOf(order[i + 1..]) + {order[i]}
  {
    ChildrenLater(t, kids, root, order, i);
    SuffixStep(order, i);
  }

  method AggregateBottomUp(ghost t: Table, ghost kids: KidMap, ghost nodes: NodeMap, root: SpanNode,
                           ghost before: set<Id>)
    requires Judged(t, kids, nodes) && Shape(t, kids) && IsRoot(t, nodes, root)
    requires CountsUpTo(t, nodes, before)
    modifies Objects(nodes)`badDescendantCount, Objects(nodes)`subtreeBad
    ensures Judged(t, kids, nodes)
    ensures CountsUpTo(t, nodes, before + Subtree(t, root.span.id))
  {
    ghost var r := root.span.id;
    var postOrder, order := ReversePreOrder(t, kids, nodes, root);
    var i := |postOrder|;
    ghost var covered := before;
    assert covered == before + SetOf(order[i..]);
    while i > 0
      invariant 0 <= i <= |order| && covered == before + SetOf(order[i..])
      invariant Judged(t, kids, nodes)
      invariant CountsUpTo(t, nodes, covered)
    {
      i := i - 1;
      PostOrderStep(t, kids, nodes, r, postOrder, order, i);
      AggregateNode(t, kids, nodes, postOrder[i], covered);
      covered := covered + {order[i]};
    }
    assert order[0..] == order;
  }

  /** What pass 3 leaves in the nodes: counts of bad strict descendants, zero where no root leads. */
  ghost predicate Counted(t: Table, nodes: NodeMap)
    reads Objects(nodes)`badDescendantCount, Objects(nodes)`subtreeBad
  {
    forall y :: y in nodes ==>
      nodes[y].badDescendantCount == CountOf(t, y) && nodes[y].subtreeBad == SubtreeBad(t, y)
  }

  lemma CountsDone(t: Table, nodes: NodeMap, rootIds: seq<Id>)
    requires Indexed(t, nodes) && AllRoots(t, rootIds)
    requires CountsUpTo(t, nodes, Covered(t, rootIds, |rootIds|))
    ensures Counted(t, nodes)
  {
    AllCovered(t, rootIds);
  }

  method AggregateAll(ghost t: Table, ghost kids: KidMap, ghost nodes: NodeMap, roots: seq<SpanNode>,
                      ghost rootIds: seq<Id>)
    requires Judged(t, kids, nodes) && Shape(t, kids) && CountsUpTo(t, nodes, {})
    requires Listed(nodes, roots, rootIds) && AllRoots(t, rootIds)
    modifies Objects(nodes)`badDescendantCount, Objects(nodes)`subtreeBad
    ensures Judged(t, kids, nodes) && CountsUpTo(t, nodes, Covered(t, rootIds, |rootIds|))
  {
    ghost var covered: set<Id> := {};
    var i := 0;
    while i < |roots|
      invariant 0 <= i <= |roots| == |rootIds| && covered == Covered(t, rootIds, i)
      invariant Judged(t, kids, nodes) && CountsUpTo(t, nodes, covered)
    {
      RootAt(t, nodes, roots, rootIds, i);
      CoveredStep(t, rootIds, i, roots[i].span.id);
      AggregateBottomUp(t, kids, nodes, roots[i], covered);
      covered := covered + Subtree(t, roots[i].span.id);
      i := i + 1;
    }
  }

  // ----- Pass 4: propagation top-down -----

  /** The flags as a value: false at the roots, and handed down from parent to child. */
  ghost predicate FlagRule(t: Table, flags: map<Id, bool>) {
    && flags.Keys == t.Keys
    && (forall x :: x in t && Par(t, x).None? ==> !flags[x])
    && (forall p, c :: HandsDown(t, p, c) ==> flags[c] == (flags[p] || (Bad(t[p]) && CountOf(t, p) == 0)))
    && (forall x :: x in t && flags[x] && Grounded(t, x) ==> !Bad(t[x]))
  }

  ghost predicate HandsDown(t: Table, p: Id, c: Id) {
    c in t && Grounded(t, p) && Par(t, c) == Some(p)
  }

  ghost function FlagMap(t: Table): map<Id, bool> {
    map x | x in t :: LeafBadAbove(t, x)
  }

  lemma FlagMapRule(t: Table)
    ensures FlagRule(t, FlagMap(t))
  {
    var flags := FlagMap(t);
    forall x | x in t && Par(t, x).None? ensures !flags[x] { RootNotBelow(t, x); }
    forall p, c | HandsDown(t, p, c)
      ensures flags[c] == (flags[p] || (Bad(t[p]) && CountOf(t, p) == 0))
    {
      LeafBadStep(t, p, c);
      assert CountOf(t, p) == 0 <==> BadBelow(t, p) == {};
    }
    forall x | x in t && flags[x] ensures !Bad(t[x]) { TopDownNeverInherits(t, x); }
  }

  /** Upstream flags are final on `covered`; no span is ever marked as inheriting. */
  ghost predicate FlagsUpTo(flags: map<Id, bool>, nodes: NodeMap, covered: set<Id>)
    reads Objects(nodes)`upstreamBad, Objects(nodes)`badnessInherited
  {
    forall y :: y in nodes && y in flags ==>
      nodes[y].upstreamBad == (y in covered && flags[y]) && !nodes[y].badnessInherited
  }

  ghost predicate FlagStack(flags: map<Id, bool>, nodes: NodeMap, stack: seq<(SpanNode, bool)>, open: seq<Id>) {
    |stack| == |open| && forall i :: 0 <= i < |open| ==>
      open[i] in nodes && stack[i].0 == nodes[open[i]] && open[i] in flags && stack[i].1 == flags[open[i]]
  }

  /** Pop the top entry and push the children with the flag it hands down. */
  function PushFlagged(stack: seq<(SpanNode, bool)>, children: seq<SpanNode>, flag: bool): seq<(SpanNode, bool)>
    requires stack != []
  {
    stack[..|stack| - 1] + seq(|children|, i requires 0 <= i < |children| => (children[i], flag))
  }

  lemma PushFlags(t: Table, kids: KidMap, flags: map<Id, bool>, nodes: NodeMap, stack: seq<(SpanNode, bool)>,
                  open: seq<Id>, children: seq<SpanNode>, flag: bool)
    requires Shape(t, kids) && FlagRule(t, flags) && FlagStack(flags, nodes, stack, open) && open != []
    requires var x := open[|open| - 1];
             && Grounded(t, x) && Listed(nodes, children, kids[x])
             && flag == (flags[x] || (Bad(t[x]) && CountOf(t, x) == 0))
    ensures FlagStack(flags, nodes, PushFlagged(stack, children, flag), NextOpen(kids, open))
  {
    var x := open[|open| - 1];
    forall c | c in kids[x] ensures flags[c] == flag { assert HandsDown(t, x, c); }
    PushAgrees(flags, nodes, stack, open, children, kids[x], flag);
  }

  lemma PushAgrees(flags: map<Id, bool>, nodes: NodeMap, stack: seq<(SpanNode, bool)>, open: seq<Id>,
                   children: seq<SpanNode>, ks: seq<Id>, flag: bool)
    requires FlagStack(flags, nodes, stack, open) && open != []
    requires Listed(nodes, children, ks) && forall c :: c in ks ==> c in flags && flags[c] == flag
    ensures FlagStack(flags, nodes, PushFlagged(stack, children, flag), open[..|open| - 1] + ks)
  {
    var next, rest := PushFlagged(stack, children, flag), open[..|open| - 1];
    forall i | 0 <= i < |rest + ks|
      ensures (rest + ks)[i] in nodes && next[i].0 == nodes[(rest + ks)[i]]
      ensures (rest + ks)[i] in flags && next[i].1 == flags[(rest + ks)[i]]
    {
      if i >= |rest| { assert ks[i - |rest|] in ks; }
    }
  }

  /** What the earlier passes left in the nodes, as far as this pass reads it. */
  ghost predicate Ready(t: Table, kids: KidMap, nodes: NodeMap)
    reads Objects(nodes)`children, Objects(nodes)`selfBad, Objects(nodes)`badDescendantCount
  {
    Judged(t, kids, nodes) && forall x :: x in nodes ==> nodes[x].badDescendantCount == CountOf(t, x)
  }

  method WriteFlags(ghost t: Table, ghost kids: KidMap, ghost flags: map<Id, bool>, ghost nodes: NodeMap,
                    node: SpanNode, ancBad: bool, ghost covered: set<Id>)
    requires Indexed(t, nodes) && node.span.id in nodes && nodes[node.span.id] == node
    requires node.span.id in flags && ancBad == flags[node.span.id] && (ancBad ==> !Bad(node.span))
    requires Ready(t, kids, nodes) && FlagsUpTo(flags, nodes, covered)
    modifies node`upstreamBad, node`badnessInherited
    ensures Ready(t, kids, nodes)
    ensures FlagsUpTo(flags, nodes, covered + {node.span.id})
  {
    node.upstreamBad := ancBad;
    node.badnessInherited := node.selfBad && ancBad;
  }

  /** Pop one entry, write its flags and push its children. */
  method PropagateStep(ghost t: Table, ghost kids: KidMap, ghost flags: map<Id, bool>, ghost nodes: NodeMap,
                       node: SpanNode, ancBad: bool, stack: seq<(SpanNode, bool)>,
                       ghost open: seq<Id>, ghost covered: set<Id>)
    returns (next: seq<(SpanNode, bool)>)
    requires Indexed(t, nodes) && Shape(t, kids) && FlagRule(t, flags)
    requires FlagStack(flags, nodes, stack, open) && open != [] && FlagsUpTo(flags, nodes, covered)
    requires stack[|stack| - 1] == (node, ancBad)
    requires Ready(t, kids, nodes) && Grounded(t, node.span.id)
    modifies node`upstreamBad, node`badnessInherited
    ensures Ready(t, kids, nodes)
    ensures open[|open| - 1] in kids && FlagStack(flags, nodes, next, NextOpen(kids, open))
    ensures FlagsUpTo(flags, nodes, covered + {open[|open| - 1]})
  {
    var propagate;
    if node.selfBad && node.badDescendantCount > 0 {
      propagate := ancBad;
    } else {
      propagate := ancBad || node.selfBad;
    }
    PushFlags(t, kids, flags, nodes, stack, open, node.children, propagate);
    next := PushFlagged(stack, node.children, propagate);
    WriteFlags(t, kids, flags, nodes, node, ancBad, covered);
  }

  lemma UnionStep(before: set<Id>, done: set<Id>, x: Id)
    ensures before + done + {x} == before + (done + {x})
  {}

  method PropagateTopDown(ghost t: Table, ghost kids: KidMap, ghost flags: map<Id, bool>, ghost nodes: NodeMap,
                          root: SpanNode, ghost before: set<Id>)
    requires Indexed(t, nodes) && Shape(t, kids) && IsRoot(t, nodes, root) && FlagRule(t, flags)
    requires Ready(t, kids, nodes) && FlagsUpTo(flags, nodes, before)
    modifies Objects(nodes)`upstreamBad, Objects(nodes)`badnessInherited
    ensures Ready(t, kids, nodes)
    ensures FlagsUpTo(flags, nodes, before + Subtree(t, root.span.id))
  {
    var stack := [(root, false)];
    ghost var r := root.span.id;
    ghost var open, done := [r], {};
    FrontierInit(t, r);
    assert before + done == before;
    while stack != []
      invariant Frontier(t, r, done, open) && FlagStack(flags, nodes, stack, open)
      invariant Ready(t, kids, nodes) && FlagsUpTo(flags, nodes, before + done)
      decreases t.Keys - done
    {
      ghost var x := VisitNext(t, kids, flags, nodes, r, stack, open, done);
      stack := PropagateStep(t, kids, flags, nodes, stack[|stack| - 1].0, stack[|stack| - 1].1, stack, open,
                             before + done);
      UnionStep(before, done, x);
      open, done := NextOpen(kids, open), done + {x};
    }
    FrontierAll(t, r, done);
  }

  /** The top entry is a span not visited yet, and what is left after it. */
  lemma VisitNext(t: Table, kids: KidMap, flags: map<Id, bool>, nodes: NodeMap, r: Id,
                  stack: seq<(SpanNode, bool)>, open: seq<Id>, done: set<Id>) returns (x: Id)
    requires Indexed(t, nodes) && Shape(t, kids) && Frontier(t, r, done, open)
    requires FlagStack(flags, nodes, stack, open) && stack != []
    ensures open != [] && x == open[|open| - 1] && Grounded(t, x) && x in nodes && stack[|stack| - 1].0 == nodes[x]
    ensures Frontier(t, r, done + {x}, NextOpen(kids, open))
    ensures t.Keys - (done + {x}) < t.Keys - done
  {
    x := open[|open| - 1];
    PendingGrounded(t, r, done, open);
    PopStep(t, kids, r, done, open);
  }

  lemma PendingGrounded(t: Table, root: Id, done: set<Id>, open: seq<Id>)
    requires Frontier(t, root, done, open) && open != []
    ensures Grounded(t, open[|open| - 1])
  {
    var x := open[|open| - 1];
    assert x in open;
    GroundedByParent(t, root);
    if x != root { AncUngrounded(t, root, x); }
  }

  method PropagateAll(ghost t: Table, ghost kids: KidMap, ghost flags: map<Id, bool>, ghost nodes: NodeMap,
                      roots: seq<SpanNode>, ghost rootIds: seq<Id>)
    requires Ready(t, kids, nodes) && Shape(t, kids) && FlagRule(t, flags) && FlagsUpTo(flags, nodes, {})
    requires Listed(nodes, roots, rootIds) && AllRoots(t, rootIds)
    modifies Objects(nodes)`upstreamBad, Objects(nodes)`badnessInherited
    ensures Ready(t, kids, nodes) && FlagsUpTo(flags, nodes, Covered(t, rootIds, |rootIds|))
  {
    ghost var covered: set<Id> := {};
    var i := 0;
    while i < |roots|
      invariant 0 <= i <= |roots| == |rootIds| && covered == Covered(t, rootIds, i)
      invariant Ready(t, kids, nodes) && FlagsUpTo(flags, nodes, covered)
    {
      RootAt(t, nodes, roots, rootIds, i);
      CoveredStep(t, rootIds, i, roots[i].span.id);
      PropagateTopDown(t, kids, flags, nodes, roots[i], covered);
      covered := covered + Subtree(t, roots[i].span.id);
      i := i + 1;
    }
  }

  // ----- Passes 4b and 4c: marks -----

  /** Upstream flags and inherited flags as values. */
  ghost predicate Flags(nodes: NodeMap, up: map<Id, bool>, inherited: map<Id, bool>)
    reads Objects(nodes)`upstreamBad, Objects(nodes)`badnessInherited
  {
    forall y :: y in nodes ==>
      && y in up && nodes[y].upstreamBad == up[y]
      && y in inherited && nodes[y].badnessInherited == inherited[y]
  }

  ghost function NoFlags(t: Table): map<Id, bool> {
    map x | x in t :: false
  }

  lemma FlagsDone(t: Table, nodes: NodeMap, rootIds: seq<Id>)
    requires Indexed(t, nodes) && AllRoots(t, rootIds)
    requires FlagsUpTo(FlagMap(t), nodes, Covered(t, rootIds, |rootIds|))
    ensures Flags(nodes, FlagMap(t), NoFlags(t))
  {
    AllCovered(t, rootIds);
  }

  /** The flags with those of `marked` raised. */
  ghost function Raise(flags: map<Id, bool>, marked: set<Id>): map<Id, bool> {
    map x | x in flags :: flags[x] || x in marked
  }

  /** The marked spans among the first ones of an order. */
  ghost function MarkedIn(marked: set<Id>, part: seq<Id>): set<Id> {
    set x | x in part && x in marked
  }

  lemma MarkedStep(marked: set<Id>, order: seq<Id>, i: nat)
    requires i < |order|
    ensures MarkedIn(marked, order[..i + 1]) ==
            if order[i] in marked then MarkedIn(marked, order[..i]) + {order[i]} else MarkedIn(marked, order[..i])
  {
    PrefixSnoc(order, i);
  }

  lemma MarkedAll(marked: set<Id>, order: seq<Id>)
    requires marked <= SetOf(order)
    ensures MarkedIn(marked, order[..|order|]) == marked
  {
    assert order[..|order|] == order;
  }

  ghost predicate Family(t: Table, kids: KidMap, nodes: NodeMap)
    reads Objects(nodes)`children, Objects(nodes)`parent,
          Objects(nodes)`selfError, Objects(nodes)`selfNullOutput, Objects(nodes)`selfEmptyOutput,
          Objects(nodes)`selfBad, Objects(nodes)`selfBadInput
  {
    Kin(t, kids, nodes) && Parents(t, nodes) && Intrinsic(nodes)
  }

  method HasIntroducer(ghost t: Table, ghost kids: KidMap, ghost nodes: NodeMap, node: SpanNode,
                       siblings: seq<SpanNode>, ghost ks: seq<Id>) returns (found: bool)
    requires Indexed(t, nodes) && Intrinsic(nodes) && Listed(nodes, siblings, ks)
    requires node.span.id in nodes && nodes[node.span.id] == node
    ensures found <==> exists j :: 0 <= j < |ks| && ks[j] != node.span.id && ks[j] in t && Introduces(t[ks[j]])
  {
    found := false;
    for i := 0 to |siblings|
      invariant forall j :: 0 <= j < i ==> ks[j] == node.span.id || !Introduces(t[ks[j]])
    {
      var sibling := siblings[i];
      if sibling != node {
        var badOutput := sibling.selfNullOutput || sibling.selfEmptyOutput;
        if badOutput && !sibling.selfBadInput {
          return true;
        }
      }
    }
  }

  lemma SiblingByKids(t: Table, kids: KidMap, x: Id)
    requires Shape(t, kids) && x in t
    ensures SiblingMark(t, x) <==>
            && Bad(t[x]) && BadInput(t[x]) && Par(t, x).Some?
            && var ks := kids[Par(t, x).value];
               exists j :: 0 <= j < |ks| && ks[j] != x && ks[j] in t && Introduces(t[ks[j]])
  {
    if Par(t, x).Some? {
      var ks := kids[Par(t, x).value];
      forall y | y in t && Par(t, y) == Par(t, x) ensures y in ks {}
      forall j | 0 <= j < |ks| ensures ks[j] in t && Par(t, ks[j]) == Par(t, x) { assert ks[j] in ks; }
    }
  }

  method SiblingMarked(ghost t: Table, ghost kids: KidMap, ghost nodes: NodeMap, node: SpanNode) returns (marked: bool)
    requires Family(t, kids, nodes) && Shape(t, kids)
    requires node.span.id in nodes && nodes[node.span.id] == node && !node.badnessInherited
    ensures marked == SiblingMark(t, node.span.id)
  {
    ghost var x := node.span.id;
    SiblingByKids(t, kids, x);
    if !node.selfBad || !node.selfBadInput || node.badnessInherited {
      return false;
    }
    if node.parent == null {
      return false;
    }
    assert node.parent == nodes[Par(t, x).value];
    marked := HasIntroducer(t, kids, nodes, node, node.parent.children, kids[Par(t, x).value]);
  }

  method FlagUpstream(ghost nodes: NodeMap, node: SpanNode,
                      ghost up: map<Id, bool>, ghost inherited: map<Id, bool>, ghost raised: set<Id>)
    requires (forall x :: x in nodes ==> nodes[x].span.id == x) && node.span.id in nodes && nodes[node.span.id] == node
    requires Flags(nodes, Raise(up, raised), inherited)
    modifies node`upstreamBad
    ensures Flags(nodes, Raise(up, raised + {node.span.id}), inherited)
  {
    node.upstreamBad := true;
  }

  method FlagInherited(ghost nodes: NodeMap, node: SpanNode,
                       ghost up: map<Id, bool>, ghost inherited: map<Id, bool>, ghost passed: set<Id>)
    requires (forall x :: x in nodes ==> nodes[x].span.id == x) && node.span.id in nodes && nodes[node.span.id] == node
    requires Flags(nodes, up, Raise(inherited, passed))
    modifies node`badnessInherited
    ensures Flags(nodes, up, Raise(inherited, passed + {node.span.id}))
  {
    node.badnessInherited := true;
  }

  method RaiseUpstream(ghost t: Table, ghost kids: KidMap, ghost nodes: NodeMap, node: SpanNode,
                       ghost up: map<Id, bool>, ghost inherited: map<Id, bool>, ghost raised: set<Id>)
    requires Family(t, kids, nodes) && node.span.id in nodes && nodes[node.span.id] == node
    requires Flags(nodes, Raise(up, raised), inherited)
    modifies node`upstreamBad
    ensures Family(t, kids, nodes)
    ensures Flags(nodes, Raise(up, raised + {node.span.id}), inherited)
  {
    FlagUpstream(nodes, node, up, inherited, raised);
    assert Kin(t, kids, nodes);
    assert Parents(t, nodes);
  }

  method RaiseInherited(ghost t: Table, ghost kids: KidMap, ghost nodes: NodeMap, node: SpanNode,
                        ghost up: map<Id, bool>, ghost inherited: map<Id, bool>, ghost passed: set<Id>)
    requires Family(t, kids, nodes) && node.span.id in nodes && nodes[node.span.id] == node
    requires Flags(nodes, up, Raise(inherited, passed))
    modifies node`badnessInherited
    ensures Family(t, kids, nodes)
    ensures Flags(nodes, up, Raise(inherited, passed + {node.span.id}))
  {
    FlagInherited(nodes, node, up, inherited, passed);
    assert Kin(t, kids, nodes);
    assert Parents(t, nodes);
  }

  /** Raise the flags of one node. */
  method RaiseNode(ghost t: Table, ghost kids: KidMap, ghost nodes: NodeMap, node: SpanNode, alsoInherited: bool,
                   ghost up: map<Id, bool>, ghost inherited: map<Id, bool>, ghost raised: set<Id>,
                   ghost passed: set<Id>)
    requires Family(t, kids, nodes) && node.span.id in nodes && nodes[node.span.id] == node
    requires Flags(nodes, Raise(up, raised), Raise(inherited, passed))
    modifies node`upstreamBad, node`badnessInherited
    ensures Family(t, kids, nodes)
    ensures Flags(nodes, Raise(up, raised + {node.span.id}),
                  Raise(inherited, if alsoInherited then passed + {node.span.id} else passed))
  {
    RaiseUpstream(t, kids, nodes, node, up, Raise(inherited, passed), raised);
    if alsoInherited {
      RaiseInherited(t, kids, nodes, node, Raise(up, raised + {node.span.id}), inherited, passed);
    }
  }

  ghost function SiblingMarks(t: Table): set<Id> {
    set x | x in t && SiblingMark(t, x)
  }

  method SiblingStep(ghost t: Table, ghost kids: KidMap, ghost nodes: NodeMap, node: SpanNode,
                     ghost up: map<Id, bool>, ghost raised: set<Id>)
    requires Family(t, kids, nodes) && Shape(t, kids) && node.span.id in nodes && nodes[node.span.id] == node
    requires node.span.id !in raised
    requires Flags(nodes, Raise(up, raised), Raise(NoFlags(t), raised))
    modifies node`upstreamBad, node`badnessInherited
    ensures Family(t, kids, nodes)
    ensures var more := if node.span.id in SiblingMarks(t) then raised + {node.span.id} else raised;
            Flags(nodes, Raise(up, more), Raise(NoFlags(t), more))
  {
    var marked := SiblingMarked(t, kids, nodes, node);
    if marked {
      RaiseNode(t, kids, nodes, node, true, up, NoFlags(t), raised, raised);
    }
  }

  /** Pass 4b raises exactly the spans with a sibling mark. */
  method SiblingPropagation(ghost t: Table, ghost kids: KidMap, nodes: NodeMap, order: seq<Id>, ghost up: map<Id, bool>)
    requires Family(t, kids, nodes) && Shape(t, kids) && NoDup(order) && SetOf(order) == nodes.Keys
    requires Flags(nodes, Raise(up, {}), Raise(NoFlags(t), {}))
    modifies Objects(nodes)`upstreamBad, Objects(nodes)`badnessInherited
    ensures Family(t, kids, nodes)
    ensures Flags(nodes, Raise(up, SiblingMarks(t)), Raise(NoFlags(t), SiblingMarks(t)))
  {
    ghost var all := SiblingMarks(t);
    ghost var raised: set<Id> := {};
    var i := 0;
    while i < |order|
      invariant 0 <= i <= |order| && raised == MarkedIn(all, order[..i])
      invariant Family(t, kids, nodes) && Flags(nodes, Raise(up, raised), Raise(NoFlags(t), raised))
    {
      var x := order[i];
      assert x in SetOf(order);
      NoDupPrefix(order, i);
      MarkedStep(all, order, i);
      SiblingStep(t, kids, nodes, nodes[x], up, raised);
      raised := if x in all then raised + {x} else raised;
      i := i + 1;
    }
    MarkedAll(all, order);
  }

  ghost function LineageMarks(t: Table): set<Id> {
    set x | x in t && LineageMark(t, x)
  }

  method HasBadSource(ghost t: Table, nodes: NodeMap, sources: seq<Id>) returns (found: bool)
    requires Indexed(t, nodes) && Intrinsic(nodes)
    ensures found <==> exists s :: s in sources && s in t && Bad(t[s])
  {
    found := false;
    for i := 0 to |sources|
      invariant forall j :: 0 <= j < i ==> sources[j] !in t || !Bad(t[sources[j]])
    {
      var src := sources[i];
      if src in nodes && nodes[src].selfBad {
        assert src in sources && src in t;
        return true;
      }
    }
  }

  method LineageStep(ghost t: Table, ghost kids: KidMap, nodes: NodeMap, node: SpanNode, ghost up: map<Id, bool>,
                     ghost inherited: map<Id, bool>, ghost raised: set<Id>, ghost passed: set<Id>)
    requires Family(t, kids, nodes) && node.span.id in nodes && nodes[node.span.id] == node
    requires Flags(nodes, Raise(up, raised), Raise(inherited, passed))
    modifies node`upstreamBad, node`badnessInherited
    ensures Family(t, kids, nodes)
    ensures var x := node.span.id;
            Flags(nodes, Raise(up, if x in LineageMarks(t) then raised + {x} else raised),
                  Raise(inherited, if x in LineageMarks(t) && x in BadIds(t) then passed + {x} else passed))
  {
    var found := HasBadSource(t, nodes, node.span.sources);
    if found {
      RaiseNode(t, kids, nodes, node, node.selfBad, up, inherited, raised, passed);
    }
  }

  /** Pass 4c raises exactly the spans with a bad source, and inherits for the bad ones among them. */
  method DataFlowPropagation(ghost t: Table, ghost kids: KidMap, nodes: NodeMap, order: seq<Id>,
                             ghost up: map<Id, bool>, ghost inherited: map<Id, bool>)
    requires Family(t, kids, nodes) && SetOf(order) == nodes.Keys
    requires Flags(nodes, Raise(up, {}), Raise(inherited, {}))
    modifies Objects(nodes)`upstreamBad, Objects(nodes)`badnessInherited
    ensures Family(t, kids, nodes)
    ensures Flags(nodes, Raise(up, LineageMarks(t)), Raise(inherited, LineageMarks(t) * BadIds(t)))
  {
    ghost var all, both := LineageMarks(t), LineageMarks(t) * BadIds(t);
    ghost var raised: set<Id>, passed: set<Id> := {}, {};
    var i := 0;
    while i < |order|
      invariant 0 <= i <= |order| && raised == MarkedIn(all, order[..i]) && passed == MarkedIn(both, order[..i])
      invariant Family(t, kids, nodes) && Flags(nodes, Raise(up, raised), Raise(inherited, passed))
    {
      var x := order[i];
      assert x in SetOf(order);
      MarkedStep(all, order, i);
      MarkedStep(both, order, i);
      LineageStep(t, kids, nodes, nodes[x], up, inherited, raised, passed);
      raised, passed := if x in all then raised + {x} else raised, if x in both then passed + {x} else passed;
      i := i + 1;
    }
    MarkedAll(all, order);
    MarkedAll(both, order);
  }

  // ----- Pass 5: role classification -----

  /** What passes 3 to 4c left in one node. */
  ghost predicate Decided(t: Table, node: SpanNode)
    reads node`selfBad, node`subtreeBad, node`badDescendantCount, node`upstreamBad, node`badnessInherited
  {
    && node.selfBad == Bad(node.span)
    && node.subtreeBad == SubtreeBad(t, node.span.id) && node.badDescendantCount == CountOf(t, node.span.id)
    && node.upstreamBad == UpstreamBad(t, node.span.id) && node.badnessInherited == Inherited(t, node.span.id)
  }

  lemma UpstreamOfBad(t: Table, x: Id)
    requires x in t && Bad(t[x])
    ensures UpstreamBad(t, x) <==> SiblingMark(t, x) || LineageMark(t, x)
    ensures CountOf(t, x) > 0 ==> SubtreeBad(t, x)
  {
    if LeafBadAbove(t, x) { TopDownNeverInherits(t, x); }
  }

  /** The chain of tests in the classifier. */
  method ClassifyNode(ghost t: Table, node: SpanNode)
    requires node.span.id in t && t[node.span.id] == node.span && Decided(t, node)
    modifies node`role
    ensures node.role == RoleOf(t, node.span.id)
  {
    if node.selfBad { UpstreamOfBad(t, node.span.id); }
    if !node.subtreeBad && !node.selfBad {
      node.role := Clean;
    } else if node.selfBad && !node.upstreamBad {
      if node.badDescendantCount > 0 {
        node.role := Propagator;
      } else {
        node.role := Originator;
      }
    } else if node.selfBad && node.upstreamBad && node.badDescendantCount > 0 {
      node.role := Propagator;
    } else if node.selfBad && node.upstreamBad {
      node.role := Manifestor;
    } else {
      node.role := Clean;
    }
  }

  ghost predicate AllDecided(t: Table, nodes: NodeMap)
    reads Objects(nodes)`selfBad, Objects(nodes)`subtreeBad, Objects(nodes)`badDescendantCount,
          Objects(nodes)`upstreamBad, Objects(nodes)`badnessInherited
  {
    forall x :: x in nodes ==> Decided(t, nodes[x])
  }

  ghost predicate RolesOn(t: Table, nodes: NodeMap, done: set<Id>)
    requires done <= t.Keys
    reads Objects(nodes)`role
  {
    forall x :: x in nodes && x in done ==> nodes[x].role == RoleOf(t, x)
  }

  method ClassifyStep(ghost t: Table, ghost nodes: NodeMap, node: SpanNode, ghost done: set<Id>)
    requires Indexed(t, nodes) && node.span.id in nodes && nodes[node.span.id] == node
    requires AllDecided(t, nodes) && done <= t.Keys && RolesOn(t, nodes, done)
    modifies node`role
    ensures AllDecided(t, nodes) && RolesOn(t, nodes, done + {node.span.id})
  {
    ClassifyNode(t, node);
  }

  method ClassifyRoles(ghost t: Table, nodes: NodeMap, order: seq<Id>)
    requires Indexed(t, nodes) && SetOf(order) == nodes.Keys && AllDecided(t, nodes)
    modifies Objects(nodes)`role
    ensures AllDecided(t, nodes) && RolesOn(t, nodes, t.Keys)
  {
    ghost var done: set<Id> := {};
    var i := 0;
    while i < |order|
      invariant 0 <= i <= |order| && done <= t.Keys && done == SetOf(order[..i])
      invariant AllDecided(t, nodes) && RolesOn(t, nodes, done)
    {
      var x := order[i];
      SetOfPrefix(order, i);
      ClassifyStep(t, nodes, nodes[x], done);
      done := done + {x};
      i := i + 1;
    }
    assert order[..|order|] == order;
  }

  // ----- All passes -----

  ghost predicate Depths(t: Table, nodes: NodeMap)
    reads Objects(nodes)`depth
  {
    forall x :: x in nodes ==> nodes[x].depth == DepthOf(t, x)
  }

  method PassTwo(ghost t: Table, ghost kids: KidMap, nodes: NodeMap, order: seq<Id>)
    requires Kin(t, kids, nodes) && Parents(t, nodes) && Blank(nodes) && SetOf(order) == nodes.Keys
    modifies Objects(nodes)`selfError, Objects(nodes)`selfNullOutput, Objects(nodes)`selfEmptyOutput,
             Objects(nodes)`selfBad, Objects(nodes)`selfBadInput
    ensures Family(t, kids, nodes) && Blank(nodes)
  {
    MarkIntrinsic(nodes, order);
    assert Kin(t, kids, nodes);
    assert Parents(t, nodes);
    assert Blank(nodes);
  }

  method CountAll(ghost t: Table, ghost kids: KidMap, ghost nodes: NodeMap, roots: seq<SpanNode>,
                  ghost rootIds: seq<Id>)
    requires Family(t, kids, nodes) && Shape(t, kids) && Blank(nodes)
    requires Listed(nodes, roots, rootIds) && AllRoots(t, rootIds)
    modifies Objects(nodes)`badDescendantCount, Objects(nodes)`subtreeBad
    ensures Family(t, kids, nodes) && Counted(t, nodes)
  {
    AggregateAll(t, kids, nodes, roots, rootIds);
    assert Family(t, kids, nodes);
    CountsDone(t, nodes, rootIds);
  }

  method PassThree(ghost t: Table, ghost kids: KidMap, ghost nodes: NodeMap, roots: seq<SpanNode>,
                   ghost rootIds: seq<Id>)
    requires Family(t, kids, nodes) && Shape(t, kids) && Blank(nodes)
    requires Listed(nodes, roots, rootIds) && AllRoots(t, rootIds)
    modifies Objects(nodes)`badDescendantCount, Objects(nodes)`subtreeBad
    ensures Family(t, kids, nodes) && Counted(t, nodes) && Flags(nodes, NoFlags(t), NoFlags(t))
  {
    assert Flags(nodes, NoFlags(t), NoFlags(t));
    CountAll(t, kids, nodes, roots, rootIds);
    assert Flags(nodes, NoFlags(t), NoFlags(t));
  }

  method FlagRoots(ghost t: Table, ghost kids: KidMap, ghost nodes: NodeMap, ghost flags: map<Id, bool>,
                   roots: seq<SpanNode>, ghost rootIds: seq<Id>)
    requires Ready(t, kids, nodes) && Shape(t, kids) && FlagRule(t, flags) && FlagsUpTo(flags, nodes, {})
    requires Parents(t, nodes) && Listed(nodes, roots, rootIds) && AllRoots(t, rootIds)
    modifies Objects(nodes)`upstreamBad, Objects(nodes)`badnessInherited
    ensures Kin(t, kids, nodes) && Parents(t, nodes) && FlagsUpTo(flags, nodes, Covered(t, rootIds, |rootIds|))
  {
    PropagateAll(t, kids, flags, nodes, roots, rootIds);
    assert Parents(t, nodes);
  }

  method FlagAll(ghost t: Table, ghost kids: KidMap, ghost nodes: NodeMap, ghost flags: map<Id, bool>,
                 roots: seq<SpanNode>, ghost rootIds: seq<Id>)
    requires Family(t, kids, nodes) && Ready(t, kids, nodes) && Shape(t, kids) && FlagsUpTo(flags, nodes, {})
    requires Listed(nodes, roots, rootIds) && AllRoots(t, rootIds) && FlagRule(t, flags)
    modifies Objects(nodes)`upstreamBad, Objects(nodes)`badnessInherited
    ensures Family(t, kids, nodes) && FlagsUpTo(flags, nodes, Covered(t, rootIds, |rootIds|))
  {
    FlagRoots(t, kids, nodes, flags, roots, rootIds);
    assert Intrinsic(nodes);
  }

  lemma NoFlagsYet(t: Table, nodes: NodeMap)
    requires Flags(nodes, NoFlags(t), NoFlags(t))
    ensures FlagsUpTo(FlagMap(t), nodes, {})
  {}

  method PassFour(ghost t: Table, ghost kids: KidMap, ghost nodes: NodeMap, roots: seq<SpanNode>,
                  ghost rootIds: seq<Id>)
    requires Family(t, kids, nodes) && Shape(t, kids) && Counted(t, nodes) && Flags(nodes, NoFlags(t), NoFlags(t))
    requires Listed(nodes, roots, rootIds) && AllRoots(t, rootIds)
    modifies Objects(nodes)`upstreamBad, Objects(nodes)`badnessInherited
    ensures Family(t, kids, nodes) && Counted(t, nodes) && Flags(nodes, FlagMap(t), NoFlags(t))
  {
    FlagMapRule(t);
    NoFlagsYet(t, nodes);
    FlagAll(t, kids, nodes, FlagMap(t), roots, rootIds);
    assert Counted(t, nodes);
    FlagsDone(t, nodes, rootIds);
  }

  ghost function UpMap(t: Table): map<Id, bool> {
    map x | x in t :: UpstreamBad(t, x)
  }

  ghost function InheritedMap(t: Table): map<Id, bool> {
    map x | x in t :: Inherited(t, x)
  }

  lemma MapsMeet(t: Table)
    ensures Raise(FlagMap(t), {}) == FlagMap(t) && Raise(NoFlags(t), {}) == NoFlags(t)
    ensures Raise(Raise(Raise(FlagMap(t), SiblingMarks(t)), {}), LineageMarks(t)) == UpMap(t)
    ensures Raise(Raise(Raise(NoFlags(t), SiblingMarks(t)), {}), LineageMarks(t) * BadIds(t)) == InheritedMap(t)
  {}

  lemma RaiseNone(flags: map<Id, bool>)
    ensures Raise(flags, {}) == flags
  {}

  method PassesFourBC(ghost t: Table, ghost kids: KidMap, nodes: NodeMap, order: seq<Id>)
    requires Family(t, kids, nodes) && Shape(t, kids) && Flags(nodes, FlagMap(t), NoFlags(t))
    requires NoDup(order) && SetOf(order) == nodes.Keys
    modifies Objects(nodes)`upstreamBad, Objects(nodes)`badnessInherited
    ensures Family(t, kids, nodes) && Flags(nodes, UpMap(t), InheritedMap(t))
  {
    MapsMeet(t);
    ghost var up, inherited := Raise(FlagMap(t), SiblingMarks(t)), Raise(NoFlags(t), SiblingMarks(t));
    SiblingPropagation(t, kids, nodes, order, FlagMap(t));
    RaiseNone(up);
    RaiseNone(inherited);
    DataFlowPropagation(t, kids, nodes, order, up, inherited);
  }

  lemma DecidedAll(t: Table, kids: KidMap, nodes: NodeMap)
    requires Family(t, kids, nodes) && Counted(t, nodes) && Flags(nodes, UpMap(t), InheritedMap(t))
    ensures AllDecided(t, nodes)
  {}

  /** Classification writes roles only. */
  method ClassifyAll(ghost t: Table, ghost kids: KidMap, nodes: NodeMap, order: seq<Id>)
    requires Family(t, kids, nodes) && Counted(t, nodes) && AllDecided(t, nodes) && SetOf(order) == nodes.Keys
    modifies Objects(nodes)`role
    ensures Family(t, kids, nodes) && Counted(t, nodes) && RolesOn(t, nodes, t.Keys)
  {
    ClassifyRoles(t, nodes, order);
    assert Kin(t, kids, nodes);
    assert Parents(t, nodes);
    assert Intrinsic(nodes);
  }

  method PassFive(ghost t: Table, ghost kids: KidMap, nodes: NodeMap, order: seq<Id>)
    requires Family(t, kids, nodes) && Counted(t, nodes) && Flags(nodes, UpMap(t), InheritedMap(t))
    requires SetOf(order) == nodes.Keys
    modifies Objects(nodes)`role
    ensures Family(t, kids, nodes) && Counted(t, nodes) && RolesOn(t, nodes, t.Keys)
  {
    DecidedAll(t, kids, nodes);
    ClassifyAll(t, kids, nodes, order);
  }

  method MiddlePasses(ghost t: Table, ghost kids: KidMap, nodes: NodeMap, order: seq<Id>,
                      roots: seq<SpanNode>, ghost rootIds: seq<Id>)
    requires Family(t, kids, nodes) && Shape(t, kids) && Counted(t, nodes) && Flags(nodes, NoFlags(t), NoFlags(t))
    requires NoDup(order) && SetOf(order) == nodes.Keys
    requires Listed(nodes, roots, rootIds) && AllRoots(t, rootIds)
    modifies Objects(nodes)`upstreamBad, Objects(nodes)`badnessInherited
    ensures Family(t, kids, nodes) && Counted(t, nodes) && Flags(nodes, UpMap(t), InheritedMap(t))
  {
    PassFour(t, kids, nodes, roots, rootIds);
    PassesFourBC(t, kids, nodes, order);
    assert Counted(t, nodes);
  }

  /** Passes 3 to 5 on freshly marked nodes. */
  method RunPasses(ghost t: Table, ghost kids: KidMap, nodes: NodeMap, order: seq<Id>,
                   roots: seq<SpanNode>, ghost rootIds: seq<Id>)
    requires Family(t, kids, nodes) && Shape(t, kids) && Blank(nodes)
    requires NoDup(order) && SetOf(order) == nodes.Keys
    requires Listed(nodes, roots, rootIds) && AllRoots(t, rootIds)
    modifies Objects(nodes)`badDescendantCount, Objects(nodes)`subtreeBad,
             Objects(nodes)`upstreamBad, Objects(nodes)`badnessInherited, Objects(nodes)`role
    ensures Family(t, kids, nodes) && Counted(t, nodes)
    ensures Flags(nodes, UpMap(t), InheritedMap(t)) && RolesOn(t, nodes, t.Keys)
  {
    PassThree(t, kids, nodes, roots, rootIds);
    MiddlePasses(t, kids, nodes, order, roots, rootIds);
    PassFive(t, kids, nodes, order);
    assert Flags(nodes, UpMap(t), InheritedMap(t));
  }
}
