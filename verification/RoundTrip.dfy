/** Flattening a call tree and rebuilding it are inverse to each other. */
module RoundTrip {
  import opened Common
  import opened Spans
  import opened Forest

  /** Every span names its parent: `p` for the trees of the list, the enclosing span below. */
  ghost predicate Linked(trees: seq<Tree>, p: Option<Id>) {
    forall k :: k in trees ==> k.span.parent == p && Linked(k.kids, Some(k.span.id))
  }

  /** A recorded call: distinct nonempty ids, parent ids as nested, no parent for the outermost. */
  ghost predicate CallTree(tree: Tree) {
    && Linked([tree], None)
    && Unique(Flat(tree))
    && "" !in IdSet(Flat(tree))
  }

  function RootIds(trees: seq<Tree>): (r: seq<Id>)
    ensures |r| == |trees|
    ensures forall i :: 0 <= i < |trees| ==> r[i] == trees[i].span.id
  {
    seq(|trees|, i requires 0 <= i < |trees| => trees[i].span.id)
  }

  /** The list `spans` shows the trees: same spans, same children in the same order. */
  ghost predicate Shows(spans: seq<Span>, trees: seq<Tree>) {
    forall k :: k in trees ==>
      && k.span.id in TableOf(spans) && TableOf(spans)[k.span.id] == k.span
      && Kids(spans, k.span.id) == RootIds(k.kids)
      && Shows(spans, k.kids)
  }

  // ----- Flattening: where the parents are -----

  lemma FlatSplit(trees: seq<Tree>)
    requires trees != []
    ensures FlatAll(trees) == [trees[0].span] + FlatAll(trees[0].kids) + FlatAll(trees[1..])
  {
    FlatCons(trees[0], trees[1..]);
    assert trees == [trees[0]] + trees[1..];
  }

  lemma IdSetThree(x: Span, a: seq<Span>, b: seq<Span>)
    ensures IdSet([x] + a + b) == {x.id} + IdSet(a) + IdSet(b)
  {
    var all := [x] + a + b;
    forall s ensures s in all <==> s == x || s in a || s in b {}
  }

  lemma {:induction false} ParentsInside(trees: seq<Tree>, p: Option<Id>)
    requires Linked(trees, p)
    ensures forall s :: s in FlatAll(trees) ==>
              s.parent == p || (s.parent.Some? && s.parent.value in IdSet(FlatAll(trees)))
  {
    if trees != [] {
      var k, rest := trees[0], trees[1..];
      FlatSplit(trees);
      IdSetThree(k.span, FlatAll(k.kids), FlatAll(rest));
      ParentsInside(k.kids, Some(k.span.id));
      ParentsInside(rest, p);
    }
  }

  /** Ids of the spans that name `x` as their parent. */
  function ByParent(part: seq<Span>, x: Id): seq<Id> {
    if part == [] then []
    else
      var last := part[|part| - 1];
      ByParent(part[..|part| - 1], x) + IdIf(last.parent == Some(x), last)
  }

  lemma {:induction false} ByParentAppend(a: seq<Span>, b: seq<Span>, x: Id)
    ensures ByParent(a + b, x) == ByParent(a, x) + ByParent(b, x)
    decreases |b|
  {
    if b == [] {
      assert a + b == a;
    } else {
      var k := |b| - 1;
      assert (a + b)[..|a| + k] == a + b[..k];
      ByParentAppend(a, b[..k], x);
      Shift(ByParent(a, x), ByParent(b[..k], x), IdIf(b[k].parent == Some(x), b[k]));
    }
  }

  lemma ByParentOne(s: Span, x: Id)
    ensures ByParent([s], x) == IdIf(s.parent == Some(x), s)
  {
    assert [s][..0] == [];
  }

  lemma ByParentThree(s: Span, a: seq<Span>, b: seq<Span>, x: Id)
    ensures ByParent([s] + a + b, x) ==
            IdIf(s.parent == Some(x), s) + ByParent(a, x) + ByParent(b, x)
  {
    ByParentAppend([s], a, x);
    ByParentAppend([s] + a, b, x);
    ByParentOne(s, x);
  }

  lemma {:induction false} ByParentNone(part: seq<Span>, x: Id)
    requires forall s :: s in part ==> s.parent != Some(x)
    ensures ByParent(part, x) == []
    decreases |part|
  {
    if part != [] {
      ByParentNone(part[..|part| - 1], x);
    }
  }

  lemma {:induction false} ByParentIsKids(spans: seq<Span>, part: seq<Span>, x: Id)
    requires Unique(spans) && x in TableOf(spans) && x != ""
    requires forall s :: s in part ==> s in spans
    ensures KidsIn(TableOf(spans), part, x) == ByParent(part, x)
    decreases |part|
  {
    if part != [] {
      var s := part[|part| - 1];
      ByParentIsKids(spans, part[..|part| - 1], x);
      assert s in part;
      TableIn(spans, s);
    }
  }

  function RootIdsIf(b: bool, trees: seq<Tree>): seq<Id> {
    if b then RootIds(trees) else []
  }

  lemma RootIdsCons(b: bool, trees: seq<Tree>)
    requires trees != []
    ensures RootIdsIf(b, trees) == IdIf(b, trees[0].span) + RootIdsIf(b, trees[1..])
  {}

  function IdIf(b: bool, s: Span): seq<Id> {
    if b then [s.id] else []
  }

  /** Directly below `x` are the outermost trees of a forest that hangs off `x`. */
  lemma {:induction false} ByParentForest(trees: seq<Tree>, p: Option<Id>, x: Id)
    requires Linked(trees, p) && x !in IdSet(FlatAll(trees))
    ensures ByParent(FlatAll(trees), x) == RootIdsIf(p == Some(x), trees)
  {
    if trees != [] {
      var k, rest := trees[0], trees[1..];
      FlatSplit(trees);
      IdSetThree(k.span, FlatAll(k.kids), FlatAll(rest));
      ByParentForest(k.kids, Some(k.span.id), x);
      ByParentForest(rest, p, x);
      ByParentThree(k.span, FlatAll(k.kids), FlatAll(rest), x);
      assert RootIdsIf(Some(k.span.id) == Some(x), k.kids) == [];
      assert IdIf(p == Some(x), k.span) + [] == IdIf(p == Some(x), k.span);
      RootIdsCons(p == Some(x), trees);
    }
  }

  // ----- Rebuilding -----

  ghost predicate Avoids(part: seq<Span>, ids: set<Id>) {
    forall s :: s in part ==> s.parent.None? || s.parent.value !in ids
  }

  /** Around a tree hanging off `p`, only its own subtree names its root as a parent. */
  lemma ByParentAround(before: seq<Span>, middle: seq<Span>, after: seq<Span>, x: Id)
    requires Avoids(before, {x}) && Avoids(after, {x})
    ensures ByParent(before + middle + after, x) == ByParent(middle, x)
  {
    ByParentAppend(before + middle, after, x);
    ByParentAppend(before, middle, x);
    ByParentNone(before, x);
    ByParentNone(after, x);
  }

  lemma ByParentParts(before: seq<Span>, k: Tree, rest: seq<Tree>, after: seq<Span>, p: Option<Id>)
    requires Linked(k.kids, Some(k.span.id)) && Linked(rest, p)
    requires p != Some(k.span.id) && k.span.parent == p
    requires k.span.id !in IdSet(FlatAll(k.kids)) && k.span.id !in IdSet(FlatAll(rest))
    requires Avoids(before, {k.span.id}) && Avoids(after, {k.span.id})
    ensures ByParent(before + ([k.span] + FlatAll(k.kids) + FlatAll(rest)) + after, k.span.id) == RootIds(k.kids)
  {
    var x, below, aside := k.span.id, FlatAll(k.kids), FlatAll(rest);
    ByParentAround(before, [k.span] + below + aside, after, x);
    ByParentThree(k.span, below, aside, x);
    ByParentForest(k.kids, Some(x), x);
    ByParentForest(rest, p, x);
  }

  lemma KidsShown(spans: seq<Span>, before: seq<Span>, trees: seq<Tree>, after: seq<Span>, p: Option<Id>)
    requires trees != [] && spans == before + FlatAll(trees) + after
    requires Unique(spans) && "" !in IdSet(spans) && Linked(trees, p)
    requires p.None? || p.value !in IdSet(FlatAll(trees))
    requires Avoids(before, IdSet(FlatAll(trees))) && Avoids(after, IdSet(FlatAll(trees)))
    ensures var k := trees[0];
            && k.span.id in TableOf(spans) && TableOf(spans)[k.span.id] == k.span
            && Kids(spans, k.span.id) == RootIds(k.kids)
  {
    var k, rest := trees[0], trees[1..];
    var x, below, aside := k.span.id, FlatAll(k.kids), FlatAll(rest);
    FlatSplit(trees);
    IdSetThree(k.span, below, aside);
    PartsApart(spans, before, k.span, below, aside, after);
    ByParentParts(before, k, rest, after, p);
    assert spans[|before|] == k.span;
    TableAt(spans, |before|);
    assert x != "" by { assert k.span in spans; }
    ByParentIsKids(spans, spans, x);
  }

  lemma IdSetAppend(a: seq<Span>, b: seq<Span>)
    ensures IdSet(a + b) == IdSet(a) + IdSet(b)
  {
    forall s ensures s in a + b <==> s in a || s in b {}
  }

  lemma UniqueSplit(a: seq<Span>, b: seq<Span>)
    requires Unique(a + b)
    ensures Unique(a) && Unique(b) && IdSet(a) !! IdSet(b)
  {
    var all := a + b;
    assert forall i :: 0 <= i < |a| ==> all[i] == a[i];
    assert forall i :: 0 <= i < |b| ==> all[|a| + i] == b[i];
    forall r, s | r in a && s in b ensures r.id != s.id {
      var i :| 0 <= i < |a| && a[i] == r;
      var j :| 0 <= j < |b| && b[j] == s;
      assert all[i].id != all[|a| + j].id;
    }
  }

  lemma PartsApart(spans: seq<Span>, before: seq<Span>, x: Span, below: seq<Span>, aside: seq<Span>, after: seq<Span>)
    requires Unique(spans) && spans == before + ([x] + below + aside) + after
    ensures x.id !in IdSet(below) && x.id !in IdSet(aside)
    ensures IdSet(below) !! IdSet(aside)
  {
    assert spans == before + (([x] + below + aside) + after);
    UniqueSplit(before, ([x] + below + aside) + after);
    UniqueSplit([x] + below + aside, after);
    UniqueSplit([x] + below, aside);
    UniqueSplit([x], below);
    IdSetAppend([x], below);
    assert x in [x];
  }

  lemma AvoidsMore(a: seq<Span>, b: seq<Span>, ids: set<Id>, fewer: set<Id>)
    requires Avoids(a, ids) && fewer <= ids && Avoids(b, fewer)
    ensures Avoids(a + b, fewer) && Avoids(b + a, fewer)
  {}

  /** The two parts below the first tree and beside it see foreign parents only around them. */
  lemma PartsAvoid(before: seq<Span>, trees: seq<Tree>, after: seq<Span>, p: Option<Id>)
    requires trees != [] && Linked(trees, p)
    requires Unique(before + FlatAll(trees) + after)
    requires p.None? || p.value !in IdSet(FlatAll(trees))
    requires Avoids(before, IdSet(FlatAll(trees))) && Avoids(after, IdSet(FlatAll(trees)))
    ensures var k := trees[0];
            var below, aside := FlatAll(k.kids), FlatAll(trees[1..]);
            && Avoids(before + [k.span], IdSet(below)) && Avoids(aside + after, IdSet(below))
            && Avoids(before + ([k.span] + below), IdSet(aside)) && Avoids(after, IdSet(aside))
            && k.span.id !in IdSet(below) && (p.None? || p.value !in IdSet(aside))
  {
    var k, rest := trees[0], trees[1..];
    var below, aside := FlatAll(k.kids), FlatAll(rest);
    FlatSplit(trees);
    IdSetThree(k.span, below, aside);
    PartsApart(before + FlatAll(trees) + after, before, k.span, below, aside, after);
    ParentsInside(k.kids, Some(k.span.id));
    ParentsInside(rest, p);
    var all := IdSet(FlatAll(trees));
    assert Avoids([k.span], IdSet(below)) && Avoids([k.span], IdSet(aside));
    assert Avoids(aside, IdSet(below)) && Avoids(below, IdSet(aside));
    AvoidsMore(before, [k.span], all, IdSet(below));
    AvoidsMore(after, aside, all, IdSet(below));
    AvoidsMore([k.span], below, IdSet(aside), IdSet(aside));
    AvoidsMore(before, [k.span] + below, all, IdSet(aside));
  }

  lemma {:induction false} ShowsForest(spans: seq<Span>, before: seq<Span>, trees: seq<Tree>, after: seq<Span>,
                                       p: Option<Id>)
    requires spans == before + FlatAll(trees) + after
    requires Unique(spans) && "" !in IdSet(spans) && Linked(trees, p)
    requires p.None? || p.value !in IdSet(FlatAll(trees))
    requires Avoids(before, IdSet(FlatAll(trees))) && Avoids(after, IdSet(FlatAll(trees)))
    ensures Shows(spans, trees)
    decreases trees
  {
    if trees != [] {
      var k, rest := trees[0], trees[1..];
      var below, aside := FlatAll(k.kids), FlatAll(rest);
      KidsShown(spans, before, trees, after, p);
      PartsAvoid(before, trees, after, p);
      FlatSplit(trees);
      Regroup(before, k.span, below, aside, after);
      ShowsForest(spans, before + [k.span], k.kids, aside + after, Some(k.span.id));
      ShowsForest(spans, before + ([k.span] + below), rest, after, p);
    }
  }

  lemma Regroup<T>(before: seq<T>, x: T, below: seq<T>, aside: seq<T>, after: seq<T>)
    ensures before + ([x] + below + aside) + after == (before + [x]) + below + (aside + after)
    ensures before + ([x] + below + aside) + after == (before + ([x] + below)) + aside + after
  {}

  /** What a list shows is what the tree builder finds in it. */
  lemma {:induction false} ShownIsRebuilt(spans: seq<Span>, trees: seq<Tree>)
    requires Shows(spans, trees) && AllGrounded(TableOf(spans), RootIds(trees))
    ensures TreesOf(spans, RootIds(trees)) == trees
    decreases trees
  {
    if trees != [] {
      var k, rest, cs := trees[0], trees[1..], RootIds(trees);
      assert cs[0] in cs && cs[1..] == RootIds(rest);
      KidsUnder(spans, k.span.id);
      ShownIsRebuilt(spans, k.kids);
      ShownIsRebuilt(spans, rest);
    }
  }

  ghost predicate AtDepth(t: Table, trees: seq<Tree>, d: nat) {
    forall k :: k in trees ==>
      Grounded(t, k.span.id) && Depth(t, k.span.id) == d && AtDepth(t, k.kids, d + 1)
  }

  lemma {:induction false} ShownDepth(spans: seq<Span>, trees: seq<Tree>, d: nat)
    requires Shows(spans, trees)
    requires forall k :: k in trees ==> Grounded(TableOf(spans), k.span.id) && Depth(TableOf(spans), k.span.id) == d
    ensures AtDepth(TableOf(spans), trees, d)
    decreases trees
  {
    forall k | k in trees ensures AtDepth(TableOf(spans), k.kids, d + 1) {
      KidsUnder(spans, k.span.id);
      forall c | c in k.kids
        ensures Grounded(TableOf(spans), c.span.id) && Depth(TableOf(spans), c.span.id) == d + 1
      {
        var i :| 0 <= i < |k.kids| && k.kids[i] == c;
        assert Kids(spans, k.span.id)[i] == c.span.id;
        assert c.span.id in Kids(spans, k.span.id);
        DepthParent(TableOf(spans), c.span.id);
      }
      ShownDepth(spans, k.kids, d + 1);
    }
  }

  lemma FlatSingle(tree: Tree)
    ensures FlatAll([tree]) == Flat(tree)
    ensures Flat(tree) == [] + FlatAll([tree]) + []
  {
    FlatCons(tree, []);
    assert [tree] + [] == [tree];
  }

  lemma InnerHasParent(tree: Tree, s: Span)
    requires CallTree(tree) && s in FlatAll(tree.kids)
    ensures Par(TableOf(Flat(tree)), s.id) == s.parent && s.parent.Some?
  {
    var spans := Flat(tree);
    ParentsInside(tree.kids, Some(tree.span.id));
    IdSetAppend([tree.span], FlatAll(tree.kids));
    assert tree.span in [tree.span];
    assert s in spans;
    TableIn(spans, s);
    var y: Span :| y in spans && y.id == s.parent.value;
    TableIn(spans, y);
  }

  /** Only the outermost call is a root. */
  lemma OutermostIsRoot(tree: Tree, c: Id)
    requires CallTree(tree) && c in TableOf(Flat(tree))
    ensures Par(TableOf(Flat(tree)), c).None? <==> c == tree.span.id
  {
    TableIn(Flat(tree), tree.span);
    var s := TableOf(Flat(tree))[c];
    if s != tree.span {
      InnerHasParent(tree, s);
      PartsApart(Flat(tree), [], tree.span, FlatAll(tree.kids), [], []);
    }
  }

  lemma OnlyElement(s: seq<Id>, x: Id)
    requires NoDup(s) && x in s && forall y :: y in s ==> y == x
    ensures s == [x]
  {
    NoDupCard(s);
    assert SetOf(s) == {x};
  }

  lemma SingleRoot(spans: seq<Span>, x: Id)
    requires Unique(spans) && x in TableOf(spans)
    requires forall c :: c in TableOf(spans) ==> (Par(TableOf(spans), c).None? <==> c == x)
    ensures Roots(spans) == [x]
  {
    var rs := Roots(spans);
    RootsNoDup(TableOf(spans), spans);
    OnlyElement(rs, x);
  }

  lemma OneRoot(tree: Tree)
    requires CallTree(tree)
    ensures Roots(Flat(tree)) == [tree.span.id]
    ensures Grounded(TableOf(Flat(tree)), tree.span.id)
    ensures Depth(TableOf(Flat(tree)), tree.span.id) == 0
  {
    var t, x := TableOf(Flat(tree)), tree.span.id;
    TableIn(Flat(tree), tree.span);
    forall c | c in t ensures Par(t, c).None? <==> c == x { OutermostIsRoot(tree, c); }
    SingleRoot(Flat(tree), x);
    GroundedByParent(t, x);
    DepthParent(t, x);
  }

  lemma FlatShows(tree: Tree)
    requires CallTree(tree)
    ensures Shows(Flat(tree), [tree])
  {
    FlatSingle(tree);
    ShowsForest(Flat(tree), [], [tree], [], None);
  }

  /** Flatten, then rebuild: the tree comes back, children in order, every span at its depth. */
  lemma RebuildFlat(tree: Tree)
    requires CallTree(tree)
    ensures Roots(Flat(tree)) == [tree.span.id]
    ensures AllGrounded(TableOf(Flat(tree)), [tree.span.id])
    ensures TreesOf(Flat(tree), [tree.span.id]) == [tree]
    ensures AtDepth(TableOf(Flat(tree)), [tree], 0)
  {
    OneRoot(tree);
    FlatShows(tree);
    assert RootIds([tree]) == [tree.span.id];
    ShownIsRebuilt(Flat(tree), [tree]);
    ShownDepth(Flat(tree), [tree], 0);
  }

  /** However the list is reordered: one root, the same children below each span, the same depths. */
  lemma RebuildPermuted(tree: Tree, spans: seq<Span>, x: Id)
    requires CallTree(tree) && multiset(spans) == multiset(Flat(tree))
    ensures Unique(spans) && TableOf(spans) == TableOf(Flat(tree))
    ensures Roots(spans) == [tree.span.id]
    ensures AtDepth(TableOf(spans), [tree], 0)
    ensures NoDup(Kids(spans, x)) && NoDup(Kids(Flat(tree), x))
    ensures SetOf(Kids(spans, x)) == SetOf(Kids(Flat(tree), x))
  {
    TableOfPermutation(Flat(tree), spans);
    var t := TableOf(spans);
    KidsNoDup(t, spans, x);
    KidsNoDup(t, Flat(tree), x);
    TableIn(Flat(tree), tree.span);
    forall c | c in t ensures Par(t, c).None? <==> c == tree.span.id { OutermostIsRoot(tree, c); }
    SingleRoot(spans, tree.span.id);
    RebuildDepths(tree);
  }

  lemma RebuildDepths(tree: Tree)
    requires CallTree(tree)
    ensures AtDepth(TableOf(Flat(tree)), [tree], 0)
  {
    RebuildFlat(tree);
  }
}
