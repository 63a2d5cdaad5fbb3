/** Call trees: how a trace is flattened, and how the tree is found again in a flat list. */
module Forest {
  import opened Common
  import opened Spans

  datatype Tree = Tree(span: Span, kids: seq<Tree>)

  /** Pre-order: a span, then the subtrees of its children from left to right. */
  function Flat(tree: Tree): seq<Span>
    decreases tree, 1
  {
    [tree.span] + FlatAll(tree.kids)
  }

  function FlatAll(trees: seq<Tree>): seq<Span>
    decreases trees, 0
  {
    if trees == [] then [] else Flat(trees[0]) + FlatAll(trees[1..])
  }

  lemma FlatCons(tree: Tree, rest: seq<Tree>)
    ensures FlatAll([tree] + rest) == [tree.span] + FlatAll(tree.kids) + FlatAll(rest)
  {
    assert ([tree] + rest)[1..] == rest;
  }

  lemma {:induction false} FlatAllAppend(a: seq<Tree>, b: seq<Tree>)
    ensures FlatAll(a + b) == FlatAll(a) + FlatAll(b)
    decreases |a|
  {
    if a == [] {
      assert a + b == b;
    } else {
      assert (a + b)[1..] == a[1..] + b;
      FlatAllAppend(a[1..], b);
    }
  }

  // ----- The forest in a flat list -----

  ghost predicate AtOrBelow(t: Table, x: Id, y: Id) {
    y in t && (y == x || Anc(t, x, y))
  }

  ghost function Under(t: Table, cs: seq<Id>): set<Id> {
    set y | y in t && exists c :: c in cs && AtOrBelow(t, c, y)
  }

  ghost predicate AllGrounded(t: Table, cs: seq<Id>) {
    forall c :: c in cs ==> Grounded(t, c)
  }

  lemma KidsUnder(spans: seq<Span>, x: Id)
    requires Grounded(TableOf(spans), x)
    ensures AllGrounded(TableOf(spans), Kids(spans, x))
    ensures forall y :: AtOrBelow(TableOf(spans), x, y) <==> y == x || y in Under(TableOf(spans), Kids(spans, x))
    ensures x !in Under(TableOf(spans), Kids(spans, x))
    ensures Under(TableOf(spans), Kids(spans, x)) < Under(TableOf(spans), [x])
  {
    var t, ks := TableOf(spans), Kids(spans, x);
    forall c | c in ks ensures Grounded(t, c) { GroundedByParent(t, c); }
    forall y | y in t && Anc(t, x, y) ensures y in Under(t, ks) {
      var c := AncChild(t, x, y);
      assert c in ks && AtOrBelow(t, c, y);
    }
    forall y | y in Under(t, ks) ensures Anc(t, x, y) {
      var c :| c in ks && AtOrBelow(t, c, y);
      AncStep(t, x, c);
      if c != y { AncTrans(t, x, c, y); }
    }
    if Anc(t, x, x) { AncDepth(t, x, x); }
    assert x in Under(t, [x]) by { assert x in [x] && AtOrBelow(t, x, x); }
    forall y | y in Under(t, ks) ensures y in Under(t, [x]) {
      assert x in [x] && AtOrBelow(t, x, y);
    }
  }

  lemma UnderParts(t: Table, cs: seq<Id>)
    requires cs != []
    ensures Under(t, [cs[0]]) <= Under(t, cs)
    ensures Under(t, cs[1..]) <= Under(t, cs)
    ensures forall y :: y in Under(t, cs) <==> AtOrBelow(t, cs[0], y) || y in Under(t, cs[1..])
    ensures forall y :: y in Under(t, [cs[0]]) <==> AtOrBelow(t, cs[0], y)
  {
    var x, rest := cs[0], cs[1..];
    assert x in cs && x in [x];
    forall y ensures y in Under(t, cs) <==> AtOrBelow(t, x, y) || y in Under(t, rest) {
      if c :| c in cs && AtOrBelow(t, c, y) {
        assert c == x || c in rest;
      }
    }
  }

  /** The subtree of `x`, children in list order. */
  ghost function TreeOf(spans: seq<Span>, x: Id): Tree
    requires Grounded(TableOf(spans), x)
    decreases Under(TableOf(spans), [x]), 0, 0
  {
    KidsUnder(spans, x);
    Tree(TableOf(spans)[x], TreesOf(spans, Kids(spans, x)))
  }

  ghost function TreesOf(spans: seq<Span>, cs: seq<Id>): seq<Tree>
    requires AllGrounded(TableOf(spans), cs)
    decreases Under(TableOf(spans), cs), 1, |cs|
  {
    if cs == [] then []
    else
      UnderParts(TableOf(spans), cs);
      assert cs[0] in cs;
      [TreeOf(spans, cs[0])] + TreesOf(spans, cs[1..])
  }

  lemma RootsGrounded(spans: seq<Span>)
    ensures AllGrounded(TableOf(spans), Roots(spans))
  {
    forall c | c in Roots(spans) ensures Grounded(TableOf(spans), c) {
      GroundedByParent(TableOf(spans), c);
    }
  }

  /** The pre-order listing below a list of grounded spans. */
  ghost function PreOrder(spans: seq<Span>, cs: seq<Id>): seq<Span>
    requires AllGrounded(TableOf(spans), cs)
  {
    FlatAll(TreesOf(spans, cs))
  }

  lemma PreOrderCons(spans: seq<Span>, cs: seq<Id>)
    requires AllGrounded(TableOf(spans), cs) && cs != []
    ensures Grounded(TableOf(spans), cs[0])
    ensures AllGrounded(TableOf(spans), cs[1..]) && AllGrounded(TableOf(spans), Kids(spans, cs[0]))
    ensures PreOrder(spans, cs) ==
            [TableOf(spans)[cs[0]]] + PreOrder(spans, Kids(spans, cs[0])) + PreOrder(spans, cs[1..])
  {
    assert cs[0] in cs;
    KidsUnder(spans, cs[0]);
    FlatCons(TreeOf(spans, cs[0]), TreesOf(spans, cs[1..]));
  }

  lemma AllGroundedAppend(t: Table, a: seq<Id>, b: seq<Id>)
    requires AllGrounded(t, a) && AllGrounded(t, b)
    ensures AllGrounded(t, a + b)
  {}

  lemma {:induction false} PreOrderAppend(spans: seq<Span>, a: seq<Id>, b: seq<Id>)
    requires AllGrounded(TableOf(spans), a) && AllGrounded(TableOf(spans), b)
    ensures AllGrounded(TableOf(spans), a + b)
    ensures PreOrder(spans, a + b) == PreOrder(spans, a) + PreOrder(spans, b)
    decreases |a|
  {
    AllGroundedAppend(TableOf(spans), a, b);
    if a == [] {
      assert a + b == b;
    } else {
      TailOf(a, b);
      PreOrderCons(spans, a);
      PreOrderCons(spans, a + b);
      PreOrderAppend(spans, a[1..], b);
      Shift([TableOf(spans)[a[0]]] + PreOrder(spans, Kids(spans, a[0])), PreOrder(spans, a[1..]), PreOrder(spans, b));
    }
  }

  /** One worklist step: the first pending span is replaced by its children. */
  lemma PreOrderStep(spans: seq<Span>, x: Id, rest: seq<Id>)
    requires Grounded(TableOf(spans), x) && AllGrounded(TableOf(spans), rest)
    ensures AllGrounded(TableOf(spans), [x] + rest)
    ensures AllGrounded(TableOf(spans), Kids(spans, x) + rest)
    ensures PreOrder(spans, [x] + rest) == [TableOf(spans)[x]] + PreOrder(spans, Kids(spans, x) + rest)
  {
    AllGroundedAppend(TableOf(spans), [x], rest);
    PreOrderCons(spans, [x] + rest);
    PreOrderAppend(spans, Kids(spans, x), rest);
    assert ([x] + rest)[1..] == rest;
    Shift([TableOf(spans)[x]], PreOrder(spans, Kids(spans, x)), PreOrder(spans, rest));
  }

  lemma InThree(x: Span, a: seq<Span>, b: seq<Span>, s: Span)
    ensures s in [x] + a + b <==> s == x || s in a || s in b
  {}

  /** The listing below a list of spans holds exactly those spans and their descendants. */
  lemma {:induction false} PreOrderMembers(spans: seq<Span>, cs: seq<Id>, s: Span)
    requires AllGrounded(TableOf(spans), cs)
    ensures s in PreOrder(spans, cs) <==>
            s.id in Under(TableOf(spans), cs) && TableOf(spans)[s.id] == s
    decreases Under(TableOf(spans), cs), |cs|
  {
    var t := TableOf(spans);
    if cs != [] {
      var x, rest, ks := cs[0], cs[1..], Kids(spans, cs[0]);
      PreOrderCons(spans, cs);
      UnderParts(t, cs);
      KidsUnder(spans, x);
      PreOrderMembers(spans, ks, s);
      PreOrderMembers(spans, rest, s);
      InThree(t[x], PreOrder(spans, ks), PreOrder(spans, rest), s);
    }
  }

  ghost predicate Apart(a: seq<Span>, b: seq<Span>) {
    forall r, s :: r in a && s in b ==> r.id != s.id
  }

  lemma UniqueAppend(a: seq<Span>, b: seq<Span>)
    requires Unique(a) && Unique(b)
    requires Apart(a, b)
    ensures Unique(a + b)
  {
    forall i, j | 0 <= i < |a| && 0 <= j < |b| ensures a[i].id != b[j].id {
      assert a[i] in a && b[j] in b;
    }
  }

  ghost predicate SameParent(t: Table, cs: seq<Id>) {
    forall c, d :: c in cs && d in cs ==> Par(t, c) == Par(t, d)
  }

  lemma SiblingsUnderDisjoint(t: Table, x: Id, rest: seq<Id>)
    requires Grounded(t, x) && AllGrounded(t, rest) && x !in rest
    requires SameParent(t, [x] + rest)
    ensures Under(t, [x]) !! Under(t, rest)
  {
    forall y | y in Under(t, [x]) && y in Under(t, rest) ensures false {
      var c :| c in rest && AtOrBelow(t, c, y);
      assert x in [x] + rest && c in [x] + rest;
      assert AtOrBelow(t, x, y);
      if x != y { AncUngrounded(t, x, y); }
      SiblingsDisjoint(t, x, c, y);
    }
  }

  lemma UniqueThree(x: Span, a: seq<Span>, b: seq<Span>)
    requires Unique(a) && Unique(b)
    requires Apart([x], a) && Apart([x], b) && Apart(a, b)
    ensures Unique([x] + a + b)
  {
    UniqueAppend([x], a);
    UniqueAppend([x] + a, b);
  }

  ghost predicate Within(part: seq<Span>, ids: set<Id>) {
    forall s :: s in part ==> s.id in ids
  }

  lemma ApartWithin(a: seq<Span>, b: seq<Span>, inA: set<Id>, inB: set<Id>)
    requires Within(a, inA) && Within(b, inB) && inA !! inB
    ensures Apart(a, b)
  {}

  lemma PreOrderWithin(spans: seq<Span>, cs: seq<Id>)
    requires AllGrounded(TableOf(spans), cs)
    ensures Within(PreOrder(spans, cs), Under(TableOf(spans), cs))
  {
    forall s | s in PreOrder(spans, cs) ensures s.id in Under(TableOf(spans), cs) {
      PreOrderMembers(spans, cs, s);
    }
  }

  lemma OwnWithin(spans: seq<Span>, x: Id)
    requires Grounded(TableOf(spans), x) && AllGrounded(TableOf(spans), Kids(spans, x))
    ensures Within([TableOf(spans)[x]], Under(TableOf(spans), [x]))
    ensures Within(PreOrder(spans, Kids(spans, x)), Under(TableOf(spans), [x]))
    ensures Apart([TableOf(spans)[x]], PreOrder(spans, Kids(spans, x)))
  {
    var t, ks := TableOf(spans), Kids(spans, x);
    KidsUnder(spans, x);
    PreOrderWithin(spans, ks);
    assert x in [x] && AtOrBelow(t, x, x);
    ApartWithin([t[x]], PreOrder(spans, ks), {x}, Under(t, ks));
  }

  lemma PreOrderApart(spans: seq<Span>, x: Id, rest: seq<Id>)
    requires Grounded(TableOf(spans), x) && AllGrounded(TableOf(spans), Kids(spans, x))
    requires AllGrounded(TableOf(spans), rest) && x !in rest && SameParent(TableOf(spans), [x] + rest)
    ensures Apart([TableOf(spans)[x]], PreOrder(spans, Kids(spans, x)))
    ensures Apart([TableOf(spans)[x]], PreOrder(spans, rest))
    ensures Apart(PreOrder(spans, Kids(spans, x)), PreOrder(spans, rest))
  {
    var t := TableOf(spans);
    SiblingsUnderDisjoint(t, x, rest);
    OwnWithin(spans, x);
    PreOrderWithin(spans, rest);
    ApartWithin([t[x]], PreOrder(spans, rest), Under(t, [x]), Under(t, rest));
    ApartWithin(PreOrder(spans, Kids(spans, x)), PreOrder(spans, rest), Under(t, [x]), Under(t, rest));
  }

  lemma SmallerCard(a: set<Id>, b: set<Id>)
    requires a <= b
    ensures |a| <= |b| && (a != b ==> |a| < |b|)
  {
    assert b == a + (b - a);
    if a != b { assert b - a != {}; }
  }

  lemma PartsShrink(spans: seq<Span>, cs: seq<Id>)
    requires AllGrounded(TableOf(spans), cs) && cs != []
    ensures |Under(TableOf(spans), Kids(spans, cs[0]))| < |Under(TableOf(spans), cs)|
    ensures |Under(TableOf(spans), cs[1..])| <= |Under(TableOf(spans), cs)|
  {
    assert cs[0] in cs;
    KidsUnder(spans, cs[0]);
    UnderParts(TableOf(spans), cs);
    SmallerCard(Under(TableOf(spans), Kids(spans, cs[0])), Under(TableOf(spans), cs));
    SmallerCard(Under(TableOf(spans), cs[1..]), Under(TableOf(spans), cs));
  }

  lemma PartsOfList(spans: seq<Span>, cs: seq<Id>)
    requires Unique(spans) && NoDup(cs) && AllGrounded(TableOf(spans), cs) && SameParent(TableOf(spans), cs)
    requires cs != []
    ensures Grounded(TableOf(spans), cs[0]) && AllGrounded(TableOf(spans), Kids(spans, cs[0]))
    ensures NoDup(Kids(spans, cs[0])) && SameParent(TableOf(spans), Kids(spans, cs[0]))
    ensures NoDup(cs[1..]) && SameParent(TableOf(spans), cs[1..]) && AllGrounded(TableOf(spans), cs[1..])
    ensures cs[0] !in cs[1..] && [cs[0]] + cs[1..] == cs
  {
    assert cs[0] in cs;
    NoDupTail(cs);
    KidsUnder(spans, cs[0]);
    KidsNoDup(TableOf(spans), spans, cs[0]);
  }

  lemma JoinUnique(spans: seq<Span>, x: Id, rest: seq<Id>)
    requires Grounded(TableOf(spans), x) && AllGrounded(TableOf(spans), Kids(spans, x))
    requires AllGrounded(TableOf(spans), rest) && x !in rest && SameParent(TableOf(spans), [x] + rest)
    requires Unique(PreOrder(spans, rest)) && Unique(PreOrder(spans, Kids(spans, x)))
    ensures Unique([TableOf(spans)[x]] + PreOrder(spans, Kids(spans, x)) + PreOrder(spans, rest))
  {
    PreOrderApart(spans, x, rest);
    UniqueThree(TableOf(spans)[x], PreOrder(spans, Kids(spans, x)), PreOrder(spans, rest));
  }

  /** No span is listed twice. */
  lemma {:induction false} PreOrderNoDup(spans: seq<Span>, cs: seq<Id>)
    requires Unique(spans) && NoDup(cs) && AllGrounded(TableOf(spans), cs) && SameParent(TableOf(spans), cs)
    ensures Unique(PreOrder(spans, cs))
    decreases |Under(TableOf(spans), cs)|, |cs|
  {
    if cs != [] {
      PartsOfList(spans, cs);
      PartsShrink(spans, cs);
      PreOrderNoDup(spans, Kids(spans, cs[0]));
      PreOrderNoDup(spans, cs[1..]);
      JoinUnique(spans, cs[0], cs[1..]);
      PreOrderCons(spans, cs);
    }
  }

  lemma RootsTogether(spans: seq<Span>)
    ensures AllGrounded(TableOf(spans), Roots(spans)) && SameParent(TableOf(spans), Roots(spans))
  {
    RootsGrounded(spans);
    forall c | c in Roots(spans) ensures Par(TableOf(spans), c) == None {}
  }

  lemma ForestUnique(spans: seq<Span>)
    requires Unique(spans)
    ensures AllGrounded(TableOf(spans), Roots(spans))
    ensures Unique(PreOrder(spans, Roots(spans)))
  {
    RootsTogether(spans);
    RootsNoDup(TableOf(spans), spans);
    PreOrderNoDup(spans, Roots(spans));
  }

  lemma UnderRoots(spans: seq<Span>, y: Id)
    requires y in TableOf(spans)
    ensures y in Under(TableOf(spans), Roots(spans)) <==> Grounded(TableOf(spans), y)
  {
    var t := TableOf(spans);
    GroundedIffUnderRoot(t, y);
    if r :| r in t && Par(t, r).None? && (r == y || Anc(t, r, y)) {
      assert r in Roots(spans) && AtOrBelow(t, r, y);
    }
  }

  /** The listing of the whole forest holds every grounded span exactly once, and nothing else. */
  lemma PreOrderComplete(spans: seq<Span>, s: Span)
    requires Unique(spans)
    ensures AllGrounded(TableOf(spans), Roots(spans))
    ensures Unique(PreOrder(spans, Roots(spans)))
    ensures s in PreOrder(spans, Roots(spans)) <==>
            Grounded(TableOf(spans), s.id) && TableOf(spans)[s.id] == s
  {
    ForestUnique(spans);
    PreOrderMembers(spans, Roots(spans), s);
    if s.id in TableOf(spans) { UnderRoots(spans, s.id); }
  }
}
