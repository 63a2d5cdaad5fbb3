/** What the five passes decide about a span, stated on the table alone, and the laws that only
    show when the passes are composed. */
module Roles {
  import opened Common
  import opened JsonValues
  import opened Spans

  datatype Role = Originator | Propagator | Manifestor | Clean

  // ----- What each pass contributes -----

  /** Pass 3 reaches grounded spans only; the field of any other span keeps its initial 0. */
  ghost function CountOf(t: Table, x: Id): nat {
    if Grounded(t, x) then |BadBelow(t, x)| else 0
  }

  ghost predicate SubtreeBad(t: Table, x: Id) {
    Grounded(t, x) && (Bad(t[x]) || BadBelow(t, x) != {})
  }

  /** Pass 4: some strict ancestor is bad without a bad descendant. */
  ghost predicate LeafBadAbove(t: Table, x: Id) {
    Grounded(t, x) && exists a :: a in t && Anc(t, a, x) && Bad(t[a]) && BadBelow(t, a) == {}
  }

  predicate Introduces(s: Span) {
    (NullOutput(s) || EmptyOutput(s)) && !BadInput(s)
  }

  /** Pass 4b: bad input, and a sibling that introduced bad output on good input. */
  ghost predicate SiblingMark(t: Table, x: Id) {
    && x in t && Bad(t[x]) && BadInput(t[x]) && Par(t, x).Some?
    && exists y :: y in t && y != x && Par(t, y) == Par(t, x) && Introduces(t[y])
  }

  /** Pass 4c: some recorded source span is bad. */
  ghost predicate LineageMark(t: Table, x: Id) {
    x in t && exists s :: s in t[x].sources && s in t && Bad(t[s])
  }

  ghost predicate UpstreamBad(t: Table, x: Id) {
    LeafBadAbove(t, x) || SiblingMark(t, x) || LineageMark(t, x)
  }

  ghost predicate Inherited(t: Table, x: Id) {
    SiblingMark(t, x) || (LineageMark(t, x) && Bad(t[x]))
  }

  /** The role of a span in closed form. */
  ghost function RoleOf(t: Table, x: Id): Role
    requires x in t
  {
    if !Bad(t[x]) then Clean
    else if CountOf(t, x) > 0 then Propagator
    else if SiblingMark(t, x) || LineageMark(t, x) then Manifestor
    else Originator
  }

  // ----- Pass 4 on its own -----

  /** A span with a childless-bad span above it is not bad: top-down propagation alone never
      marks any span's badness as inherited. */
  lemma TopDownNeverInherits(t: Table, x: Id)
    requires LeafBadAbove(t, x)
    ensures !Bad(t[x])
  {
    var a :| a in t && Anc(t, a, x) && Bad(t[a]) && BadBelow(t, a) == {};
    assert Bad(t[x]) ==> x in BadBelow(t, a);
  }

  lemma RootNotBelow(t: Table, x: Id)
    requires Par(t, x).None?
    ensures !LeafBadAbove(t, x)
  {
    forall a | Anc(t, a, x) ensures false { AncStep(t, a, x); }
  }

  /** How the flag a parent hands down is computed from its own. */
  lemma LeafBadStep(t: Table, p: Id, x: Id)
    requires Grounded(t, p) && x in t && Par(t, x) == Some(p)
    ensures LeafBadAbove(t, x) <==> LeafBadAbove(t, p) || (Bad(t[p]) && BadBelow(t, p) == {})
  {
    GroundedByParent(t, x);
    forall a ensures Anc(t, a, x) <==> (a == p || Anc(t, a, p)) { AncStep(t, a, x); }
  }

  // ----- Shape of the verdict -----

  /** Clean and Propagator have a meaning that mentions no mark at all. */
  lemma RolesCharacterised(t: Table, x: Id)
    requires Grounded(t, x)
    ensures RoleOf(t, x) == Clean <==> !Bad(t[x])
    ensures RoleOf(t, x) == Propagator <==> Bad(t[x]) && exists y :: y in t && Anc(t, x, y) && Bad(t[y])
    ensures SubtreeBad(t, x) <==> exists y :: y in t && Bad(t[y]) && (y == x || Anc(t, x, y))
  {
    if y :| y in t && Anc(t, x, y) && Bad(t[y]) {
      assert y in BadBelow(t, x);
    }
    if BadBelow(t, x) != {} {
      var y :| y in BadBelow(t, x);
    }
  }

  /** Originators and manifestors lie on no common branch. */
  lemma VerdictsAreAntichain(t: Table, a: Id, x: Id)
    requires a in t && x in t && Grounded(t, x) && Anc(t, a, x)
    requires RoleOf(t, x) in {Originator, Manifestor}
    ensures RoleOf(t, a) in {Propagator, Clean}
  {
    AncDepth(t, a, x);
    assert x in BadBelow(t, a);
  }

  // ----- Some span is blamed -----

  lemma {:induction false} ArgMin(s: set<Id>, f: map<Id, nat>) returns (x: Id)
    requires s != {} && s <= f.Keys
    ensures x in s && forall y :: y in s ==> f[x] <= f[y]
    decreases s
  {
    x :| x in s;
    if s != {x} {
      var z := ArgMin(s - {x}, f);
      if f[z] < f[x] { x := z; }
    }
  }

  lemma {:induction false} ArgMax(s: set<Id>, f: map<Id, nat>) returns (x: Id)
    requires s != {} && s <= f.Keys
    ensures x in s && forall y :: y in s ==> f[y] <= f[x]
    decreases s
  {
    x :| x in s;
    if s != {x} {
      var z := ArgMax(s - {x}, f);
      if f[x] < f[z] { x := z; }
    }
  }

  ghost predicate SomeBad(t: Table) {
    exists x :: x in t && Bad(t[x])
  }

  ghost predicate SomeOriginator(t: Table) {
    exists x :: x in t && RoleOf(t, x) == Originator
  }

  /** Every bad span without a bad descendant that pass 4b marks has a sibling that it cannot mark. */
  lemma UnmarkedSibling(t: Table, x: Id) returns (y: Id)
    requires SiblingMark(t, x)
    ensures y in t && Par(t, y) == Par(t, x) && Bad(t[y]) && !SiblingMark(t, y)
  {
    y :| y in t && y != x && Par(t, y) == Par(t, x) && Introduces(t[y]);
  }

  /** A deepest bad span has no bad descendant. */
  lemma DeepestIsLeaf(t: Table, x: Id)
    requires Grounded(t, x)
    requires forall y :: y in t && Grounded(t, y) && Bad(t[y]) ==> Depth(t, y) <= Depth(t, x)
    ensures CountOf(t, x) == 0
  {
    forall y | y in BadBelow(t, x) ensures false {
      AncUngrounded(t, x, y);
      AncDepth(t, x, y);
    }
    assert BadBelow(t, x) == {};
  }

  /** Without recorded lineage every failing trace, cyclic or not, has an originator. */
  lemma OriginatorWithoutLineage(t: Table)
    requires SomeBad(t)
    requires forall x :: x in t ==> t[x].sources == []
    ensures SomeOriginator(t)
  {
    var bad := set x | x in t && Grounded(t, x) && Bad(t[x]);
    if bad != {} {
      var depth := map x | x in bad :: Depth(t, x);
      var x := ArgMax(bad, depth);
      assert forall y :: y in bad ==> depth[y] == Depth(t, y);
      DeepestIsLeaf(t, x);
      if SiblingMark(t, x) {
        var y := UnmarkedSibling(t, x);
        DepthParent(t, x);
        GroundedByParent(t, y);
        DepthParent(t, y);
        DeepestIsLeaf(t, y);
        assert RoleOf(t, y) == Originator;
      } else {
        assert RoleOf(t, x) == Originator;
      }
    } else {
      var x :| x in t && Bad(t[x]);
      assert Grounded(t, x) ==> x in bad;
      if SiblingMark(t, x) {
        var y := UnmarkedSibling(t, x);
        assert Grounded(t, y) ==> y in bad;
        assert RoleOf(t, y) == Originator;
      } else {
        assert RoleOf(t, x) == Originator;
      }
    }
  }

  /** Children finish before their parents, and a recorded source finishes before its consumer
      starts. */
  ghost predicate Ordered(t: Table, started: map<Id, nat>, finished: map<Id, nat>) {
    && t.Keys <= started.Keys && t.Keys <= finished.Keys
    && (forall x :: x in t ==> started[x] < finished[x])
    && (forall x :: x in t && Par(t, x).Some? ==> finished[x] < finished[Par(t, x).value])
    && (forall x, s :: x in t && s in t[x].sources && s in t ==> finished[s] < started[x])
  }

  lemma {:induction false} DescendantsFinishFirst(t: Table, f: map<Id, nat>, a: Id, x: Id, k: nat)
    requires t.Keys <= f.Keys && x in t && k > 0 && Up(t, x, k) == Some(a)
    requires forall y :: y in t && Par(t, y).Some? ==> f[y] < f[Par(t, y).value]
    ensures a in t && f[x] < f[a]
    decreases k
  {
    if k > 1 {
      DescendantsFinishFirst(t, f, a, Par(t, x).value, k - 1);
    } else {
      assert Up(t, Par(t, x).value, 0) == Some(a);
    }
  }

  /** `y` is a sibling that pass 4b may blame for the bad input of `x`. */
  ghost predicate Blames(t: Table, x: Id, y: Id) {
    && x in t && y in t && y != x && Par(t, x).Some? && Par(t, y) == Par(t, x)
    && Bad(t[x]) && BadInput(t[x]) && Introduces(t[y])
  }

  lemma BlamesIs(t: Table, x: Id)
    ensures SiblingMark(t, x) <==> exists y :: Blames(t, x, y)
  {
    if SiblingMark(t, x) {
      var y :| y in t && y != x && Par(t, y) == Par(t, x) && Introduces(t[y]);
      assert Blames(t, x, y);
    }
  }

  /** With lineage: under the order the tracer guarantees, and as long as pass 4b only blames
      siblings that finished before the span they are blamed for, the first bad span to finish is
      an originator. */
  lemma OriginatorInOrder(t: Table, started: map<Id, nat>, finished: map<Id, nat>)
    requires SomeBad(t) && Ordered(t, started, finished)
    requires forall x, y :: Blames(t, x, y) ==> finished[y] < finished[x]
    ensures SomeOriginator(t)
  {
    var bad := set x | x in t && Bad(t[x]);
    assert bad != {} by { var z :| z in t && Bad(t[z]); assert z in bad; }
    var x := ArgMin(bad, finished);
    forall y | y in t && Anc(t, x, y) ensures !Bad(t[y]) {
      var k: nat :| k > 0 && Up(t, y, k) == Some(x);
      DescendantsFinishFirst(t, finished, x, y, k);
      assert Bad(t[y]) ==> y in bad;
    }
    forall s | s in t[x].sources && s in t ensures !Bad(t[s]) { assert Bad(t[s]) ==> s in bad; }
    forall y ensures !Blames(t, x, y) { assert Blames(t, x, y) ==> y in bad; }
    assert Unexplained(t, x);
    OriginatorExactly(t);
  }

  /** In particular when no span has a bad input. */
  lemma OriginatorWithLineage(t: Table, started: map<Id, nat>, finished: map<Id, nat>)
    requires SomeBad(t) && Ordered(t, started, finished)
    requires forall x :: x in t ==> !BadInput(t[x])
    ensures SomeOriginator(t)
  {
    OriginatorInOrder(t, started, finished);
  }

  /** Nothing explains the badness of `x`: no bad descendant counted, no introducing sibling for a bad
      input of its own, no bad source. */
  ghost predicate Unexplained(t: Table, x: Id) {
    && x in t && Bad(t[x])
    && (Grounded(t, x) ==> forall y :: y in t && Bad(t[y]) ==> !Anc(t, x, y))
    && (forall y :: !Blames(t, x, y))
    && (forall s :: s in t[x].sources && s in t ==> !Bad(t[s]))
  }

  /** In general, with cyclic parents too: exactly when some bad span is unexplained. */
  lemma OriginatorExactly(t: Table)
    ensures SomeOriginator(t) <==> exists x :: Unexplained(t, x)
  {
    if x :| x in t && RoleOf(t, x) == Originator {
      assert forall y :: Grounded(t, x) && y in t && Bad(t[y]) && Anc(t, x, y) ==> y in BadBelow(t, x);
      assert Unexplained(t, x);
    }
    if x :| Unexplained(t, x) {
      assert Grounded(t, x) ==> BadBelow(t, x) == {};
      BlamesIs(t, x);
      assert RoleOf(t, x) == Originator;
    }
  }

  function Plain(id: Id, parent: Option<Id>, input: Json, output: Json, sources: seq<Id>): Span {
    Span(id, parent, id, 0, None, None, None, input, output, Null, sources)
  }

  const MUTUAL_ROOT := Plain("r", None, Null, Bool(true), [])
  const MUTUAL_A := Plain("a", Some("r"), Obj([("args", Arr([Null]))]), Arr([]), [])
  const MUTUAL_B := Plain("b", Some("r"), Obj([("args", Arr([Arr([])]))]), Arr([]), ["a"])
  const MUTUAL_C := Plain("c", Some("r"), Null, Bool(true), [])
  const MUTUAL_TRACE := [MUTUAL_ROOT, MUTUAL_A, MUTUAL_B, MUTUAL_C]

  function MutualTable(): Table {
    map["r" := MUTUAL_ROOT, "a" := MUTUAL_A, "b" := MUTUAL_B, "c" := MUTUAL_C]
  }

  lemma MutualShape()
    ensures var t := MutualTable();
            && Par(t, "r") == None && Par(t, "a") == Some("r") && Par(t, "b") == Some("r") && Par(t, "c") == Some("r")
            && Acyclic(t) && forall x :: x in {"a", "b", "c"} ==> BadBelow(t, x) == {} && Depth(t, x) == 1
    ensures Depth(MutualTable(), "r") == 0
  {
    var t := MutualTable();
    GroundedByParent(t, "r");
    DepthParent(t, "r");
    forall x | x in {"a", "b", "c"} ensures Grounded(t, x) && Depth(t, x) == 1 && BadBelow(t, x) == {} {
      GroundedByParent(t, x);
      DepthParent(t, x);
      forall y | y in t ensures !Anc(t, x, y) {
        AncStep(t, x, y);
        AncStep(t, x, "r");
      }
    }
  }

  lemma MutualFlags()
    ensures !Bad(MUTUAL_ROOT) && Bad(MUTUAL_A) && Bad(MUTUAL_B) && !Bad(MUTUAL_C)
    ensures BadInput(MUTUAL_A) && !BadInput(MUTUAL_B) && Introduces(MUTUAL_B)
  {
    assert Get([("args", Arr([Null]))], "args") == Some(Arr([Null]));
    assert Null in [Null];
    assert Get([("args", Arr([Arr([])]))], "args") == Some(Arr([Arr([])]));
    assert [Arr([])][0] == Arr([]);
  }

  lemma MutualMarks()
    ensures SiblingMark(MutualTable(), "a") && LineageMark(MutualTable(), "b")
  {
    var t := MutualTable();
    MutualShape();
    MutualFlags();
    assert "b" in t && t["b"] == MUTUAL_B;
    assert "a" in MUTUAL_B.sources;
  }

  const MUTUAL_STARTED: map<Id, nat> := map["r" := 0, "a" := 1, "b" := 3, "c" := 5]
  const MUTUAL_FINISHED: map<Id, nat> := map["r" := 7, "a" := 2, "b" := 4, "c" := 6]

  ghost predicate MutualTimes(x: Id)
    requires x in MutualTable()
  {
    && x in MUTUAL_STARTED && x in MUTUAL_FINISHED && MUTUAL_STARTED[x] < MUTUAL_FINISHED[x]
    && MUTUAL_FINISHED[x] <= 7 && (x != "r" ==> MUTUAL_FINISHED[x] < 7)
    && (MutualTable()[x].sources != [] ==> x == "b" && MutualTable()[x].sources == ["a"])
  }

  lemma MutualOrder()
    ensures exists started, finished :: Ordered(MutualTable(), started, finished)
  {
    MutualShape();
    assert Ordered(MutualTable(), MUTUAL_STARTED, MUTUAL_FINISHED) by {
      forall x | x in MutualTable() ensures MutualTimes(x) {}
    }
  }

  lemma MutualRoles(x: Id)
    requires x in MutualTable()
    ensures RoleOf(MutualTable(), x) == if x in {"a", "b"} then Manifestor else Clean
  {
    MutualShape();
    MutualFlags();
    MutualMarks();
    assert x in {"a", "b"} ==> CountOf(MutualTable(), x) == 0;
  }

  /** Passes 4b and 4c can explain two siblings by each other: `a` got a null argument and
      returned an empty list, `b` consumed that list and returned another one.  The trace fails,
      respects the tracer's order, and has no originator.  In every such order `b`, which pass 4b
      blames for the bad input of `a`, finishes after `a`. */
  lemma MutualBlame()
    ensures Acyclic(MutualTable()) && SomeBad(MutualTable()) && !SomeOriginator(MutualTable())
    ensures exists started, finished :: Ordered(MutualTable(), started, finished)
    ensures forall started, finished :: Ordered(MutualTable(), started, finished) ==>
              Blames(MutualTable(), "a", "b") && finished["a"] < finished["b"]
  {
    MutualShape();
    MutualMarks();
    MutualOrder();
    MutualFlags();
    assert "a" in MutualTable()["b"].sources;
    assert Bad(MutualTable()["a"]);
    forall x | x in MutualTable() ensures RoleOf(MutualTable(), x) != Originator {
      MutualRoles(x);
    }
  }

  // ----- The failing slice -----

  /** The part of a table that the full chain reports. */
  ghost function Slice(t: Table): Table {
    map x | x in t && SubtreeBad(t, x) :: t[x]
  }

  lemma SliceClosed(t: Table, x: Id)
    requires x in Slice(t) && Par(t, x).Some?
    ensures Par(t, x).value in Slice(t)
  {
    var p := Par(t, x).value;
    DepthParent(t, x);
    RolesCharacterised(t, x);
    var y :| y in t && Bad(t[y]) && (y == x || Anc(t, x, y));
    AncStep(t, p, x);
    if y != x { AncTrans(t, p, x, y); }
    RolesCharacterised(t, p);
  }

  lemma SlicePar(t: Table, x: Id)
    requires x in Slice(t)
    ensures Par(Slice(t), x) == Par(t, x)
  {
    if Par(t, x).Some? { SliceClosed(t, x); }
  }

  lemma {:induction false} SliceUp(t: Table, x: Id, k: nat)
    requires x in Slice(t)
    ensures Up(Slice(t), x, k) == Up(t, x, k)
    decreases k
  {
    SlicePar(t, x);
    if k > 0 && Par(t, x).Some? {
      SliceClosed(t, x);
      SliceUp(t, Par(t, x).value, k - 1);
    }
  }

  lemma SliceAnc(t: Table, a: Id, x: Id)
    requires x in Slice(t)
    ensures Anc(Slice(t), a, x) <==> Anc(t, a, x)
  {
    if Anc(t, a, x) {
      var k: nat :| k > 0 && Up(t, x, k) == Some(a);
      SliceUp(t, x, k);
    }
    if Anc(Slice(t), a, x) {
      var k: nat :| k > 0 && Up(Slice(t), x, k) == Some(a);
      SliceUp(t, x, k);
    }
  }

  /** Every bad span of an acyclic trace is in its slice. */
  lemma SliceKeepsBad(t: Table, y: Id)
    requires Acyclic(t) && y in t && Bad(t[y])
    ensures y in Slice(t) && Slice(t)[y] == t[y]
  {}

  lemma SliceCount(t: Table, x: Id)
    requires Acyclic(t) && x in Slice(t)
    ensures Grounded(Slice(t), x) && BadBelow(Slice(t), x) == BadBelow(t, x)
  {
    var k: nat :| Up(t, x, k) == None;
    SliceUp(t, x, k);
    forall y ensures y in BadBelow(Slice(t), x) <==> y in BadBelow(t, x) {
      if y in t && Bad(t[y]) {
        SliceKeepsBad(t, y);
        SliceAnc(t, x, y);
      }
    }
  }

  lemma SliceMarks(t: Table, x: Id)
    requires Acyclic(t) && x in Slice(t)
    ensures SiblingMark(Slice(t), x) <==> SiblingMark(t, x)
    ensures LineageMark(Slice(t), x) <==> LineageMark(t, x)
  {
    var u := Slice(t);
    SlicePar(t, x);
    if SiblingMark(t, x) {
      var y :| y in t && y != x && Par(t, y) == Par(t, x) && Introduces(t[y]);
      SliceKeepsBad(t, y);
      SlicePar(t, y);
    }
    if SiblingMark(u, x) {
      var y :| y in u && y != x && Par(u, y) == Par(u, x) && Introduces(u[y]);
      SlicePar(t, y);
    }
    if LineageMark(t, x) {
      var s :| s in t[x].sources && s in t && Bad(t[s]);
      SliceKeepsBad(t, s);
    }
  }

  /** Slice soundness: analysing the reported slice alone gives every span in it the role it has
      in the whole trace. */
  lemma SliceSound(t: Table, x: Id)
    requires Acyclic(t) && x in Slice(t)
    ensures RoleOf(Slice(t), x) == RoleOf(t, x)
    ensures CountOf(Slice(t), x) == CountOf(t, x)
    ensures x in Slice(Slice(t))
  {
    SliceCount(t, x);
    SliceMarks(t, x);
  }
}
