/** Replay: the walk from a span up through its parents, over any lookup, cyclic or incomplete. */
module Replay {
  import opened Common
  import opened Spans

  /** A parent id worth following. */
  predicate Given(id: Option<Id>) {
    id.Some? && id.value != ""
  }

  predicate Follows(lookup: Table, current: Option<Id>, visited: set<Id>) {
    Given(current) && current.value !in visited && current.value in lookup
  }

  /** The ancestors met from `current` on, nearest first. */
  function Climb(lookup: Table, current: Option<Id>, visited: set<Id>): seq<Id>
    decreases |lookup.Keys - visited|
  {
    if !Follows(lookup, current, visited) then []
    else
      var x := current.value;
      Shrinks(lookup, visited, x);
      [x] + Climb(lookup, lookup[x].parent, visited + {x})
  }

  /** The id at which the walk stops. */
  function Stop(lookup: Table, current: Option<Id>, visited: set<Id>): Option<Id>
    decreases |lookup.Keys - visited|
  {
    if !Follows(lookup, current, visited) then current
    else
      var x := current.value;
      Shrinks(lookup, visited, x);
      Stop(lookup, lookup[x].parent, visited + {x})
  }

  lemma Shrinks(lookup: Table, visited: set<Id>, x: Id)
    requires x in lookup && x !in visited
    ensures |lookup.Keys - (visited + {x})| < |lookup.Keys - visited|
  {
    assert lookup.Keys - visited == lookup.Keys - (visited + {x}) + {x};
  }

  predicate Missing(lookup: Table, id: Option<Id>) {
    Given(id) && id.value !in lookup
  }

  /** The length of the walk, and one more when it stops at an unknown id. */
  function ReplayDepth(lookup: Table, parent: Option<Id>): nat {
    |Climb(lookup, parent, {})| + One(Missing(lookup, Stop(lookup, parent, {})))
  }

  // ----- The code -----

  /** Ancestors of a span with the given parent, root-most first; nothing for a root. */
  method ReconstructParentContext(lookup: Table, parent: Option<Id>) returns (context: Option<seq<Id>>)
    ensures var chain := Climb(lookup, parent, {});
            context == if chain == [] then None else Some(Reverse(chain))
  {
    if !Given(parent) { return None; }
    var chain: seq<Id> := [];
    var visited: set<Id> := {};
    var current := parent;
    while Given(current) && current.value !in visited
      invariant chain + Climb(lookup, current, visited) == Climb(lookup, parent, {})
      decreases |lookup.Keys - visited|
    {
      var x := current.value;
      if x !in lookup { break; }
      Shrinks(lookup, visited, x);
      visited := visited + {x};
      chain := chain + [x];
      current := lookup[x].parent;
    }
    assert Climb(lookup, current, visited) == [];
    assert chain + [] == chain;
    context := if chain == [] then None else Some(Reverse(chain));
  }

  /** The depth of the side-by-side view; a missing parent still counts. */
  method TreeDepth(lookup: Table, parent: Option<Id>) returns (depth: nat)
    ensures depth == ReplayDepth(lookup, parent)
  {
    depth := 0;
    var visited: set<Id> := {};
    var current := parent;
    while Given(current) && current.value !in visited
      invariant depth + |Climb(lookup, current, visited)| == |Climb(lookup, parent, {})|
      invariant Stop(lookup, current, visited) == Stop(lookup, parent, {}) && visited <= lookup.Keys
      decreases |lookup.Keys - visited|
    {
      var x := current.value;
      depth := depth + 1;
      if x !in lookup { return; }
      Shrinks(lookup, visited, x);
      visited := visited + {x};
      current := lookup[x].parent;
    }
    StopsThere(lookup, current, visited);
  }

  lemma StopsThere(lookup: Table, current: Option<Id>, visited: set<Id>)
    requires !(Given(current) && current.value !in visited) && visited <= lookup.Keys
    ensures Climb(lookup, current, visited) == [] && Stop(lookup, current, visited) == current
    ensures !Missing(lookup, current)
  {}

  ghost function Siblings(lookup: Table, x: Id, parent: Option<Id>): set<Id> {
    set y | y in lookup && y != x && lookup[y].parent == parent
  }

  ghost function SiblingsAmong(lookup: Table, ids: seq<Id>, x: Id, parent: Option<Id>): set<Id> {
    set y | y in ids && y in Siblings(lookup, x, parent)
  }

  lemma SiblingStep(lookup: Table, ids: seq<Id>, i: nat, x: Id, parent: Option<Id>)
    requires NoDup(ids) && SetOf(ids) == lookup.Keys && i < |ids|
    ensures ids[i] in lookup
    ensures |SiblingsAmong(lookup, ids[..i + 1], x, parent)| ==
            |SiblingsAmong(lookup, ids[..i], x, parent)| + One(lookup[ids[i]].parent == parent && ids[i] != x)
  {
    assert ids[i] in SetOf(ids) && ids[i] !in ids[..i];
    PrefixSnoc(ids, i);
    var before, after := SiblingsAmong(lookup, ids[..i], x, parent), SiblingsAmong(lookup, ids[..i + 1], x, parent);
    if ids[i] in Siblings(lookup, x, parent) {
      assert after == before + {ids[i]};
    } else {
      assert after == before;
    }
  }

  lemma AllSiblings(lookup: Table, ids: seq<Id>, x: Id, parent: Option<Id>)
    requires SetOf(ids) == lookup.Keys
    ensures SiblingsAmong(lookup, ids[..|ids|], x, parent) == Siblings(lookup, x, parent)
  {
    assert ids[..|ids|] == ids;
    assert forall y :: y in lookup ==> y in SetOf(ids);
  }

  method SiblingCount(lookup: Table, ids: seq<Id>, x: Id, parent: Option<Id>) returns (count: nat)
    requires NoDup(ids) && SetOf(ids) == lookup.Keys
    ensures count == if Given(parent) then |Siblings(lookup, x, parent)| + 1 else 0
  {
    if !Given(parent) { return 0; }
    count := 0;
    for i := 0 to |ids|
      invariant count == |SiblingsAmong(lookup, ids[..i], x, parent)|
    {
      SiblingStep(lookup, ids, i, x, parent);
      if lookup[ids[i]].parent == parent && ids[i] != x {
        count := count + 1;
      }
    }
    AllSiblings(lookup, ids, x, parent);
    count := count + 1;
  }

  // ----- What the walk returns -----

  /** Distinct known spans, consecutive ones child to parent, starting at the direct parent, until
      the next id is absent, empty, unknown or already met. */
  ghost predicate IsWalk(lookup: Table, parent: Option<Id>, chain: seq<Id>) {
    && NoDup(chain) && (forall x :: x in chain ==> x in lookup) && Steps(lookup, parent, chain)
    && (var last := NextOf(lookup, parent, chain, |chain|);
        !Given(last) || last.value !in lookup || last.value in chain)
  }

  /** The id the walk looks at after the first `i` spans. */
  ghost function NextOf(lookup: Table, parent: Option<Id>, chain: seq<Id>, i: nat): Option<Id>
    requires i <= |chain|
  {
    if i == 0 then parent else if chain[i - 1] in lookup then lookup[chain[i - 1]].parent else None
  }

  ghost predicate Steps(lookup: Table, current: Option<Id>, c: seq<Id>) {
    forall i {:trigger NextOf(lookup, current, c, i)} :: 0 <= i < |c| ==>
      Given(NextOf(lookup, current, c, i)) && c[i] == NextOf(lookup, current, c, i).value
  }

  lemma StepsCons(lookup: Table, current: Option<Id>, x: Id, rest: seq<Id>)
    requires x in lookup && current == Some(x) && Given(current) && Steps(lookup, lookup[x].parent, rest)
    ensures Steps(lookup, current, [x] + rest)
    ensures NextOf(lookup, current, [x] + rest, |rest| + 1) == NextOf(lookup, lookup[x].parent, rest, |rest|)
  {
    var c := [x] + rest;
    forall i | 0 < i <= |c| ensures NextOf(lookup, current, c, i) == NextOf(lookup, lookup[x].parent, rest, i - 1) {}
  }

  lemma {:induction false} ClimbNext(lookup: Table, current: Option<Id>, visited: set<Id>)
    ensures var c := Climb(lookup, current, visited);
            && NoDup(c) && (forall x :: x in c ==> x !in visited && x in lookup) && Steps(lookup, current, c)
            && (var last := NextOf(lookup, current, c, |c|);
                last == Stop(lookup, current, visited)
                && (!Given(last) || last.value !in lookup || last.value in visited || last.value in c))
    decreases |lookup.Keys - visited|
  {
    if Follows(lookup, current, visited) {
      var x := current.value;
      Shrinks(lookup, visited, x);
      ClimbNext(lookup, lookup[x].parent, visited + {x});
      var rest := Climb(lookup, lookup[x].parent, visited + {x});
      StepsCons(lookup, current, x, rest);
      NoDupCons(x, rest);
    }
  }

  /** For every lookup the walk ends and is a walk, and there is only one. */
  lemma ClimbIsWalk(lookup: Table, parent: Option<Id>, chain: seq<Id>)
    ensures chain == Climb(lookup, parent, {}) <==> IsWalk(lookup, parent, chain)
  {
    var c := Climb(lookup, parent, {});
    ClimbNext(lookup, parent, {});
    assert IsWalk(lookup, parent, c);
    if IsWalk(lookup, parent, chain) {
      if |chain| <= |c| { SameWalk(lookup, parent, chain, c); } else { SameWalk(lookup, parent, c, chain); }
    }
  }

  lemma {:induction false} SameAt(lookup: Table, parent: Option<Id>, a: seq<Id>, b: seq<Id>, i: nat)
    requires IsWalk(lookup, parent, a) && IsWalk(lookup, parent, b) && i <= |a| && i <= |b|
    ensures NextOf(lookup, parent, a, i) == NextOf(lookup, parent, b, i)
    ensures i < |a| && i < |b| ==> a[i] == b[i]
  {
    if i > 0 { SameAt(lookup, parent, a, b, i - 1); }
  }

  lemma SameWalk(lookup: Table, parent: Option<Id>, a: seq<Id>, b: seq<Id>)
    requires IsWalk(lookup, parent, a) && IsWalk(lookup, parent, b) && |a| <= |b|
    ensures a == b
  {
    forall i | 0 <= i < |a| ensures a[i] == b[i] { SameAt(lookup, parent, a, b, i); }
    SameAt(lookup, parent, a, b, |a|);
    LaterIsNew(b, |a|);
    assert b[..|a|] == a;
  }

  lemma LaterIsNew(s: seq<Id>, n: nat)
    requires NoDup(s) && n <= |s|
    ensures forall i :: n <= i < |s| ==> s[i] !in s[..n]
  {}

  // ----- Ancestors and depth in the engine's sense -----

  /** The walk from a span meets exactly its ancestors, also when parents form a cycle. */
  lemma WalkIsAncestors(t: Table, x: Id, a: Id)
    requires x in t
    ensures a in Climb(t, t[x].parent, {}) <==> Anc(t, a, x)
  {
    if a in Climb(t, t[x].parent, {}) { OnlyAncestors(t, x, {}, a); }
    if Anc(t, a, x) {
      var k: nat :| k > 0 && Up(t, x, k) == Some(a);
      AllAncestors(t, x, x, k, a);
    }
  }

  lemma {:induction false} OnlyAncestors(t: Table, x: Id, visited: set<Id>, a: Id)
    requires x in t && a in Climb(t, t[x].parent, visited)
    ensures Anc(t, a, x)
    decreases |t.Keys - visited|
  {
    var p := t[x].parent.value;
    Shrinks(t, visited, p);
    AncStep(t, a, x);
    if a != p { OnlyAncestors(t, p, visited + {p}, a); }
  }

  /** What the walk from `x` has met is closed under parents. */
  lemma {:induction false} AllAncestors(t: Table, x: Id, y: Id, k: nat, a: Id)
    requires x in t && (y == x || y in Climb(t, t[x].parent, {})) && k > 0 && Up(t, y, k) == Some(a)
    ensures a in Climb(t, t[x].parent, {})
    decreases k
  {
    var c := Climb(t, t[x].parent, {});
    var p := Par(t, y).value;
    ClimbNext(t, t[x].parent, {});
    ParentMet(t, x, y, p);
    if k > 1 { AllAncestors(t, x, p, k - 1, a); }
  }

  lemma ParentMet(t: Table, x: Id, y: Id, p: Id)
    requires x in t && (y == x || y in Climb(t, t[x].parent, {})) && Par(t, y) == Some(p)
    ensures p in Climb(t, t[x].parent, {})
  {
    var c := Climb(t, t[x].parent, {});
    ClimbNext(t, t[x].parent, {});
    var i: nat := 0;
    if y in c {
      var j :| 0 <= j < |c| && c[j] == y;
      i := j + 1;
    }
    assert NextOf(t, t[x].parent, c, i) == Some(p);
    if i < |c| { assert c[i] == p; }
  }

  /** Below a root, the walk is as long as the engine's depth. */
  lemma {:induction false} WalkIsDepth(t: Table, x: Id, visited: set<Id>)
    requires Grounded(t, x) && forall a :: a in visited ==> !Anc(t, a, x)
    ensures |Climb(t, t[x].parent, visited)| == Depth(t, x)
    ensures Missing(t, Stop(t, t[x].parent, visited)) <==> exists r :: HangsLoose(t, r, x)
    decreases Depth(t, x)
  {
    DepthParent(t, x);
    if Par(t, x).None? {
      if HangsLoose(t, x, x) {}
      forall r | HangsLoose(t, r, x) ensures r == x { AncStep(t, r, x); }
    } else {
      var p := t[x].parent.value;
      forall a ensures Anc(t, a, x) <==> p == a || Anc(t, a, p) { AncStep(t, a, x); }
      if Anc(t, p, p) { AncDepth(t, p, p); }
      Shrinks(t, visited, p);
      WalkIsDepth(t, p, visited + {p});
      forall r ensures HangsLoose(t, r, x) <==> HangsLoose(t, r, p) {}
    }
  }

  /** `r` is the root above `x` and names a parent that the lookup does not hold. */
  ghost predicate HangsLoose(t: Table, r: Id, x: Id) {
    r in t && (r == x || Anc(t, r, x)) && Par(t, r).None? && Missing(t, t[r].parent)
  }

  /** Below a root the replay depth is the engine's depth, plus one when that root names a missing parent. */
  lemma DepthBelowRoot(t: Table, x: Id)
    requires Grounded(t, x)
    ensures ReplayDepth(t, t[x].parent) == Depth(t, x) + One(exists r :: HangsLoose(t, r, x))
  {
    WalkIsDepth(t, x, {});
  }

  /** Off the forest, on or below a cycle of parents, the engine's depth stays 0 and replay counts on. */
  lemma CycleCounts(t: Table, x: Id)
    requires x in t && !Grounded(t, x)
    ensures DepthOf(t, x) == 0 < ReplayDepth(t, t[x].parent)
  {
    if Par(t, x).None? || Grounded(t, Par(t, x).value) { GroundedByParent(t, x); }
    assert Follows(t, t[x].parent, {});
  }

  /** The two depths of a span agree exactly when it lies below a root and that root names no missing parent. */
  lemma ReplayDepthExactly(t: Table, x: Id)
    requires x in t
    ensures ReplayDepth(t, t[x].parent) == DepthOf(t, x) <==> Grounded(t, x) && !exists r :: HangsLoose(t, r, x)
  {
    if Grounded(t, x) { DepthBelowRoot(t, x); } else { CycleCounts(t, x); }
  }

  /** A lone span whose parent was never recorded: one step for replay, none for the engine. */
  lemma LooseDiffers(s: Span)
    ensures var t := map["x" := s.(id := "x", parent := Some("gone"))];
            ReplayDepth(t, t["x"].parent) == 1 && DepthOf(t, "x") == 0
  {
    var t: Table := map["x" := s.(id := "x", parent := Some("gone"))];
    GroundedByParent(t, "x");
    DepthParent(t, "x");
  }

  /** Two spans that are each other's parents: two steps for replay, none for the engine. */
  lemma CycleDiffers(s: Span)
    ensures var t := map["x" := s.(id := "x", parent := Some("y")), "y" := s.(id := "y", parent := Some("x"))];
            ReplayDepth(t, t["x"].parent) == 2 && DepthOf(t, "x") == 0
  {
    var t: Table := map["x" := s.(id := "x", parent := Some("y")), "y" := s.(id := "y", parent := Some("x"))];
    assert Up(t, "x", 1) == Some("y") && Up(t, "x", 2) == Some("x");
    assert Anc(t, "x", "x");
    if Grounded(t, "x") { AncDepth(t, "x", "x"); }
    var none: set<Id> := {};
    var one := none + {"y"};
    assert Climb(t, Some("x"), one) == ["x"] + Climb(t, Some("y"), one + {"x"});
    assert Climb(t, Some("y"), none) == ["y"] + Climb(t, Some("x"), one);
    assert Stop(t, Some("y"), none) == Stop(t, Some("x"), one) == Stop(t, Some("y"), one + {"x"}) == Some("y");
  }
}
