/** The walk that names the cause of a failure point: when it ends, and what it finds. */
module Causes {
  import opened Common
  import opened JsonValues
  import opened Spans
  import opened Roles

  // ----- The walk -----

  /** The loop looks at an ancestor, or has named a cause. */
  datatype Walk = Look(ancestor: Option<Id>) | Named(cause: Option<Id>)

  ghost predicate Implicated(t: Table, a: Id) {
    a in t && RoleOf(t, a) in {Originator, Propagator}
  }

  ghost function WalkStep(t: Table, w: Walk): Walk {
    match w
    case Named(_) => w
    case Look(None) => Named(None)
    case Look(Some(a)) => if Implicated(t, a) then Named(Some(a)) else Look(Par(t, a))
  }

  /** `n` turns of the loop. */
  ghost function Turns(t: Table, w: Walk, n: nat): Walk
    decreases n
  {
    if n == 0 then w else Turns(t, WalkStep(t, w), n - 1)
  }

  /** The walk starts at the parent. */
  ghost function WalkFrom(t: Table, x: Id, n: nat): Walk {
    Turns(t, Look(Par(t, x)), n)
  }

  // ----- When it ends -----

  /** `k` levels up there is nothing, or an originator or propagator. */
  ghost predicate Stops(t: Table, x: Id, k: nat) {
    k > 0 && (Up(t, x, k).None? || Implicated(t, Up(t, x, k).value))
  }

  ghost predicate CauseEnds(t: Table, x: Id) {
    exists k :: Stops(t, x, k)
  }

  ghost function CauseWithin(t: Table, x: Id, k: nat): Option<Id>
    requires Stops(t, x, k)
    decreases k
  {
    match Par(t, x)
    case None => None
    case Some(p) =>
      if Implicated(t, p) then Some(p)
      else
        StopsAbove(t, x, p, k);
        CauseWithin(t, p, k - 1)
  }

  lemma StopsAbove(t: Table, x: Id, p: Id, k: nat)
    requires Stops(t, x, k) && Par(t, x) == Some(p) && !Implicated(t, p)
    ensures k > 1 && Stops(t, p, k - 1)
  {
    assert Up(t, x, k) == Up(t, p, k - 1);
  }

  lemma {:induction false} CauseWithinAny(t: Table, x: Id, j: nat, k: nat)
    requires Stops(t, x, j) && Stops(t, x, k)
    ensures CauseWithin(t, x, j) == CauseWithin(t, x, k)
    decreases j
  {
    if Par(t, x).Some? && !Implicated(t, Par(t, x).value) {
      StopsAbove(t, x, Par(t, x).value, j);
      StopsAbove(t, x, Par(t, x).value, k);
      CauseWithinAny(t, Par(t, x).value, j - 1, k - 1);
    }
  }

  /** The first originator or propagator above `x`, if there is one. */
  ghost function CausedBy(t: Table, x: Id): Option<Id>
    requires CauseEnds(t, x)
  {
    var k :| Stops(t, x, k);
    CauseWithin(t, x, k)
  }

  lemma CausedByIs(t: Table, x: Id, k: nat)
    requires Stops(t, x, k)
    ensures CauseEnds(t, x) && CausedBy(t, x) == CauseWithin(t, x, k)
  {
    var j :| Stops(t, x, j) && CausedBy(t, x) == CauseWithin(t, x, j);
    CauseWithinAny(t, x, j, k);
  }

  /** One level up. */
  lemma CauseStep(t: Table, x: Id)
    ensures Par(t, x).None? ==> CauseEnds(t, x) && CausedBy(t, x).None?
    ensures Par(t, x).Some? && Implicated(t, Par(t, x).value) ==> CauseEnds(t, x) && CausedBy(t, x) == Par(t, x)
    ensures Par(t, x).Some? && !Implicated(t, Par(t, x).value) ==>
              (CauseEnds(t, x) <==> CauseEnds(t, Par(t, x).value))
              && (CauseEnds(t, x) ==> CausedBy(t, x) == CausedBy(t, Par(t, x).value))
  {
    match Par(t, x)
    case None =>
      assert Up(t, x, 1) == None;
      CausedByIs(t, x, 1);
    case Some(p) =>
      if Implicated(t, p) {
        assert Up(t, x, 1) == Up(t, p, 0) == Some(p);
        CausedByIs(t, x, 1);
      } else {
        CauseStepUp(t, x, p);
      }
  }

  lemma CauseStepUp(t: Table, x: Id, p: Id)
    requires Par(t, x) == Some(p) && !Implicated(t, p)
    ensures CauseEnds(t, x) <==> CauseEnds(t, p)
    ensures CauseEnds(t, x) ==> CausedBy(t, x) == CausedBy(t, p)
  {
    if k: nat :| Stops(t, x, k) {
      StopsAbove(t, x, p, k);
      CausedByIs(t, x, k);
      CausedByIs(t, p, k - 1);
    }
    if k: nat :| Stops(t, p, k) {
      assert Up(t, x, k + 1) == Up(t, p, k);
      assert Stops(t, x, k + 1);
    }
  }

  lemma {:induction false} NamedStays(t: Table, cause: Option<Id>, n: nat)
    ensures Turns(t, Named(cause), n) == Named(cause)
    decreases n
  {
    if n > 0 { NamedStays(t, cause, n - 1); }
  }

  lemma {:induction false} NamedIsCause(t: Table, x: Id, n: nat)
    requires WalkFrom(t, x, n).Named?
    ensures CauseEnds(t, x) && WalkFrom(t, x, n).cause == CausedBy(t, x)
    decreases n
  {
    CauseStep(t, x);
    match Par(t, x)
    case None => NamedStays(t, None, n - 1);
    case Some(p) => if Implicated(t, p) { NamedStays(t, Some(p), n - 1); } else { NamedIsCause(t, p, n - 1); }
  }

  lemma {:induction false} StopIsNamed(t: Table, x: Id, k: nat)
    requires Stops(t, x, k)
    ensures WalkFrom(t, x, k).Named?
    decreases k
  {
    match Par(t, x)
    case None => NamedStays(t, None, k - 1);
    case Some(p) =>
      if Implicated(t, p) {
        NamedStays(t, Some(p), k - 1);
      } else {
        StopsAbove(t, x, p, k);
        StopIsNamed(t, p, k - 1);
      }
  }

  /** The exact condition: the loop comes to an end if and only if the parent chain ends or some
      ancestor is an originator or propagator; and then it has named that cause. */
  lemma WalkEndsExactly(t: Table, x: Id)
    ensures (exists n :: WalkFrom(t, x, n).Named?) <==> CauseEnds(t, x)
    ensures forall n :: WalkFrom(t, x, n).Named? ==> CauseEnds(t, x) && WalkFrom(t, x, n).cause == CausedBy(t, x)
  {
    forall n | WalkFrom(t, x, n).Named? ensures CauseEnds(t, x) && WalkFrom(t, x, n).cause == CausedBy(t, x) {
      NamedIsCause(t, x, n);
    }
    if CauseEnds(t, x) {
      var k :| Stops(t, x, k);
      StopIsNamed(t, x, k);
    }
  }

  /** Below a root it always ends. */
  lemma GroundedEnds(t: Table, x: Id)
    requires Grounded(t, x)
    ensures CauseEnds(t, x)
  {
    var k: nat :| Up(t, x, k) == None;
    assert Stops(t, x, k);
  }

  /** On a parent cycle it ends if and only if some ancestor is an originator. */
  lemma CyclicEndsExactly(t: Table, x: Id)
    requires x in t && !Grounded(t, x)
    ensures CauseEnds(t, x) <==> exists a :: a in t && Anc(t, a, x) && RoleOf(t, a) == Originator
  {
    if k: nat :| Stops(t, x, k) {
      assert Up(t, x, k) != None;
      var a := Up(t, x, k).value;
      assert Anc(t, a, x);
      if Grounded(t, a) { AncUngrounded(t, a, x); }
      assert CountOf(t, a) == 0;
    }
    if a :| a in t && Anc(t, a, x) && RoleOf(t, a) == Originator {
      var k: nat :| k > 0 && Up(t, x, k) == Some(a);
      assert Stops(t, x, k);
    }
  }

  // ----- What it finds -----

  lemma AncestorRole(t: Table, a: Id, x: Id)
    requires Grounded(t, x) && Anc(t, a, x) && Bad(t[x])
    ensures a in t && (RoleOf(t, a) in {Originator, Propagator} <==> Bad(t[a]))
  {
    AncDepth(t, a, x);
    assert x in BadBelow(t, a);
  }

  /** The named cause is the nearest bad ancestor; without one, none is named. */
  lemma {:induction false} CausedByNearest(t: Table, m: Id, x: Id)
    requires Grounded(t, m) && Bad(t[m]) && Grounded(t, x) && (x == m || Anc(t, x, m))
    ensures CauseEnds(t, x)
    ensures CausedBy(t, x).None? ==> forall a :: a in t && Anc(t, a, x) ==> !Bad(t[a])
    ensures CausedBy(t, x).Some? ==>
              var c := CausedBy(t, x).value;
              && c in t && Anc(t, c, x) && Bad(t[c])
              && forall a :: a in t && Anc(t, a, x) && Anc(t, c, a) ==> !Bad(t[a])
    decreases Depth(t, x)
  {
    GroundedEnds(t, x);
    CauseStep(t, x);
    DepthParent(t, x);
    forall a ensures Anc(t, a, x) <==> Par(t, x).Some? && (Par(t, x).value == a || Anc(t, a, Par(t, x).value)) {
      AncStep(t, a, x);
    }
    if Par(t, x).Some? {
      var p := Par(t, x).value;
      if x != m { AncTrans(t, p, x, m); }
      AncestorRole(t, p, m);
      if RoleOf(t, p) in {Originator, Propagator} {
        forall a | a in t && Anc(t, a, x) ensures !Anc(t, p, a) {
          NothingBetween(t, p, a);
        }
      } else {
        CausedByNearest(t, m, p);
      }
    }
  }

  /** No ancestor-or-self of `p` lies strictly below `p`. */
  lemma NothingBetween(t: Table, p: Id, a: Id)
    requires Grounded(t, p) && (a == p || Anc(t, a, p))
    ensures !Anc(t, p, a)
  {
    if a != p { AncDepth(t, a, p); }
    if Anc(t, p, a) { AncDepth(t, p, a); }
  }

  // ----- A trace on which it does not end -----

  const CYCLE_A := Plain("a", Some("b"), Null, Null, ["b"])
  const CYCLE_B := Plain("b", Some("a"), Null, Null, ["a"])
  const CYCLE := [CYCLE_A, CYCLE_B]

  lemma CycleTable()
    ensures Unique(CYCLE) && TableOf(CYCLE) == map["a" := CYCLE_A, "b" := CYCLE_B]
    ensures Par(TableOf(CYCLE), "a") == Some("b") && Par(TableOf(CYCLE), "b") == Some("a")
  {
    TableAt(CYCLE, 0);
    TableAt(CYCLE, 1);
    assert forall s :: s in CYCLE ==> s == CYCLE[0] || s == CYCLE[1];
  }

  lemma {:induction false} CycleUp(x: Id, k: nat)
    requires x in {"a", "b"}
    ensures Up(TableOf(CYCLE), x, k).Some? && Up(TableOf(CYCLE), x, k).value in {"a", "b"}
    decreases k
  {
    CycleTable();
    if k > 0 { CycleUp(if x == "a" then "b" else "a", k - 1); }
  }

  /** Two spans that are each other's parent and source, both without output: both are failure
      points, and the search for the cause of either goes round for ever. */
  lemma CycleNeverEnds(x: Id)
    requires x in {"a", "b"}
    ensures Unique(CYCLE) && x in TableOf(CYCLE) && RoleOf(TableOf(CYCLE), x) == Manifestor
    ensures !CauseEnds(TableOf(CYCLE), x) && forall n :: WalkFrom(TableOf(CYCLE), x, n).Look?
  {
    var t := TableOf(CYCLE);
    CycleTable();
    CycleRole("a");
    CycleRole("b");
    forall k ensures !Stops(t, x, k) { CycleUp(x, k); }
    WalkEndsExactly(t, x);
  }

  lemma CycleRole(x: Id)
    requires x in {"a", "b"}
    ensures x in TableOf(CYCLE) && RoleOf(TableOf(CYCLE), x) == Manifestor
  {
    var t := TableOf(CYCLE);
    var y := if x == "a" then "b" else "a";
    CycleTable();
    forall k: nat ensures Up(t, x, k) != None { CycleUp(x, k); }
    assert !Grounded(t, x);
    assert Bad(t[x]) && Bad(t[y]) && t[x].sources == [y] && y in [y];
    assert LineageMark(t, x);
  }
}
