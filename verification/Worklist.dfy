/** Depth-first worklists over the forest of a trace: what is done, what is pending, and why the
    loops visit every span below their root exactly once. */
module Worklist {
  import opened Common
  import opened Spans
  import opened Forest

  /** `done` has been visited and `open` is pending: together they are the root and the children of
      what has been visited. */
  ghost predicate Frontier(t: Table, root: Id, done: set<Id>, open: seq<Id>) {
    && root in t && Par(t, root).None?
    && NoDup(open) && done !! SetOf(open)
    && (forall y :: y in done || y in open ==> AtOrBelow(t, root, y))
    && (forall y :: y in t ==>
          ((y in done || y in open) <==> (y == root || (Par(t, y).Some? && Par(t, y).value in done))))
  }

  lemma FrontierInit(t: Table, root: Id)
    requires root in t && Par(t, root).None?
    ensures Frontier(t, root, {}, [root])
  {}

  lemma NoDupAppend(a: seq<Id>, b: seq<Id>)
    requires NoDup(a) && NoDup(b) && forall x :: x in a ==> x !in b
    ensures NoDup(a + b)
  {
    var s := a + b;
    forall i, j | 0 <= i < j < |s| ensures s[i] != s[j] {
      if i < |a| { assert s[i] in a; }
      if j >= |a| { assert s[j] in b; }
    }
  }

  /** Visiting the last pending span `x` and pushing its children, in whatever order. */
  lemma FrontierStep(t: Table, root: Id, done: set<Id>, rest: seq<Id>, x: Id, ks: seq<Id>)
    requires Frontier(t, root, done, rest + [x])
    requires NoDup(ks) && forall c :: c in ks <==> c in t && Par(t, c) == Some(x)
    ensures x in t && x !in done
    ensures Frontier(t, root, done + {x}, rest + ks)
  {
    var open := rest + [x];
    assert x in open;
    assert NoDup(rest) && x !in rest by { assert open[|rest|] == x; NoDupPrefix(open, |rest|); }
    forall c | c in ks ensures c !in rest && c !in done && c != x && AtOrBelow(t, root, c) {
      AncStep(t, root, c);
      SelfParent(t, root, c, x);
    }
    NoDupAppend(rest, ks);
  }

  lemma NoDupPrefix(s: seq<Id>, n: nat)
    requires NoDup(s) && n < |s|
    ensures NoDup(s[..n]) && s[n] !in s[..n]
  {}

  lemma SelfParent(t: Table, root: Id, c: Id, x: Id)
    requires root in t && Par(t, root).None? && AtOrBelow(t, root, x) && c in t && Par(t, c) == Some(x)
    ensures c != x
  {
    GroundedByParent(t, root);
    if x != root { AncUngrounded(t, root, x); }
    GroundedByParent(t, c);
    DepthParent(t, c);
  }

  /** When nothing is pending, everything at or below the root has been visited. */
  lemma FrontierDone(t: Table, root: Id, done: set<Id>, y: Id)
    requires Frontier(t, root, done, []) && y in t
    ensures y in done <==> AtOrBelow(t, root, y)
  {
    if Anc(t, root, y) {
      var k: nat :| k > 0 && Up(t, y, k) == Some(root);
      ReachDone(t, root, done, y, k);
    }
  }

  lemma {:induction false} ReachDone(t: Table, root: Id, done: set<Id>, y: Id, k: nat)
    requires Frontier(t, root, done, []) && y in t && Up(t, y, k) == Some(root)
    ensures y in done
    decreases k
  {
    if k > 0 {
      ReachDone(t, root, done, Par(t, y).value, k - 1);
    }
  }

  /** A visiting order in which every span comes after its parent. */
  ghost predicate ParentsFirst(t: Table, root: Id, order: seq<Id>) {
    forall i :: 0 <= i < |order| && order[i] != root ==>
      Par(t, order[i]).Some? && Par(t, order[i]).value in order[..i]
  }

  lemma ChildComesLater(t: Table, root: Id, order: seq<Id>, i: nat, c: Id) returns (p: nat)
    requires ParentsFirst(t, root, order) && NoDup(order) && i < |order|
    requires Par(t, c) == Some(order[i]) && c in order && c != root
    ensures i < p < |order| && order[p] == c
  {
    p :| 0 <= p < |order| && order[p] == c;
    var q :| 0 <= q < p && order[q] == order[i];
  }
}
