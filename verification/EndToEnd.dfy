/** From the traced calls to the verdict: what the tracer emits is what the blame engine rebuilds. */
module EndToEnd {
  import opened Common
  import opened Spans
  import opened Roles
  import opened Forest
  import opened Reports
  import opened RoundTrip
  import opened Verdict
  import opened VerdictLaws
  import opened Tracing
  import opened TracingLaws
  import opened TracingRuns
  import opened Lineage
  import opened Evidence
  import opened Records

  lemma {:induction false} PlacedGrounded(t: Table, trees: seq<Tree>, d: nat, s: Span)
    requires AtDepth(t, trees, d) && s in FlatAll(trees)
    ensures Grounded(t, s.id)
    decreases trees
  {
    var k, rest := trees[0], trees[1..];
    FlatSplit(trees);
    if s == k.span {
    } else if s in FlatAll(k.kids) {
      PlacedGrounded(t, k.kids, d + 1, s);
    } else {
      PlacedGrounded(t, rest, d, s);
    }
  }

  lemma CallTreeAcyclic(tree: Tree)
    requires CallTree(tree)
    ensures Acyclic(TableOf(Flat(tree)))
  {
    RebuildFlat(tree);
    FlatSingle(tree);
    var t := TableOf(Flat(tree));
    forall x | x in t ensures Grounded(t, x) {
      PlacedGrounded(t, [tree], 0, t[x]);
    }
  }

  /** What a finished run emitted: one call tree in pre-order, each recorded span once. */
  lemma EmittedIsCallTree(s: State) returns (tree: Tree)
    requires Reachable(s) && s.code.emitted.Some?
    ensures CallTree(tree) && s.code.emitted.value == Flat(tree)
    ensures forall r :: r in s.code.emitted.value <==> r in s.past.recorded
  {
    ReachableKeeps(s);
    tree :| EmittedTree(s.code.emitted.value, s.past.recorded, tree);
  }

  /** In the order of emission, the engine's forest is the call tree itself. */
  lemma EmittedIsRebuilt(s: State) returns (tree: Tree)
    requires Reachable(s) && s.code.emitted.Some?
    ensures var e := s.code.emitted.value;
            && CallTree(tree) && e == Flat(tree) && Roots(e) == [tree.span.id]
            && AllGrounded(TableOf(e), [tree.span.id]) && TreesOf(e, [tree.span.id]) == [tree]
  {
    tree := EmittedIsCallTree(s);
    RebuildFlat(tree);
  }

  /** In any other order: the same single root, the same children below each span, the same depths. */
  lemma ReorderedIsRebuilt(s: State, spans: seq<Span>) returns (tree: Tree)
    requires Reachable(s) && s.code.emitted.Some? && multiset(spans) == multiset(s.code.emitted.value)
    ensures Unique(spans) && Acyclic(TableOf(spans)) && CallTree(tree) && s.code.emitted.value == Flat(tree)
    ensures Roots(spans) == [tree.span.id] && AtDepth(TableOf(spans), [tree], 0)
    ensures forall x :: NoDup(Kids(spans, x)) && SetOf(Kids(spans, x)) == SetOf(Kids(Flat(tree), x))
  {
    tree := EmittedIsCallTree(s);
    CallTreeAcyclic(tree);
    RebuildPermuted(tree, spans, "");
    forall x ensures NoDup(Kids(spans, x)) && SetOf(Kids(spans, x)) == SetOf(Kids(Flat(tree), x)) {
      RebuildPermuted(tree, spans, x);
    }
  }

  /** The order the tracer guarantees is the order the engine needs for lineage. */
  lemma EmittedOrdered(s: State)
    requires Reachable(s) && s.code.emitted.Some?
    ensures Ordered(TableOf(s.code.emitted.value), s.past.started, s.past.finished)
  {
    var tree := EmittedIsCallTree(s);
    ReachableKeeps(s);
    var e := s.code.emitted.value;
    var t := TableOf(e);
    forall x | x in t ensures RecordInTime(t[x], s.past.started, s.past.finished) && t[x].id == x {
      assert t[x] in e;
    }
    forall x | x in t && Par(t, x).Some? ensures t[x].parent == Par(t, x) && Par(t, x).value in t {}
  }

  /** Every failing run in which pass 4b only blames siblings that had finished first has an
      originator, whatever order its spans arrive in. */
  lemma FailingRunInOrder(s: State, spans: seq<Span>)
    requires Reachable(s) && s.code.emitted.Some? && multiset(spans) == multiset(s.code.emitted.value)
    requires exists r :: r in spans && Bad(r)
    requires forall x, y :: Blames(TableOf(spans), x, y) ==>
               x in s.past.finished && y in s.past.finished && s.past.finished[y] < s.past.finished[x]
    ensures Acyclic(TableOf(spans)) && SomeOriginator(TableOf(spans))
  {
    var tree := ReorderedIsRebuilt(s, spans);
    TableOfPermutation(s.code.emitted.value, spans);
    EmittedOrdered(s);
    var t := TableOf(spans);
    var r :| r in spans && Bad(r);
    TableIn(spans, r);
    assert SomeBad(t);
    OriginatorInOrder(t, s.past.started, s.past.finished);
  }

  /** In particular without bad inputs. */
  lemma FailingRunHasOriginator(s: State, spans: seq<Span>)
    requires Reachable(s) && s.code.emitted.Some? && multiset(spans) == multiset(s.code.emitted.value)
    requires (exists r :: r in spans && Bad(r)) && forall r :: r in spans ==> !BadInput(r)
    ensures Acyclic(TableOf(spans)) && SomeOriginator(TableOf(spans))
  {
    FailingRunInOrder(s, spans);
  }

  /** In particular when any traced call raised. */
  lemma RaisingRunHasOriginator(s: State, spans: seq<Span>, i: nat)
    requires Reachable(s) && s.code.emitted.Some? && multiset(spans) == multiset(s.code.emitted.value)
    requires i < |s.past.log| && s.past.log[i].Raised? && forall r :: r in spans ==> !BadInput(r)
    ensures Acyclic(TableOf(spans)) && SomeOriginator(TableOf(spans))
  {
    ReachableKeeps(s);
    var tree := EmittedIsCallTree(s);
    var r :| r in s.past.recorded && r.id == s.past.log[i].id && HasError(r);
    assert r in multiset(s.code.emitted.value);
    assert r in spans && Bad(r);
    FailingRunHasOriginator(s, spans);
  }

  /** And then every span the engine reports lies on a failing branch. */
  lemma FailingRunIsExplained(s: State, spans: seq<Span>)
    requires Reachable(s) && s.code.emitted.Some? && multiset(spans) == multiset(s.code.emitted.value)
    requires (exists r :: r in spans && Bad(r)) && forall r :: r in spans ==> !BadInput(r)
    ensures Reported(spans) != [] && forall y :: y in Reported(spans) ==> y in Slice(TableOf(spans))
  {
    FailingRunHasOriginator(s, spans);
    ReportedInChain(spans);
  }

  /** Runs do finish: here is one whose only call raises. */
  lemma SomeRunRaises(id: Id, failure: Failure, content: Span) returns (s: State)
    requires id != "" && failure.kind != ""
    ensures Reachable(s) && s.code.emitted.Some? && |s.past.log| == 2 && s.past.log[1].Raised?
  {
    assert Reaches(START, [], START);
    RunGoesOn(START, Enter(id, None, 0, []));
    var s1 := Next(START, Enter(id, None, 0, []));
    RunGoesOn(s1, Raise(id, failure, content));
    s := Next(s1, Raise(id, failure, content));
  }

  /** Every emitted span says what its call captured. */
  lemma EmittedSays(s: State, r: Span)
    requires Reachable(s) && s.code.emitted.Some? && r in s.code.emitted.value
    ensures r.id in s.past.started && r.id in s.past.finished
    ensures Says(s.past.log, s.past.started[r.id], s.past.finished[r.id], r)
  {
    var tree := EmittedIsCallTree(s);
    RecordsSay(s, r);
  }

  /** The engine has something to answer for a traced run exactly when a call of it raised or returned
      nothing, or a span was added as failed; the order of the spans does not matter. */
  lemma AnsweredWhenFailed(s: State, spans: seq<Span>)
    requires Reachable(s) && s.code.emitted.Some? && multiset(spans) == multiset(s.code.emitted.value)
    ensures (exists r :: r in spans && Fails(r)) <==>
            exists i :: 0 <= i < |s.past.log| && FailedEnd(s.past.log[i])
  {
    var tree := EmittedIsCallTree(s);
    SomeFailureLogged(s);
    forall r ensures r in spans <==> r in s.past.recorded {
      assert r in spans <==> r in multiset(spans);
      assert r in s.code.emitted.value <==> r in multiset(s.code.emitted.value);
    }
  }

  /** The full chain of an emitted trace are its failing branches, in the order of emission, in which
      the children of a span stand as they finished. */
  lemma ListedAsEmitted(s: State)
    requires Reachable(s) && s.code.emitted.Some?
    ensures Listing(s.code.emitted.value) == s.code.emitted.value && InTurn(s.code.emitted.value, s.past.finished)
  {
    var e := s.code.emitted.value;
    var tree := EmittedIsRebuilt(s);
    EmittedInTurn(s);
    var none: seq<Tree> := [];
    assert [tree] == [tree] + none && FlatAll(none) == [];
    FlatCons(tree, none);
  }
}
