/** The blame engine as a whole: build, analyse, score, rank and report. */
module BlameEngine {
  import opened Common
  import opened Spans
  import opened Roles
  import opened Evidence
  import opened Forest
  import opened Reports
  import opened Scoring
  import opened RetryStorm
  import opened Verdict
  import opened Causes
  import opened BlameTree
  import opened BlamePasses
  import opened BlameReports
  import opened BlameStorm

  /** `failurePoints` pairs each manifestor with the span named as its cause. */
  datatype BlameResponse = BlameResponse(
    originators: seq<Id>,
    failurePoints: seq<(Id, Option<Id>)>,
    secondary: seq<Id>,
    scores: Scores,
    confidence: Confidence,
    propagationChain: seq<ChainLine>,
    retryStorm: bool,
    fullChain: seq<Span>
  )

  // ----- Reading the analysed nodes -----

  /** The nodes of a trace after all passes. */
  ghost predicate Analysed(spans: seq<Span>, t: Table, kids: KidMap, nodes: NodeMap)
    reads Objects(nodes)
  {
    && Unique(spans) && t == TableOf(spans) && kids == KidsUpTo(t, spans)
    && Family(t, kids, nodes) && Counted(t, nodes) && RolesOn(t, nodes, t.Keys) && Depths(t, nodes)
  }

  lemma ContextHolds(spans: seq<Span>, t: Table, kids: KidMap, nodes: NodeMap)
    requires Analysed(spans, t, kids, nodes)
    ensures Context(spans, t, kids, nodes)
  {
    forall x | x in nodes ensures Told(t, kids, nodes, nodes[x]) {
      assert Marked(nodes[x]);
    }
  }

  ghost predicate InOrder(spans: seq<Span>, nodes: NodeMap, order: seq<Id>) {
    |order| == |spans| && forall i :: 0 <= i < |order| ==>
      order[i] == spans[i].id && order[i] in nodes && nodes[order[i]].span == spans[i]
  }

  lemma OrderFacts(spans: seq<Span>, nodes: NodeMap)
    requires Unique(spans) && Indexed(TableOf(spans), nodes)
    ensures InOrder(spans, nodes, IdsOf(spans)) && NoDup(IdsOf(spans)) && SetOf(IdsOf(spans)) == nodes.Keys
  {
    IdsKnown(spans);
    forall i | 0 <= i < |spans| ensures spans[i].id in nodes && nodes[spans[i].id].span == spans[i] {
      TableAt(spans, i);
    }
  }

  method AnyBad(ghost t: Table, ghost kids: KidMap, nodes: NodeMap, order: seq<Id>, ghost spans: seq<Span>)
    returns (found: bool)
    requires InOrder(spans, nodes, order) && Family(t, kids, nodes) && Blank(nodes) && Depths(t, nodes)
    ensures Family(t, kids, nodes) && Blank(nodes) && Depths(t, nodes)
    ensures found <==> exists i :: 0 <= i < |spans| && Bad(spans[i])
  {
    found := false;
    for i := 0 to |order|
      invariant forall j :: 0 <= j < i ==> !Bad(spans[j])
    {
      assert Marked(nodes[order[i]]);
      if nodes[order[i]].selfBad { return true; }
    }
  }

  method MaxNodeDepth(nodes: NodeMap, order: seq<Id>, ghost t: Table) returns (m: nat)
    requires order != [] && SetOf(order) == t.Keys == nodes.Keys && Depths(t, nodes)
    ensures m == MaxDepth(t)
  {
    assert forall i :: 0 <= i < |order| ==> order[i] in SetOf(order);
    m := nodes[order[0]].depth;
    for i := 1 to |order|
      invariant exists j :: 0 <= j < i && m == DepthOf(t, order[j])
      invariant forall j :: 0 <= j < i ==> DepthOf(t, order[j]) <= m
    {
      if nodes[order[i]].depth > m { m := nodes[order[i]].depth; }
    }
    assert forall x :: x in t ==> x in SetOf(order);
    MaxDepthIs(t, m);
  }

  /** What scoring reads in a node. */
  ghost predicate Gradable(t: Table, nodes: NodeMap)
    reads Objects(nodes)`role, Objects(nodes)`depth
  {
    Indexed(t, nodes) && forall x :: x in nodes ==> nodes[x].role == RoleOf(t, x) && nodes[x].depth == DepthOf(t, x)
  }

  method ScoreNode(ghost spans: seq<Span>, ghost t: Table, ghost nodes: NodeMap, node: SpanNode,
                   suppress: set<Id>, maxDepth: nat, stats: TraceStats) returns (score: real)
    requires t == TableOf(spans) && Gradable(t, nodes) && node.span.id in nodes && nodes[node.span.id] == node
    requires maxDepth == MaxDepth(t) && stats == StatsOf(spans) && suppress == SuppressedIds(spans)
    ensures node.span.id in Scored(spans) && score == Scored(spans)[node.span.id]
  {
    if node.span.id in suppress {
      score := 0.0;
    } else {
      score := Score(node.span, node.role, node.depth, maxDepth, stats);
    }
  }

  ghost function Restrict(scores: Scores, ids: set<Id>): Scores {
    map x | x in ids && x in scores :: scores[x]
  }

  lemma RestrictStep(scores: Scores, ids: set<Id>, x: Id, scored: Scores, v: real)
    requires x in scores && v == scores[x] && scored == Restrict(scores, ids)
    ensures scored[x := v] == Restrict(scores, ids + {x})
  {}

  lemma RestrictAll(scores: Scores)
    ensures Restrict(scores, scores.Keys) == scores
  {}

  method ScoreAll(ghost spans: seq<Span>, ghost t: Table, nodes: NodeMap, order: seq<Id>,
                  suppress: set<Id>, maxDepth: nat, stats: TraceStats) returns (scored: Scores)
    requires t == TableOf(spans) && Gradable(t, nodes) && SetOf(order) == t.Keys
    requires maxDepth == MaxDepth(t) && stats == StatsOf(spans) && suppress == SuppressedIds(spans)
    ensures scored == Scored(spans)
  {
    scored := map[];
    ghost var all := Scored(spans);
    ghost var done: set<Id> := {};
    var i := 0;
    while i < |order|
      invariant 0 <= i <= |order| && done == SetOf(order[..i])
      invariant scored == Restrict(all, done)
    {
      var x := order[i];
      SetOfPrefix(order, i);
      var score := ScoreNode(spans, t, nodes, nodes[x], suppress, maxDepth, stats);
      RestrictStep(all, done, x, scored, score);
      scored, done := scored[x := score], done + {x};
      i := i + 1;
    }
    assert order[..i] == order;
    RestrictAll(all);
  }

  function Cons(b: bool, x: Id, rest: seq<Id>): seq<Id> {
    if b then [x] + rest else rest
  }

  /** Ids of one role in the given order. */
  method SelectRole(ghost t: Table, nodes: NodeMap, ids: seq<Id>, role: Role) returns (r: seq<Id>)
    requires nodes.Keys == t.Keys && RolesOn(t, nodes, t.Keys) && forall x :: x in ids ==> x in nodes
    ensures r == WithRole(t, ids, role)
  {
    r := [];
    var i := |ids|;
    assert ids[i..] == [];
    while i > 0
      invariant 0 <= i <= |ids| && r == WithRole(t, ids[i..], role)
    {
      i := i - 1;
      assert ids[i] in ids && ids[i..][0] == ids[i] && ids[i..][1..] == ids[i + 1..];
      r := Cons(nodes[ids[i]].role == role, ids[i], r);
    }
    assert ids[0..] == ids;
  }

  // ----- Failure points and secondary contributors -----

  /** The walk from a node up to the first originator or propagator. */
  method FindCause(ghost t: Table, ghost kids: KidMap, ghost nodes: NodeMap, node: SpanNode) returns (cause: Option<Id>)
    requires Family(t, kids, nodes) && RolesOn(t, nodes, t.Keys) && CauseEnds(t, node.span.id)
    requires node.span.id in nodes && nodes[node.span.id] == node
    ensures cause == CausedBy(t, node.span.id)
  {
    cause := None;
    ghost var x := node.span.id;
    var ancestor := node.parent;
    ghost var k: nat :| Stops(t, x, k);
    CauseStep(t, x);
    while ancestor != null
      invariant x in t && ancestor == ParentNode(t, nodes, x) && Stops(t, x, k)
      invariant CauseEnds(t, x) && CausedBy(t, x) == CausedBy(t, node.span.id)
      invariant ancestor == null ==> CausedBy(t, x) == None
      decreases k
    {
      ghost var p := Par(t, x).value;
      CauseStep(t, x);
      if ancestor.role == Originator || ancestor.role == Propagator {
        return Some(ancestor.span.id);
      }
      StopsAbove(t, x, p, k);
      CauseStep(t, p);
      x, k := p, k - 1;
      ancestor := ancestor.parent;
    }
  }

  ghost predicate AllEnd(t: Table, ids: seq<Id>) {
    forall i :: 0 <= i < |ids| ==> CauseEnds(t, ids[i])
  }

  /** The search for a cause ends for every failure point. */
  ghost predicate CausesEnd(t: Table) {
    forall x {:trigger RoleOf(t, x)} :: x in t && RoleOf(t, x) == Manifestor ==> CauseEnds(t, x)
  }

  lemma AcyclicCausesEnd(t: Table)
    requires Acyclic(t)
    ensures CausesEnd(t)
  {
    forall x | x in t ensures CauseEnds(t, x) { GroundedEnds(t, x); }
  }

  ghost function FailurePoints(t: Table, ids: seq<Id>): seq<(Id, Option<Id>)>
    requires AllEnd(t, ids)
  {
    if ids == [] then [] else [(ids[0], CausedBy(t, ids[0]))] + FailurePoints(t, ids[1..])
  }

  method CollectFailurePoints(ghost t: Table, ghost kids: KidMap, nodes: NodeMap, ids: seq<Id>)
    returns (points: seq<(Id, Option<Id>)>)
    requires Family(t, kids, nodes) && RolesOn(t, nodes, t.Keys) && AllEnd(t, ids)
    requires forall x :: x in ids ==> x in t
    ensures points == FailurePoints(t, ids)
  {
    points := [];
    var i := |ids|;
    assert ids[i..] == [];
    while i > 0
      invariant 0 <= i <= |ids| && AllEnd(t, ids[i..]) && points == FailurePoints(t, ids[i..])
    {
      i := i - 1;
      assert ids[i] in ids && ids[i..][0] == ids[i] && ids[i..][1..] == ids[i + 1..];
      var cause := FindCause(t, kids, nodes, nodes[ids[i]]);
      points := [(ids[i], cause)] + points;
    }
    assert ids[0..] == ids;
  }

  /** The failed ones among `cs`. */
  ghost function FailedAmong(t: Table, cs: seq<Id>): seq<Id> {
    if cs == [] then []
    else Cons(cs[0] in t && HasError(t[cs[0]]), cs[0], FailedAmong(t, cs[1..]))
  }

  /** The failed children of the reported originators, originator by originator. */
  ghost function Secondary(t: Table, kids: KidMap, ids: seq<Id>): seq<Id> {
    if ids == [] then []
    else (if ids[0] in kids then FailedAmong(t, kids[ids[0]]) else []) + Secondary(t, kids, ids[1..])
  }

  method FailedChildren(ghost t: Table, ghost kids: KidMap, ghost nodes: NodeMap, children: seq<SpanNode>,
                        ghost cs: seq<Id>)
    returns (r: seq<Id>)
    requires Indexed(t, nodes) && Intrinsic(nodes) && Listed(nodes, children, cs)
    ensures r == FailedAmong(t, cs)
  {
    r := [];
    var i := |children|;
    assert cs[i..] == [];
    while i > 0
      invariant 0 <= i <= |cs| && r == FailedAmong(t, cs[i..])
    {
      i := i - 1;
      assert cs[i..][0] == cs[i] && cs[i..][1..] == cs[i + 1..];
      assert Marked(nodes[cs[i]]);
      r := Cons(children[i].selfError, children[i].span.id, r);
    }
    assert cs[0..] == cs;
  }

  method CollectSecondary(ghost t: Table, ghost kids: KidMap, nodes: NodeMap, ids: seq<Id>) returns (r: seq<Id>)
    requires Family(t, kids, nodes) && Shape(t, kids) && forall x :: x in ids ==> x in nodes
    ensures r == Secondary(t, kids, ids)
    ensures forall y :: y in r <==> y in t && HasError(t[y]) && Par(t, y).Some? && Par(t, y).value in ids
  {
    r := [];
    var i := |ids|;
    assert ids[i..] == [];
    while i > 0
      invariant 0 <= i <= |ids| && r == Secondary(t, kids, ids[i..])
    {
      i := i - 1;
      assert ids[i] in ids && ids[i..][0] == ids[i] && ids[i..][1..] == ids[i + 1..];
      var failed := FailedChildren(t, kids, nodes, nodes[ids[i]].children, kids[ids[i]]);
      r := failed + r;
    }
    assert ids[0..] == ids;
    forall y ensures y in r <==> y in t && HasError(t[y]) && Par(t, y).Some? && Par(t, y).value in ids {
      SecondaryAre(t, kids, ids, y);
    }
  }

  lemma {:induction false} FailedAre(t: Table, cs: seq<Id>, y: Id)
    ensures y in FailedAmong(t, cs) <==> y in cs && y in t && HasError(t[y])
  {
    if cs != [] { FailedAre(t, cs[1..], y); }
  }

  /** The secondary contributors are exactly the failed children of the given spans. */
  lemma {:induction false} SecondaryAre(t: Table, kids: KidMap, ids: seq<Id>, y: Id)
    requires Shape(t, kids)
    ensures y in Secondary(t, kids, ids) <==>
            y in t && HasError(t[y]) && Par(t, y).Some? && Par(t, y).value in ids
  {
    if ids != [] {
      SecondaryAre(t, kids, ids[1..], y);
      if ids[0] in kids { FailedAre(t, kids[ids[0]], y); }
    }
  }

  /** Whoever contributes does so to a propagator or a clean span. */
  lemma ContributorsOf(t: Table, kids: KidMap, ids: seq<Id>, y: Id)
    requires Shape(t, kids) && y in Secondary(t, kids, ids)
    ensures Par(t, y).Some? && Par(t, y).value in ids
    ensures Grounded(t, Par(t, y).value) ==> RoleOf(t, Par(t, y).value) in {Propagator, Clean}
  {
    SecondaryAre(t, kids, ids, y);
    var x := Par(t, y).value;
    if Grounded(t, x) {
      AncStep(t, x, y);
      assert y in BadBelow(t, x);
    }
  }

  /** An originator has no failed child, so originators yield no secondary contributor at all. */
  lemma OriginatorsContributeNone(t: Table, kids: KidMap, ids: seq<Id>)
    requires Shape(t, kids) && forall x :: x in ids ==> Grounded(t, x) && RoleOf(t, x) == Originator
    ensures Secondary(t, kids, ids) == []
  {
    var r := Secondary(t, kids, ids);
    if r != [] {
      assert r[0] in r;
      ContributorsOf(t, kids, ids, r[0]);
    }
  }

  /** Hence the response has secondary contributors only when the verdict fell back on the best
      span for want of an originator, or reports a propagator as runner-up. */
  lemma SecondaryNeedsFallback(spans: seq<Span>)
    requires Unique(spans) && Acyclic(TableOf(spans)) && SecondaryOf(spans) != []
    ensures exists x :: x in Reported(spans) && RoleOf(TableOf(spans), x) in {Propagator, Clean}
  {
    var t, kids := TableOf(spans), KidsUpTo(TableOf(spans), spans);
    KidsShape(spans);
    var y := SecondaryOf(spans)[0];
    assert y in SecondaryOf(spans);
    ContributorsOf(t, kids, Reported(spans), y);
    assert Par(t, y).value in Reported(spans);
  }

  // ----- The response -----

  lemma ManifestorsEnd(t: Table, ids: seq<Id>)
    requires CausesEnd(t)
    ensures AllEnd(t, WithRole(t, ids, Manifestor))
  {}

  ghost function PointsOf(spans: seq<Span>): seq<(Id, Option<Id>)>
    requires CausesEnd(TableOf(spans))
  {
    IdsKnown(spans);
    ManifestorsEnd(TableOf(spans), IdsOf(spans));
    FailurePoints(TableOf(spans), WithRole(TableOf(spans), IdsOf(spans), Manifestor))
  }

  ghost function SecondaryOf(spans: seq<Span>): seq<Id> {
    Secondary(TableOf(spans), KidsUpTo(TableOf(spans), spans), Reported(spans))
  }

  ghost function NarrativeOf(spans: seq<Span>): seq<ChainLine> {
    RootsGrounded(spans);
    var told := ChainFrom(spans, Roots(spans));
    if told != [] then told else [NoDetail]
  }

  ghost function FullChainOf(spans: seq<Span>): seq<Span> {
    var reported := Reported(spans);
    FullChain(spans, if reported != [] then Some(reported[0]) else None)
  }

  /** The response to a trace with a bad span, as a value. */
  ghost function Response(spans: seq<Span>): BlameResponse
    requires CausesEnd(TableOf(spans))
  {
    BlameResponse(Reported(spans), PointsOf(spans), SecondaryOf(spans), Scored(spans), ConfidenceOf(spans),
                  NarrativeOf(spans), SomeStorm(spans), FullChainOf(spans))
  }

  method Grades(ghost spans: seq<Span>, ghost t: Table, ghost kids: KidMap, nodes: NodeMap, order: seq<Id>,
                suppress: set<Id>, stats: TraceStats)
    returns (scored: Scores)
    requires stats == StatsOf(spans) && t == TableOf(spans) && Gradable(t, nodes) && Depths(t, nodes)
    requires order != [] && SetOf(order) == t.Keys == nodes.Keys && suppress == SuppressedIds(spans)
    ensures scored == Scored(spans)
  {
    var maxDepth := MaxNodeDepth(nodes, order, t);
    scored := ScoreAll(spans, t, nodes, order, suppress, maxDepth, stats);
  }

  /** The reported spans, from the ranking. */
  method SelectReported(ghost t: Table, nodes: NodeMap, ranked: seq<Id>, confidence: Confidence)
    returns (reported: seq<Id>)
    requires nodes.Keys == t.Keys && RolesOn(t, nodes, t.Keys) && forall y :: y in ranked ==> y in t
    ensures reported == ReportedFrom(t, ranked, confidence)
  {
    reported := SelectRole(t, nodes, ranked, Originator);
    if reported == [] && ranked != [] {
      reported := FirstOf(ranked);
    }
    if confidence == Ambiguous && |ranked| >= 2 {
      var second := ranked[1];
      assert second in ranked;
      if second !in reported && nodes[second].role != Clean && nodes[second].role != Manifestor {
        reported := Snoc(reported, second);
      }
    }
  }

  /** Ranking, confidence and the reported spans. */
  method Verdicts(ghost spans: seq<Span>, ghost t: Table, nodes: NodeMap, order: seq<Id>, scored: Scores)
    returns (confidence: Confidence, reported: seq<Id>)
    requires t == TableOf(spans) && nodes.Keys == t.Keys && RolesOn(t, nodes, t.Keys)
    requires order == IdsOf(spans) && scored == Scored(spans)
    ensures confidence == ConfidenceOf(spans) && reported == Reported(spans)
  {
    IdsKnown(spans);
    var ranked := Rank(scored, order);
    var originators := SelectRole(t, nodes, order, Originator);
    confidence := Grade(Gap(scored, originators, ranked));
    reported := SelectReported(t, nodes, ranked, confidence);
  }

  lemma GradableHolds(spans: seq<Span>, t: Table, kids: KidMap, nodes: NodeMap)
    requires Analysed(spans, t, kids, nodes)
    ensures Gradable(t, nodes)
  {
  }

  method Judge(spans: seq<Span>, ghost t: Table, ghost kids: KidMap, nodes: NodeMap, order: seq<Id>)
    returns (storm: bool, scored: Scores, confidence: Confidence, reported: seq<Id>)
    requires Analysed(spans, t, kids, nodes)
    requires spans != [] && order == IdsOf(spans)
    ensures storm == SomeStorm(spans) && scored == Scored(spans)
    ensures confidence == ConfidenceOf(spans) && reported == Reported(spans)
  {
    OrderFacts(spans, nodes);
    GradableHolds(spans, t, kids, nodes);
    var suppress;
    storm, suppress := DetectRetryStorm(nodes, order, spans);
    scored := Grades(spans, t, kids, nodes, order, suppress, StatsOf(spans));
    confidence, reported := Verdicts(spans, t, nodes, order, scored);
  }

  method Points(ghost spans: seq<Span>, ghost t: Table, ghost kids: KidMap, nodes: NodeMap, order: seq<Id>)
    returns (points: seq<(Id, Option<Id>)>)
    requires Analysed(spans, t, kids, nodes) && CausesEnd(TableOf(spans))
    requires order == IdsOf(spans)
    ensures points == PointsOf(spans)
  {
    IdsKnown(spans);
    ManifestorsEnd(t, order);
    var manifestors := SelectRole(t, nodes, order, Manifestor);
    assert unchanged(Objects(nodes));
    points := CollectFailurePoints(t, kids, nodes, manifestors);
  }

  method Contributors(ghost spans: seq<Span>, ghost t: Table, ghost kids: KidMap, nodes: NodeMap, reported: seq<Id>)
    returns (secondary: seq<Id>)
    requires Analysed(spans, t, kids, nodes) && reported == Reported(spans)
    ensures secondary == SecondaryOf(spans)
  {
    ListOrder(spans);
    secondary := CollectSecondary(t, kids, nodes, reported);
  }

  method Narrate(ghost spans: seq<Span>, ghost t: Table, ghost kids: KidMap, ghost nodes: NodeMap, roots: seq<SpanNode>)
    returns (chain: seq<ChainLine>)
    requires Analysed(spans, t, kids, nodes) && Listed(nodes, roots, Roots(spans))
    ensures chain == NarrativeOf(spans)
  {
    ContextHolds(spans, t, kids, nodes);
    chain := BuildPropagationChain(spans, t, kids, nodes, roots);
  }

  method FullListing(ghost spans: seq<Span>, ghost t: Table, ghost kids: KidMap, nodes: NodeMap, order: seq<Id>,
                     reported: seq<Id>) returns (full: seq<Span>)
    requires Analysed(spans, t, kids, nodes) && order == IdsOf(spans) && reported == Reported(spans)
    ensures full == FullChainOf(spans)
  {
    OrderFacts(spans, nodes);
    ListOrder(spans);
    ContextHolds(spans, t, kids, nodes);
    var first := if reported != [] then Some(nodes[reported[0]]) else None;
    full := BuildFullChain(spans, t, kids, nodes, order, first);
  }

  /** What is read off the nodes beside the verdicts. */
  method Findings(spans: seq<Span>, ghost t: Table, ghost kids: KidMap, nodes: NodeMap, order: seq<Id>,
                  roots: seq<SpanNode>, reported: seq<Id>)
    returns (points: seq<(Id, Option<Id>)>, secondary: seq<Id>, chain: seq<ChainLine>, full: seq<Span>)
    requires Analysed(spans, t, kids, nodes) && CausesEnd(TableOf(spans)) && order == IdsOf(spans)
    requires Listed(nodes, roots, Roots(spans)) && reported == Reported(spans)
    ensures points == PointsOf(spans) && secondary == SecondaryOf(spans)
    ensures chain == NarrativeOf(spans) && full == FullChainOf(spans)
  {
    points := Points(spans, t, kids, nodes, order);
    assert unchanged(Objects(nodes));
    secondary := Contributors(spans, t, kids, nodes, reported);
    assert unchanged(Objects(nodes));
    chain := Narrate(spans, t, kids, nodes, roots);
    assert unchanged(Objects(nodes));
    full := FullListing(spans, t, kids, nodes, order, reported);
  }

  method Respond(spans: seq<Span>, ghost t: Table, ghost kids: KidMap, nodes: NodeMap, order: seq<Id>,
                 roots: seq<SpanNode>)
    returns (r: BlameResponse)
    requires Analysed(spans, t, kids, nodes) && CausesEnd(TableOf(spans)) && spans != []
    requires order == IdsOf(spans) && Listed(nodes, roots, Roots(spans))
    ensures r == Response(spans)
  {
    var storm, scored, confidence, reported := Judge(spans, t, kids, nodes, order);
    assert unchanged(Objects(nodes));
    var points, secondary, chain, full := Findings(spans, t, kids, nodes, order, roots, reported);
    r := BlameResponse(reported, points, secondary, scored, confidence, chain, storm, full);
  }

  method Prepare(spans: seq<Span>, ghost t: Table, ghost kids: KidMap) returns (nodes: NodeMap, roots: seq<SpanNode>)
    requires Unique(spans) && t == TableOf(spans) && kids == KidsUpTo(t, spans)
    ensures fresh(Objects(nodes)) && Family(t, kids, nodes) && Blank(nodes) && Depths(t, nodes)
    ensures Listed(nodes, roots, Roots(spans))
  {
    nodes, roots := BuildTree(spans, t, kids);
    OrderFacts(spans, nodes);
    PassTwo(t, kids, nodes, IdsOf(spans));
    assert Depths(t, nodes);
  }

  /** Passes 3 to 5 leave the depths of pass 1 alone. */
  method Analyse(ghost t: Table, ghost kids: KidMap, nodes: NodeMap, order: seq<Id>, roots: seq<SpanNode>,
                 ghost rootIds: seq<Id>)
    requires Family(t, kids, nodes) && Shape(t, kids) && Blank(nodes) && Depths(t, nodes)
    requires NoDup(order) && SetOf(order) == nodes.Keys
    requires Listed(nodes, roots, rootIds) && AllRoots(t, rootIds)
    modifies Objects(nodes)`badDescendantCount, Objects(nodes)`subtreeBad,
             Objects(nodes)`upstreamBad, Objects(nodes)`badnessInherited, Objects(nodes)`role
    ensures Family(t, kids, nodes) && Counted(t, nodes) && RolesOn(t, nodes, t.Keys) && Depths(t, nodes)
  {
    RunPasses(t, kids, nodes, order, roots, rootIds);
    assert Depths(t, nodes);
  }

  /** Passes 3 to 5 and the response, once some span is bad. */
  method Diagnose(spans: seq<Span>, ghost t: Table, ghost kids: KidMap, nodes: NodeMap, order: seq<Id>,
                  roots: seq<SpanNode>)
    returns (r: BlameResponse)
    requires Unique(spans) && CausesEnd(t) && spans != [] && t == TableOf(spans) && kids == KidsUpTo(t, spans)
    requires Family(t, kids, nodes) && Blank(nodes) && Depths(t, nodes)
    requires order == IdsOf(spans) && Listed(nodes, roots, Roots(spans))
    modifies Objects(nodes)
    ensures r == Response(spans)
  {
    OrderFacts(spans, nodes);
    ListOrder(spans);
    Analyse(t, kids, nodes, order, roots, Roots(spans));
    r := Respond(spans, t, kids, nodes, order, roots);
  }

  /** Blame analysis of one trace: nothing for a healthy one, else the full response. */
  method ComputeBlame(spans: seq<Span>) returns (r: Option<BlameResponse>)
    requires Unique(spans) && CausesEnd(TableOf(spans))
    ensures r.None? <==> forall s :: s in spans ==> !Fails(s)
    ensures r.Some? ==> r.value == Response(spans)
  {
    forall s ensures Bad(s) <==> Fails(s) { FailsIs(s); }
    if spans == [] {
      return None;
    }
    ghost var t := TableOf(spans);
    ghost var kids := KidsUpTo(t, spans);
    var nodes, roots := Prepare(spans, t, kids);
    label Built:
    var order := IdsOf(spans);
    OrderFacts(spans, nodes);
    var found := AnyBad(t, kids, nodes, order, spans);
    assert unchanged@Built(Objects(nodes));
    if !found {
      return None;
    }
    var response := Diagnose(spans, t, kids, nodes, order, roots);
    r := Some(response);
  }

  // ----- What the response promises -----

  /** On a failing trace the full chain is the slice. */
  lemma FullChainIsSlice(spans: seq<Span>)
    requires Unique(spans) && Acyclic(TableOf(spans)) && SomeBad(TableOf(spans))
    ensures CausesEnd(TableOf(spans))
    ensures Response(spans).fullChain == FullChainOf(spans) == FailingBranches(spans)
    ensures Unique(FullChainOf(spans)) && TableOf(FullChainOf(spans)) == Slice(TableOf(spans))
  {
    var t := TableOf(spans);
    AcyclicCausesEnd(t);
    var x :| x in t && Bad(t[x]);
    BadInSlice(t, x);
    var reported := Reported(spans);
    FullChainIsFailing(spans, if reported != [] then Some(reported[0]) else None, x);
    FailingBranchesTable(spans);
  }

  /** The span `x` looks the same in `part`: role, count, and that it lies on a failing branch. */
  ghost predicate SameVerdict(t: Table, part: Table, x: Id) {
    && x in t && x in part && part[x] == t[x]
    && RoleOf(part, x) == RoleOf(t, x) && CountOf(part, x) == CountOf(t, x) && x in Slice(part)
  }

  /** The reported slice speaks for itself: analysed alone, every span in it has the same verdict. */
  lemma FullChainKeepsRoles(spans: seq<Span>, s: Span)
    requires Unique(spans) && Acyclic(TableOf(spans)) && SomeBad(TableOf(spans))
    ensures CausesEnd(TableOf(spans))
    ensures s in Response(spans).fullChain ==>
              SameVerdict(TableOf(spans), TableOf(Response(spans).fullChain), s.id)
  {
    FullChainIsSlice(spans);
    if s in FailingBranches(spans) {
      FailingBranchesExact(spans, s);
      SliceSound(TableOf(spans), s.id);
    }
  }

  lemma BadInSlice(t: Table, x: Id)
    requires Acyclic(t) && x in t && Bad(t[x])
    ensures SubtreeBad(t, x)
  {
    RolesCharacterised(t, x);
  }

  /** The narrative of the response is one line per bad span of the slice, in the same order. */
  lemma NarrativeFollowsSlice(spans: seq<Span>)
    requires Unique(spans) && Acyclic(TableOf(spans)) && SomeBad(TableOf(spans))
    ensures CausesEnd(TableOf(spans))
    ensures Known(TableOf(spans), Response(spans).fullChain)
    ensures var told := Lines(TableOf(spans), Response(spans).fullChain);
            Response(spans).propagationChain == if told != [] then told else [NoDetail]
  {
    FullChainIsSlice(spans);
    ChainFollowsFullChain(spans);
  }
}
