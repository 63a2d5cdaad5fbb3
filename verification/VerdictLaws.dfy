/** What holds of the verdict on every trace: who is reported, and that
    the order of the list does not matter. */
module VerdictLaws {
  import opened Common
  import opened JsonValues
  import opened Spans
  import opened Roles
  import opened Scoring
  import opened RetryStorm
  import opened Verdict

  // ----- Who is reported -----

  lemma ReportedFromAre(t: Table, ranked: seq<Id>, confidence: Confidence, y: Id)
    requires (forall z :: z in ranked ==> z in t) && y in ReportedFrom(t, ranked, confidence)
    ensures y in t
    ensures RoleOf(t, y) in {Originator, Propagator} ||
            (WithRole(t, ranked, Originator) == [] && ranked != [] && y == ranked[0])
  {
    if y in BestOf(t, ranked) {
    } else {
      assert RunnerUp(t, BestOf(t, ranked), y);
    }
  }

  lemma ReportedFromInSlice(t: Table, ranked: seq<Id>, confidence: Confidence)
    requires Acyclic(t) && ranked != [] && forall z :: z in ranked ==> z in t
    ensures ReportedFrom(t, ranked, confidence) != []
    ensures (forall y :: y in ReportedFrom(t, ranked, confidence) ==> y in Slice(t)) <==>
            WithRole(t, ranked, Originator) != [] || ranked[0] in Slice(t)
  {
    var reported := ReportedFrom(t, ranked, confidence);
    forall y | y in reported
      ensures y in t && (y in Slice(t) || (WithRole(t, ranked, Originator) == [] && y == ranked[0]))
    {
      ReportedFromAre(t, ranked, confidence, y);
    }
    if WithRole(t, ranked, Originator) == [] { assert ranked[0] in reported; }
  }

  lemma RankedOriginators(spans: seq<Span>)
    ensures WithRole(TableOf(spans), Ranking(spans), Originator) != [] <==> SomeOriginator(TableOf(spans))
  {
    var byRole := WithRole(TableOf(spans), Ranking(spans), Originator);
    if SomeOriginator(TableOf(spans)) {
      var x :| x in TableOf(spans) && RoleOf(TableOf(spans), x) == Originator;
      assert x in byRole;
    }
    if byRole != [] { assert byRole[0] in byRole; }
  }

  /** The first of the best-scored spans heads the ranking. */
  lemma RankingHead(spans: seq<Span>) returns (i: nat)
    requires spans != []
    ensures i < |spans| && Leads(Scored(spans), IdsOf(spans), i) && Ranking(spans)[0] == spans[i].id
  {
    IdsKnown(spans);
    i := RankFirst(Scored(spans), IdsOf(spans));
  }

  /** A span on a failing branch outscores every span listed before it, and no later one outscores it. */
  ghost predicate BestFails(spans: seq<Span>) {
    exists i: nat :: Leads(Scored(spans), IdsOf(spans), i) && spans[i].id in Slice(TableOf(spans))
  }

  /** Someone is always reported, and all reported originators are in the full chain exactly when
      some span has that role or the first of the best-scored spans lies on a failing branch. */
  lemma ReportedInChain(spans: seq<Span>)
    requires Acyclic(TableOf(spans)) && spans != []
    ensures Reported(spans) != [] && |Ranking(spans)| == |spans|
    ensures (forall y :: y in Reported(spans) ==> y in Slice(TableOf(spans))) <==>
            SomeOriginator(TableOf(spans)) || BestFails(spans)
  {
    RankedOriginators(spans);
    ReportedFromInSlice(TableOf(spans), Ranking(spans), ConfidenceOf(spans));
    var i := RankingHead(spans);
    if BestFails(spans) {
      var j: nat :| Leads(Scored(spans), IdsOf(spans), j) && spans[j].id in Slice(TableOf(spans));
      LeadsOnce(Scored(spans), IdsOf(spans), i, j);
    }
  }

  // ----- The fallback can miss -----

  lemma MutualTableIs()
    ensures Unique(MUTUAL_TRACE) && TableOf(MUTUAL_TRACE) == MutualTable()
  {
    TableAt(MUTUAL_TRACE, 0);
    TableAt(MUTUAL_TRACE, 1);
    TableAt(MUTUAL_TRACE, 2);
    TableAt(MUTUAL_TRACE, 3);
    assert forall s :: s in MUTUAL_TRACE ==> s.id in {"r", "a", "b", "c"};
  }

  lemma {:induction false} NothingMeasured(part: seq<Span>)
    requires forall s :: s in part ==> s.latency.None? && s.tokens.None?
    ensures Latencies(part) == [] && Tokens(part) == []
  {
    if part != [] {
      assert part[0] in part;
      NothingMeasured(part[1..]);
    }
  }

  lemma MutualSetting()
    ensures MaxDepth(MutualTable()) == 1 && StatsOf(MUTUAL_TRACE) == TraceStats(0.0, 0.0)
    ensures SuppressedIds(MUTUAL_TRACE) == {}
  {
    MutualShape();
    assert "a" in MutualTable() && DepthOf(MutualTable(), "a") == 1;
    MaxDepthIs(MutualTable(), 1);
    NothingMeasured(MUTUAL_TRACE);
    forall s | s in MUTUAL_TRACE ensures !HasError(s) {}
  }

  lemma MutualRaw()
    ensures var stats := TraceStats(0.0, 0.0);
            && Score(MUTUAL_C, Clean, 1, 1, stats) == 0.26 && Score(MUTUAL_ROOT, Clean, 0, 1, stats) == 0.19
            && Score(MUTUAL_A, Manifestor, 1, 1, stats) == 0.18 && Score(MUTUAL_B, Manifestor, 1, 1, stats) == 0.18
  {
    var a, b := [("args", Arr([Null]))], [("args", Arr([Arr([])]))];
    assert a[1..] == [] && b[1..] == [];
    assert HollowCount(a) == 0 && HollowCount(b) == 0;
    assert InputAnomaly(MUTUAL_A) == 0.0 && InputAnomaly(MUTUAL_B) == 0.0;
  }

  lemma ScoredIs(spans: seq<Span>, t: Table, x: Id, role: Role, depth: nat, maxDepth: nat, stats: TraceStats)
    requires t == TableOf(spans) && x in t && x !in SuppressedIds(spans) && stats == StatsOf(spans)
    requires RoleOf(t, x) == role && DepthOf(t, x) == depth && MaxDepth(t) == maxDepth
    ensures x in Scored(spans) && Scored(spans)[x] == Score(t[x], role, depth, maxDepth, stats)
  {}

  lemma MutualScore(x: Id, s: Span, role: Role, depth: nat, score: real)
    requires x in MutualTable() && MutualTable()[x] == s && RoleOf(MutualTable(), x) == role
    requires Grounded(MutualTable(), x) && Depth(MutualTable(), x) == depth
    requires Score(s, role, depth, 1, TraceStats(0.0, 0.0)) == score
    ensures x in Scored(MUTUAL_TRACE) && Scored(MUTUAL_TRACE)[x] == score
  {
    MutualTableIs();
    MutualSetting();
    ScoredIs(MUTUAL_TRACE, MutualTable(), x, role, depth, 1, TraceStats(0.0, 0.0));
  }

  ghost function MutualPoints(x: Id): real {
    if x == "c" then 0.26 else if x == "r" then 0.19 else 0.18
  }

  lemma MutualScoreOf(x: Id)
    requires x in MutualTable()
    ensures x in Scored(MUTUAL_TRACE) && Scored(MUTUAL_TRACE)[x] == MutualPoints(x)
  {
    MutualShape();
    MutualRaw();
    MutualRoles(x);
    MutualScore(x, MutualTable()[x], RoleOf(MutualTable(), x), Depth(MutualTable(), x), MutualPoints(x));
  }

  /** The highest score comes first. */
  lemma FirstIsBest(spans: seq<Span>, x: Id)
    requires x in TableOf(spans)
    requires forall y :: y in TableOf(spans) && y != x ==> Scored(spans)[y] < Scored(spans)[x]
    ensures Ranking(spans) != [] && Ranking(spans)[0] == x
  {
    var scores, ranked := Scored(spans), Ranking(spans);
    IdsKnown(spans);
    RankDescends(scores, IdsOf(spans));
    assert x in ranked;
    var i :| 0 <= i < |ranked| && ranked[i] == x;
    assert ranked[0] in ranked && scores[ranked[0]] >= scores[ranked[i]];
  }

  lemma {:induction false} NoneWithRole(t: Table, ids: seq<Id>, role: Role)
    requires forall x :: x in t ==> RoleOf(t, x) != role
    ensures WithRole(t, ids, role) == []
  {
    if ids != [] { NoneWithRole(t, ids[1..], role); }
  }

  lemma FallbackOnly(t: Table, ranked: seq<Id>, confidence: Confidence)
    requires ranked != [] && (forall y :: y in ranked ==> y in t)
    requires forall x :: x in t ==> RoleOf(t, x) in {Manifestor, Clean}
    ensures ReportedFrom(t, ranked, confidence) == [ranked[0]]
  {
    NoneWithRole(t, ranked, Originator);
  }

  /** Without an originator the best-scored span is reported, and nobody else. */
  lemma FallsBackOn(spans: seq<Span>, t: Table, x: Id)
    requires t == TableOf(spans) && x in t && forall y :: y in t ==> RoleOf(t, y) in {Manifestor, Clean}
    requires forall y :: y in t && y != x ==> Scored(spans)[y] < Scored(spans)[x]
    ensures Reported(spans) == [x]
  {
    FirstIsBest(spans, x);
    FallbackOnly(t, Ranking(spans), ConfidenceOf(spans));
  }

  lemma MutualBest(x: Id)
    requires x in MutualTable()
    ensures RoleOf(MutualTable(), x) in {Manifestor, Clean} && x in Scored(MUTUAL_TRACE) && "c" in Scored(MUTUAL_TRACE)
    ensures x != "c" ==> Scored(MUTUAL_TRACE)[x] < Scored(MUTUAL_TRACE)["c"]
  {
    MutualRoles(x);
    MutualScoreOf(x);
    MutualScoreOf("c");
  }

  lemma MutualOffSlice()
    ensures "c" !in Slice(MutualTable())
  {
    MutualShape();
    MutualFlags();
  }

  /** On a trace without originator the healthy span `c`, which recorded no input, outscores the two
      manifestors: it is reported although it lies on no failing branch. */
  lemma FallbackMisses()
    ensures Unique(MUTUAL_TRACE) && SomeBad(TableOf(MUTUAL_TRACE)) && Acyclic(TableOf(MUTUAL_TRACE))
    ensures Reported(MUTUAL_TRACE) == ["c"] && "c" !in Slice(TableOf(MUTUAL_TRACE))
  {
    MutualTableIs();
    MutualBlame();
    MutualOffSlice();
    forall x | x in MutualTable()
      ensures RoleOf(MutualTable(), x) in {Manifestor, Clean}
      ensures x != "c" ==> Scored(MUTUAL_TRACE)[x] < Scored(MUTUAL_TRACE)["c"]
    {
      MutualBest(x);
    }
    FallsBackOn(MUTUAL_TRACE, MutualTable(), "c");
  }

  // ----- The order of the list -----

  lemma {:induction false} SumAppend(a: seq<real>, b: seq<real>)
    ensures Sum(a + b) == Sum(a) + Sum(b)
  {
    if a == [] { assert a + b == b; } else {
      assert (a + b)[1..] == a[1..] + b;
      SumAppend(a[1..], b);
    }
  }

  lemma {:induction false} LatenciesAppend(a: seq<Span>, b: seq<Span>)
    ensures Latencies(a + b) == Latencies(a) + Latencies(b)
  {
    if a == [] { assert a + b == b; } else {
      assert (a + b)[1..] == a[1..] + b;
      LatenciesAppend(a[1..], b);
    }
  }

  lemma {:induction false} TokensAppend(a: seq<Span>, b: seq<Span>)
    ensures Tokens(a + b) == Tokens(a) + Tokens(b)
  {
    if a == [] { assert a + b == b; } else {
      assert (a + b)[1..] == a[1..] + b;
      TokensAppend(a[1..], b);
    }
  }

  /** What the statistics keep of a list. */
  datatype Totals = Totals(latencyCount: nat, latencySum: real, tokenCount: nat, tokenSum: real)

  function TotalsOf(spans: seq<Span>): Totals {
    Totals(|Latencies(spans)|, Sum(Latencies(spans)), |Tokens(spans)|, Sum(Tokens(spans)))
  }

  function Plus(a: Totals, b: Totals): Totals {
    Totals(a.latencyCount + b.latencyCount, a.latencySum + b.latencySum,
           a.tokenCount + b.tokenCount, a.tokenSum + b.tokenSum)
  }

  lemma PlusSwap(a: Totals, b: Totals, c: Totals)
    ensures Plus(a, Plus(b, c)) == Plus(b, Plus(a, c))
  {}

  lemma TotalsAppend(a: seq<Span>, b: seq<Span>)
    ensures TotalsOf(a + b) == Plus(TotalsOf(a), TotalsOf(b))
  {
    LatenciesAppend(a, b);
    TokensAppend(a, b);
    SumAppend(Latencies(a), Latencies(b));
    SumAppend(Tokens(a), Tokens(b));
  }

  lemma TotalsMoved(s: Span, before: seq<Span>, after: seq<Span>)
    ensures TotalsOf(before + ([s] + after)) == Plus(TotalsOf([s]), TotalsOf(before + after))
  {
    TotalsAppend(before, after);
    TotalsAppend(before, [s] + after);
    TotalsAppend([s], after);
    PlusSwap(TotalsOf(before), TotalsOf([s]), TotalsOf(after));
  }

  lemma {:induction false} TotalsPermutation(a: seq<Span>, b: seq<Span>)
    requires multiset(a) == multiset(b)
    ensures TotalsOf(a) == TotalsOf(b)
  {
    SameSize(a, b);
    if a != [] {
      var before, after := TakenOut(a, b);
      TotalsPermutation(a[1..], before + after);
      TotalsAppend([a[0]], a[1..]);
      TotalsMoved(a[0], before, after);
    }
  }

  lemma StatsPermutation(a: seq<Span>, b: seq<Span>)
    requires multiset(a) == multiset(b)
    ensures StatsOf(a) == StatsOf(b)
  {
    TotalsPermutation(a, b);
  }

  lemma SizeBySet(a: seq<Id>, b: seq<Id>)
    requires NoDup(a) && NoDup(b) && forall y :: y in a <==> y in b
    ensures |a| == |b|
  {
    NoDupCard(a);
    NoDupCard(b);
    assert SetOf(a) == SetOf(b);
  }

  lemma GapBySet(scores: Scores, a: seq<Id>, b: seq<Id>, ra: seq<Id>, rb: seq<Id>)
    requires NoDup(a) && NoDup(b) && NoDup(ra) && NoDup(rb)
    requires (forall y :: y in a <==> y in b) && (forall y :: y in ra <==> y in rb)
    requires forall y :: y in a || y in ra ==> y in scores
    ensures Gap(scores, a, Rank(scores, ra)) == Gap(scores, b, Rank(scores, rb))
  {
    SizeBySet(a, b);
    SizeBySet(ra, rb);
    if |a| >= 2 { BestBySet(scores, a, b); }
    if |ra| >= 2 {
      BestBySet(scores, ra, rb);
    } else if |ra| == 1 {
      OnlyOne(rb, ra[0]);
    }
  }

  lemma ConfidenceByTable(a: seq<Span>, b: seq<Span>)
    requires Unique(a) && Unique(b) && TableOf(a) == TableOf(b) && Scored(a) == Scored(b)
    ensures ConfidenceOf(a) == ConfidenceOf(b)
  {
    var t := TableOf(a);
    IdsKnown(a);
    IdsKnown(b);
    OriginatorsListed(a);
    OriginatorsListed(b);
    assert NoDup(IdsOf(a)) && NoDup(IdsOf(b));
    GapBySet(Scored(a), WithRole(t, IdsOf(a), Originator), WithRole(t, IdsOf(b), Originator), IdsOf(a), IdsOf(b));
  }

  lemma ScoredByTable(a: seq<Span>, b: seq<Span>)
    requires TableOf(a) == TableOf(b) && StatsOf(a) == StatsOf(b) && SuppressedIds(a) == SuppressedIds(b)
    ensures Scored(a) == Scored(b)
  {
    forall x | x in TableOf(a) ensures ScoreOf(a, x) == ScoreOf(b, x) {}
  }

  /** Reordering the list changes no role, no depth, no count and no unsuppressed score; when each
      storm has one earliest failure it changes no ranking score and not the confidence either. */
  lemma OrderIndependent(a: seq<Span>, b: seq<Span>, x: Id)
    requires Unique(a) && multiset(a) == multiset(b) && x in TableOf(a)
    ensures Unique(b) && TableOf(a) == TableOf(b)
    ensures PlainScore(a, x) == PlainScore(b, x)
    ensures ClearStorms(a) ==> ScoreOf(a, x) == ScoreOf(b, x) && ConfidenceOf(a) == ConfidenceOf(b)
  {
    TableOfPermutation(a, b);
    StatsPermutation(a, b);
    if ClearStorms(a) {
      SuppressionOrder(a);
      assert SuppressedAlike(a, b);
      ScoredByTable(a, b);
      ConfidenceByTable(a, b);
    }
  }
}
