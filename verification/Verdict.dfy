/** The verdict on a trace as a value: scores, ranking, confidence and reported spans. */
module Verdict {
  import opened Common
  import opened Spans
  import opened Roles
  import opened Scoring
  import opened RetryStorm

  // ----- Scores -----

  ghost predicate IsMaxDepth(t: Table, m: nat) {
    (forall x :: x in t ==> DepthOf(t, x) <= m) && exists x :: x in t && DepthOf(t, x) == m
  }

  lemma MaxDepthExists(t: Table)
    requires t != map[]
    ensures exists m: nat :: IsMaxDepth(t, m)
  {
    var depth := map x | x in t :: DepthOf(t, x);
    assert t.Keys == {} ==> t == map[];
    var x := ArgMax(t.Keys, depth);
    assert forall y :: y in t ==> depth[y] == DepthOf(t, y);
    assert IsMaxDepth(t, depth[x]);
  }

  ghost function MaxDepth(t: Table): nat {
    if exists m: nat :: IsMaxDepth(t, m) then var m: nat :| IsMaxDepth(t, m); m else 0
  }

  lemma MaxDepthIs(t: Table, m: nat)
    requires IsMaxDepth(t, m)
    ensures MaxDepth(t) == m
  {}

  ghost function PlainScore(spans: seq<Span>, x: Id): real
    requires x in TableOf(spans)
  {
    var t := TableOf(spans);
    Score(t[x], RoleOf(t, x), DepthOf(t, x), MaxDepth(t), StatsOf(spans))
  }

  /** The score used for ranking: repeated failures of a storm count nothing. */
  ghost function ScoreOf(spans: seq<Span>, x: Id): real
    requires x in TableOf(spans)
  {
    if x in SuppressedIds(spans) then 0.0 else PlainScore(spans, x)
  }

  type Scores = map<Id, real>

  ghost function Scored(spans: seq<Span>): Scores {
    map x | x in TableOf(spans) :: ScoreOf(spans, x)
  }

  // ----- Ranking -----

  /** `sorted(..., reverse=True)` by score: equal scores keep their order. */
  function InsertByScore(scores: Scores, ranked: seq<Id>, x: Id): seq<Id>
    requires x in scores && forall y :: y in ranked ==> y in scores
  {
    if ranked == [] || scores[ranked[|ranked| - 1]] >= scores[x] then ranked + [x]
    else InsertByScore(scores, ranked[..|ranked| - 1], x) + [ranked[|ranked| - 1]]
  }

  lemma {:induction false} InsertMembers(scores: Scores, ranked: seq<Id>, x: Id, y: Id)
    requires x in scores && forall z :: z in ranked ==> z in scores
    ensures y in InsertByScore(scores, ranked, x) <==> y == x || y in ranked
    ensures |InsertByScore(scores, ranked, x)| == |ranked| + 1
    decreases |ranked|
  {
    if ranked != [] {
      assert ranked == ranked[..|ranked| - 1] + [ranked[|ranked| - 1]];
      if scores[ranked[|ranked| - 1]] < scores[x] { InsertMembers(scores, ranked[..|ranked| - 1], x, y); }
    }
  }

  function Rank(scores: Scores, ids: seq<Id>): (r: seq<Id>)
    requires forall y :: y in ids ==> y in scores
    ensures |r| == |ids|
    ensures forall y :: y in r <==> y in ids
  {
    if ids == [] then []
    else
      var k := |ids| - 1;
      assert ids == ids[..k] + [ids[k]];
      var before := Rank(scores, ids[..k]);
      assert forall y :: y in before ==> y in ids[..k];
      InsertMembersAll(scores, before, ids[k]);
      InsertByScore(scores, before, ids[k])
  }

  lemma InsertMembersAll(scores: Scores, ranked: seq<Id>, x: Id)
    requires x in scores && forall z :: z in ranked ==> z in scores
    ensures forall y :: y in InsertByScore(scores, ranked, x) <==> y == x || y in ranked
    ensures |InsertByScore(scores, ranked, x)| == |ranked| + 1
  {
    forall y ensures y in InsertByScore(scores, ranked, x) <==> y == x || y in ranked {
      InsertMembers(scores, ranked, x, y);
    }
    InsertMembers(scores, ranked, x, x);
  }

  ghost predicate Descending(scores: Scores, ids: seq<Id>) {
    && (forall y :: y in ids ==> y in scores)
    && forall i, j :: 0 <= i < j < |ids| ==> scores[ids[i]] >= scores[ids[j]]
  }

  lemma DescendingSnoc(scores: Scores, ids: seq<Id>, x: Id)
    requires Descending(scores, ids) && x in scores && forall y :: y in ids ==> scores[y] >= scores[x]
    ensures Descending(scores, ids + [x])
  {
    assert forall i :: 0 <= i < |ids| ==> ids[i] in ids;
  }

  lemma {:induction false} InsertDescends(scores: Scores, ranked: seq<Id>, x: Id)
    requires Descending(scores, ranked) && x in scores
    ensures Descending(scores, InsertByScore(scores, ranked, x))
    decreases |ranked|
  {
    if ranked == [] {
    } else {
      var k := |ranked| - 1;
      if scores[ranked[k]] < scores[x] {
        var rest := ranked[..k];
        InsertDescends(scores, rest, x);
        InsertMembersAll(scores, rest, x);
        assert ranked[k] in ranked;
        DescendingSnoc(scores, InsertByScore(scores, rest, x), ranked[k]);
      } else {
        DescendingSnoc(scores, ranked, x);
      }
    }
  }

  /** The ranking runs from the highest to the lowest score. */
  lemma {:induction false} RankDescends(scores: Scores, ids: seq<Id>)
    requires forall y :: y in ids ==> y in scores
    ensures Descending(scores, Rank(scores, ids))
    decreases |ids|
  {
    if ids != [] {
      var k := |ids| - 1;
      assert forall y :: y in ids[..k] ==> y in ids;
      RankDescends(scores, ids[..k]);
      InsertDescends(scores, Rank(scores, ids[..k]), ids[k]);
    }
  }

  /** The ranking puts a newcomer first only when it outscores everyone before it. */
  lemma {:induction false} InsertHead(scores: Scores, ranked: seq<Id>, x: Id)
    requires Descending(scores, ranked) && x in scores
    ensures var r := InsertByScore(scores, ranked, x);
            && r != []
            && r[0] == (if ranked == [] || scores[ranked[0]] < scores[x] then x else ranked[0])
    decreases |ranked|
  {
    if ranked != [] {
      var k := |ranked| - 1;
      assert ranked[0] in ranked && ranked[k] in ranked;
      if scores[ranked[k]] < scores[x] { InsertHead(scores, ranked[..k], x); }
    }
  }

  /** The id at `i` outscores every earlier one, and no later one outscores it. */
  ghost predicate Leads(scores: Scores, ids: seq<Id>, i: nat) {
    && i < |ids| && ids[i] in scores
    && (forall j :: 0 <= j < i ==> ids[j] in scores && scores[ids[j]] < scores[ids[i]])
    && (forall j :: i < j < |ids| ==> ids[j] in scores && scores[ids[j]] <= scores[ids[i]])
  }

  lemma LeadsOnce(scores: Scores, ids: seq<Id>, i: nat, j: nat)
    requires Leads(scores, ids, i) && Leads(scores, ids, j)
    ensures i == j
  {}

  lemma LeadsSnoc(scores: Scores, ids: seq<Id>, i: nat, x: Id)
    requires Leads(scores, ids, i) && x in scores
    ensures Leads(scores, ids + [x], if scores[ids[i]] < scores[x] then |ids| else i)
  {
    forall j | 0 <= j < |ids| ensures ids[j] in scores && scores[ids[j]] <= scores[ids[i]] {}
  }

  lemma RankHeadSnoc(scores: Scores, before: seq<Id>, x: Id)
    requires x in scores && forall y :: y in before ==> y in scores
    ensures forall y :: y in before + [x] ==> y in scores
    ensures var (r, head) := (Rank(scores, before + [x]), Rank(scores, before));
            r[0] == if before == [] || (head[0] in scores && scores[head[0]] < scores[x]) then x else head[0]
  {
    assert (before + [x])[..|before|] == before;
    RankDescends(scores, before);
    InsertHead(scores, Rank(scores, before), x);
    if before != [] { HeadKnown(scores, Rank(scores, before)); }
  }

  lemma HeadKnown(scores: Scores, ids: seq<Id>)
    requires ids != [] && forall y :: y in ids ==> y in scores
    ensures ids[0] in scores
  {
    assert ids[0] in ids;
  }

  /** Of several spans with the best score, the one listed first is ranked first. */
  lemma {:induction false} RankFirst(scores: Scores, ids: seq<Id>) returns (i: nat)
    requires ids != [] && forall y :: y in ids ==> y in scores
    ensures Leads(scores, ids, i) && Rank(scores, ids)[0] == ids[i]
    decreases |ids|
  {
    var k := |ids| - 1;
    var before := ids[..k];
    assert ids == before + [ids[k]];
    RankHeadSnoc(scores, before, ids[k]);
    if before == [] {
      i := 0;
    } else {
      i := RankFirst(scores, before);
      LeadsSnoc(scores, before, i, ids[k]);
      if scores[before[i]] < scores[ids[k]] { i := k; }
    }
  }

  /** Ids of one role, in the given order. */
  ghost function WithRole(t: Table, ids: seq<Id>, role: Role): (r: seq<Id>)
    ensures forall y :: y in r <==> y in ids && y in t && RoleOf(t, y) == role
  {
    if ids == [] then []
    else if ids[0] in t && RoleOf(t, ids[0]) == role then [ids[0]] + WithRole(t, ids[1..], role)
    else WithRole(t, ids[1..], role)
  }

  // ----- Confidence -----

  const CONFIDENCE_HIGH_DELTA := 0.25
  const CONFIDENCE_MEDIUM_DELTA := 0.10

  datatype Confidence = High | Medium | Ambiguous

  function Grade(delta: real): Confidence {
    if delta > CONFIDENCE_HIGH_DELTA then High
    else if delta > CONFIDENCE_MEDIUM_DELTA then Medium
    else Ambiguous
  }

  /** The gap between the two best originators, 1 for a single one, else between the two best spans. */
  function Gap(scores: Scores, originators: seq<Id>, ranked: seq<Id>): real
    requires forall y :: y in originators || y in ranked ==> y in scores
  {
    if |originators| >= 2 then
      var best := Rank(scores, originators);
      assert best[0] in best && best[1] in best;
      scores[best[0]] - scores[best[1]]
    else if |originators| == 1 then 1.0
    else if ranked == [] then 0.0
    else scores[ranked[0]] - (if |ranked| > 1 then scores[ranked[1]] else 0.0)
  }

  function IdsOf(spans: seq<Span>): (r: seq<Id>)
    ensures |r| == |spans| && forall i :: 0 <= i < |r| ==> r[i] == spans[i].id
  {
    seq(|spans|, i requires 0 <= i < |spans| => spans[i].id)
  }

  lemma IdsKnown(spans: seq<Span>)
    ensures forall y :: y in IdsOf(spans) <==> y in TableOf(spans)
  {
    forall y | y in TableOf(spans) ensures y in IdsOf(spans) {
      var s := TableOf(spans)[y];
      var i :| 0 <= i < |spans| && spans[i] == s;
      assert IdsOf(spans)[i] == y;
    }
    forall i | 0 <= i < |spans| ensures spans[i].id in TableOf(spans) { assert spans[i] in spans; }
  }

  ghost function Ranking(spans: seq<Span>): (r: seq<Id>)
    ensures |r| == |spans|
    ensures forall y :: y in r <==> y in TableOf(spans)
  {
    IdsKnown(spans);
    Rank(Scored(spans), IdsOf(spans))
  }

  ghost function ConfidenceOf(spans: seq<Span>): Confidence {
    IdsKnown(spans);
    Grade(Gap(Scored(spans), WithRole(TableOf(spans), IdsOf(spans), Originator), Ranking(spans)))
  }

  /** The spans reported as originators: those of that role by rank, else the best span, and in an
      ambiguous case the runner-up when it is implicated. */
  ghost function Reported(spans: seq<Span>): (r: seq<Id>)
    ensures forall y :: y in r ==> y in TableOf(spans)
  {
    ReportedFrom(TableOf(spans), Ranking(spans), ConfidenceOf(spans))
  }

  ghost function ReportedFrom(t: Table, ranked: seq<Id>, confidence: Confidence): (r: seq<Id>)
    requires forall y :: y in ranked ==> y in t
    ensures forall y :: y in r ==> y in t
  {
    var first := BestOf(t, ranked);
    if confidence == Ambiguous && |ranked| >= 2 && RunnerUp(t, first, ranked[1]) then Snoc(first, ranked[1]) else first
  }

  ghost function BestOf(t: Table, ranked: seq<Id>): (r: seq<Id>)
    requires forall y :: y in ranked ==> y in t
    ensures forall y :: y in r ==> y in t
  {
    var byRole := WithRole(t, ranked, Originator);
    if byRole == [] && ranked != [] then FirstOf(ranked) else byRole
  }

  function Snoc(ids: seq<Id>, x: Id): seq<Id> {
    ids + [x]
  }

  function FirstOf(ids: seq<Id>): (r: seq<Id>)
    requires ids != []
    ensures r == [ids[0]] && ids[0] in ids
  {
    [ids[0]]
  }

  ghost predicate RunnerUp(t: Table, first: seq<Id>, x: Id) {
    x in t && x !in first && RoleOf(t, x) != Clean && RoleOf(t, x) != Manifestor
  }

  // ----- Laws -----

  /** The two best of a list without repetition. */
  lemma TopTwo(scores: Scores, ids: seq<Id>)
    requires |ids| >= 2 && NoDup(ids) && forall y :: y in ids ==> y in scores
    ensures var r := Rank(scores, ids);
            && r[0] in r && r[1] in r && r[0] in ids && r[1] in ids && r[0] != r[1]
            && scores[r[1]] <= scores[r[0]]
            && (forall y :: y in ids ==> scores[y] <= scores[r[0]])
            && (forall y :: y in ids && y != r[0] ==> scores[y] <= scores[r[1]])
  {
    var r := Rank(scores, ids);
    RankDescends(scores, ids);
    RankPermutes(scores, ids);
    NoDupPermutation(ids, r);
    assert r[0] in r && r[1] in r;
    forall y | y in ids ensures scores[y] <= scores[r[0]] && (y != r[0] ==> scores[y] <= scores[r[1]]) {
      assert y in r;
      var i :| 0 <= i < |r| && r[i] == y;
    }
  }

  /** The gap between the two best exceeds `d` exactly when one beats every other by more than `d`. */
  lemma GapExceeds(scores: Scores, ids: seq<Id>, d: real)
    requires |ids| >= 2 && NoDup(ids) && (forall y :: y in ids ==> y in scores) && d >= 0.0
    ensures var r := Rank(scores, ids);
            r[0] in ids && r[1] in ids &&
            (scores[r[0]] - scores[r[1]] > d <==>
             exists x :: Beats(scores, ids, x, d))
  {
    TopTwo(scores, ids);
    var r := Rank(scores, ids);
    if scores[r[0]] - scores[r[1]] > d {
      assert Beats(scores, ids, r[0], d);
    }
    if x :| Beats(scores, ids, x, d) {
      assert r[0] == x;
    }
  }

  lemma OriginatorsListed(spans: seq<Span>)
    requires Unique(spans)
    ensures var origs := WithRole(TableOf(spans), IdsOf(spans), Originator);
            && NoDup(origs)
            && forall y :: y in origs <==> y in TableOf(spans) && RoleOf(TableOf(spans), y) == Originator
  {
    IdsKnown(spans);
    assert NoDup(IdsOf(spans));
    WithRoleNoDup(TableOf(spans), IdsOf(spans), Originator);
  }

  /** `x` is an originator that outscores all others by more than the high delta. */
  ghost predicate StandsOut(t: Table, scores: Scores, x: Id)
    requires t.Keys <= scores.Keys
  {
    && x in t && RoleOf(t, x) == Originator
    && forall y :: y in t && y != x && RoleOf(t, y) == Originator ==> scores[x] - scores[y] > CONFIDENCE_HIGH_DELTA
  }

  lemma OnlyOne(s: seq<Id>, y: Id)
    requires |s| == 1 && y in s
    ensures y == s[0]
  {}

  ghost predicate Beats(scores: Scores, ids: seq<Id>, x: Id, d: real) {
    x in ids && x in scores && forall y :: y in ids && y != x ==> y in scores && scores[x] - scores[y] > d
  }

  lemma HighGapExactly(scores: Scores, origs: seq<Id>, ranked: seq<Id>)
    requires origs != [] && NoDup(origs) && forall y :: y in origs || y in ranked ==> y in scores
    ensures Grade(Gap(scores, origs, ranked)) == High <==> exists x :: Beats(scores, origs, x, CONFIDENCE_HIGH_DELTA)
    ensures Grade(Gap(scores, origs, ranked)) != High ==> |origs| >= 2
  {
    if |origs| >= 2 {
      GapExceeds(scores, origs, CONFIDENCE_HIGH_DELTA);
    } else {
      assert origs[0] in origs;
      forall y | y in origs ensures y == origs[0] { OnlyOne(origs, y); }
      assert Beats(scores, origs, origs[0], CONFIDENCE_HIGH_DELTA);
    }
  }

  lemma StandsOutInList(t: Table, scores: Scores, origs: seq<Id>, ranked: seq<Id>)
    requires t.Keys <= scores.Keys && NoDup(origs) && (forall y :: y in ranked ==> y in t) && SomeOriginator(t)
    requires forall y :: y in origs <==> y in t && RoleOf(t, y) == Originator
    ensures Grade(Gap(scores, origs, ranked)) == High <==> exists x :: StandsOut(t, scores, x)
    ensures Grade(Gap(scores, origs, ranked)) != High ==> |origs| >= 2
  {
    var x :| x in t && RoleOf(t, x) == Originator;
    assert x in origs;
    HighGapExactly(scores, origs, ranked);
    forall z ensures StandsOut(t, scores, z) <==> Beats(scores, origs, z, CONFIDENCE_HIGH_DELTA) {}
  }

  /** On a trace with an originator, confidence is high exactly when one originator outscores all
      others by more than the high delta; so below high there are at least two. */
  lemma HighConfidenceExactly(spans: seq<Span>)
    requires Unique(spans) && SomeOriginator(TableOf(spans))
    ensures ConfidenceOf(spans) == High <==> exists x :: StandsOut(TableOf(spans), Scored(spans), x)
    ensures ConfidenceOf(spans) != High ==> |WithRole(TableOf(spans), IdsOf(spans), Originator)| >= 2
  {
    OriginatorsListed(spans);
    StandsOutInList(TableOf(spans), Scored(spans), WithRole(TableOf(spans), IdsOf(spans), Originator), Ranking(spans));
  }

  /** The two best scores depend on the set of ids only. */
  lemma BestBySet(scores: Scores, a: seq<Id>, b: seq<Id>)
    requires |a| >= 2 && |b| >= 2 && NoDup(a) && NoDup(b) && forall y :: y in a <==> y in b
    requires forall y :: y in a ==> y in scores
    ensures var (r, s) := (Rank(scores, a), Rank(scores, b));
            r[0] in scores && r[1] in scores && s[0] in scores && s[1] in scores
            && scores[r[0]] == scores[s[0]] && scores[r[1]] == scores[s[1]]
  {
    TopTwo(scores, a);
    TopTwo(scores, b);
  }

  lemma ErrorScore(spans: seq<Span>, x: Id)
    requires x in TableOf(spans)
    requires RoleOf(TableOf(spans), x) == Originator && HasError(TableOf(spans)[x]) && x !in SuppressedIds(spans)
    ensures Scored(spans)[x] >= 0.55
  {
    var t := TableOf(spans);
    MaxDepthExists(t);
    OriginatorErrorScore(t[x], DepthOf(t, x), MaxDepth(t), StatsOf(spans));
  }

  /** If suppression leaves exactly one originator and it has an error, it scores at least 0.55 and
      the verdict is confident. */
  lemma SuppressionGivesConfidence(spans: seq<Span>, x: Id)
    requires Unique(spans) && x in TableOf(spans)
    requires RoleOf(TableOf(spans), x) == Originator && HasError(TableOf(spans)[x]) && x !in SuppressedIds(spans)
    requires forall y :: y in TableOf(spans) && y != x && RoleOf(TableOf(spans), y) == Originator ==>
               y in SuppressedIds(spans)
    ensures Scored(spans)[x] >= 0.55
    ensures ConfidenceOf(spans) == High
  {
    ErrorScore(spans, x);
    HighConfidenceExactly(spans);
    assert StandsOut(TableOf(spans), Scored(spans), x);
  }

  lemma {:induction false} InsertPermutes(scores: Scores, ranked: seq<Id>, x: Id)
    requires x in scores && forall z :: z in ranked ==> z in scores
    ensures multiset(InsertByScore(scores, ranked, x)) == multiset(ranked) + multiset{x}
    decreases |ranked|
  {
    if ranked != [] {
      assert ranked == ranked[..|ranked| - 1] + [ranked[|ranked| - 1]];
      if scores[ranked[|ranked| - 1]] < scores[x] { InsertPermutes(scores, ranked[..|ranked| - 1], x); }
    }
  }

  lemma {:induction false} RankPermutes(scores: Scores, ids: seq<Id>)
    requires forall y :: y in ids ==> y in scores
    ensures multiset(Rank(scores, ids)) == multiset(ids)
    decreases |ids|
  {
    if ids != [] {
      var k := |ids| - 1;
      assert ids == ids[..k] + [ids[k]];
      RankPermutes(scores, ids[..k]);
      InsertPermutes(scores, Rank(scores, ids[..k]), ids[k]);
    }
  }

  lemma {:induction false} WithRoleNoDup(t: Table, ids: seq<Id>, role: Role)
    requires NoDup(ids)
    ensures NoDup(WithRole(t, ids, role))
  {
    if ids != [] {
      NoDupTail(ids);
      WithRoleNoDup(t, ids[1..], role);
      NoDupCons(ids[0], WithRole(t, ids[1..], role));
    }
  }
}
