/** The ranking, the confidence and the reported spans, each said outright. */
module VerdictExact {
  import opened Common
  import opened Spans
  import opened Roles
  import opened Verdict
  import opened VerdictLaws

  // ----- The ranking -----

  /** `x` has the higher score, or the same and is listed first. */
  ghost predicate Ahead(scores: Scores, ids: seq<Id>, x: Id, y: Id) {
    && x in scores && y in scores
    && (scores[x] > scores[y]
        || (scores[x] == scores[y] && exists p, q :: 0 <= p < q < |ids| && ids[p] == x && ids[q] == y))
  }

  ghost predicate InOrder(scores: Scores, ids: seq<Id>, ranked: seq<Id>) {
    forall i, j :: 0 <= i < j < |ranked| ==> Ahead(scores, ids, ranked[i], ranked[j])
  }

  lemma InOrderInit(scores: Scores, ids: seq<Id>, ranked: seq<Id>)
    requires InOrder(scores, ids, ranked) && ranked != []
    ensures InOrder(scores, ids, ranked[..|ranked| - 1])
  {}

  lemma InOrderSnoc(scores: Scores, ids: seq<Id>, ranked: seq<Id>, x: Id)
    requires InOrder(scores, ids, ranked) && forall y :: y in ranked ==> Ahead(scores, ids, y, x)
    ensures InOrder(scores, ids, ranked + [x])
  {
    forall i | 0 <= i < |ranked| ensures Ahead(scores, ids, ranked[i], x) { assert ranked[i] in ranked; }
  }

  /** The newest id goes after all that score as high. */
  lemma {:induction false} InsertInOrder(scores: Scores, ids: seq<Id>, ranked: seq<Id>, x: Id)
    requires InOrder(scores, ids, ranked) && x in scores && (forall y :: y in ranked ==> y in scores)
    requires forall y :: y in ranked && scores[y] >= scores[x] ==> Ahead(scores, ids, y, x)
    ensures InOrder(scores, ids, InsertByScore(scores, ranked, x))
    decreases |ranked|
  {
    if ranked != [] && scores[ranked[|ranked| - 1]] < scores[x] {
      var k := |ranked| - 1;
      InOrderInit(scores, ids, ranked);
      InsertInOrder(scores, ids, ranked[..k], x);
      InsertMembersAll(scores, ranked[..k], x);
      var r := InsertByScore(scores, ranked[..k], x);
      forall y | y in r ensures Ahead(scores, ids, y, ranked[k]) {
        if y != x {
          var i :| 0 <= i < k && ranked[i] == y;
        }
      }
      InOrderSnoc(scores, ids, r, ranked[k]);
    } else {
      forall y | y in ranked ensures scores[y] >= scores[x] {
        var i :| 0 <= i < |ranked| && ranked[i] == y;
      }
      InOrderSnoc(scores, ids, ranked, x);
    }
  }

  lemma AheadMore(scores: Scores, ids: seq<Id>, more: seq<Id>, x: Id, y: Id)
    requires Ahead(scores, ids, x, y)
    ensures Ahead(scores, ids + more, x, y)
  {
    if scores[x] == scores[y] {
      var p, q :| 0 <= p < q < |ids| && ids[p] == x && ids[q] == y;
      assert (ids + more)[p] == x && (ids + more)[q] == y;
    }
  }

  /** Sorted by falling score, equal scores in the order of the list. */
  lemma {:induction false} RankInOrder(scores: Scores, ids: seq<Id>)
    requires forall y :: y in ids ==> y in scores
    ensures InOrder(scores, ids, Rank(scores, ids)) && multiset(Rank(scores, ids)) == multiset(ids)
    decreases |ids|
  {
    RankPermutes(scores, ids);
    if ids != [] {
      var k := |ids| - 1;
      var before, x := ids[..k], ids[k];
      assert ids == before + [x];
      RankInOrder(scores, before);
      var r := Rank(scores, before);
      forall i, j | 0 <= i < j < |r| ensures Ahead(scores, ids, r[i], r[j]) {
        AheadMore(scores, before, [x], r[i], r[j]);
      }
      forall y | y in r && scores[y] >= scores[x] ensures Ahead(scores, ids, y, x) {
        assert y in before;
        var p :| 0 <= p < k && before[p] == y;
        assert ids[p] == y && ids[k] == x;
      }
      InsertInOrder(scores, ids, r, x);
    }
  }

  // ----- Selecting by role -----

  /** `r` are the members of `ids` with the role, in the order of `ids`, at the positions `at`. */
  ghost predicate Selects(t: Table, ids: seq<Id>, role: Role, r: seq<Id>, at: seq<nat>) {
    Places(ids, r, at) && forall p: nat :: p < |ids| ==> (p in at <==> Has(t, ids[p], role))
  }

  ghost predicate Places(ids: seq<Id>, r: seq<Id>, at: seq<nat>) {
    && |at| == |r| && (forall i :: 0 <= i < |r| ==> at[i] < |ids| && ids[at[i]] == r[i])
    && (forall i, j :: 0 <= i < j < |r| ==> at[i] < at[j])
  }

  ghost predicate Has(t: Table, x: Id, role: Role) {
    x in t && RoleOf(t, x) == role
  }

  lemma PlacesSnoc(ids: seq<Id>, r: seq<Id>, at: seq<nat>, x: Id)
    requires Places(ids, r, at)
    ensures Places(ids + [x], r, at) && Places(ids + [x], r + [x], at + [|ids|])
  {}

  lemma SelectsSnoc(t: Table, ids: seq<Id>, x: Id, role: Role, r: seq<Id>, at: seq<nat>)
    requires Selects(t, ids, role, r, at)
    ensures if Has(t, x, role) then Selects(t, ids + [x], role, r + [x], at + [|ids|])
            else Selects(t, ids + [x], role, r, at)
  {
    PlacesSnoc(ids, r, at, x);
    forall p: nat | p < |ids| ensures (ids + [x])[p] == ids[p] {}
    assert (ids + [x])[|ids|] == x;
    if !Has(t, x, role) {
      forall i | 0 <= i < |at| ensures at[i] != |ids| {}
    }
  }

  lemma {:induction false} WithRoleSnoc(t: Table, ids: seq<Id>, x: Id, role: Role)
    ensures WithRole(t, ids + [x], role) ==
            if x in t && RoleOf(t, x) == role then WithRole(t, ids, role) + [x] else WithRole(t, ids, role)
  {
    if ids == [] {
      assert ids + [x] == [x] && [x][1..] == [];
      assert WithRole(t, [x][1..], role) == [];
    } else {
      TailOf(ids, [x]);
      WithRoleSnoc(t, ids[1..], x, role);
    }
  }

  lemma WithRoleSelectsSnoc(t: Table, ids: seq<Id>, x: Id, role: Role, at: seq<nat>) returns (more: seq<nat>)
    requires Selects(t, ids, role, WithRole(t, ids, role), at)
    ensures Selects(t, ids + [x], role, WithRole(t, ids + [x], role), more)
  {
    WithRoleSnoc(t, ids, x, role);
    SelectsSnoc(t, ids, x, role, WithRole(t, ids, role), at);
    more := if Has(t, x, role) then at + [|ids|] else at;
  }

  lemma {:induction false} WithRoleSelects(t: Table, ids: seq<Id>, role: Role) returns (at: seq<nat>)
    ensures Selects(t, ids, role, WithRole(t, ids, role), at)
    decreases |ids|
  {
    at := [];
    if ids != [] {
      var n := |ids| - 1;
      at := WithRoleSelects(t, ids[..n], role);
      assert ids == ids[..n] + [ids[n]];
      at := WithRoleSelectsSnoc(t, ids[..n], ids[n], role, at);
    }
  }

  // ----- The confidence -----

  /** The originator `x` outscores every other originator by more than `d`. */
  ghost predicate OriginatorBy(t: Table, scores: Scores, x: Id, d: real)
    requires t.Keys <= scores.Keys
  {
    Has(t, x, Originator) && forall y :: y in t && y != x && Has(t, y, Originator) ==> scores[x] - scores[y] > d
  }

  /** The span `x` outscores every other span by more than `d`, and nothing if it is the only one. */
  ghost predicate BestBy(t: Table, scores: Scores, x: Id, d: real)
    requires t.Keys <= scores.Keys
  {
    && x in t && (forall y :: y in t && y != x ==> scores[x] - scores[y] > d)
    && ((forall y :: y in t ==> y == x) ==> scores[x] > d)
  }

  ghost predicate Decided(t: Table, scores: Scores, d: real)
    requires t.Keys <= scores.Keys
  {
    if SomeOriginator(t) then exists x :: OriginatorBy(t, scores, x, d) else exists x :: BestBy(t, scores, x, d)
  }

  lemma OriginatorGap(t: Table, scores: Scores, origs: seq<Id>, ranked: seq<Id>, d: real)
    requires t.Keys <= scores.Keys && NoDup(origs) && 0.0 <= d < 1.0
    requires forall y :: y in origs || y in ranked ==> y in scores
    requires (forall y :: y in origs <==> Has(t, y, Originator)) && SomeOriginator(t)
    ensures Gap(scores, origs, ranked) > d <==> exists x :: OriginatorBy(t, scores, x, d)
  {
    forall x ensures OriginatorBy(t, scores, x, d) <==> Beats(scores, origs, x, d) {}
    var z :| z in t && RoleOf(t, z) == Originator;
    assert z in origs;
    if |origs| >= 2 {
      GapExceeds(scores, origs, d);
    } else {
      forall y | y in origs ensures y == origs[0] { OnlyOne(origs, y); }
      assert Beats(scores, origs, origs[0], d);
    }
  }

  lemma BestGap(t: Table, scores: Scores, ids: seq<Id>, d: real)
    requires t.Keys == scores.Keys && NoDup(ids) && (forall y :: y in ids <==> y in t) && ids != [] && d >= 0.0
    ensures Gap(scores, [], Rank(scores, ids)) > d <==> exists x :: BestBy(t, scores, x, d)
  {
    var r := Rank(scores, ids);
    if |ids| >= 2 {
      GapExceeds(scores, ids, d);
      TopTwo(scores, ids);
      forall x ensures BestBy(t, scores, x, d) <==> Beats(scores, ids, x, d) {
        assert ids[0] in t && ids[1] in t;
      }
    } else {
      assert ids[0] in ids;
      forall y | y in t ensures y == ids[0] { OnlyOne(ids, y); }
      assert r[0] in r && r[0] == ids[0];
      assert BestBy(t, scores, ids[0], d) <==> scores[ids[0]] > d;
    }
  }

  lemma GapDecided(spans: seq<Span>, d: real)
    requires Unique(spans) && spans != [] && 0.0 <= d < 1.0
    ensures Decided(TableOf(spans), Scored(spans), d) <==>
            Gap(Scored(spans), WithRole(TableOf(spans), IdsOf(spans), Originator), Ranking(spans)) > d
  {
    var t, scores, ids := TableOf(spans), Scored(spans), IdsOf(spans);
    OriginatorsListed(spans);
    IdsKnown(spans);
    if SomeOriginator(t) {
      OriginatorGap(t, scores, WithRole(t, ids, Originator), Ranking(spans), d);
    } else {
      NoneWithRole(t, ids, Originator);
      assert NoDup(ids);
      BestGap(t, scores, ids, d);
    }
  }

  /** High, medium or ambiguous: by how much the best originator, or for want of one the best span,
      outscores the others. */
  lemma ConfidenceExactly(spans: seq<Span>)
    requires Unique(spans) && spans != []
    ensures ConfidenceOf(spans) == High <==> Decided(TableOf(spans), Scored(spans), 0.25)
    ensures ConfidenceOf(spans) == Ambiguous <==> !Decided(TableOf(spans), Scored(spans), 0.1)
  {
    GapDecided(spans, 0.25);
    GapDecided(spans, 0.1);
  }

  // ----- Who is reported -----

  lemma RankedOnce(spans: seq<Span>)
    requires Unique(spans)
    ensures NoDup(Ranking(spans))
  {
    IdsKnown(spans);
    assert NoDup(IdsOf(spans));
    RankPermutes(Scored(spans), IdsOf(spans));
    NoDupPermutation(IdsOf(spans), Ranking(spans));
  }

  lemma BestOfIs(t: Table, ranked: seq<Id>)
    requires (forall y :: y in ranked <==> y in t) && ranked != []
    ensures BestOf(t, ranked) == if SomeOriginator(t) then WithRole(t, ranked, Originator) else [ranked[0]]
  {
    var byRole := WithRole(t, ranked, Originator);
    if SomeOriginator(t) {
      var x :| x in t && RoleOf(t, x) == Originator;
      assert x in byRole;
    }
    if !SomeOriginator(t) { NoneWithRole(t, ranked, Originator); }
  }

  lemma RunnerUpIs(t: Table, ranked: seq<Id>)
    requires (forall y :: y in ranked <==> y in t) && |ranked| >= 2 && NoDup(ranked)
    ensures RunnerUp(t, BestOf(t, ranked), ranked[1]) <==> Has(t, ranked[1], Propagator)
  {
    BestOfIs(t, ranked);
    assert ranked[1] in ranked && ranked[0] != ranked[1];
  }

  /** All originators in the order of the ranking, or for want of one its head; and after them the
      second of the ranking if the confidence is ambiguous and it is a propagator. */
  lemma ReportedExactly(spans: seq<Span>) returns (at: seq<nat>)
    requires Unique(spans) && spans != []
    ensures var (t, ranked) := (TableOf(spans), Ranking(spans));
            Selects(t, ranked, Originator, WithRole(t, ranked, Originator), at)
    ensures var (t, ranked) := (TableOf(spans), Ranking(spans));
            var first := if SomeOriginator(t) then WithRole(t, ranked, Originator) else [ranked[0]];
            var runnerUp := ConfidenceOf(spans) == Ambiguous && |spans| >= 2 && Has(t, ranked[1], Propagator);
            Reported(spans) == if runnerUp then first + [ranked[1]] else first
  {
    var t, ranked := TableOf(spans), Ranking(spans);
    at := WithRoleSelects(t, ranked, Originator);
    RankedOnce(spans);
    BestOfIs(t, ranked);
    if |spans| >= 2 { RunnerUpIs(t, ranked); }
  }
}
