/** What the response says, in terms of the recorded values. */
module ResponseLaws {
  import opened Common
  import opened JsonValues
  import opened Spans
  import opened Roles
  import opened Evidence
  import opened Forest
  import opened Reports
  import opened RetryStorm
  import opened Verdict
  import opened VerdictExact
  import opened Causes
  import opened BlameTree
  import opened BlameReports
  import opened BlameEngine

  // ----- A trace of one span -----

  lemma LoneTable(s: Span)
    requires s.parent != Some(s.id)
    ensures Unique([s]) && TableOf([s]) == map[s.id := s] && Par(map[s.id := s], s.id).None?
    ensures Grounded(map[s.id := s], s.id) && Acyclic(map[s.id := s])
  {
    TableAt([s], 0);
    assert forall r :: r in [s] ==> r == s;
    GroundedByParent(map[s.id := s], s.id);
  }

  lemma LoneRole(s: Span)
    requires s.parent != Some(s.id) && s.id !in s.sources && Fails(s)
    ensures RoleOf(map[s.id := s], s.id) == Originator
  {
    LoneTable(s);
    var t: Table := map[s.id := s];
    RolesFromValues(t, s.id);
    forall y | Anc(t, s.id, y) ensures false {
      if y in t { AncDepth(t, s.id, y); } else { AncStep(t, s.id, y); }
    }
  }

  lemma LoneReported(s: Span)
    requires s.parent != Some(s.id) && s.id !in s.sources && Fails(s)
    ensures Reported([s]) == [s.id] && ConfidenceOf([s]) == High
    ensures WithRole(TableOf([s]), IdsOf([s]), Originator) == [s.id]
    ensures WithRole(TableOf([s]), IdsOf([s]), Manifestor) == []
  {
    LoneTable(s);
    LoneRole(s);
    var ids := IdsOf([s]);
    assert ids == [s.id] && ids[1..] == [];
    var t: Table := map[s.id := s];
    assert WithRole(t, ids[1..], Originator) == [] && WithRole(t, ids[1..], Manifestor) == [];
    var ranked := Ranking([s]);
    assert ranked[0] in ranked && ranked == [s.id];
  }

  lemma OnlyMember(part: seq<Span>, s: Span)
    requires Unique(part) && part != [] && forall r :: r in part ==> r == s
    ensures part == [s]
  {
    forall i | 0 <= i < |part| ensures part[i] == s { assert part[i] in part; }
    assert |part| >= 2 ==> part[0].id != part[1].id;
  }

  lemma LoneSlice(s: Span)
    requires s.parent != Some(s.id) && s.id !in s.sources && Fails(s)
    ensures Acyclic(TableOf([s])) && SomeBad(TableOf([s])) && FailingBranches([s]) == [s]
  {
    LoneTable(s);
    FailsIs(s);
    var t := TableOf([s]);
    assert s.id in t && Bad(t[s.id]);
    BadInSlice(t, s.id);
    FailingBranchesTable([s]);
    forall r ensures r in FailingBranches([s]) <==> r == s { FailingBranchesExact([s], r); }
    assert s in FailingBranches([s]);
    OnlyMember(FailingBranches([s]), s);
  }

  lemma LoneLines(s: Span)
    requires s.parent != Some(s.id) && s.id !in s.sources && Fails(s) && Known(TableOf([s]), [s])
    ensures Lines(TableOf([s]), [s]) == [if Errs(s.error) then Failed(s.id) else ProducedBadOutput(s.id)]
  {
    LoneTable(s);
    LoneRole(s);
    ErrsIs(s);
    KnownRest(TableOf([s]), [s]);
    assert [s][1..] == [];
  }

  lemma LoneChain(s: Span)
    requires s.parent != Some(s.id) && s.id !in s.sources && Fails(s)
    ensures CausesEnd(TableOf([s])) && Response([s]).fullChain == [s]
    ensures Response([s]).propagationChain == [if Errs(s.error) then Failed(s.id) else ProducedBadOutput(s.id)]
  {
    LoneSlice(s);
    FullChainIsSlice([s]);
    NarrativeFollowsSlice([s]);
    LoneLines(s);
  }

  lemma {:induction false} GroupShort(part: seq<Span>, k: Key)
    ensures |GroupOf(part, k)| <= |part|
    decreases |part|
  {
    if part != [] { GroupShort(part[..|part| - 1], k); }
  }

  lemma LoneStorm(s: Span)
    ensures !SomeStorm([s])
  {
    forall k ensures !IsStorm(StormGroup([s], k)) {
      SortKeeps(GroupOf([s], k));
      SameSize(StormGroup([s], k), GroupOf([s], k));
      GroupShort([s], k);
    }
  }

  /** One failed span is the whole verdict: the one originator, with high confidence, and the one
      line and span of the reports. */
  lemma LoneFailure(s: Span)
    requires s.parent != Some(s.id) && s.id !in s.sources && Fails(s)
    ensures Unique([s]) && CausesEnd(TableOf([s]))
    ensures var r := Response([s]);
            && r.originators == [s.id] && r.failurePoints == [] && r.secondary == []
            && r.confidence == High && !r.retryStorm && r.fullChain == [s]
            && r.propagationChain == [if Errs(s.error) then Failed(s.id) else ProducedBadOutput(s.id)]
  {
    LoneTable(s);
    LoneRole(s);
    LoneReported(s);
    LoneChain(s);
    LoneStorm(s);
    if SecondaryOf([s]) != [] { SecondaryNeedsFallback([s]); }
  }

  /** Such a span is one that returned a text of nothing but white space. */
  lemma BlankTextFails(s: Span, text: string)
    requires s.output == Str(text) && AllWhite(text)
    ensures Fails(s)
  {
    assert AllWhite("") && text == text + "" + "";
  }

  // ----- The parts of the response -----

  /** The line of a span in the narrative, from the recorded values. */
  lemma LineFromValues(t: Table, x: Id)
    requires x in t && Fails(t[x])
    ensures LineOf(t, x) ==
            if FailsBelow(t, x) then PropagatedFailure(x)
            else if StarvedBySibling(t, x) || FedByFailure(t, x) then
              if Errs(t[x].error) then FailedUpstream(x) else ReceivedBadInput(x)
            else if Errs(t[x].error) then Failed(x) else ProducedBadOutput(x)
  {
    RolesFromValues(t, x);
    ErrsIs(t[x]);
  }

  lemma {:induction false} PointsAre(t: Table, ids: seq<Id>)
    requires AllEnd(t, ids)
    ensures |FailurePoints(t, ids)| == |ids|
    ensures forall i :: 0 <= i < |ids| ==> FailurePoints(t, ids)[i] == (ids[i], CausedBy(t, ids[i]))
  {
    if ids != [] {
      assert forall i :: 0 <= i < |ids| - 1 ==> ids[1..][i] == ids[i + 1];
      PointsAre(t, ids[1..]);
    }
  }

  lemma SelectedPoints(t: Table, ids: seq<Id>) returns (at: seq<nat>)
    requires AllEnd(t, WithRole(t, ids, Manifestor))
    ensures var points := FailurePoints(t, WithRole(t, ids, Manifestor));
            && |at| == |points| && (forall i, j :: 0 <= i < j < |at| ==> at[i] < at[j])
            && (forall i :: 0 <= i < |at| ==> at[i] < |ids| && CauseEnds(t, ids[at[i]]))
            && (forall i :: 0 <= i < |at| ==> points[i] == (ids[at[i]], CausedBy(t, ids[at[i]])))
            && (forall p: nat :: p < |ids| ==> (p in at <==> Has(t, ids[p], Manifestor)))
  {
    at := WithRoleSelects(t, ids, Manifestor);
    PointsAre(t, WithRole(t, ids, Manifestor));
  }

  /** The failure points are the manifestors in the order of the list, each with its cause. */
  lemma FailurePointsExactly(spans: seq<Span>) returns (at: seq<nat>)
    requires CausesEnd(TableOf(spans))
    ensures var (t, ids, points) := (TableOf(spans), IdsOf(spans), Response(spans).failurePoints);
            && |at| == |points| && (forall i, j :: 0 <= i < j < |at| ==> at[i] < at[j])
            && (forall i :: 0 <= i < |at| ==> at[i] < |ids| && CauseEnds(t, ids[at[i]]))
            && (forall i :: 0 <= i < |at| ==> points[i] == (ids[at[i]], CausedBy(t, ids[at[i]])))
            && (forall p: nat :: p < |ids| ==> (p in at <==> Has(t, ids[p], Manifestor)))
  {
    IdsKnown(spans);
    ManifestorsEnd(TableOf(spans), IdsOf(spans));
    at := SelectedPoints(TableOf(spans), IdsOf(spans));
  }

  /** The full chain holds exactly the failed spans and those above one. */
  lemma FullChainFromValues(spans: seq<Span>, s: Span)
    requires Unique(spans) && Acyclic(TableOf(spans)) && exists r :: r in spans && Fails(r)
    ensures CausesEnd(TableOf(spans)) && Unique(Response(spans).fullChain)
    ensures s in Response(spans).fullChain <==>
            var t := TableOf(spans);
            s in spans && (Fails(s) || exists y :: y in t && Anc(t, s.id, y) && Fails(t[y]))
  {
    var t := TableOf(spans);
    forall r ensures Bad(r) <==> Fails(r) { FailsIs(r); }
    var f :| f in spans && Fails(f);
    TableIn(spans, f);
    assert SomeBad(t);
    FullChainIsSlice(spans);
    FailingBranchesExact(spans, s);
    if s in spans {
      TableIn(spans, s);
      RolesCharacterised(t, s.id);
    }
  }

  lemma FallbackChain(spans: seq<Span>, first: Id)
    requires Unique(spans) && first in TableOf(spans) && SliceIds(TableOf(spans)) == {}
    ensures FullChain(spans, Some(first)) == [TableOf(spans)[first]]
  {
    ListingUnique(spans);
    PickUnique(Listing(spans), {first});
    var picked := Pick(Listing(spans), {first});
    if picked != [] {
      forall r | r in picked ensures r == TableOf(spans)[first] {
        PickMembers(Listing(spans), {first}, r);
        PreOrderComplete(spans, r);
      }
      OnlyMember(picked, TableOf(spans)[first]);
    }
  }

  lemma FirstReported(t: Table, ranked: seq<Id>, confidence: Confidence)
    requires ranked != [] && forall y :: y in ranked ==> y in t
    ensures ReportedFrom(t, ranked, confidence) != [] && ReportedFrom(t, ranked, confidence)[0] in t
  {
    var reported := ReportedFrom(t, ranked, confidence);
    assert reported != [];
    assert reported[0] in reported;
  }

  lemma SomeoneReported(spans: seq<Span>)
    requires spans != []
    ensures Reported(spans) != [] && Reported(spans)[0] in TableOf(spans)
  {
    FirstReported(TableOf(spans), Ranking(spans), ConfidenceOf(spans));
  }

  /** When no failed span can be reached from a root, the full chain is the first reported span. */
  lemma FullChainFallback(spans: seq<Span>)
    requires Unique(spans) && spans != [] && CausesEnd(TableOf(spans)) && SliceIds(TableOf(spans)) == {}
    ensures Response(spans).originators != [] && Response(spans).originators[0] in TableOf(spans)
    ensures Response(spans).fullChain == [TableOf(spans)[Response(spans).originators[0]]]
  {
    SomeoneReported(spans);
    FallbackChain(spans, Reported(spans)[0]);
  }

  /** The secondary contributors are the failed children of the reported spans. */
  lemma SecondaryExactly(spans: seq<Span>, y: Id)
    requires Unique(spans) && CausesEnd(TableOf(spans))
    ensures y in Response(spans).secondary <==>
            var t := TableOf(spans);
            && y in t && Errs(t[y].error) && t[y].parent.Some? && t[y].parent.value != ""
            && t[y].parent.value in Response(spans).originators
  {
    var t := TableOf(spans);
    KidsShape(spans);
    SecondaryAre(t, KidsUpTo(t, spans), Reported(spans), y);
    if y in t {
      ErrsIs(t[y]);
      if t[y].parent.Some? { ParentIs(t, y, t[y].parent.value); }
    }
  }
}
