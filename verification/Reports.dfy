/** What the two reports of the blame engine list, and in which order. */
module Reports {
  import opened Common
  import opened Spans
  import opened Roles
  import opened Forest

  /** The spans of `part` whose id is in `keep`, in their order. */
  function Pick(part: seq<Span>, keep: set<Id>): seq<Span> {
    if part == [] then []
    else if part[0].id in keep then [part[0]] + Pick(part[1..], keep)
    else Pick(part[1..], keep)
  }

  lemma {:induction false} PickAppend(a: seq<Span>, b: seq<Span>, keep: set<Id>)
    ensures Pick(a + b, keep) == Pick(a, keep) + Pick(b, keep)
  {
    if a == [] {
      assert a + b == b;
    } else {
      assert (a + b)[1..] == a[1..] + b;
      PickAppend(a[1..], b, keep);
    }
  }

  lemma {:induction false} PickMembers(part: seq<Span>, keep: set<Id>, s: Span)
    ensures s in Pick(part, keep) <==> s in part && s.id in keep
  {
    if part != [] { PickMembers(part[1..], keep, s); }
  }

  lemma {:induction false} PickUnique(part: seq<Span>, keep: set<Id>)
    requires Unique(part)
    ensures Unique(Pick(part, keep))
  {
    if part != [] {
      var rest := part[1..];
      forall i, j | 0 <= i < j < |rest| ensures rest[i].id != rest[j].id {
        assert rest[i] == part[i + 1] && rest[j] == part[j + 1];
      }
      PickUnique(rest, keep);
      forall s | s in Pick(rest, keep) ensures s.id != part[0].id {
        PickMembers(rest, keep, s);
        var i :| 0 <= i < |rest| && rest[i] == s;
        assert part[i + 1] == s;
      }
      UniqueCons(part[0], Pick(rest, keep));
    }
  }

  lemma UniqueCons(s: Span, rest: seq<Span>)
    requires Unique(rest) && forall r :: r in rest ==> r.id != s.id
    ensures Unique([s] + rest)
  {
    forall i | 0 <= i < |rest| ensures rest[i].id != s.id { assert rest[i] in rest; }
  }

  // ----- The slice and its order -----

  ghost function SliceIds(t: Table): set<Id> {
    set x | x in t && SubtreeBad(t, x)
  }

  /** The trace in pre-order, roots in list order. */
  ghost function Listing(spans: seq<Span>): seq<Span> {
    RootsGrounded(spans);
    PreOrder(spans, Roots(spans))
  }

  /** All failing branches, in pre-order. */
  ghost function FailingBranches(spans: seq<Span>): seq<Span> {
    Pick(Listing(spans), SliceIds(TableOf(spans)))
  }

  lemma ListingUnique(spans: seq<Span>)
    requires Unique(spans)
    ensures Unique(Listing(spans))
  {
    ForestUnique(spans);
  }

  /** The full chain lists the slice: each span of it once, and no other span. */
  lemma FailingBranchesExact(spans: seq<Span>, s: Span)
    requires Unique(spans)
    ensures Unique(FailingBranches(spans))
    ensures s in FailingBranches(spans) <==> s.id in Slice(TableOf(spans)) && TableOf(spans)[s.id] == s
  {
    PreOrderComplete(spans, s);
    PickMembers(Listing(spans), SliceIds(TableOf(spans)), s);
    PickUnique(Listing(spans), SliceIds(TableOf(spans)));
  }

  /** Analysing the full chain instead of the trace means analysing its slice. */
  lemma FailingBranchesTable(spans: seq<Span>)
    requires Unique(spans)
    ensures Unique(FailingBranches(spans))
    ensures TableOf(FailingBranches(spans)) == Slice(TableOf(spans))
  {
    var t, part := TableOf(spans), FailingBranches(spans);
    ListingUnique(spans);
    PickUnique(Listing(spans), SliceIds(t));
    forall x | x in TableOf(part) ensures x in Slice(t) && TableOf(part)[x] == t[x] {
      FailingBranchesExact(spans, TableOf(part)[x]);
    }
    forall x | x in Slice(t) ensures x in TableOf(part) {
      FailingBranchesExact(spans, t[x]);
    }
  }

  // ----- The narrative chain -----

  /** The text lines of the propagation chain, as tagged span ids. */
  datatype ChainLine =
    | Failed(id: Id)
    | ProducedBadOutput(id: Id)
    | PropagatedFailure(id: Id)
    | FailedUpstream(id: Id)
    | ReceivedBadInput(id: Id)
    | NoDetail

  ghost function LineOf(t: Table, x: Id): ChainLine
    requires x in t
  {
    match RoleOf(t, x)
    case Originator => if HasError(t[x]) then Failed(x) else ProducedBadOutput(x)
    case Propagator => PropagatedFailure(x)
    case Manifestor => if HasError(t[x]) then FailedUpstream(x) else ReceivedBadInput(x)
    case Clean => NoDetail
  }

  ghost predicate Known(t: Table, part: seq<Span>) {
    forall s :: s in part ==> s.id in t
  }

  lemma KnownAppend(t: Table, a: seq<Span>, b: seq<Span>)
    ensures Known(t, a + b) <==> Known(t, a) && Known(t, b)
  {
    assert forall s :: s in a + b <==> s in a || s in b;
  }

  lemma KnownRest(t: Table, part: seq<Span>)
    requires Known(t, part) && part != []
    ensures part[0].id in t && Known(t, part[1..])
  {
    assert forall s :: s in part[1..] ==> s in part;
  }

  /** One line per bad span, in order. */
  ghost function Lines(t: Table, part: seq<Span>): (r: seq<ChainLine>)
    requires Known(t, part)
  {
    if part == [] then []
    else
      KnownRest(t, part);
      OwnLine(t, part[0].id) + Lines(t, part[1..])
  }

  lemma {:induction false} LinesAppend(t: Table, a: seq<Span>, b: seq<Span>)
    requires Known(t, a) && Known(t, b)
    ensures Known(t, a + b) && Lines(t, a + b) == Lines(t, a) + Lines(t, b)
  {
    KnownAppend(t, a, b);
    if a == [] {
      assert a + b == b;
    } else {
      KnownRest(t, a);
      LinesAppend(t, a[1..], b);
      TailOf(a, b);
      Shift(OwnLine(t, a[0].id), Lines(t, a[1..]), Lines(t, b));
    }
  }

  lemma {:induction false} LinesNone(t: Table, part: seq<Span>)
    requires Known(t, part) && forall s :: s in part ==> !Bad(t[s.id])
    ensures Lines(t, part) == []
  {
    if part != [] { LinesNone(t, part[1..]); }
  }

  lemma PreOrderKnown(spans: seq<Span>, cs: seq<Id>)
    requires AllGrounded(TableOf(spans), cs)
    ensures Known(TableOf(spans), PreOrder(spans, cs))
  {
    forall s | s in PreOrder(spans, cs) ensures s.id in TableOf(spans) { PreOrderMembers(spans, cs, s); }
  }

  /** The chain still to be told when the spans `pending` are left. */
  ghost function ChainFrom(spans: seq<Span>, pending: seq<Id>): seq<ChainLine>
    requires AllGrounded(TableOf(spans), pending)
  {
    PreOrderKnown(spans, pending);
    Lines(TableOf(spans), PreOrder(spans, pending))
  }

  ghost function OwnLine(t: Table, x: Id): seq<ChainLine>
    requires x in t
  {
    if Bad(t[x]) then [LineOf(t, x)] else []
  }

  lemma ChainStep(spans: seq<Span>, x: Id, rest: seq<Id>)
    requires Grounded(TableOf(spans), x) && AllGrounded(TableOf(spans), rest)
    ensures AllGrounded(TableOf(spans), [x] + rest) && AllGrounded(TableOf(spans), Kids(spans, x) + rest)
    ensures ChainFrom(spans, [x] + rest) == OwnLine(TableOf(spans), x) + ChainFrom(spans, Kids(spans, x) + rest)
  {
    var t := TableOf(spans);
    PreOrderStep(spans, x, rest);
    PreOrderKnown(spans, Kids(spans, x) + rest);
    LinesAppend(t, [t[x]], PreOrder(spans, Kids(spans, x) + rest));
    assert [t[x]][1..] == [];
  }

  /** A branch without a bad span tells nothing. */
  lemma ChainPrune(spans: seq<Span>, x: Id, rest: seq<Id>)
    requires Grounded(TableOf(spans), x) && AllGrounded(TableOf(spans), rest)
    requires !SubtreeBad(TableOf(spans), x)
    ensures AllGrounded(TableOf(spans), [x] + rest)
    ensures ChainFrom(spans, [x] + rest) == ChainFrom(spans, rest)
  {
    var t := TableOf(spans);
    PreOrderAppend(spans, [x], rest);
    PreOrderKnown(spans, [x]);
    PreOrderKnown(spans, rest);
    LinesAppend(t, PreOrder(spans, [x]), PreOrder(spans, rest));
    RolesCharacterised(t, x);
    forall s | s in PreOrder(spans, [x]) ensures !Bad(t[s.id]) {
      PreOrderMembers(spans, [x], s);
    }
    LinesNone(t, PreOrder(spans, [x]));
  }

  // ----- What the chain and the full chain say together -----

  lemma {:induction false} LinesOfPick(t: Table, part: seq<Span>, keep: set<Id>)
    requires Known(t, part) && forall s :: s in part && Bad(t[s.id]) ==> s.id in keep
    ensures Known(t, Pick(part, keep)) && Lines(t, Pick(part, keep)) == Lines(t, part)
  {
    if part != [] {
      LinesOfPick(t, part[1..], keep);
      if part[0].id in keep {
        assert Pick(part, keep)[1..] == Pick(part[1..], keep);
      }
    }
  }

  /** The narrative has one line per bad span of the full chain, in the order of the full chain. */
  lemma ChainFollowsFullChain(spans: seq<Span>)
    requires Unique(spans)
    ensures AllGrounded(TableOf(spans), Roots(spans))
    ensures Known(TableOf(spans), FailingBranches(spans))
    ensures ChainFrom(spans, Roots(spans)) == Lines(TableOf(spans), FailingBranches(spans))
  {
    var t := TableOf(spans);
    RootsGrounded(spans);
    PreOrderKnown(spans, Roots(spans));
    forall s | s in Listing(spans) && Bad(t[s.id]) ensures s.id in SliceIds(t) {
      PreOrderComplete(spans, s);
    }
    LinesOfPick(t, Listing(spans), SliceIds(t));
  }

  ghost function BadAmong(t: Table, part: seq<Span>): set<Id> {
    set x | x in IdSet(part) && x in t && Bad(t[x])
  }

  lemma IdSetCons(s: Span, rest: seq<Span>)
    ensures IdSet([s] + rest) == {s.id} + IdSet(rest)
  {
    forall r ensures r in [s] + rest <==> r == s || r in rest {}
  }

  lemma BadAmongCons(t: Table, s: Span, rest: seq<Span>)
    requires s.id in t && s.id !in IdSet(rest)
    ensures |BadAmong(t, [s] + rest)| == |BadAmong(t, rest)| + One(Bad(t[s.id]))
  {
    IdSetCons(s, rest);
    assert BadAmong(t, [s] + rest) == if Bad(t[s.id]) then BadAmong(t, rest) + {s.id} else BadAmong(t, rest);
  }

  lemma UniqueTail(part: seq<Span>)
    requires Unique(part) && part != []
    ensures Unique(part[1..]) && part[0].id !in IdSet(part[1..]) && part == [part[0]] + part[1..]
  {
    var rest := part[1..];
    assert forall i :: 0 <= i < |rest| ==> rest[i] == part[i + 1];
  }

  lemma {:induction false} LinesCount(t: Table, part: seq<Span>)
    requires Known(t, part) && Unique(part)
    ensures |Lines(t, part)| == |BadAmong(t, part)|
  {
    if part == [] {
      assert BadAmong(t, part) == {};
    } else {
      UniqueTail(part);
      LinesCount(t, part[1..]);
      assert part[0] in part;
      BadAmongCons(t, part[0], part[1..]);
    }
  }

  lemma ListingIds(spans: seq<Span>, y: Id)
    requires Unique(spans) && y in TableOf(spans)
    ensures y in IdSet(Listing(spans)) <==> y in Under(TableOf(spans), Roots(spans))
  {
    var t := TableOf(spans);
    PreOrderComplete(spans, t[y]);
    UnderRoots(spans, y);
    if s: Span :| s in Listing(spans) && s.id == y { PreOrderComplete(spans, s); }
  }

  lemma BadUnderIds(t: Table, cs: seq<Id>, y: Id)
    ensures y in BadUnder(t, cs) <==> y in Under(t, cs) && Bad(t[y])
  {
    if c :| c in cs && AtOrBelow(t, c, y) {
      var i :| 0 <= i < |cs| && cs[i] == c;
    }
    if y in BadUnder(t, cs) {
      var i :| 0 <= i < |cs| && (cs[i] == y || Anc(t, cs[i], y));
      assert cs[i] in cs && AtOrBelow(t, cs[i], y);
    }
  }

  lemma ToldIsUnder(spans: seq<Span>)
    requires Unique(spans)
    ensures BadAmong(TableOf(spans), Listing(spans)) == BadUnder(TableOf(spans), Roots(spans))
  {
    var t, rs, all := TableOf(spans), Roots(spans), Listing(spans);
    forall y ensures y in BadAmong(t, all) <==> y in BadUnder(t, rs) {
      BadUnderIds(t, rs, y);
      if y in t { ListingIds(spans, y); }
    }
  }

  /** The number of lines: over all roots, the bad descendants and the root's own badness. */
  lemma ChainLength(spans: seq<Span>)
    requires Unique(spans)
    ensures AllGrounded(TableOf(spans), Roots(spans))
    ensures |ChainFrom(spans, Roots(spans))| == SumKids(TableOf(spans), Roots(spans))
  {
    var t, rs := TableOf(spans), Roots(spans);
    ForestUnique(spans);
    PreOrderKnown(spans, rs);
    LinesCount(t, Listing(spans));
    ToldIsUnder(spans);
    RootsNoDup(t, spans);
    SumKidsCounts(t, rs, None);
  }
}
