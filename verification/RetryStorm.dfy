/** Retry storms: repeated failures of one call, of which only the first is blamed. */
module RetryStorm {
  import opened Common
  import opened Spans

  const RETRY_STORM_MIN_COUNT := 3
  const FALLBACK_LATENCY := 1000.0

  datatype Key = Key(name: string, parent: Option<Id>)

  function KeyOf(s: Span): Key {
    Key(s.name, s.parent)
  }

  /** The failed spans of one group, in list order. */
  function GroupOf(part: seq<Span>, k: Key): seq<Span> {
    if part == [] then []
    else
      var s := part[|part| - 1];
      GroupOf(part[..|part| - 1], k) + (if KeyOf(s) == k && HasError(s) then [s] else [])
  }

  lemma {:induction false} GroupMembers(part: seq<Span>, k: Key, s: Span)
    ensures s in GroupOf(part, k) <==> s in part && KeyOf(s) == k && HasError(s)
    decreases |part|
  {
    if part != [] {
      assert part == part[..|part| - 1] + [part[|part| - 1]];
      GroupMembers(part[..|part| - 1], k, s);
    }
  }

  lemma {:induction false} GroupUnique(part: seq<Span>, k: Key)
    requires Unique(part)
    ensures Unique(GroupOf(part, k))
    decreases |part|
  {
    if part != [] {
      var rest, s := part[..|part| - 1], part[|part| - 1];
      UniqueInit(part);
      GroupUnique(rest, k);
      forall r | r in GroupOf(rest, k) ensures r.id != s.id { GroupMembers(rest, k, r); }
      UniqueSnoc(GroupOf(rest, k), s);
    }
  }

  lemma UniqueSnoc(part: seq<Span>, s: Span)
    requires Unique(part) && forall r :: r in part ==> r.id != s.id
    ensures Unique(part + [s])
  {
    forall i | 0 <= i < |part| ensures part[i].id != s.id { assert part[i] in part; }
  }

  // ----- Sorting -----

  /** `list.sort(key=start_time)`: stable. */
  function InsertByStart(sorted: seq<Span>, s: Span): seq<Span> {
    if sorted == [] || sorted[|sorted| - 1].startTime <= s.startTime then sorted + [s]
    else InsertByStart(sorted[..|sorted| - 1], s) + [sorted[|sorted| - 1]]
  }

  function SortByStart(part: seq<Span>): seq<Span> {
    if part == [] then [] else InsertByStart(SortByStart(part[..|part| - 1]), part[|part| - 1])
  }

  ghost predicate ByStart(part: seq<Span>) {
    forall i, j :: 0 <= i < j < |part| ==> part[i].startTime <= part[j].startTime
  }

  lemma {:induction false} InsertPermutes(sorted: seq<Span>, s: Span)
    ensures multiset(InsertByStart(sorted, s)) == multiset(sorted) + multiset{s}
    decreases |sorted|
  {
    if sorted != [] {
      var k := |sorted| - 1;
      assert sorted == sorted[..k] + [sorted[k]];
      if sorted[k].startTime > s.startTime { InsertPermutes(sorted[..k], s); }
    }
  }

  lemma ByStartSnoc(part: seq<Span>, s: Span)
    requires ByStart(part) && forall r :: r in part ==> r.startTime <= s.startTime
    ensures ByStart(part + [s])
  {
    assert forall i :: 0 <= i < |part| ==> part[i] in part;
  }

  lemma {:induction false} InsertSorts(sorted: seq<Span>, s: Span)
    requires ByStart(sorted)
    ensures ByStart(InsertByStart(sorted, s))
    decreases |sorted|
  {
    if sorted == [] {
    } else {
      var k := |sorted| - 1;
      if sorted[k].startTime > s.startTime {
        InsertSorts(sorted[..k], s);
        InsertPermutes(sorted[..k], s);
        var r := InsertByStart(sorted[..k], s);
        forall x | x in r ensures x.startTime <= sorted[k].startTime { assert x in multiset(r); }
        ByStartSnoc(r, sorted[k]);
      } else {
        forall x | x in sorted ensures x.startTime <= s.startTime {}
        ByStartSnoc(sorted, s);
      }
    }
  }

  /** Sorting keeps the spans and orders them by start. */
  lemma {:induction false} SortKeeps(part: seq<Span>)
    ensures ByStart(SortByStart(part)) && multiset(SortByStart(part)) == multiset(part)
    decreases |part|
  {
    if part != [] {
      assert part == part[..|part| - 1] + [part[|part| - 1]];
      SortKeeps(part[..|part| - 1]);
      InsertSorts(SortByStart(part[..|part| - 1]), part[|part| - 1]);
      InsertPermutes(SortByStart(part[..|part| - 1]), part[|part| - 1]);
    }
  }

  function InsertReal(sorted: seq<real>, x: real): seq<real> {
    if sorted == [] || sorted[|sorted| - 1] <= x then sorted + [x]
    else InsertReal(sorted[..|sorted| - 1], x) + [sorted[|sorted| - 1]]
  }

  function SortReals(l: seq<real>): (r: seq<real>)
    ensures |r| == |l|
  {
    if l == [] then []
    else
      InsertRealSize(SortReals(l[..|l| - 1]), l[|l| - 1]);
      InsertReal(SortReals(l[..|l| - 1]), l[|l| - 1])
  }

  lemma InsertRealSize(sorted: seq<real>, x: real)
    ensures |InsertReal(sorted, x)| == |sorted| + 1
    decreases |sorted|
  {
    if sorted != [] && sorted[|sorted| - 1] > x { InsertRealSize(sorted[..|sorted| - 1], x); }
  }

  ghost predicate Rising(l: seq<real>) {
    forall i, j :: 0 <= i < j < |l| ==> l[i] <= l[j]
  }

  lemma RisingSnoc(l: seq<real>, x: real)
    requires Rising(l) && forall y :: y in l ==> y <= x
    ensures Rising(l + [x])
  {
    forall i | 0 <= i < |l| ensures l[i] <= x { assert l[i] in l; }
  }

  lemma {:induction false} InsertRealKeeps(sorted: seq<real>, x: real)
    requires Rising(sorted)
    ensures multiset(InsertReal(sorted, x)) == multiset(sorted) + multiset{x} && Rising(InsertReal(sorted, x))
    decreases |sorted|
  {
    if sorted != [] && sorted[|sorted| - 1] > x {
      var init, last := sorted[..|sorted| - 1], sorted[|sorted| - 1];
      assert sorted == init + [last];
      InsertRealKeeps(init, x);
      var r := InsertReal(init, x);
      forall y | y in r ensures y <= last { assert y in multiset(r); }
      RisingSnoc(r, last);
    } else {
      RisingSnoc(sorted, x);
    }
  }

  /** The median is taken from the latencies in rising order. */
  lemma {:induction false} SortRealsKeeps(l: seq<real>)
    ensures Rising(SortReals(l)) && multiset(SortReals(l)) == multiset(l)
    decreases |l|
  {
    if l != [] {
      SortRealsKeeps(l[..|l| - 1]);
      InsertRealKeeps(SortReals(l[..|l| - 1]), l[|l| - 1]);
      assert l == l[..|l| - 1] + [l[|l| - 1]];
    }
  }

  // ----- The verdict on one group -----

  /** Latencies that are present and not zero. */
  function PresentLatencies(part: seq<Span>): seq<real> {
    if part == [] then []
    else
      var l := part[0].latency;
      (if l.Some? && l.value != 0.0 then [l.value] else []) + PresentLatencies(part[1..])
  }

  function MedianLatency(part: seq<Span>): real {
    var l := PresentLatencies(part);
    if l == [] then FALLBACK_LATENCY else SortReals(l)[|l| / 2]
  }

  function TotalWindow(part: seq<Span>, median: real): real {
    if part == [] then 0.0 else LatencyOr(part[0], median) + TotalWindow(part[1..], median)
  }

  function LatencyOr(s: Span, median: real): real {
    if s.latency.Some? && s.latency.value != 0.0 then s.latency.value else median
  }

  predicate Tight(window: real, median: real, n: nat) {
    window <= 2.0 * median * n as real
  }

  /** The test on one group of failed spans, sorted by start. */
  predicate IsStorm(sorted: seq<Span>) {
    && |sorted| >= RETRY_STORM_MIN_COUNT
    && sorted[0].startTime != 0 && sorted[|sorted| - 1].startTime != 0
    && var median := MedianLatency(sorted);
       Tight(TotalWindow(sorted, median), median, |sorted|)
  }

  function Repeated(bound: real, n: nat): real {
    if n == 0 then 0.0 else bound + Repeated(bound, n - 1)
  }

  lemma {:induction false} RepeatedIs(bound: real, n: nat)
    ensures Repeated(bound, n) == bound * n as real
  {
    if n > 0 { RepeatedIs(bound, n - 1); }
  }

  lemma {:induction false} EvenWindow(part: seq<Span>, median: real, bound: real)
    requires median <= bound && forall s :: s in part && s.latency.Some? ==> s.latency.value <= bound
    ensures TotalWindow(part, median) <= Repeated(bound, |part|)
    decreases |part|
  {
    if part != [] {
      EvenWindow(part[1..], median, bound);
      assert part[0] in part;
    }
  }

  /** The window test only spares a group in which some call took more than twice the median. */
  lemma EvenGroupIsStorm(sorted: seq<Span>)
    requires |sorted| >= RETRY_STORM_MIN_COUNT && sorted[0].startTime != 0 && sorted[|sorted| - 1].startTime != 0
    requires MedianLatency(sorted) >= 0.0
    requires forall s :: s in sorted && s.latency.Some? ==> s.latency.value <= 2.0 * MedianLatency(sorted)
    ensures IsStorm(sorted)
  {
    EvenWindow(sorted, MedianLatency(sorted), 2.0 * MedianLatency(sorted));
    RepeatedIs(2.0 * MedianLatency(sorted), |sorted|);
  }

  function StormGroup(spans: seq<Span>, k: Key): seq<Span> {
    SortByStart(GroupOf(spans, k))
  }

  ghost predicate Suppressed(spans: seq<Span>, s: Span) {
    && s in spans && HasError(s)
    && var g := StormGroup(spans, KeyOf(s)); IsStorm(g) && g[0].id != s.id
  }

  /** All repeated failures of all storms. */
  ghost function SuppressedIds(spans: seq<Span>): set<Id> {
    set s | s in spans && Suppressed(spans, s) :: s.id
  }

  ghost predicate SomeStorm(spans: seq<Span>) {
    exists k :: IsStorm(StormGroup(spans, k))
  }

  // ----- Order of the list -----

  lemma {:induction false} GroupCounts(part: seq<Span>, k: Key, s: Span)
    ensures multiset(GroupOf(part, k))[s] == if KeyOf(s) == k && HasError(s) then multiset(part)[s] else 0
    decreases |part|
  {
    if part != [] {
      assert part == part[..|part| - 1] + [part[|part| - 1]];
      GroupCounts(part[..|part| - 1], k, s);
    }
  }

  lemma StormGroupPermutes(a: seq<Span>, b: seq<Span>, k: Key)
    requires multiset(a) == multiset(b)
    ensures multiset(StormGroup(a, k)) == multiset(StormGroup(b, k))
    ensures ByStart(StormGroup(a, k)) && ByStart(StormGroup(b, k))
  {
    forall s ensures multiset(GroupOf(a, k))[s] == multiset(GroupOf(b, k))[s] {
      GroupCounts(a, k, s);
      GroupCounts(b, k, s);
    }
    assert multiset(GroupOf(a, k)) == multiset(GroupOf(b, k));
    SortKeeps(GroupOf(a, k));
    SortKeeps(GroupOf(b, k));
  }

  lemma InPermutation(a: seq<Span>, b: seq<Span>, s: Span)
    requires multiset(a) == multiset(b) && s in a
    ensures s in b
  {
    assert s in multiset(b);
  }

  lemma SameSize(a: seq<Span>, b: seq<Span>)
    requires multiset(a) == multiset(b)
    ensures |a| == |b|
  {
    assert |multiset(a)| == |multiset(b)|;
  }

  /** Sorted lists of the same spans begin and end at the same times. */
  lemma SameEnds(a: seq<Span>, b: seq<Span>)
    requires multiset(a) == multiset(b) && ByStart(a) && ByStart(b) && a != []
    ensures |a| == |b|
    ensures a[0].startTime == b[0].startTime && a[|a| - 1].startTime == b[|b| - 1].startTime
  {
    SameSize(a, b);
    EndsBound(a, b);
    EndsBound(b, a);
  }

  lemma EndsBound(a: seq<Span>, b: seq<Span>)
    requires multiset(a) == multiset(b) && ByStart(b) && a != [] && b != []
    ensures b[0].startTime <= a[0].startTime && a[|a| - 1].startTime <= b[|b| - 1].startTime
  {
    InPermutation(a, b, a[0]);
    InPermutation(a, b, a[|a| - 1]);
  }

  lemma LastIsBiggest(a: seq<real>, b: seq<real>)
    requires Rising(a) && multiset(a) == multiset(b) && a != [] && b != []
    ensures b[|b| - 1] <= a[|a| - 1]
  {
    assert b[|b| - 1] in multiset(a);
  }

  lemma InitOf(a: seq<real>)
    requires a != []
    ensures multiset(a[..|a| - 1]) == multiset(a) - multiset{a[|a| - 1]}
  {
    assert a == a[..|a| - 1] + [a[|a| - 1]];
  }

  /** A rising list is determined by its members. */
  lemma {:induction false} RisingUnique(a: seq<real>, b: seq<real>)
    requires Rising(a) && Rising(b) && multiset(a) == multiset(b)
    ensures a == b
    decreases |a|
  {
    assert |multiset(a)| == |multiset(b)|;
    if a != [] {
      LastIsBiggest(a, b);
      LastIsBiggest(b, a);
      InitOf(a);
      InitOf(b);
      RisingUnique(a[..|a| - 1], b[..|b| - 1]);
    }
  }

  lemma {:induction false} WindowAppend(a: seq<Span>, b: seq<Span>, median: real)
    ensures PresentLatencies(a + b) == PresentLatencies(a) + PresentLatencies(b)
    ensures TotalWindow(a + b, median) == TotalWindow(a, median) + TotalWindow(b, median)
  {
    if a == [] { assert a + b == b; } else {
      assert (a + b)[1..] == a[1..] + b;
      WindowAppend(a[1..], b, median);
    }
  }

  lemma WithoutOne(s: Span, rest: seq<Span>, before: seq<Span>, after: seq<Span>)
    requires multiset([s] + rest) == multiset(before + ([s] + after))
    ensures multiset(rest) == multiset(before + after)
  {
    assert multiset([s] + rest) == multiset{s} + multiset(rest);
    assert multiset(before + ([s] + after)) == multiset(before) + (multiset{s} + multiset(after));
    assert multiset(before + after) == multiset(before) + multiset(after);
    assert multiset(rest) == multiset([s] + rest) - multiset{s};
    assert multiset(before + after) == multiset(before + ([s] + after)) - multiset{s};
  }

  /** The first span of a list, taken out of a permutation of it. */
  lemma TakenOut(a: seq<Span>, b: seq<Span>) returns (before: seq<Span>, after: seq<Span>)
    requires multiset(a) == multiset(b) && a != []
    ensures a == [a[0]] + a[1..] && b == before + ([a[0]] + after)
    ensures multiset(a[1..]) == multiset(before + after)
  {
    InPermutation(a, b, a[0]);
    var j :| 0 <= j < |b| && b[j] == a[0];
    before, after := b[..j], b[j + 1..];
    assert a == [a[0]] + a[1..] && b == before + ([a[0]] + after);
    WithoutOne(a[0], a[1..], before, after);
  }

  lemma WindowMoved(s: Span, before: seq<Span>, after: seq<Span>, median: real)
    ensures multiset(PresentLatencies(before + ([s] + after))) ==
            multiset(PresentLatencies([s])) + multiset(PresentLatencies(before + after))
    ensures TotalWindow(before + ([s] + after), median) ==
            TotalWindow([s], median) + TotalWindow(before + after, median)
  {
    WindowAppend(before, after, median);
    WindowAppend(before, [s] + after, median);
    WindowAppend([s], after, median);
  }

  /** The latencies of a group and their total depend on its spans only. */
  lemma {:induction false} WindowPermutes(a: seq<Span>, b: seq<Span>, median: real)
    requires multiset(a) == multiset(b)
    ensures multiset(PresentLatencies(a)) == multiset(PresentLatencies(b))
    ensures TotalWindow(a, median) == TotalWindow(b, median)
  {
    SameSize(a, b);
    if a != [] {
      var before, after := TakenOut(a, b);
      WindowPermutes(a[1..], before + after, median);
      WindowAppend([a[0]], a[1..], median);
      WindowMoved(a[0], before, after, median);
    }
  }

  lemma MedianPermutes(a: seq<Span>, b: seq<Span>)
    requires multiset(a) == multiset(b)
    ensures MedianLatency(a) == MedianLatency(b)
  {
    WindowPermutes(a, b, 0.0);
    var l, m := PresentLatencies(a), PresentLatencies(b);
    assert |multiset(l)| == |multiset(m)|;
    SortRealsKeeps(l);
    SortRealsKeeps(m);
    RisingUnique(SortReals(l), SortReals(m));
  }

  lemma SameWindow(g: seq<Span>, h: seq<Span>)
    requires multiset(g) == multiset(h) && ByStart(g) && ByStart(h)
    ensures IsStorm(g) <==> IsStorm(h)
  {
    SameSize(g, h);
    if g != [] {
      SameEnds(g, h);
      MedianPermutes(g, h);
      var median := MedianLatency(g);
      WindowPermutes(g, h, median);
      assert Tight(TotalWindow(g, median), median, |g|) <==> Tight(TotalWindow(h, median), median, |h|);
    }
  }

  /** Whether a group is a storm does not depend on the order of the list. */
  lemma StormPermutes(a: seq<Span>, b: seq<Span>, k: Key)
    requires multiset(a) == multiset(b)
    ensures IsStorm(StormGroup(a, k)) <==> IsStorm(StormGroup(b, k))
  {
    StormGroupPermutes(a, b, k);
    SameWindow(StormGroup(a, k), StormGroup(b, k));
  }

  ghost predicate Earliest(part: seq<Span>, s: Span) {
    s in part && forall r :: r in part ==> s.startTime <= r.startTime
  }

  /** Each storm has one earliest failure, so there is no doubt which one is kept. */
  ghost predicate ClearStorms(spans: seq<Span>) {
    forall k, r, s ::
      IsStorm(StormGroup(spans, k)) && Earliest(GroupOf(spans, k), r) && Earliest(GroupOf(spans, k), s) ==> r == s
  }

  lemma HeadIsEarliest(a: seq<Span>, b: seq<Span>, k: Key)
    requires multiset(a) == multiset(b) && StormGroup(b, k) != []
    ensures Earliest(GroupOf(a, k), StormGroup(b, k)[0])
  {
    var h, part := StormGroup(b, k), GroupOf(a, k);
    StormGroupPermutes(a, b, k);
    SortKeeps(part);
    InPermutation(h, part, h[0]);
    forall r | r in part ensures h[0].startTime <= r.startTime { InPermutation(part, h, r); }
  }

  lemma SuppressedOrder(a: seq<Span>, b: seq<Span>, s: Span)
    requires multiset(a) == multiset(b) && ClearStorms(a)
    ensures Suppressed(a, s) <==> Suppressed(b, s)
  {
    var k := KeyOf(s);
    assert s in a <==> s in multiset(a);
    assert s in b <==> s in multiset(b);
    StormPermutes(a, b, k);
    if IsStorm(StormGroup(a, k)) {
      HeadIsEarliest(a, a, k);
      HeadIsEarliest(a, b, k);
    }
  }

  lemma {:induction false} InsertKeepsHead(sorted: seq<Span>, s: Span)
    requires sorted != [] && sorted[0].startTime <= s.startTime
    ensures InsertByStart(sorted, s) != [] && InsertByStart(sorted, s)[0] == sorted[0]
    decreases |sorted|
  {
    if sorted[|sorted| - 1].startTime > s.startTime { InsertKeepsHead(sorted[..|sorted| - 1], s); }
  }

  /** The sort is stable: an earliest span listed first stays first. */
  lemma {:induction false} SortKeepsHead(part: seq<Span>)
    requires part != [] && forall r :: r in part ==> part[0].startTime <= r.startTime
    ensures SortByStart(part) != [] && SortByStart(part)[0] == part[0]
    decreases |part|
  {
    if |part| > 1 {
      var k := |part| - 1;
      SortKeepsHead(part[..k]);
      InsertKeepsHead(SortByStart(part[..k]), part[k]);
    }
  }

  lemma {:induction false} GroupCons(s: Span, rest: seq<Span>, k: Key)
    requires KeyOf(s) == k && HasError(s)
    ensures GroupOf([s] + rest, k) == [s] + GroupOf(rest, k)
    decreases |rest|
  {
    if rest != [] {
      var n := |rest| - 1;
      assert ([s] + rest)[..n + 1] == [s] + rest[..n];
      GroupCons(s, rest[..n], k);
    }
  }

  function MoveFirst(a: seq<Span>, i: nat): (b: seq<Span>)
    requires i < |a|
    ensures multiset(a) == multiset(b)
  {
    assert a == a[..i] + ([a[i]] + a[i + 1..]);
    [a[i]] + (a[..i] + a[i + 1..])
  }

  lemma StillEarliest(a: seq<Span>, b: seq<Span>, k: Key, s: Span)
    requires multiset(a) == multiset(b) && Earliest(GroupOf(a, k), s)
    ensures Earliest(GroupOf(b, k), s)
  {
    forall r ensures r in GroupOf(a, k) <==> r in GroupOf(b, k) {
      GroupCounts(a, k, r);
      GroupCounts(b, k, r);
      assert r in GroupOf(a, k) <==> r in multiset(GroupOf(a, k));
      assert r in GroupOf(b, k) <==> r in multiset(GroupOf(b, k));
    }
  }

  /** Listed first, an earliest failure of a storm is the one kept. */
  lemma MovedFirst(a: seq<Span>, k: Key, s: Span) returns (b: seq<Span>)
    requires IsStorm(StormGroup(a, k)) && Earliest(GroupOf(a, k), s)
    ensures multiset(a) == multiset(b) && IsStorm(StormGroup(b, k)) && StormGroup(b, k)[0] == s
  {
    GroupMembers(a, k, s);
    var i :| 0 <= i < |a| && a[i] == s;
    b := MoveFirst(a, i);
    StormPermutes(a, b, k);
    StillEarliest(a, b, k, s);
    GroupCons(s, a[..i] + a[i + 1..], k);
    SortKeepsHead(GroupOf(b, k));
  }

  ghost predicate SuppressedAlike(a: seq<Span>, b: seq<Span>) {
    multiset(a) == multiset(b) ==> SuppressedIds(a) == SuppressedIds(b)
  }

  lemma DoubtShows(a: seq<Span>, k: Key, r: Span, s: Span)
    requires Unique(a) && IsStorm(StormGroup(a, k)) && r != s
    requires Earliest(GroupOf(a, k), r) && Earliest(GroupOf(a, k), s)
    ensures exists b :: !SuppressedAlike(a, b)
  {
    var b := MovedFirst(a, k, r);
    var c := MovedFirst(a, k, s);
    GroupMembers(a, k, r);
    GroupMembers(a, k, s);
    InPermutation(a, b, r);
    InPermutation(a, c, r);
    UniquePermutation(a, b);
    assert r.id != s.id;
    assert Suppressed(c, r) && r.id in SuppressedIds(c);
    assert !Suppressed(b, r) && r.id !in SuppressedIds(b);
    assert !SuppressedAlike(a, b) || !SuppressedAlike(a, c);
  }

  /** Reordering the list never changes which groups are storms; it never changes which spans are
      suppressed exactly when each storm has one earliest failure. */
  lemma SuppressionOrder(a: seq<Span>)
    requires Unique(a)
    ensures forall b :: multiset(a) == multiset(b) ==> (SomeStorm(a) <==> SomeStorm(b))
    ensures (forall b :: SuppressedAlike(a, b)) <==> ClearStorms(a)
  {
    forall b | multiset(a) == multiset(b) ensures SomeStorm(a) <==> SomeStorm(b) {
      forall k ensures IsStorm(StormGroup(a, k)) <==> IsStorm(StormGroup(b, k)) { StormPermutes(a, b, k); }
    }
    if ClearStorms(a) {
      forall b ensures SuppressedAlike(a, b) {
        if multiset(a) == multiset(b) {
          forall s ensures Suppressed(a, s) <==> Suppressed(b, s) { SuppressedOrder(a, b, s); }
        }
      }
    } else {
      var k, r, s :| IsStorm(StormGroup(a, k)) && Earliest(GroupOf(a, k), r) && Earliest(GroupOf(a, k), s) && r != s;
      DoubtShows(a, k, r, s);
    }
  }

  /** A storm keeps one failed span of its group, so suppression never empties a group. */
  lemma StormKeepsFirst(spans: seq<Span>, k: Key)
    requires IsStorm(StormGroup(spans, k))
    ensures var first := StormGroup(spans, k)[0];
            first in spans && HasError(first) && KeyOf(first) == k && !Suppressed(spans, first)
  {
    var g := StormGroup(spans, k);
    SortKeeps(GroupOf(spans, k));
    assert g[0] in multiset(g);
    GroupMembers(spans, k, g[0]);
  }
}
