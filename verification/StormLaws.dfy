/** Which groups of failed calls are retry storms, and which of their spans are suppressed, said over
    the positions of the list. */
module StormLaws {
  import opened Common
  import opened Spans
  import opened Evidence
  import opened RetryStorm

  // ----- Failed calls of one name under one parent -----

  ghost function FailedAt(spans: seq<Span>, name: string, parent: Option<Id>): set<nat> {
    set i: nat | i < |spans| && spans[i].name == name && spans[i].parent == parent && Errs(spans[i].error)
  }

  /** Those with a latency that is not zero and satisfies `p`. */
  ghost function TimedAt(spans: seq<Span>, name: string, parent: Option<Id>, p: real -> bool): set<nat> {
    set i: nat | i in FailedAt(spans, name, parent) && spans[i].latency.Some? && spans[i].latency.value != 0.0
                 && p(spans[i].latency.value)
  }

  /** The upper median of the latencies that are not zero; 1000 when there are none. */
  ghost predicate IsMedian(spans: seq<Span>, name: string, parent: Option<Id>, m: real) {
    var n := |TimedAt(spans, name, parent, x => true)|;
    if n == 0 then m == 1000.0
    else |TimedAt(spans, name, parent, x => x < m)| <= n / 2 < |TimedAt(spans, name, parent, x => x <= m)|
  }

  /** What the calls took together, those without a latency counted with `m`. */
  ghost function Took(spans: seq<Span>, name: string, parent: Option<Id>, m: real): real {
    if spans == [] then 0.0
    else
      var n := |spans| - 1;
      Took(spans[..n], name, parent, m) + (if n in FailedAt(spans, name, parent) then Charge(spans[n], m) else 0.0)
  }

  function Charge(s: Span, m: real): real {
    match s.latency
    case None => m
    case Some(l) => if l == 0.0 then m else l
  }

  ghost predicate Brief(spans: seq<Span>, name: string, parent: Option<Id>, m: real) {
    Took(spans, name, parent, m) <= 2.0 * m * |FailedAt(spans, name, parent)| as real
  }

  /** At least three failed calls, all with a start time, that took at most twice the median each on average. */
  ghost predicate Storms(spans: seq<Span>, name: string, parent: Option<Id>) {
    var at := FailedAt(spans, name, parent);
    && |at| >= 3 && (forall i :: i in at ==> spans[i].startTime != 0)
    && exists m :: IsMedian(spans, name, parent, m) && Brief(spans, name, parent, m)
  }

  // ----- The group in list order -----

  lemma GroupSnoc(spans: seq<Span>, k: Key)
    requires spans != []
    ensures var n := |spans| - 1;
            GroupOf(spans, k) ==
            if n in FailedAt(spans, k.name, k.parent) then GroupOf(spans[..n], k) + [spans[n]]
            else GroupOf(spans[..n], k)
  {
    ErrsIs(spans[|spans| - 1]);
    assert GroupOf(spans[..|spans| - 1], k) + [] == GroupOf(spans[..|spans| - 1], k);
  }

  lemma {:induction false} GroupSize(spans: seq<Span>, k: Key)
    ensures |GroupOf(spans, k)| == |FailedAt(spans, k.name, k.parent)|
    decreases |spans|
  {
    if spans != [] {
      var n := |spans| - 1;
      GroupSize(spans[..n], k);
      GroupSnoc(spans, k);
      FailedSnoc(spans, k.name, k.parent);
    }
  }

  lemma FailedSnoc(spans: seq<Span>, name: string, parent: Option<Id>)
    requires spans != []
    ensures var (n, at) := (|spans| - 1, FailedAt(spans, name, parent));
            |at| == |FailedAt(spans[..n], name, parent)| + One(n in at)
  {
    var n, at := |spans| - 1, FailedAt(spans, name, parent);
    if n in at {
      assert at == FailedAt(spans[..n], name, parent) + {n};
    } else {
      assert at == FailedAt(spans[..n], name, parent);
    }
  }

  lemma TimedSnoc(spans: seq<Span>, name: string, parent: Option<Id>, p: real -> bool)
    requires spans != []
    ensures var (n, at) := (|spans| - 1, TimedAt(spans, name, parent, p));
            |at| == |TimedAt(spans[..n], name, parent, p)| + One(n in at)
  {
    var n, at := |spans| - 1, TimedAt(spans, name, parent, p);
    if n in at {
      assert at == TimedAt(spans[..n], name, parent, p) + {n};
    } else {
      assert at == TimedAt(spans[..n], name, parent, p);
    }
  }

  lemma {:induction false} GroupTook(spans: seq<Span>, k: Key, m: real)
    ensures TotalWindow(GroupOf(spans, k), m) == Took(spans, k.name, k.parent, m)
    decreases |spans|
  {
    if spans != [] {
      var n := |spans| - 1;
      GroupTook(spans[..n], k, m);
      GroupSnoc(spans, k);
      if n in FailedAt(spans, k.name, k.parent) {
        WindowAppend(GroupOf(spans[..n], k), [spans[n]], m);
        assert [spans[n]][1..] == [];
        assert TotalWindow([spans[n]][1..], m) == 0.0;
      }
    }
  }

  // ----- Counting latencies -----

  function CountIf(l: seq<real>, p: real -> bool): nat {
    if l == [] then 0 else CountIf(l[..|l| - 1], p) + One(p(l[|l| - 1]))
  }

  lemma CountSnoc(l: seq<real>, x: real, p: real -> bool)
    ensures CountIf(l + [x], p) == CountIf(l, p) + One(p(x))
  {
    assert (l + [x])[..|l|] == l;
  }

  lemma {:induction false} CountInsert(sorted: seq<real>, x: real, p: real -> bool)
    ensures CountIf(InsertReal(sorted, x), p) == CountIf(sorted, p) + One(p(x))
    decreases |sorted|
  {
    CountSnoc(sorted, x, p);
    if sorted != [] && sorted[|sorted| - 1] > x {
      var init, last := sorted[..|sorted| - 1], sorted[|sorted| - 1];
      CountInsert(init, x, p);
      CountSnoc(InsertReal(init, x), last, p);
    }
  }

  lemma {:induction false} CountSorted(l: seq<real>, p: real -> bool)
    ensures CountIf(SortReals(l), p) == CountIf(l, p)
    decreases |l|
  {
    if l != [] {
      CountSorted(l[..|l| - 1], p);
      CountInsert(SortReals(l[..|l| - 1]), l[|l| - 1], p);
    }
  }

  lemma PresentSnoc(part: seq<Span>, s: Span)
    ensures PresentLatencies(part + [s]) ==
            if s.latency.Some? && s.latency.value != 0.0 then PresentLatencies(part) + [s.latency.value]
            else PresentLatencies(part)
  {
    WindowAppend(part, [s], 0.0);
    assert [s][1..] == [] && PresentLatencies([s][1..]) == [];
    assert PresentLatencies(part) + [] == PresentLatencies(part);
  }

  lemma GroupCountsSnoc(spans: seq<Span>, n: nat, k: Key, p: real -> bool)
    requires n + 1 == |spans|
    ensures CountIf(PresentLatencies(GroupOf(spans, k)), p) ==
            CountIf(PresentLatencies(GroupOf(spans[..n], k)), p) + One(n in TimedAt(spans, k.name, k.parent, p))
  {
    GroupSnoc(spans, k);
    var before := GroupOf(spans[..n], k);
    if n in FailedAt(spans, k.name, k.parent) {
      PresentSnoc(before, spans[n]);
      if spans[n].latency.Some? { CountSnoc(PresentLatencies(before), spans[n].latency.value, p); }
    }
  }

  lemma {:induction false} GroupCounts(spans: seq<Span>, k: Key, p: real -> bool)
    ensures CountIf(PresentLatencies(GroupOf(spans, k)), p) == |TimedAt(spans, k.name, k.parent, p)|
    decreases |spans|
  {
    if spans != [] {
      var n := |spans| - 1;
      GroupCounts(spans[..n], k, p);
      GroupCountsSnoc(spans, n, k, p);
      TimedSnoc(spans, k.name, k.parent, p);
    }
  }

  lemma {:induction false} CountAll(l: seq<real>)
    ensures CountIf(l, x => true) == |l|
    decreases |l|
  {
    if l != [] { CountAll(l[..|l| - 1]); }
  }

  /** In a rising list fewer than `k + 1` values are below the one at `k`, and more than `k` are not above it. */
  lemma {:induction false} RisingCounts(l: seq<real>, k: nat, n: nat)
    requires Rising(l) && k < |l| && n <= |l|
    ensures CountIf(l[..n], x => x < l[k]) <= if n <= k then n else k
    ensures CountIf(l[..n], x => x <= l[k]) >= if n <= k then n else k + 1
    decreases n
  {
    if n > 0 {
      RisingCounts(l, k, n - 1);
      assert l[..n] == l[..n - 1] + [l[n - 1]];
      CountSnoc(l[..n - 1], l[n - 1], x => x < l[k]);
      CountSnoc(l[..n - 1], l[n - 1], x => x <= l[k]);
    }
  }

  // ----- The median -----

  lemma MedianIs(spans: seq<Span>, k: Key)
    ensures IsMedian(spans, k.name, k.parent, MedianLatency(GroupOf(spans, k)))
  {
    var l := PresentLatencies(GroupOf(spans, k));
    GroupCounts(spans, k, x => true);
    CountAll(l);
    if l != [] {
      var r, mid := SortReals(l), |l| / 2;
      SortRealsKeeps(l);
      RisingCounts(r, mid, |r|);
      assert r[..|r|] == r;
      var m := r[mid];
      CountSorted(l, x => x < m);
      CountSorted(l, x => x <= m);
      GroupCounts(spans, k, x => x < m);
      GroupCounts(spans, k, x => x <= m);
    }
  }

  lemma MedianOnce(spans: seq<Span>, name: string, parent: Option<Id>, m: real, n: real)
    requires IsMedian(spans, name, parent, m) && IsMedian(spans, name, parent, n)
    ensures m == n
  {
    if m < n { MedianBelow(spans, name, parent, m, n); }
    if n < m { MedianBelow(spans, name, parent, n, m); }
  }

  lemma MedianBelow(spans: seq<Span>, name: string, parent: Option<Id>, m: real, n: real)
    requires m < n
    ensures |TimedAt(spans, name, parent, x => x <= m)| <= |TimedAt(spans, name, parent, x => x < n)|
  {
    var a, b := TimedAt(spans, name, parent, x => x <= m), TimedAt(spans, name, parent, x => x < n);
    assert a <= b;
    SubsetSize(a, b);
  }

  lemma SubsetSize(a: set<nat>, b: set<nat>)
    requires a <= b
    ensures |a| <= |b|
  {
    assert b == a + (b - a);
  }

  // ----- Storms -----

  lemma StartsNotZero(spans: seq<Span>, k: Key)
    ensures var g := StormGroup(spans, k);
            g != [] ==> (g[0].startTime != 0 && g[|g| - 1].startTime != 0 <==>
                         forall i :: i in FailedAt(spans, k.name, k.parent) ==> spans[i].startTime != 0)
  {
    var g, part := StormGroup(spans, k), GroupOf(spans, k);
    SortKeeps(part);
    if g != [] {
      forall i | i in FailedAt(spans, k.name, k.parent) ensures g[0].startTime <= spans[i].startTime {
        ErrsIs(spans[i]);
        GroupMembers(spans, k, spans[i]);
        InPermutation(part, g, spans[i]);
      }
      InPermutation(g, part, g[0]);
      GroupMembers(spans, k, g[0]);
      ErrsIs(g[0]);
      var i :| 0 <= i < |spans| && spans[i] == g[0];
      assert i in FailedAt(spans, k.name, k.parent);
    }
  }

  lemma StormByPosition(spans: seq<Span>, k: Key, m: real)
    requires m == MedianLatency(StormGroup(spans, k))
    ensures var at := FailedAt(spans, k.name, k.parent);
            IsStorm(StormGroup(spans, k)) <==>
            |at| >= 3 && (forall i :: i in at ==> spans[i].startTime != 0)
            && Tight(Took(spans, k.name, k.parent, m), m, |at|)
  {
    var g, part := StormGroup(spans, k), GroupOf(spans, k);
    SortKeeps(part);
    SameSize(g, part);
    GroupSize(spans, k);
    StartsNotZero(spans, k);
    WindowPermutes(g, part, m);
    GroupTook(spans, k, m);
  }

  lemma MedianOfGroup(spans: seq<Span>, k: Key, m: real)
    requires m == MedianLatency(StormGroup(spans, k))
    ensures forall n :: IsMedian(spans, k.name, k.parent, n) <==> n == m
  {
    SortKeeps(GroupOf(spans, k));
    MedianPermutes(StormGroup(spans, k), GroupOf(spans, k));
    MedianIs(spans, k);
    forall n | IsMedian(spans, k.name, k.parent, n) ensures n == m { MedianOnce(spans, k.name, k.parent, m, n); }
  }

  /** The test on a sorted group means what it says about the calls of that name and parent. */
  lemma StormExactly(spans: seq<Span>, k: Key)
    ensures IsStorm(StormGroup(spans, k)) <==> Storms(spans, k.name, k.parent)
  {
    var m := MedianLatency(StormGroup(spans, k));
    var at := FailedAt(spans, k.name, k.parent);
    StormByPosition(spans, k, m);
    MedianOfGroup(spans, k, m);
    assert Brief(spans, k.name, k.parent, m) <==> Tight(Took(spans, k.name, k.parent, m), m, |at|);
  }

  /** The flag of the response: some name and parent have a storm. */
  lemma SomeStormExactly(spans: seq<Span>)
    ensures SomeStorm(spans) <==> exists name, parent :: Storms(spans, name, parent)
  {
    forall k: Key ensures IsStorm(StormGroup(spans, k)) <==> Storms(spans, k.name, k.parent) { StormExactly(spans, k); }
    if name, parent :| Storms(spans, name, parent) { assert IsStorm(StormGroup(spans, Key(name, parent))); }
  }

  // ----- Suppression -----

  /** `i` comes before `j` by start time, then by position. */
  predicate Sooner(spans: seq<Span>, i: nat, j: nat) {
    i < |spans| && j < |spans|
    && (spans[i].startTime < spans[j].startTime || (spans[i].startTime == spans[j].startTime && i < j))
  }

  lemma {:induction false} InsertStartHead(sorted: seq<Span>, s: Span)
    requires ByStart(sorted)
    ensures InsertByStart(sorted, s) != []
    ensures InsertByStart(sorted, s)[0] ==
            if sorted == [] || s.startTime < sorted[0].startTime then s else sorted[0]
    decreases |sorted|
  {
    if sorted != [] {
      var k := |sorted| - 1;
      if s.startTime < sorted[k].startTime { InsertStartHead(sorted[..k], s); }
    }
  }

  lemma SortSnoc(part: seq<Span>, s: Span)
    ensures SortByStart(part + [s]) == InsertByStart(SortByStart(part), s)
  {
    assert (part + [s])[..|part|] == part;
  }

  /** `i` is the soonest of the failed calls, and the sorted group begins with it. */
  ghost predicate Heads(spans: seq<Span>, k: Key, i: nat) {
    && i in FailedAt(spans, k.name, k.parent) && StormGroup(spans, k) != [] && StormGroup(spans, k)[0] == spans[i]
    && forall j :: j in FailedAt(spans, k.name, k.parent) && j != i ==> Sooner(spans, i, j)
  }

  lemma FailedPrefix(spans: seq<Span>, n: nat, name: string, parent: Option<Id>)
    requires n + 1 == |spans|
    ensures forall i :: i in FailedAt(spans, name, parent) && i != n <==> i in FailedAt(spans[..n], name, parent)
  {}

  lemma HeadsFirst(spans: seq<Span>, k: Key, n: nat)
    requires n + 1 == |spans| && n in FailedAt(spans, k.name, k.parent) && FailedAt(spans[..n], k.name, k.parent) == {}
    ensures Heads(spans, k, n)
  {
    GroupSize(spans[..n], k);
    GroupSnoc(spans, k);
    FailedPrefix(spans, n, k.name, k.parent);
    assert GroupOf(spans[..n], k) == [];
    SortSnoc([], spans[n]);
  }

  lemma HeadsLater(spans: seq<Span>, k: Key, n: nat, i: nat)
    requires n + 1 == |spans| && n in FailedAt(spans, k.name, k.parent) && Heads(spans[..n], k, i)
    ensures Heads(spans, k, if spans[n].startTime < spans[i].startTime then n else i)
  {
    GroupSnoc(spans, k);
    FailedPrefix(spans, n, k.name, k.parent);
    SortKeeps(GroupOf(spans[..n], k));
    SortSnoc(GroupOf(spans[..n], k), spans[n]);
    InsertStartHead(SortByStart(GroupOf(spans[..n], k)), spans[n]);
  }

  lemma HeadsStill(spans: seq<Span>, k: Key, n: nat, i: nat)
    requires n + 1 == |spans| && n !in FailedAt(spans, k.name, k.parent) && Heads(spans[..n], k, i)
    ensures Heads(spans, k, i)
  {
    GroupSnoc(spans, k);
    FailedPrefix(spans, n, k.name, k.parent);
  }

  /** The first of a sorted group is the soonest of the failed calls. */
  lemma {:induction false} GroupHead(spans: seq<Span>, k: Key) returns (i: nat)
    requires FailedAt(spans, k.name, k.parent) != {}
    ensures Heads(spans, k, i)
    decreases |spans|
  {
    var n := |spans| - 1;
    FailedPrefix(spans, n, k.name, k.parent);
    if n !in FailedAt(spans, k.name, k.parent) {
      i := GroupHead(spans[..n], k);
      HeadsStill(spans, k, n, i);
    } else if FailedAt(spans[..n], k.name, k.parent) == {} {
      i := n;
      HeadsFirst(spans, k, n);
    } else {
      i := GroupHead(spans[..n], k);
      HeadsLater(spans, k, n, i);
      if spans[n].startTime < spans[i].startTime { i := n; }
    }
  }

  lemma SuppressedById(spans: seq<Span>, j: nat)
    requires Unique(spans) && j < |spans|
    ensures spans[j].id in SuppressedIds(spans) <==> Suppressed(spans, spans[j])
  {
    assert spans[j] in spans;
    if spans[j].id in SuppressedIds(spans) {
      var r :| r in spans && Suppressed(spans, r) && r.id == spans[j].id;
      var i :| 0 <= i < |spans| && spans[i] == r;
    }
  }

  /** Suppressed are the failed calls of a storm that come after another one of it. */
  lemma SuppressedExactly(spans: seq<Span>, j: nat)
    requires Unique(spans) && j < |spans|
    ensures spans[j].id in SuppressedIds(spans) <==>
            var at := FailedAt(spans, spans[j].name, spans[j].parent);
            j in at && Storms(spans, spans[j].name, spans[j].parent) && exists i :: i in at && Sooner(spans, i, j)
  {
    var s, k := spans[j], KeyOf(spans[j]);
    var at := FailedAt(spans, s.name, s.parent);
    ErrsIs(s);
    StormExactly(spans, k);
    SuppressedById(spans, j);
    if j in at {
      var i := GroupHead(spans, k);
    }
  }
}
