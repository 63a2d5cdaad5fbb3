/** Spans of one trace, and the forest their parent pointers describe.

    A trace is a list of spans; the blame engine keys them by id.  Everything that does not
    depend on the order of the list is stated here over the table `map<Id, Span>`. */
module Spans {
  import opened Common
  import opened JsonValues

  type Id = string

  /** `startTime` is the ISO timestamp as an ordered key, 0 when it is missing or empty;
      `tokens` is `token_usage.total_tokens`. */
  datatype Span = Span(
    id: Id,
    parent: Option<Id>,
    name: string,
    startTime: nat,
    latency: Option<real>,
    tokens: Option<int>,
    confidence: Option<real>,
    input: Json,
    output: Json,
    error: Json,
    sources: seq<Id>
  )

  type Table = map<Id, Span>

  // ----- Intrinsic state -----

  predicate HasError(s: Span) {
    match s.error
    case Null => false
    case Obj(fields) =>
      var message := Get(fields, "message");
      var kind := Get(fields, "type");
      (message.Some? && Truthy(message.value)) || (kind.Some? && Truthy(kind.value))
    case e => Truthy(e)
  }

  predicate NullOutput(s: Span) {
    s.output == Null
  }

  predicate EmptyOutput(s: Span) {
    match s.output
    case Obj(fields) => fields == []
    case Arr(items) => items == []
    case Str(text) => Strip(text) in {"", "null", "None", "{}"}
    case _ => false
  }

  predicate BadInput(s: Span) {
    match s.input
    case Obj(fields) =>
      || fields == []
      || (var args := Get(fields, "args");
          args.Some? && args.value.Arr? && Null in args.value.items)
    case Str(text) => Strip(text) in {"", "null", "None"}
    case _ => false
  }

  predicate Bad(s: Span) {
    HasError(s) || NullOutput(s) || EmptyOutput(s)
  }

  // ----- Tables and parents -----

  function IdSet(spans: seq<Span>): set<Id> {
    set s | s in spans :: s.id
  }

  lemma IdSetSnoc(part: seq<Span>, s: Span)
    ensures IdSet(part + [s]) == IdSet(part) + {s.id}
  {
    forall r ensures r in part + [s] <==> r in part || r == s {}
  }

  ghost predicate Unique(spans: seq<Span>) {
    forall i, j :: 0 <= i < j < |spans| ==> spans[i].id != spans[j].id
  }

  ghost function SpanWith(spans: seq<Span>, x: Id): (s: Span)
    requires x in IdSet(spans)
    ensures s in spans && s.id == x
  {
    var s :| s in spans && s.id == x;
    s
  }

  /** The dictionary from ids to spans; every id stands for one span when ids are unique. */
  ghost function TableOf(spans: seq<Span>): (t: Table)
    ensures t.Keys == IdSet(spans)
    ensures forall x :: x in t ==> t[x].id == x && t[x] in spans
  {
    map x | x in IdSet(spans) :: SpanWith(spans, x)
  }

  lemma TableAt(spans: seq<Span>, i: nat)
    requires Unique(spans) && i < |spans|
    ensures spans[i].id in TableOf(spans) && TableOf(spans)[spans[i].id] == spans[i]
  {
    assert spans[i] in spans;
    var s := TableOf(spans)[spans[i].id];
    var j :| 0 <= j < |spans| && spans[j] == s;
  }

  lemma TableIn(spans: seq<Span>, s: Span)
    requires Unique(spans) && s in spans
    ensures s.id in TableOf(spans) && TableOf(spans)[s.id] == s
  {
    var i :| 0 <= i < |spans| && spans[i] == s;
    TableAt(spans, i);
  }

  /** The parent the tree builder uses: absent, empty and dangling parent ids make a root. */
  function Par(t: Table, x: Id): (p: Option<Id>)
    ensures p.Some? ==> p.value in t
  {
    if x in t && t[x].parent.Some? && t[x].parent.value != "" && t[x].parent.value in t
    then t[x].parent else None
  }

  /** The `k`-th ancestor of `x`; `x` itself for `k == 0`. */
  function Up(t: Table, x: Id, k: nat): Option<Id>
    decreases k
  {
    if k == 0 then Some(x)
    else match Par(t, x)
         case None => None
         case Some(p) => Up(t, p, k - 1)
  }

  /** `a` is a strict ancestor of `x`. */
  ghost predicate Anc(t: Table, a: Id, x: Id) {
    exists k: nat :: k > 0 && Up(t, x, k) == Some(a)
  }

  /** The parent chain of `x` ends at a root. */
  ghost predicate Grounded(t: Table, x: Id) {
    x in t && exists k: nat :: Up(t, x, k) == None
  }

  ghost predicate Acyclic(t: Table) {
    forall x {:trigger Grounded(t, x)} :: x in t ==> Grounded(t, x)
  }

  ghost function DepthBy(t: Table, x: Id, k: nat): nat
    requires Up(t, x, k) == None
    decreases k
  {
    match Par(t, x)
    case None => 0
    case Some(p) => 1 + DepthBy(t, p, k - 1)
  }

  ghost function Depth(t: Table, x: Id): nat
    requires Grounded(t, x)
  {
    var k: nat :| Up(t, x, k) == None;
    DepthBy(t, x, k)
  }

  ghost function DepthOf(t: Table, x: Id): nat {
    if Grounded(t, x) then Depth(t, x) else 0
  }

  lemma {:induction false} DepthByUnique(t: Table, x: Id, j: nat, k: nat)
    requires Up(t, x, j) == None && Up(t, x, k) == None
    ensures DepthBy(t, x, j) == DepthBy(t, x, k)
    decreases j
  {
    if Par(t, x).Some? {
      DepthByUnique(t, Par(t, x).value, j - 1, k - 1);
    }
  }

  lemma DepthIs(t: Table, x: Id, k: nat)
    requires x in t && Up(t, x, k) == None
    ensures Grounded(t, x) && Depth(t, x) == DepthBy(t, x, k)
  {
    var j: nat :| Up(t, x, j) == None && Depth(t, x) == DepthBy(t, x, j);
    DepthByUnique(t, x, j, k);
  }

  /** Depth is the number of steps to the root. */
  lemma DepthParent(t: Table, x: Id)
    requires Grounded(t, x)
    ensures Par(t, x).None? ==> Depth(t, x) == 0
    ensures Par(t, x).Some? ==>
              Grounded(t, Par(t, x).value) && Depth(t, x) == Depth(t, Par(t, x).value) + 1
  {
    var k: nat :| Up(t, x, k) == None;
    DepthIs(t, x, k);
    if Par(t, x).Some? {
      DepthIs(t, Par(t, x).value, k - 1);
    }
  }

  lemma GroundedByParent(t: Table, x: Id)
    requires x in t
    requires Par(t, x).None? || Grounded(t, Par(t, x).value)
    ensures Grounded(t, x)
  {
    if Par(t, x).None? {
      assert Up(t, x, 1) == None;
    } else {
      var k: nat :| Up(t, Par(t, x).value, k) == None;
      assert Up(t, x, k + 1) == None;
    }
  }

  lemma {:induction false} UpAdd(t: Table, x: Id, j: nat, k: nat)
    ensures Up(t, x, j + k) == (if Up(t, x, j).Some? then Up(t, Up(t, x, j).value, k) else None)
    decreases j
  {
    if j > 0 && Par(t, x).Some? {
      UpAdd(t, Par(t, x).value, j - 1, k);
    }
  }

  /** The `k`-th ancestor lies `k` levels higher. */
  lemma {:induction false} UpDepth(t: Table, x: Id, k: nat)
    requires Grounded(t, x) && Up(t, x, k).Some?
    ensures Up(t, x, k).value in t && Grounded(t, Up(t, x, k).value)
    ensures Depth(t, x) == Depth(t, Up(t, x, k).value) + k
    decreases k
  {
    DepthParent(t, x);
    if k > 0 {
      UpDepth(t, Par(t, x).value, k - 1);
    }
  }

  lemma AncDepth(t: Table, a: Id, x: Id)
    requires Grounded(t, x) && Anc(t, a, x)
    ensures a in t && Grounded(t, a) && Depth(t, a) < Depth(t, x)
  {
    var k: nat :| k > 0 && Up(t, x, k) == Some(a);
    UpDepth(t, x, k);
  }

  /** Going up one step from the lower end. */
  lemma AncStep(t: Table, a: Id, x: Id)
    ensures Anc(t, a, x) <==> Par(t, x).Some? && (Par(t, x).value == a || Anc(t, a, Par(t, x).value))
  {
    if Anc(t, a, x) {
      var k: nat :| k > 0 && Up(t, x, k) == Some(a);
      assert Up(t, Par(t, x).value, k - 1) == Some(a);
    }
    if Par(t, x).Some? {
      var p := Par(t, x).value;
      if p == a {
        assert Up(t, p, 0) == Some(a);
        assert Up(t, x, 1) == Some(a);
      } else if Anc(t, a, p) {
        var k: nat :| k > 0 && Up(t, p, k) == Some(a);
        assert Up(t, x, k + 1) == Some(a);
      }
    }
  }

  lemma AncTrans(t: Table, a: Id, b: Id, c: Id)
    requires Anc(t, a, b) && Anc(t, b, c)
    ensures Anc(t, a, c)
  {
    var j: nat :| j > 0 && Up(t, b, j) == Some(a);
    var k: nat :| k > 0 && Up(t, c, k) == Some(b);
    UpAdd(t, c, k, j);
  }

  /** A strict descendant of `a` lies at or below exactly one child of `a`. */
  lemma AncChild(t: Table, a: Id, x: Id) returns (c: Id)
    requires Anc(t, a, x) && x in t
    ensures c in t && Par(t, c) == Some(a) && (c == x || Anc(t, c, x))
  {
    var k: nat :| k > 0 && Up(t, x, k) == Some(a);
    UpAdd(t, x, k - 1, 1);
    c := Up(t, x, k - 1).value;
    assert Up(t, c, 1) == Some(a);
    assert Par(t, c) == Some(a);
    if k > 1 {
      assert Anc(t, c, x);
    } else {
      assert c == x;
    }
  }

  lemma AncUngrounded(t: Table, a: Id, x: Id)
    requires Anc(t, a, x) && Grounded(t, a) && x in t
    ensures Grounded(t, x)
  {
    var k: nat :| k > 0 && Up(t, x, k) == Some(a);
    var j: nat :| Up(t, a, j) == None;
    UpAdd(t, x, k, j);
    assert Up(t, x, k + j) == None;
  }

  // ----- Children in list order -----

  /** Ids of the spans of `part` whose parent is `x`, in order. */
  function KidsIn(t: Table, part: seq<Span>, x: Id): seq<Id> {
    if part == [] then []
    else
      var k := |part| - 1;
      KidsIn(t, part[..k], x) + (if Par(t, part[k].id) == Some(x) then [part[k].id] else [])
  }

  /** Ids of the spans of `part` without a parent, in order. */
  function RootsIn(t: Table, part: seq<Span>): seq<Id> {
    if part == [] then []
    else
      var k := |part| - 1;
      RootsIn(t, part[..k]) + (if Par(t, part[k].id).None? then [part[k].id] else [])
  }

  lemma SplitLast(part: seq<Span>)
    requires part != []
    ensures part == part[..|part| - 1] + [part[|part| - 1]]
    ensures IdSet(part) == IdSet(part[..|part| - 1]) + {part[|part| - 1].id}
  {
    var rest, s := part[..|part| - 1], part[|part| - 1];
    assert part == rest + [s];
    forall r ensures r in part <==> r in rest || r == s {}
  }

  lemma {:induction false} KidsInMembers(t: Table, part: seq<Span>, x: Id)
    ensures forall c :: c in KidsIn(t, part, x) <==> c in IdSet(part) && Par(t, c) == Some(x)
    decreases |part|
  {
    if part != [] {
      SplitLast(part);
      KidsInMembers(t, part[..|part| - 1], x);
    }
  }

  lemma {:induction false} RootsInMembers(t: Table, part: seq<Span>)
    ensures forall c :: c in RootsIn(t, part) <==> c in IdSet(part) && Par(t, c).None?
    decreases |part|
  {
    if part != [] {
      SplitLast(part);
      RootsInMembers(t, part[..|part| - 1]);
    }
  }

  ghost function Kids(spans: seq<Span>, x: Id): (r: seq<Id>)
    ensures forall c :: c in r <==> c in TableOf(spans) && Par(TableOf(spans), c) == Some(x)
  {
    KidsInMembers(TableOf(spans), spans, x);
    KidsIn(TableOf(spans), spans, x)
  }

  ghost function Roots(spans: seq<Span>): (r: seq<Id>)
    ensures forall c :: c in r <==> c in TableOf(spans) && Par(TableOf(spans), c).None?
  {
    RootsInMembers(TableOf(spans), spans);
    RootsIn(TableOf(spans), spans)
  }

  lemma UniqueInit(part: seq<Span>)
    requires Unique(part) && part != []
    ensures Unique(part[..|part| - 1]) && part[|part| - 1].id !in IdSet(part[..|part| - 1])
  {}

  lemma NoDupSnoc(s: seq<Id>, x: Id)
    requires NoDup(s) && x !in s
    ensures NoDup(s + [x])
  {}

  lemma {:induction false} KidsNoDup(t: Table, part: seq<Span>, x: Id)
    requires Unique(part)
    ensures NoDup(KidsIn(t, part, x))
    decreases |part|
  {
    if part != [] {
      var rest := part[..|part| - 1];
      UniqueInit(part);
      KidsNoDup(t, rest, x);
      KidsInMembers(t, rest, x);
      NoDupSnoc(KidsIn(t, rest, x), part[|part| - 1].id);
    }
  }

  lemma {:induction false} RootsNoDup(t: Table, part: seq<Span>)
    requires Unique(part)
    ensures NoDup(RootsIn(t, part))
    decreases |part|
  {
    if part != [] {
      var rest := part[..|part| - 1];
      UniqueInit(part);
      RootsNoDup(t, rest);
      RootsInMembers(t, rest);
      NoDupSnoc(RootsIn(t, rest), part[|part| - 1].id);
    }
  }

  /** The root above a grounded span. */
  lemma {:induction false} RootAbove(t: Table, x: Id) returns (r: Id)
    requires Grounded(t, x)
    ensures r in t && Par(t, r).None? && (r == x || Anc(t, r, x))
    decreases Depth(t, x)
  {
    DepthParent(t, x);
    if Par(t, x).None? {
      r := x;
    } else {
      r := RootAbove(t, Par(t, x).value);
      AncStep(t, r, x);
    }
  }

  /** Reachable from the roots and grounded are the same thing. */
  lemma GroundedIffUnderRoot(t: Table, x: Id)
    requires x in t
    ensures Grounded(t, x) <==> exists r :: r in t && Par(t, r).None? && (r == x || Anc(t, r, x))
  {
    if Grounded(t, x) {
      var r := RootAbove(t, x);
    }
    if r :| r in t && Par(t, r).None? && (r == x || Anc(t, r, x)) {
      GroundedByParent(t, r);
      if r != x {
        AncUngrounded(t, r, x);
      }
    }
  }

  // ----- Bad descendants -----

  ghost function BadBelow(t: Table, x: Id): set<Id> {
    set y | y in t && Anc(t, x, y) && Bad(t[y])
  }

  ghost function BadUnder(t: Table, cs: seq<Id>): set<Id> {
    set y | y in t && Bad(t[y]) && exists i :: 0 <= i < |cs| && (cs[i] == y || Anc(t, cs[i], y))
  }

  ghost function BadIds(t: Table): set<Id> {
    set x | x in t && Bad(t[x])
  }

  function One(b: bool): nat { if b then 1 else 0 }

  /** What `_aggregate_bottom_up` sums over the children. */
  ghost function SumKids(t: Table, cs: seq<Id>): nat
    requires forall c :: c in cs ==> c in t
  {
    if cs == [] then 0
    else
      var k := |cs| - 1;
      SumKids(t, cs[..k]) + |BadBelow(t, cs[k])| + One(Bad(t[cs[k]]))
  }

  /** Two siblings, or two roots, have no common descendant. */
  lemma SiblingsDisjoint(t: Table, a: Id, b: Id, y: Id)
    requires a in t && b in t && Grounded(t, y)
    requires Par(t, a) == Par(t, b)
    requires (a == y || Anc(t, a, y)) && (b == y || Anc(t, b, y))
    ensures a == b
  {
    var i: nat :| Up(t, y, i) == Some(a) by { if a == y { assert Up(t, y, 0) == Some(a); } }
    var j: nat :| Up(t, y, j) == Some(b) by { if b == y { assert Up(t, y, 0) == Some(b); } }
    UpDepth(t, y, i);
    UpDepth(t, y, j);
    DepthParent(t, a);
    DepthParent(t, b);
  }

  /** What one more child adds to the bad spans under a list of siblings. */
  lemma BadUnderStep(t: Table, rest: seq<Id>, c: Id)
    ensures BadUnder(t, rest + [c]) ==
            BadUnder(t, rest) + (BadBelow(t, c) + (if c in t && Bad(t[c]) then {c} else {}))
  {
    var cs := rest + [c];
    forall y | y in BadUnder(t, cs)
      ensures y in BadUnder(t, rest) || y in BadBelow(t, c) || y == c
    {
      var i :| 0 <= i < |cs| && (cs[i] == y || Anc(t, cs[i], y));
      if i < |rest| { assert rest[i] == cs[i]; }
    }
    forall y | y in BadUnder(t, rest)
      ensures y in BadUnder(t, cs)
    {
      var i :| 0 <= i < |rest| && (rest[i] == y || Anc(t, rest[i], y));
      assert cs[i] == rest[i];
    }
    assert cs[|rest|] == c;
  }

  /** A list of grounded siblings, or of roots. */
  ghost predicate Siblings(t: Table, cs: seq<Id>, p: Option<Id>) {
    forall c :: c in cs ==> Grounded(t, c) && Par(t, c) == p
  }

  lemma BadUnderDisjoint(t: Table, rest: seq<Id>, c: Id, p: Option<Id>)
    requires Siblings(t, rest, p) && Grounded(t, c) && Par(t, c) == p && c !in rest
    ensures BadUnder(t, rest) !! BadBelow(t, c) + {c}
    ensures c !in BadBelow(t, c)
  {
    if Anc(t, c, c) { AncDepth(t, c, c); }
    forall y | y in BadUnder(t, rest) && y in BadBelow(t, c) + {c}
      ensures false
    {
      var i :| 0 <= i < |rest| && (rest[i] == y || Anc(t, rest[i], y));
      assert rest[i] in rest;
      if y != c { AncUngrounded(t, c, y); }
      SiblingsDisjoint(t, rest[i], c, y);
    }
  }

  lemma BadUnderCard(t: Table, rest: seq<Id>, c: Id, p: Option<Id>)
    requires Siblings(t, rest, p) && Grounded(t, c) && Par(t, c) == p && c !in rest
    ensures |BadUnder(t, rest + [c])| == |BadUnder(t, rest)| + |BadBelow(t, c)| + One(Bad(t[c]))
  {
    BadUnderStep(t, rest, c);
    BadUnderDisjoint(t, rest, c, p);
  }

  lemma {:induction false} SumKidsCounts(t: Table, cs: seq<Id>, p: Option<Id>)
    requires Siblings(t, cs, p) && NoDup(cs)
    ensures |BadUnder(t, cs)| == SumKids(t, cs)
    decreases |cs|
  {
    if cs == [] {
      assert BadUnder(t, cs) == {};
    } else {
      var k := |cs| - 1;
      SumKidsCounts(t, cs[..k], p);
      assert cs == cs[..k] + [cs[k]];
      BadUnderCard(t, cs[..k], cs[k], p);
    }
  }

  /** Summing children's counts counts every bad strict descendant exactly once. */
  lemma CountIsSum(t: Table, cs: seq<Id>, x: Id)
    requires Grounded(t, x) && NoDup(cs)
    requires forall c :: c in cs <==> c in t && Par(t, c) == Some(x)
    ensures |BadBelow(t, x)| == SumKids(t, cs)
  {
    forall c | c in cs ensures Grounded(t, c) { GroundedByParent(t, c); }
    SumKidsCounts(t, cs, Some(x));
    forall y | y in BadBelow(t, x) ensures y in BadUnder(t, cs) {
      var c := AncChild(t, x, y);
      assert c in cs;
    }
    forall y | y in BadUnder(t, cs) ensures y in BadBelow(t, x) {
      var i :| 0 <= i < |cs| && (cs[i] == y || Anc(t, cs[i], y));
      assert cs[i] in cs;
      AncStep(t, x, cs[i]);
      if cs[i] != y { AncTrans(t, x, cs[i], y); }
    }
    assert BadBelow(t, x) == BadUnder(t, cs);
  }

  // ----- The order of the list -----

  /** Two lists of the same spans give the same table. */
  lemma TableOfPermutation(a: seq<Span>, b: seq<Span>)
    requires Unique(a) && multiset(a) == multiset(b)
    ensures Unique(b) && TableOf(a) == TableOf(b)
  {
    UniquePermutation(a, b);
    assert forall s :: s in a <==> s in multiset(a);
    assert forall s :: s in b <==> s in multiset(b);
    assert IdSet(a) == IdSet(b);
    forall x | x in TableOf(a) ensures TableOf(a)[x] == TableOf(b)[x] {
      TableIn(a, TableOf(b)[x]);
    }
  }

  lemma UniquePermutation(a: seq<Span>, b: seq<Span>)
    requires Unique(a) && multiset(a) == multiset(b)
    ensures Unique(b)
  {
    forall i, j | 0 <= i < j < |b| ensures b[i].id != b[j].id {
      if b[i].id == b[j].id {
        assert b[i] in multiset(a) && b[j] in multiset(a);
        TableIn(a, b[i]);
        TableIn(a, b[j]);
        MultiplicityTwo(b, i, j);
        var p :| 0 <= p < |a| && a[p] == b[i];
        MultiplicityOne(a, p);
      }
    }
  }

  lemma MultiplicityOne(a: seq<Span>, p: nat)
    requires Unique(a) && p < |a|
    ensures multiset(a)[a[p]] == 1
  {
    assert a == a[..p] + [a[p]] + a[p + 1..];
    assert a[p] !in a[..p];
    assert a[p] !in a[p + 1..];
  }
}
