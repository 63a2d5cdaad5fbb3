/** What every run of the tracer keeps, step by step. */
module TracingLaws {
  import opened Common
  import opened Spans
  import opened Roles
  import opened Forest
  import opened RoundTrip
  import opened Tracing

  // ----- Addresses -----

  ghost predicate Distinct(live: set<Value>) {
    NONE_VALUE in live && forall u, v :: u in live && v in live && u.addr == v.addr ==> u == v
  }

  ghost predicate ArgsLive(live: set<Value>, open: map<Id, Ctx>) {
    forall x, v :: x in open && v in open[x].args ==> v in live
  }

  /** The registry is the attribution read through addresses. */
  ghost predicate Faithful(live: set<Value>, registry: Registry, refs: seq<Value>, m: map<Value, Id>) {
    && (forall v :: v in m ==>
          v.tracked && v in live && (v == NONE_VALUE || v in refs) && v.addr in registry && registry[v.addr] == m[v])
    && (forall a :: a in registry ==> exists v :: v in m && v.addr == a)
    && (forall v :: v in refs ==> v in live && v in m && v != NONE_VALUE)
  }

  ghost predicate HeapOk(live: set<Value>, c: Code, log: seq<Event>) {
    && Distinct(live) && ArgsLive(live, c.open)
    && (c.emitted.None? ==> Faithful(live, c.registry, c.refs, Attribution(log)))
    && (c.emitted.Some? ==> c.open == map[] && c.refs == [] && log != [])
  }

  lemma AttributionSnoc(log: seq<Event>, e: Event)
    ensures Attribution(log + [e]) ==
            match e
            case Called(_, _, _, _) => Attribution(log)
            case Noted(_, _) => Attribution(log)
            case Returned(id, v, _) => if v.tracked then Attribution(log)[v := id] else Attribution(log)
            case Raised(id, args, _, _) =>
              map v | v in Attribution(log) :: if v in args then id else Attribution(log)[v]
  {
    assert (log + [e])[..|log|] == log;
  }

  lemma FaithfulReturn(live: set<Value>, registry: Registry, refs: seq<Value>, log: seq<Event>, e: Event)
    requires Distinct(live) && Faithful(live, registry, refs, Attribution(log)) && e.Returned? && e.value in live
    ensures Faithful(live, Registered(registry, e.value, e.id), Kept(refs, e.value), Attribution(log + [e]))
  {
    AttributionSnoc(log, e);
    var v := e.value;
    var m, m' := Attribution(log), Attribution(log + [e]);
    var registry' := Registered(registry, v, e.id);
    forall a | a in registry' ensures exists u :: u in m' && u.addr == a {
      if v.tracked && a == v.addr { assert v in m'; } else { var u :| u in m && u.addr == a; assert u in m'; }
    }
  }

  lemma FaithfulRaise(live: set<Value>, registry: Registry, refs: seq<Value>, log: seq<Event>, e: Event)
    requires Distinct(live) && Faithful(live, registry, refs, Attribution(log))
    requires e.Raised? && forall v :: v in e.args ==> v in live
    ensures Faithful(live, Repointed(registry, e.args, e.id), refs, Attribution(log + [e]))
  {
    AttributionSnoc(log, e);
    var m, m' := Attribution(log), Attribution(log + [e]);
    forall v | v in m' ensures Repointed(registry, e.args, e.id)[v.addr] == m'[v] {
      assert Holds(e.args, v.addr) <==> v in e.args;
    }
    forall a | a in registry ensures exists v :: v in m' && v.addr == a {
      var v :| v in m && v.addr == a;
      assert v in m';
    }
  }

  lemma HeapAlloc(live: set<Value>, c: Code, log: seq<Event>, v: Value)
    requires HeapOk(live, c, log) && forall u :: u in live ==> u.addr != v.addr
    ensures HeapOk(live + {v}, c, log)
  {}

  lemma HeapFree(live: set<Value>, c: Code, log: seq<Event>, v: Value)
    requires HeapOk(live, c, log)
    requires v != NONE_VALUE && v !in c.refs && forall x :: x in c.open ==> v !in c.open[x].args
    ensures HeapOk(live - {v}, c, log)
  {}

  lemma HeapEnter(live: set<Value>, c: Code, log: seq<Event>, id: Id, parent: Option<Id>, startWall: nat,
                  args: seq<Value>)
    requires HeapOk(live, c, log) && (forall v :: v in args ==> v in live)
    requires if parent.Some? then parent.value in c.open else log == []
    ensures HeapOk(live, CodeEnter(c, id, parent, startWall, args), log + [Called(id, parent, startWall, args)])
  {
    AttributionSnoc(log, Called(id, parent, startWall, args));
  }

  lemma ArgsUnder(live: set<Value>, open: map<Id, Ctx>, p: Id, more: seq<Span>)
    requires ArgsLive(live, open) && p in open
    ensures ArgsLive(live, WithChildren(open, p, more))
  {}

  lemma HeapClose(live: set<Value>, c: Code, log: seq<Event>, id: Id, record: Span)
    requires HeapOk(live, c, log) && log != [] && MayClose(c.open, id)
    requires c.open[id].parent.Some? ==> c.open[id].parent.value in c.open - {id}
    requires c.open[id].parent.None? ==> c.open.Keys == {id}
    ensures HeapOk(live, CodeClose(c, id, record), log)
  {
    var ctx := c.open[id];
    if ctx.parent.Some? {
      ArgsUnder(live, c.open - {id}, ctx.parent.value, [record] + ctx.children);
    } else {
      assert c.open - {id} == map[];
    }
  }

  lemma HeapReturn(live: set<Value>, c: Code, log: seq<Event>, e: Event, record: Span)
    requires HeapOk(live, c, log) && e.Returned? && MayClose(c.open, e.id) && e.value in live
    requires c.open[e.id].parent.Some? ==> c.open[e.id].parent.value in c.open - {e.id}
    requires c.open[e.id].parent.None? ==> c.open.Keys == {e.id}
    ensures HeapOk(live, CodeReturn(c, e.id, e.value, record), log + [e])
  {
    FaithfulReturn(live, c.registry, c.refs, log, e);
    var c1 := c.(registry := Registered(c.registry, e.value, e.id), refs := Kept(c.refs, e.value));
    HeapClose(live, c1, log + [e], e.id, record);
  }

  lemma HeapRaise(live: set<Value>, c: Code, log: seq<Event>, e: Event, record: Span)
    requires HeapOk(live, c, log) && e.Raised? && MayClose(c.open, e.id) && e.args == c.open[e.id].args
    requires c.open[e.id].parent.Some? ==> c.open[e.id].parent.value in c.open - {e.id}
    requires c.open[e.id].parent.None? ==> c.open.Keys == {e.id}
    ensures HeapOk(live, CodeRaise(c, e.id, record), log + [e])
  {
    FaithfulRaise(live, c.registry, c.refs, log, e);
    var c1 := c.(registry := Repointed(c.registry, e.args, e.id));
    HeapClose(live, c1, log + [e], e.id, record);
  }

  lemma LeafLog(log: seq<Event>, e1: Event, e2: Event)
    requires e1.Called? && e2.Noted?
    ensures Attribution(log + [e1, e2]) == Attribution(log)
  {
    AttributionSnoc(log, e1);
    AttributionSnoc(log + [e1], e2);
    assert log + [e1, e2] == log + [e1] + [e2];
  }

  // ----- Nesting -----

  /** Open spans have open parents that started earlier, and there is one outermost span. */
  ghost predicate Nesting(open: map<Id, Ctx>, started: map<Id, nat>) {
    && open.Keys <= started.Keys
    && (forall x {:trigger open[x].parent} :: x in open && open[x].parent.Some? ==>
          open[x].parent.value in open && started[open[x].parent.value] < started[x])
    && (forall x, y {:trigger open[x].parent, open[y].parent} ::
          x in open && y in open && open[x].parent == open[y].parent == None ==> x == y)
  }

  /** When the outermost span may close, nothing else is open. */
  lemma OutermostIsLast(open: map<Id, Ctx>, started: map<Id, nat>, id: Id)
    requires Nesting(open, started) && MayClose(open, id) && open[id].parent.None?
    ensures open.Keys == {id}
  {
    var others := open.Keys - {id};
    forall y | y in others
      ensures open[y].parent.Some? && open[y].parent.value in others && started[open[y].parent.value] < started[y]
    {
      assert open[id].parent == None;
    }
    if others != {} {
      var x := ArgMin(others, started);
    }
  }

  lemma NestingEnter(open: map<Id, Ctx>, started: map<Id, nat>, id: Id, ctx: Ctx, now: nat)
    requires Nesting(open, started) && id !in started && forall x :: x in started ==> started[x] < now
    requires if ctx.parent.Some? then ctx.parent.value in open else open == map[]
    ensures Nesting(open[id := ctx], started[id := now])
  {}

  lemma NestingUnder(open: map<Id, Ctx>, started: map<Id, nat>, p: Id, more: seq<Span>)
    requires Nesting(open, started) && p in open
    ensures Nesting(WithChildren(open, p, more), started)
  {}

  lemma NestingMinus(open: map<Id, Ctx>, started: map<Id, nat>, id: Id)
    requires Nesting(open, started) && MayClose(open, id)
    ensures Nesting(open - {id}, started)
  {}

  // ----- Buffers are flattened call trees -----

  ghost predicate Buffer(ctx: Ctx, x: Id, trees: seq<Tree>) {
    ctx.children == FlatAll(trees) && Linked(trees, Some(x))
  }

  ghost predicate Buffers(open: map<Id, Ctx>, kids: map<Id, seq<Tree>>) {
    kids.Keys == open.Keys && forall x :: x in open ==> Buffer(open[x], x, kids[x])
  }

  lemma BufferGrows(ctx: Ctx, x: Id, trees: seq<Tree>, record: Span, below: seq<Tree>)
    requires Buffer(ctx, x, trees) && record.parent == Some(x) && Linked(below, Some(record.id))
    ensures Buffer(ctx.(children := ctx.children + ([record] + FlatAll(below))), x, trees + [Tree(record, below)])
  {
    FlatAllAppend(trees, [Tree(record, below)]);
    FlatSingle(Tree(record, below));
  }

  lemma BuffersEnter(open: map<Id, Ctx>, kids: map<Id, seq<Tree>>, id: Id, ctx: Ctx)
    requires Buffers(open, kids) && ctx.children == []
    ensures Buffers(open[id := ctx], kids[id := []])
  {
    assert FlatAll([]) == [];
  }

  lemma BuffersLeaf(open: map<Id, Ctx>, kids: map<Id, seq<Tree>>, p: Id, record: Span)
    requires Buffers(open, kids) && p in open && record.parent == Some(p)
    ensures Buffers(WithChildren(open, p, [record]), kids[p := kids[p] + [Tree(record, [])]])
  {
    BufferGrows(open[p], p, kids[p], record, []);
    assert [record] + FlatAll([]) == [record];
  }

  lemma BuffersClose(open: map<Id, Ctx>, kids: map<Id, seq<Tree>>, record: Span)
    requires Buffers(open, kids) && record.id in open && record.parent == open[record.id].parent
    requires record.parent.Some? ==> record.parent.value in open - {record.id}
    ensures CloseKids.requires(kids, record, record.parent)
    ensures var rest := open - {record.id};
            var all := [record] + open[record.id].children;
            Buffers(if record.parent.Some? then WithChildren(rest, record.parent.value, all) else rest,
                    CloseKids(kids, record, record.parent))
  {
    if record.parent.Some? {
      var p := record.parent.value;
      BufferGrows(open[p], p, kids[p], record, kids[record.id]);
    }
  }

  // ----- Ids are never repeated -----

  lemma UniqueJoin(a: seq<Span>, b: seq<Span>)
    requires Unique(a) && Unique(b) && IdSet(a) !! IdSet(b)
    ensures Unique(a + b) && IdSet(a + b) == IdSet(a) + IdSet(b)
  {
    IdSetAppend(a, b);
    var all := a + b;
    forall i, j | 0 <= i < j < |all| ensures all[i].id != all[j].id {
      if i < |a| <= j { assert a[i].id in IdSet(a) && b[j - |a|].id in IdSet(b); }
    }
  }

  ghost function IdsBelow(trees: seq<Tree>): set<Id> {
    IdSet(FlatAll(trees))
  }

  /** The trees below open spans share no id with each other or with open spans. */
  ghost predicate KeptApart(kids: map<Id, seq<Tree>>, finished: map<Id, nat>) {
    && (forall x :: x in kids ==> Unique(FlatAll(kids[x])) && IdsBelow(kids[x]) <= finished.Keys && x !in finished)
    && (forall x, y :: x in kids && y in kids && x != y ==> IdsBelow(kids[x]) !! IdsBelow(kids[y]))
    && "" !in finished
  }

  lemma TreeJoins(trees: seq<Tree>, record: Span, below: seq<Tree>)
    requires Unique(FlatAll(trees)) && Unique(FlatAll(below)) && IdsBelow(trees) !! IdsBelow(below)
    requires record.id !in IdsBelow(trees) && record.id !in IdsBelow(below)
    ensures Unique(FlatAll(trees + [Tree(record, below)]))
    ensures IdsBelow(trees + [Tree(record, below)]) == IdsBelow(trees) + {record.id} + IdsBelow(below)
  {
    FlatAllAppend(trees, [Tree(record, below)]);
    FlatSingle(Tree(record, below));
    UniqueJoin([record], FlatAll(below));
    UniqueJoin(FlatAll(trees), [record] + FlatAll(below));
    assert IdSet([record]) == {record.id} by { assert record in [record]; }
  }

  lemma ApartEnter(kids: map<Id, seq<Tree>>, finished: map<Id, nat>, id: Id)
    requires KeptApart(kids, finished) && id !in finished
    ensures KeptApart(kids[id := []], finished)
  {
    assert FlatAll([]) == [] && IdsBelow([]) == {};
  }

  /** One list of trees is replaced by one with more ids, none of them below another open span. */
  lemma ApartPut(kids: map<Id, seq<Tree>>, finished: map<Id, nat>, p: Id, trees: seq<Tree>, more: set<Id>)
    requires KeptApart(kids, finished) && p in kids && Unique(FlatAll(trees))
    requires IdsBelow(trees) == IdsBelow(kids[p]) + more && more <= finished.Keys
    requires forall y :: y in kids && y != p ==> IdsBelow(kids[y]) !! more
    ensures KeptApart(kids[p := trees], finished)
  {}

  lemma ApartAfter(kids: map<Id, seq<Tree>>, finished: map<Id, nat>, id: Id, now: nat)
    requires KeptApart(kids, finished) && id != ""
    ensures KeptApart(kids - {id}, finished[id := now])
    ensures forall y :: y in kids ==> id !in kids - {id} && (id in kids ==> id !in IdsBelow(kids[y]))
  {}

  lemma ApartClose(kids: map<Id, seq<Tree>>, finished: map<Id, nat>, record: Span, parent: Option<Id>, now: nat)
    requires KeptApart(kids, finished) && record.id in kids && (parent.Some? ==> parent.value in kids - {record.id})
    requires record.id != ""
    ensures KeptApart(CloseKids(kids, record, parent), finished[record.id := now])
  {
    var id := record.id;
    ApartAfter(kids, finished, id, now);
    if parent.Some? {
      var p := parent.value;
      TreeJoins(kids[p], record, kids[id]);
      ApartPut(kids - {id}, finished[id := now], p, kids[p] + [Tree(record, kids[id])], {id} + IdsBelow(kids[id]));
    }
  }

  lemma ApartLeaf(kids: map<Id, seq<Tree>>, finished: map<Id, nat>, record: Span, p: Id, now: nat)
    requires KeptApart(kids, finished) && record.id !in kids && record.id !in finished && p in kids
    requires record.id != ""
    ensures KeptApart(kids[p := kids[p] + [Tree(record, [])]], finished[record.id := now])
  {
    assert FlatAll([]) == [] && IdsBelow([]) == {};
    TreeJoins(kids[p], record, []);
    ApartAfter(kids, finished, record.id, now);
    assert kids - {record.id} == kids;
    ApartPut(kids, finished[record.id := now], p, kids[p] + [Tree(record, [])], {record.id});
  }

  // ----- Every record is in one buffer -----

  ghost predicate Complete(kids: map<Id, seq<Tree>>, recorded: set<Span>) {
    forall r :: r in recorded <==> exists x :: x in kids && r in FlatAll(kids[x])
  }

  lemma TreeMembers(trees: seq<Tree>, record: Span, below: seq<Tree>, r: Span)
    ensures r in FlatAll(trees + [Tree(record, below)]) <==> r in FlatAll(trees) || r == record || r in FlatAll(below)
  {
    FlatAllAppend(trees, [Tree(record, below)]);
    FlatSingle(Tree(record, below));
  }

  lemma CompleteEnter(kids: map<Id, seq<Tree>>, recorded: set<Span>, id: Id)
    requires Complete(kids, recorded) && id !in kids
    ensures Complete(kids[id := []], recorded)
  {
    assert FlatAll([]) == [];
    var kids' := kids[id := []];
    forall r ensures r in recorded <==> exists x :: x in kids' && r in FlatAll(kids'[x]) {
      if r in recorded { var x :| x in kids && r in FlatAll(kids[x]); assert x in kids'; }
    }
  }

  lemma CompleteLeaf(kids: map<Id, seq<Tree>>, recorded: set<Span>, record: Span, p: Id)
    requires Complete(kids, recorded) && p in kids
    ensures Complete(kids[p := kids[p] + [Tree(record, [])]], recorded + {record})
  {
    var kids' := kids[p := kids[p] + [Tree(record, [])]];
    forall r ensures r in recorded + {record} <==> exists x :: x in kids' && r in FlatAll(kids'[x]) {
      TreeMembers(kids[p], record, [], r);
      if r in recorded { var x :| x in kids && r in FlatAll(kids[x]); assert x in kids'; }
      if r == record { assert p in kids'; }
      if x :| x in kids' && r in FlatAll(kids'[x]) { assert x in kids; }
    }
  }

  lemma CompleteClose(kids: map<Id, seq<Tree>>, recorded: set<Span>, record: Span, p: Id)
    requires Complete(kids, recorded) && record.id in kids && p in kids - {record.id}
    ensures Complete(CloseKids(kids, record, Some(p)), recorded + {record})
  {
    var kids' := CloseKids(kids, record, Some(p));
    forall r ensures r in recorded + {record} <==> exists x :: x in kids' && r in FlatAll(kids'[x]) {
      TreeMembers(kids[p], record, kids[record.id], r);
      if r in recorded {
        var x :| x in kids && r in FlatAll(kids[x]);
        assert if x == record.id then p in kids' else x in kids';
      }
      if r == record { assert p in kids'; }
      if x :| x in kids' && r in FlatAll(kids'[x]) { assert x in kids && record.id in kids; }
    }
  }

  // ----- What the sources of a span are -----

  lemma {:induction false} SourcesNoDup(registry: Registry, args: seq<Value>)
    ensures NoDup(Sources(registry, args))
    decreases |args|
  {
    if args != [] { SourcesNoDup(registry, args[..|args| - 1]); }
  }

  lemma {:induction false} SourcesAre(registry: Registry, args: seq<Value>, b: Id)
    ensures b in Sources(registry, args) <==>
            b != "" && exists v :: v in args && v.addr in registry && registry[v.addr] == b
    decreases |args|
  {
    if args != [] {
      var v := args[|args| - 1];
      SourcesAre(registry, args[..|args| - 1], b);
      assert forall u :: u in args <==> u == v || u in args[..|args| - 1];
    }
  }

  /** `b` is registered at the address of `v`. */
  ghost predicate Registers(registry: Registry, v: Value, b: Id) {
    b != "" && v.addr in registry && registry[v.addr] == b
  }

  /** The hits `r` in order of first appearance: `at[i]` is the first argument that gives `r[i]`. */
  ghost predicate FirstHits(registry: Registry, args: seq<Value>, r: seq<Id>, at: seq<nat>) {
    && |at| == |r| && (forall i, j :: 0 <= i < j < |at| ==> at[i] < at[j])
    && (forall i :: 0 <= i < |at| ==> at[i] < |args| && Registers(registry, args[at[i]], r[i]))
    && (forall i, k :: 0 <= i < |at| && 0 <= k < at[i] ==> !Registers(registry, args[k], r[i]))
  }

  lemma FirstHitsSnoc(registry: Registry, args: seq<Value>, r: seq<Id>, at: seq<nat>, v: Value)
    requires FirstHits(registry, args, r, at)
    ensures FirstHits(registry, args + [v], r, at)
    ensures v.addr in registry && registry[v.addr] != "" && registry[v.addr] !in r
            && (forall k :: 0 <= k < |args| ==> !Registers(registry, args[k], registry[v.addr])) ==>
              FirstHits(registry, args + [v], r + [registry[v.addr]], at + [|args|])
  {
    forall k | 0 <= k < |args| ensures (args + [v])[k] == args[k] {}
  }

  lemma {:induction false} SourcesInOrder(registry: Registry, args: seq<Value>) returns (at: seq<nat>)
    ensures FirstHits(registry, args, Sources(registry, args), at)
    decreases |args|
  {
    at := [];
    if args != [] {
      var n := |args| - 1;
      var before, v := args[..n], args[n];
      at := SourcesInOrder(registry, before);
      assert args == before + [v];
      FirstHitsSnoc(registry, before, Sources(registry, before), at, v);
      if v.addr in registry && registry[v.addr] != "" && registry[v.addr] !in Sources(registry, before) {
        SourcesAre(registry, before, registry[v.addr]);
        at := at + [n];
      }
    }
  }

  // ----- Time -----

  ghost predicate Clocked(p: Past, open: map<Id, Ctx>) {
    && (forall x :: x in p.started ==> p.started[x] < |p.log|)
    && (forall x :: x in p.finished ==> x in p.started && p.started[x] < p.finished[x] < |p.log|)
    && (forall x :: x in p.started ==> x in p.finished || x in open)
    && (forall x :: x in open ==> x in p.started && x !in p.finished && x != "")
    && (forall v :: v in Attribution(p.log) ==> Attribution(p.log)[v] in p.finished)
  }

  ghost predicate Before(sources: seq<Id>, start: nat, finished: map<Id, nat>) {
    forall b :: b in sources ==> b in finished && finished[b] < start
  }

  ghost predicate RecordInTime(r: Span, started: map<Id, nat>, finished: map<Id, nat>) {
    && r.id in finished && r.id in started && Before(r.sources, started[r.id], finished)
    && (r.parent.Some? ==>
          r.parent.value in started &&
          (r.parent.value in finished ==> finished[r.id] < finished[r.parent.value]))
  }

  /** Sources finished before their consumer started; children finished before their parents. */
  ghost predicate InTime(p: Past, open: map<Id, Ctx>) {
    && (forall r :: r in p.recorded ==> RecordInTime(r, p.started, p.finished))
    && (forall x :: x in open ==> x in p.started && Before(open[x].sources, p.started[x], p.finished))
  }

  lemma ClockEnter(p: Past, open: map<Id, Ctx>, id: Id, ctx: Ctx, args: seq<Value>)
    requires Clocked(p, open) && id !in p.started && id != ""
    ensures Clocked(PastEnter(p, id, ctx.parent, ctx.startWall, args), open[id := ctx])
  {
    AttributionSnoc(p.log, Called(id, ctx.parent, ctx.startWall, args));
  }

  lemma TimeEnter(p: Past, open: map<Id, Ctx>, id: Id, ctx: Ctx, args: seq<Value>)
    requires Clocked(p, open) && InTime(p, open) && id !in p.started
    requires forall b :: b in ctx.sources ==> b in p.finished
    ensures InTime(PastEnter(p, id, ctx.parent, ctx.startWall, args), open[id := ctx])
  {}

  lemma TimeUnder(p: Past, open: map<Id, Ctx>, q: Id, more: seq<Span>)
    requires Clocked(p, open) && InTime(p, open) && q in open
    ensures Clocked(p, WithChildren(open, q, more)) && InTime(p, WithChildren(open, q, more))
  {}

  lemma ClockLeaf(p: Past, open: map<Id, Ctx>, q: Id, record: Span, content: Span)
    requires Clocked(p, open) && q in open && q in p.kids && record.id !in p.started
    ensures Clocked(PastLeaf(p, q, record, content), open)
  {
    LeafLog(p.log, Called(record.id, Some(q), content.startTime, []), Noted(record.id, content));
  }

  lemma TimeLeaf(p: Past, open: map<Id, Ctx>, q: Id, record: Span, content: Span)
    requires Clocked(p, open) && InTime(p, open) && q in open && q in p.kids
    requires record.id !in p.started && record.parent == Some(q) && record.sources == []
    ensures InTime(PastLeaf(p, q, record, content), open)
  {
    var n := PastLeaf(p, q, record, content);
    forall r | r in n.recorded ensures RecordInTime(r, n.started, n.finished) {
      if r != record { assert RecordInTime(r, p.started, p.finished); }
    }
  }

  ghost predicate Ends(e: Event, id: Id) {
    match e
    case Returned(x, _, _) => x == id
    case Raised(x, _, _, _) => x == id
    case _ => false
  }

  lemma EventAttribution(p: Past, open: map<Id, Ctx>, e: Event, id: Id, v: Value)
    requires Clocked(p, open) && Ends(e, id) && v in Attribution(p.log + [e])
    ensures Attribution(p.log + [e])[v] == id || Attribution(p.log + [e])[v] in p.finished
  {
    AttributionSnoc(p.log, e);
  }

  lemma ClockClose(p: Past, open: map<Id, Ctx>, record: Span, e: Event)
    requires Clocked(p, open) && MayClose(open, record.id) && Ends(e, record.id) && record.id in p.kids
    requires record.parent.Some? ==> record.parent.value in p.kids - {record.id}
    ensures Clocked(PastClose(p, record.parent, record, e), open - {record.id})
  {
    forall v | v in Attribution(p.log + [e])
      ensures Attribution(p.log + [e])[v] in p.finished[record.id := |p.log|]
    {
      EventAttribution(p, open, e, record.id, v);
    }
  }

  lemma TimeClose(p: Past, open: map<Id, Ctx>, record: Span, e: Event)
    requires Clocked(p, open) && InTime(p, open) && MayClose(open, record.id) && record.id in p.kids
    requires record.parent == open[record.id].parent && record.sources == open[record.id].sources
    requires record.parent.Some? ==> record.parent.value in p.kids - {record.id} && record.parent.value in open
    ensures InTime(PastClose(p, record.parent, record, e), open - {record.id})
  {
    var n := PastClose(p, record.parent, record, e);
    forall r | r in n.recorded ensures RecordInTime(r, n.started, n.finished) {
      if r != record { assert RecordInTime(r, p.started, p.finished); }
    }
  }
}
