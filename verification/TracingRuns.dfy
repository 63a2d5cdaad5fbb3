/** Whole runs of the tracer: which states are reachable, and what is emitted. */
module TracingRuns {
  import opened Common
  import opened Spans
  import opened Forest
  import opened RoundTrip
  import opened Tracing
  import opened TracingLaws

  ghost predicate EmittedTree(e: seq<Span>, recorded: set<Span>, tree: Tree) {
    CallTree(tree) && e == Flat(tree) && forall r :: r in e <==> r in recorded
  }

  /** Records wait in the buffers until the outermost span emits them, as one call tree. */
  ghost predicate RecordsOk(c: Code, p: Past) {
    if c.emitted.None? then Complete(p.kids, p.recorded)
    else exists tree :: EmittedTree(c.emitted.value, p.recorded, tree)
  }

  ghost predicate TreeOk(c: Code, p: Past) {
    && Nesting(c.open, p.started) && Buffers(c.open, p.kids) && KeptApart(p.kids, p.finished)
    && RecordsOk(c, p)
  }

  ghost predicate TimeOk(c: Code, p: Past) {
    Clocked(p, c.open) && InTime(p, c.open)
  }

  ghost predicate Ok(live: set<Value>, c: Code, p: Past) {
    HeapOk(live, c, p.log) && TreeOk(c, p) && TimeOk(c, p)
  }

  ghost predicate Inv(s: State) {
    Ok(s.live, s.code, s.past)
  }

  lemma InvNested(s: State)
    requires Inv(s)
    ensures Nested(s)
  {}

  lemma StartOk()
    ensures Inv(START)
  {
    assert Attribution([]) == map[];
  }

  // ----- Enter -----

  lemma TreeEnter(c: Code, p: Past, id: Id, ctx: Ctx, c': Code, args: seq<Value>)
    requires TreeOk(c, p) && c.emitted.None? && ctx.children == [] && id !in p.finished
    requires forall x :: x in p.started ==> p.started[x] < |p.log|
    requires id !in p.started && id != "" && if ctx.parent.Some? then ctx.parent.value in c.open else c.open == map[]
    requires c'.open == c.open[id := ctx] && c'.emitted.None?
    ensures TreeOk(c', PastEnter(p, id, ctx.parent, ctx.startWall, args))
  {
    NestingEnter(c.open, p.started, id, ctx, |p.log|);
    BuffersEnter(c.open, p.kids, id, ctx);
    ApartEnter(p.kids, p.finished, id);
    CompleteEnter(p.kids, p.recorded, id);
  }

  /** Whatever the registry holds is the id of a finished span. */
  lemma SourcesFinished(live: set<Value>, c: Code, p: Past, args: seq<Value>, b: Id)
    requires HeapOk(live, c, p.log) && c.emitted.None? && Clocked(p, c.open) && b in Sources(c.registry, args)
    ensures b in p.finished
  {
    SourcesAre(c.registry, args, b);
  }

  lemma NothingYet(live: set<Value>, c: Code, p: Past)
    requires HeapOk(live, c, p.log) && Clocked(p, c.open) && p.log == []
    ensures c.open == map[] && c.emitted.None?
  {}

  lemma EnterTimes(live: set<Value>, c: Code, p: Past, id: Id, parent: Option<Id>, startWall: nat, args: seq<Value>)
    requires HeapOk(live, c, p.log) && c.emitted.None? && TimeOk(c, p) && id !in p.started && id != ""
    ensures TimeOk(CodeEnter(c, id, parent, startWall, args), PastEnter(p, id, parent, startWall, args))
  {
    var ctx := NewCtx(Prepared(c, parent).registry, parent, startWall, args);
    forall b | b in ctx.sources ensures b in p.finished {
      if parent.Some? { SourcesFinished(live, c, p, args, b); } else { SourcesAre(map[], args, b); }
    }
    ClockEnter(p, c.open, id, ctx, args);
    TimeEnter(p, c.open, id, ctx, args);
  }

  lemma KeptByEnter(live: set<Value>, c: Code, p: Past, id: Id, parent: Option<Id>, startWall: nat, args: seq<Value>)
    requires HeapOk(live, c, p.log) && TreeOk(c, p) && TimeOk(c, p)
    requires id !in p.started && id !in p.finished && id != "" && (forall v :: v in args ==> v in live)
    requires if parent.Some? then parent.value in c.open else p.log == []
    ensures Ok(live, CodeEnter(c, id, parent, startWall, args), PastEnter(p, id, parent, startWall, args))
  {
    if p.log == [] { NothingYet(live, c, p); }
    HeapEnter(live, c, p.log, id, parent, startWall, args);
    TreeEnter(c, p, id, NewCtx(Prepared(c, parent).registry, parent, startWall, args),
              CodeEnter(c, id, parent, startWall, args), args);
    EnterTimes(live, c, p, id, parent, startWall, args);
  }

  // ----- Leaf -----

  lemma HeapLeaf(live: set<Value>, c: Code, log: seq<Event>, q: Id, record: Span, e1: Event, e2: Event)
    requires HeapOk(live, c, log) && q in c.open && e1.Called? && e2.Noted?
    ensures HeapOk(live, CodeLeaf(c, q, record), log + [e1, e2])
  {
    LeafLog(log, e1, e2);
    ArgsUnder(live, c.open, q, [record]);
  }

  lemma TreeLeaf(c: Code, p: Past, q: Id, record: Span, content: Span)
    requires TreeOk(c, p) && c.emitted.None? && q in c.open
    requires record.parent == Some(q) && record.id !in p.started && record.id !in p.finished && record.id != ""
    ensures TreeOk(CodeLeaf(c, q, record), PastLeaf(p, q, record, content))
  {
    NestingUnder(c.open, p.started, q, [record]);
    BuffersLeaf(c.open, p.kids, q, record);
    ApartLeaf(p.kids, p.finished, record, q, |p.log| + 1);
    CompleteLeaf(p.kids, p.recorded, record, q);
  }

  lemma TimesUnder(p: Past, c: Code, q: Id, more: seq<Span>)
    requires TimeOk(c, p) && q in c.open
    ensures TimeOk(c.(open := WithChildren(c.open, q, more)), p)
  {
    TimeUnder(p, c.open, q, more);
  }

  // ----- Close -----

  /** The outermost record with everything buffered below it is one call tree. */
  lemma EmitTree(record: Span, below: seq<Tree>)
    requires record.parent.None? && Linked(below, Some(record.id)) && record.id != "" && "" !in IdsBelow(below)
    requires Unique(FlatAll(below)) && record.id !in IdsBelow(below)
    ensures CallTree(Tree(record, below)) && Flat(Tree(record, below)) == [record] + FlatAll(below)
  {
    var tree := Tree(record, below);
    assert FlatAll([]) == [] && IdsBelow([]) == {};
    TreeJoins([], record, below);
    FlatSingle(tree);
    assert [] + [tree] == [tree];
  }

  lemma TreeEmit(c: Code, p: Past, record: Span, event: Event)
    requires TreeOk(c, p) && c.emitted.None? && c.open.Keys == {record.id} && record.id != ""
    requires record.parent.None? == c.open[record.id].parent.None? == true
    ensures TreeOk(CodeClose(c, record.id, record), PastClose(p, None, record, event))
  {
    var id := record.id;
    var below := p.kids[id];
    EmitTree(record, below);
    var e, recorded := [record] + c.open[id].children, p.recorded + {record};
    forall r ensures r in e <==> r in recorded {
      assert r in p.recorded <==> r in FlatAll(below) by {
        if r in p.recorded { var x :| x in p.kids && r in FlatAll(p.kids[x]); assert x == id; }
      }
    }
    assert EmittedTree(e, recorded, Tree(record, below));
    assert c.open - {id} == map[] && p.kids - {id} == map[];
  }

  lemma TreeHandUp(c: Code, p: Past, record: Span, event: Event, q: Id)
    requires TreeOk(c, p) && c.emitted.None? && MayClose(c.open, record.id) && record.id != ""
    requires record.parent == c.open[record.id].parent == Some(q) && q != record.id
    ensures TreeOk(CodeClose(c, record.id, record), PastClose(p, Some(q), record, event))
  {
    NestingMinus(c.open, p.started, record.id);
    NestingUnder(c.open - {record.id}, p.started, q, [record] + c.open[record.id].children);
    BuffersClose(c.open, p.kids, record);
    ApartClose(p.kids, p.finished, record, Some(q), |p.log|);
    CompleteClose(p.kids, p.recorded, record, q);
  }

  lemma TreeClose(c: Code, p: Past, record: Span, event: Event)
    requires TreeOk(c, p) && c.emitted.None? && MayClose(c.open, record.id) && record.id != ""
    requires record.parent == c.open[record.id].parent
    requires record.parent.Some? ==> record.parent.value != record.id && record.parent.value in c.open
    ensures TreeOk(CodeClose(c, record.id, record), PastClose(p, record.parent, record, event))
  {
    match record.parent
    case Some(q) => TreeHandUp(c, p, record, event, q);
    case None =>
      OutermostIsLast(c.open, p.started, record.id);
      TreeEmit(c, p, record, event);
  }

  lemma TimesClose(c: Code, p: Past, record: Span, event: Event)
    requires TimeOk(c, p) && MayClose(c.open, record.id) && Ends(event, record.id) && record.id in p.kids
    requires record.parent == c.open[record.id].parent && record.sources == c.open[record.id].sources
    requires record.parent.Some? ==>
               record.parent.value != record.id && record.parent.value in c.open && record.parent.value in p.kids
    ensures TimeOk(CodeClose(c, record.id, record), PastClose(p, record.parent, record, event))
  {
    ClockClose(p, c.open, record, event);
    TimeClose(p, c.open, record, event);
    if record.parent.Some? {
      var n := PastClose(p, record.parent, record, event);
      TimeUnder(n, c.open - {record.id}, record.parent.value, [record] + c.open[record.id].children);
    }
  }

  lemma KeptByHeapStep(live: set<Value>, c: Code, p: Past, v: Value)
    requires Ok(live, c, p)
    ensures (forall u :: u in live ==> u.addr != v.addr) ==> Ok(live + {v}, c, p)
    ensures v != NONE_VALUE && v !in c.refs && (forall x :: x in c.open ==> v !in c.open[x].args) ==>
            Ok(live - {v}, c, p)
  {
    if forall u :: u in live ==> u.addr != v.addr { HeapAlloc(live, c, p.log, v); }
    if v != NONE_VALUE && v !in c.refs && forall x :: x in c.open ==> v !in c.open[x].args {
      HeapFree(live, c, p.log, v);
    }
  }

  lemma TimesLeaf(c: Code, p: Past, under: Id, record: Span, content: Span)
    requires TimeOk(c, p) && under in c.open && under in p.kids
    requires record.id !in p.started && record.parent == Some(under) && record.sources == []
    ensures TimeOk(CodeLeaf(c, under, record), PastLeaf(p, under, record, content))
  {
    ClockLeaf(p, c.open, under, record, content);
    TimeLeaf(p, c.open, under, record, content);
    TimesUnder(PastLeaf(p, under, record, content), c, under, [record]);
  }

  lemma OnlyOutermost(c: Code, p: Past, record: Span)
    requires Nesting(c.open, p.started) && MayClose(c.open, record.id) && record.parent == c.open[record.id].parent
    ensures record.parent.None? ==> c.open.Keys == {record.id}
  {
    if record.parent.None? { OutermostIsLast(c.open, p.started, record.id); }
  }

  lemma KeptByLeaf(s: State, id: Id, under: Id, content: Span)
    requires Inv(s) && Enabled(s, Leaf(id, under, content))
    ensures Nested(s) && Inv(Next(s, Leaf(id, under, content)))
  {
    InvNested(s);
    var record := LeafRecord(under, id, content);
    var called, noted := Called(id, Some(under), content.startTime, []), Noted(id, content);
    HeapLeaf(s.live, s.code, s.past.log, under, record, called, noted);
    TreeLeaf(s.code, s.past, under, record, content);
    TimesLeaf(s.code, s.past, under, record, content);
  }

  lemma KeptByReturn(s: State, id: Id, result: Value, content: Span)
    requires Inv(s) && Enabled(s, Return(id, result, content))
    ensures Nested(s) && Inv(Next(s, Return(id, result, content)))
  {
    InvNested(s);
    var (c, p) := (s.code, s.past);
    var record := ReturnRecord(c.open[id], id, content);
    OnlyOutermost(c, p, record);
    HeapReturn(s.live, c, p.log, Returned(id, result, content), record);
    var c1 := c.(registry := Registered(c.registry, result, id), refs := Kept(c.refs, result));
    TreeClose(c1, p, record, Returned(id, result, content));
    TimesClose(c1, p, record, Returned(id, result, content));
  }

  lemma KeptByRaise(s: State, id: Id, failure: Failure, content: Span)
    requires Inv(s) && Enabled(s, Raise(id, failure, content))
    ensures Nested(s) && Inv(Next(s, Raise(id, failure, content)))
  {
    InvNested(s);
    var (c, p) := (s.code, s.past);
    var args := c.open[id].args;
    var record := RaiseRecord(c.open[id], id, content, failure);
    OnlyOutermost(c, p, record);
    HeapRaise(s.live, c, p.log, Raised(id, args, failure, content), record);
    var c1 := c.(registry := Repointed(c.registry, args, id));
    TreeClose(c1, p, record, Raised(id, args, failure, content));
    TimesClose(c1, p, record, Raised(id, args, failure, content));
  }

  /** Every step keeps the invariant. */
  lemma EveryStepKeeps(s: State, step: Step)
    requires Inv(s) && Enabled(s, step)
    ensures Nested(s) && Inv(Next(s, step))
  {
    InvNested(s);
    match step
    case Alloc(v) => KeptByHeapStep(s.live, s.code, s.past, v);
    case Free(v) => KeptByHeapStep(s.live, s.code, s.past, v);
    case Enter(id, parent, startWall, args) => KeptByEnter(s.live, s.code, s.past, id, parent, startWall, args);
    case Leaf(id, under, content) => KeptByLeaf(s, id, under, content);
    case Return(id, result, content) => KeptByReturn(s, id, result, content);
    case Raise(id, failure, content) => KeptByRaise(s, id, failure, content);
  }
}
