/** What a recorded source means, whatever addresses were used again in between. */
module Lineage {
  import opened Common
  import opened JsonValues
  import opened Spans
  import opened Tracing
  import opened TracingLaws
  import opened TracingRuns

  // ----- Who last held a value -----

  ghost predicate ReturnedBefore(log: seq<Event>, i: nat, v: Value) {
    exists j :: 0 <= j < i && j < |log| && log[j].Returned? && log[j].value == v
  }

  /** At `i`, span `b` returned `v`, or raised while it had `v` as an argument after `v` had been returned. */
  ghost predicate Touches(log: seq<Event>, i: nat, v: Value, b: Id) {
    && i < |log| && log[i].id == b && v.tracked
    && match log[i]
       case Returned(_, u, _) => u == v
       case Raised(_, args, _, _) => v in args && ReturnedBefore(log, i, v)
       case _ => false
  }

  /** `b` is the last span that returned `v` or raised while holding it. */
  ghost predicate LastHolder(log: seq<Event>, v: Value, b: Id) {
    exists i :: Touches(log, i, v, b) && forall j, c :: j > i ==> !Touches(log, j, v, c)
  }

  lemma TouchesPrefix(log: seq<Event>, e: Event, i: nat, v: Value, b: Id)
    requires i < |log|
    ensures Touches(log + [e], i, v, b) <==> Touches(log, i, v, b)
  {
    if ReturnedBefore(log, i, v) {
      var j :| 0 <= j < i && j < |log| && log[j].Returned? && log[j].value == v;
      assert (log + [e])[j] == log[j];
    }
    if ReturnedBefore(log + [e], i, v) {
      var j :| 0 <= j < i && j < |log + [e]| && (log + [e])[j].Returned? && (log + [e])[j].value == v;
      assert (log + [e])[j] == log[j];
    }
  }

  ghost predicate TouchedLast(log: seq<Event>, e: Event, v: Value) {
    Touches(log + [e], |log|, v, e.id)
  }

  lemma LastHolderSnoc(log: seq<Event>, e: Event, v: Value, b: Id)
    ensures LastHolder(log + [e], v, b) <==> if TouchedLast(log, e, v) then b == e.id else LastHolder(log, v, b)
  {
    var more := log + [e];
    forall i: nat, c | i < |log| ensures Touches(more, i, v, c) <==> Touches(log, i, v, c) {
      TouchesPrefix(log, e, i, v, c);
    }
    if TouchedLast(log, e, v) {
      assert forall j: nat, c :: j > |log| ==> !Touches(more, j, v, c);
      if LastHolder(more, v, b) {
        var i: nat :| Touches(more, i, v, b) && forall j: nat, c :: j > i ==> !Touches(more, j, v, c);
        assert i == |log|;
      }
    } else {
      if LastHolder(more, v, b) {
        var i: nat :| Touches(more, i, v, b) && forall j: nat, c :: j > i ==> !Touches(more, j, v, c);
        assert i < |log|;
        forall j: nat, c | j > i ensures !Touches(log, j, v, c) { if j < |log| { assert !Touches(more, j, v, c); } }
      }
      if LastHolder(log, v, b) {
        var i: nat :| Touches(log, i, v, b) && forall j: nat, c :: j > i ==> !Touches(log, j, v, c);
        forall j: nat, c | j > i ensures !Touches(more, j, v, c) { if j < |log| { assert !Touches(log, j, v, c); } }
        assert Touches(more, i, v, b);
      }
    }
  }

  lemma ReturnedSnoc(log: seq<Event>, e: Event, v: Value)
    ensures ReturnedBefore(log + [e], |log| + 1, v) <==> ReturnedBefore(log, |log|, v) || (e.Returned? && e.value == v)
    ensures ReturnedBefore(log + [e], |log|, v) <==> ReturnedBefore(log, |log|, v)
  {
    var more := log + [e];
    assert more[|log|] == e;
    forall j | 0 <= j < |log| ensures more[j] == log[j] {}
  }

  /** The attribution map says exactly who last held each tracked value that was ever returned. */
  lemma {:induction false} AttributionIs(log: seq<Event>, v: Value)
    ensures v in Attribution(log) <==> v.tracked && ReturnedBefore(log, |log|, v)
    ensures forall b :: LastHolder(log, v, b) <==> v in Attribution(log) && Attribution(log)[v] == b
  {
    if log == [] {
      assert forall i: nat, b :: !Touches(log, i, v, b);
    } else {
      var before, e := log[..|log| - 1], log[|log| - 1];
      assert log == before + [e];
      AttributionIs(before, v);
      AttributionSnoc(before, e);
      ReturnedSnoc(before, e, v);
      forall b ensures LastHolder(log, v, b) <==> v in Attribution(log) && Attribution(log)[v] == b {
        LastHolderSnoc(before, e, v, b);
      }
    }
  }

  // ----- Sources through addresses -----

  /** The sources of a call made at `at` are the last holders of its arguments at that moment. */
  ghost predicate SourcedFrom(log: seq<Event>, at: nat, sources: seq<Id>) {
    && at < |log| && log[at].Called? && NoDup(sources)
    && forall b :: b in sources <==> Supplied(log[..at], log[at].args, b)
  }

  ghost predicate Supplied(log: seq<Event>, args: seq<Value>, b: Id) {
    exists v :: v in args && LastHolder(log, v, b)
  }

  /** Reading the registry by address finds exactly the last holders. */
  lemma SourcesAreHolders(live: set<Value>, c: Code, p: Past, args: seq<Value>, b: Id)
    requires HeapOk(live, c, p.log) && c.emitted.None? && Clocked(p, c.open) && "" !in p.finished
    requires forall v :: v in args ==> v in live
    ensures b in Sources(c.registry, args) <==> Supplied(p.log, args, b)
  {
    SourcesAre(c.registry, args, b);
    var m := Attribution(p.log);
    forall v | v in args
      ensures LastHolder(p.log, v, b) <==> b != "" && v.addr in c.registry && c.registry[v.addr] == b
    {
      AttributionIs(p.log, v);
      if v.addr in c.registry {
        var u :| u in m && u.addr == v.addr;
        assert u == v;
      }
    }
  }

  lemma NoSources(args: seq<Value>, b: Id)
    ensures b !in Sources(map[], args) && !Supplied([], args, b)
  {
    SourcesAre(map[], args, b);
    forall v | v in args ensures !LastHolder([], v, b) { AttributionIs([], v); }
  }

  // ----- An invariant of every run -----

  ghost predicate RaisesRecorded(p: Past) {
    forall i :: 0 <= i < |p.log| && p.log[i].Raised? ==>
      exists r :: r in p.recorded && r.id == p.log[i].id && HasError(r)
  }

  ghost predicate Traced(c: Code, p: Past) {
    && (forall r :: r in p.recorded ==> r.id in p.started && SourcedFrom(p.log, p.started[r.id], r.sources))
    && (forall x :: x in c.open ==> x in p.started && SourcedFrom(p.log, p.started[x], c.open[x].sources))
    && RaisesRecorded(p)
  }

  lemma StillSourced(log: seq<Event>, more: seq<Event>, at: nat, sources: seq<Id>)
    requires SourcedFrom(log, at, sources)
    ensures SourcedFrom(log + more, at, sources)
  {
    assert (log + more)[..at] == log[..at];
  }

  lemma RaisesMore(p: Past, q: Past, e: Event)
    requires RaisesRecorded(p) && q.log == p.log + [e] && p.recorded <= q.recorded
    requires e.Raised? ==> exists r :: r in q.recorded && r.id == e.id && HasError(r)
    ensures RaisesRecorded(q)
  {
    forall i | 0 <= i < |q.log| && q.log[i].Raised?
      ensures exists r :: r in q.recorded && r.id == q.log[i].id && HasError(r)
    {
      if i < |p.log| {
        assert q.log[i] == p.log[i];
        var r :| r in p.recorded && r.id == p.log[i].id && HasError(r);
        assert r in q.recorded;
      }
    }
  }

  lemma RaisedHasError(ctx: Ctx, id: Id, content: Span, f: Failure)
    requires f.kind != ""
    ensures HasError(RaiseRecord(ctx, id, content, f))
    ensures !HasError(ReturnRecord(ctx, id, content))
  {
    var fields := [("type", Str(f.kind)), ("message", Str(f.message)), ("stack", Str(f.stack))];
    assert Get(fields, "type") == Some(Str(f.kind));
  }

  lemma NewlySourced(s: State, e: Event)
    requires Inv(s) && s.code.emitted.None? && e.Called? && (forall v :: v in e.args ==> v in s.live)
    requires e.parent.None? ==> s.past.log == []
    ensures SourcedFrom(s.past.log + [e], |s.past.log|, Sources(Prepared(s.code, e.parent).registry, e.args))
  {
    var (c, p) := (s.code, s.past);
    var sources := Sources(Prepared(c, e.parent).registry, e.args);
    SourcesNoDup(Prepared(c, e.parent).registry, e.args);
    assert (p.log + [e])[..|p.log|] == p.log;
    forall b ensures b in sources <==> Supplied(p.log, e.args, b) {
      if e.parent.Some? { SourcesAreHolders(s.live, c, p, e.args, b); } else { NoSources(e.args, b); }
    }
  }

  lemma TracedEnter(c: Code, p: Past, id: Id, parent: Option<Id>, startWall: nat, args: seq<Value>)
    requires Traced(c, p) && id !in p.started
    requires SourcedFrom(p.log + [Called(id, parent, startWall, args)], |p.log|,
                         Sources(Prepared(c, parent).registry, args))
    ensures Traced(CodeEnter(c, id, parent, startWall, args), PastEnter(p, id, parent, startWall, args))
  {
    var e := Called(id, parent, startWall, args);
    TracedMore(c, p, [e]);
    RaisesMore(p, PastEnter(p, id, parent, startWall, args), e);
  }

  /** What was sourced stays sourced when the log grows. */
  lemma TracedMore(c: Code, p: Past, more: seq<Event>)
    requires Traced(c, p)
    ensures forall r :: r in p.recorded ==> SourcedFrom(p.log + more, p.started[r.id], r.sources)
    ensures forall x :: x in c.open ==> SourcedFrom(p.log + more, p.started[x], c.open[x].sources)
  {
    forall r | r in p.recorded ensures SourcedFrom(p.log + more, p.started[r.id], r.sources) {
      StillSourced(p.log, more, p.started[r.id], r.sources);
    }
    forall x | x in c.open ensures SourcedFrom(p.log + more, p.started[x], c.open[x].sources) {
      StillSourced(p.log, more, p.started[x], c.open[x].sources);
    }
  }

  lemma TracedLeaf(c: Code, p: Past, q: Id, record: Span, content: Span)
    requires Traced(c, p) && q in c.open && q in p.kids && record.sources == []
    requires record.id !in p.started
    ensures Traced(CodeLeaf(c, q, record), PastLeaf(p, q, record, content))
  {
    var e1, e2 := Called(record.id, Some(q), content.startTime, []), Noted(record.id, content);
    assert p.log + [e1, e2] == p.log + [e1] + [e2];
    TracedMore(c, p, [e1, e2]);
    RaisesMore(p, p.(log := p.log + [e1]), e1);
    RaisesMore(p.(log := p.log + [e1]), PastLeaf(p, q, record, content), e2);
  }

  lemma TracedClose(c: Code, p: Past, record: Span, e: Event)
    requires Traced(c, p) && MayClose(c.open, record.id) && record.id in p.kids
    requires record.sources == c.open[record.id].sources && record.parent == c.open[record.id].parent
    requires record.parent.Some? ==>
               record.parent.value != record.id && record.parent.value in c.open && record.parent.value in p.kids
    requires e.Raised? ==> e.id == record.id && HasError(record)
    ensures Traced(CodeClose(c, record.id, record), PastClose(p, record.parent, record, e))
  {
    TracedMore(c, p, [e]);
    var q := PastClose(p, record.parent, record, e);
    assert record in q.recorded;
    RaisesMore(p, q, e);
  }

  lemma TracedStep(s: State, step: Step)
    requires Inv(s) && Nested(s) && Traced(s.code, s.past) && Enabled(s, step)
    ensures Traced(Next(s, step).code, Next(s, step).past)
  {
    var (c, p) := (s.code, s.past);
    match step
    case Alloc(_) =>
    case Free(_) =>
    case Enter(id, parent, startWall, args) =>
      if p.log == [] { NothingYet(s.live, c, p); }
      NewlySourced(s, Called(id, parent, startWall, args));
      TracedEnter(c, p, id, parent, startWall, args);
    case Leaf(id, under, content) => TracedLeaf(c, p, under, LeafRecord(under, id, content), content);
    case Return(id, result, content) =>
      var c1 := c.(registry := Registered(c.registry, result, id), refs := Kept(c.refs, result));
      TracedClose(c1, p, ReturnRecord(c.open[id], id, content), Returned(id, result, content));
    case Raise(id, failure, content) =>
      RaisedHasError(c.open[id], id, content, failure);
      var c1 := c.(registry := Repointed(c.registry, c.open[id].args, id));
      var e := Raised(id, c.open[id].args, failure, content);
      TracedClose(c1, p, RaiseRecord(c.open[id], id, content, failure), e);
  }

  // ----- Runs -----

  ghost predicate Reaches(s: State, steps: seq<Step>, end: State)
    decreases |steps|
  {
    if steps == [] then s == end
    else Nested(s) && Enabled(s, steps[0]) && Reaches(Next(s, steps[0]), steps[1..], end)
  }

  ghost predicate Reachable(s: State) {
    exists steps :: Reaches(START, steps, s)
  }

  lemma {:induction false} RunKeeps(s: State, steps: seq<Step>, end: State)
    requires Inv(s) && Traced(s.code, s.past) && Reaches(s, steps, end)
    ensures Inv(end) && Traced(end.code, end.past)
    decreases |steps|
  {
    if steps != [] {
      EveryStepKeeps(s, steps[0]);
      TracedStep(s, steps[0]);
      RunKeeps(Next(s, steps[0]), steps[1..], end);
    }
  }

  lemma ReachableKeeps(s: State)
    requires Reachable(s)
    ensures Inv(s) && Traced(s.code, s.past) && Nested(s)
  {
    var steps :| Reaches(START, steps, s);
    StartOk();
    RunKeeps(START, steps, s);
    InvNested(s);
  }

  /** Nothing blocks a run from going on: the steps of a reachable state need no more than their own guard. */
  lemma RunGoesOn(s: State, step: Step)
    requires Reachable(s) && Enabled(s, step)
    ensures Nested(s) && Reachable(Next(s, step))
  {
    ReachableKeeps(s);
    var steps :| Reaches(START, steps, s);
    ReachesSnoc(START, steps, s, step);
  }

  lemma {:induction false} ReachesSnoc(s: State, steps: seq<Step>, end: State, step: Step)
    requires Reaches(s, steps, end) && Nested(end) && Enabled(end, step)
    ensures Reaches(s, steps + [step], Next(end, step))
    decreases |steps|
  {
    if steps == [] {
      assert [step][1..] == [];
    } else {
      assert (steps + [step])[1..] == steps[1..] + [step];
      ReachesSnoc(Next(s, steps[0]), steps[1..], end, step);
    }
  }

  // ----- The theorems -----

  /** Each registry entry is read back as the object it was written for: whichever live object has
      that address now was returned, and the entry names the span that held it last. */
  lemma RegistryDenotes(s: State, v: Value, b: Id)
    requires Reachable(s) && s.code.emitted.None? && v in s.live
    ensures v.addr in s.code.registry && s.code.registry[v.addr] == b <==> LastHolder(s.past.log, v, b)
  {
    ReachableKeeps(s);
    AttributionIs(s.past.log, v);
    if v.addr in s.code.registry {
      var u :| u in Attribution(s.past.log) && u.addr == v.addr;
      assert u == v;
    }
  }

  /** Kept alive are exactly the tracked values that some call has returned, `None` aside. */
  lemma KeptAlive(s: State, v: Value)
    requires Reachable(s) && s.code.emitted.None?
    ensures v in s.code.refs <==> v.tracked && v != NONE_VALUE && ReturnedBefore(s.past.log, |s.past.log|, v)
  {
    ReachableKeeps(s);
    AttributionIs(s.past.log, v);
  }

  /** The sources recorded for a span are exactly the last holders of its arguments when it was called. */
  lemma LineageExact(s: State, r: Span, b: Id)
    requires Reachable(s) && r in s.past.recorded
    ensures r.id in s.past.started && s.past.started[r.id] < |s.past.log| && s.past.log[s.past.started[r.id]].Called?
    ensures NoDup(r.sources)
    ensures var at := s.past.started[r.id];
            b in r.sources <==> Supplied(s.past.log[..at], s.past.log[at].args, b)
  {
    ReachableKeeps(s);
  }
}
