/** What a recorded span says about its call. */
module Records {
  import opened Common
  import opened JsonValues
  import opened Spans
  import opened Evidence
  import opened Tracing
  import opened TracingLaws
  import opened TracingRuns
  import opened Lineage

  // ----- Records against the log -----

  /** A call that returned: everything as captured, and no error. */
  ghost predicate SaysReturned(r: Span, content: Span) {
    && r.name == content.name && r.latency == content.latency && r.input == content.input
    && r.output == content.output && r.error == Null
    && r.tokens == content.tokens && r.confidence == content.confidence
  }

  /** A call that raised: no output and nothing read from a result, but the failure. */
  ghost predicate SaysRaised(r: Span, content: Span, f: Failure) {
    && r.name == content.name && r.latency == content.latency && r.input == content.input
    && r.output == Null && r.tokens == None && r.confidence == None
    && r.error.Obj? && |r.error.fields| == 3
    && Get(r.error.fields, "type") == Some(Str(f.kind)) && Get(r.error.fields, "message") == Some(Str(f.message))
    && Get(r.error.fields, "stack") == Some(Str(f.stack))
  }

  /** A span added without a call: output and error as given. */
  ghost predicate SaysNoted(r: Span, content: Span) {
    && r.name == content.name && r.latency == content.latency && r.input == content.input
    && r.output == content.output && r.error == content.error
    && r.tokens == content.tokens && r.confidence == None
  }

  /** The call began at `from` and ended at `to` in the log, and the record says so. */
  ghost predicate Says(log: seq<Event>, from: nat, to: nat, r: Span) {
    && from < to < |log| && log[from].Called? && log[from].id == r.id && log[to].id == r.id
    && r.parent == log[from].parent && r.startTime == log[from].startWall
    && match log[to]
       case Returned(_, _, content) => SaysReturned(r, content)
       case Raised(_, _, f, content) => f.kind != "" && SaysRaised(r, content, f)
       case Noted(_, content) => SaysNoted(r, content)
       case Called(_, _, _, _) => false
  }

  ghost predicate Begun(log: seq<Event>, from: nat, id: Id, ctx: Ctx) {
    && from < |log| && log[from].Called? && log[from].id == id
    && ctx.parent == log[from].parent && ctx.startWall == log[from].startWall
  }

  /** Every end in the log has its record. */
  ghost predicate Logged(p: Past) {
    forall i :: 0 <= i < |p.log| && !p.log[i].Called? ==>
      && p.log[i].id in p.finished && p.finished[p.log[i].id] == i
      && exists r :: r in p.recorded && r.id == p.log[i].id
  }

  ghost predicate Faithfully(c: Code, p: Past) {
    && Logged(p)
    && (forall r :: r in p.recorded ==>
          r.id in p.started && r.id in p.finished && Says(p.log, p.started[r.id], p.finished[r.id], r))
    && (forall x :: x in c.open ==> x in p.started && Begun(p.log, p.started[x], x, c.open[x]))
  }

  // ----- Every step keeps it -----

  lemma SaysOn(log: seq<Event>, more: seq<Event>, from: nat, to: nat, r: Span)
    requires Says(log, from, to, r)
    ensures Says(log + more, from, to, r)
  {}

  /** Open spans have not finished, and what has finished is in the log. */
  ghost predicate Ended(p: Past, open: map<Id, Ctx>) {
    (forall x :: x in open ==> x !in p.finished) && forall x :: x in p.finished ==> p.finished[x] < |p.log|
  }

  lemma ClockedEnds(p: Past, open: map<Id, Ctx>)
    requires Clocked(p, open)
    ensures Ended(p, open) && forall x :: x !in p.started ==> x !in p.finished && x !in open
  {}

  lemma LoggedMore(p: Past, n: Past, record: Span)
    requires Logged(p) && |p.log| < |n.log| && n.log[..|p.log|] == p.log
    requires record in n.recorded && p.recorded <= n.recorded
    requires record.id !in p.finished && n.finished == p.finished[record.id := |n.log| - 1]
    requires n.log[|n.log| - 1].id == record.id && forall i :: |p.log| <= i < |n.log| - 1 ==> n.log[i].Called?
    ensures Logged(n)
  {
    forall i | 0 <= i < |n.log| && !n.log[i].Called?
      ensures n.log[i].id in n.finished && n.finished[n.log[i].id] == i
      ensures exists r :: r in n.recorded && r.id == n.log[i].id
    {
      if i < |p.log| {
        assert n.log[i] == p.log[i];
        var r :| r in p.recorded && r.id == p.log[i].id;
        assert r in n.recorded;
      } else {
        assert i == |n.log| - 1;
      }
    }
  }

  lemma LoggedCall(p: Past, id: Id, parent: Option<Id>, startWall: nat, args: seq<Value>)
    requires Logged(p)
    ensures Logged(PastEnter(p, id, parent, startWall, args))
  {
    var n := PastEnter(p, id, parent, startWall, args);
    forall i | 0 <= i < |n.log| && !n.log[i].Called?
      ensures n.log[i].id in n.finished && n.finished[n.log[i].id] == i
      ensures exists r :: r in n.recorded && r.id == n.log[i].id
    {
      assert i < |p.log| && n.log[i] == p.log[i];
    }
  }

  lemma KeptEnter(c: Code, p: Past, id: Id, parent: Option<Id>, startWall: nat, args: seq<Value>)
    requires Faithfully(c, p) && id !in p.started && id !in c.open
    ensures Faithfully(CodeEnter(c, id, parent, startWall, args), PastEnter(p, id, parent, startWall, args))
  {
    var n := PastEnter(p, id, parent, startWall, args);
    LoggedCall(p, id, parent, startWall, args);
    forall r | r in n.recorded ensures Says(n.log, n.started[r.id], n.finished[r.id], r) {
      SaysOn(p.log, [Called(id, parent, startWall, args)], p.started[r.id], p.finished[r.id], r);
    }
  }

  lemma KeptLeaf(c: Code, p: Past, q: Id, id: Id, content: Span)
    requires Faithfully(c, p) && q in c.open && q in p.kids
    requires id !in p.started && id !in p.finished && id !in c.open
    ensures Faithfully(CodeLeaf(c, q, LeafRecord(q, id, content)), PastLeaf(p, q, LeafRecord(q, id, content), content))
  {
    var record := LeafRecord(q, id, content);
    var n := PastLeaf(p, q, record, content);
    var e1, e2 := Called(id, Some(q), content.startTime, []), Noted(id, content);
    LoggedMore(p, n, record);
    forall r | r in n.recorded ensures r.id in n.started && r.id in n.finished
    ensures Says(n.log, n.started[r.id], n.finished[r.id], r) {
      if r in p.recorded {
        SaysOn(p.log, [e1, e2], p.started[r.id], p.finished[r.id], r);
      } else {
        assert r == record && n.log[|p.log|] == e1 && n.log[|p.log| + 1] == e2;
      }
    }
  }

  lemma KeptClose(c: Code, p: Past, record: Span, e: Event)
    requires Faithfully(c, p) && Ended(p, c.open) && record.id in c.open && record.id in p.kids
    requires record.parent == c.open[record.id].parent
    requires record.parent.Some? ==>
               record.parent.value != record.id && record.parent.value in c.open && record.parent.value in p.kids
    requires Says(p.log + [e], p.started[record.id], |p.log|, record) && e.id == record.id
    ensures Faithfully(CodeClose(c, record.id, record), PastClose(p, record.parent, record, e))
  {
    var n := PastClose(p, record.parent, record, e);
    LoggedMore(p, n, record);
    forall r | r in n.recorded ensures r.id in n.started && r.id in n.finished
    ensures Says(n.log, n.started[r.id], n.finished[r.id], r) {
      if r in p.recorded {
        SaysOn(p.log, [e], p.started[r.id], p.finished[r.id], r);
      } else {
        assert r == record;
      }
    }
  }

  lemma SaysWhenReturned(c: Code, p: Past, id: Id, result: Value, content: Span)
    requires Faithfully(c, p) && id in c.open
    ensures Says(p.log + [Returned(id, result, content)], p.started[id], |p.log|, ReturnRecord(c.open[id], id, content))
  {}

  lemma SaysWhenRaised(c: Code, p: Past, id: Id, f: Failure, content: Span)
    requires Faithfully(c, p) && id in c.open && f.kind != ""
    ensures var e := Raised(id, c.open[id].args, f, content);
            Says(p.log + [e], p.started[id], |p.log|, RaiseRecord(c.open[id], id, content, f))
  {
    var fields := [("type", Str(f.kind)), ("message", Str(f.message)), ("stack", Str(f.stack))];
    assert Get(fields, "type") == Some(Str(f.kind));
    assert fields[1..] == [("message", Str(f.message)), ("stack", Str(f.stack))];
    assert Get(fields[1..], "message") == Some(Str(f.message));
    assert fields[1..][1..] == [("stack", Str(f.stack))];
    assert Get(fields[1..][1..], "stack") == Some(Str(f.stack));
  }

  lemma KeptStep(s: State, step: Step)
    requires Inv(s) && Nested(s) && Faithfully(s.code, s.past) && Enabled(s, step)
    ensures Faithfully(Next(s, step).code, Next(s, step).past)
  {
    var (c, p) := (s.code, s.past);
    ClockedEnds(p, c.open);
    match step
    case Alloc(_) =>
    case Free(_) =>
    case Enter(id, parent, startWall, args) => KeptEnter(c, p, id, parent, startWall, args);
    case Leaf(id, under, content) => KeptLeaf(c, p, under, id, content);
    case Return(id, result, content) =>
      SaysWhenReturned(c, p, id, result, content);
      var c1 := c.(registry := Registered(c.registry, result, id), refs := Kept(c.refs, result));
      KeptClose(c1, p, ReturnRecord(c.open[id], id, content), Returned(id, result, content));
    case Raise(id, failure, content) =>
      SaysWhenRaised(c, p, id, failure, content);
      var c1 := c.(registry := Repointed(c.registry, c.open[id].args, id));
      KeptClose(c1, p, RaiseRecord(c.open[id], id, content, failure), Raised(id, c.open[id].args, failure, content));
  }

  // ----- Runs -----

  lemma {:induction false} RunKeepsRecords(s: State, steps: seq<Step>, end: State)
    requires Inv(s) && Faithfully(s.code, s.past) && Reaches(s, steps, end)
    ensures Faithfully(end.code, end.past)
    decreases |steps|
  {
    if steps != [] {
      EveryStepKeeps(s, steps[0]);
      KeptStep(s, steps[0]);
      RunKeepsRecords(Next(s, steps[0]), steps[1..], end);
    }
  }

  /** Every recorded span has the parent and wall time of its enter step, and the content captured
      when it ended: the output of a call that returned, the failure of one that raised. */
  lemma RecordsSay(s: State, r: Span)
    requires Reachable(s) && r in s.past.recorded
    ensures r.id in s.past.started && r.id in s.past.finished
    ensures Says(s.past.log, s.past.started[r.id], s.past.finished[r.id], r)
  {
    var steps :| Reaches(START, steps, s);
    StartOk();
    RunKeepsRecords(START, steps, s);
  }

  lemma EndsAreRecorded(s: State, i: nat) returns (r: Span)
    requires Reachable(s) && i < |s.past.log| && !s.past.log[i].Called?
    ensures r in s.past.recorded && r.id in s.past.started && s.past.started[r.id] < i
    ensures Says(s.past.log, s.past.started[r.id], i, r)
  {
    var steps :| Reaches(START, steps, s);
    StartOk();
    RunKeepsRecords(START, steps, s);
    r :| r in s.past.recorded && r.id == s.past.log[i].id;
  }

  // ----- Failures in the log -----

  /** The call raised, or there is nothing in what it returned; an added span failed as it was given. */
  ghost predicate FailedEnd(e: Event) {
    match e
    case Returned(_, _, content) => Void(content.output)
    case Raised(_, _, _, _) => true
    case Noted(_, content) => Errs(content.error) || Void(content.output)
    case Called(_, _, _, _) => false
  }

  lemma FailsAsLogged(log: seq<Event>, from: nat, to: nat, r: Span)
    requires Says(log, from, to, r)
    ensures Fails(r) <==> FailedEnd(log[to])
  {
    if log[to].Raised? {
      GetIs(r.error.fields, "type", Str(log[to].failure.kind));
    }
  }

  /** A recorded span fails exactly when its call did. */
  lemma SomeFailureLogged(s: State)
    requires Reachable(s)
    ensures (exists r :: r in s.past.recorded && Fails(r)) <==>
            exists i :: 0 <= i < |s.past.log| && FailedEnd(s.past.log[i])
  {
    if r :| r in s.past.recorded && Fails(r) {
      RecordsSay(s, r);
      FailsAsLogged(s.past.log, s.past.started[r.id], s.past.finished[r.id], r);
    }
    if i :| 0 <= i < |s.past.log| && FailedEnd(s.past.log[i]) {
      var r := EndsAreRecorded(s, i);
      FailsAsLogged(s.past.log, s.past.started[r.id], i, r);
    }
  }

  // ----- The order of the buffers -----

  /** Spans with the same parent stand in the order in which they finished. */
  ghost predicate InTurn(list: seq<Span>, finished: map<Id, nat>) {
    forall i, j :: 0 <= i < j < |list| && list[i].parent == list[j].parent ==>
      list[i].id in finished && list[j].id in finished && finished[list[i].id] < finished[list[j].id]
  }

  /** Finished spans below `x`: the parent of each is `x` or stands in the list too. */
  ghost predicate Below(list: seq<Span>, x: Id, finished: map<Id, nat>) {
    forall r :: r in list ==>
      r.id in finished && r.parent.Some? && (r.parent.value == x || r.parent.value in IdSet(list))
  }

  ghost predicate Buffers(open: map<Id, Ctx>, finished: map<Id, nat>) {
    && (forall x :: x in open ==> Below(open[x].children, x, finished) && InTurn(open[x].children, finished))
    && (forall x, y :: x in open && y in open && x != y ==> IdSet(open[x].children) !! IdSet(open[y].children))
  }

  ghost predicate Buffered(c: Code, p: Past) {
    Buffers(c.open, p.finished) && (c.emitted.Some? ==> InTurn(c.emitted.value, p.finished))
  }

  lemma IdsJoined(a: seq<Span>, b: seq<Span>)
    ensures IdSet(a + b) == IdSet(a) + IdSet(b)
  {
    forall s ensures s in a + b <==> s in a || s in b {}
  }

  /** A list stays as it is when a span finishes that is not in it. */
  lemma FinishedMore(list: seq<Span>, x: Id, finished: map<Id, nat>, id: Id, now: nat)
    requires id !in finished
    ensures Below(list, x, finished) ==> Below(list, x, finished[id := now])
    ensures InTurn(list, finished) ==> InTurn(list, finished[id := now])
  {}

  ghost predicate Sooner(a: seq<Span>, b: seq<Span>, finished: map<Id, nat>) {
    forall r, s :: r in a && s in b && r.parent == s.parent ==>
      r.id in finished && s.id in finished && finished[r.id] < finished[s.id]
  }

  lemma InTurnAppend(a: seq<Span>, b: seq<Span>, finished: map<Id, nat>)
    requires InTurn(a, finished) && InTurn(b, finished) && Sooner(a, b, finished)
    ensures InTurn(a + b, finished)
  {
    var all := a + b;
    forall i, j | 0 <= i < j < |all| && all[i].parent == all[j].parent
      ensures all[i].id in finished && all[j].id in finished && finished[all[i].id] < finished[all[j].id]
    {
      if i >= |a| {
        assert all[i] == b[i - |a|] && all[j] == b[j - |a|];
      } else if j >= |a| {
        assert all[i] in a && all[j] in b;
      }
    }
  }

  /** A record and what is below it. */
  lemma Headed(record: Span, below: seq<Span>, finished: map<Id, nat>)
    requires Below(below, record.id, finished) && InTurn(below, finished) && record.id in finished
    requires record.parent.Some? ==> record.parent.value != record.id && record.parent.value !in IdSet(below)
    ensures InTurn([record] + below, finished) && IdSet([record] + below) == {record.id} + IdSet(below)
  {
    IdsJoined([record], below);
    assert IdSet([record]) == {record.id} by { assert record in [record]; }
    forall s | s in below ensures s.parent != record.parent {}
    InTurnAppend([record], below, finished);
  }

  /** A record and what is below it join the list of its parent. */
  lemma JoinInTurn(list: seq<Span>, q: Id, record: Span, below: seq<Span>, finished: map<Id, nat>)
    requires Below(list, q, finished) && InTurn(list, finished)
    requires Below(below, record.id, finished) && InTurn(below, finished)
    requires record.parent == Some(q) && record.id in finished && q != record.id && q !in IdSet(below)
    requires record.id !in IdSet(list) && IdSet(list) !! IdSet(below)
    requires forall r :: r in list ==> finished[r.id] < finished[record.id]
    ensures InTurn(list + ([record] + below), finished) && Below(list + ([record] + below), q, finished)
  {
    Headed(record, below, finished);
    IdsJoined(list, [record] + below);
    var ids := {record.id} + IdSet(below);
    forall r | r in list ensures r.parent.Some? && r.parent.value !in ids {}
    forall s | s in below ensures s.parent.Some? && s.parent.value in ids {}
    assert forall s :: s in [record] + below <==> s == record || s in below;
    InTurnAppend(list, [record] + below, finished);
    forall r | r in list + ([record] + below)
      ensures r.id in finished && r.parent.Some?
      ensures r.parent.value == q || r.parent.value in IdSet(list + ([record] + below))
    {
      assert r in list || r == record || r in below;
    }
  }

  // ----- Every step keeps the order -----

  lemma BufferedEnter(c: Code, p: Past, id: Id, parent: Option<Id>, startWall: nat, args: seq<Value>)
    requires Buffered(c, p)
    ensures Buffered(CodeEnter(c, id, parent, startWall, args), PastEnter(p, id, parent, startWall, args))
  {
    assert IdSet([]) == {};
  }

  /** What an end leaves of the other buffers, and what joins the parent's. */
  lemma BufferedUnder(open: map<Id, Ctx>, finished: map<Id, nat>, q: Id, record: Span, below: seq<Span>,
                      more: seq<Span>, now: nat)
    requires Buffers(open, finished) && q in open && record.parent == Some(q) && q != record.id
    requires more == [record] + below && record.id !in finished && q !in finished
    requires Below(below, record.id, finished) && InTurn(below, finished)
    requires forall x :: x in open ==> IdSet(open[x].children) !! IdSet(below)
    requires forall x :: x in finished ==> finished[x] < now
    ensures Buffers(WithChildren(open, q, more), finished[record.id := now])
  {
    var after := finished[record.id := now];
    var list := open[q].children;
    forall x | x in open ensures Below(open[x].children, x, after) && InTurn(open[x].children, after)
    ensures record.id !in IdSet(open[x].children) {
      FinishedMore(open[x].children, x, finished, record.id, now);
    }
    FinishedMore(below, record.id, finished, record.id, now);
    assert q !in IdSet(below);
    JoinInTurn(list, q, record, below, after);
    Headed(record, below, after);
    IdsJoined(list, more);
  }

  lemma BufferedAlone(open: map<Id, Ctx>, finished: map<Id, nat>, q: Id, record: Span, now: nat)
    requires Buffers(open, finished) && q in open && record.parent == Some(q) && q != record.id
    requires record.id !in finished && q !in finished && forall x :: x in finished ==> finished[x] < now
    ensures Buffers(WithChildren(open, q, [record]), finished[record.id := now])
  {
    var none: seq<Span> := [];
    assert IdSet(none) == {} && [record] + none == [record];
    BufferedUnder(open, finished, q, record, none, [record], now);
  }

  lemma BufferedLeaf(c: Code, p: Past, q: Id, record: Span, content: Span)
    requires Buffered(c, p) && Ended(p, c.open) && q in c.open && q in p.kids && c.emitted.None?
    requires record.id !in p.finished && record.id != q && record.parent == Some(q)
    ensures Buffered(CodeLeaf(c, q, record), PastLeaf(p, q, record, content))
  {
    BufferedAlone(c.open, p.finished, q, record, |p.log| + 1);
  }

  lemma BufferedClose(c: Code, p: Past, record: Span, e: Event)
    requires Buffered(c, p) && Ended(p, c.open) && c.emitted.None? && record.id in c.open && record.id in p.kids
    requires record.parent == c.open[record.id].parent
    requires record.parent.Some? ==>
               record.parent.value != record.id && record.parent.value in c.open && record.parent.value in p.kids
    ensures Buffered(CodeClose(c, record.id, record), PastClose(p, record.parent, record, e))
  {
    var below := c.open[record.id].children;
    var rest := c.(open := c.open - {record.id});
    if record.parent.Some? {
      BufferedUnder(rest.open, p.finished, record.parent.value, record, below, [record] + below, |p.log|);
    } else {
      FinishedMore(below, record.id, p.finished, record.id, |p.log|);
      Headed(record, below, p.finished[record.id := |p.log|]);
      forall x | x in rest.open ensures Below(c.open[x].children, x, p.finished[record.id := |p.log|])
      ensures InTurn(c.open[x].children, p.finished[record.id := |p.log|]) {
        FinishedMore(c.open[x].children, x, p.finished, record.id, |p.log|);
      }
    }
  }

  lemma BufferedStep(s: State, step: Step)
    requires Inv(s) && Nested(s) && Buffered(s.code, s.past) && Enabled(s, step)
    ensures Buffered(Next(s, step).code, Next(s, step).past)
  {
    var (c, p) := (s.code, s.past);
    ClockedEnds(p, c.open);
    match step
    case Alloc(_) =>
    case Free(_) =>
    case Enter(id, parent, startWall, args) => BufferedEnter(c, p, id, parent, startWall, args);
    case Leaf(id, under, content) => BufferedLeaf(c, p, under, LeafRecord(under, id, content), content);
    case Return(id, result, content) =>
      var c1 := c.(registry := Registered(c.registry, result, id), refs := Kept(c.refs, result));
      BufferedClose(c1, p, ReturnRecord(c.open[id], id, content), Returned(id, result, content));
    case Raise(id, failure, content) =>
      var c1 := c.(registry := Repointed(c.registry, c.open[id].args, id));
      var args := c.open[id].args;
      BufferedClose(c1, p, RaiseRecord(c.open[id], id, content, failure), Raised(id, args, failure, content));
  }

  lemma {:induction false} RunKeepsOrder(s: State, steps: seq<Step>, end: State)
    requires Inv(s) && Buffered(s.code, s.past) && Reaches(s, steps, end)
    ensures Buffered(end.code, end.past)
    decreases |steps|
  {
    if steps != [] {
      EveryStepKeeps(s, steps[0]);
      BufferedStep(s, steps[0]);
      RunKeepsOrder(Next(s, steps[0]), steps[1..], end);
    }
  }

  /** In an emitted trace the children of a span stand in the order in which they finished. */
  lemma EmittedInTurn(s: State)
    requires Reachable(s) && s.code.emitted.Some?
    ensures InTurn(s.code.emitted.value, s.past.finished)
  {
    var steps :| Reaches(START, steps, s);
    StartOk();
    RunKeepsOrder(START, steps, s);
  }
}
