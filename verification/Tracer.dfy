/** The tracer's mutable state: span contexts with their buffers, and the output registry. */
module Tracer {
  import opened Common
  import opened JsonValues
  import opened Spans
  import opened Tracing

  class SpanContext {
    const spanId: Id
    const parentSpanId: Option<Id>
    const startWall: nat
    ghost const args: seq<Value>
    var sourceSpanIds: seq<Id>
    var children: seq<Span>

    constructor (spanId: Id, parent: SpanContext?, startWall: nat, ghost args: seq<Value>)
      ensures this.spanId == spanId && View() == Ctx(IdOf(parent), startWall, [], args, [])
    {
      this.spanId, this.startWall, this.args := spanId, startWall, args;
      parentSpanId := if parent == null then None else Some(parent.spanId);
      sourceSpanIds, children := [], [];
    }

    ghost function View(): Ctx
      reads this
    {
      Ctx(parentSpanId, startWall, sourceSpanIds, args, children)
    }
  }

  function IdOf(ctx: SpanContext?): Option<Id> {
    if ctx == null then None else Some(ctx.spanId)
  }

  /** The state one trace shares: the registry of outputs, the values it keeps alive, and, as
      history, which contexts are open. */
  class TraceContext {
    var registry: Registry
    var refs: seq<Value>
    var emitted: Option<seq<Span>>
    ghost var open: map<Id, SpanContext>

    constructor ()
      ensures View() == START.code && Valid()
    {
      registry, refs, emitted, open := map[], [], None, map[];
    }

    ghost predicate Valid()
      reads this`open
    {
      forall x :: x in open ==> open[x].spanId == x
    }

    ghost function Contexts(): set<SpanContext>
      reads this`open
    {
      set x | x in open :: open[x]
    }

    ghost function View(): Code
      reads this, Contexts()
    {
      Code(map x | x in open :: open[x].View(), registry, refs, emitted)
    }

    ghost predicate IsOpen(ctx: SpanContext)
      reads this`open
    {
      ctx.spanId in open && open[ctx.spanId] == ctx
    }

    /** The registry of a trace ends with its outermost call. */
    method Reset()
      modifies this`registry, this`refs
      ensures View() == old(View()).(registry := map[], refs := [])
    {
      registry, refs := map[], [];
    }

    method Register(addr: nat, id: Id)
      modifies this`registry
      ensures registry == old(registry)[addr := id] && View() == old(View()).(registry := registry)
    {
      registry := registry[addr := id];
    }

    /** Registry hits among the arguments. */
    method DetectSources(args: seq<Value>) returns (seen: seq<Id>)
      ensures seen == Sources(registry, args)
    {
      seen := [];
      for i := 0 to |args|
        invariant seen == Sources(registry, args[..i])
      {
        var v := args[i];
        assert args[..i + 1][..i] == args[..i];
        if v.addr in registry {
          var src := registry[v.addr];
          if src != "" && src !in seen { seen := seen + [src]; }
        }
      }
      assert args[..|args|] == args;
    }

    method RegisterOutput(result: Value, id: Id)
      modifies this`registry, this`refs
      ensures registry == Registered(old(registry), result, id) && refs == Kept(old(refs), result)
      ensures View() == old(View()).(registry := registry, refs := refs)
    {
      if !result.tracked { return; }
      Register(result.addr, id);
      if result != NONE_VALUE { refs := refs + [result]; }
    }

    method PropagateBadInputs(args: seq<Value>, id: Id)
      modifies this`registry
      ensures registry == Repointed(old(registry), args, id)
      ensures View() == old(View()).(registry := registry)
    {
      var i := 0;
      while i < |args|
        invariant 0 <= i <= |args| && registry == Repointed(old(registry), args[..i], id)
        invariant View() == old(View()).(registry := registry)
      {
        RepointStep(old(registry), args, i, id);
        if args[i].tracked && args[i].addr in registry {
          Register(args[i].addr, id);
        }
        i := i + 1;
      }
      assert args[..i] == args;
    }

    /** A call begins. */
    method Enter(id: Id, parent: SpanContext?, startWall: nat, args: seq<Value>) returns (ctx: SpanContext)
      requires Valid() && id !in open && (parent != null ==> IsOpen(parent))
      modifies this
      ensures Valid() && fresh(ctx) && open == old(open)[id := ctx] && IsOpen(ctx)
      ensures View() == CodeEnter(old(View()), id, IdOf(parent), startWall, args)
    {
      ctx := new SpanContext(id, parent, startWall, args);
      if parent == null { Reset(); }
      var seen := DetectSources(args);
      ctx.sourceSpanIds := seen;
      assert unchanged(old(Contexts()));
      assert View() == Prepared(old(View()), IdOf(parent));
      Push(ctx);
    }

    /** The context becomes the active one. */
    ghost method Push(ctx: SpanContext)
      requires Valid() && ctx.spanId !in open
      modifies this`open
      ensures Valid() && open == old(open)[ctx.spanId := ctx]
      ensures View() == old(View()).(open := old(View()).open[ctx.spanId := ctx.View()])
    {
      open := open[ctx.spanId := ctx];
    }

    /** Hand the record and the buffered children to the parent, or emit them. */
    method FinalizeSpan(ctx: SpanContext, parent: SpanContext?, record: Span)
      requires ctx != parent
      modifies this`emitted
      modifies if parent == null then {} else {parent}
      ensures parent == null ==> emitted == Some([record] + ctx.children)
      ensures parent != null ==>
                && emitted == old(emitted)
                && parent.children == old(parent.children) + ([record] + ctx.children)
                && parent.sourceSpanIds == old(parent.sourceSpanIds)
    {
      if parent == null {
        emitted := Some([record] + ctx.children);
        return;
      }
      parent.children := parent.children + [record];
      var i := 0;
      while i < |ctx.children|
        invariant 0 <= i <= |ctx.children|
        invariant parent.children == old(parent.children) + [record] + ctx.children[..i]
        invariant parent.sourceSpanIds == old(parent.sourceSpanIds) && emitted == old(emitted)
      {
        parent.children := parent.children + [ctx.children[i]];
        i := i + 1;
      }
      assert ctx.children[..i] == ctx.children;
    }

    /** A call returns. */
    method Return(ctx: SpanContext, parent: SpanContext?, result: Value, content: Span)
      requires Valid() && IsOpen(ctx) && ctx.parentSpanId == IdOf(parent)
      requires parent != null ==> parent != ctx && IsOpen(parent)
      modifies this
      modifies if parent == null then {} else {parent}
      ensures Valid() && open == old(open) - {ctx.spanId}
      ensures View() == CodeReturn(old(View()), ctx.spanId, result,
                                   ReturnRecord(old(ctx.View()), ctx.spanId, content))
    {
      var record := ReturnRecordOf(ctx, content);
      assert unchanged(this) && unchanged(Contexts());
      RegisterOutput(result, ctx.spanId);
      Close(ctx, parent, record);
    }

    /** A call raises. */
    method Raise(ctx: SpanContext, parent: SpanContext?, args: seq<Value>, failure: Failure, content: Span)
      requires Valid() && IsOpen(ctx) && ctx.parentSpanId == IdOf(parent) && args == ctx.args
      requires parent != null ==> parent != ctx && IsOpen(parent)
      modifies this
      modifies if parent == null then {} else {parent}
      ensures Valid() && open == old(open) - {ctx.spanId}
      ensures View() == CodeRaise(old(View()), ctx.spanId,
                                  RaiseRecord(old(ctx.View()), ctx.spanId, content, failure))
    {
      var record := RaiseRecordOf(ctx, content, failure);
      assert unchanged(this) && unchanged(Contexts());
      PropagateBadInputs(args, ctx.spanId);
      Close(ctx, parent, record);
    }

    /** The same, as a change of the whole state. */
    method HandOver(ctx: SpanContext, parent: SpanContext?, record: Span)
      requires Valid() && IsOpen(ctx) && (parent != null ==> parent != ctx && IsOpen(parent))
      modifies this`emitted
      modifies if parent == null then {} else {parent}
      ensures View() == var (before, all) := (old(View()), [record] + old(ctx.children));
                        if parent == null then before.(emitted := Some(all))
                        else before.(open := WithChildren(before.open, parent.spanId, all))
    {
      FinalizeSpan(ctx, parent, record);
    }

    ghost method Pop(ctx: SpanContext)
      requires Valid()
      modifies this`open
      ensures Valid() && open == old(open) - {ctx.spanId}
      ensures View() == old(View()).(open := old(View()).open - {ctx.spanId})
    {
      open := open - {ctx.spanId};
    }

    method Close(ctx: SpanContext, parent: SpanContext?, record: Span)
      requires Valid() && IsOpen(ctx) && ctx.parentSpanId == IdOf(parent)
      requires parent != null ==> parent != ctx && IsOpen(parent)
      modifies this
      modifies if parent == null then {} else {parent}
      ensures Valid() && open == old(open) - {ctx.spanId}
      ensures View() == CodeClose(old(View()), ctx.spanId, record)
    {
      ClosedInParts(View(), ctx.spanId, record);
      HandOver(ctx, parent, record);
      Pop(ctx);
      if parent == null { Reset(); }
    }

    /** A span added under the active one without a traced call. */
    method RecordChildSpan(active: SpanContext?, id: Id, content: Span) returns (recorded: Option<Id>)
      requires Valid() && (active != null ==> IsOpen(active))
      modifies if active == null then {} else {active}
      ensures recorded == if active == null then None else Some(id)
      ensures Valid() && open == old(open)
      ensures View() == if active == null then old(View())
                        else CodeLeaf(old(View()), active.spanId, LeafRecord(active.spanId, id, content))
    {
      if active == null { return None; }
      active.children := active.children + [content.(id := id, parent := Some(active.spanId), sources := [],
                                                      confidence := None)];
      return Some(id);
    }
  }

  /** Handing up comes before the span is taken off, which makes no difference. */
  lemma ClosedInParts(c: Code, id: Id, record: Span)
    requires id in c.open && (c.open[id].parent.Some? ==> c.open[id].parent.value in c.open - {id})
    ensures var all := [record] + c.open[id].children;
            CodeClose(c, id, record) ==
            match c.open[id].parent
            case Some(p) => c.(open := WithChildren(c.open, p, all) - {id})
            case None => c.(emitted := Some(all)).(open := c.open - {id}).(registry := map[], refs := [])
  {
    match c.open[id].parent
    case Some(p) => assert WithChildren(c.open, p, [record] + c.open[id].children) - {id} ==
                           WithChildren(c.open - {id}, p, [record] + c.open[id].children);
    case None =>
  }

  method ReturnRecordOf(ctx: SpanContext, content: Span) returns (record: Span)
    ensures record == ReturnRecord(ctx.View(), ctx.spanId, content)
  {
    record := content.(id := ctx.spanId, parent := ctx.parentSpanId, startTime := ctx.startWall,
                       sources := ctx.sourceSpanIds, error := Null);
  }

  method RaiseRecordOf(ctx: SpanContext, content: Span, failure: Failure) returns (record: Span)
    ensures record == RaiseRecord(ctx.View(), ctx.spanId, content, failure)
  {
    record := content.(id := ctx.spanId, parent := ctx.parentSpanId, startTime := ctx.startWall,
                       sources := ctx.sourceSpanIds, error := ErrorOf(failure), output := Null,
                       tokens := None, confidence := None);
  }

  lemma RepointStep(registry: Registry, args: seq<Value>, i: nat, id: Id)
    requires i < |args|
    ensures Repointed(registry, args[..i + 1], id) ==
            var before := Repointed(registry, args[..i], id);
            if args[i].tracked && args[i].addr in before then before[args[i].addr := id] else before
  {
    forall a ensures Holds(args[..i + 1], a) <==> Holds(args[..i], a) || (args[i].tracked && args[i].addr == a) {
      if Holds(args[..i], a) { var v :| v in args[..i] && v.tracked && v.addr == a; assert v in args[..i + 1]; }
      if args[i].tracked && args[i].addr == a { assert args[i] in args[..i + 1]; }
    }
  }
}
