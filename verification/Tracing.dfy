/** The SDK tracer as a state machine over one trace: spans open and close, values are born and
    die, and an address may be used again once its value is gone.

    `Code` holds what the SDK stores; `Past` is the history the theorems speak about. */
module Tracing {
  import opened Common
  import opened JsonValues
  import opened Spans
  import opened Forest

  // ----- Values and lineage -----

  /** A Python object: `addr` is its `id()` while it lives, `tracked` says whether lineage follows it. */
  datatype Value = Value(uid: nat, addr: nat, tracked: bool)

  /** `None`: a tracked singleton that is never collected. */
  const NONE_VALUE := Value(0, 0, true)

  type Registry = map<nat, Id>

  function AddSource(registry: Registry, v: Value, seen: seq<Id>): seq<Id> {
    if v.addr in registry && registry[v.addr] != "" && registry[v.addr] !in seen then seen + [registry[v.addr]]
    else seen
  }

  /** The span ids found for the arguments, each once, in order of first appearance. */
  function Sources(registry: Registry, args: seq<Value>): seq<Id> {
    if args == [] then []
    else AddSource(registry, args[|args| - 1], Sources(registry, args[..|args| - 1]))
  }

  function Registered(registry: Registry, v: Value, id: Id): Registry {
    if v.tracked then registry[v.addr := id] else registry
  }

  function Kept(refs: seq<Value>, v: Value): seq<Value> {
    if v.tracked && v != NONE_VALUE then refs + [v] else refs
  }

  ghost predicate Holds(args: seq<Value>, addr: nat) {
    exists v :: v in args && v.tracked && v.addr == addr
  }

  /** Known addresses among the arguments point to `id`; nothing else changes. */
  ghost function Repointed(registry: Registry, args: seq<Value>, id: Id): Registry {
    map a | a in registry :: if Holds(args, a) then id else registry[a]
  }

  // ----- Spans -----

  datatype Ctx = Ctx(parent: Option<Id>, startWall: nat, sources: seq<Id>, args: seq<Value>, children: seq<Span>)

  datatype Code = Code(open: map<Id, Ctx>, registry: Registry, refs: seq<Value>, emitted: Option<seq<Span>>)

  datatype Failure = Failure(kind: string, message: string, stack: string)

  function ErrorOf(f: Failure): Json {
    Obj([("type", Str(f.kind)), ("message", Str(f.message)), ("stack", Str(f.stack))])
  }

  /** The record of a span that returned; `content` stands for what is captured or measured. */
  function ReturnRecord(ctx: Ctx, id: Id, content: Span): Span {
    content.(id := id, parent := ctx.parent, startTime := ctx.startWall, sources := ctx.sources, error := Null)
  }

  /** Without a result there is nothing to read tokens or a confidence from. */
  function RaiseRecord(ctx: Ctx, id: Id, content: Span, f: Failure): Span {
    content.(id := id, parent := ctx.parent, startTime := ctx.startWall, sources := ctx.sources,
             error := ErrorOf(f), output := Null, tokens := None, confidence := None)
  }

  function LeafRecord(parent: Id, id: Id, content: Span): Span {
    content.(id := id, parent := Some(parent), sources := [], confidence := None)
  }

  /** An outermost call starts with an empty registry. */
  function Prepared(c: Code, parent: Option<Id>): Code {
    if parent.None? then c.(registry := map[], refs := []) else c
  }

  function NewCtx(registry: Registry, parent: Option<Id>, startWall: nat, args: seq<Value>): Ctx {
    Ctx(parent, startWall, Sources(registry, args), args, [])
  }

  function CodeEnter(c: Code, id: Id, parent: Option<Id>, startWall: nat, args: seq<Value>): Code {
    var ready := Prepared(c, parent);
    ready.(open := c.open[id := NewCtx(ready.registry, parent, startWall, args)])
  }

  function WithChildren(open: map<Id, Ctx>, p: Id, more: seq<Span>): map<Id, Ctx>
    requires p in open
  {
    open[p := open[p].(children := open[p].children + more)]
  }

  function CodeLeaf(c: Code, parent: Id, record: Span): Code
    requires parent in c.open
  {
    c.(open := WithChildren(c.open, parent, [record]))
  }

  /** Close: hand the record and the buffered children up, or emit them when this is the root. */
  function CodeClose(c: Code, id: Id, record: Span): Code
    requires id in c.open && (c.open[id].parent.Some? ==> c.open[id].parent.value in c.open - {id})
  {
    var ctx := c.open[id];
    var all := [record] + ctx.children;
    match ctx.parent
    case Some(p) => c.(open := WithChildren(c.open - {id}, p, all))
    case None => c.(open := c.open - {id}, registry := map[], refs := [], emitted := Some(all))
  }

  // ----- History -----

  /** `content` is what was captured and measured when the span ended. */
  datatype Event =
    | Called(id: Id, parent: Option<Id>, startWall: nat, args: seq<Value>)
    | Noted(id: Id, content: Span)
    | Returned(id: Id, value: Value, content: Span)
    | Raised(id: Id, args: seq<Value>, failure: Failure, content: Span)

  datatype Past = Past(
    log: seq<Event>,
    started: map<Id, nat>,
    finished: map<Id, nat>,
    kids: map<Id, seq<Tree>>,
    recorded: set<Span>
  )

  function PastEnter(p: Past, id: Id, parent: Option<Id>, startWall: nat, args: seq<Value>): Past {
    p.(log := p.log + [Called(id, parent, startWall, args)], started := p.started[id := |p.log|],
       kids := p.kids[id := []])
  }

  function PastLeaf(p: Past, parent: Id, record: Span, content: Span): Past
    requires parent in p.kids
  {
    p.(log := p.log + [Called(record.id, Some(parent), content.startTime, []), Noted(record.id, content)],
       started := p.started[record.id := |p.log|],
       finished := p.finished[record.id := |p.log| + 1],
       kids := p.kids[parent := p.kids[parent] + [Tree(record, [])]],
       recorded := p.recorded + {record})
  }

  function PastClose(p: Past, parent: Option<Id>, record: Span, event: Event): Past
    requires record.id in p.kids && (parent.Some? ==> parent.value in p.kids - {record.id})
  {
    p.(log := p.log + [event],
       finished := p.finished[record.id := |p.log|],
       kids := CloseKids(p.kids, record, parent),
       recorded := p.recorded + {record})
  }

  function CloseKids(kids: map<Id, seq<Tree>>, record: Span, parent: Option<Id>): map<Id, seq<Tree>>
    requires record.id in kids && (parent.Some? ==> parent.value in kids - {record.id})
  {
    var rest := kids - {record.id};
    match parent
    case Some(p) => rest[p := rest[p] + [Tree(record, kids[record.id])]]
    case None => rest
  }

  /** Who last returned a value, or raised while holding it after it had been returned. */
  ghost function Attribution(log: seq<Event>): map<Value, Id> {
    if log == [] then map[]
    else
      var before := Attribution(log[..|log| - 1]);
      match log[|log| - 1]
      case Called(_, _, _, _) => before
      case Noted(_, _) => before
      case Returned(id, v, _) => if v.tracked then before[v := id] else before
      case Raised(id, args, _, _) => map v | v in before :: if v in args then id else before[v]
  }

  // ----- Steps -----

  datatype State = State(live: set<Value>, code: Code, past: Past)

  datatype Step =
    | Alloc(v: Value)
    | Free(v: Value)
    | Enter(id: Id, parent: Option<Id>, startWall: nat, args: seq<Value>)
    | Leaf(id: Id, under: Id, content: Span)
    | Return(id: Id, result: Value, content: Span)
    | Raise(id: Id, failure: Failure, content: Span)

  ghost predicate NewId(s: State, id: Id) {
    id !in s.past.started && id != ""
  }

  /** The span is open and its children have exited. */
  ghost predicate MayClose(open: map<Id, Ctx>, id: Id) {
    id in open && forall c {:trigger open[c].parent} :: c in open ==> open[c].parent != Some(id)
  }

  /** What may happen next.  The collector never takes `None`, a value in `refs`, or an argument of
      an open call; an address is free once no live value has it. */
  ghost predicate Enabled(s: State, step: Step) {
    match step
    case Alloc(v) => forall u :: u in s.live ==> u.addr != v.addr
    case Free(v) => v != NONE_VALUE && v !in s.code.refs && forall x :: x in s.code.open ==> v !in s.code.open[x].args
    case Enter(id, parent, _, args) =>
      && NewId(s, id) && (forall v :: v in args ==> v in s.live)
      && (if parent.Some? then parent.value in s.code.open else s.past.log == [])
    case Leaf(id, parent, _) => NewId(s, id) && parent in s.code.open
    case Return(id, result, _) => MayClose(s.code.open, id) && result in s.live
    case Raise(id, failure, _) => MayClose(s.code.open, id) && failure.kind != ""
  }

  /** An open span has an open parent, and the history has a place for every open span. */
  ghost predicate Nested(s: State) {
    && s.past.kids.Keys == s.code.open.Keys
    && forall x {:trigger s.code.open[x].parent} :: x in s.code.open && s.code.open[x].parent.Some? ==>
         s.code.open[x].parent.value in s.code.open && s.code.open[x].parent.value != x
  }

  ghost function Next(s: State, step: Step): State
    requires Nested(s) && Enabled(s, step)
  {
    match step
    case Alloc(v) => s.(live := s.live + {v})
    case Free(v) => s.(live := s.live - {v})
    case Enter(id, parent, startWall, args) =>
      s.(code := CodeEnter(s.code, id, parent, startWall, args), past := PastEnter(s.past, id, parent, startWall, args))
    case Leaf(id, parent, content) =>
      var record := LeafRecord(parent, id, content);
      s.(code := CodeLeaf(s.code, parent, record), past := PastLeaf(s.past, parent, record, content))
    case Return(id, result, content) =>
      var ctx := s.code.open[id];
      var record := ReturnRecord(ctx, id, content);
      s.(code := CodeReturn(s.code, id, result, record),
         past := PastClose(s.past, ctx.parent, record, Returned(id, result, content)))
    case Raise(id, failure, content) =>
      var ctx := s.code.open[id];
      var record := RaiseRecord(ctx, id, content, failure);
      s.(code := CodeRaise(s.code, id, record),
         past := PastClose(s.past, ctx.parent, record, Raised(id, ctx.args, failure, content)))
  }

  function CodeReturn(c: Code, id: Id, result: Value, record: Span): Code
    requires id in c.open && (c.open[id].parent.Some? ==> c.open[id].parent.value in c.open - {id})
  {
    CodeClose(c.(registry := Registered(c.registry, result, id), refs := Kept(c.refs, result)), id, record)
  }

  ghost function CodeRaise(c: Code, id: Id, record: Span): Code
    requires id in c.open && (c.open[id].parent.Some? ==> c.open[id].parent.value in c.open - {id})
  {
    CodeClose(c.(registry := Repointed(c.registry, c.open[id].args, id)), id, record)
  }

  const START := State({NONE_VALUE}, Code(map[], map[], [], None), Past([], map[], map[], map[], {}))
}
