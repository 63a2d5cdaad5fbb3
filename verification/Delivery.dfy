/** The offline transport as a state machine: sender threads, the worker, the flusher and the
    pruning inside every enqueue interleave over a memory queue and a directory of segments.

    A payload is identified with its JSON text.  `accepted`, `answered` and `pruned` are history and
    count every copy. */
module Delivery {
  import opened Common
  import opened JsonValues
  import opened Framing
  import opened DiskQueue

  type Payload = string

  const MEMORY_LIMIT := 50_000

  /** `parses` says which lines are JSON objects, `encodes` which texts have a UTF-8 encoding. */
  datatype Config = Config(maxBytes: int, parses: string -> bool, encodes: string -> bool)

  /** Reading and posting keep the file in place; `remaining` collects what was not delivered. */
  datatype Flusher =
    | Idle
    | Posting(name: nat, payloads: seq<Payload>, next: nat, remaining: seq<Payload>)
    | Returning(left: seq<Payload>)

  datatype State = State(
    queue: seq<Payload>,
    senders: multiset<Payload>,
    worker: Option<Payload>,
    flusher: Flusher,
    disk: seq<Segment>,
    accepted: multiset<Payload>,
    answered: multiset<Payload>,
    pruned: multiset<string>
  )

  const START := State([], multiset{}, None, Idle, [], multiset{}, multiset{}, multiset{})

  /** `FlushFail` is for a payload that failed or was left untried because of the stop flag,
      `FlushAbort` for an error of the HTTP client itself. */
  datatype Step =
    | Send(p: Payload)
    | Spill(p: Payload, name: nat)
    | Take
    | Answer
    | GiveUp(name: nat)
    | StartFlush
    | FlushAnswer
    | FlushFail
    | FlushAbort
    | Clear
    | PutBack(name: nat)
    | EndFlush

  /** A new file name: not in the directory, and not the file being posted. */
  ghost predicate Unused(s: State, name: nat) {
    && (forall i :: 0 <= i < |s.disk| ==> s.disk[i].name != name)
    && (s.flusher.Posting? ==> s.flusher.name != name)
  }

  /** Only a body that can be encoded is ever answered. */
  ghost predicate Enabled(cfg: Config, s: State, step: Step) {
    match step
    case Send(_) => true
    case Spill(p, name) => p in s.senders && Unused(s, name)
    case Take => s.worker.None? && s.queue != []
    case Answer => s.worker.Some? && cfg.encodes(s.worker.value)
    case GiveUp(name) => s.worker.Some? && Unused(s, name)
    case StartFlush => s.flusher.Idle? && s.disk != []
    case FlushAnswer =>
      s.flusher.Posting? && s.flusher.next < |s.flusher.payloads| && cfg.encodes(s.flusher.payloads[s.flusher.next])
    case FlushFail => s.flusher.Posting? && s.flusher.next < |s.flusher.payloads|
    case FlushAbort => s.flusher.Posting?
    case Clear => s.flusher.Posting? && s.flusher.next >= |s.flusher.payloads|
    case PutBack(name) => s.flusher.Returning? && s.flusher.left != [] && Unused(s, name)
    case EndFlush => s.flusher.Returning? && s.flusher.left == []
  }

  /** Copies of texts whose segment an enqueue deletes to meet the budget. */
  ghost function PrunedBy(disk: seq<Segment>, maxBytes: int): multiset<string> {
    Texts(disk) - Texts(Pruned(disk, maxBytes))
  }

  /** One call of the disk queue's enqueue. */
  ghost function Written(cfg: Config, s: State, name: nat, p: Payload): State {
    if !cfg.encodes(p) then s
    else s.(disk := Enqueued(s.disk, cfg.maxBytes, Segment(name, Framed(p))),
            pruned := s.pruned + PrunedBy(s.disk, cfg.maxBytes))
  }

  ghost function Next(cfg: Config, s: State, step: Step): State
    requires Enabled(cfg, s, step)
  {
    match step
    case Send(p) =>
      if |s.queue| < MEMORY_LIMIT then s.(queue := s.queue + [p], accepted := s.accepted + multiset{p})
      else s.(senders := s.senders + multiset{p}, accepted := s.accepted + multiset{p})
    case Spill(p, name) => Written(cfg, s, name, p).(senders := s.senders - multiset{p})
    case Take => s.(worker := Some(s.queue[0]), queue := s.queue[1..])
    case Answer => s.(worker := None, answered := s.answered + multiset{s.worker.value})
    case GiveUp(name) => Written(cfg, s, name, s.worker.value).(worker := None)
    case StartFlush =>
      s.(flusher := Posting(s.disk[0].name, ReadBack(s.disk[0].text, cfg.parses), 0, []))
    case FlushAnswer =>
      var f := s.flusher;
      s.(flusher := f.(next := f.next + 1), answered := s.answered + multiset{f.payloads[f.next]})
    case FlushFail =>
      var f := s.flusher;
      s.(flusher := f.(next := f.next + 1, remaining := f.remaining + [f.payloads[f.next]]))
    case FlushAbort =>
      var f := s.flusher;
      s.(flusher := f.(next := |f.payloads|, remaining := f.payloads))
    case Clear => s.(flusher := Returning(s.flusher.remaining), disk := Without(s.disk, s.flusher.name))
    case PutBack(name) =>
      Written(cfg, s, name, s.flusher.left[0]).(flusher := Returning(s.flusher.left[1..]))
    case EndFlush => s.(flusher := Idle)
  }

  // ----- Where the copies of a payload are -----

  ghost function InFlush(f: Flusher): seq<Payload> {
    match f
    case Idle => []
    case Posting(_, _, _, remaining) => remaining
    case Returning(left) => left
  }

  ghost function InHand(worker: Option<Payload>, p: Payload): nat {
    if worker == Some(p) then 1 else 0
  }

  /** Copies in the memory queue and in the threads' hands. */
  ghost function Held(s: State, p: Payload): nat {
    multiset(s.queue)[p] + s.senders[p] + InHand(s.worker, p) + multiset(InFlush(s.flusher))[p]
  }

  /** Copies held, on disk, answered below 500, or pruned by the budget. */
  ghost function Copies(s: State, p: Payload): nat {
    Held(s, p) + Texts(s.disk)[Framed(p)] + s.answered[p] + s.pruned[Framed(p)]
  }

  /** A text that survives a segment file. */
  ghost predicate Clean(cfg: Config, p: Payload) {
    OnlyRaw(p) && !RawIn(p) && !Blank(p) && cfg.parses(p) && cfg.encodes(p)
  }

  /** What the running flush has tried: answered or collected, and still in its file. */
  ghost function Tried(f: Flusher): multiset<Payload> {
    if f.Posting? then multiset(Upto(f.payloads, f.next)) else multiset{}
  }

  function Upto(payloads: seq<Payload>, n: nat): seq<Payload> {
    if n < |payloads| then payloads[..n] else payloads
  }

  /** While a file is being posted, its directory entry, if it is still there, is the one that was
      read, and only what was tried is collected. */
  ghost predicate FlushOk(cfg: Config, f: Flusher, disk: seq<Segment>) {
    f.Posting? ==>
      && (forall t :: t in disk && t.name == f.name ==> ReadBack(t.text, cfg.parses) == f.payloads)
      && multiset(f.remaining) <= Tried(f)
  }

  /** No copy is lost; copies that the running flush has tried are there twice. */
  ghost predicate Balanced(s: State, p: Payload) {
    s.accepted[p] + Tried(s.flusher)[p] <= Copies(s, p)
  }

  ghost predicate Conserved(cfg: Config, s: State) {
    forall p :: Clean(cfg, p) ==> Balanced(s, p)
  }

  ghost predicate Inv(cfg: Config, s: State) {
    Shape(cfg, s) && Conserved(cfg, s)
  }

  // ----- Every step keeps it -----

  lemma FramedOnce(p: Payload, q: Payload)
    requires Framed(p) == Framed(q)
    ensures p == q
  {
    assert Framed(p)[..|p|] == p && Framed(q)[..|q|] == q;
  }

  /** An enqueue moves no other payload: what leaves the disk is pruned, and the new copy is there. */
  lemma WrittenCopies(cfg: Config, s: State, name: nat, p: Payload, q: Payload)
    requires cfg.encodes(q)
    ensures var n := Written(cfg, s, name, p);
            && n.queue == s.queue && n.senders == s.senders && n.worker == s.worker && n.flusher == s.flusher
            && n.accepted == s.accepted && Copies(n, q) == Copies(s, q) + (if p == q then 1 else 0)
  {
    if cfg.encodes(p) {
      TextsEnqueued(s.disk, cfg.maxBytes, Segment(name, Framed(p)));
      if Framed(p) == Framed(q) { FramedOnce(p, q); }
    }
  }

  lemma WrittenShape(cfg: Config, s: State, name: nat, p: Payload)
    requires Sorted(s.disk) && Unused(s, name) && FlushOk(cfg, s.flusher, s.disk)
    ensures Sorted(Written(cfg, s, name, p).disk) && FlushOk(cfg, s.flusher, Written(cfg, s, name, p).disk)
  {
    var segment := Segment(name, Framed(p));
    EnqueuedKeeps(s.disk, cfg.maxBytes, segment, segment);
    forall t | t in Enqueued(s.disk, cfg.maxBytes, segment) && t != segment ensures t in s.disk {
      EnqueuedKeeps(s.disk, cfg.maxBytes, segment, t);
    }
  }

  lemma OneFilePerName(disk: seq<Segment>, t: Segment)
    requires Sorted(disk) && t in disk && t.name == disk[0].name
    ensures t == disk[0]
  {}

  lemma TriedMore(f: Flusher)
    requires f.Posting? && f.next < |f.payloads|
    ensures Tried(f.(next := f.next + 1)) == Tried(f) + multiset{f.payloads[f.next]}
  {
    PrefixSnoc(f.payloads, f.next);
    assert f.payloads[..|f.payloads|] == f.payloads;
  }

  ghost predicate Shape(cfg: Config, s: State) {
    Sorted(s.disk) && FlushOk(cfg, s.flusher, s.disk)
  }

  lemma ShapeByWrite(cfg: Config, s: State, step: Step)
    requires Shape(cfg, s) && Enabled(cfg, s, step)
    requires step.Spill? || step.GiveUp? || step.PutBack?
    ensures Shape(cfg, Next(cfg, s, step))
  {
    match step
    case Spill(p, name) => WrittenShape(cfg, s, name, p);
    case GiveUp(name) => WrittenShape(cfg, s, name, s.worker.value);
    case PutBack(name) => WrittenShape(cfg, s, name, s.flusher.left[0]);
    case _ =>
  }

  lemma ShapeByStart(cfg: Config, s: State)
    requires Shape(cfg, s) && Enabled(cfg, s, StartFlush)
    ensures Shape(cfg, Next(cfg, s, StartFlush))
  {
    forall t | t in s.disk && t.name == s.disk[0].name ensures t == s.disk[0] { OneFilePerName(s.disk, t); }
  }

  lemma ShapeByTry(cfg: Config, s: State, step: Step)
    requires Shape(cfg, s) && Enabled(cfg, s, step)
    requires step.FlushAnswer? || step.FlushFail?
    ensures Shape(cfg, Next(cfg, s, step))
  {
    match step
    case FlushAnswer => TriedMore(s.flusher);
    case FlushFail => TriedMore(s.flusher);
    case _ =>
  }

  lemma ShapeByAbort(cfg: Config, s: State)
    requires Shape(cfg, s) && Enabled(cfg, s, FlushAbort)
    ensures Shape(cfg, Next(cfg, s, FlushAbort))
  {}

  lemma ShapeKept(cfg: Config, s: State, step: Step)
    requires Shape(cfg, s) && Enabled(cfg, s, step)
    ensures Shape(cfg, Next(cfg, s, step))
  {
    match step
    case Spill(_, _) => ShapeByWrite(cfg, s, step);
    case GiveUp(_) => ShapeByWrite(cfg, s, step);
    case PutBack(_) => ShapeByWrite(cfg, s, step);
    case StartFlush => ShapeByStart(cfg, s);
    case FlushAnswer => ShapeByTry(cfg, s, step);
    case FlushFail => ShapeByTry(cfg, s, step);
    case FlushAbort => ShapeByAbort(cfg, s);
    case Clear => WithoutSorted(s.disk, s.flusher.name);
    case Send(_) =>
    case Take =>
    case Answer =>
    case EndFlush =>
  }

  /** Collecting everything after a client error loses nothing: what was collected before was tried. */
  lemma ConservedByAbort(cfg: Config, s: State, q: Payload)
    requires Inv(cfg, s) && Enabled(cfg, s, FlushAbort) && Clean(cfg, q)
    ensures Balanced(Next(cfg, s, FlushAbort), q)
  {
    var f := s.flusher;
    assert multiset(f.remaining)[q] <= Tried(f)[q];
  }

  /** The posted file, if it still holds a clean payload, was tried with just that payload. */
  lemma PostedWasTried(cfg: Config, f: Flusher, disk: seq<Segment>, q: Payload)
    requires f.Posting? && f.next >= |f.payloads| && FlushOk(cfg, f, disk) && Clean(cfg, q)
    ensures Present(disk, Segment(f.name, Framed(q))) <= Tried(f)[q]
  {
    if Segment(f.name, Framed(q)) in disk {
      TextComesBack(q, cfg.parses);
      assert f.payloads == [q];
    }
  }

  /** Removing the posted file loses nothing: its payload was tried, and so is there twice. */
  lemma ConservedByClear(cfg: Config, s: State, q: Payload)
    requires Sorted(s.disk) && Balanced(s, q) && Enabled(cfg, s, Clear)
    requires Present(s.disk, Segment(s.flusher.name, Framed(q))) <= Tried(s.flusher)[q]
    ensures Balanced(Next(cfg, s, Clear), q)
  {
    TextsWithout(s.disk, s.flusher.name, Framed(q));
  }

  lemma ConservedBySend(cfg: Config, s: State, p: Payload, q: Payload)
    requires Balanced(s, q)
    ensures Balanced(Next(cfg, s, Send(p)), q)
  {}

  lemma ConservedByTake(cfg: Config, s: State, q: Payload)
    requires Balanced(s, q) && Enabled(cfg, s, Take)
    ensures Balanced(Next(cfg, s, Take), q)
  {
    assert s.queue == [s.queue[0]] + s.queue[1..];
  }

  lemma ConservedByAnswer(cfg: Config, s: State, q: Payload)
    requires Balanced(s, q) && Enabled(cfg, s, Answer)
    ensures Balanced(Next(cfg, s, Answer), q)
  {}

  lemma ConservedBySpill(cfg: Config, s: State, p: Payload, name: nat, q: Payload)
    requires Balanced(s, q) && Enabled(cfg, s, Spill(p, name)) && cfg.encodes(q)
    ensures Balanced(Next(cfg, s, Spill(p, name)), q)
  {
    WrittenCopies(cfg, s, name, p, q);
  }

  lemma ConservedByGiveUp(cfg: Config, s: State, name: nat, q: Payload)
    requires Balanced(s, q) && Enabled(cfg, s, GiveUp(name)) && cfg.encodes(q)
    ensures Balanced(Next(cfg, s, GiveUp(name)), q)
  {
    WrittenCopies(cfg, s, name, s.worker.value, q);
  }

  lemma ConservedByPutBack(cfg: Config, s: State, name: nat, q: Payload)
    requires Balanced(s, q) && Enabled(cfg, s, PutBack(name)) && cfg.encodes(q)
    ensures Balanced(Next(cfg, s, PutBack(name)), q)
  {
    WrittenCopies(cfg, s, name, s.flusher.left[0], q);
    HeadOut(s.flusher.left, q);
  }

  lemma HeadOut(left: seq<Payload>, q: Payload)
    requires left != []
    ensures multiset(left)[q] == multiset(left[1..])[q] + (if left[0] == q then 1 else 0)
  {
    assert left == [left[0]] + left[1..];
  }

  lemma ConservedByFlushAnswer(cfg: Config, s: State, q: Payload)
    requires Balanced(s, q) && Enabled(cfg, s, FlushAnswer)
    ensures Balanced(Next(cfg, s, FlushAnswer), q)
  {
    TriedMore(s.flusher);
  }

  lemma ConservedByFlushFail(cfg: Config, s: State, q: Payload)
    requires Balanced(s, q) && Enabled(cfg, s, FlushFail)
    ensures Balanced(Next(cfg, s, FlushFail), q)
  {
    TriedMore(s.flusher);
  }

  lemma ConservedByStart(cfg: Config, s: State, q: Payload)
    requires Balanced(s, q) && Enabled(cfg, s, StartFlush)
    ensures Balanced(Next(cfg, s, StartFlush), q)
  {
    var payloads := ReadBack(s.disk[0].text, cfg.parses);
    assert Upto(payloads, 0) == [];
  }

  lemma ConservedByEnd(cfg: Config, s: State, q: Payload)
    requires Balanced(s, q) && Enabled(cfg, s, EndFlush)
    ensures Balanced(Next(cfg, s, EndFlush), q)
  {}

  lemma ConservedStep(cfg: Config, s: State, step: Step, q: Payload)
    requires Inv(cfg, s) && Enabled(cfg, s, step) && Clean(cfg, q)
    ensures Balanced(Next(cfg, s, step), q)
  {
    assert Balanced(s, q);
    match step
    case Send(p) => ConservedBySend(cfg, s, p, q);
    case Spill(p, name) => ConservedBySpill(cfg, s, p, name, q);
    case Take => ConservedByTake(cfg, s, q);
    case Answer => ConservedByAnswer(cfg, s, q);
    case GiveUp(name) => ConservedByGiveUp(cfg, s, name, q);
    case FlushAnswer => ConservedByFlushAnswer(cfg, s, q);
    case FlushFail => ConservedByFlushFail(cfg, s, q);
    case FlushAbort => ConservedByAbort(cfg, s, q);
    case Clear =>
      PostedWasTried(cfg, s.flusher, s.disk, q);
      ConservedByClear(cfg, s, q);
    case PutBack(name) => ConservedByPutBack(cfg, s, name, q);
    case StartFlush => ConservedByStart(cfg, s, q);
    case EndFlush => ConservedByEnd(cfg, s, q);
  }

  /** Every step of every thread keeps the invariant. */
  lemma EveryStepConserves(cfg: Config, s: State, step: Step)
    requires Inv(cfg, s) && Enabled(cfg, s, step)
    ensures Inv(cfg, Next(cfg, s, step))
  {
    ShapeKept(cfg, s, step);
    var n := Next(cfg, s, step);
    forall q | Clean(cfg, q) ensures Balanced(n, q) {
      ConservedStep(cfg, s, step, q);
    }
  }

  // ----- Runs -----

  ghost predicate Reaches(cfg: Config, s: State, steps: seq<Step>, end: State)
    decreases |steps|
  {
    if steps == [] then s == end
    else Enabled(cfg, s, steps[0]) && Reaches(cfg, Next(cfg, s, steps[0]), steps[1..], end)
  }

  ghost predicate Reachable(cfg: Config, s: State) {
    exists steps :: Reaches(cfg, START, steps, s)
  }

  lemma {:induction false} RunConserves(cfg: Config, s: State, steps: seq<Step>, end: State)
    requires Inv(cfg, s) && Reaches(cfg, s, steps, end)
    ensures Inv(cfg, end)
    decreases |steps|
  {
    if steps != [] {
      EveryStepConserves(cfg, s, steps[0]);
      RunConserves(cfg, Next(cfg, s, steps[0]), steps[1..], end);
    }
  }

  /** At least once: in every interleaving, each accepted copy of a payload that survives a segment
      file is in the queue, in a thread's hands, on disk, answered, or pruned. */
  lemma Conservation(cfg: Config, s: State, p: Payload)
    requires Reachable(cfg, s) && Clean(cfg, p)
    ensures s.accepted[p] <= Copies(s, p)
  {
    var steps :| Reaches(cfg, START, steps, s);
    assert Inv(cfg, START);
    RunConserves(cfg, START, steps, s);
  }

  /** When every thread is idle and the memory queue is drained, each copy is on disk, answered or pruned. */
  lemma AtRest(cfg: Config, s: State, p: Payload)
    requires Reachable(cfg, s) && Clean(cfg, p)
    requires s.queue == [] && s.senders == multiset{} && s.worker.None? && s.flusher.Idle?
    ensures s.accepted[p] <= Texts(s.disk)[Framed(p)] + s.answered[p] + s.pruned[Framed(p)]
  {
    Conservation(cfg, s, p);
  }

  lemma StartReachable(cfg: Config)
    ensures Reachable(cfg, START)
  {
    assert Reaches(cfg, START, [], START);
  }

  lemma StepOn(cfg: Config, s: State, step: Step)
    requires Reachable(cfg, s) && Enabled(cfg, s, step)
    ensures Reachable(cfg, Next(cfg, s, step))
  {
    var steps :| Reaches(cfg, START, steps, s);
    ReachesFurther(cfg, START, steps, s, step);
  }

  lemma {:induction false} ReachesFurther(cfg: Config, s: State, steps: seq<Step>, end: State, step: Step)
    requires Reaches(cfg, s, steps, end) && Enabled(cfg, end, step)
    ensures Reaches(cfg, s, steps + [step], Next(cfg, end, step))
    decreases |steps|
  {
    if steps == [] {
      assert [step][1..] == [];
    } else {
      assert (steps + [step])[1..] == steps[1..] + [step];
      ReachesFurther(cfg, Next(cfg, s, steps[0]), steps[1..], end, step);
    }
  }

  /** A run from a reachable state ends in a reachable state: so does every method that is a run. */
  lemma {:induction false} RunOn(cfg: Config, s: State, steps: seq<Step>, end: State)
    requires Reachable(cfg, s) && Reaches(cfg, s, steps, end)
    ensures Reachable(cfg, end)
    decreases |steps|
  {
    if steps != [] {
      StepOn(cfg, s, steps[0]);
      RunOn(cfg, Next(cfg, s, steps[0]), steps[1..], end);
    }
  }

  // ----- Payloads that do not survive -----

  /** A payload was refused by the server and written to disk, and its file has just been read back. */
  ghost function ReadingBack(cfg: Config, p: Payload): State {
    START.(accepted := multiset{p}, disk := [Segment(0, Framed(p))],
           flusher := Posting(0, ReadBack(Framed(p), cfg.parses), 0, []))
  }

  /** A payload was sent, taken by the worker, and given up. */
  ghost function GivenUp(cfg: Config, p: Payload): State {
    START.(accepted := multiset{p}, disk := if cfg.encodes(p) then [Segment(0, Framed(p))] else [])
  }

  /** The worker has taken the only payload sent. */
  ghost function Taken(p: Payload): State {
    START.(accepted := multiset{p}, worker := Some(p))
  }

  lemma TakenReachable(cfg: Config, p: Payload)
    ensures Reachable(cfg, Taken(p))
  {
    StartReachable(cfg);
    StepOn(cfg, START, Send(p));
    StepOn(cfg, Next(cfg, START, Send(p)), Take);
    assert Next(cfg, Next(cfg, START, Send(p)), Take) == Taken(p);
  }

  lemma GivenUpReachable(cfg: Config, p: Payload)
    ensures Reachable(cfg, GivenUp(cfg, p))
  {
    TakenReachable(cfg, p);
    StepOn(cfg, Taken(p), GiveUp(0));
    assert Pruned([], cfg.maxBytes) == [] && PrunedBy([], cfg.maxBytes) == multiset{};
    assert Next(cfg, Taken(p), GiveUp(0)) == GivenUp(cfg, p);
  }

  lemma ReadingBackReachable(cfg: Config, p: Payload)
    requires cfg.encodes(p)
    ensures Reachable(cfg, ReadingBack(cfg, p))
  {
    GivenUpReachable(cfg, p);
    StepOn(cfg, GivenUp(cfg, p), StartFlush);
    assert Next(cfg, GivenUp(cfg, p), StartFlush) == ReadingBack(cfg, p);
  }

  /** The pieces of a payload were put aside after a client error, and its file was removed. */
  ghost function PiecesAside(cfg: Config, p: Payload): State {
    START.(accepted := multiset{p}, flusher := Returning(ReadBack(Framed(p), cfg.parses)))
  }

  lemma PiecesAsideReachable(cfg: Config, p: Payload)
    requires cfg.encodes(p)
    ensures Reachable(cfg, PiecesAside(cfg, p))
  {
    var s1 := ReadingBack(cfg, p);
    ReadingBackReachable(cfg, p);
    StepOn(cfg, s1, FlushAbort);
    var s2 := Next(cfg, s1, FlushAbort);
    StepOn(cfg, s2, Clear);
    assert Without(s1.disk, 0) == [];
    assert Next(cfg, s2, Clear) == PiecesAside(cfg, p);
  }

  lemma PiecesAreOthers(cfg: Config, p: Payload)
    requires RawIn(p)
    ensures multiset(ReadBack(Framed(p), cfg.parses))[p] == 0
  {
    var pieces := ReadBack(Framed(p), cfg.parses);
    if p in pieces {
      ParsedFrom(SplitLines(Framed(p)), cfg.parses, p);
      LinesAreShort(Framed(p), p);
    }
  }

  /** Such a payload gets lost: given up and not written, or read back in pieces. */
  lemma LostRun(cfg: Config, p: Payload) returns (s: State)
    requires RawIn(p) || !cfg.encodes(p)
    ensures Reachable(cfg, s) && s.accepted[p] == 1 && Copies(s, p) == 0
  {
    if cfg.encodes(p) {
      PiecesAsideReachable(cfg, p);
      PiecesAreOthers(cfg, p);
      s := PiecesAside(cfg, p);
    } else {
      GivenUpReachable(cfg, p);
      s := GivenUp(cfg, p);
    }
  }

  /** The exact condition: no copy of a payload text can get lost if and only if the text holds no
      raw break and can be encoded. */
  lemma ConservedExactly(cfg: Config, p: Payload)
    requires OnlyRaw(p) && !Blank(p) && cfg.parses(p)
    ensures (forall s :: Reachable(cfg, s) ==> s.accepted[p] <= Copies(s, p)) <==> !RawIn(p) && cfg.encodes(p)
  {
    if RawIn(p) || !cfg.encodes(p) {
      var s := LostRun(cfg, p);
    } else {
      forall s | Reachable(cfg, s) ensures s.accepted[p] <= Copies(s, p) { Conservation(cfg, s, p); }
    }
  }

  // ----- Nothing is made up -----

  ghost predicate Within(part: seq<Payload>, accepted: multiset<Payload>) {
    forall p :: p in part ==> p in accepted
  }

  /** Only accepted payloads are anywhere: queued or held, being posted or answered, stored. */
  ghost predicate Genuine(cfg: Config, s: State) {
    HandsGenuine(s) && PostsGenuine(s) && Stored(cfg, s.disk, s.accepted)
  }

  ghost predicate HandsGenuine(s: State) {
    && Within(s.queue, s.accepted) && (forall p :: p in s.senders ==> p in s.accepted)
    && (s.worker.Some? ==> s.worker.value in s.accepted)
    && Within(InFlush(s.flusher), s.accepted)
  }

  ghost predicate PostsGenuine(s: State) {
    && (s.flusher.Posting? ==> Within(s.flusher.payloads, s.accepted))
    && (forall p :: p in s.answered ==> p in s.accepted)
  }

  ghost predicate Stored(cfg: Config, disk: seq<Segment>, accepted: multiset<Payload>) {
    forall t :: t in disk ==> exists p :: p in accepted && cfg.encodes(p) && t.text == Framed(p)
  }

  /** Whatever is read back from the file of a payload in `sent` is that payload. */
  ghost predicate Echoes(cfg: Config, sent: set<Payload>) {
    forall p, q :: p in sent && cfg.encodes(p) && q in ReadBack(Framed(p), cfg.parses) ==> q == p
  }

  ghost predicate SentOnly(s: State, sent: set<Payload>) {
    forall p :: p in s.accepted ==> p in sent
  }

  lemma GenuineDisk(cfg: Config, s: State, name: nat, p: Payload)
    requires Sorted(s.disk) && Unused(s, name) && p in s.accepted && Stored(cfg, s.disk, s.accepted)
    ensures Stored(cfg, Written(cfg, s, name, p).disk, s.accepted)
  {
    forall t | t in Written(cfg, s, name, p).disk && cfg.encodes(p)
      ensures exists q :: q in s.accepted && cfg.encodes(q) && t.text == Framed(q)
    {
      EnqueuedKeeps(s.disk, cfg.maxBytes, Segment(name, Framed(p)), t);
    }
  }

  lemma GenuineRead(cfg: Config, s: State, sent: set<Payload>)
    requires Stored(cfg, s.disk, s.accepted) && s.disk != [] && SentOnly(s, sent) && Echoes(cfg, sent)
    ensures Within(ReadBack(s.disk[0].text, cfg.parses), s.accepted)
  {
    var t := s.disk[0];
    assert t in s.disk;
    var p :| p in s.accepted && cfg.encodes(p) && t.text == Framed(p);
  }

  predicate ByFlusher(step: Step) {
    || step.StartFlush? || step.FlushAnswer? || step.FlushFail? || step.FlushAbort?
    || step.Clear? || step.PutBack? || step.EndFlush?
  }

  lemma HandsSend(cfg: Config, s: State, p: Payload)
    requires HandsGenuine(s)
    ensures HandsGenuine(Next(cfg, s, Send(p)))
  {}

  lemma HandsStep(cfg: Config, s: State, step: Step)
    requires HandsGenuine(s) && Enabled(cfg, s, step) && !ByFlusher(step)
    ensures HandsGenuine(Next(cfg, s, step))
  {
    match step
    case Send(p) => HandsSend(cfg, s, p);
    case Spill(_, _) =>
    case Take => assert s.queue == [s.queue[0]] + s.queue[1..];
    case Answer =>
    case GiveUp(_) =>
    case _ =>
  }

  lemma HandsPutBack(cfg: Config, s: State, name: nat)
    requires HandsGenuine(s) && Enabled(cfg, s, PutBack(name))
    ensures HandsGenuine(Next(cfg, s, PutBack(name)))
  {
    assert s.flusher.left == [s.flusher.left[0]] + s.flusher.left[1..];
  }

  lemma HandsFlush(cfg: Config, s: State, step: Step)
    requires HandsGenuine(s) && PostsGenuine(s) && Enabled(cfg, s, step) && ByFlusher(step)
    ensures HandsGenuine(Next(cfg, s, step))
  {
    match step
    case StartFlush =>
    case FlushAnswer =>
    case FlushFail =>
    case FlushAbort =>
    case Clear =>
    case PutBack(name) => HandsPutBack(cfg, s, name);
    case EndFlush =>
    case _ =>
  }

  lemma StoredStep(cfg: Config, s: State, step: Step)
    requires Sorted(s.disk) && HandsGenuine(s) && Enabled(cfg, s, step) && Stored(cfg, s.disk, s.accepted)
    ensures Stored(cfg, Next(cfg, s, step).disk, Next(cfg, s, step).accepted)
  {
    match step
    case Spill(p, name) => GenuineDisk(cfg, s, name, p);
    case GiveUp(name) => GenuineDisk(cfg, s, name, s.worker.value);
    case PutBack(name) => GenuineDisk(cfg, s, name, s.flusher.left[0]);
    case Clear =>
      forall t | t in Without(s.disk, s.flusher.name) ensures t in s.disk { WithoutMembers(s.disk, s.flusher.name, t); }
    case Send(_) =>
    case Take =>
    case Answer =>
    case StartFlush =>
    case FlushAnswer =>
    case FlushFail =>
    case FlushAbort =>
    case EndFlush =>
  }

  lemma PostsAnswer(cfg: Config, s: State)
    requires HandsGenuine(s) && PostsGenuine(s) && Enabled(cfg, s, Answer)
    ensures PostsGenuine(Next(cfg, s, Answer))
  {}

  lemma PostsStep(cfg: Config, s: State, step: Step, sent: set<Payload>)
    requires Genuine(cfg, s) && Enabled(cfg, s, step) && SentOnly(s, sent) && Echoes(cfg, sent) && !ByFlusher(step)
    ensures PostsGenuine(Next(cfg, s, step))
  {
    match step
    case Send(_) =>
    case Spill(_, _) =>
    case Take =>
    case Answer => PostsAnswer(cfg, s);
    case GiveUp(_) =>
    case _ =>
  }

  lemma PostsFlush(cfg: Config, s: State, step: Step, sent: set<Payload>)
    requires Genuine(cfg, s) && Enabled(cfg, s, step) && SentOnly(s, sent) && Echoes(cfg, sent) && ByFlusher(step)
    ensures PostsGenuine(Next(cfg, s, step))
  {
    match step
    case StartFlush => GenuineRead(cfg, s, sent);
    case FlushAnswer =>
    case FlushFail =>
    case FlushAbort =>
    case Clear =>
    case PutBack(_) =>
    case EndFlush =>
    case _ =>
  }

  lemma GenuineStep(cfg: Config, s: State, step: Step, sent: set<Payload>)
    requires Sorted(s.disk) && Genuine(cfg, s) && Enabled(cfg, s, step) && SentOnly(s, sent) && Echoes(cfg, sent)
    ensures Genuine(cfg, Next(cfg, s, step))
  {
    if ByFlusher(step) {
      HandsFlush(cfg, s, step);
      PostsFlush(cfg, s, step, sent);
    } else {
      HandsStep(cfg, s, step);
      PostsStep(cfg, s, step, sent);
    }
    StoredStep(cfg, s, step);
  }

  lemma {:induction false} AcceptedByEnd(cfg: Config, s: State, steps: seq<Step>, end: State)
    requires Reaches(cfg, s, steps, end)
    ensures s.accepted <= end.accepted
    decreases |steps|
  {
    if steps != [] {
      AcceptedByEnd(cfg, Next(cfg, s, steps[0]), steps[1..], end);
    }
  }

  lemma {:induction false} GenuineRun(cfg: Config, s: State, steps: seq<Step>, end: State, sent: set<Payload>)
    requires Inv(cfg, s) && Genuine(cfg, s) && Reaches(cfg, s, steps, end) && SentOnly(end, sent) && Echoes(cfg, sent)
    ensures Genuine(cfg, end)
    decreases |steps|
  {
    if steps != [] {
      AcceptedByEnd(cfg, s, steps, end);
      EveryStepConserves(cfg, s, steps[0]);
      GenuineStep(cfg, s, steps[0], sent);
      GenuineRun(cfg, Next(cfg, s, steps[0]), steps[1..], end, sent);
    }
  }

  /** The exact condition: as long as only payloads in `sent` are accepted, nothing else is ever
      queued, held, stored or answered, if and only if the file of each of them reads back as that
      payload or as nothing. */
  lemma InventsNothingExactly(cfg: Config, sent: set<Payload>)
    ensures (forall s :: Reachable(cfg, s) && SentOnly(s, sent) ==> Genuine(cfg, s)) <==> Echoes(cfg, sent)
  {
    if Echoes(cfg, sent) {
      forall s | Reachable(cfg, s) && SentOnly(s, sent) ensures Genuine(cfg, s) {
        var steps :| Reaches(cfg, START, steps, s);
        assert Inv(cfg, START);
        GenuineRun(cfg, START, steps, s, sent);
      }
    } else {
      var p, q :| p in sent && cfg.encodes(p) && q in ReadBack(Framed(p), cfg.parses) && q != p;
      ReadingBackReachable(cfg, p);
      assert !Genuine(cfg, ReadingBack(cfg, p));
    }
  }

  /** Texts without a raw break meet the condition; so do texts none of whose pieces parse. */
  lemma CleanEchoes(cfg: Config, sent: set<Payload>)
    requires forall p :: p in sent ==> OnlyRaw(p) && !Blank(p) && cfg.parses(p)
    requires forall p, q :: p in sent && RawIn(p) && q in SplitLines(Framed(p)) ==> !cfg.parses(q)
    ensures Echoes(cfg, sent)
  {
    forall p, q | p in sent && q in ReadBack(Framed(p), cfg.parses) ensures q == p {
      TextComesBack(p, cfg.parses);
      if RawIn(p) { ParsedFrom(SplitLines(Framed(p)), cfg.parses, q); }
    }
  }

  /** A payload that fails it: an object whose one text holds `{}` between two raw breaks. */
  function Hidden(): Json {
    Obj([("x", Str(['\U{2028}'] + "{}" + ['\U{2028}']))])
  }

  lemma DumpOneField(key: string, text: string, num: real -> string)
    ensures Dumps(Obj([(key, Str(text))]), num) == "{" + (Quote(key) + ":" + Quote(text)) + "}"
  {
    var fields := [(key, Str(text))];
    assert fields[1..] == [];
    assert DumpFields(fields, num) == DumpField(fields[0], num) + "" + "";
  }

  lemma Regroup(open: string, key: string, quote: string, sep: string, middle: string, close: string)
    ensures open + (key + (quote + (sep + middle + sep) + quote)) + close ==
            open + key + quote + sep + (middle + sep + (quote + close))
  {}

  lemma HiddenText(num: real -> string)
    ensures Dumps(Hidden(), num) == "{\"x\":\"" + ['\U{2028}'] + ("{}" + ['\U{2028}'] + "\"}")
  {
    var sep := ['\U{2028}'];
    var text := sep + "{}" + sep;
    DumpOneField("x", text, num);
    EscapePlain(text);
    EscapePlain("x");
    assert Quote("x") == "\"x\"" && Quote(text) == "\"" + text + "\"";
    Regroup("{", "\"x\":", "\"", sep, "{}", "}");
    assert "\"x\"" + ":" == "\"x\":" && "{" + "\"x\":" + "\"" == "{\"x\":\"" && "\"" + "}" == "\"}";
  }

  /** Sending it, with the server down once, ends in a POST of `{}` that nobody sent. */
  lemma InventedRun(cfg: Config, num: real -> string) returns (s: State)
    requires cfg.parses("{}") && !cfg.parses("{\"x\":\"") && !cfg.parses("\"}")
    requires cfg.encodes(Dumps(Hidden(), num)) && cfg.encodes("{}")
    ensures Reachable(cfg, s) && s.accepted == multiset{Dumps(Hidden(), num)}
    ensures "{}" in s.answered && "{}" !in s.accepted
  {
    var p := Dumps(Hidden(), num);
    HiddenText(num);
    assert "{}"[0] == '{' && !IsSpace('{');
    PieceComesBack("{\"x\":\"", '\U{2028}', "{}", "\"}", cfg.parses);
    assert |p| > 2;
    ReadingBackReachable(cfg, p);
    StepOn(cfg, ReadingBack(cfg, p), FlushAnswer);
    s := Next(cfg, ReadingBack(cfg, p), FlushAnswer);
  }

  // ----- Pruning needs a budget -----

  lemma {:induction false} NeverPruned(cfg: Config, s: State, steps: seq<Step>, end: State)
    requires cfg.maxBytes <= 0 && s.pruned == multiset{} && Reaches(cfg, s, steps, end)
    ensures end.pruned == multiset{}
    decreases |steps|
  {
    if steps != [] {
      assert PrunedBy(s.disk, cfg.maxBytes) == multiset{};
      NeverPruned(cfg, Next(cfg, s, steps[0]), steps[1..], end);
    }
  }

  /** Without a positive budget nothing is pruned, so at rest each copy is on disk or answered. */
  lemma AtRestUnbounded(cfg: Config, s: State, p: Payload)
    requires cfg.maxBytes <= 0 && Reachable(cfg, s) && Clean(cfg, p)
    requires s.queue == [] && s.senders == multiset{} && s.worker.None? && s.flusher.Idle?
    ensures s.accepted[p] <= Texts(s.disk)[Framed(p)] + s.answered[p]
  {
    AtRest(cfg, s, p);
    var steps :| Reaches(cfg, START, steps, s);
    NeverPruned(cfg, START, steps, s);
  }
}
