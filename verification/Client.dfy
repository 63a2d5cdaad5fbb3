/** The transport's own code: accepting a trace, posting it with retries, flushing the disk queue.

    `posts` records every POST that is made, and `machine` follows the state machine of `Delivery`:
    each method below is one of its steps or a run of them. */
module Client {
  import opened Common
  import opened Framing
  import DiskQueue
  import opened Delivery

  /** What a POST comes to. */
  datatype Outcome = Status(code: nat) | Failed

  datatype Post = Post(payload: Payload, outcome: Outcome)

  predicate Answered(o: Outcome) {
    o.Status? && o.code < 500
  }

  /** The payloads of the POSTs answered below 500, with every copy. */
  ghost function AnsweredIn(posts: seq<Post>): multiset<Payload> {
    if posts == [] then multiset{}
    else
      var last := posts[|posts| - 1];
      AnsweredIn(posts[..|posts| - 1]) + OneAnswer(last)
  }

  /** Positions of the POSTs of a payload to which a status below 500 came back. */
  ghost function AnsweredAt(posts: seq<Post>, p: Payload): set<nat> {
    set i: nat | i < |posts| && posts[i].payload == p && posts[i].outcome.Status? && posts[i].outcome.code < 500
  }

  lemma AnsweredAtSnoc(posts: seq<Post>, n: nat, p: Payload)
    requires n + 1 == |posts|
    ensures |AnsweredAt(posts, p)| == |AnsweredAt(posts[..n], p)| + OneAnswer(posts[n])[p]
  {
    if n in AnsweredAt(posts, p) {
      assert AnsweredAt(posts, p) == AnsweredAt(posts[..n], p) + {n};
    } else {
      assert AnsweredAt(posts, p) == AnsweredAt(posts[..n], p);
    }
  }

  lemma {:induction false} AnsweredInCounts(posts: seq<Post>, p: Payload)
    ensures AnsweredIn(posts)[p] == |AnsweredAt(posts, p)|
    decreases |posts|
  {
    if posts != [] {
      var n := |posts| - 1;
      AnsweredInCounts(posts[..n], p);
      AnsweredAtSnoc(posts, n, p);
    }
  }

  /** The POSTs made for one payload: at most four, up to the first status below 500. */
  ghost predicate Round(round: seq<Post>, payload: Payload, delivered: bool) {
    && 1 <= |round| <= 4
    && (forall i :: 0 <= i < |round| ==> round[i].payload == payload)
    && (forall i :: 0 <= i < |round| - 1 ==> round[i].outcome == Failed || round[i].outcome.code >= 500)
    && (delivered <==> round[|round| - 1].outcome.Status? && round[|round| - 1].outcome.code < 500)
    && (!delivered ==> |round| == 4)
  }

  /** POSTs for one payload, none with a status below 500. */
  ghost predicate InVain(round: seq<Post>, payload: Payload) {
    forall i :: 0 <= i < |round| ==>
      round[i].payload == payload && (round[i].outcome == Failed || round[i].outcome.code >= 500)
  }

  lemma RoundSnoc(round: seq<Post>, payload: Payload, o: Outcome)
    requires InVain(round, payload) && |round| < 4
    ensures Answered(o) ==> Round(round + [Post(payload, o)], payload, true)
    ensures !Answered(o) ==> InVain(round + [Post(payload, o)], payload)
  {}

  lemma AnsweredSnoc(before: seq<Post>, round: seq<Post>, p: Post)
    ensures before + round + [p] == before + (round + [p])
    ensures AnsweredIn(before + round + [p]) == AnsweredIn(before + round) + OneAnswer(p)
  {
    assert (before + round + [p])[..|before + round|] == before + round;
  }

  ghost function OneAnswer(p: Post): multiset<Payload> {
    if Answered(p.outcome) then multiset{p.payload} else multiset{}
  }

  /** Payloads in order whose flag is (or is not) set. */
  function Flagged(payloads: seq<Payload>, flags: seq<bool>, value: bool): seq<Payload>
    requires |payloads| == |flags|
  {
    if payloads == [] then []
    else
      var n := |payloads| - 1;
      var rest := Flagged(payloads[..n], flags[..n], value);
      if flags[n] == value then rest + [payloads[n]] else rest
  }

  /** The delivered and the others share out the payloads, each side in the original order. */
  lemma {:induction false} FlaggedSplit(payloads: seq<Payload>, flags: seq<bool>)
    requires |payloads| == |flags|
    ensures multiset(Flagged(payloads, flags, true)) + multiset(Flagged(payloads, flags, false)) == multiset(payloads)
    ensures OrderKept(Flagged(payloads, flags, true), payloads) && OrderKept(Flagged(payloads, flags, false), payloads)
    decreases |payloads|
  {
    if payloads != [] {
      var n := |payloads| - 1;
      FlaggedSplit(payloads[..n], flags[..n]);
      assert payloads == payloads[..n] + [payloads[n]];
      OrderSnoc(Flagged(payloads[..n], flags[..n], flags[n]), payloads[..n], payloads[n]);
      OrderSkip(Flagged(payloads[..n], flags[..n], !flags[n]), payloads[..n], payloads[n]);
    } else {
      assert Places([], [], []);
    }
  }

  /** `at` embeds `part` into `whole`, positions increasing. */
  ghost predicate Places(at: seq<nat>, part: seq<Payload>, whole: seq<Payload>) {
    && |at| == |part|
    && (forall i :: 0 <= i < |at| ==> at[i] < |whole| && whole[at[i]] == part[i])
    && (forall i, j :: 0 <= i < j < |at| ==> at[i] < at[j])
  }

  ghost predicate OrderKept(part: seq<Payload>, whole: seq<Payload>) {
    exists at: seq<nat> :: Places(at, part, whole)
  }

  lemma OrderSnoc(part: seq<Payload>, whole: seq<Payload>, p: Payload)
    requires OrderKept(part, whole)
    ensures OrderKept(part + [p], whole + [p])
  {
    var at: seq<nat> :| Places(at, part, whole);
    assert Places(at + [|whole|], part + [p], whole + [p]);
  }

  lemma OrderSkip(part: seq<Payload>, whole: seq<Payload>, p: Payload)
    requires OrderKept(part, whole)
    ensures OrderKept(part, whole + [p])
  {
    var at: seq<nat> :| Places(at, part, whole);
    assert Places(at, part, whole + [p]);
  }

  // ----- Rounds and steps of a flush -----

  /** The first payloads were each posted in a round of their own; `flags` tells how each ended. */
  ghost predicate Rounds(rounds: seq<seq<Post>>, payloads: seq<Payload>, flags: seq<bool>) {
    && |rounds| == |flags| <= |payloads|
    && (forall i :: 0 <= i < |rounds| ==> Round(rounds[i], payloads[i], flags[i]))
  }

  ghost function Flat(rounds: seq<seq<Post>>): seq<Post> {
    if rounds == [] then [] else Flat(rounds[..|rounds| - 1]) + rounds[|rounds| - 1]
  }

  /** What is kept: the payloads tried in vain and those not tried, or everything after a client error. */
  function Remaining(payloads: seq<Payload>, flags: seq<bool>, aborted: bool): seq<Payload>
    requires |flags| <= |payloads|
  {
    if aborted then payloads else Flagged(payloads[..|flags|], flags, false) + payloads[|flags|..]
  }

  function FlagStep(delivered: bool): Step {
    if delivered then FlushAnswer else FlushFail
  }

  function FlagSteps(flags: seq<bool>): seq<Step> {
    seq(|flags|, i requires 0 <= i < |flags| => FlagStep(flags[i]))
  }

  function Fails(n: nat): seq<Step> {
    seq(n, _ => FlushFail)
  }

  /** The steps of posting: one per payload tried, then the rest fail or the client errs. */
  function PostSteps(flags: seq<bool>, untried: nat, aborted: bool): seq<Step> {
    FlagSteps(flags) + if aborted then [FlushAbort] else Fails(untried)
  }

  function PutBacks(names: seq<nat>): seq<Step> {
    seq(|names|, i requires 0 <= i < |names| => PutBack(names[i]))
  }

  lemma {:induction false} ReachesJoin(cfg: Config, s: State, a: seq<Step>, mid: State, b: seq<Step>, end: State)
    requires Reaches(cfg, s, a, mid) && Reaches(cfg, mid, b, end)
    ensures Reaches(cfg, s, a + b, end)
    decreases |a|
  {
    if a == [] {
      assert a + b == b;
    } else {
      assert (a + b)[1..] == a[1..] + b;
      ReachesJoin(cfg, Next(cfg, s, a[0]), a[1..], mid, b, end);
    }
  }

  /** Untried payloads fail one after the other. */
  lemma {:induction false} FailRest(cfg: Config, s: State, n: nat)
    requires s.flusher.Posting? && s.flusher.next + n == |s.flusher.payloads|
    ensures var f := s.flusher;
            Reaches(cfg, s, Fails(n),
                    s.(flusher := f.(next := |f.payloads|, remaining := f.remaining + f.payloads[f.next..])))
    decreases n
  {
    var f := s.flusher;
    if n == 0 {
      assert f.remaining + f.payloads[f.next..] == f.remaining;
      assert Fails(0) == [];
    } else {
      FailRest(cfg, Next(cfg, s, FlushFail), n - 1);
      assert Fails(n)[1..] == Fails(n - 1);
      assert f.remaining + [f.payloads[f.next]] + f.payloads[f.next + 1..] == f.remaining + f.payloads[f.next..];
    }
  }

  function AddUnless(delivered: bool, remaining: seq<Payload>, p: Payload): seq<Payload> {
    if delivered then remaining else remaining + [p]
  }

  /** Where a flush stands after some payloads were tried. */
  ghost predicate Progress(cfg: Config, start: State, machine: State, payloads: seq<Payload>,
                           remaining: seq<Payload>, flags: seq<bool>, rounds: seq<seq<Post>>)
  {
    && start.flusher.Posting? && Rounds(rounds, payloads, flags)
    && remaining == Flagged(payloads[..|flags|], flags, false)
    && machine.flusher == Posting(start.flusher.name, payloads, |flags|, remaining)
    && Reaches(cfg, start, FlagSteps(flags), machine)
  }

  lemma ProgressStep(cfg: Config, start: State, before: State, machine: State, payloads: seq<Payload>,
                     remaining: seq<Payload>, flags: seq<bool>, rounds: seq<seq<Post>>,
                     delivered: bool, round: seq<Post>)
    requires Progress(cfg, start, before, payloads, remaining, flags, rounds) && |flags| < |payloads|
    requires Round(round, payloads[|flags|], delivered)
    requires Enabled(cfg, before, FlagStep(delivered)) && machine == Next(cfg, before, FlagStep(delivered))
    ensures Progress(cfg, start, machine, payloads, AddUnless(delivered, remaining, payloads[|flags|]),
                     flags + [delivered], rounds + [round])
  {
    ReachesFurther(cfg, start, FlagSteps(flags), before, FlagStep(delivered));
    FlagsSnoc(flags, delivered);
    FlaggedSnoc(payloads, |flags|, flags, delivered);
  }

  lemma FlagsSnoc(flags: seq<bool>, b: bool)
    ensures FlagSteps(flags + [b]) == FlagSteps(flags) + [FlagStep(b)]
  {}

  lemma FlaggedSnoc(payloads: seq<Payload>, i: nat, flags: seq<bool>, b: bool)
    requires |flags| == i < |payloads|
    ensures Flagged(payloads[..i + 1], flags + [b], false) ==
            AddUnless(b, Flagged(payloads[..i], flags, false), payloads[i])
  {
    assert payloads[..i + 1][..i] == payloads[..i] && (flags + [b])[..i] == flags;
  }

  lemma FlatSnoc(before: seq<Post>, rounds: seq<seq<Post>>, round: seq<Post>)
    ensures before + Flat(rounds) + round == before + Flat(rounds + [round])
  {
    assert (rounds + [round])[..|rounds|] == rounds;
  }

  /** Distinct file names that are not in use. */
  ghost predicate Spare(names: seq<nat>, segments: seq<DiskQueue.Segment>) {
    NoDup(names) && forall i, j :: 0 <= i < |names| && 0 <= j < |segments| ==> names[i] != segments[j].name
  }

  class VerdictLensClient {
    const cfg: Config
    const disk: DiskQueue.Queue
    var queue: seq<Payload>
    ghost var posts: seq<Post>
    ghost var machine: State

    constructor (cfg: Config)
      ensures Valid() && this.cfg == cfg && fresh(disk) && posts == [] && machine == START
    {
      this.cfg, queue := cfg, [];
      disk := new DiskQueue.Queue(true, cfg.maxBytes, cfg.encodes);
      posts, machine := [], START;
      StartReachable(cfg);
    }

    /** The machine is in a reachable state, has the real queue and directory, and has answered what
        the POSTs say. */
    ghost predicate Valid()
      reads this, disk
    {
      && disk.Valid() && disk.enabled && disk.maxBytes == cfg.maxBytes && disk.encodes == cfg.encodes
      && |queue| <= MEMORY_LIMIT
      && machine.queue == queue && machine.disk == disk.segments && machine.answered == AnsweredIn(posts)
      && Reachable(cfg, machine)
    }

    /** Never blocks: a full memory queue spills to disk. */
    method SendTrace(payload: Payload, name: nat)
      requires Valid() && Unused(machine, name)
      modifies this`queue, this`machine, disk
      ensures Valid()
      ensures var sent := Next(cfg, old(machine), Send(payload));
              machine == if |old(queue)| < MEMORY_LIMIT then sent
                         else assert payload in sent.senders; Next(cfg, sent, Spill(payload, name))
      ensures |queue| == if |old(queue)| < 50_000 then |old(queue)| + 1 else |old(queue)|
    {
      StepOn(cfg, machine, Send(payload));
      machine := Next(cfg, machine, Send(payload));
      if |queue| < MEMORY_LIMIT {
        queue := queue + [payload];
      } else {
        disk.Enqueue(name, payload);
        StepOn(cfg, machine, Spill(payload, name));
        machine := Next(cfg, machine, Spill(payload, name));
      }
    }

    /** The worker takes the oldest payload. */
    method TakeItem() returns (item: Payload)
      requires Valid() && queue != [] && machine.worker.None?
      modifies this`queue, this`machine
      ensures Valid() && machine == Next(cfg, old(machine), Take) && machine.worker == Some(item)
    {
      StepOn(cfg, machine, Take);
      machine := Next(cfg, machine, Take);
      item, queue := queue[0], queue[1..];
    }

    /** One POST.  Anything may come back, but a body that cannot be encoded is never sent. */
    method PostOnce(payload: Payload) returns (o: Outcome)
      modifies this`posts
      ensures posts == old(posts) + [Post(payload, o)] && (Answered(o) ==> cfg.encodes(payload))
    {
      o := *;
      if !cfg.encodes(payload) { o := Failed; }
      posts := posts + [Post(payload, o)];
    }

    /** Up to four POSTs, stopping at the first answer below 500. */
    method Deliver(payload: Payload) returns (delivered: bool, ghost round: seq<Post>)
      modifies this`posts
      ensures posts == old(posts) + round && Round(round, payload, delivered)
      ensures delivered <==> round[|round| - 1].outcome.Status? && round[|round| - 1].outcome.code < 500
      ensures forall i :: 0 <= i < |round| - 1 ==> round[i].outcome == Failed || round[i].outcome.code >= 500
      ensures !delivered ==> |round| == 4 && (round[3].outcome == Failed || round[3].outcome.code >= 500)
      ensures delivered ==> cfg.encodes(payload)
      ensures delivered ==> AnsweredIn(posts) == AnsweredIn(old(posts)) + multiset{payload}
      ensures !delivered ==> AnsweredIn(posts) == AnsweredIn(old(posts))
    {
      round := [];
      var attempt := 0;
      while attempt < 4
        invariant attempt == |round| <= 4 && posts == old(posts) + round
        invariant InVain(round, payload) && AnsweredIn(posts) == AnsweredIn(old(posts))
      {
        var o := PostOnce(payload);
        AnsweredSnoc(old(posts), round, Post(payload, o));
        RoundSnoc(round, payload, o);
        round := round + [Post(payload, o)];
        if Answered(o) { return true, round; }
        attempt := attempt + 1;
      }
      delivered := false;
    }

    /** The worker's delivery: to disk only after four failed POSTs. */
    method PostWithRetries(payload: Payload, name: nat) returns (delivered: bool, ghost round: seq<Post>)
      requires Valid() && machine.worker == Some(payload) && Unused(machine, name)
      modifies this`posts, this`machine, disk
      ensures Valid() && posts == old(posts) + round && Round(round, payload, delivered)
      ensures var step := if delivered then Answer else GiveUp(name);
              Enabled(cfg, old(machine), step) && machine == Next(cfg, old(machine), step)
    {
      delivered, round := Deliver(payload);
      if delivered {
        StepOn(cfg, machine, Answer);
        machine := Next(cfg, machine, Answer);
      } else {
        GiveUpOn(payload, name);
      }
    }

    /** The payload goes to disk instead. */
    method GiveUpOn(payload: Payload, name: nat)
      requires Valid() && machine.worker == Some(payload) && Unused(machine, name)
      modifies this`machine, disk
      ensures Valid() && Enabled(cfg, old(machine), GiveUp(name)) && machine == Next(cfg, old(machine), GiveUp(name))
    {
      disk.Enqueue(name, payload);
      StepOn(cfg, machine, GiveUp(name));
      machine := Next(cfg, machine, GiveUp(name));
    }

    lemma PostingStarts(payloads: seq<Payload>)
      requires machine.flusher.Posting? && machine.flusher.payloads == payloads
      requires machine.flusher.next == 0 && machine.flusher.remaining == []
      ensures Progress(cfg, machine, machine, payloads, [], [], []) && posts == posts + Flat([])
    {
      assert payloads[..0] == [] && FlagSteps([]) == [];
    }

    /** Post the next payload of the file being flushed. */
    method PostNext(payloads: seq<Payload>, i: nat, remaining: seq<Payload>, ghost start: State,
                    ghost before: seq<Post>, ghost flags: seq<bool>, ghost rounds: seq<seq<Post>>)
      returns (kept: seq<Payload>, ghost moreFlags: seq<bool>, ghost moreRounds: seq<seq<Post>>)
      requires Valid() && |flags| == i < |payloads| && posts == before + Flat(rounds)
      requires Progress(cfg, start, machine, payloads, remaining, flags, rounds)
      modifies this`posts, this`machine
      ensures Valid() && |moreFlags| == i + 1 && posts == before + Flat(moreRounds)
      ensures Progress(cfg, start, machine, payloads, kept, moreFlags, moreRounds)
    {
      var delivered;
      ghost var round;
      delivered, round := Deliver(payloads[i]);
      StepOn(cfg, machine, FlagStep(delivered));
      ProgressStep(cfg, start, machine, Next(cfg, machine, FlagStep(delivered)), payloads, remaining, flags, rounds,
                   delivered, round);
      machine := Next(cfg, machine, FlagStep(delivered));
      FlatSnoc(before, rounds, round);
      kept, moreFlags, moreRounds :=
        AddUnless(delivered, remaining, payloads[i]), flags + [delivered], rounds + [round];
    }

    /** Post payload after payload.  A set stop flag, or an error of the HTTP client itself
        (`aborted`), ends the loop. */
    method PostEach(payloads: seq<Payload>)
      returns (remaining: seq<Payload>, tried: nat, stopped: bool, aborted: bool,
               ghost flags: seq<bool>, ghost rounds: seq<seq<Post>>)
      requires Valid() && machine.flusher.Posting? && machine.flusher.payloads == payloads
      requires machine.flusher.next == 0 && machine.flusher.remaining == []
      modifies this`posts, this`machine
      ensures Valid() && posts == old(posts) + Flat(rounds) && |flags| == tried
      ensures Progress(cfg, old(machine), machine, payloads, remaining, flags, rounds)
      ensures tried < |payloads| ==> stopped || aborted
    {
      remaining, tried, stopped, aborted, flags, rounds := [], 0, false, false, [], [];
      ghost var start := machine;
      PostingStarts(payloads);
      while tried < |payloads|
        invariant |flags| == tried <= |payloads| && Valid()
        invariant posts == old(posts) + Flat(rounds)
        invariant Progress(cfg, start, machine, payloads, remaining, flags, rounds)
      {
        stopped := *;
        if stopped { break; }
        aborted := *;
        if aborted { break; }
        remaining, flags, rounds := PostNext(payloads, tried, remaining, start, old(posts), flags, rounds);
        tried := tried + 1;
      }
    }

    /** Post the payloads of one file.  Those left when the stop flag is set are kept; after an error
        of the HTTP client, also one on closing it, all are. */
    method PostAll(payloads: seq<Payload>)
      returns (remaining: seq<Payload>, stopped: bool, aborted: bool,
               ghost flags: seq<bool>, ghost rounds: seq<seq<Post>>)
      requires Valid() && machine.flusher.Posting? && machine.flusher.payloads == payloads
      requires machine.flusher.next == 0 && machine.flusher.remaining == []
      modifies this`posts, this`machine
      ensures Valid() && posts == old(posts) + Flat(rounds) && Rounds(rounds, payloads, flags)
      ensures |rounds| < |payloads| ==> stopped || aborted
      ensures remaining == Remaining(payloads, flags, aborted)
      ensures machine.flusher == Posting(old(machine.flusher.name), payloads, |payloads|, remaining)
      ensures Reaches(cfg, old(machine), PostSteps(flags, |payloads| - |flags|, aborted), machine)
    {
      ghost var start := machine;
      var tried;
      remaining, tried, stopped, aborted, flags, rounds := PostEach(payloads);
      if !aborted { aborted := *; }
      FinishPosting(start, payloads, remaining, flags, rounds, aborted);
      remaining := if aborted then payloads else remaining + payloads[tried..];
    }

    /** The machine does what is left of a flush: the rest fail, or everything is collected. */
    ghost method FinishPosting(start: State, payloads: seq<Payload>, remaining: seq<Payload>, flags: seq<bool>,
                               rounds: seq<seq<Post>>, aborted: bool)
      requires Valid() && Progress(cfg, start, machine, payloads, remaining, flags, rounds)
      modifies this`machine
      ensures Valid()
      ensures machine.flusher == Posting(start.flusher.name, payloads, |payloads|, Remaining(payloads, flags, aborted))
      ensures Reaches(cfg, start, PostSteps(flags, |payloads| - |flags|, aborted), machine)
    {
      var f := machine.flusher;
      if aborted {
        ReachesFurther(cfg, start, FlagSteps(flags), machine, FlushAbort);
        StepOn(cfg, machine, FlushAbort);
        machine := Next(cfg, machine, FlushAbort);
      } else {
        var n := |payloads| - |flags|;
        FailRest(cfg, machine, n);
        var end := machine.(flusher := f.(next := |payloads|, remaining := f.remaining + payloads[f.next..]));
        ReachesJoin(cfg, start, FlagSteps(flags), machine, Fails(n), end);
        RunOn(cfg, machine, Fails(n), end);
        machine := end;
      }
    }

    /** Flush the oldest segment: its payloads are posted, its file goes, what remains is written again. */
    method FlushDiskOnce(names: seq<nat>)
      returns (stopped: bool, aborted: bool, ghost flags: seq<bool>, ghost rounds: seq<seq<Post>>)
      requires Valid() && machine.flusher.Idle? && Spare(names, disk.segments)
      requires disk.segments != [] ==> |ReadBack(disk.segments[0].text, cfg.parses)| <= |names|
      modifies this`posts, this`machine, disk
      ensures Valid()
      ensures old(machine.disk) == [] ==> machine == old(machine) && posts == old(posts)
      ensures old(machine.disk) != [] ==>
                var payloads := ReadBack(old(machine.disk)[0].text, cfg.parses);
                && posts == old(posts) + Flat(rounds) && Rounds(rounds, payloads, flags)
                && (|rounds| < |payloads| ==> stopped || aborted)
                && Reaches(cfg, old(machine), FlushSteps(payloads, flags, aborted, names), machine)
    {
      stopped, aborted, flags, rounds := false, false, [], [];
      var paths := disk.SegmentPaths();
      if paths == [] { return; }
      var payloads := ReadBack(disk.segments[0].text, cfg.parses);
      ghost var start := machine;
      StepOn(cfg, machine, StartFlush);
      machine := Next(cfg, machine, StartFlush);
      ghost var reading := machine;
      var remaining;
      remaining, stopped, aborted, flags, rounds := PostAll(payloads);
      ghost var posted := machine;
      RemainingShort(payloads, flags, aborted);
      ClearAndPutBack(paths[0], remaining, names);
      FlushRun(cfg, start, reading, posted, machine, payloads, flags, aborted, remaining, names);
    }

    /** The file goes, and what remains is written again, each payload under a new name. */
    method ClearAndPutBack(path: nat, remaining: seq<Payload>, names: seq<nat>)
      requires Valid() && machine.flusher.Posting? && machine.flusher.next >= |machine.flusher.payloads|
      requires path == machine.flusher.name && remaining == machine.flusher.remaining
      requires |remaining| <= |names| && Spare(names, disk.segments)
      modifies this`machine, disk
      ensures Valid()
      ensures Reaches(cfg, old(machine), [Clear] + (PutBacks(names[..|remaining|]) + [EndFlush]), machine)
    {
      ghost var start := machine;
      StillSpare(names, disk.segments, path);
      disk.ClearFile(path);
      StepOn(cfg, machine, Clear);
      machine := Next(cfg, machine, Clear);
      ghost var cleared := machine;
      WriteBack(remaining, names);
      ReachesFurther(cfg, cleared, PutBacks(names[..|remaining|]), machine, EndFlush);
      StepOn(cfg, machine, EndFlush);
      machine := Next(cfg, machine, EndFlush);
      assert ([Clear] + (PutBacks(names[..|remaining|]) + [EndFlush]))[1..] ==
             PutBacks(names[..|remaining|]) + [EndFlush];
    }

    /** Where writing back stands: the first `i` payloads are on disk again. */
    ghost predicate Returned(start: State, remaining: seq<Payload>, names: seq<nat>, i: nat)
      reads this, disk
    {
      && Valid() && i <= |remaining| <= |names| && machine.flusher == Returning(remaining[i..])
      && Spare(names[i..], disk.segments) && Reaches(cfg, start, PutBacks(names[..i]), machine)
    }

    method WriteOne(remaining: seq<Payload>, names: seq<nat>, i: nat, ghost start: State)
      requires Returned(start, remaining, names, i) && i < |remaining|
      modifies this`machine, disk
      ensures Returned(start, remaining, names, i + 1)
    {
      SpareNext(names[i..], disk.segments, cfg.maxBytes, DiskQueue.Segment(names[i], Framed(remaining[i])));
      ReachesFurther(cfg, start, PutBacks(names[..i]), machine, PutBack(names[i]));
      PutBacksSnoc(names, i);
      StepOn(cfg, machine, PutBack(names[i]));
      disk.Enqueue(names[i], remaining[i]);
      machine := Next(cfg, machine, PutBack(names[i]));
    }

    method WriteBack(remaining: seq<Payload>, names: seq<nat>)
      requires Valid() && machine.flusher == Returning(remaining)
      requires |remaining| <= |names| && Spare(names, disk.segments)
      modifies this`machine, disk
      ensures Valid() && machine.flusher == Returning([])
      ensures Reaches(cfg, old(machine), PutBacks(names[..|remaining|]), machine)
    {
      ghost var start := machine;
      assert remaining[0..] == remaining && names[0..] == names && PutBacks(names[..0]) == [];
      var i := 0;
      while i < |remaining|
        invariant Returned(start, remaining, names, i)
      {
        WriteOne(remaining, names, i, start);
        i := i + 1;
      }
    }
  }

  /** At least once, for the client itself: at every moment each accepted copy of a clean payload is in
      a thread's hands, in the memory queue, on disk, in a POST answered below 500, or pruned. */
  lemma ClientConserves(c: VerdictLensClient, p: Payload)
    requires c.Valid() && Clean(c.cfg, p)
    ensures var m := c.machine;
            m.accepted[p] <= m.senders[p] + InHand(m.worker, p) + multiset(InFlush(m.flusher))[p]
                             + multiset(c.queue)[p] + DiskQueue.Texts(c.disk.segments)[Framed(p)]
                             + |AnsweredAt(c.posts, p)| + m.pruned[Framed(p)]
  {
    Conservation(c.cfg, c.machine, p);
    AnsweredInCounts(c.posts, p);
  }

  lemma PutBacksSnoc(names: seq<nat>, i: nat)
    requires i < |names|
    ensures PutBacks(names[..i + 1]) == PutBacks(names[..i]) + [PutBack(names[i])]
    ensures names[i..][1..] == names[i + 1..]
  {}

  /** The whole flush as steps. */
  function FlushSteps(payloads: seq<Payload>, flags: seq<bool>, aborted: bool, names: seq<nat>): seq<Step>
    requires |flags| <= |payloads| <= |names|
  {
    RemainingShort(payloads, flags, aborted);
    [StartFlush] + (PostSteps(flags, |payloads| - |flags|, aborted)
                    + ([Clear] + (PutBacks(names[..|Remaining(payloads, flags, aborted)|]) + [EndFlush])))
  }

  lemma FlushRun(cfg: Config, start: State, reading: State, posted: State, end: State, payloads: seq<Payload>,
                 flags: seq<bool>, aborted: bool, remaining: seq<Payload>, names: seq<nat>)
    requires |flags| <= |payloads| <= |names| && remaining == Remaining(payloads, flags, aborted)
    requires |remaining| <= |names|
    requires Enabled(cfg, start, StartFlush) && reading == Next(cfg, start, StartFlush)
    requires Reaches(cfg, reading, PostSteps(flags, |payloads| - |flags|, aborted), posted)
    requires Reaches(cfg, posted, [Clear] + (PutBacks(names[..|remaining|]) + [EndFlush]), end)
    ensures Reaches(cfg, start, FlushSteps(payloads, flags, aborted, names), end)
  {
    var post := PostSteps(flags, |payloads| - |flags|, aborted);
    var back := [Clear] + (PutBacks(names[..|remaining|]) + [EndFlush]);
    ReachesJoin(cfg, reading, post, posted, back, end);
    assert ([StartFlush] + (post + back))[1..] == post + back;
  }

  lemma RemainingShort(payloads: seq<Payload>, flags: seq<bool>, aborted: bool)
    requires |flags| <= |payloads|
    ensures |Remaining(payloads, flags, aborted)| <= |payloads|
  {
    FlaggedShort(payloads[..|flags|], flags);
  }

  lemma {:induction false} FlaggedShort(payloads: seq<Payload>, flags: seq<bool>)
    requires |payloads| == |flags|
    ensures |Flagged(payloads, flags, false)| <= |payloads|
    decreases |payloads|
  {
    if payloads != [] {
      var n := |payloads| - 1;
      FlaggedShort(payloads[..n], flags[..n]);
    }
  }

  lemma StillSpare(names: seq<nat>, segments: seq<DiskQueue.Segment>, name: nat)
    requires Spare(names, segments)
    ensures Spare(names, DiskQueue.Without(segments, name))
  {
    var left := DiskQueue.Without(segments, name);
    forall j | 0 <= j < |left| ensures left[j] in segments { DiskQueue.WithoutMembers(segments, name, left[j]); }
  }

  /** After writing under the first name, the others are still unused. */
  lemma SpareNext(names: seq<nat>, segments: seq<DiskQueue.Segment>, maxBytes: int, s: DiskQueue.Segment)
    requires Spare(names, segments) && names != [] && s.name == names[0] && DiskQueue.Sorted(segments)
    ensures Spare(names[1..], segments)
    ensures Spare(names[1..], DiskQueue.Enqueued(segments, maxBytes, s))
  {
    var more := DiskQueue.Enqueued(segments, maxBytes, s);
    NoDupTail(names);
    forall j | 0 <= j < |more| ensures more[j] == s || more[j] in segments {
      DiskQueue.EnqueuedKeeps(segments, maxBytes, s, more[j]);
    }
  }
}
