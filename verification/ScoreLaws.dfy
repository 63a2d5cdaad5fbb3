/** The score of a span in points per recorded value. */
module ScoreLaws {
  import opened Common
  import opened JsonValues
  import opened Spans
  import opened Roles
  import opened Evidence
  import opened Scoring
  import opened RetryStorm
  import opened Verdict

  // ----- Points -----

  /** Entries that hold nothing, the text "null" included. */
  ghost function HollowAt(fields: seq<(string, Json)>): set<nat> {
    set i: nat | i < |fields| && fields[i].1 in {Null, Str(""), Str("null")}
  }

  ghost function InputPoints(input: Json): real {
    if input in {Null, Obj([])} || (input.Str? && ReadsAs(input.s, {"", "null", "None"})) then 0.15
    else if input.Obj? && 2 * |HollowAt(input.fields)| > |input.fields| then 0.12
    else if input.Obj? && HollowAt(input.fields) != {} then 0.075
    else 0.0
  }

  ghost function OutputPoints(error: Json, output: Json): real {
    if Errs(error) || output == Null || (output.Str? && ReadsAs(output.s, {"", "null", "None"})) then 0.2
    else if output == Obj([]) then 0.16
    else if output.Obj? && 2 * |HollowAt(output.fields)| > |output.fields| then 0.14
    else if output.Obj? && HollowAt(output.fields) != {} then 0.06
    else 0.0
  }

  /** A missing confidence counts as 0.5, one outside the unit interval as its nearer end. */
  function DoubtPoints(confidence: Option<real>): real {
    match confidence
    case None => 0.04
    case Some(c) => if c <= 0.0 then 0.08 else if c >= 1.0 then 0.0 else 0.08 - 0.08 * c
  }

  function RolePoints(role: Role): real {
    match role
    case Originator => 0.35
    case Propagator => 0.245
    case Manifestor => 0.07
    case Clean => 0.0
  }

  function DepthPoints(depth: nat, maxDepth: nat): real {
    if maxDepth == 0 then 0.035 else 0.07 * (depth as real / maxDepth as real)
  }

  /** `x` is at least `k` times the average, an average below 0 included. */
  predicate Exceeds(x: real, k: real, avg: real) {
    if avg > 0.0 then x >= k * avg else avg < 0.0 && x <= k * avg
  }

  function LatencyPoints(latency: Option<real>, avg: real): real {
    match latency
    case None => 0.0
    case Some(l) =>
      if Exceeds(l, 5.0, avg) then 0.08
      else if Exceeds(l, 3.0, avg) then 0.056
      else if Exceeds(l, 2.0, avg) then 0.032
      else 0.0
  }

  function TokenPoints(tokens: Option<int>, avg: real): real {
    match tokens
    case None => 0.0
    case Some(n) =>
      if n == 0 then 0.0
      else if Exceeds(n as real, 10.0, avg) then 0.07
      else if Exceeds(n as real, 5.0, avg) then 0.042
      else if Exceeds(n as real, 3.0, avg) then 0.021
      else 0.0
  }

  // ----- The score is the sum of the points -----

  lemma {:induction false} HollowSnoc(fields: seq<(string, Json)>, last: (string, Json))
    ensures HollowCount(fields + [last]) == HollowCount(fields) + One(Hollow(last.1))
  {
    if fields == [] {
      assert fields + [last] == [last] && [last][1..] == [];
    } else {
      TailOf(fields, [last]);
      HollowSnoc(fields[1..], last);
    }
  }

  lemma HollowAtSnoc(fields: seq<(string, Json)>, n: nat)
    requires n + 1 == |fields|
    ensures |HollowAt(fields)| == |HollowAt(fields[..n])| + One(Hollow(fields[n].1))
  {
    if Hollow(fields[n].1) {
      assert HollowAt(fields) == HollowAt(fields[..n]) + {n};
    } else {
      assert HollowAt(fields) == HollowAt(fields[..n]);
    }
  }

  lemma {:induction false} HollowCounts(fields: seq<(string, Json)>)
    ensures HollowCount(fields) == |HollowAt(fields)|
    decreases |fields|
  {
    if fields != [] {
      var n := |fields| - 1;
      HollowCounts(fields[..n]);
      HollowSnoc(fields[..n], fields[n]);
      HollowAtSnoc(fields, n);
      assert fields == fields[..n] + [fields[n]];
    }
  }

  lemma RatioOver(n: nat, len: nat)
    requires len > 0
    ensures n as real / len as real > 0.5 <==> 2 * n > len
    ensures n as real / len as real > 0.0 <==> n > 0
  {
    var r := n as real / len as real;
    assert r * len as real == n as real;
    if r > 0.5 { Positive(r - 0.5, len as real); }
    if r < 0.5 { Positive(0.5 - r, len as real); }
    if r > 0.0 { Positive(r, len as real); }
    if r < 0.0 { Positive(-r, len as real); }
  }

  lemma InputIs(s: Span)
    ensures WEIGHT_INPUT_ANOMALY * InputAnomaly(s) == InputPoints(s.input)
  {
    match s.input
    case Str(text) => ReadsAsIs(text, {"", "null", "None"});
    case Obj(fields) =>
      HollowCounts(fields);
      if fields != [] { RatioOver(HollowCount(fields), |fields|); }
    case _ =>
  }

  lemma OutputIs(s: Span)
    ensures WEIGHT_OUTPUT_DEVIATION * OutputDeviation(s) == OutputPoints(s.error, s.output)
  {
    ErrsIs(s);
    match s.output
    case Str(text) => ReadsAsIs(text, {"", "null", "None"});
    case Obj(fields) =>
      HollowCounts(fields);
      if fields != [] { RatioOver(HollowCount(fields), |fields|); }
    case _ =>
  }

  lemma DoubtIs(s: Span)
    ensures WEIGHT_LOW_CONFIDENCE * LowConfidence(s) == DoubtPoints(s.confidence)
  {}

  lemma ExceedsIs(x: real, k: real, avg: real)
    requires avg != 0.0
    ensures x / avg >= k <==> Exceeds(x, k, avg)
  {
    var r := x / avg;
    assert r * avg == x;
    if avg > 0.0 {
      if r >= k { NotNegative(r - k, avg); } else { Positive(k - r, avg); }
    } else {
      if r >= k { NotNegative(r - k, -avg); } else { Positive(k - r, -avg); }
    }
  }

  lemma NotNegative(a: real, b: real)
    requires a >= 0.0 && b >= 0.0
    ensures a * b >= 0.0
  {}

  lemma LatencyIs(s: Span, stats: TraceStats)
    ensures WEIGHT_LATENCY_ANOMALY * LatencyAnomaly(s, stats) == LatencyPoints(s.latency, stats.avgLatency)
  {
    if s.latency.Some? && stats.avgLatency != 0.0 {
      ExceedsIs(s.latency.value, 5.0, stats.avgLatency);
      ExceedsIs(s.latency.value, 3.0, stats.avgLatency);
      ExceedsIs(s.latency.value, 2.0, stats.avgLatency);
    }
  }

  lemma TokensIs(s: Span, stats: TraceStats)
    ensures WEIGHT_TOKEN_ANOMALY * TokenAnomaly(s, stats) == TokenPoints(s.tokens, stats.avgTokens)
  {
    if s.tokens.Some? && stats.avgTokens != 0.0 {
      ExceedsIs(s.tokens.value as real, 10.0, stats.avgTokens);
      ExceedsIs(s.tokens.value as real, 5.0, stats.avgTokens);
      ExceedsIs(s.tokens.value as real, 3.0, stats.avgTokens);
    }
  }

  ghost function Points(s: Span, role: Role, depth: nat, maxDepth: nat, stats: TraceStats): real {
    InputPoints(s.input) + OutputPoints(s.error, s.output) + DoubtPoints(s.confidence) + RolePoints(role)
    + DepthPoints(depth, maxDepth) + LatencyPoints(s.latency, stats.avgLatency) + TokenPoints(s.tokens, stats.avgTokens)
  }

  /** The score is the sum of seven contributions, one per recorded value. */
  lemma ScoreIsPoints(s: Span, role: Role, depth: nat, maxDepth: nat, stats: TraceStats)
    requires depth <= maxDepth
    ensures Score(s, role, depth, maxDepth, stats) == Points(s, role, depth, maxDepth, stats)
  {
    ClampIsIdle(s, role, depth, maxDepth, stats);
    InputIs(s);
    OutputIs(s);
    DoubtIs(s);
    LatencyIs(s, stats);
    TokensIs(s, stats);
    assert WEIGHT_ROLE * RoleScore(role) == RolePoints(role);
    assert WEIGHT_CAUSAL_PROXIMITY * CausalProximity(depth, maxDepth) == DepthPoints(depth, maxDepth);
  }

  // ----- What one value changes -----

  /** A drop in confidence from `d` to `c` costs 0.08 times the drop, whatever else is recorded. */
  lemma ConfidenceCosts(s: Span, c: real, d: real, role: Role, depth: nat, maxDepth: nat, stats: TraceStats)
    requires 0.0 <= c <= d <= 1.0 && depth <= maxDepth
    ensures Score(s.(confidence := Some(c)), role, depth, maxDepth, stats) ==
            Score(s.(confidence := Some(d)), role, depth, maxDepth, stats) + 0.08 * (d - c)
  {
    ScoreIsPoints(s.(confidence := Some(c)), role, depth, maxDepth, stats);
    ScoreIsPoints(s.(confidence := Some(d)), role, depth, maxDepth, stats);
  }

  /** A missing confidence counts as 0.5, and one outside the unit interval as its nearer end. */
  lemma ConfidenceEnds(s: Span, c: real, role: Role, depth: nat, maxDepth: nat, stats: TraceStats)
    requires depth <= maxDepth
    ensures Score(s.(confidence := None), role, depth, maxDepth, stats) ==
            Score(s.(confidence := Some(0.5)), role, depth, maxDepth, stats)
    ensures c < 0.0 ==> Score(s.(confidence := Some(c)), role, depth, maxDepth, stats) ==
                        Score(s.(confidence := Some(0.0)), role, depth, maxDepth, stats)
    ensures c > 1.0 ==> Score(s.(confidence := Some(c)), role, depth, maxDepth, stats) ==
                        Score(s.(confidence := Some(1.0)), role, depth, maxDepth, stats)
  {
    ScoreIsPoints(s.(confidence := None), role, depth, maxDepth, stats);
    ScoreIsPoints(s.(confidence := Some(0.5)), role, depth, maxDepth, stats);
    ScoreIsPoints(s.(confidence := Some(c)), role, depth, maxDepth, stats);
    ScoreIsPoints(s.(confidence := Some(0.0)), role, depth, maxDepth, stats);
    ScoreIsPoints(s.(confidence := Some(1.0)), role, depth, maxDepth, stats);
  }

  /** The steps from role to role. */
  lemma RoleSteps(s: Span, depth: nat, maxDepth: nat, stats: TraceStats)
    requires depth <= maxDepth
    ensures Score(s, Originator, depth, maxDepth, stats) == Score(s, Propagator, depth, maxDepth, stats) + 0.105
    ensures Score(s, Propagator, depth, maxDepth, stats) == Score(s, Manifestor, depth, maxDepth, stats) + 0.175
    ensures Score(s, Manifestor, depth, maxDepth, stats) == Score(s, Clean, depth, maxDepth, stats) + 0.07
  {
    ScoreIsPoints(s, Originator, depth, maxDepth, stats);
    ScoreIsPoints(s, Propagator, depth, maxDepth, stats);
    ScoreIsPoints(s, Manifestor, depth, maxDepth, stats);
    ScoreIsPoints(s, Clean, depth, maxDepth, stats);
  }

  // ----- The statistics -----

  ghost function TimedAt(spans: seq<Span>): set<nat> {
    set i: nat | i < |spans| && spans[i].latency.Some? && spans[i].latency.value > 0.0
  }

  ghost function CountedAt(spans: seq<Span>): set<nat> {
    set i: nat | i < |spans| && spans[i].tokens.Some? && spans[i].tokens.value != 0
  }

  /** The positive latencies together. */
  function TimeTotal(spans: seq<Span>): real {
    if spans == [] then 0.0
    else
      var n := |spans| - 1;
      TimeTotal(spans[..n]) + PositiveOr0(spans[n].latency)
  }

  function PositiveOr0(latency: Option<real>): real {
    if latency.Some? && latency.value > 0.0 then latency.value else 0.0
  }

  function CountOr0(tokens: Option<int>): real {
    if tokens.Some? then tokens.value as real else 0.0
  }

  /** The token counts together. */
  function TokenTotal(spans: seq<Span>): real {
    if spans == [] then 0.0
    else
      var n := |spans| - 1;
      TokenTotal(spans[..n]) + CountOr0(spans[n].tokens)
  }

  lemma {:induction false} SumSnoc(l: seq<real>, x: real)
    ensures Sum(l + [x]) == Sum(l) + x
  {
    if l == [] {
      assert l + [x] == [x] && [x][1..] == [];
    } else {
      TailOf(l, [x]);
      SumSnoc(l[1..], x);
    }
  }

  lemma {:induction false} LatenciesSnoc(spans: seq<Span>, s: Span)
    ensures Latencies(spans + [s]) == Latencies(spans) + Latencies([s])
  {
    if spans == [] {
      assert spans + [s] == [s];
    } else {
      TailOf(spans, [s]);
      LatenciesSnoc(spans[1..], s);
    }
  }

  lemma {:induction false} TokensSnoc(spans: seq<Span>, s: Span)
    ensures Tokens(spans + [s]) == Tokens(spans) + Tokens([s])
  {
    if spans == [] {
      assert spans + [s] == [s];
    } else {
      TailOf(spans, [s]);
      TokensSnoc(spans[1..], s);
    }
  }

  lemma OneLatency(s: Span)
    ensures Latencies([s]) == if s.latency.Some? && s.latency.value > 0.0 then [s.latency.value] else []
    ensures Tokens([s]) == if s.tokens.Some? && s.tokens.value != 0 then [s.tokens.value as real] else []
  {
    assert [s][1..] == [];
    assert Latencies([s][1..]) == [] && Tokens([s][1..]) == [];
  }

  lemma OneMore(spans: seq<Span>, n: nat)
    requires n + 1 == |spans|
    ensures Latencies(spans) == Latencies(spans[..n]) + Latencies([spans[n]])
    ensures Tokens(spans) == Tokens(spans[..n]) + Tokens([spans[n]])
    ensures Latencies([spans[n]]) == if n in TimedAt(spans) then [spans[n].latency.value] else []
    ensures Tokens([spans[n]]) == if n in CountedAt(spans) then [spans[n].tokens.value as real] else []
  {
    assert spans == spans[..n] + [spans[n]];
    LatenciesSnoc(spans[..n], spans[n]);
    TokensSnoc(spans[..n], spans[n]);
    OneLatency(spans[n]);
  }

  lemma TimedSnoc(spans: seq<Span>, n: nat)
    requires n + 1 == |spans|
    ensures |TimedAt(spans)| == |TimedAt(spans[..n])| + One(n in TimedAt(spans))
  {
    if n in TimedAt(spans) {
      assert TimedAt(spans) == TimedAt(spans[..n]) + {n};
    } else {
      assert TimedAt(spans) == TimedAt(spans[..n]);
    }
  }

  lemma {:induction false} TimedCount(spans: seq<Span>)
    ensures |Latencies(spans)| == |TimedAt(spans)|
    decreases |spans|
  {
    if spans != [] {
      var n := |spans| - 1;
      TimedCount(spans[..n]);
      OneMore(spans, n);
      TimedSnoc(spans, n);
    }
  }

  lemma CountedSnoc(spans: seq<Span>, n: nat)
    requires n + 1 == |spans|
    ensures |CountedAt(spans)| == |CountedAt(spans[..n])| + One(n in CountedAt(spans))
  {
    if n in CountedAt(spans) {
      assert CountedAt(spans) == CountedAt(spans[..n]) + {n};
    } else {
      assert CountedAt(spans) == CountedAt(spans[..n]);
    }
  }

  lemma {:induction false} CountedCount(spans: seq<Span>)
    ensures |Tokens(spans)| == |CountedAt(spans)|
    decreases |spans|
  {
    if spans != [] {
      var n := |spans| - 1;
      CountedCount(spans[..n]);
      OneMore(spans, n);
      CountedSnoc(spans, n);
    }
  }

  lemma SumMore(l: seq<real>, more: seq<real>, x: real)
    requires more == [x] || (more == [] && x == 0.0)
    ensures Sum(l + more) == Sum(l) + x
  {
    if more == [] { assert l + more == l; } else { SumSnoc(l, x); }
  }

  lemma {:induction false} TimedSum(spans: seq<Span>)
    ensures Sum(Latencies(spans)) == TimeTotal(spans)
    decreases |spans|
  {
    if spans != [] {
      var n := |spans| - 1;
      TimedSum(spans[..n]);
      OneMore(spans, n);
      SumMore(Latencies(spans[..n]), Latencies([spans[n]]), PositiveOr0(spans[n].latency));
    }
  }

  lemma {:induction false} CountedSum(spans: seq<Span>)
    ensures Sum(Tokens(spans)) == TokenTotal(spans)
    decreases |spans|
  {
    if spans != [] {
      var n := |spans| - 1;
      CountedSum(spans[..n]);
      OneMore(spans, n);
      SumMore(Tokens(spans[..n]), Tokens([spans[n]]), CountOr0(spans[n].tokens));
    }
  }

  lemma AverageIs(l: seq<real>, n: nat, total: real)
    requires n == |l| && total == Sum(l)
    ensures Times(Average(l), n) == total && (n == 0 ==> Average(l) == 0.0)
  {}

  /** The averages are over the spans with a positive latency and over those with a token count. */
  lemma StatsAre(spans: seq<Span>)
    ensures Times(StatsOf(spans).avgLatency, |TimedAt(spans)|) == TimeTotal(spans)
    ensures Times(StatsOf(spans).avgTokens, |CountedAt(spans)|) == TokenTotal(spans)
    ensures TimedAt(spans) == {} ==> StatsOf(spans).avgLatency == 0.0
    ensures CountedAt(spans) == {} ==> StatsOf(spans).avgTokens == 0.0
  {
    TimedCount(spans);
    CountedCount(spans);
    TimedSum(spans);
    CountedSum(spans);
    AverageIs(Latencies(spans), |TimedAt(spans)|, TimeTotal(spans));
    AverageIs(Tokens(spans), |CountedAt(spans)|, TokenTotal(spans));
  }

  /** The score used for ranking: nothing for a suppressed span, else its points in the trace. */
  lemma ScoredIsPoints(spans: seq<Span>, x: Id)
    requires x in TableOf(spans)
    ensures x in Scored(spans)
    ensures Scored(spans)[x] ==
            var t := TableOf(spans);
            if x in SuppressedIds(spans) then 0.0
            else Points(t[x], RoleOf(t, x), DepthOf(t, x), MaxDepth(t), StatsOf(spans))
  {
    var t := TableOf(spans);
    MaxDepthExists(t);
    ScoreIsPoints(t[x], RoleOf(t, x), DepthOf(t, x), MaxDepth(t), StatsOf(spans));
  }
}
