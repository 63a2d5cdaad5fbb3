/** Component scores, the weighted total, and how rare a maximal anomaly score is.
    Arithmetic is over the reals. */
module Scoring {
  import opened JsonValues
  import opened Spans
  import opened Roles

  const WEIGHT_INPUT_ANOMALY := 0.15
  const WEIGHT_OUTPUT_DEVIATION := 0.20
  const WEIGHT_LOW_CONFIDENCE := 0.08
  const WEIGHT_ROLE := 0.35
  const WEIGHT_CAUSAL_PROXIMITY := 0.07
  const WEIGHT_LATENCY_ANOMALY := 0.08
  const WEIGHT_TOKEN_ANOMALY := 0.07
  const DEFAULT_CONFIDENCE := 0.5

  // ----- Trace statistics -----

  /** The positive latencies, in list order. */
  function Latencies(spans: seq<Span>): (r: seq<real>) {
    if spans == [] then []
    else
      var l := spans[0].latency;
      (if l.Some? && l.value > 0.0 then [l.value] else []) + Latencies(spans[1..])
  }

  /** The token totals that are present and not zero. */
  function Tokens(spans: seq<Span>): (r: seq<real>) {
    if spans == [] then []
    else
      var n := spans[0].tokens;
      (if n.Some? && n.value != 0 then [n.value as real] else []) + Tokens(spans[1..])
  }

  function Sum(l: seq<real>): real {
    if l == [] then 0.0 else l[0] + Sum(l[1..])
  }

  function Average(l: seq<real>): real {
    if l == [] then 0.0 else Sum(l) / |l| as real
  }

  datatype TraceStats = TraceStats(avgLatency: real, avgTokens: real)

  function StatsOf(spans: seq<Span>): TraceStats {
    TraceStats(Average(Latencies(spans)), Average(Tokens(spans)))
  }

  // ----- Component scores -----

  predicate Hollow(v: Json) {
    v == Null || v == Str("") || v == Str("null")
  }

  function HollowCount(fields: seq<(string, Json)>): (n: nat)
    ensures n <= |fields|
  {
    if fields == [] then 0 else One(Hollow(fields[0].1)) + HollowCount(fields[1..])
  }

  function InputAnomaly(s: Span): real {
    match s.input
    case Null => 1.0
    case Obj(fields) =>
      if fields == [] then 1.0
      else
        var ratio := HollowCount(fields) as real / |fields| as real;
        if ratio > 0.5 then 0.8 else if ratio > 0.0 then 0.5 else 0.0
    case Str(text) => if Strip(text) in {"", "null", "None"} then 1.0 else 0.0
    case _ => 0.0
  }

  function OutputDeviation(s: Span): real {
    if HasError(s) then 1.0
    else
      match s.output
      case Null => 1.0
      case Obj(fields) =>
        if fields == [] then 0.8
        else
          var ratio := HollowCount(fields) as real / |fields| as real;
          if ratio > 0.5 then 0.7 else if ratio > 0.0 then 0.3 else 0.0
      case Str(text) => if Strip(text) in {"", "null", "None"} then 1.0 else 0.0
      case _ => 0.0
  }

  function Clamp(x: real): (r: real)
    ensures 0.0 <= r <= 1.0
    ensures 0.0 <= x <= 1.0 ==> r == x
  {
    if x < 0.0 then 0.0 else if x > 1.0 then 1.0 else x
  }

  function LowConfidence(s: Span): real {
    match s.confidence
    case None => 1.0 - DEFAULT_CONFIDENCE
    case Some(c) => 1.0 - Clamp(c)
  }

  function CausalProximity(depth: nat, maxDepth: nat): real {
    if maxDepth == 0 then 0.5 else depth as real / maxDepth as real
  }

  function LatencyAnomaly(s: Span, stats: TraceStats): real {
    if s.latency.None? || stats.avgLatency == 0.0 then 0.0
    else
      var ratio := s.latency.value / stats.avgLatency;
      if ratio >= 5.0 then 1.0 else if ratio >= 3.0 then 0.7 else if ratio >= 2.0 then 0.4 else 0.0
  }

  function TokenAnomaly(s: Span, stats: TraceStats): real {
    if s.tokens.None? || s.tokens.value == 0 || stats.avgTokens == 0.0 then 0.0
    else
      var ratio := s.tokens.value as real / stats.avgTokens;
      if ratio >= 10.0 then 1.0 else if ratio >= 5.0 then 0.6 else if ratio >= 3.0 then 0.3 else 0.0
  }

  function RoleScore(role: Role): real {
    match role
    case Originator => 1.0
    case Propagator => 0.7
    case Manifestor => 0.2
    case Clean => 0.0
  }

  /** The weighted total before clamping. */
  function RawScore(s: Span, role: Role, depth: nat, maxDepth: nat, stats: TraceStats): real {
    WEIGHT_INPUT_ANOMALY * InputAnomaly(s)
    + WEIGHT_OUTPUT_DEVIATION * OutputDeviation(s)
    + WEIGHT_LOW_CONFIDENCE * LowConfidence(s)
    + WEIGHT_ROLE * RoleScore(role)
    + WEIGHT_CAUSAL_PROXIMITY * CausalProximity(depth, maxDepth)
    + WEIGHT_LATENCY_ANOMALY * LatencyAnomaly(s, stats)
    + WEIGHT_TOKEN_ANOMALY * TokenAnomaly(s, stats)
  }

  function Score(s: Span, role: Role, depth: nat, maxDepth: nat, stats: TraceStats): real {
    Clamp(RawScore(s, role, depth, maxDepth, stats))
  }

  lemma Fraction(d: real, m: real)
    requires 0.0 <= d <= m && m > 0.0
    ensures 0.0 <= d / m <= 1.0
  {
    var q := d / m;
    assert q * m == d;
    if q > 1.0 { Positive(q - 1.0, m); }
    if q < 0.0 { Positive(-q, m); }
  }

  lemma Positive(a: real, b: real)
    requires a > 0.0 && b > 0.0
    ensures a * b > 0.0
  {}

  lemma ProximityInRange(depth: nat, maxDepth: nat)
    requires depth <= maxDepth
    ensures 0.0 <= CausalProximity(depth, maxDepth) <= 1.0
  {
    if maxDepth > 0 { Fraction(depth as real, maxDepth as real); }
  }

  lemma Weighted(w: real, x: real)
    requires w >= 0.0 && 0.0 <= x <= 1.0
    ensures 0.0 <= w * x <= w
  {}

  /** The weights leave nothing to clamp: the total of every span already lies between 0 and 1. */
  lemma ClampIsIdle(s: Span, role: Role, depth: nat, maxDepth: nat, stats: TraceStats)
    requires depth <= maxDepth
    ensures 0.0 <= RawScore(s, role, depth, maxDepth, stats) <= 1.0
    ensures Score(s, role, depth, maxDepth, stats) == RawScore(s, role, depth, maxDepth, stats)
  {
    ProximityInRange(depth, maxDepth);
    Weighted(WEIGHT_INPUT_ANOMALY, InputAnomaly(s));
    Weighted(WEIGHT_OUTPUT_DEVIATION, OutputDeviation(s));
    Weighted(WEIGHT_LOW_CONFIDENCE, LowConfidence(s));
    Weighted(WEIGHT_ROLE, RoleScore(role));
    Weighted(WEIGHT_CAUSAL_PROXIMITY, CausalProximity(depth, maxDepth));
    Weighted(WEIGHT_LATENCY_ANOMALY, LatencyAnomaly(s, stats));
    Weighted(WEIGHT_TOKEN_ANOMALY, TokenAnomaly(s, stats));
  }

  /** An originator with an error scores at least its role and output weights. */
  lemma OriginatorErrorScore(s: Span, depth: nat, maxDepth: nat, stats: TraceStats)
    requires depth <= maxDepth && HasError(s)
    ensures Score(s, Originator, depth, maxDepth, stats) >= 0.55
  {
    ClampIsIdle(s, Originator, depth, maxDepth, stats);
    ProximityInRange(depth, maxDepth);
    Weighted(WEIGHT_INPUT_ANOMALY, InputAnomaly(s));
    Weighted(WEIGHT_LOW_CONFIDENCE, LowConfidence(s));
    Weighted(WEIGHT_CAUSAL_PROXIMITY, CausalProximity(depth, maxDepth));
    Weighted(WEIGHT_LATENCY_ANOMALY, LatencyAnomaly(s, stats));
    Weighted(WEIGHT_TOKEN_ANOMALY, TokenAnomaly(s, stats));
  }

  // ----- Spikes are scarce -----

  function CountAtLeast(l: seq<real>, bound: real): nat {
    if l == [] then 0 else One(l[0] >= bound) + CountAtLeast(l[1..], bound)
  }

  ghost predicate AllPositive(l: seq<real>) {
    forall i :: 0 <= i < |l| ==> l[i] > 0.0
  }

  function Times(x: real, n: nat): real {
    x * n as real
  }

  lemma OnceMore(x: real, n: nat)
    ensures Times(x, n + 1) == Times(x, n) + x
  {}

  /** The large values alone account for their count times the bound, and other values add to that. */
  lemma {:induction false} SumOfLarge(l: seq<real>, bound: real)
    requires AllPositive(l)
    ensures CountAtLeast(l, bound) <= |l|
    ensures Sum(l) >= Times(bound, CountAtLeast(l, bound))
    ensures CountAtLeast(l, bound) < |l| ==> Sum(l) > Times(bound, CountAtLeast(l, bound))
    ensures l != [] ==> Sum(l) > 0.0
  {
    if l != [] {
      assert AllPositive(l[1..]);
      SumOfLarge(l[1..], bound);
      OnceMore(bound, CountAtLeast(l[1..], bound));
    }
  }

  lemma Cancel(c: real, x: real, y: real)
    requires c > 0.0
    ensures c * x >= c * y ==> x >= y
    ensures c * x > c * y ==> x > y
  {
    if x <= y { assert c * (y - x) >= 0.0; }
    if x < y { assert c * (y - x) > 0.0; }
  }

  lemma AtLeastTwice(m: nat, k: nat)
    requires m >= 2
    ensures m * k >= 2 * k
  {}

  lemma ShareOfSum(len: nat, k: nat, m: nat, avg: real, bound: real, sum: real)
    requires avg > 0.0 && m >= 2 && k <= len && len > 0
    requires bound == Times(avg, m) && sum == Times(avg, len)
    requires sum >= Times(bound, k) && (k < len ==> sum > Times(bound, k))
    ensures m * k < len
  {
    Regroup(m, avg, bound, k);
    Cancel(avg, len as real, (m * k) as real);
    AtLeastTwice(m, k);
  }

  /** Fewer than one in `m` positive values reach `m` times their average. */
  lemma Markov(l: seq<real>, m: nat)
    requires AllPositive(l) && m >= 2 && l != []
    ensures m * CountAtLeast(l, m as real * Average(l)) < |l|
  {
    MarkovAt(l, m, Average(l), m as real * Average(l));
  }

  lemma MarkovAt(l: seq<real>, m: nat, avg: real, bound: real)
    requires AllPositive(l) && m >= 2 && l != [] && avg == Average(l) && bound == Times(avg, m)
    ensures m * CountAtLeast(l, bound) < |l|
  {
    AverageTimes(l);
    SumOfLarge(l, bound);
    ShareOfSum(|l|, CountAtLeast(l, bound), m, avg, bound, Sum(l));
  }

  lemma AverageTimes(l: seq<real>)
    requires AllPositive(l) && l != []
    ensures Times(Average(l), |l|) == Sum(l) && Average(l) > 0.0
  {
    SumOfLarge(l, 0.0);
  }

  lemma Regroup(m: nat, avg: real, bound: real, k: nat)
    requires bound == Times(avg, m)
    ensures Times(bound, k) == Times(avg, m * k)
  {
    assert m as real * k as real == (m * k) as real;
  }

  function LatencySpikes(spans: seq<Span>, stats: TraceStats): nat {
    if spans == [] then 0 else One(LatencyAnomaly(spans[0], stats) == 1.0) + LatencySpikes(spans[1..], stats)
  }

  function TokenSpikes(spans: seq<Span>, stats: TraceStats): nat {
    if spans == [] then 0 else One(TokenAnomaly(spans[0], stats) == 1.0) + TokenSpikes(spans[1..], stats)
  }

  lemma RatioBound(x: real, avg: real, m: real)
    requires avg > 0.0
    ensures x / avg >= m <==> x >= m * avg
  {
    assert x == (x / avg) * avg;
    if x / avg >= m { assert (x / avg) * avg >= m * avg; }
    if x >= m * avg { assert x / avg >= (m * avg) / avg == m; }
  }

  lemma CountCons(head: seq<real>, rest: seq<real>, bound: real)
    requires |head| <= 1
    ensures CountAtLeast(head + rest, bound) ==
            (if head == [] then 0 else One(head[0] >= bound)) + CountAtLeast(rest, bound)
  {
    if head == [] { assert head + rest == rest; } else { assert (head + rest)[1..] == rest; }
  }

  lemma {:induction false} LatencySpikesCounted(spans: seq<Span>, stats: TraceStats)
    requires stats.avgLatency > 0.0
    ensures LatencySpikes(spans, stats) == CountAtLeast(Latencies(spans), 5.0 * stats.avgLatency)
  {
    if spans != [] {
      LatencySpikesCounted(spans[1..], stats);
      var l := spans[0].latency;
      if l.Some? {
        RatioBound(l.value, stats.avgLatency, 5.0);
      }
      CountCons(if l.Some? && l.value > 0.0 then [l.value] else [], Latencies(spans[1..]), 5.0 * stats.avgLatency);
    }
  }

  lemma {:induction false} TokenSpikesCounted(spans: seq<Span>, stats: TraceStats)
    requires stats.avgTokens > 0.0
    ensures TokenSpikes(spans, stats) == CountAtLeast(Tokens(spans), 10.0 * stats.avgTokens)
  {
    if spans != [] {
      TokenSpikesCounted(spans[1..], stats);
      var n := spans[0].tokens;
      if n.Some? && n.value != 0 {
        RatioBound(n.value as real, stats.avgTokens, 10.0);
      }
      CountCons(if n.Some? && n.value != 0 then [n.value as real] else [], Tokens(spans[1..]), 10.0 * stats.avgTokens);
    }
  }

  lemma {:induction false} LatenciesPositive(spans: seq<Span>)
    ensures AllPositive(Latencies(spans))
  {
    if spans != [] { LatenciesPositive(spans[1..]); }
  }

  lemma {:induction false} TokensPositive(spans: seq<Span>)
    requires forall s :: s in spans && s.tokens.Some? ==> s.tokens.value >= 0
    ensures AllPositive(Tokens(spans))
  {
    if spans != [] { TokensPositive(spans[1..]); }
  }

  lemma {:induction false} NoLatencySpikes(spans: seq<Span>, stats: TraceStats)
    requires stats.avgLatency == 0.0
    ensures LatencySpikes(spans, stats) == 0
  {
    if spans != [] { NoLatencySpikes(spans[1..], stats); }
  }

  lemma {:induction false} NoTokenSpikes(spans: seq<Span>, stats: TraceStats)
    requires stats.avgTokens == 0.0
    ensures TokenSpikes(spans, stats) == 0
  {
    if spans != [] { NoTokenSpikes(spans[1..], stats); }
  }

  /** A full latency score is rare: with k of them, more than 5k spans carry a positive latency. */
  lemma LatencySpikesScarce(spans: seq<Span>)
    ensures LatencySpikes(spans, StatsOf(spans)) > 0 ==>
              5 * LatencySpikes(spans, StatsOf(spans)) < |Latencies(spans)|
  {
    var stats, l := StatsOf(spans), Latencies(spans);
    LatenciesPositive(spans);
    if l == [] {
      NoLatencySpikes(spans, stats);
    } else {
      SumOfLarge(l, 0.0);
      assert stats.avgLatency > 0.0;
      LatencySpikesCounted(spans, stats);
      Markov(l, 5);
    }
  }

  /** A full token score is rarer still, when no token count is negative. */
  lemma TokenSpikesScarce(spans: seq<Span>)
    requires forall s :: s in spans && s.tokens.Some? ==> s.tokens.value >= 0
    ensures TokenSpikes(spans, StatsOf(spans)) > 0 ==>
              10 * TokenSpikes(spans, StatsOf(spans)) < |Tokens(spans)|
  {
    var stats, l := StatsOf(spans), Tokens(spans);
    TokensPositive(spans);
    if l == [] {
      NoTokenSpikes(spans, stats);
    } else {
      SumOfLarge(l, 0.0);
      assert stats.avgTokens > 0.0;
      TokenSpikesCounted(spans, stats);
      Markov(l, 10);
    }
  }
}
