/** The playground's fixed-window rate limiter. */
module RateLimit {
  import opened Common
  import opened Spans

  datatype Row = Row(count: nat, windowStart: int)

  datatype Settings = Settings(limit: int, window: int)

  /** One request at time `now`: the verdict and the row it leaves. */
  function Check(row: Option<Row>, now: int, s: Settings): (bool, Row) {
    match row
    case None => (true, Row(1, now))
    case Some(r) =>
      if now - r.windowStart > s.window then (true, Row(1, now))
      else if r.count >= s.limit then (false, r)
      else (true, r.(count := r.count + 1))
  }

  class RateLimiter {
    const settings: Settings
    var rows: map<string, Row>

    constructor (settings: Settings)
      ensures this.settings == settings && rows == map[]
    {
      this.settings, rows := settings, map[];
    }

    function RowOf(key: string): Option<Row>
      reads this
    {
      if key in rows then Some(rows[key]) else None
    }

    /** Check and count one request; only the row of its key changes. */
    method CheckRateLimit(key: string, now: int) returns (ok: bool)
      modifies this
      ensures rows == old(rows)[key := Check(old(RowOf(key)), now, settings).1]
      ensures ok == Check(old(RowOf(key)), now, settings).0
    {
      if key in rows {
        var row := rows[key];
        var elapsed := now - row.windowStart;
        if elapsed > settings.window {
          rows := rows[key := Row(1, now)];
          return true;
        }
        if row.count >= settings.limit {
          assert rows[key := row] == rows;
          return false;
        }
        rows := rows[key := Row(row.count + 1, row.windowStart)];
        ok := true;
      } else {
        rows := rows[key := Row(1, now)];
        ok := true;
      }
    }
  }

  // ----- Runs of one key -----

  function RowAfter(times: seq<int>, s: Settings): Option<Row> {
    if times == [] then None
    else Some(Check(RowAfter(times[..|times| - 1], s), times[|times| - 1], s).1)
  }

  predicate Accepted(times: seq<int>, i: nat, s: Settings)
    requires i < |times|
  {
    Check(RowAfter(times[..i], s), times[i], s).0
  }

  /** Accepted requests among the first `n` with times from `lo` to `hi`. */
  function Hits(times: seq<int>, n: nat, lo: int, hi: int, s: Settings): nat
    requires n <= |times|
  {
    if n == 0 then 0
    else Hits(times, n - 1, lo, hi, s) + One(Accepted(times, n - 1, s) && lo <= times[n - 1] <= hi)
  }

  ghost predicate Monotone(times: seq<int>) {
    forall i, j :: 0 <= i < j < |times| ==> times[i] <= times[j]
  }

  lemma RowStep(times: seq<int>, n: nat, s: Settings)
    requires n < |times|
    ensures RowAfter(times[..n + 1], s) == Some(Check(RowAfter(times[..n], s), times[n], s).1)
  {
    assert times[..n + 1][..n] == times[..n];
  }

  /** How many hits an interval starting at `a` can hold, by where the current window starts. */
  ghost predicate Charged(row: Row, hits: nat, a: int, s: Settings) {
    && 1 <= row.count <= s.limit
    && (row.windowStart < a ==> hits <= row.count - 1)
    && (a <= row.windowStart <= a + s.window ==> hits <= s.limit - 1 + row.count)
    && hits <= 2 * s.limit - 1
  }

  lemma {:induction false} WindowsCharged(times: seq<int>, n: nat, a: int, s: Settings)
    requires s.limit >= 1 && s.window >= 0 && Monotone(times) && n <= |times|
    ensures n == 0 ==> RowAfter(times[..n], s) == None
    ensures n > 0 ==>
              var row := RowAfter(times[..n], s);
              var hits := Hits(times, n, a, a + s.window, s);
              && row.Some? && row.value.windowStart <= times[n - 1]
              && Charged(row.value, hits, a, s) && (times[n - 1] < a ==> hits == 0)
  {
    if n > 0 {
      WindowsCharged(times, n - 1, a, s);
      RowStep(times, n - 1, s);
    }
  }

  /** No closed interval of the window's length holds more than `2 * limit - 1` accepted requests. */
  lemma RateBound(times: seq<int>, a: int, s: Settings)
    requires s.limit >= 1 && s.window >= 0 && Monotone(times)
    ensures Hits(times, |times|, a, a + s.window, s) <= 2 * s.limit - 1
  {
    WindowsCharged(times, |times|, a, s);
  }

  // ----- The bound is reached -----

  function Repeat(t: int, k: nat): seq<int> {
    seq(k, _ => t)
  }

  /** A first request, `limit - 1` more at the end of its window, and `limit` just after. */
  function Burst(s: Settings): seq<int>
    requires s.limit >= 1
  {
    [0] + Repeat(s.window, s.limit - 1) + Repeat(s.window + 1, s.limit)
  }

  ghost predicate IsBurst(times: seq<int>, s: Settings) {
    && s.limit >= 1 && s.window >= 1 && |times| == 2 * s.limit
    && forall i :: 0 <= i < |times| ==> times[i] == if i == 0 then 0 else if i < s.limit then s.window else s.window + 1
  }

  lemma {:induction false} BurstRun(times: seq<int>, n: nat, s: Settings)
    requires IsBurst(times, s) && 0 < n <= 2 * s.limit
    ensures Hits(times, n, 1, 1 + s.window, s) == n - 1
    ensures RowAfter(times[..n], s) == Some(if n <= s.limit then Row(n, 0) else Row(n - s.limit, s.window + 1))
  {
    RowStep(times, n - 1, s);
    if n == 1 { assert times[..0] == []; } else { BurstRun(times, n - 1, s); }
  }

  lemma RateBoundReached(s: Settings)
    requires s.limit >= 1 && s.window >= 1
    ensures Monotone(Burst(s))
    ensures Hits(Burst(s), |Burst(s)|, 1, 1 + s.window, s) == 2 * s.limit - 1
  {
    assert IsBurst(Burst(s), s);
    BurstRun(Burst(s), 2 * s.limit, s);
  }

  // ----- Nobody is refused early -----

  lemma {:induction false} WindowFilled(times: seq<int>, n: nat, hi: int, s: Settings)
    requires Monotone(times) && 0 < n <= |times| && times[n - 1] <= hi
    ensures var row := RowAfter(times[..n], s);
            row.Some? && row.value.windowStart <= times[n - 1]
            && row.value.count <= Hits(times, n, row.value.windowStart, hi, s)
    decreases n
  {
    RowStep(times, n - 1, s);
    if n == 1 {
      assert times[..0] == [];
    } else {
      WindowFilled(times, n - 1, hi, s);
    }
  }

  /** A refused request comes after at least `limit` accepted ones within the window's length. */
  lemma RefusedMeansFull(times: seq<int>, i: nat, s: Settings)
    requires Monotone(times) && i < |times| && !Accepted(times, i, s)
    ensures Hits(times, i, times[i] - s.window, times[i], s) >= s.limit
  {
    FirstAccepted(times, s);
    var start := RefusedWindow(times, i, s);
    HitsWider(times, i, start, times[i] - s.window, times[i], s);
  }

  lemma RefusedWindow(times: seq<int>, i: nat, s: Settings) returns (start: int)
    requires Monotone(times) && 0 < i < |times| && !Accepted(times, i, s)
    ensures times[i] - s.window <= start && Hits(times, i, start, times[i], s) >= s.limit
  {
    WindowFilled(times, i, times[i], s);
    FullRow(times, i, s);
    start := RowAfter(times[..i], s).value.windowStart;
  }

  lemma FirstAccepted(times: seq<int>, s: Settings)
    requires times != []
    ensures Accepted(times, 0, s)
  {
    assert times[..0] == [];
  }

  lemma FullRow(times: seq<int>, i: nat, s: Settings)
    requires i < |times| && !Accepted(times, i, s)
    ensures var row := RowAfter(times[..i], s);
            row.Some? && times[i] - row.value.windowStart <= s.window && row.value.count >= s.limit
  {}

  lemma {:induction false} HitsWider(times: seq<int>, n: nat, lo: int, wider: int, hi: int, s: Settings)
    requires n <= |times| && wider <= lo
    ensures Hits(times, n, lo, hi, s) <= Hits(times, n, wider, hi, s)
  {
    if n > 0 { HitsWider(times, n - 1, lo, wider, hi, s); }
  }
}
