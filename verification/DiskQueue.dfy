/** The on-disk queue: one segment file per payload and a coarse byte budget. */
module DiskQueue {
  import opened Framing

  /** A segment file.  `name` is the position of its file name in sorted order. */
  datatype Segment = Segment(name: nat, text: string)

  function Utf8Length(c: char): nat {
    if c < '\U{80}' then 1 else if c < '\U{800}' then 2 else if c < '\U{10000}' then 3 else 4
  }

  function Bytes(text: string): nat {
    if text == "" then 0 else Utf8Length(text[0]) + Bytes(text[1..])
  }

  function Total(segments: seq<Segment>): nat {
    if segments == [] then 0 else Bytes(segments[0].text) + Total(segments[1..])
  }

  /** The directory in the order of its file names. */
  ghost predicate Sorted(segments: seq<Segment>) {
    forall i, j :: 0 <= i < j < |segments| ==> segments[i].name < segments[j].name
  }

  function Trimmed(segments: seq<Segment>, maxBytes: nat): seq<Segment> {
    if Total(segments) <= maxBytes then segments else Trimmed(segments[1..], maxBytes)
  }

  /** What pruning leaves; a budget of zero or less means none. */
  function Pruned(segments: seq<Segment>, maxBytes: int): seq<Segment> {
    if maxBytes <= 0 then segments else Trimmed(segments, maxBytes)
  }

  function Insert(segments: seq<Segment>, s: Segment): seq<Segment> {
    if segments == [] || s.name < segments[0].name then [s] + segments
    else [segments[0]] + Insert(segments[1..], s)
  }

  function Enqueued(segments: seq<Segment>, maxBytes: int, s: Segment): seq<Segment> {
    Insert(Pruned(segments, maxBytes), s)
  }

  function Without(segments: seq<Segment>, name: nat): seq<Segment> {
    if segments == [] then []
    else if segments[0].name == name then Without(segments[1..], name)
    else [segments[0]] + Without(segments[1..], name)
  }

  // ----- What these mean -----

  /** `k` segments go: the fewest oldest ones whose removal meets the budget. */
  ghost predicate Drops(segments: seq<Segment>, maxBytes: int, k: nat) {
    && k <= |segments|
    && (maxBytes <= 0 ==> k == 0)
    && (maxBytes > 0 ==> Total(segments[k..]) <= maxBytes && forall j :: 0 <= j < k ==> Total(segments[j..]) > maxBytes)
  }

  lemma {:induction false} TrimmedIsSuffix(segments: seq<Segment>, maxBytes: nat) returns (k: nat)
    ensures k <= |segments| && Trimmed(segments, maxBytes) == segments[k..]
    ensures Total(segments[k..]) <= maxBytes && forall j :: 0 <= j < k ==> Total(segments[j..]) > maxBytes
  {
    if Total(segments) <= maxBytes {
      k := 0;
    } else {
      var n := TrimmedIsSuffix(segments[1..], maxBytes);
      k := n + 1;
      assert segments[1..][n..] == segments[k..];
      forall j | 0 <= j < k ensures Total(segments[j..]) > maxBytes {
        if j > 0 { assert segments[1..][j - 1..] == segments[j..]; } else { assert segments[0..] == segments; }
      }
    }
  }

  /** Pruning removes exactly the shortest oldest-by-name prefix that meets the budget. */
  lemma PrunedIsShortest(segments: seq<Segment>, maxBytes: int, r: seq<Segment>)
    ensures r == Pruned(segments, maxBytes) <==> exists k: nat :: Drops(segments, maxBytes, k) && r == segments[k..]
  {
    var n := 0;
    if maxBytes > 0 { n := TrimmedIsSuffix(segments, maxBytes); }
    assert Drops(segments, maxBytes, n) && segments[0..] == segments;
    forall k: nat | Drops(segments, maxBytes, k) ensures k == n {}
  }

  lemma {:induction false} TotalInsert(segments: seq<Segment>, s: Segment)
    ensures Total(Insert(segments, s)) == Total(segments) + Bytes(s.text)
  {
    if segments == [] || s.name < segments[0].name {
      assert ([s] + segments)[1..] == segments;
    } else {
      TotalInsert(segments[1..], s);
      assert Insert(segments, s)[1..] == Insert(segments[1..], s);
    }
  }

  lemma {:induction false} InsertMembers(segments: seq<Segment>, s: Segment, t: Segment)
    ensures t in Insert(segments, s) <==> t == s || t in segments
  {
    if segments != [] && !(s.name < segments[0].name) { InsertMembers(segments[1..], s, t); }
  }

  lemma {:induction false} InsertSorted(segments: seq<Segment>, s: Segment)
    requires Sorted(segments) && forall i :: 0 <= i < |segments| ==> segments[i].name != s.name
    ensures Sorted(Insert(segments, s))
  {
    if segments != [] && !(s.name < segments[0].name) {
      var rest := segments[1..];
      assert forall i :: 0 <= i < |rest| ==> rest[i] == segments[i + 1];
      InsertSorted(rest, s);
      var r := Insert(rest, s);
      forall j | 0 <= j < |r| ensures segments[0].name < r[j].name {
        InsertMembers(rest, s, r[j]);
      }
    }
  }

  lemma {:induction false} WithoutMembers(segments: seq<Segment>, name: nat, t: Segment)
    ensures t in Without(segments, name) <==> t in segments && t.name != name
  {
    if segments != [] { WithoutMembers(segments[1..], name, t); }
  }

  lemma {:induction false} WithoutSorted(segments: seq<Segment>, name: nat)
    requires Sorted(segments)
    ensures Sorted(Without(segments, name))
  {
    if segments != [] {
      var rest := segments[1..];
      assert forall i :: 0 <= i < |rest| ==> rest[i] == segments[i + 1];
      WithoutSorted(rest, name);
      var r := Without(rest, name);
      forall j | 0 <= j < |r| ensures segments[0].name < r[j].name {
        WithoutMembers(rest, name, r[j]);
      }
    }
  }

  /** The directory stays in order, the new segment is always there, and only pruning takes others. */
  lemma EnqueuedKeeps(segments: seq<Segment>, maxBytes: int, s: Segment, t: Segment)
    requires Sorted(segments) && forall i :: 0 <= i < |segments| ==> segments[i].name != s.name
    ensures Sorted(Enqueued(segments, maxBytes, s))
    ensures t in Enqueued(segments, maxBytes, s) <==> t == s || t in Pruned(segments, maxBytes)
    ensures t in Pruned(segments, maxBytes) ==> t in segments
  {
    PrunedIsShortest(segments, maxBytes, Pruned(segments, maxBytes));
    var k: nat :| Drops(segments, maxBytes, k) && Pruned(segments, maxBytes) == segments[k..];
    var rest := segments[k..];
    assert forall i :: 0 <= i < |rest| ==> rest[i] == segments[k + i];
    InsertSorted(rest, s);
    InsertMembers(rest, s, t);
  }

  // ----- How many copies of a text -----

  ghost function Texts(segments: seq<Segment>): multiset<string> {
    if segments == [] then multiset{} else multiset{segments[0].text} + Texts(segments[1..])
  }

  lemma {:induction false} TextsInsert(segments: seq<Segment>, s: Segment)
    ensures Texts(Insert(segments, s)) == Texts(segments) + multiset{s.text}
  {
    if segments == [] || s.name < segments[0].name {
      assert ([s] + segments)[1..] == segments;
    } else {
      TextsInsert(segments[1..], s);
      assert Insert(segments, s)[1..] == Insert(segments[1..], s);
    }
  }

  lemma {:induction false} TextsSuffix(segments: seq<Segment>, k: nat)
    requires k <= |segments|
    ensures Texts(segments[k..]) <= Texts(segments)
  {
    if k > 0 {
      TextsSuffix(segments[1..], k - 1);
      assert segments[1..][k - 1..] == segments[k..];
    } else {
      assert segments[0..] == segments;
    }
  }

  /** Copies on disk after an enqueue: what pruning left, and one more of the new text. */
  lemma TextsEnqueued(segments: seq<Segment>, maxBytes: int, s: Segment)
    ensures Texts(Pruned(segments, maxBytes)) <= Texts(segments)
    ensures Texts(Enqueued(segments, maxBytes, s)) == Texts(Pruned(segments, maxBytes)) + multiset{s.text}
  {
    var k := SuffixPruned(segments, 0, maxBytes);
    assert segments[0..] == segments;
    TextsSuffix(segments, k);
    TextsInsert(Pruned(segments, maxBytes), s);
  }

  function Present(segments: seq<Segment>, s: Segment): nat {
    if s in segments then 1 else 0
  }

  lemma SortedTail(segments: seq<Segment>)
    requires Sorted(segments) && segments != []
    ensures Sorted(segments[1..]) && forall i :: 0 <= i < |segments| - 1 ==> segments[1..][i].name > segments[0].name
  {
    assert forall i :: 0 <= i < |segments| - 1 ==> segments[1..][i] == segments[i + 1];
  }

  lemma TextsHead(segments: seq<Segment>, text: string)
    requires segments != []
    ensures Texts(segments)[text] == Texts(segments[1..])[text] + (if segments[0].text == text then 1 else 0)
  {}

  /** Removing the file of one name takes at most the one text stored under it. */
  lemma {:induction false} TextsWithout(segments: seq<Segment>, name: nat, text: string)
    requires Sorted(segments)
    ensures Texts(segments)[text] <= Texts(Without(segments, name))[text] + Present(segments, Segment(name, text))
  {
    if segments != [] {
      var first, rest := segments[0], segments[1..];
      SortedTail(segments);
      TextsHead(segments, text);
      if first.name == name {
        WithoutNone(rest, name);
      } else {
        TextsWithout(rest, name, text);
        var left := Without(segments, name);
        assert left[0] == first && left[1..] == Without(rest, name);
        TextsHead(left, text);
      }
    }
  }

  lemma {:induction false} WithoutNone(segments: seq<Segment>, name: nat)
    requires forall i :: 0 <= i < |segments| ==> segments[i].name != name
    ensures Without(segments, name) == segments
  {
    if segments != [] { WithoutNone(segments[1..], name); }
  }

  // ----- Histories -----

  ghost function AfterAll(segments: seq<Segment>, maxBytes: int, history: seq<Segment>): seq<Segment> {
    if history == [] then segments
    else Enqueued(AfterAll(segments, maxBytes, history[..|history| - 1]), maxBytes, history[|history| - 1])
  }

  /** After any history of enqueues the directory exceeds its budget by the last payload at most. */
  lemma BudgetAfterHistory(segments: seq<Segment>, maxBytes: int, history: seq<Segment>)
    requires maxBytes > 0 && history != []
    ensures Total(AfterAll(segments, maxBytes, history)) <= maxBytes + Bytes(history[|history| - 1].text)
  {
    var before := AfterAll(segments, maxBytes, history[..|history| - 1]);
    var k := TrimmedIsSuffix(before, maxBytes);
    TotalInsert(Pruned(before, maxBytes), history[|history| - 1]);
  }

  lemma {:induction false} InsertLast(segments: seq<Segment>, s: Segment)
    requires forall i :: 0 <= i < |segments| ==> segments[i].name < s.name
    ensures Insert(segments, s) == segments + [s]
  {
    if segments != [] {
      var rest := segments[1..];
      assert forall i :: 0 <= i < |rest| ==> rest[i] == segments[i + 1];
      InsertLast(rest, s);
    }
  }

  /** With names in the order of arrival, the directory is always the latest part of the history. */
  lemma {:induction false} KeepsTheLatest(maxBytes: int, history: seq<Segment>) returns (k: nat)
    requires Sorted(history)
    ensures k <= |history| && AfterAll([], maxBytes, history) == history[k..]
    ensures history != [] ==> k < |history|
    decreases |history|
  {
    k := 0;
    if history != [] {
      var n := |history| - 1;
      var before, s := history[..n], history[n];
      var j := KeepsTheLatest(maxBytes, before);
      var i := SuffixPruned(before, j, maxBytes);
      k := j + i;
      LatestStep(history, k, n);
    }
  }

  lemma SuffixPruned(before: seq<Segment>, j: nat, maxBytes: int) returns (i: nat)
    requires j <= |before|
    ensures j + i <= |before| && Pruned(before[j..], maxBytes) == before[j + i..]
  {
    i := 0;
    if maxBytes > 0 { i := TrimmedIsSuffix(before[j..], maxBytes); }
    assert before[j..][i..] == before[j + i..];
  }

  lemma LatestStep(history: seq<Segment>, k: nat, n: nat)
    requires k <= n && n + 1 == |history| && Sorted(history)
    ensures Insert(history[..n][k..], history[n]) == history[k..]
  {
    var rest := history[..n][k..];
    assert forall i :: 0 <= i < |rest| ==> rest[i] == history[k + i];
    InsertLast(rest, history[n]);
  }

  // ----- The queue -----

  /** `encodes` says which texts have a UTF-8 encoding; one with an unpaired surrogate has none. */
  class Queue {
    const enabled: bool
    const maxBytes: int
    const encodes: string -> bool
    var segments: seq<Segment>

    constructor (enabled: bool, maxBytes: int, encodes: string -> bool)
      ensures Valid() && segments == []
      ensures this.enabled == enabled && this.maxBytes == maxBytes && this.encodes == encodes
    {
      this.enabled, this.maxBytes, this.encodes, segments := enabled, maxBytes, encodes, [];
    }

    ghost predicate Valid()
      reads this
    {
      Sorted(segments)
    }

    ghost predicate Fresh(name: nat)
      reads this
    {
      forall i :: 0 <= i < |segments| ==> segments[i].name != name
    }

    method TotalSize() returns (total: nat)
      ensures total == Total(segments)
    {
      total := 0;
      var i := |segments|;
      assert segments[i..] == [];
      while i > 0
        invariant 0 <= i <= |segments| && total == Total(segments[i..])
      {
        i := i - 1;
        assert segments[i..][1..] == segments[i + 1..];
        total := total + Bytes(segments[i].text);
      }
      assert segments[0..] == segments;
    }

    /** Delete oldest segments until the total is within the budget. */
    method Prune()
      requires Valid()
      modifies this
      ensures Valid() && segments == Pruned(old(segments), maxBytes)
    {
      if maxBytes <= 0 { return; }
      var files := segments;
      var total := TotalSize();
      var i := 0;
      while i < |files|
        invariant 0 <= i <= |files| && segments == files[i..]
        invariant total == Total(segments) && Sorted(segments)
        invariant Trimmed(files, maxBytes) == Trimmed(segments, maxBytes)
      {
        if total <= maxBytes { break; }
        assert files[i..][1..] == files[i + 1..];
        total := total - Bytes(files[i].text);
        segments := segments[1..];
        i := i + 1;
      }
    }

    /** Append a payload as a segment of its own.  A text that cannot be encoded is dropped before
        anything is pruned. */
    method Enqueue(name: nat, payload: string)
      requires Valid() && Fresh(name)
      modifies this
      ensures Valid()
      ensures segments ==
              if enabled && encodes(payload) then Enqueued(old(segments), maxBytes, Segment(name, Framed(payload)))
              else old(segments)
    {
      if !enabled { return; }
      if !encodes(payload) { return; }
      EnqueuedKeeps(segments, maxBytes, Segment(name, Framed(payload)), Segment(name, Framed(payload)));
      Prune();
      Place(Segment(name, Framed(payload)));
    }

    /** A new file takes its place in name order. */
    method Place(s: Segment)
      modifies this
      ensures segments == Insert(old(segments), s)
    {
      segments := Insert(segments, s);
    }

    /** Segment names, oldest first. */
    method SegmentPaths() returns (names: seq<nat>)
      requires Valid()
      ensures enabled ==> |names| == |segments| && forall i :: 0 <= i < |names| ==> names[i] == segments[i].name
      ensures enabled ==> forall i, j :: 0 <= i < j < |names| ==> names[i] < names[j]
      ensures !enabled ==> names == []
    {
      names := if enabled then seq(|segments|, i requires 0 <= i < |segments| reads this => segments[i].name) else [];
    }

    method ClearFile(name: nat)
      requires Valid()
      modifies this
      ensures Valid() && segments == Without(old(segments), name)
    {
      WithoutSorted(segments, name);
      segments := Without(segments, name);
    }
  }
}
