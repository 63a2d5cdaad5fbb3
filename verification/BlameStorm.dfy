/** Detection of retry storms over the analysed nodes. */
module BlameStorm {
  import opened Common
  import opened Spans
  import opened RetryStorm
  import opened BlameTree
  import opened BlamePasses

  type Groups = map<Key, seq<SpanNode>>

  function AppendIf(b: bool, part: seq<Span>, s: Span): seq<Span> {
    if b then part + [s] else part
  }

  /** All spans with one key, in list order. */
  function Keyed(part: seq<Span>, k: Key): seq<Span> {
    if part == [] then []
    else
      var s := part[|part| - 1];
      AppendIf(KeyOf(s) == k, Keyed(part[..|part| - 1], k), s)
  }

  function FailedIn(part: seq<Span>): seq<Span> {
    if part == [] then []
    else
      var s := part[|part| - 1];
      AppendIf(HasError(s), FailedIn(part[..|part| - 1]), s)
  }

  lemma FailedSnoc(part: seq<Span>, s: Span)
    ensures FailedIn(part + [s]) == AppendIf(HasError(s), FailedIn(part), s)
  {
    assert (part + [s])[..|part|] == part;
  }

  lemma {:induction false} FailedKeyed(part: seq<Span>, k: Key)
    ensures FailedIn(Keyed(part, k)) == GroupOf(part, k)
    decreases |part|
  {
    if part != [] {
      var rest, s := part[..|part| - 1], part[|part| - 1];
      FailedKeyed(rest, k);
      FailedSnoc(Keyed(rest, k), s);
      assert GroupOf(part, k) == AppendIf(KeyOf(s) == k && HasError(s), GroupOf(rest, k), s);
    }
  }

  lemma KeyedSnoc(part: seq<Span>, s: Span, k: Key)
    ensures Keyed(part + [s], k) == AppendIf(KeyOf(s) == k, Keyed(part, k), s)
  {
    assert (part + [s])[..|part|] == part;
  }

  /** A list of nodes standing for a list of spans. */
  ghost predicate Stands(nodes: NodeMap, list: seq<SpanNode>, part: seq<Span>) {
    |list| == |part| && forall i :: 0 <= i < |part| ==>
      list[i].span == part[i] && part[i].id in nodes && nodes[part[i].id] == list[i]
  }

  ghost predicate Grouped(nodes: NodeMap, groups: Groups, keys: seq<Key>, part: seq<Span>) {
    && (forall k :: k in groups <==> k in keys)
    && (forall k :: k in groups ==> Stands(nodes, groups[k], Keyed(part, k)))
    && (forall k :: k !in groups ==> Keyed(part, k) == [])
  }

  lemma StandsSnoc(nodes: NodeMap, list: seq<SpanNode>, part: seq<Span>, node: SpanNode)
    requires Stands(nodes, list, part) && node.span.id in nodes && nodes[node.span.id] == node
    ensures Stands(nodes, list + [node], part + [node.span])
  {}

  method AddToGroup(ghost nodes: NodeMap, groups: Groups, keys: seq<Key>, node: SpanNode, ghost part: seq<Span>)
    returns (more: Groups, moreKeys: seq<Key>)
    requires Grouped(nodes, groups, keys, part) && node.span.id in nodes && nodes[node.span.id] == node
    ensures Grouped(nodes, more, moreKeys, part + [node.span])
  {
    var k := KeyOf(node.span);
    var list := if k in groups then groups[k] else [];
    assert Stands(nodes, list, Keyed(part, k));
    StandsSnoc(nodes, list, Keyed(part, k), node);
    more := groups[k := list + [node]];
    moreKeys := if k in groups then keys else keys + [k];
    forall j ensures Keyed(part + [node.span], j) == AppendIf(k == j, Keyed(part, j), node.span) {
      KeyedSnoc(part, node.span, j);
    }
  }

  method GroupNodes(nodes: NodeMap, order: seq<Id>, ghost spans: seq<Span>) returns (groups: Groups, keys: seq<Key>)
    requires |order| == |spans|
    requires forall i :: 0 <= i < |order| ==>
               order[i] in nodes && nodes[order[i]].span == spans[i] && spans[i].id == order[i]
    ensures Grouped(nodes, groups, keys, spans)
  {
    groups, keys := map[], [];
    for i := 0 to |order|
      invariant Grouped(nodes, groups, keys, spans[..i])
    {
      PrefixSnoc(spans, i);
      groups, keys := AddToGroup(nodes, groups, keys, nodes[order[i]], spans[..i]);
    }
    assert spans[..|order|] == spans;
  }

  method ErrorNodes(ghost nodes: NodeMap, list: seq<SpanNode>, ghost part: seq<Span>) returns (failed: seq<Span>)
    requires Intrinsic(nodes) && Stands(nodes, list, part)
    ensures failed == FailedIn(part)
  {
    failed := [];
    for i := 0 to |list|
      invariant failed == FailedIn(part[..i])
    {
      PrefixSnoc(part, i);
      FailedSnoc(part[..i], part[i]);
      assert Marked(nodes[part[i].id]);
      if list[i].selfError {
        failed := failed + [list[i].span];
      }
    }
    assert part[..|list|] == part;
  }

  /** Suppressed ids and storms as far as the groups with keys in `done` go. */
  ghost predicate StormsUpTo(spans: seq<Span>, done: set<Key>, storm: bool, suppress: set<Id>) {
    && (storm <==> exists k :: k in done && IsStorm(StormGroup(spans, k)))
    && suppress == SuppressedWith(spans, done)
  }

  ghost function SuppressedWith(spans: seq<Span>, done: set<Key>): set<Id> {
    set s | s in spans && Suppressed(spans, s) && KeyOf(s) in done :: s.id
  }

  lemma StormTail(spans: seq<Span>, k: Key, s: Span)
    requires Unique(spans) && IsStorm(StormGroup(spans, k))
    ensures s in StormGroup(spans, k)[1..] <==> Suppressed(spans, s) && KeyOf(s) == k
  {
    var g := StormGroup(spans, k);
    SortKeeps(GroupOf(spans, k));
    GroupUnique(spans, k);
    UniquePermutation(GroupOf(spans, k), g);
    GroupMembers(spans, k, s);
    assert s in g <==> s in multiset(g);
    assert s in GroupOf(spans, k) <==> s in multiset(g);
    TailMembers(g, s);
  }

  lemma StormAdds(spans: seq<Span>, done: set<Key>, k: Key)
    requires Unique(spans) && IsStorm(StormGroup(spans, k))
    ensures SuppressedWith(spans, done + {k}) == SuppressedWith(spans, done) + IdSet(StormGroup(spans, k)[1..])
  {
    var tail := StormGroup(spans, k)[1..];
    var before, after := SuppressedWith(spans, done), SuppressedWith(spans, done + {k});
    forall x | x in after ensures x in before + IdSet(tail) {
      var s :| s in spans && Suppressed(spans, s) && KeyOf(s) in done + {k} && s.id == x;
      StormTail(spans, k, s);
    }
    forall x | x in IdSet(tail) ensures x in after {
      var s :| s in tail && s.id == x;
      StormTail(spans, k, s);
    }
  }

  lemma TailMembers(g: seq<Span>, s: Span)
    requires Unique(g) && g != []
    ensures s in g[1..] <==> s in g && s.id != g[0].id
  {
    if s in g && s.id != g[0].id {
      var i :| 0 <= i < |g| && g[i] == s;
      assert g[1..][i - 1] == s;
    }
    if s in g[1..] {
      var i :| 0 <= i < |g| - 1 && g[1..][i] == s;
      assert g[i + 1] == s;
    }
  }

  lemma CalmAdds(spans: seq<Span>, done: set<Key>, k: Key)
    requires !IsStorm(StormGroup(spans, k))
    ensures SuppressedWith(spans, done + {k}) == SuppressedWith(spans, done)
  {}

  lemma AllKeysDone(spans: seq<Span>, done: set<Key>, storm: bool, suppress: set<Id>)
    requires StormsUpTo(spans, done, storm, suppress)
    requires forall k :: k !in done ==> Keyed(spans, k) == []
    ensures storm <==> SomeStorm(spans)
    ensures suppress == SuppressedIds(spans)
  {
    forall k | k !in done ensures GroupOf(spans, k) == [] { FailedKeyed(spans, k); }
    forall s | s in spans && HasError(s) ensures KeyOf(s) in done { GroupMembers(spans, KeyOf(s), s); }
  }

  method SuppressTail(suppress: set<Id>, sorted: seq<Span>) returns (more: set<Id>)
    requires sorted != []
    ensures more == suppress + IdSet(sorted[1..])
  {
    more := suppress;
    for j := 1 to |sorted|
      invariant more == suppress + IdSet(sorted[1..j])
    {
      assert sorted[1..j + 1] == sorted[1..j] + [sorted[j]];
      IdSetSnoc(sorted[1..j], sorted[j]);
      more := more + {sorted[j].id};
    }
    assert sorted[1..|sorted|] == sorted[1..];
  }

  method JudgeGroup(ghost spans: seq<Span>, failed: seq<Span>, ghost k: Key, storm: bool, suppress: set<Id>,
                    ghost done: set<Key>)
    returns (s: bool, more: set<Id>)
    requires Unique(spans) && failed == GroupOf(spans, k) && StormsUpTo(spans, done, storm, suppress)
    ensures StormsUpTo(spans, done + {k}, s, more)
  {
    s, more := storm, suppress;
    var sorted := SortByStart(failed);
    if IsStorm(sorted) {
      StormAdds(spans, done, k);
      s := true;
      more := SuppressTail(suppress, sorted);
    } else {
      CalmAdds(spans, done, k);
    }
  }

  method DetectRetryStorm(nodes: NodeMap, order: seq<Id>, ghost spans: seq<Span>)
    returns (storm: bool, suppress: set<Id>)
    requires Intrinsic(nodes) && |order| == |spans| && Unique(spans)
    requires forall i :: 0 <= i < |order| ==>
               order[i] in nodes && nodes[order[i]].span == spans[i] && spans[i].id == order[i]
    ensures storm <==> SomeStorm(spans)
    ensures suppress == SuppressedIds(spans)
  {
    var groups, keys := GroupNodes(nodes, order, spans);
    storm, suppress := false, {};
    ghost var done: set<Key> := {};
    var i := 0;
    while i < |keys|
      invariant 0 <= i <= |keys| && done == SetOf(keys[..i])
      invariant StormsUpTo(spans, done, storm, suppress)
    {
      var k := keys[i];
      SetOfPrefix(keys, i);
      FailedKeyed(spans, k);
      var failed := ErrorNodes(nodes, groups[k], Keyed(spans, k));
      storm, suppress := JudgeGroup(spans, failed, k, storm, suppress, done);
      done := done + {k};
      i := i + 1;
    }
    assert keys[..i] == keys;
    AllKeysDone(spans, done, storm, suppress);
  }
}
