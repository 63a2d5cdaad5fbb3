/** Safe serialization: an object graph, possibly cyclic, becomes a bounded JSON value. */
module Serializer {
  import opened JsonValues

  // ----- Object graphs -----

  type Addr = nat

  datatype Value =
    | VNone
    | VBool(b: bool)
    | VNum(n: real)
    | VNaN
    | VStr(s: string)
    | Ref(a: Addr)

  /** Lists, tuples and sets; dicts with their keys as `str(key)`; anything else by its `repr`. */
  datatype Object = ListObj(items: seq<Value>) | DictObj(entries: seq<(string, Value)>) | Opaque(repr: string)

  type Heap = Addr -> Object

  datatype Limits = Limits(maxString: nat, maxDepth: nat, maxItems: nat)

  // ----- Strings -----

  function Decimal(n: nat): (s: string)
    ensures s != ""
  {
    if n < 10 then ["0123456789"[n]] else Decimal(n / 10) + ["0123456789"[n % 10]]
  }

  /** Python's `s[:k]`, where a negative `k` counts from the end. */
  function Upto(s: string, k: int): string {
    if k >= |s| then s
    else if k >= 0 then s[..k]
    else if |s| + k > 0 then s[..|s| + k]
    else ""
  }

  function Suffix(n: nat): string {
    "...<truncated " + Decimal(n) + " chars>"
  }

  function TruncateStr(s: string, maxLen: nat): string {
    if |s| <= maxLen then s
    else if maxLen <= 32 then s[..maxLen]
    else
      var suffix := Suffix(|s| - (maxLen - 24));
      Upto(s, maxLen - |suffix|) + suffix
  }

  function OutKey(k: string): (r: string)
    ensures |r| <= 259 && (|k| <= 256 ==> r == k)
  {
    if |k| > 256 then k[..256] + "..." else k
  }

  // ----- The specification -----

  /** `d[k] = v`: a known key keeps its place. */
  function Put(fields: seq<(string, Json)>, k: string, v: Json): seq<(string, Json)> {
    if fields == [] then [(k, v)]
    else if fields[0].0 == k then [(k, v)] + fields[1..]
    else [fields[0]] + Put(fields[1..], k, v)
  }

  function Kept<T>(all: seq<T>, max: nat): (r: seq<T>)
    ensures |r| <= |all| && |r| <= max && r == all[..|r|] && (|all| <= max ==> r == all)
  {
    if |all| <= max then all else all[..max]
  }

  function MaxDepthMark(limits: Limits): Json {
    Str("<max_depth " + Decimal(limits.maxDepth) + ">")
  }

  /** `seen` are the containers on the active path. */
  function Ser(h: Heap, v: Value, d: nat, seen: set<Addr>, limits: Limits): Json
    requires d <= limits.maxDepth + 1
    decreases limits.maxDepth + 1 - d, 1, 0
  {
    if d > limits.maxDepth then MaxDepthMark(limits)
    else match v
      case VNone => Null
      case VBool(b) => Bool(b)
      case VNum(n) => Num(n)
      case VNaN => Null
      case VStr(s) => Str(TruncateStr(s, limits.maxString))
      case Ref(a) =>
        match h(a)
        case Opaque(repr) => Str(TruncateStr(repr, limits.maxString))
        case ListObj(items) =>
          if a in seen then Str("<cycle>")
          else Arr(Closed(SerItems(h, Kept(items, limits.maxItems), d + 1, seen + {a}, limits), |items|, limits))
        case DictObj(entries) =>
          if a in seen then Str("<cycle>")
          else
            var kept := SerFields(h, Kept(entries, limits.maxItems), d + 1, seen + {a}, limits);
            Obj(ClosedFields(kept, |entries|, limits))
  }

  function SerItems(h: Heap, items: seq<Value>, d: nat, seen: set<Addr>, limits: Limits): (r: seq<Json>)
    requires d <= limits.maxDepth + 1
    ensures |r| == |items| && forall i :: 0 <= i < |items| ==> r[i] == Ser(h, items[i], d, seen, limits)
    decreases limits.maxDepth + 1 - d, 2, |items|
  {
    if items == [] then []
    else SerItems(h, items[..|items| - 1], d, seen, limits) + [Ser(h, items[|items| - 1], d, seen, limits)]
  }

  function SerFields(h: Heap, entries: seq<(string, Value)>, d: nat, seen: set<Addr>, limits: Limits)
    : seq<(string, Json)>
    requires d <= limits.maxDepth + 1
    decreases limits.maxDepth + 1 - d, 2, |entries|
  {
    if entries == [] then []
    else
      var (k, v) := entries[|entries| - 1];
      Put(SerFields(h, entries[..|entries| - 1], d, seen, limits), OutKey(k), Ser(h, v, d, seen, limits))
  }

  lemma SerItemsSnoc(h: Heap, items: seq<Value>, i: nat, d: nat, seen: set<Addr>, limits: Limits)
    requires d <= limits.maxDepth + 1 && i < |items|
    ensures SerItems(h, items[..i + 1], d, seen, limits) ==
            SerItems(h, items[..i], d, seen, limits) + [Ser(h, items[i], d, seen, limits)]
  {
    assert items[..i + 1][..i] == items[..i];
  }

  /** A marker says how many items were left out. */
  function Closed(r: seq<Json>, len: nat, limits: Limits): seq<Json> {
    if len > limits.maxItems then r + [Obj([("_truncated_items", Num((len - limits.maxItems) as real))])] else r
  }

  function ClosedFields(r: seq<(string, Json)>, len: nat, limits: Limits): seq<(string, Json)> {
    if len > limits.maxItems then Put(r, "_truncated_keys", Num((len - limits.maxItems) as real)) else r
  }

  // ----- The serializer -----

  class SafeSerializer {
    const heap: Heap
    const limits: Limits
    var seen: set<Addr>

    constructor (heap: Heap, limits: Limits)
      ensures this.heap == heap && this.limits == limits && seen == {}
    {
      this.heap, this.limits, seen := heap, limits, {};
    }

    /** Every call leaves the active path as it found it. */
    method Inner(v: Value, d: nat) returns (j: Json)
      requires d <= limits.maxDepth + 1
      modifies this
      ensures seen == old(seen) && j == Ser(heap, v, d, old(seen), limits)
      decreases limits.maxDepth + 1 - d, 1
    {
      if d > limits.maxDepth { return MaxDepthMark(limits); }
      match v
      case VNone => j := Null;
      case VBool(b) => j := Bool(b);
      case VNum(n) => j := Num(n);
      case VNaN => j := Null;
      case VStr(s) => j := Str(TruncateStr(s, limits.maxString));
      case Ref(a) =>
        match heap(a)
        case Opaque(repr) => j := Str(TruncateStr(repr, limits.maxString));
        case ListObj(items) =>
          if a in seen { return Str("<cycle>"); }
          j := List(a, items, d);
        case DictObj(entries) =>
          if a in seen { return Str("<cycle>"); }
          j := Dict(a, entries, d);
    }

    method List(a: Addr, items: seq<Value>, d: nat) returns (j: Json)
      requires d <= limits.maxDepth && a !in seen
      modifies this
      ensures seen == old(seen)
      ensures var kept := SerItems(heap, Kept(items, limits.maxItems), d + 1, old(seen) + {a}, limits);
              j == Arr(Closed(kept, |items|, limits))
      decreases limits.maxDepth + 1 - d, 0
    {
      seen := seen + {a};
      var out: seq<Json> := [];
      var i := 0;
      while i < |items| && i < limits.maxItems
        invariant 0 <= i <= |Kept(items, limits.maxItems)| && seen == old(seen) + {a}
        invariant out == SerItems(heap, items[..i], d + 1, seen, limits)
      {
        var item := Inner(items[i], d + 1);
        out := out + [item];
        SerItemsSnoc(heap, items, i, d + 1, seen, limits);
        i := i + 1;
      }
      assert items[..i] == Kept(items, limits.maxItems);
      if i < |items| { out := out + [Obj([("_truncated_items", Num((|items| - limits.maxItems) as real))])]; }
      seen := seen - {a};
      j := Arr(out);
    }

    method Dict(a: Addr, entries: seq<(string, Value)>, d: nat) returns (j: Json)
      requires d <= limits.maxDepth && a !in seen
      modifies this
      ensures seen == old(seen)
      ensures var kept := SerFields(heap, Kept(entries, limits.maxItems), d + 1, old(seen) + {a}, limits);
              j == Obj(ClosedFields(kept, |entries|, limits))
      decreases limits.maxDepth + 1 - d, 0
    {
      seen := seen + {a};
      var out: seq<(string, Json)> := [];
      var i := 0;
      while i < |entries| && i < limits.maxItems
        invariant 0 <= i <= |Kept(entries, limits.maxItems)| && seen == old(seen) + {a}
        invariant out == SerFields(heap, entries[..i], d + 1, seen, limits)
      {
        var value := Inner(entries[i].1, d + 1);
        out := Put(out, OutKey(entries[i].0), value);
        assert entries[..i + 1][..i] == entries[..i];
        i := i + 1;
      }
      assert entries[..i] == Kept(entries, limits.maxItems);
      if i < |entries| { out := Put(out, "_truncated_keys", Num((|entries| - limits.maxItems) as real)); }
      seen := seen - {a};
      j := Obj(out);
    }
  }

  method SafeSerialize(heap: Heap, v: Value, limits: Limits) returns (j: Json)
    ensures j == Ser(heap, v, 0, {}, limits)
  {
    var s := new SafeSerializer(heap, limits);
    j := s.Inner(v, 0);
  }
}
