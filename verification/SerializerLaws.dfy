/** What safe serialization promises: where cycles show, how large the result is, and when the
    value comes back unchanged. */
module SerializerLaws {
  import opened Common
  import opened JsonValues
  import opened Serializer

  // ----- Strings -----

  function Pow10(k: nat): nat {
    if k == 0 then 1 else 10 * Pow10(k - 1)
  }

  lemma {:induction false} DecimalLength(n: nat, k: nat)
    requires k > 0 && n < Pow10(k)
    ensures |Decimal(n)| <= k
  {
    if n >= 10 {
      assert k > 1 by { assert Pow10(0) == 1; }
      DecimalLength(n / 10, k - 1);
    }
  }

  /** The length limit holds exactly when the suffix itself fits. */
  lemma TruncateBound(s: string, maxLen: nat)
    ensures |TruncateStr(s, maxLen)| <= maxLen <==>
            |s| <= maxLen || maxLen <= 32 || |Suffix(|s| - (maxLen - 24))| <= maxLen
  {}

  /** Which it does for every string shorter than a million million characters. */
  lemma TruncateFits(s: string, maxLen: nat)
    requires |s| < 1_000_000_000_000
    ensures |TruncateStr(s, maxLen)| <= maxLen
  {
    assert Pow10(3) == 1000;
    assert Pow10(6) == 1_000_000;
    assert Pow10(9) == 1_000_000_000;
    assert Pow10(12) == 1_000_000_000_000;
    if |s| > maxLen > 32 { DecimalLength(|s| - (maxLen - 24), 12); }
    TruncateBound(s, maxLen);
  }

  /** The number in the suffix is the number of characters dropped exactly when it has three digits. */
  lemma TruncateCount(s: string, maxLen: nat)
    requires |s| > maxLen > 32 && |Suffix(|s| - (maxLen - 24))| <= maxLen
    ensures var n := |s| - (maxLen - 24);
            var keep := maxLen - |Suffix(n)|;
            && TruncateStr(s, maxLen)[..keep] == s[..keep]
            && TruncateStr(s, maxLen)[keep..] == Suffix(n)
            && (n == |s| - keep <==> |Decimal(n)| == 3)
  {}

  /** With the default limit, a string one character too long says 25 were cut when 24 were. */
  lemma TruncateCountFails(s: string)
    requires |s| == 16385
    ensures TruncateStr(s, 16384) == s[..16361] + "...<truncated 25 chars>" && |s| - 16361 == 24
  {
    assert Decimal(25) == "25";
    assert Suffix(25) == "...<truncated 25 chars>";
  }

  // ----- Places in the graph and in the result -----

  datatype Hop = At(i: nat) | Under(k: string)

  /** The last of the entries that end up under key `k`. */
  function LastUnder(entries: seq<(string, Value)>, k: string): Option<Value> {
    if entries == [] then None
    else if OutKey(entries[|entries| - 1].0) == k then Some(entries[|entries| - 1].1)
    else LastUnder(entries[..|entries| - 1], k)
  }

  /** One step down in the graph, within the item limit. */
  function Child(h: Heap, v: Value, hop: Hop, limits: Limits): Option<Value> {
    match v
    case Ref(a) =>
      (match h(a)
       case ListObj(items) =>
         if hop.At? && hop.i < |Kept(items, limits.maxItems)| then Some(items[hop.i]) else None
       case DictObj(entries) =>
         if hop.Under? && !(|entries| > limits.maxItems && hop.k == "_truncated_keys")
         then LastUnder(Kept(entries, limits.maxItems), hop.k) else None
       case Opaque(_) => None)
    case _ => None
  }

  /** One step down in the result. */
  function Pick(j: Json, hop: Hop): Option<Json> {
    match j
    case Arr(items) => if hop.At? && hop.i < |items| then Some(items[hop.i]) else None
    case Obj(fields) => if hop.Under? then Get(fields, hop.k) else None
    case _ => None
  }

  lemma {:induction false} GetPut(fields: seq<(string, Json)>, k: string, v: Json, x: string)
    ensures Get(Put(fields, k, v), x) == if x == k then Some(v) else Get(fields, x)
  {
    if fields != [] && fields[0].0 != k {
      assert Put(fields, k, v)[1..] == Put(fields[1..], k, v);
      GetPut(fields[1..], k, v, x);
    }
  }

  lemma {:induction false} GetSerFields(h: Heap, entries: seq<(string, Value)>, d: nat, seen: set<Addr>,
                                        limits: Limits, k: string)
    requires d <= limits.maxDepth + 1
    ensures var w := LastUnder(entries, k);
            Get(SerFields(h, entries, d, seen, limits), k) ==
            if w.Some? then Some(Ser(h, w.value, d, seen, limits)) else None
    decreases |entries|
  {
    if entries != [] {
      var n := |entries| - 1;
      GetSerFields(h, entries[..n], d, seen, limits, k);
      GetPut(SerFields(h, entries[..n], d, seen, limits), OutKey(entries[n].0),
             Ser(h, entries[n].1, d, seen, limits), k);
    }
  }

  ghost predicate IsContainer(h: Heap, v: Value) {
    v.Ref? && !h(v.a).Opaque?
  }

  ghost predicate IsMarker(j: Json) {
    j.Num? || (exists n :: j == Obj([("_truncated_items", Num(n))]))
  }

  /** Below a container that is not on the active path, each place holds the serialized child; other
      places hold a truncation marker or nothing. */
  lemma PickSer(h: Heap, v: Value, d: nat, seen: set<Addr>, limits: Limits, hop: Hop)
    requires d <= limits.maxDepth && IsContainer(h, v) && v.a !in seen
    ensures var w := Child(h, v, hop, limits);
            var r := Pick(Ser(h, v, d, seen, limits), hop);
            if w.Some? then r == Some(Ser(h, w.value, d + 1, seen + {v.a}, limits))
            else r.None? || IsMarker(r.value)
  {
    match h(v.a)
    case ListObj(items) =>
    case DictObj(entries) => if hop.Under? { PickDict(h, entries, d + 1, seen + {v.a}, limits, hop.k); }
  }

  lemma PickDict(h: Heap, entries: seq<(string, Value)>, d: nat, seen: set<Addr>, limits: Limits, k: string)
    requires d <= limits.maxDepth + 1
    ensures var kept := Kept(entries, limits.maxItems);
            var r := Get(ClosedFields(SerFields(h, kept, d, seen, limits), |entries|, limits), k);
            var w := LastUnder(kept, k);
            if |entries| > limits.maxItems && k == "_truncated_keys" then r.Some? && r.value.Num?
            else r == if w.Some? then Some(Ser(h, w.value, d, seen, limits)) else None
  {
    var kept := Kept(entries, limits.maxItems);
    GetSerFields(h, kept, d, seen, limits, k);
    GetPut(SerFields(h, kept, d, seen, limits), "_truncated_keys", Num((|entries| - limits.maxItems) as real), k);
  }

  // ----- What is cut -----

  function KeysOf(fields: seq<(string, Json)>): (r: seq<string>)
    ensures |r| == |fields|
  {
    seq(|fields|, i requires 0 <= i < |fields| => fields[i].0)
  }

  /** The shortened keys, with repetitions. */
  function ShortKeys(entries: seq<(string, Value)>): (r: seq<string>)
    ensures |r| == |entries|
  {
    seq(|entries|, i requires 0 <= i < |entries| => OutKey(entries[i].0))
  }

  lemma {:induction false} PutKeys(fields: seq<(string, Json)>, k: string, v: Json)
    requires NoDup(KeysOf(fields))
    ensures NoDup(KeysOf(Put(fields, k, v))) && SetOf(KeysOf(Put(fields, k, v))) == SetOf(KeysOf(fields)) + {k}
  {
    if fields == [] {
      assert KeysOf(Put(fields, k, v)) == [k];
    } else if fields[0].0 == k {
      assert KeysOf(Put(fields, k, v)) == KeysOf(fields) && KeysOf(fields)[0] == k;
    } else {
      var rest := fields[1..];
      NoDupTail(KeysOf(fields));
      assert KeysOf(fields)[1..] == KeysOf(rest);
      PutKeys(rest, k, v);
      assert KeysOf(Put(fields, k, v)) == [fields[0].0] + KeysOf(Put(rest, k, v));
      assert fields[0].0 !in SetOf(KeysOf(rest)) + {k};
      NoDupCons(fields[0].0, KeysOf(Put(rest, k, v)));
    }
  }

  lemma {:induction false} SerKeys(h: Heap, entries: seq<(string, Value)>, d: nat, seen: set<Addr>, limits: Limits)
    requires d <= limits.maxDepth + 1
    ensures NoDup(KeysOf(SerFields(h, entries, d, seen, limits)))
    ensures SetOf(KeysOf(SerFields(h, entries, d, seen, limits))) == SetOf(ShortKeys(entries))
    decreases |entries|
  {
    if entries != [] {
      var n := |entries| - 1;
      SerKeys(h, entries[..n], d, seen, limits);
      PutKeys(SerFields(h, entries[..n], d, seen, limits), OutKey(entries[n].0), Ser(h, entries[n].1, d, seen, limits));
      assert ShortKeys(entries)[..n] == ShortKeys(entries[..n]);
      SetOfPrefix(ShortKeys(entries), n);
      assert ShortKeys(entries)[..n + 1] == ShortKeys(entries);
    }
  }

  lemma {:induction false} SizeOfSet(s: seq<string>)
    ensures |SetOf(s)| <= |s| && (|SetOf(s)| == |s| <==> NoDup(s))
    decreases |s|
  {
    if s != [] {
      var n := |s| - 1;
      SizeOfSet(s[..n]);
      SetOfPrefix(s, n);
      assert s[..n + 1] == s;
      if s[n] in s[..n] { assert SetOf(s) == SetOf(s[..n]); }
    }
  }

  function CutMark(len: nat, limits: Limits): set<string> {
    if len > limits.maxItems then {"_truncated_keys"} else {}
  }

  /** The keys are the shortened keys of the entries kept and, when some are not, the marker, each
      once; so a dict within the limit keeps its size unless two keys are shortened to the same one. */
  ghost predicate KeysTold(fields: seq<(string, Json)>, entries: seq<(string, Value)>, limits: Limits) {
    && NoDup(KeysOf(fields))
    && SetOf(KeysOf(fields)) == SetOf(ShortKeys(Kept(entries, limits.maxItems))) + CutMark(|entries|, limits)
    && |fields| <= |Kept(entries, limits.maxItems)| + |CutMark(|entries|, limits)|
    && (|entries| <= limits.maxItems ==> (|fields| == |entries| <==> NoDup(ShortKeys(entries))))
    && (|entries| > limits.maxItems ==>
          Get(fields, "_truncated_keys") == Some(Num((|entries| - limits.maxItems) as real)))
  }

  lemma CutSize(keys: seq<string>, short: seq<string>, mark: set<string>)
    requires NoDup(keys) && SetOf(keys) == SetOf(short) + mark
    ensures |keys| <= |short| + |mark|
    ensures mark == {} ==> (|keys| == |short| <==> NoDup(short))
  {
    NoDupCard(keys);
    SizeOfSet(short);
    if mark == {} { assert SetOf(short) + mark == SetOf(short); }
  }

  lemma ClosedTold(out: seq<(string, Json)>, entries: seq<(string, Value)>, limits: Limits)
    requires NoDup(KeysOf(out)) && SetOf(KeysOf(out)) == SetOf(ShortKeys(Kept(entries, limits.maxItems)))
    ensures KeysTold(ClosedFields(out, |entries|, limits), entries, limits)
  {
    var left := Num((|entries| - limits.maxItems) as real);
    var fields, mark := ClosedFields(out, |entries|, limits), CutMark(|entries|, limits);
    PutKeys(out, "_truncated_keys", left);
    GetPut(out, "_truncated_keys", left, "_truncated_keys");
    CutSize(KeysOf(fields), ShortKeys(Kept(entries, limits.maxItems)), mark);
  }

  lemma DictTold(h: Heap, entries: seq<(string, Value)>, d: nat, seen: set<Addr>, limits: Limits)
    requires d <= limits.maxDepth + 1
    ensures var kept := SerFields(h, Kept(entries, limits.maxItems), d, seen, limits);
            KeysTold(ClosedFields(kept, |entries|, limits), entries, limits)
  {
    var kept := Kept(entries, limits.maxItems);
    SerKeys(h, kept, d, seen, limits);
    ClosedTold(SerFields(h, kept, d, seen, limits), entries, limits);
  }

  /** What a container within the depth limit keeps, and how it tells what is missing. */
  lemma TruncationTold(h: Heap, a: Addr, d: nat, seen: set<Addr>, limits: Limits)
    requires d <= limits.maxDepth && a !in seen
    ensures var j := Ser(h, Ref(a), d, seen, limits);
            match h(a)
            case ListObj(items) =>
              && j.Arr?
              && (if |items| <= limits.maxItems then |j.items| == |items|
                  else |j.items| == limits.maxItems + 1 &&
                       j.items[limits.maxItems] ==
                         Obj([("_truncated_items", Num((|items| - limits.maxItems) as real))]))
            case DictObj(entries) => j.Obj? && KeysTold(j.fields, entries, limits)
            case Opaque(_) => j.Str?
  {
    match h(a)
    case ListObj(_) =>
    case DictObj(entries) => DictTold(h, entries, d + 1, seen + {a}, limits);
    case Opaque(_) =>
  }

  // ----- Cycles -----

  /** The value at the end of a path, as long as no container repeats on the way. */
  function Walk(h: Heap, v: Value, path: seq<Hop>, seen: set<Addr>, limits: Limits): Option<Value>
    decreases |path|
  {
    if path == [] then Some(v)
    else if !v.Ref? || v.a in seen then None
    else
      var w := Child(h, v, path[0], limits);
      if w.None? then None else Walk(h, w.value, path[1..], seen + {v.a}, limits)
  }

  /** The containers above the end of a path. */
  function Above(h: Heap, v: Value, path: seq<Hop>, limits: Limits): set<Addr>
    decreases |path|
  {
    if path == [] || !v.Ref? then {}
    else
      var w := Child(h, v, path[0], limits);
      {v.a} + if w.None? then {} else Above(h, w.value, path[1..], limits)
  }

  function Reach(j: Json, path: seq<Hop>): Option<Json>
    decreases |path|
  {
    if path == [] then Some(j)
    else
      var r := Pick(j, path[0]);
      if r.None? then None else Reach(r.value, path[1..])
  }

  lemma Union(seen: set<Addr>, a: Addr, above: set<Addr>)
    ensures seen + {a} + above == seen + ({a} + above)
  {}

  /** One step of a walk goes to a child of an open container. */
  lemma WalkStep(h: Heap, v: Value, path: seq<Hop>, seen: set<Addr>, limits: Limits) returns (w: Value)
    requires path != [] && Walk(h, v, path, seen, limits).Some?
    ensures IsContainer(h, v) && v.a !in seen && Child(h, v, path[0], limits) == Some(w)
    ensures Walk(h, v, path, seen, limits) == Walk(h, w, path[1..], seen + {v.a}, limits)
    ensures seen + Above(h, v, path, limits) == seen + {v.a} + Above(h, w, path[1..], limits)
  {
    w := Child(h, v, path[0], limits).value;
    Union(seen, v.a, Above(h, w, path[1..], limits));
  }

  lemma ReachStep(h: Heap, v: Value, path: seq<Hop>, d: nat, seen: set<Addr>, limits: Limits, w: Value, r: Json)
    requires path != [] && d <= limits.maxDepth && IsContainer(h, v) && v.a !in seen
    requires Child(h, v, path[0], limits) == Some(w)
    requires Reach(Ser(h, w, d + 1, seen + {v.a}, limits), path[1..]) == Some(r)
    ensures Reach(Ser(h, v, d, seen, limits), path) == Some(r)
  {
    PickSer(h, v, d, seen, limits, path[0]);
  }

  /** Along every path the result mirrors the graph, with the containers above as the active path. */
  lemma {:induction false} ReachSer(h: Heap, v: Value, path: seq<Hop>, d: nat, seen: set<Addr>, limits: Limits,
                                    end: Value, depth: nat, active: set<Addr>)
    requires Walk(h, v, path, seen, limits) == Some(end)
    requires depth == d + |path| <= limits.maxDepth + 1 && active == seen + Above(h, v, path, limits)
    ensures Reach(Ser(h, v, d, seen, limits), path) == Some(Ser(h, end, depth, active, limits))
    decreases |path|
  {
    if path == [] {
      assert seen + {} == seen;
    } else {
      var w := WalkStep(h, v, path, seen, limits);
      ReachSer(h, w, path[1..], d + 1, seen + {v.a}, limits, end, depth, active);
      ReachStep(h, v, path, d, seen, limits, w, Ser(h, end, depth, active, limits));
    }
  }

  /** A container within the depth limit shows as "<cycle>" exactly when it lies above itself;
      a container that is merely shared never does. */
  lemma CycleExactly(h: Heap, v: Value, path: seq<Hop>, limits: Limits, w: Value)
    requires |path| <= limits.maxDepth && Walk(h, v, path, {}, limits) == Some(w) && IsContainer(h, w)
    ensures var r := Reach(Ser(h, v, 0, {}, limits), path);
            r.Some? && (r.value == Str("<cycle>") <==> w.a in Above(h, v, path, limits))
  {
    ReachSer(h, v, path, 0, {}, limits, w, |path|, Above(h, v, path, limits));
  }

  /** A text that truncates to "<cycle>" by itself. */
  ghost predicate Genuine(h: Heap, v: Value, limits: Limits) {
    match v
    case VStr(s) => TruncateStr(s, limits.maxString) == "<cycle>"
    case Ref(a) => h(a).Opaque? && TruncateStr(h(a).repr, limits.maxString) == "<cycle>"
    case _ => false
  }

  lemma {:induction false} MarkerHasNoCycle(j: Json, path: seq<Hop>)
    requires IsMarker(j)
    ensures Reach(j, path) != Some(Str("<cycle>"))
  {
    if path != [] && j.Obj? {
      var n :| j == Obj([("_truncated_items", Num(n))]);
      var r := Pick(j, path[0]);
      assert j.fields[1..] == [] && j.fields[0].1 == Num(n);
      assert path[0].Under? ==> Get(j.fields[1..], path[0].k) == None;
      assert r.None? || r.value == Num(n);
    }
  }

  /** Wherever "<cycle>" stands in the result, the graph has a container below itself there, or a
      text that reads so. */
  lemma {:induction false} CycleOnly(h: Heap, v: Value, path: seq<Hop>, d: nat, seen: set<Addr>, limits: Limits)
    requires d <= limits.maxDepth + 1
    requires Reach(Ser(h, v, d, seen, limits), path) == Some(Str("<cycle>"))
    ensures var w := Walk(h, v, path, seen, limits);
            w.Some? && (Genuine(h, w.value, limits)
                        || (IsContainer(h, w.value) && w.value.a in seen + Above(h, v, path, limits)))
    decreases |path|
  {
    if path == [] {
      DepthMarkIsNoCycle(limits);
    } else {
      OpenContainer(h, v, d, seen, limits, path[0]);
      PickSer(h, v, d, seen, limits, path[0]);
      var r := Pick(Ser(h, v, d, seen, limits), path[0]).value;
      var w := Child(h, v, path[0], limits);
      if w.Some? {
        CycleOnly(h, w.value, path[1..], d + 1, seen + {v.a}, limits);
      } else {
        MarkerHasNoCycle(r, path[1..]);
      }
    }
  }

  lemma DepthMarkIsNoCycle(limits: Limits)
    ensures MaxDepthMark(limits) != Str("<cycle>")
  {
    var text := "<max_depth " + Decimal(limits.maxDepth) + ">";
    assert text[1] == 'm' && "<cycle>"[1] == 'c';
  }

  /** Only an open container has places below it. */
  lemma OpenContainer(h: Heap, v: Value, d: nat, seen: set<Addr>, limits: Limits, hop: Hop)
    requires d <= limits.maxDepth + 1 && Pick(Ser(h, v, d, seen, limits), hop).Some?
    ensures d <= limits.maxDepth && IsContainer(h, v) && v.a !in seen
  {}

  // ----- Leaves -----

  /** What a decimal text stands for. */
  function ReadDecimal(s: string): nat {
    if s == "" then 0 else 10 * ReadDecimal(s[..|s| - 1]) + DigitOf(s[|s| - 1])
  }

  function DigitOf(c: char): nat {
    if '0' <= c <= '9' then c as nat - '0' as nat else 0
  }

  lemma {:induction false} DecimalBack(n: nat)
    ensures ReadDecimal(Decimal(n)) == n && forall i :: 0 <= i < |Decimal(n)| ==> '0' <= Decimal(n)[i] <= '9'
  {
    var digit := "0123456789"[n % 10];
    assert DigitOf(digit) == n % 10;
    if n < 10 {
      assert Decimal(n)[..0] == "";
    } else {
      DecimalBack(n / 10);
      assert Decimal(n)[..|Decimal(n / 10)|] == Decimal(n / 10);
    }
  }

  /** Whatever holds no other value comes back as itself wherever it stands; texts as long as they are
      short enough, and what is not a number as null. */
  lemma LeafComesBack(h: Heap, v: Value, path: seq<Hop>, limits: Limits, w: Value)
    requires |path| <= limits.maxDepth && Walk(h, v, path, {}, limits) == Some(w)
    ensures var r := Reach(Ser(h, v, 0, {}, limits), path);
            match w
            case VNone => r == Some(Null)
            case VBool(b) => r == Some(Bool(b))
            case VNum(n) => r == Some(Num(n))
            case VNaN => r == Some(Null)
            case VStr(s) => |s| <= limits.maxString ==> r == Some(Str(s))
            case Ref(a) =>
              match h(a)
              case Opaque(repr) => |repr| <= limits.maxString ==> r == Some(Str(repr))
              case _ => true
  {
    ReachSer(h, v, path, 0, {}, limits, w, |path|, Above(h, v, path, limits));
  }

  /** What stands one level below the depth limit is replaced by a mark that tells the limit. */
  lemma TooDeep(h: Heap, v: Value, path: seq<Hop>, limits: Limits, w: Value) returns (told: string)
    requires |path| == limits.maxDepth + 1 && Walk(h, v, path, {}, limits) == Some(w)
    ensures Reach(Ser(h, v, 0, {}, limits), path) == Some(Str("<max_depth " + told + ">"))
    ensures ReadDecimal(told) == limits.maxDepth
  {
    told := Decimal(limits.maxDepth);
    DecimalBack(limits.maxDepth);
    ReachSer(h, v, path, 0, {}, limits, w, |path|, Above(h, v, path, limits));
  }

  /** Long keys keep their first 256 characters. */
  lemma LongKey(k: string)
    requires |k| > 256
    ensures |OutKey(k)| == 259 && OutKey(k)[..256] == k[..256] && OutKey(k)[256..] == "..."
  {}

  // ----- Size -----

  /** At most `levels` nested containers, each with at most `width` entries and short keys. */
  ghost predicate Bounded(j: Json, levels: nat, width: nat)
    decreases levels, 0
  {
    match j
    case Arr(items) =>
      levels > 0 && |items| <= width && forall i :: 0 <= i < |items| ==> Bounded(items[i], levels - 1, width)
    case Obj(fields) =>
      levels > 0 && BoundedFields(fields, levels - 1, width) && |fields| <= width
    case _ => true
  }

  ghost predicate BoundedFields(fields: seq<(string, Json)>, levels: nat, width: nat)
    decreases levels, 1
  {
    forall i :: 0 <= i < |fields| ==> |fields[i].0| <= 259 && Bounded(fields[i].1, levels, width)
  }

  lemma {:induction false} PutBounded(fields: seq<(string, Json)>, k: string, v: Json, levels: nat, width: nat)
    requires BoundedFields(fields, levels, width) && |k| <= 259 && Bounded(v, levels, width)
    ensures BoundedFields(Put(fields, k, v), levels, width) && |Put(fields, k, v)| <= |fields| + 1
  {
    if fields != [] && fields[0].0 != k {
      PutBounded(fields[1..], k, v, levels, width);
    }
  }

  lemma ClosedBounded(fields: seq<(string, Json)>, len: nat, limits: Limits, levels: nat)
    requires BoundedFields(fields, levels, limits.maxItems + 1) && |fields| <= limits.maxItems
    ensures BoundedFields(ClosedFields(fields, len, limits), levels, limits.maxItems + 1)
    ensures |ClosedFields(fields, len, limits)| <= limits.maxItems + 1
  {
    PutBounded(fields, "_truncated_keys", Num((len - limits.maxItems) as real), levels, limits.maxItems + 1);
  }

  lemma {:induction false} FieldsBounded(h: Heap, entries: seq<(string, Value)>, d: nat, seen: set<Addr>,
                                         limits: Limits)
    requires d <= limits.maxDepth + 1
    ensures BoundedFields(SerFields(h, entries, d, seen, limits), limits.maxDepth + 2 - d, limits.maxItems + 1)
    ensures |SerFields(h, entries, d, seen, limits)| <= |entries|
    decreases limits.maxDepth + 1 - d, 2, |entries|
  {
    if entries != [] {
      var n := |entries| - 1;
      FieldsBounded(h, entries[..n], d, seen, limits);
      SerBounded(h, entries[n].1, d, seen, limits);
      PutBounded(SerFields(h, entries[..n], d, seen, limits), OutKey(entries[n].0),
                 Ser(h, entries[n].1, d, seen, limits), limits.maxDepth + 2 - d, limits.maxItems + 1);
    }
  }

  /** Whatever the graph, the result is at most `maxDepth + 2` containers deep (a truncation marker
      may be the innermost) and at most `maxItems + 1` entries wide. */
  lemma {:induction false} SerBounded(h: Heap, v: Value, d: nat, seen: set<Addr>, limits: Limits)
    requires d <= limits.maxDepth + 1
    ensures Bounded(Ser(h, v, d, seen, limits), limits.maxDepth + 2 - d, limits.maxItems + 1)
    decreases limits.maxDepth + 1 - d, 1, 0
  {
    if d <= limits.maxDepth && IsContainer(h, v) && v.a !in seen {
      match h(v.a)
      case ListObj(items) => ListBounded(h, items, v.a, d, seen, limits);
      case DictObj(entries) => DictBounded(h, entries, v.a, d, seen, limits);
    }
  }

  lemma MarkerBounded(n: real, levels: nat, width: nat)
    requires levels > 0 && width > 0
    ensures Bounded(Obj([("_truncated_items", Num(n))]), levels, width)
  {
    var fields := [("_truncated_items", Num(n))];
    assert |"_truncated_items"| <= 259 && fields[0].1 == Num(n);
    assert BoundedFields(fields, levels - 1, width);
  }

  lemma {:induction false} ListBounded(h: Heap, items: seq<Value>, a: Addr, d: nat, seen: set<Addr>, limits: Limits)
    requires d <= limits.maxDepth
    ensures Bounded(Arr(Closed(SerItems(h, Kept(items, limits.maxItems), d + 1, seen + {a}, limits), |items|, limits)),
                    limits.maxDepth + 2 - d, limits.maxItems + 1)
    decreases limits.maxDepth + 1 - d, 0, 0
  {
    var kept := Kept(items, limits.maxItems);
    MarkerBounded((|items| - limits.maxItems) as real, limits.maxDepth + 1 - d, limits.maxItems + 1);
    forall i | 0 <= i < |kept|
      ensures Bounded(Ser(h, kept[i], d + 1, seen + {a}, limits), limits.maxDepth + 1 - d, limits.maxItems + 1)
    {
      SerBounded(h, kept[i], d + 1, seen + {a}, limits);
    }
  }

  lemma {:induction false} DictBounded(h: Heap, entries: seq<(string, Value)>, a: Addr, d: nat, seen: set<Addr>,
                                       limits: Limits)
    requires d <= limits.maxDepth
    ensures var kept := SerFields(h, Kept(entries, limits.maxItems), d + 1, seen + {a}, limits);
            Bounded(Obj(ClosedFields(kept, |entries|, limits)), limits.maxDepth + 2 - d, limits.maxItems + 1)
    decreases limits.maxDepth + 1 - d, 0, 0
  {
    var kept := Kept(entries, limits.maxItems);
    FieldsBounded(h, kept, d + 1, seen + {a}, limits);
    ClosedBounded(SerFields(h, kept, d + 1, seen + {a}, limits), |entries|, limits, limits.maxDepth + 1 - d);
  }

  // ----- When nothing changes -----

  /** The graph below `v` unfolds to the JSON value `j`; objects may be shared. */
  ghost predicate Means(h: Heap, v: Value, j: Json)
    decreases j, 1
  {
    match j
    case Null => v == VNone
    case Bool(b) => v == VBool(b)
    case Num(n) => v == VNum(n)
    case Str(s) => v == VStr(s)
    case Arr(items) =>
      && v.Ref? && h(v.a).ListObj? && |h(v.a).items| == |items|
      && forall i :: 0 <= i < |items| ==> Means(h, h(v.a).items[i], items[i])
    case Obj(fields) =>
      && v.Ref? && h(v.a).DictObj? && |h(v.a).entries| == |fields|
      && forall i :: 0 <= i < |fields| ==> MeansField(h, h(v.a).entries[i], fields[i])
  }

  ghost predicate MeansField(h: Heap, entry: (string, Value), field: (string, Json))
    decreases field, 1
  {
    entry.0 == field.0 && Means(h, entry.1, field.1)
  }

  /** Strings, keys, widths and depth are within the limits, and keys are distinct. */
  ghost predicate Within(j: Json, d: nat, limits: Limits)
    decreases j, 1
  {
    && d <= limits.maxDepth
    && match j
       case Str(s) => |s| <= limits.maxString
       case Arr(items) =>
         |items| <= limits.maxItems && forall i :: 0 <= i < |items| ==> Within(items[i], d + 1, limits)
       case Obj(fields) =>
         && |fields| <= limits.maxItems
         && (forall i :: 0 <= i < |fields| ==> FieldWithin(fields[i], d + 1, limits))
         && forall i, k :: 0 <= i < k < |fields| ==> fields[i].0 != fields[k].0
       case _ => true
  }

  ghost predicate FieldWithin(field: (string, Json), d: nat, limits: Limits)
    decreases field, 1
  {
    |field.0| <= 256 && Within(field.1, d, limits)
  }

  /** A graph unfolds to one value at most. */
  lemma {:induction false} MeansOne(h: Heap, v: Value, j: Json, k: Json)
    requires Means(h, v, j) && Means(h, v, k)
    ensures j == k
    decreases j, 1
  {
    match j
    case Arr(items) =>
      forall i | 0 <= i < |items| ensures items[i] == k.items[i] {
        MeansOne(h, h(v.a).items[i], items[i], k.items[i]);
      }
    case Obj(fields) =>
      forall i | 0 <= i < |fields| ensures fields[i] == k.fields[i] {
        MeansOneField(h, h(v.a).entries[i], fields[i], k.fields[i]);
      }
    case _ =>
  }

  lemma {:induction false} MeansOneField(h: Heap, entry: (string, Value), f: (string, Json), g: (string, Json))
    requires MeansField(h, entry, f) && MeansField(h, entry, g)
    ensures f == g
    decreases f, 1
  {
    MeansOne(h, entry.1, f.1, g.1);
  }

  function Height(j: Json): nat
    decreases j, 1
  {
    match j
    case Arr(items) => 1 + HeightItems(items)
    case Obj(fields) => 1 + HeightFields(fields)
    case _ => 0
  }

  function HeightItems(items: seq<Json>): nat
    decreases items, 0
  {
    if items == [] then 0
    else
      var a, b := Height(items[0]), HeightItems(items[1..]);
      if a > b then a else b
  }

  function HeightFields(fields: seq<(string, Json)>): nat
    decreases fields, 0
  {
    if fields == [] then 0
    else
      var a, b := HeightField(fields[0]), HeightFields(fields[1..]);
      if a > b then a else b
  }

  function HeightField(field: (string, Json)): nat
    decreases field, 1
  {
    Height(field.1)
  }

  lemma {:induction false} ItemLower(items: seq<Json>, i: nat)
    requires i < |items|
    ensures Height(items[i]) <= HeightItems(items)
    decreases |items|
  {
    if i > 0 { ItemLower(items[1..], i - 1); }
  }

  lemma {:induction false} FieldLower(fields: seq<(string, Json)>, i: nat)
    requires i < |fields|
    ensures Height(fields[i].1) <= HeightFields(fields)
    decreases |fields|
  {
    if i > 0 { FieldLower(fields[1..], i - 1); }
  }

  /** The containers on the active path unfold to values higher than `height`. */
  ghost predicate Higher(h: Heap, seen: set<Addr>, height: nat) {
    forall a :: a in seen ==> exists k :: Means(h, Ref(a), k) && Height(k) > height
  }

  /** So a container that unfolds to a value is never on its own active path. */
  lemma NotAboveItself(h: Heap, a: Addr, j: Json, seen: set<Addr>)
    requires Means(h, Ref(a), j) && Higher(h, seen, Height(j))
    ensures a !in seen
  {
    if a in seen {
      var k :| Means(h, Ref(a), k) && Height(k) > Height(j);
      MeansOne(h, Ref(a), j, k);
    }
  }

  lemma HigherBelow(h: Heap, a: Addr, j: Json, seen: set<Addr>, height: nat)
    requires Means(h, Ref(a), j) && Higher(h, seen, Height(j)) && height < Height(j)
    ensures Higher(h, seen + {a}, height)
  {
    forall b | b in seen + {a} ensures exists k :: Means(h, Ref(b), k) && Height(k) > height {
      if b in seen {
        var k :| Means(h, Ref(b), k) && Height(k) > Height(j);
        assert Height(k) > height;
      }
    }
  }

  lemma {:induction false} PutNew(fields: seq<(string, Json)>, k: string, v: Json)
    requires forall i :: 0 <= i < |fields| ==> fields[i].0 != k
    ensures Put(fields, k, v) == fields + [(k, v)]
  {
    if fields != [] {
      PutNew(fields[1..], k, v);
    }
  }

  ghost predicate FieldKept(h: Heap, entry: (string, Value), field: (string, Json), d: nat, seen: set<Addr>,
                            limits: Limits)
    requires d <= limits.maxDepth + 1
  {
    entry.0 == field.0 && |field.0| <= 256 && Ser(h, entry.1, d, seen, limits) == field.1
  }

  lemma {:induction false} FieldsUnchanged(h: Heap, entries: seq<(string, Value)>, fields: seq<(string, Json)>,
                                           d: nat, seen: set<Addr>, limits: Limits)
    requires d <= limits.maxDepth + 1 && |entries| == |fields|
    requires forall i, k :: 0 <= i < k < |fields| ==> fields[i].0 != fields[k].0
    requires forall i :: 0 <= i < |fields| ==> FieldKept(h, entries[i], fields[i], d, seen, limits)
    ensures SerFields(h, entries, d, seen, limits) == fields
    decreases |fields|
  {
    if fields != [] {
      var n := |fields| - 1;
      FieldsUnchanged(h, entries[..n], fields[..n], d, seen, limits);
      assert FieldKept(h, entries[n], fields[n], d, seen, limits);
      PutNew(fields[..n], fields[n].0, fields[n].1);
      assert fields == fields[..n] + [fields[n]];
    }
  }

  /** A value within the limits comes back unchanged, however its objects are shared. */
  lemma {:induction false} Unchanged(h: Heap, v: Value, j: Json, d: nat, seen: set<Addr>, limits: Limits)
    requires Means(h, v, j) && Within(j, d, limits) && Higher(h, seen, Height(j))
    ensures Ser(h, v, d, seen, limits) == j
    decreases j, 1
  {
    match j
    case Arr(items) =>
      NotAboveItself(h, v.a, j, seen);
      ListUnchanged(h, v.a, items, d, seen, limits);
    case Obj(fields) =>
      NotAboveItself(h, v.a, j, seen);
      DictUnchanged(h, v.a, fields, d, seen, limits);
    case _ =>
  }

  lemma {:induction false} ListUnchanged(h: Heap, a: Addr, items: seq<Json>, d: nat, seen: set<Addr>, limits: Limits)
    requires Means(h, Ref(a), Arr(items)) && Within(Arr(items), d, limits) && Higher(h, seen, Height(Arr(items)))
    ensures SerItems(h, h(a).items, d + 1, seen + {a}, limits) == items
    decreases items, 0
  {
    forall i | 0 <= i < |items| ensures Ser(h, h(a).items[i], d + 1, seen + {a}, limits) == items[i] {
      ItemLower(items, i);
      HigherBelow(h, a, Arr(items), seen, Height(items[i]));
      Unchanged(h, h(a).items[i], items[i], d + 1, seen + {a}, limits);
    }
  }

  lemma {:induction false} DictUnchanged(h: Heap, a: Addr, fields: seq<(string, Json)>, d: nat, seen: set<Addr>,
                                         limits: Limits)
    requires Means(h, Ref(a), Obj(fields)) && Within(Obj(fields), d, limits) && Higher(h, seen, Height(Obj(fields)))
    ensures SerFields(h, h(a).entries, d + 1, seen + {a}, limits) == fields
    decreases fields, 0
  {
    var entries := h(a).entries;
    forall i | 0 <= i < |fields| ensures FieldKept(h, entries[i], fields[i], d + 1, seen + {a}, limits) {
      assert MeansField(h, entries[i], fields[i]) && FieldWithin(fields[i], d + 1, limits);
      assert Within(fields[i].1, d + 1, limits);
      FieldLower(fields, i);
      HigherBelow(h, a, Obj(fields), seen, Height(fields[i].1));
      FieldUnchanged(h, entries[i], fields[i], d + 1, seen + {a}, limits);
    }
    FieldsUnchanged(h, entries, fields, d + 1, seen + {a}, limits);
  }

  lemma {:induction false} FieldUnchanged(h: Heap, entry: (string, Value), field: (string, Json), d: nat,
                                          seen: set<Addr>, limits: Limits)
    requires MeansField(h, entry, field) && FieldWithin(field, d, limits) && Higher(h, seen, Height(field.1))
    requires d <= limits.maxDepth
    ensures Ser(h, entry.1, d, seen, limits) == field.1
    decreases field, 1
  {
    Unchanged(h, entry.1, field.1, d, seen, limits);
  }

  /** From the top: nothing is on the active path yet. */
  lemma SerializedUnchanged(h: Heap, v: Value, j: Json, limits: Limits)
    requires Means(h, v, j) && Within(j, 0, limits)
    ensures Ser(h, v, 0, {}, limits) == j
  {
    Unchanged(h, v, j, 0, {}, limits);
  }
}
