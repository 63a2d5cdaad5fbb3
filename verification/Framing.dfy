/** JSON lines: how a payload is written to a segment file and read back from it. */
module Framing {
  import opened JsonValues

  // ----- Reading: Python's splitlines -----

  /** Characters that end a line for `str.splitlines()`. */
  predicate IsBreak(c: char) {
    || '\n' <= c <= '\r'
    || '\U{1c}' <= c <= '\U{1e}'
    || c in {'\U{85}', '\U{2028}', '\U{2029}'}
  }

  /** Line-breaking characters that JSON leaves as they are. */
  predicate IsRawBreak(c: char) {
    c in {'\U{85}', '\U{2028}', '\U{2029}'}
  }

  function FirstBreak(text: string): (k: nat)
    ensures k <= |text| && (k < |text| ==> IsBreak(text[k])) && forall i :: 0 <= i < k ==> !IsBreak(text[i])
  {
    if text == "" || IsBreak(text[0]) then 0 else 1 + FirstBreak(text[1..])
  }

  /** What follows the break at `k`; a carriage return takes a following line feed with it. */
  function AfterBreak(text: string, k: nat): (rest: string)
    requires k <= |text|
    ensures k < |text| ==> |rest| < |text| - k
  {
    if k == |text| then ""
    else if text[k] == '\r' && k + 1 < |text| && text[k + 1] == '\n' then text[k + 2..]
    else text[k + 1..]
  }

  function SplitLines(text: string): seq<string>
    decreases |text|
  {
    if text == "" then []
    else
      var k := FirstBreak(text);
      [text[..k]] + SplitLines(AfterBreak(text, k))
  }

  predicate Blank(line: string) {
    forall i :: 0 <= i < |line| ==> IsSpace(line[i])
  }

  /** Lines that are blank or do not parse as an object are dropped. */
  function Parsed(lines: seq<string>, parses: string -> bool): seq<string> {
    if lines == [] then []
    else
      var rest := Parsed(lines[1..], parses);
      if Blank(lines[0]) || !parses(lines[0]) then rest else [lines[0]] + rest
  }

  function ReadBack(text: string, parses: string -> bool): seq<string> {
    Parsed(SplitLines(text), parses)
  }

  // ----- Writing: compact JSON without ASCII escapes -----

  function HexDigit(n: nat): char
    requires n < 16
  {
    "0123456789abcdef"[n]
  }

  function EscapeChar(c: char): string {
    if c == '"' then "\\\""
    else if c == '\\' then "\\\\"
    else if c == '\n' then "\\n"
    else if c == '\r' then "\\r"
    else if c == '\t' then "\\t"
    else if c == '\U{8}' then "\\b"
    else if c == '\U{c}' then "\\f"
    else if c < ' ' then "\\u00" + [HexDigit(c as nat / 16), HexDigit(c as nat % 16)]
    else [c]
  }

  function Escape(s: string): string {
    if s == "" then "" else EscapeChar(s[0]) + Escape(s[1..])
  }

  function Quote(s: string): string {
    "\"" + Escape(s) + "\""
  }

  /** `num` formats numbers. */
  function Dumps(j: Json, num: real -> string): string
    decreases j, 1
  {
    match j
    case Null => "null"
    case Bool(b) => if b then "true" else "false"
    case Num(n) => num(n)
    case Str(s) => Quote(s)
    case Arr(items) => "[" + DumpItems(items, num) + "]"
    case Obj(fields) => "{" + DumpFields(fields, num) + "}"
  }

  function DumpItems(items: seq<Json>, num: real -> string): string
    decreases items, 0
  {
    if items == [] then ""
    else Dumps(items[0], num) + Comma(items[1..]) + DumpItems(items[1..], num)
  }

  function DumpFields(fields: seq<(string, Json)>, num: real -> string): string
    decreases fields, 0
  {
    if fields == [] then ""
    else DumpField(fields[0], num) + Comma(fields[1..]) + DumpFields(fields[1..], num)
  }

  function DumpField(field: (string, Json), num: real -> string): string
    decreases field, 1
  {
    Quote(field.0) + ":" + Dumps(field.1, num)
  }

  function Comma<T>(rest: seq<T>): string {
    if rest == [] then "" else ","
  }

  // ----- Which payloads carry a raw break -----

  predicate RawIn(s: string) {
    exists i :: 0 <= i < |s| && IsRawBreak(s[i])
  }

  /** Some text inside the value, key or string, holds a raw break. */
  predicate Carries(j: Json)
    decreases j, 1
  {
    match j
    case Str(s) => RawIn(s)
    case Arr(items) => CarriesItems(items)
    case Obj(fields) => CarriesFields(fields)
    case _ => false
  }

  predicate CarriesItems(items: seq<Json>)
    decreases items, 0
  {
    items != [] && (Carries(items[0]) || CarriesItems(items[1..]))
  }

  predicate CarriesFields(fields: seq<(string, Json)>)
    decreases fields, 0
  {
    fields != [] && (CarriesField(fields[0]) || CarriesFields(fields[1..]))
  }

  predicate CarriesField(field: (string, Json))
    decreases field, 1
  {
    RawIn(field.0) || Carries(field.1)
  }

  /** Text in which every line-breaking character is a raw one. */
  predicate OnlyRaw(s: string) {
    forall i :: 0 <= i < |s| && IsBreak(s[i]) ==> IsRawBreak(s[i])
  }

  ghost predicate PlainNumbers(num: real -> string) {
    forall n :: OnlyRaw(num(n)) && !RawIn(num(n))
  }

  lemma Joined(a: string, b: string)
    ensures RawIn(a + b) <==> RawIn(a) || RawIn(b)
    ensures OnlyRaw(a + b) <==> OnlyRaw(a) && OnlyRaw(b)
  {
    var s := a + b;
    if RawIn(a) { var i :| 0 <= i < |a| && IsRawBreak(a[i]); assert IsRawBreak(s[i]); }
    if RawIn(b) { var i :| 0 <= i < |b| && IsRawBreak(b[i]); assert IsRawBreak(s[|a| + i]); }
    if OnlyRaw(s) {
      forall i | 0 <= i < |a| && IsBreak(a[i]) ensures IsRawBreak(a[i]) { assert IsBreak(s[i]); }
      forall i | 0 <= i < |b| && IsBreak(b[i]) ensures IsRawBreak(b[i]) { assert IsBreak(s[|a| + i]); }
    }
  }

  lemma {:induction false} EscapeKeeps(s: string)
    ensures OnlyRaw(Escape(s)) && (RawIn(Escape(s)) <==> RawIn(s))
  {
    if s != "" {
      EscapeKeeps(s[1..]);
      Joined(EscapeChar(s[0]), Escape(s[1..]));
      Joined([s[0]], s[1..]);
      assert [s[0]] + s[1..] == s;
      assert RawIn([s[0]]) <==> IsRawBreak(s[0]);
      EscapedChar(s[0]);
    }
  }

  lemma HexPlain(n: nat)
    requires n < 16
    ensures '0' <= HexDigit(n) <= 'f'
  {}

  lemma EscapedChar(c: char)
    ensures OnlyRaw(EscapeChar(c)) && (RawIn(EscapeChar(c)) <==> IsRawBreak(c))
  {
    if c < ' ' {
      HexPlain(c as nat / 16);
      HexPlain(c as nat % 16);
    }
    assert [c][0] == c;
  }

  /** The line boundaries of `str.splitlines()`. */
  const BOUNDARIES: set<char> := {
    '\n', '\U{b}', '\U{c}', '\r', '\U{1c}', '\U{1d}', '\U{1e}', '\U{85}', '\U{2028}', '\U{2029}'
  }

  /** The raw breaks are the boundaries that JSON does not escape. */
  lemma BreaksAre(c: char)
    ensures IsBreak(c) <==> c in BOUNDARIES
    ensures IsRawBreak(c) <==> c in BOUNDARIES && EscapeChar(c) == [c]
  {
    var n := c as int;
    assert c in BOUNDARIES <==> 10 <= n <= 13 || 28 <= n <= 30 || n in {0x85, 0x2028, 0x2029};
    if c < ' ' { assert |EscapeChar(c)| >= 2; }
  }

  predicate Plain(c: char) {
    c >= ' ' && c != '"' && c != '\\'
  }

  lemma {:induction false} EscapePlain(s: string)
    requires forall i :: 0 <= i < |s| ==> Plain(s[i])
    ensures Escape(s) == s
  {
    if s != "" { EscapePlain(s[1..]); }
  }

  lemma QuoteKeeps(s: string)
    ensures OnlyRaw(Quote(s)) && (RawIn(Quote(s)) <==> RawIn(s))
  {
    EscapeKeeps(s);
    Joined("\"", Escape(s));
    Joined("\"" + Escape(s), "\"");
  }

  lemma Around(open: string, inner: string, close: string)
    requires OnlyRaw(inner) && OnlyRaw(open) && !RawIn(open) && OnlyRaw(close) && !RawIn(close)
    ensures OnlyRaw(open + inner + close) && (RawIn(open + inner + close) <==> RawIn(inner))
  {
    Joined(open, inner);
    Joined(open + inner, close);
  }

  /** The text breaks only where the value carries a raw break. */
  lemma {:induction false} DumpsKeeps(j: Json, num: real -> string)
    requires PlainNumbers(num)
    ensures OnlyRaw(Dumps(j, num)) && (RawIn(Dumps(j, num)) <==> Carries(j))
    decreases j, 1
  {
    match j
    case Null =>
    case Bool(_) =>
    case Num(n) => assert OnlyRaw(num(n)) && !RawIn(num(n));
    case Str(s) => QuoteKeeps(s);
    case Arr(items) =>
      DumpItemsKeeps(items, num);
      Around("[", DumpItems(items, num), "]");
    case Obj(fields) =>
      DumpFieldsKeeps(fields, num);
      Around("{", DumpFields(fields, num), "}");
  }

  lemma {:induction false} DumpItemsKeeps(items: seq<Json>, num: real -> string)
    requires PlainNumbers(num)
    ensures OnlyRaw(DumpItems(items, num)) && (RawIn(DumpItems(items, num)) <==> CarriesItems(items))
    decreases items, 0
  {
    if items != [] {
      var first, comma, rest := Dumps(items[0], num), Comma(items[1..]), DumpItems(items[1..], num);
      DumpsKeeps(items[0], num);
      DumpItemsKeeps(items[1..], num);
      Joined(first, comma);
      Joined(first + comma, rest);
    }
  }

  lemma {:induction false} DumpFieldKeeps(field: (string, Json), num: real -> string)
    requires PlainNumbers(num)
    ensures OnlyRaw(DumpField(field, num)) && (RawIn(DumpField(field, num)) <==> CarriesField(field))
    decreases field, 1
  {
    QuoteKeeps(field.0);
    DumpsKeeps(field.1, num);
    Joined(Quote(field.0), ":");
    Joined(Quote(field.0) + ":", Dumps(field.1, num));
  }

  lemma {:induction false} DumpFieldsKeeps(fields: seq<(string, Json)>, num: real -> string)
    requires PlainNumbers(num)
    ensures OnlyRaw(DumpFields(fields, num)) && (RawIn(DumpFields(fields, num)) <==> CarriesFields(fields))
    decreases fields, 0
  {
    if fields != [] {
      var first, comma, rest := DumpField(fields[0], num), Comma(fields[1..]), DumpFields(fields[1..], num);
      DumpFieldKeeps(fields[0], num);
      DumpFieldsKeeps(fields[1..], num);
      Joined(first, comma);
      Joined(first + comma, rest);
    }
  }

  // ----- Round trip -----

  /** A segment file holds one payload and a line feed. */
  function Framed(text: string): string {
    text + "\n"
  }

  lemma WholeLine(text: string)
    requires OnlyRaw(text) && !RawIn(text)
    ensures SplitLines(Framed(text)) == [text]
  {
    var line := Framed(text);
    forall i | 0 <= i < |text| ensures !IsBreak(line[i]) { assert line[i] == text[i]; }
    assert line[|text|] == '\n' && IsBreak(line[|text|]);
    assert FirstBreak(line) == |text|;
    assert line[..|text|] == text;
    assert AfterBreak(line, |text|) == "";
  }

  lemma {:induction false} LinesAreShort(text: string, line: string)
    requires line in SplitLines(text)
    ensures |line| <= |text| && forall i :: 0 <= i < |line| ==> !IsBreak(line[i])
    decreases |text|
  {
    var k := FirstBreak(text);
    if line != text[..k] { LinesAreShort(AfterBreak(text, k), line); }
  }

  lemma {:induction false} ParsedFrom(lines: seq<string>, parses: string -> bool, line: string)
    requires line in Parsed(lines, parses)
    ensures line in lines && parses(line)
    decreases |lines|
  {
    if line != lines[0] || Blank(lines[0]) || !parses(lines[0]) { ParsedFrom(lines[1..], parses, line); }
  }

  /** A payload text comes back, alone and whole, exactly when it holds no raw break. */
  lemma TextComesBack(text: string, parses: string -> bool)
    requires OnlyRaw(text) && !Blank(text) && parses(text)
    ensures !RawIn(text) ==> ReadBack(Framed(text), parses) == [text]
    ensures RawIn(text) ==> text !in ReadBack(Framed(text), parses)
  {
    if !RawIn(text) {
      WholeLine(text);
      var lines := [text];
      assert lines[1..] == [] && lines[0] == text;
      assert Parsed(lines[1..], parses) == [];
    } else if text in ReadBack(Framed(text), parses) {
      ParsedFrom(SplitLines(Framed(text)), parses, text);
      LinesAreShort(Framed(text), text);
    }
  }

  predicate Unbroken(a: string) {
    forall i :: 0 <= i < |a| ==> !IsBreak(a[i])
  }

  lemma SplitAt(a: string, c: char, rest: string)
    requires Unbroken(a) && IsBreak(c) && c != '\r'
    ensures SplitLines(a + [c] + rest) == [a] + SplitLines(rest)
  {
    var text := a + [c] + rest;
    assert text[|a|] == c;
    forall i | 0 <= i < |a| ensures !IsBreak(text[i]) { assert text[i] == a[i]; }
    assert FirstBreak(text) == |a|;
    assert text[..|a|] == a && text[|a| + 1..] == rest;
  }

  lemma FramedLast(a: string, b: string)
    ensures Framed(a + b) == a + Framed(b)
  {}

  lemma TwoLines(piece: string, c: char, z: string)
    requires Unbroken(piece) && Unbroken(z) && IsRawBreak(c)
    ensures SplitLines(Framed(piece + [c] + z)) == [piece, z]
  {
    FramedLast(piece + [c], z);
    SplitAt(piece, c, Framed(z));
    SplitAt(z, '\n', "");
    assert Framed(z) == z + ['\n'] + "";
  }

  lemma ThreeLines(a: string, c: char, piece: string, z: string)
    requires Unbroken(a) && Unbroken(piece) && Unbroken(z) && IsRawBreak(c)
    ensures SplitLines(Framed(a + [c] + (piece + [c] + z))) == [a, piece, z]
  {
    FramedLast(a + [c], piece + [c] + z);
    SplitAt(a, c, Framed(piece + [c] + z));
    TwoLines(piece, c, z);
  }

  lemma MiddleParsed(a: string, piece: string, z: string, parses: string -> bool)
    requires !parses(a) && !parses(z) && parses(piece) && !Blank(piece)
    ensures Parsed([a, piece, z], parses) == [piece]
  {
    assert [a, piece, z][1..] == [piece, z] && [piece, z][1..] == [z] && [z][1..] == [];
    assert Parsed([z], parses) == [];
    assert Parsed([piece, z], parses) == [piece];
  }

  /** A text with an object between two raw breaks reads back as that object. */
  lemma PieceComesBack(a: string, c: char, piece: string, z: string, parses: string -> bool)
    requires Unbroken(a) && Unbroken(piece) && Unbroken(z) && IsRawBreak(c)
    requires !parses(a) && !parses(z) && parses(piece) && !Blank(piece)
    ensures ReadBack(Framed(a + [c] + (piece + [c] + z)), parses) == [piece]
  {
    ThreeLines(a, c, piece, z);
    MiddleParsed(a, piece, z, parses);
  }
}
