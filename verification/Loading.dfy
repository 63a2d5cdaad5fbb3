/** Written payloads are read back as the values they were: the round trip through JSON and files. */
module Loading {
  import opened Common
  import opened JsonValues
  import opened JsonReader
  import opened Framing

  /** The number is written as number characters that read back as the same number. */
  ghost predicate Spelt(n: real, num: real -> string, read: Reader) {
    num(n) != "" && (forall i :: 0 <= i < |num(n)| ==> NumberChar(num(n)[i])) && read(num(n)) == Some(n)
  }

  /** Every number in the value is. */
  ghost predicate Spelled(j: Json, num: real -> string, read: Reader)
    decreases j, 1
  {
    match j
    case Num(n) => Spelt(n, num, read)
    case Arr(items) => SpelledItems(items, num, read)
    case Obj(fields) => SpelledFields(fields, num, read)
    case _ => true
  }

  ghost predicate SpelledItems(items: seq<Json>, num: real -> string, read: Reader)
    decreases items, 0
  {
    items != [] ==> Spelled(items[0], num, read) && SpelledItems(items[1..], num, read)
  }

  ghost predicate SpelledFields(fields: seq<(string, Json)>, num: real -> string, read: Reader)
    decreases fields, 0
  {
    fields != [] ==> SpelledField(fields[0], num, read) && SpelledFields(fields[1..], num, read)
  }

  ghost predicate SpelledField(field: (string, Json), num: real -> string, read: Reader)
    decreases field, 1
  {
    Spelled(field.1, num, read)
  }

  // ----- Reading what was written -----

  /** A number written before `rest` ends where it should. */
  predicate Ends(rest: string) {
    rest != "" ==> !NumberChar(rest[0])
  }

  lemma HexBack(n: nat)
    requires n < 16
    ensures HexValue(HexDigit(n)) == Some(n)
  {}

  lemma EscapeBack(c: char, rest: string)
    requires EscapeChar(c) != [c]
    ensures EscapeChar(c)[0] == '\\' && ReadEscape(EscapeChar(c)[1..] + rest) == Some((c, rest))
  {
    var text := EscapeChar(c)[1..] + rest;
    if |EscapeChar(c)| == 2 {
      assert text[1..] == rest;
    } else {
      var hi, lo := c as nat / 16, c as nat % 16;
      HexBack(hi);
      HexBack(lo);
      assert EscapeChar(c) == "\\u00" + [HexDigit(hi), HexDigit(lo)];
      assert text[1..5] == ['0', '0', HexDigit(hi), HexDigit(lo)] && text[5..] == rest;
    }
  }

  lemma ReadsPlain(c: char, tail: string, s: string, rest: string)
    requires c >= ' ' && c != '"' && c != '\\' && ReadString(tail) == Some((s, rest))
    ensures ReadString([c] + tail) == Some(([c] + s, rest))
  {
    var text := [c] + tail;
    assert text[0] == c && text[1..] == tail;
  }

  lemma ReadsEscaped(c: char, tail: string, s: string, rest: string)
    requires EscapeChar(c) != [c] && ReadString(tail) == Some((s, rest))
    ensures ReadString(EscapeChar(c) + tail) == Some(([c] + s, rest))
  {
    EscapeBack(c, tail);
    var text := EscapeChar(c) + tail;
    assert text[0] == '\\' && text[1..] == EscapeChar(c)[1..] + tail;
  }

  lemma ReadsChar(c: char, tail: string, s: string, rest: string)
    requires ReadString(tail) == Some((s, rest))
    ensures ReadString(EscapeChar(c) + tail) == Some(([c] + s, rest))
  {
    if EscapeChar(c) == [c] { ReadsPlain(c, tail, s, rest); } else { ReadsEscaped(c, tail, s, rest); }
  }

  lemma {:induction false} ReadsString(s: string, rest: string)
    ensures ReadString(Escape(s) + "\"" + rest) == Some((s, rest))
  {
    if s == "" {
      assert (Escape(s) + "\"" + rest)[1..] == rest;
    } else {
      ReadsString(s[1..], rest);
      ReadsChar(s[0], Escape(s[1..]) + "\"" + rest, s[1..], rest);
      assert Escape(s) + "\"" + rest == EscapeChar(s[0]) + (Escape(s[1..]) + "\"" + rest);
      assert s == [s[0]] + s[1..];
    }
  }

  lemma {:induction false} NumberEndIs(number: string, rest: string)
    requires (forall i :: 0 <= i < |number| ==> NumberChar(number[i])) && Ends(rest)
    ensures NumberEnd(number + rest) == |number|
  {
    if number == "" {
      assert number + rest == rest;
    } else {
      TailOf(number, rest);
      NumberEndIs(number[1..], rest);
    }
  }

  /** Nothing is skipped before a written value, and it does not close a list. */
  predicate Starts(text: string) {
    text != "" && !Insignificant(text[0]) && text[0] != ']'
  }

  lemma StartsOn(text: string, rest: string)
    requires Starts(text)
    ensures Skip(text + rest) == text + rest && !("]" <= text + rest)
  {
    assert (text + rest)[0] == text[0];
  }

  lemma DumpStarts(j: Json, num: real -> string, read: Reader)
    requires Spelled(j, num, read)
    ensures Starts(Dumps(j, num))
  {
    match j
    case Num(n) => assert NumberChar(num(n)[0]);
    case _ =>
  }

  lemma ReadsNumber(n: real, rest: string, num: real -> string, read: Reader)
    requires Spelt(n, num, read) && Ends(rest)
    ensures ReadValue(num(n) + rest, read) == Some((Num(n), rest))
  {
    var text := num(n) + rest;
    assert NumberChar(num(n)[0]) && text[0] == num(n)[0];
    assert Skip(text) == text;
    NumberEndIs(num(n), rest);
    assert text[..|num(n)|] == num(n) && text[|num(n)|..] == rest;
  }

  lemma ReadsLiteral(j: Json, rest: string, num: real -> string, read: Reader)
    requires j.Null? || j.Bool?
    ensures ReadValue(Dumps(j, num) + rest, read) == Some((j, rest))
  {
    var text := Dumps(j, num) + rest;
    assert text[0] == Dumps(j, num)[0];
    assert Skip(text) == text;
    assert Dumps(j, num) <= text && text[|Dumps(j, num)|..] == rest;
  }

  // One step of the reader each, on a text that is already taken apart.

  lemma TextRead(inner: string, s: string, rest: string, read: Reader)
    requires ReadString(inner) == Some((s, rest))
    ensures ReadValue("\"" + inner, read) == Some((Str(s), rest))
  {
    var text := "\"" + inner;
    assert text[0] == '"' && text[1..] == inner;
  }

  lemma EmptyArrayRead(rest: string, read: Reader)
    ensures ReadValue("[" + ("]" + rest), read) == Some((Arr([]), rest))
  {
    var inner := "]" + rest;
    var text := "[" + inner;
    assert text[0] == '[' && text[1..] == inner;
    assert inner[0] == ']' && inner[1..] == rest;
    assert Skip(inner) == inner;
  }

  lemma ArrayRead(inner: string, items: seq<Json>, rest: string, read: Reader)
    requires Skip(inner) == inner && !("]" <= inner) && ReadItems(inner, read) == Some((items, rest))
    ensures ReadValue("[" + inner, read) == Some((Arr(items), rest))
  {
    var text := "[" + inner;
    assert text[0] == '[' && text[1..] == inner;
  }

  lemma EmptyObjectRead(rest: string, read: Reader)
    ensures ReadValue("{" + ("}" + rest), read) == Some((Obj([]), rest))
  {
    var inner := "}" + rest;
    var text := "{" + inner;
    assert text[0] == '{' && text[1..] == inner;
    assert inner[0] == '}' && inner[1..] == rest;
    assert Skip(inner) == inner;
  }

  lemma ObjectRead(inner: string, fields: seq<(string, Json)>, rest: string, read: Reader)
    requires inner != "" && inner[0] == '"' && ReadFields(inner, read) == Some((fields, rest))
    ensures ReadValue("{" + inner, read) == Some((Obj(fields), rest))
  {
    var text := "{" + inner;
    assert text[0] == '{' && text[1..] == inner;
    assert Skip(inner) == inner;
  }

  lemma LastItem(text: string, j: Json, rest: string, read: Reader)
    requires ReadValue(text, read) == Some((j, "]" + rest))
    ensures ReadItems(text, read) == Some(([j], rest))
  {
    var after := "]" + rest;
    assert after[0] == ']' && after[1..] == rest;
    assert Skip(after) == after;
  }

  lemma NextItem(text: string, j: Json, tail: string, items: seq<Json>, rest: string, read: Reader)
    requires ReadValue(text, read) == Some((j, "," + tail)) && ReadItems(tail, read) == Some((items, rest))
    ensures ReadItems(text, read) == Some(([j] + items, rest))
  {
    var after := "," + tail;
    assert after[0] == ',' && after[1..] == tail;
    assert Skip(after) == after;
  }

  lemma FieldRead(inner: string, key: string, tail: string, j: Json, rest: string, read: Reader)
    requires ReadString(inner) == Some((key, ":" + tail)) && ReadValue(tail, read) == Some((j, rest))
    ensures ReadField("\"" + inner, read) == Some(((key, j), rest))
  {
    var text, after := "\"" + inner, ":" + tail;
    assert text[0] == '"' && text[1..] == inner;
    assert after[0] == ':' && after[1..] == tail;
    assert Skip(text) == text && Skip(after) == after;
  }

  lemma LastField(text: string, field: (string, Json), rest: string, read: Reader)
    requires ReadField(text, read) == Some((field, "}" + rest))
    ensures ReadFields(text, read) == Some(([field], rest))
  {
    var after := "}" + rest;
    assert after[0] == '}' && after[1..] == rest;
    assert Skip(after) == after;
  }

  lemma NextField(text: string, field: (string, Json), tail: string, fields: seq<(string, Json)>, rest: string,
                  read: Reader)
    requires ReadField(text, read) == Some((field, "," + tail)) && ReadFields(tail, read) == Some((fields, rest))
    ensures ReadFields(text, read) == Some(([field] + fields, rest))
  {
    var after := "," + tail;
    assert after[0] == ',' && after[1..] == tail;
    assert Skip(after) == after;
  }

  /** A bracketed text and what follows it, from the second character on. */
  lemma Opened(open: string, inner: string, close: string, rest: string)
    ensures open + inner + close + rest == open + (inner + (close + rest))
  {}

  lemma QuoteOpened(s: string, rest: string)
    ensures Quote(s) + rest == "\"" + (Escape(s) + "\"" + rest)
  {
    Opened("\"", Escape(s), "\"", rest);
    Opened("", Escape(s), "\"", rest);
  }

  /** Whatever is written is read back, whatever follows it. */
  lemma {:induction false} ReadsDump(j: Json, rest: string, num: real -> string, read: Reader)
    requires Spelled(j, num, read) && Ends(rest)
    ensures ReadValue(Dumps(j, num) + rest, read) == Some((j, rest))
    decreases j, 1
  {
    match j
    case Null => ReadsLiteral(j, rest, num, read);
    case Bool(_) => ReadsLiteral(j, rest, num, read);
    case Num(n) => ReadsNumber(n, rest, num, read);
    case Str(s) =>
      ReadsString(s, rest);
      TextRead(Escape(s) + "\"" + rest, s, rest, read);
      QuoteOpened(s, rest);
    case Arr(items) =>
      Opened("[", DumpItems(items, num), "]", rest);
      if items == [] {
        EmptyArrayRead(rest, read);
        assert DumpItems(items, num) + ("]" + rest) == "]" + rest;
      } else {
        ReadsItems(items, rest, num, read);
        StartsOn(DumpItems(items, num), "]" + rest);
        ArrayRead(DumpItems(items, num) + ("]" + rest), items, rest, read);
      }
    case Obj(fields) =>
      Opened("{", DumpFields(fields, num), "}", rest);
      if fields == [] {
        EmptyObjectRead(rest, read);
        assert DumpFields(fields, num) + ("}" + rest) == "}" + rest;
      } else {
        ReadsFields(fields, rest, num, read);
        ObjectRead(DumpFields(fields, num) + ("}" + rest), fields, rest, read);
      }
  }

  /** The first of several entries, the others, and what follows them. */
  lemma Listed(first: string, others: string, rest: string)
    ensures first + "," + others + rest == first + ("," + (others + rest))
    ensures first + "" + "" + rest == first + rest
  {
    Opened(first, ",", others, rest);
    Shift(",", others, rest);
  }

  lemma HeadAndTail<T>(s: seq<T>)
    requires s != []
    ensures s == [s[0]] + s[1..]
  {}

  lemma {:induction false} ReadsItems(items: seq<Json>, rest: string, num: real -> string, read: Reader)
    requires SpelledItems(items, num, read) && items != []
    ensures ReadItems(DumpItems(items, num) + ("]" + rest), read) == Some((items, rest))
    ensures Starts(DumpItems(items, num))
    decreases items, 0
  {
    var first, tail := Dumps(items[0], num), DumpItems(items[1..], num) + ("]" + rest);
    DumpStarts(items[0], num, read);
    Listed(first, DumpItems(items[1..], num), "]" + rest);
    HeadAndTail(items);
    if items[1..] == [] {
      ReadsDump(items[0], "]" + rest, num, read);
      LastItem(first + ("]" + rest), items[0], rest, read);
      assert items == [items[0]] && DumpItems(items, num) == first + "" + "";
    } else {
      ReadsItems(items[1..], rest, num, read);
      ReadsDump(items[0], "," + tail, num, read);
      NextItem(first + ("," + tail), items[0], tail, items[1..], rest, read);
    }
  }

  lemma {:induction false} ReadsField(field: (string, Json), after: string, num: real -> string, read: Reader)
    requires SpelledField(field, num, read) && Ends(after)
    ensures ReadField(DumpField(field, num) + after, read) == Some((field, after))
    decreases field, 1
  {
    var value := Dumps(field.1, num) + after;
    ReadsDump(field.1, after, num, read);
    ReadsString(field.0, ":" + value);
    FieldRead(Escape(field.0) + "\"" + (":" + value), field.0, value, field.1, after, read);
    QuoteOpened(field.0, ":" + value);
    Opened(Quote(field.0), ":", Dumps(field.1, num), after);
    Shift(":", Dumps(field.1, num), after);
  }

  lemma {:induction false} ReadsFields(fields: seq<(string, Json)>, rest: string, num: real -> string, read: Reader)
    requires SpelledFields(fields, num, read) && fields != []
    ensures ReadFields(DumpFields(fields, num) + ("}" + rest), read) == Some((fields, rest))
    ensures DumpFields(fields, num) != "" && DumpFields(fields, num)[0] == '"'
    decreases fields, 0
  {
    var first, tail := DumpField(fields[0], num), DumpFields(fields[1..], num) + ("}" + rest);
    assert first[0] == '"';
    Listed(first, DumpFields(fields[1..], num), "}" + rest);
    HeadAndTail(fields);
    if fields[1..] == [] {
      ReadsField(fields[0], "}" + rest, num, read);
      LastField(first + ("}" + rest), fields[0], rest, read);
      assert fields == [fields[0]] && DumpFields(fields, num) == first + "" + "";
    } else {
      ReadsFields(fields[1..], rest, num, read);
      ReadsField(fields[0], "," + tail, num, read);
      NextField(first + ("," + tail), fields[0], tail, fields[1..], rest, read);
    }
  }

  /** The round trip: the text of every value loads as that value. */
  lemma LoadsBack(j: Json, num: real -> string, read: Reader)
    requires Spelled(j, num, read)
    ensures Load(Dumps(j, num), read) == Some(j)
  {
    ReadsDump(j, "", num, read);
    assert Dumps(j, num) + "" == Dumps(j, num);
  }

  // ----- No lighter text loads as the value -----

  /** Characters that do not belong to numbers. */
  function Weight(text: string): nat {
    if text == "" then 0 else (if NumberChar(text[0]) then 0 else 1) + Weight(text[1..])
  }

  lemma {:induction false} WeightAppend(a: string, b: string)
    ensures Weight(a + b) == Weight(a) + Weight(b)
  {
    if a == "" {
      assert a + b == b;
    } else {
      TailOf(a, b);
      WeightAppend(a[1..], b);
    }
  }

  lemma WeightAt(text: string, k: nat)
    requires k <= |text|
    ensures Weight(text) == Weight(text[..k]) + Weight(text[k..])
  {
    assert text == text[..k] + text[k..];
    WeightAppend(text[..k], text[k..]);
  }

  lemma {:induction false} WeightSkip(text: string)
    ensures Weight(Skip(text)) <= Weight(text)
  {
    if text != "" && Insignificant(text[0]) { WeightSkip(text[1..]); }
  }

  lemma {:induction false} WeightNumber(number: string)
    requires forall i :: 0 <= i < |number| ==> NumberChar(number[i])
    ensures Weight(number) == 0
  {
    if number != "" { WeightNumber(number[1..]); }
  }

  lemma HexWeight(c: char, n: nat)
    requires HexValue(c) == Some(n)
    ensures n < 16 && NumberChar(c) == NumberChar(HexDigit(n))
  {}

  lemma WeightOne(c: char)
    ensures Weight([c]) == if NumberChar(c) then 0 else 1
  {
    assert [c][1..] == "";
  }

  lemma WeightEscape(c: char)
    ensures Weight(EscapeChar(c)) ==
            if EscapeChar(c) == [c] then Weight([c])
            else if |EscapeChar(c)| == 2 then 2
            else 2 + Weight([HexDigit(c as nat % 16)])
  {
    var e := EscapeChar(c);
    if e == [c] {
    } else if |e| == 2 {
      assert e == [e[0]] + [e[1]];
      WeightAppend([e[0]], [e[1]]);
      WeightOne(e[0]);
      WeightOne(e[1]);
    } else {
      var hi, lo := HexDigit(c as nat / 16), HexDigit(c as nat % 16);
      assert hi in {'0', '1'};
      assert e == "\\u00" + [hi] + [lo];
      WeightAppend("\\u00" + [hi], [lo]);
      WeightAppend("\\u00", [hi]);
      WeightOne(hi);
      assert "\\u00" == ['\\'] + (['u'] + "00");
      WeightAppend(['\\'], ['u'] + "00");
      WeightAppend(['u'], "00");
      WeightNumber("00");
      WeightOne('\\');
      WeightOne('u');
    }
  }

  lemma WeightFour(text: string)
    requires |text| == 4
    ensures Weight(text) >= Weight([text[3]])
  {
    WeightAt(text, 3);
    assert text[3..] == [text[3]];
  }

  lemma LastDigit(a: nat, b: nat, c: nat, d: nat)
    requires d < 16
    ensures (4096 * a + 256 * b + 16 * c + d) % 16 == d
  {}

  lemma CodeLight(text: string, c: char)
    requires |text| == 4 && HexCode(text).Some? && IsCharacter(HexCode(text).value) && c == HexCode(text).value as char
    ensures 2 + Weight(text) >= Weight(EscapeChar(c))
  {
    WeightEscape(c);
    WeightOne(c);
    if |EscapeChar(c)| > 2 {
      var d := HexValue(text[3]).value;
      HexWeight(text[3], d);
      LastDigit(HexValue(text[0]).value, HexValue(text[1]).value, HexValue(text[2]).value, d);
      LastDigitLight(text, c as nat % 16);
    }
  }

  lemma LastDigitLight(text: string, d: nat)
    requires |text| == 4 && HexValue(text[3]) == Some(d)
    ensures d < 16 && Weight(text) >= Weight([HexDigit(d)])
  {
    WeightFour(text);
    HexWeight(text[3], d);
    WeightOne(text[3]);
    WeightOne(HexDigit(d));
  }

  lemma WeightHead(text: string)
    requires text != ""
    ensures Weight(text) == (if NumberChar(text[0]) then 0 else 1) + Weight(text[1..])
  {}

  lemma ShortEscapeLight(c: char)
    requires |EscapeChar(c)| <= 2
    ensures Weight(EscapeChar(c)) <= 2
  {
    WeightEscape(c);
    WeightOne(c);
  }

  lemma ShortEscape(text: string, c: char, rest: string)
    requires ReadEscape(text) == Some((c, rest)) && text[0] != 'u'
    ensures rest == text[1..] && !NumberChar(text[0]) && |EscapeChar(c)| <= 2
  {}

  lemma WeightFive(text: string)
    requires |text| >= 5
    ensures Weight(text) == (if NumberChar(text[0]) then 0 else 1) + Weight(text[1..5]) + Weight(text[5..])
  {
    WeightHead(text);
    WeightAt(text[1..], 4);
    assert text[1..][..4] == text[1..5] && text[1..][4..] == text[5..];
  }

  lemma EscapeLight(text: string, c: char, rest: string)
    requires ReadEscape(text) == Some((c, rest))
    ensures 1 + Weight(text) >= Weight(EscapeChar(c)) + Weight(rest)
  {
    if text[0] != 'u' {
      ShortEscape(text, c, rest);
      WeightHead(text);
      ShortEscapeLight(c);
    } else {
      CodeLight(text[1..5], c);
      WeightFive(text);
    }
  }

  lemma {:induction false} StringLight(text: string, s: string, rest: string)
    requires ReadString(text) == Some((s, rest))
    ensures Weight(text) >= Weight(Escape(s)) + 1 + Weight(rest)
    decreases |text|
  {
    WeightAt(text, 1);
    assert text[..1] == [text[0]];
    WeightOne(text[0]);
    if text[0] != '"' {
      var first := if text[0] == '\\' then ReadEscape(text[1..]) else Some((text[0], text[1..]));
      StringLight(first.value.1, s[1..], rest);
      assert Escape(s) == EscapeChar(s[0]) + Escape(s[1..]);
      WeightAppend(EscapeChar(s[0]), Escape(s[1..]));
      if text[0] == '\\' {
        EscapeLight(text[1..], first.value.0, first.value.1);
      } else {
        assert EscapeChar(text[0]) == [text[0]];
      }
    }
  }

  lemma WeightQuote(s: string)
    ensures Weight(Quote(s)) == Weight(Escape(s)) + 2
  {
    WeightAppend("\"" + Escape(s), "\"");
    WeightAppend("\"", Escape(s));
    WeightOne('"');
  }

  lemma WeightBracketed(open: char, inner: string, close: char)
    requires !NumberChar(open) && !NumberChar(close)
    ensures Weight([open] + inner + [close]) == Weight(inner) + 2
  {
    WeightAppend([open] + inner, [close]);
    WeightAppend([open], inner);
    WeightOne(open);
    WeightOne(close);
  }

  lemma WeightListed(first: string, more: string)
    ensures Weight(first + "," + more) == Weight(first) + 1 + Weight(more)
  {
    WeightAppend(first + ",", more);
    WeightAppend(first, ",");
    WeightOne(',');
  }

  lemma WeightItems(items: seq<Json>, num: real -> string)
    requires items != []
    ensures Weight(DumpItems(items, num)) == Weight(Dumps(items[0], num))
            + if |items| == 1 then 0 else 1 + Weight(DumpItems(items[1..], num))
  {
    if |items| == 1 {
      assert DumpItems(items, num) == Dumps(items[0], num) + "" + "" == Dumps(items[0], num);
    } else {
      WeightListed(Dumps(items[0], num), DumpItems(items[1..], num));
    }
  }

  lemma WeightFields(fields: seq<(string, Json)>, num: real -> string)
    requires fields != []
    ensures Weight(DumpFields(fields, num)) == Weight(DumpField(fields[0], num))
            + if |fields| == 1 then 0 else 1 + Weight(DumpFields(fields[1..], num))
  {
    if |fields| == 1 {
      assert DumpFields(fields, num) == DumpField(fields[0], num) + "" + "" == DumpField(fields[0], num);
    } else {
      WeightListed(DumpField(fields[0], num), DumpFields(fields[1..], num));
    }
  }

  lemma WeightField(field: (string, Json), num: real -> string)
    ensures Weight(DumpField(field, num)) == Weight(Escape(field.0)) + 3 + Weight(Dumps(field.1, num))
  {
    WeightAppend(Quote(field.0) + ":", Dumps(field.1, num));
    WeightAppend(Quote(field.0), ":");
    WeightOne(':');
    WeightQuote(field.0);
  }

  /** A token at the front, after what is skipped. */
  lemma WeightToken(text: string, c: char)
    requires Skip(text) != "" && Skip(text)[0] == c && !NumberChar(c)
    ensures Weight(text) >= 1 + Weight(Skip(text)[1..])
  {
    WeightSkip(text);
    WeightHead(Skip(text));
  }

  lemma LiteralLight(text: string, literal: string)
    requires literal <= Skip(text)
    ensures Weight(text) >= Weight(literal) + Weight(Skip(text)[|literal|..])
  {
    WeightSkip(text);
    var s := Skip(text);
    assert s[..|literal|] == literal;
    WeightAt(s, |literal|);
  }

  lemma NumberLight(text: string, j: Json, rest: string, num: real -> string, read: Reader)
    requires Spelled(j, num, read) && ReadNumber(Skip(text), read) == Some((j, rest))
    ensures Weight(text) >= Weight(Dumps(j, num)) + Weight(rest)
  {
    WeightSkip(text);
    WeightAt(Skip(text), NumberEnd(Skip(text)));
    WeightNumber(num(j.n));
  }

  lemma TextLight(text: string, s: string, rest: string)
    requires "\"" <= Skip(text) && ReadString(Skip(text)[1..]) == Some((s, rest))
    ensures Weight(text) >= Weight(Quote(s)) + Weight(rest)
  {
    WeightToken(text, '"');
    StringLight(Skip(text)[1..], s, rest);
    WeightQuote(s);
  }

  /** The compact text is the lightest one that loads as the value. */
  lemma {:induction false} ValueLight(text: string, j: Json, rest: string, num: real -> string, read: Reader)
    requires Spelled(j, num, read) && ReadValue(text, read) == Some((j, rest))
    ensures Weight(text) >= Weight(Dumps(j, num)) + Weight(rest)
    decreases |text|, 2
  {
    var s := Skip(text);
    if "null" <= s {
      LiteralLight(text, "null");
    } else if "true" <= s {
      LiteralLight(text, "true");
    } else if "false" <= s {
      LiteralLight(text, "false");
    } else if "\"" <= s {
      TextLight(text, j.s, rest);
    } else if "[" <= s {
      WeightToken(text, '[');
      WeightBracketed('[', DumpItems(j.items, num), ']');
      if "]" <= Skip(s[1..]) { WeightToken(s[1..], ']'); } else { ItemsLight(s[1..], j.items, rest, num, read); }
    } else if "{" <= s {
      WeightToken(text, '{');
      WeightBracketed('{', DumpFields(j.fields, num), '}');
      if "}" <= Skip(s[1..]) { WeightToken(s[1..], '}'); } else { FieldsLight(s[1..], j.fields, rest, num, read); }
    } else {
      NumberLight(text, j, rest, num, read);
    }
  }

  lemma {:induction false} ItemsLight(text: string, items: seq<Json>, rest: string, num: real -> string, read: Reader)
    requires SpelledItems(items, num, read) && ReadItems(text, read) == Some((items, rest))
    ensures items != [] && Weight(text) >= Weight(DumpItems(items, num)) + 1 + Weight(rest)
    decreases |text|, 3
  {
    var first := ReadValue(text, read).value;
    ValueLight(text, first.0, first.1, num, read);
    var s := Skip(first.1);
    WeightToken(first.1, s[0]);
    if !("]" <= s) {
      ItemsLight(s[1..], items[1..], rest, num, read);
    }
    WeightItems(items, num);
  }

  lemma {:induction false} FieldLight(text: string, field: (string, Json), rest: string, num: real -> string,
                                      read: Reader)
    requires SpelledField(field, num, read) && ReadField(text, read) == Some((field, rest))
    ensures Weight(text) >= Weight(DumpField(field, num)) + Weight(rest)
    decreases |text|, 3
  {
    var key := ReadString(Skip(text)[1..]).value;
    WeightToken(text, '"');
    StringLight(Skip(text)[1..], key.0, key.1);
    WeightToken(key.1, ':');
    ValueLight(Skip(key.1)[1..], field.1, rest, num, read);
    WeightField(field, num);
  }

  lemma {:induction false} FieldsLight(text: string, fields: seq<(string, Json)>, rest: string, num: real -> string,
                                       read: Reader)
    requires SpelledFields(fields, num, read) && ReadFields(text, read) == Some((fields, rest))
    ensures fields != [] && Weight(text) >= Weight(DumpFields(fields, num)) + 1 + Weight(rest)
    decreases |text|, 4
  {
    var first := ReadField(text, read).value;
    FieldLight(text, first.0, first.1, num, read);
    var s := Skip(first.1);
    WeightToken(first.1, s[0]);
    if !("}" <= s) {
      FieldsLight(s[1..], fields[1..], rest, num, read);
    }
    WeightFields(fields, num);
  }

  /** Whatever text loads as a value is at least as heavy as the one written for it. */
  lemma LoadedIsHeavier(text: string, j: Json, num: real -> string, read: Reader)
    requires Spelled(j, num, read) && Load(text, read) == Some(j)
    ensures Weight(text) >= Weight(Dumps(j, num))
  {
    ValueLight(text, j, ReadValue(text, read).value.1, num, read);
  }

  // ----- Through a segment file -----

  /** Characters that belong neither to numbers nor between lines. */
  function Inner(text: string): nat {
    if text == "" then 0 else (if NumberChar(text[0]) || IsBreak(text[0]) then 0 else 1) + Inner(text[1..])
  }

  lemma {:induction false} InnerAppend(a: string, b: string)
    ensures Inner(a + b) == Inner(a) + Inner(b)
  {
    if a == "" {
      assert a + b == b;
    } else {
      TailOf(a, b);
      InnerAppend(a[1..], b);
    }
  }

  lemma {:induction false} InnerIsWeight(text: string)
    ensures Inner(text) <= Weight(text)
    ensures Unbroken(text) ==> Inner(text) == Weight(text)
    ensures RawIn(text) ==> Inner(text) < Weight(text)
  {
    if text != "" {
      InnerIsWeight(text[1..]);
      if Unbroken(text) { assert !IsBreak(text[0]) && Unbroken(text[1..]); }
      if RawIn(text) && !IsRawBreak(text[0]) {
        var i :| 0 <= i < |text| && IsRawBreak(text[i]);
        assert IsRawBreak(text[1..][i - 1]);
      }
    }
  }

  lemma {:induction false} LineInner(text: string, line: string)
    requires line in SplitLines(text)
    ensures Inner(line) <= Inner(text) && Unbroken(line)
    decreases |text|
  {
    var k := FirstBreak(text);
    assert text == text[..k] + text[k..];
    InnerAppend(text[..k], text[k..]);
    if line != text[..k] {
      LineInner(AfterBreak(text, k), line);
      AfterBreakInner(text, k);
    }
  }

  lemma AfterBreakInner(text: string, k: nat)
    requires k <= |text|
    ensures Inner(AfterBreak(text, k)) <= Inner(text[k..])
  {
    var rest := text[k..];
    if k < |text| {
      assert rest[1..] == text[k + 1..];
      if |rest| > 1 { assert rest[1..][1..] == text[k + 2..]; }
    }
  }

  /** The objects among the lines of a file: blank lines, lines that do not load and values that are
      no objects are dropped. */
  function Objects(lines: seq<string>, read: Reader): seq<Json> {
    if lines == [] then []
    else
      var rest := Objects(lines[1..], read);
      var loaded := Load(lines[0], read);
      if Blank(lines[0]) || loaded.None? || !loaded.value.Obj? then rest else [loaded.value] + rest
  }

  lemma {:induction false} ObjectFrom(lines: seq<string>, read: Reader, j: Json) returns (line: string)
    requires j in Objects(lines, read)
    ensures line in lines && Load(line, read) == Some(j)
  {
    var loaded := Load(lines[0], read);
    if loaded == Some(j) && !Blank(lines[0]) && j.Obj? {
      line := lines[0];
    } else {
      line := ObjectFrom(lines[1..], read, j);
    }
  }

  /** A payload comes back from its segment file, whole and alone, exactly when nothing in it carries
      U+0085, U+2028 or U+2029; otherwise it does not come back at all. */
  lemma PayloadComesBack(payload: Json, num: real -> string, read: Reader)
    requires payload.Obj? && PlainNumbers(num) && Spelled(payload, num, read)
    ensures Objects(SplitLines(Framed(Dumps(payload, num))), read) == [payload] <==> !Carries(payload)
    ensures Carries(payload) ==> payload !in Objects(SplitLines(Framed(Dumps(payload, num))), read)
  {
    var text := Dumps(payload, num);
    DumpsKeeps(payload, num);
    assert Inner("\n") == 0;
    if Carries(payload) {
      if payload in Objects(SplitLines(Framed(text)), read) {
        var line := ObjectFrom(SplitLines(Framed(text)), read, payload);
        LoadedIsHeavier(line, payload, num, read);
        LineInner(Framed(text), line);
        InnerAppend(text, "\n");
        InnerIsWeight(text);
        InnerIsWeight(line);
      }
    } else {
      WholeLine(text);
      LoadsBack(payload, num, read);
      assert text[0] == '{' && !IsSpace(text[0]);
      var lines := [text];
      assert lines[1..] == [] && Objects(lines[1..], read) == [];
    }
  }

  /** What the compact text looks like. */
  lemma ArrayText(num: real -> string)
    ensures Dumps(Arr([Null, Bool(false)]), num) == "[null,false]"
  {
    var items: seq<Json> := [Null, Bool(false)];
    assert items[1..] == [Bool(false)] && items[1..][1..] == [];
    assert DumpItems(items[1..], num) == "false" + "" + "" == "false";
    assert DumpItems(items, num) == "null" + "," + "false";
  }

  lemma ObjectText(num: real -> string)
    ensures Dumps(Obj([("ok", Bool(true))]), num) == "{\"ok\":true}"
  {
    var fields := [("ok", Bool(true))];
    assert fields[1..] == [];
    EscapePlain("ok");
    assert DumpField(fields[0], num) == "\"ok\":true";
    assert DumpFields(fields, num) == DumpField(fields[0], num) + "" + "";
  }
}
