/** Reading JSON, from the grammar of RFC 8259, section 2 onwards.  `read` reads the text of a number. */
module JsonReader {
  import opened Common
  import opened JsonValues

  // ----- Tokens -----

  predicate Insignificant(c: char) {
    c in {' ', '\t', '\n', '\r'}
  }

  function Skip(text: string): (r: string)
    ensures |r| <= |text|
  {
    if text != "" && Insignificant(text[0]) then Skip(text[1..]) else text
  }

  predicate NumberChar(c: char) {
    '0' <= c <= '9' || c in {'+', '-', '.', 'e', 'E'}
  }

  function NumberEnd(text: string): (k: nat)
    ensures k <= |text| && forall i :: 0 <= i < k ==> NumberChar(text[i])
    ensures k < |text| ==> !NumberChar(text[k])
  {
    if text == "" || !NumberChar(text[0]) then 0 else 1 + NumberEnd(text[1..])
  }

  function HexValue(c: char): Option<nat> {
    if '0' <= c <= '9' then Some(c as nat - '0' as nat)
    else if 'a' <= c <= 'f' then Some(c as nat - 'a' as nat + 10)
    else if 'A' <= c <= 'F' then Some(c as nat - 'A' as nat + 10)
    else None
  }

  /** The code of four hexadecimal digits. */
  function HexCode(text: string): Option<nat>
    requires |text| == 4
  {
    var a, b, c, d := HexValue(text[0]), HexValue(text[1]), HexValue(text[2]), HexValue(text[3]);
    if a.Some? && b.Some? && c.Some? && d.Some? then
      Some(4096 * a.value + 256 * b.value + 16 * c.value + d.value)
    else None
  }

  /** A character of its own; halves of surrogate pairs are not read. */
  predicate IsCharacter(code: nat) {
    code < 0xd800 || 0xe000 <= code <= 0xffff
  }

  /** What follows a backslash. */
  function ReadEscape(text: string): (r: Option<(char, string)>)
    ensures r.Some? ==> |r.value.1| < |text|
  {
    if text == "" then None
    else if text[0] in {'"', '\\', '/'} then Some((text[0], text[1..]))
    else if text[0] == 'b' then Some(('\U{8}', text[1..]))
    else if text[0] == 'f' then Some(('\U{c}', text[1..]))
    else if text[0] == 'n' then Some(('\n', text[1..]))
    else if text[0] == 'r' then Some(('\r', text[1..]))
    else if text[0] == 't' then Some(('\t', text[1..]))
    else if text[0] == 'u' && |text| >= 5 then
      var code := HexCode(text[1..5]);
      if code.Some? && IsCharacter(code.value) then Some((code.value as char, text[5..])) else None
    else None
  }

  /** A string after its opening quote, and what follows its closing one. */
  function ReadString(text: string): (r: Option<(string, string)>)
    ensures r.Some? ==> |r.value.1| < |text|
    decreases |text|
  {
    if text == "" || text[0] < ' ' then None
    else if text[0] == '"' then Some(("", text[1..]))
    else
      var first := if text[0] == '\\' then ReadEscape(text[1..]) else Some((text[0], text[1..]));
      if first.None? then None
      else
        var more := ReadString(first.value.1);
        if more.None? then None else Some(([first.value.0] + more.value.0, more.value.1))
  }

  // ----- Values -----

  type Reader = string -> Option<real>

  function ReadNumber(text: string, read: Reader): (r: Option<(Json, string)>)
    ensures r.Some? ==> |r.value.1| < |text|
  {
    var k := NumberEnd(text);
    var n := read(text[..k]);
    if k > 0 && n.Some? then Some((Num(n.value), text[k..])) else None
  }

  function ReadValue(text: string, read: Reader): (r: Option<(Json, string)>)
    ensures r.Some? ==> |r.value.1| < |text|
    decreases |text|, 2
  {
    var s := Skip(text);
    if "null" <= s then Some((Null, s[4..]))
    else if "true" <= s then Some((Bool(true), s[4..]))
    else if "false" <= s then Some((Bool(false), s[5..]))
    else if "\"" <= s then
      var r := ReadString(s[1..]);
      if r.Some? then Some((Str(r.value.0), r.value.1)) else None
    else if "[" <= s then
      if "]" <= Skip(s[1..]) then Some((Arr([]), Skip(s[1..])[1..]))
      else
        var r := ReadItems(s[1..], read);
        if r.Some? then Some((Arr(r.value.0), r.value.1)) else None
    else if "{" <= s then
      if "}" <= Skip(s[1..]) then Some((Obj([]), Skip(s[1..])[1..]))
      else
        var r := ReadFields(s[1..], read);
        if r.Some? then Some((Obj(r.value.0), r.value.1)) else None
    else ReadNumber(s, read)
  }

  /** One item or more, and the closing bracket. */
  function ReadItems(text: string, read: Reader): (r: Option<(seq<Json>, string)>)
    ensures r.Some? ==> |r.value.1| < |text|
    decreases |text|, 3
  {
    var first := ReadValue(text, read);
    if first.None? then None
    else
      var s := Skip(first.value.1);
      if "]" <= s then Some(([first.value.0], s[1..]))
      else if "," <= s then
        var more := ReadItems(s[1..], read);
        if more.Some? then Some(([first.value.0] + more.value.0, more.value.1)) else None
      else None
  }

  /** A key, a colon and a value. */
  function ReadField(text: string, read: Reader): (r: Option<((string, Json), string)>)
    ensures r.Some? ==> |r.value.1| < |text|
    decreases |text|, 3
  {
    var s := Skip(text);
    if !("\"" <= s) then None
    else
      var key := ReadString(s[1..]);
      if key.None? || !(":" <= Skip(key.value.1)) then None
      else
        var value := ReadValue(Skip(key.value.1)[1..], read);
        if value.Some? then Some(((key.value.0, value.value.0), value.value.1)) else None
  }

  function ReadFields(text: string, read: Reader): (r: Option<(seq<(string, Json)>, string)>)
    ensures r.Some? ==> |r.value.1| < |text|
    decreases |text|, 4
  {
    var first := ReadField(text, read);
    if first.None? then None
    else
      var s := Skip(first.value.1);
      if "}" <= s then Some(([first.value.0], s[1..]))
      else if "," <= s then
        var more := ReadFields(s[1..], read);
        if more.Some? then Some(([first.value.0] + more.value.0, more.value.1)) else None
      else None
  }

  /** A whole text. */
  function Load(text: string, read: Reader): Option<Json> {
    var r := ReadValue(text, read);
    if r.Some? && Skip(r.value.1) == "" then Some(r.value.0) else None
  }
}
