/** The UTF-8 encoding of RFC 3629, section 3, and the size of a file. */
module Utf8 {
  import opened DiskQueue

  type Byte = n: nat | n < 256

  function Encode(c: char): seq<Byte> {
    var n := c as nat;
    if n < 0x80 then [n]
    else if n < 0x800 then [0xc0 + n / 64, 0x80 + n % 64]
    else if n < 0x1_0000 then [0xe0 + n / 4096, 0x80 + n / 64 % 64, 0x80 + n % 64]
    else [0xf0 + n / 262144, 0x80 + n / 4096 % 64, 0x80 + n / 64 % 64, 0x80 + n % 64]
  }

  function EncodeAll(text: string): seq<Byte> {
    if text == "" then [] else Encode(text[0]) + EncodeAll(text[1..])
  }

  /** How many bytes a character takes whose first byte is `b`. */
  function Length(b: Byte): nat {
    if b < 0x80 then 1 else if b < 0xe0 then 2 else if b < 0xf0 then 3 else 4
  }

  /** The code point of the first character. */
  function FirstCode(bytes: seq<Byte>): int
    requires bytes != [] && |bytes| >= Length(bytes[0])
  {
    var first := bytes[0] as int;
    match Length(bytes[0])
    case 1 => first
    case 2 => (first - 0xc0) * 64 + Low(bytes[1])
    case 3 => (first - 0xe0) * 4096 + Low(bytes[1]) * 64 + Low(bytes[2])
    case _ => (first - 0xf0) * 262144 + Low(bytes[1]) * 4096 + Low(bytes[2]) * 64 + Low(bytes[3])
  }

  /** The six bits of a byte after the first. */
  function Low(b: Byte): int {
    b as int - 0x80
  }

  /** The code points of a sequence of bytes; an incomplete character at the end is dropped. */
  function Decode(bytes: seq<Byte>): seq<int>
    decreases |bytes|
  {
    if bytes == [] || |bytes| < Length(bytes[0]) then []
    else [FirstCode(bytes)] + Decode(bytes[Length(bytes[0])..])
  }

  function Codes(text: string): seq<int> {
    seq(|text|, i requires 0 <= i < |text| => text[i] as int)
  }

  lemma Digits(n: nat)
    ensures n == n / 262144 * 262144 + n / 4096 % 64 * 4096 + n / 64 % 64 * 64 + n % 64
    ensures n == n / 4096 * 4096 + n / 64 % 64 * 64 + n % 64
  {
    assert n / 64 / 64 == n / 4096 && n / 4096 / 64 == n / 262144;
  }

  lemma EncodeBack(c: char, rest: seq<Byte>)
    ensures var bytes := Encode(c) + rest;
            |Encode(c)| == Length(bytes[0]) && FirstCode(bytes) == c as int && bytes[|Encode(c)|..] == rest
  {
    Digits(c as nat);
  }

  /** The encoding can be read back. */
  lemma {:induction false} DecodesBack(text: string)
    ensures Decode(EncodeAll(text)) == Codes(text)
  {
    if text != "" {
      EncodeBack(text[0], EncodeAll(text[1..]));
      DecodesBack(text[1..]);
      assert Codes(text) == [text[0] as int] + Codes(text[1..]);
    }
  }

  /** The budget counts bytes: the size of a text is that of its encoding. */
  lemma {:induction false} BytesAreEncoded(text: string)
    ensures Bytes(text) == |EncodeAll(text)|
  {
    if text != "" { BytesAreEncoded(text[1..]); }
  }
}
