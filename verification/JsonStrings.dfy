/**
 JSON strings, given as the bytes of their UTF-8 text: an instance of the serializers and deserializers
 that `Ndjson` takes as parameters. Escapes are those of section 7 of RFC 8259, in the forms `serde_json` writes.
 */
module JsonStrings {
  import opened Wrappers
  import opened Bytes
  import opened Ndjson

  const QUOTE: Byte := 0x22
  const BACKSLASH: Byte := 0x5C
  const LETTER_U: Byte := 0x75
  const ZERO: Byte := 0x30

  /** The letter of a two-byte escape, or 0. */
  function Short(b: Byte): Byte
  {
    match b
    case 0x08 => 0x62
    case 0x09 => 0x74
    case 0x0A => 0x6E
    case 0x0C => 0x66
    case 0x0D => 0x72
    case 0x22 => 0x22
    case 0x5C => 0x5C
    case _ => 0
  }

  function Unshort(b: Byte): Option<Byte>
  {
    match b
    case 0x62 => Some(0x08)
    case 0x74 => Some(0x09)
    case 0x6E => Some(0x0A)
    case 0x66 => Some(0x0C)
    case 0x72 => Some(0x0D)
    case 0x22 => Some(0x22)
    case 0x5C => Some(0x5C)
    case _ => None
  }

  function HexDigit(n: nat): Byte
    requires n < 16
  {
    if n < 10 then 0x30 + n else 0x61 + (n - 10)
  }

  function HexValue(b: Byte): Option<nat>
  {
    if 0x30 <= b <= 0x39 then Some(b - 0x30)
    else if 0x61 <= b <= 0x66 then Some(b - 0x61 + 10)
    else None
  }

  function EscapeByte(b: Byte): seq<Byte>
  {
    if Short(b) != 0 then [BACKSLASH, Short(b)]
    else if b < 0x20 then [BACKSLASH, LETTER_U, ZERO, ZERO, HexDigit(b / 16), HexDigit(b % 16)]
    else [b]
  }

  function Escape(text: seq<Byte>): seq<Byte>
  {
    if text == [] then [] else EscapeByte(text[0]) + Escape(text[1..])
  }

  function Serialize(text: seq<Byte>): Result<seq<Byte>, ()>
  {
    Ok([QUOTE] + Escape(text) + [QUOTE])
  }

  /** The first unescaped byte, and the length of its escape. */
  function UnescapeByte(s: seq<Byte>): (r: Option<(Byte, nat)>)
    requires s != []
    ensures r.Some? ==> 1 <= r.value.1 <= |s|
  {
    if s[0] != BACKSLASH then if s[0] < 0x20 || s[0] == QUOTE then None else Some((s[0], 1))
    else if |s| < 2 then None
    else if s[1] == LETTER_U then
      if |s| < 6 || s[2] != ZERO || s[3] != ZERO then None
      else match (HexValue(s[4]), HexValue(s[5]))
           case (Some(high), Some(low)) => Some((16 * high + low, 6))
           case _ => None
    else match Unshort(s[1]) case Some(b) => Some((b, 2)) case None => None
  }

  function Unescape(s: seq<Byte>): Result<seq<Byte>, ()>
    decreases |s|
  {
    if s == [] then Ok([])
    else match UnescapeByte(s)
         case None => Err(())
         case Some((b, used)) =>
           match Unescape(s[used..]) case Ok(rest) => Ok([b] + rest) case Err(e) => Err(e)
  }

  function Parse(s: seq<Byte>): Result<seq<Byte>, ()>
  {
    if |s| < 2 || s[0] != QUOTE || s[|s| - 1] != QUOTE then Err(()) else Unescape(s[1..|s| - 1])
  }

  lemma UnescapeOfEscapedByte(b: Byte, tail: seq<Byte>)
    ensures UnescapeByte(EscapeByte(b) + tail) == Some((b, |EscapeByte(b)|))
    ensures LF !in EscapeByte(b)
  {
    assert b == 16 * (b / 16) + b % 16;
  }

  lemma {:induction false} UnescapeOfEscaped(text: seq<Byte>)
    ensures Unescape(Escape(text)) == Ok(text)
    ensures LF !in Escape(text)
    decreases |text|
  {
    if text != [] {
      var head, tail := EscapeByte(text[0]), Escape(text[1..]);
      UnescapeOfEscaped(text[1..]);
      UnescapeOfEscapedByte(text[0], tail);
      assert (head + tail)[|head|..] == tail;
      assert text == [text[0]] + text[1..];
    }
  }

  lemma ParseOfSerialized(text: seq<Byte>)
    ensures LF !in Serialize(text).value && Parse(Serialize(text).value) == Ok(text)
  {
    var s := [QUOTE] + Escape(text) + [QUOTE];
    UnescapeOfEscaped(text);
    assert s[1..|s| - 1] == Escape(text);
  }

  /** The hypotheses of the round trip are met: what is serialized has no line feed and is read back. */
  lemma JsonStringsFit()
    ensures Fits(Serialize, Parse)
  {
    forall text | Serialize(text).Ok? {
      ParseOfSerialized(text);
    }
  }

  /** The escapes of section 7 of RFC 8259 have their letters, and control characters without one their code in hex. */
  lemma EscapesHaveTheirLetters()
    ensures EscapeByte('"' as int) == ['\\' as int, '"' as int] && EscapeByte('\\' as int) == ['\\' as int, '\\' as int]
    ensures EscapeByte(0x08) == ['\\' as int, 'b' as int] && EscapeByte(0x09) == ['\\' as int, 't' as int]
    ensures EscapeByte(0x0A) == ['\\' as int, 'n' as int] && EscapeByte(0x0C) == ['\\' as int, 'f' as int]
    ensures EscapeByte(0x0D) == ['\\' as int, 'r' as int]
    ensures EscapeByte(0x1F) == ['\\' as int, 'u' as int, '0' as int, '0' as int, '1' as int, 'f' as int]
    ensures EscapeByte(0x7F) == [0x7F] && EscapeByte('/' as int) == ['/' as int]
  {
  }
}
