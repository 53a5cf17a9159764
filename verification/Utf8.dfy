/**
 `String::from_utf8_lossy`: UTF-8 as in section 4 of RFC 3629, where every maximal subpart of an
 ill-formed sequence becomes one U+FFFD. `Encode` is the encoder of section 3 of the same document.
 */
module Utf8 {
  import opened Bytes
  import Lines

  const REPLACEMENT: char := '\U{FFFD}'

  datatype Step = Step(c: char, used: nat)

  /** The byte at `i`, or 0 past the end: 0 is never a continuation byte. */
  function At(s: seq<Byte>, i: nat): Byte
  {
    if i < |s| then s[i] else 0
  }

  predicate IsContinuation(b: Byte)
  {
    0x80 <= b <= 0xBF
  }

  /** The six payload bits of a continuation byte. */
  function Six(s: seq<Byte>, i: nat): int
  {
    At(s, i) as int - 0x80
  }

  /** The bytes allowed after a leading byte of a three or four byte form. */
  predicate IsSecond(lead: Byte, b: Byte)
  {
    if lead == 0xE0 then 0xA0 <= b <= 0xBF
    else if lead == 0xED then 0x80 <= b <= 0x9F
    else if lead == 0xF0 then 0x90 <= b <= 0xBF
    else if lead == 0xF4 then 0x80 <= b <= 0x8F
    else IsContinuation(b)
  }

  function TwoByte(s: seq<Byte>): (r: Step)
    requires s != [] && 0xC2 <= s[0] <= 0xDF
    ensures 1 <= r.used <= |s| && r.c as int >= 0x80
  {
    if IsContinuation(At(s, 1)) then Step(((s[0] as int - 0xC0) * 64 + Six(s, 1)) as char, 2)
    else Step(REPLACEMENT, 1)
  }

  function ThreeByte(s: seq<Byte>): (r: Step)
    requires s != [] && 0xE0 <= s[0] <= 0xEF
    ensures 1 <= r.used <= |s| && r.c as int >= 0x80
  {
    if !IsSecond(s[0], At(s, 1)) then Step(REPLACEMENT, 1)
    else if !IsContinuation(At(s, 2)) then Step(REPLACEMENT, 2)
    else Step(((s[0] as int - 0xE0) * 4096 + Six(s, 1) * 64 + Six(s, 2)) as char, 3)
  }

  function FourByte(s: seq<Byte>): (r: Step)
    requires s != [] && 0xF0 <= s[0] <= 0xF4
    ensures 1 <= r.used <= |s| && r.c as int >= 0x80
  {
    if !IsSecond(s[0], At(s, 1)) then Step(REPLACEMENT, 1)
    else if !IsContinuation(At(s, 2)) then Step(REPLACEMENT, 2)
    else if !IsContinuation(At(s, 3)) then Step(REPLACEMENT, 3)
    else Step(((s[0] as int - 0xF0) * 262144 + Six(s, 1) * 4096 + Six(s, 2) * 64 + Six(s, 3)) as char, 4)
  }

  /** The first character of `s`, and how many bytes it takes. */
  function Next(s: seq<Byte>): (r: Step)
    requires s != []
    ensures 1 <= r.used <= |s|
    ensures s[0] < 0x80 ==> r == Step(s[0] as char, 1)
    ensures s[0] >= 0x80 ==> r.c as int >= 0x80
  {
    if s[0] < 0x80 then Step(s[0] as char, 1)
    else if 0xC2 <= s[0] <= 0xDF then TwoByte(s)
    else if 0xE0 <= s[0] <= 0xEF then ThreeByte(s)
    else if 0xF0 <= s[0] <= 0xF4 then FourByte(s)
    else Step(REPLACEMENT, 1)
  }

  function Decode(s: seq<Byte>): string
    decreases |s|
  {
    if s == [] then "" else [Next(s).c] + Decode(s[Next(s).used..])
  }

  /** A character never reaches across an ASCII byte. */
  lemma NextStopsAtAscii(a: seq<Byte>, b: Byte, c: seq<Byte>)
    requires a != [] && b < 0x80
    ensures Next(a + [b] + c) == Next(a)
  {
    var s := a + [b] + c;
    assert forall i: nat :: i < |a| ==> At(s, i) == At(a, i);
    assert At(s, |a|) == b && !IsContinuation(b) && !IsSecond(a[0], b);
  }

  /** Decoding may be done separately on the two sides of an ASCII byte, whatever the sides hold. */
  lemma {:induction false} DecodeAroundAscii(a: seq<Byte>, b: Byte, c: seq<Byte>)
    requires b < 0x80
    ensures Decode(a + [b] + c) == Decode(a) + [b as char] + Decode(c)
    decreases |a|
  {
    var s := a + [b] + c;
    if a == [] {
      assert s[1..] == c;
    } else {
      NextStopsAtAscii(a, b, c);
      var used := Next(a).used;
      assert s[used..] == a[used..] + [b] + c;
      DecodeAroundAscii(a[used..], b, c);
    }
  }

  /** An ASCII character is decoded only from its own byte. */
  lemma {:induction false} DecodeKeepsAscii(s: seq<Byte>, b: Byte)
    requires b < 0x80 && b !in s
    ensures b as char !in Decode(s)
    decreases |s|
  {
    if s != [] {
      DecodeKeepsAscii(s[Next(s).used..], b);
    }
  }

  function DecodeAll(lines: seq<seq<Byte>>): (r: seq<string>)
    ensures |r| == |lines|
  {
    seq(|lines|, i requires 0 <= i < |lines| => Decode(lines[i]))
  }

  lemma TerminatedTail<T>(sep: T, lines: seq<seq<T>>, rest: seq<T>)
    requires lines != []
    ensures Lines.Terminated(sep, lines) + rest ==
            Lines.Terminated(sep, lines[..|lines| - 1]) + (lines[|lines| - 1] + [sep] + rest)
  {
    Lines.Regroup(Lines.Terminated(sep, lines[..|lines| - 1]), lines[|lines| - 1], [sep], rest);
  }

  lemma {:induction false} DecodeTerminated(lines: seq<seq<Byte>>, rest: seq<Byte>)
    ensures Decode(Lines.Terminated(LF, lines) + rest) == Lines.Terminated('\n', DecodeAll(lines)) + Decode(rest)
    decreases |lines|
  {
    if lines == [] {
      assert Lines.Terminated(LF, lines) + rest == rest;
    } else {
      var init, last := lines[..|lines| - 1], lines[|lines| - 1];
      var tail := last + [LF] + rest;
      DecodeTerminated(init, tail);
      DecodeAroundAscii(last, LF, rest);
      assert DecodeAll(lines) == DecodeAll(init) + [Decode(last)];
      TerminatedTail(LF, lines, rest);
      TerminatedTail('\n', DecodeAll(lines), Decode(rest));
    }
  }

  /** Splitting the bytes at 0x0A and then decoding each line is decoding the whole and then splitting at '\n'. */
  lemma SplitThenDecode(s: seq<Byte>)
    ensures Lines.Complete('\n', Decode(s)) == DecodeAll(Lines.Complete(LF, s))
    ensures Lines.Rest('\n', Decode(s)) == Decode(Lines.Rest(LF, s))
  {
    var lines, rest := Lines.Complete(LF, s), Lines.Rest(LF, s);
    Lines.SplitIsExact(LF, s);
    DecodeTerminated(lines, rest);
    forall i | 0 <= i < |lines| ensures '\n' !in DecodeAll(lines)[i] {
      DecodeKeepsAscii(lines[i], LF);
    }
    DecodeKeepsAscii(rest, LF);
    Lines.SplitIsUnique('\n', DecodeAll(lines), Decode(rest));
  }

  function EncodeChar(c: char): (r: seq<Byte>)
    ensures r != []
  {
    var n := c as int;
    if n < 0x80 then [n]
    else if n < 0x800 then [0xC0 + n / 64, 0x80 + n % 64]
    else if n < 0x10000 then [0xE0 + n / 4096, 0x80 + n / 64 % 64, 0x80 + n % 64]
    else [0xF0 + n / 262144, 0x80 + n / 4096 % 64, 0x80 + n / 64 % 64, 0x80 + n % 64]
  }

  function Encode(s: string): seq<Byte>
  {
    if s == "" then [] else EncodeChar(s[0]) + Encode(s[1..])
  }

  lemma NextOfTwo(a: nat, b: nat, rest: seq<Byte>)
    requires 2 <= a < 0x20 && b < 64
    ensures Next([0xC0 + a, 0x80 + b] + rest) == Step((a * 64 + b) as char, 2)
  {
    var s := [0xC0 + a, 0x80 + b] + rest;
    assert At(s, 0) == 0xC0 + a && At(s, 1) == 0x80 + b;
  }

  lemma NextOfThree(a: nat, b: nat, c: nat, rest: seq<Byte>)
    requires a < 16 && b < 64 && c < 64 && (a == 0 ==> b >= 32) && (a == 13 ==> b < 32)
    ensures Next([0xE0 + a, 0x80 + b, 0x80 + c] + rest) == Step((a * 4096 + b * 64 + c) as char, 3)
  {
    var s := [0xE0 + a, 0x80 + b, 0x80 + c] + rest;
    assert At(s, 0) == 0xE0 + a && At(s, 1) == 0x80 + b && At(s, 2) == 0x80 + c;
  }

  lemma NextOfFour(a: nat, b: nat, c: nat, d: nat, rest: seq<Byte>)
    requires a <= 4 && b < 64 && c < 64 && d < 64 && (a == 0 ==> b >= 16) && (a == 4 ==> b < 16)
    ensures Next([0xF0 + a, 0x80 + b, 0x80 + c, 0x80 + d] + rest) == Step((a * 262144 + b * 4096 + c * 64 + d) as char, 4)
  {
    var s := [0xF0 + a, 0x80 + b, 0x80 + c, 0x80 + d] + rest;
    assert At(s, 0) == 0xF0 + a && At(s, 1) == 0x80 + b && At(s, 2) == 0x80 + c && At(s, 3) == 0x80 + d;
  }

  lemma NextOfTwoByteChar(c: char, rest: seq<Byte>)
    requires 0x80 <= c as int < 0x800
    ensures Next(EncodeChar(c) + rest) == Step(c, 2)
  {
    var n := c as int;
    NextOfTwo(n / 64, n % 64, rest);
  }

  lemma NextOfThreeByteChar(c: char, rest: seq<Byte>)
    requires 0x800 <= c as int < 0x10000
    ensures Next(EncodeChar(c) + rest) == Step(c, 3)
  {
    var n := c as int;
    var high, middle, low := n / 4096, n / 64 % 64, n % 64;
    assert n == high * 4096 + middle * 64 + low;
    NextOfThree(high, middle, low, rest);
  }

  lemma FourDigits(n: nat)
    requires 0x10000 <= n < 0x110000
    ensures n == n / 262144 * 262144 + n / 4096 % 64 * 4096 + n / 64 % 64 * 64 + n % 64
    ensures n / 262144 <= 4
    ensures n / 262144 == 0 ==> n / 4096 % 64 >= 16
    ensures n / 262144 == 4 ==> n / 4096 % 64 < 16
  {
    var high := n / 4096;
    assert high / 64 == n / 262144 && n / 64 == high * 64 + n / 64 % 64;
    assert high == high / 64 * 64 + high % 64;
  }

  lemma NextOfFourByteChar(c: char, rest: seq<Byte>)
    requires 0x10000 <= c as int
    ensures Next(EncodeChar(c) + rest) == Step(c, 4)
  {
    var n := c as int;
    FourDigits(n);
    NextOfFour(n / 262144, n / 4096 % 64, n / 64 % 64, n % 64, rest);
  }

  lemma NextOfEncoded(c: char, rest: seq<Byte>)
    ensures Next(EncodeChar(c) + rest) == Step(c, |EncodeChar(c)|)
  {
    if 0x80 <= c as int < 0x800 {
      NextOfTwoByteChar(c, rest);
    } else if 0x800 <= c as int < 0x10000 {
      NextOfThreeByteChar(c, rest);
    } else if 0x10000 <= c as int {
      NextOfFourByteChar(c, rest);
    }
  }

  /** Lossy decoding loses nothing of well-formed text. */
  lemma {:induction false} DecodeOfEncoded(s: string)
    ensures Decode(Encode(s)) == s
    decreases |s|
  {
    if s != "" {
      var head, tail := EncodeChar(s[0]), Encode(s[1..]);
      NextOfEncoded(s[0], tail);
      assert (head + tail)[|head|..] == tail;
      DecodeOfEncoded(s[1..]);
    }
  }

  /** Encoded text holds a byte 0x0A only for a line feed. */
  lemma {:induction false} EncodeKeepsLines(s: string)
    requires '\n' !in s
    ensures LF !in Encode(s)
    decreases |s|
  {
    if s != "" {
      EncodeKeepsLines(s[1..]);
    }
  }

  // Ill-formed text.

  /** `p` begins the encoding of some character, but is not all of it. */
  ghost predicate BeginsCharacter(p: seq<Byte>)
  {
    exists c: char :: p < EncodeChar(c)
  }

  /** The bytes an encoding can have, which are those of the table in section 4 of RFC 3629. */
  lemma EncodedBytes(c: char)
    ensures var e := EncodeChar(c);
            && |e| <= 4
            && (|e| == 1 ==> e[0] < 0x80)
            && (|e| == 2 ==> 0xC2 <= e[0] <= 0xDF)
            && (|e| == 3 ==> 0xE0 <= e[0] <= 0xEF)
            && (|e| == 4 ==> 0xF0 <= e[0] <= 0xF4)
            && (|e| >= 2 ==> IsContinuation(e[1]))
            && (|e| >= 3 ==> IsSecond(e[0], e[1]) && IsContinuation(e[2]))
            && (|e| == 4 ==> IsContinuation(e[3]))
  {
    if c as int >= 0x10000 {
      FourDigits(c as int);
    }
  }

  lemma CharacterOfTwo(a: Byte, b: Byte)
    requires 0xC2 <= a <= 0xDF && IsContinuation(b)
    ensures exists c: char :: EncodeChar(c) == [a, b]
  {
    var n := (a - 0xC0) * 64 + (b - 0x80);
    assert EncodeChar(n as char) == [a, b];
  }

  lemma CharacterOfThree(a: Byte, b: Byte, d: Byte)
    requires 0xE0 <= a <= 0xEF && IsSecond(a, b) && IsContinuation(d)
    ensures exists c: char :: EncodeChar(c) == [a, b, d]
  {
    var n := (a - 0xE0) * 4096 + (b - 0x80) * 64 + (d - 0x80);
    assert n / 64 == (a - 0xE0) * 64 + (b - 0x80) && n % 64 == d - 0x80;
    assert n / 4096 == a - 0xE0 && n / 64 % 64 == b - 0x80;
    assert EncodeChar(n as char) == [a, b, d];
  }

  lemma CharacterOfFour(a: Byte, b: Byte, d: Byte, e: Byte)
    requires 0xF0 <= a <= 0xF4 && IsSecond(a, b) && IsContinuation(d) && IsContinuation(e)
    ensures exists c: char :: EncodeChar(c) == [a, b, d, e]
  {
    var n := (a - 0xF0) * 262144 + (b - 0x80) * 4096 + (d - 0x80) * 64 + (e - 0x80);
    assert n / 64 == (a - 0xF0) * 4096 + (b - 0x80) * 64 + (d - 0x80) && n % 64 == e - 0x80;
    assert n / 4096 == (a - 0xF0) * 64 + (b - 0x80) && n / 64 % 64 == d - 0x80;
    assert n / 262144 == a - 0xF0 && n / 4096 % 64 == b - 0x80;
    assert EncodeChar(n as char) == [a, b, d, e];
  }

  // A leading byte begins a character, and so do a leading byte and what may follow it.

  lemma ThreeBytesBegin(p: seq<Byte>)
    requires 1 <= |p| <= 2 && 0xE0 <= p[0] <= 0xEF && (|p| == 2 ==> IsSecond(p[0], p[1]))
    ensures BeginsCharacter(p)
  {
    var second: Byte := if |p| == 2 then p[1] else if p[0] == 0xE0 then 0xA0 else 0x80;
    CharacterOfThree(p[0], second, 0x80);
    var c: char :| EncodeChar(c) == [p[0], second, 0x80];
    assert p < EncodeChar(c);
  }

  lemma FourBytesBegin(p: seq<Byte>)
    requires 1 <= |p| <= 3 && 0xF0 <= p[0] <= 0xF4
    requires |p| >= 2 ==> IsSecond(p[0], p[1])
    requires |p| == 3 ==> IsContinuation(p[2])
    ensures BeginsCharacter(p)
  {
    var second: Byte := if |p| >= 2 then p[1] else if p[0] == 0xF0 then 0x90 else 0x80;
    var third: Byte := if |p| == 3 then p[2] else 0x80;
    CharacterOfFour(p[0], second, third, 0x80);
    var c: char :| EncodeChar(c) == [p[0], second, third, 0x80];
    assert p < EncodeChar(c);
  }

  /** What begins a character has a leading byte, and then bytes that may follow it. */
  lemma BeginningBytes(p: seq<Byte>)
    requires BeginsCharacter(p) && p != []
    ensures 0xC2 <= p[0] <= 0xF4 && |p| <= 3
    ensures |p| >= 2 ==> 0xE0 <= p[0] && IsSecond(p[0], p[1])
    ensures |p| == 3 ==> 0xF0 <= p[0] && IsContinuation(p[2])
  {
    var c: char :| p < EncodeChar(c);
    EncodedBytes(c);
  }

  /** `n` is the length of the maximal subpart at the start of `s`: its longest prefix that begins a character, or one byte. */
  ghost predicate MaximalSubpart(s: seq<Byte>, n: nat)
  {
    && 1 <= n <= |s|
    && (n > 1 ==> BeginsCharacter(s[..n]))
    && forall m :: n < m <= |s| ==> !BeginsCharacter(s[..m])
  }

  /** No character stands at the start of `s`. */
  ghost predicate IllFormed(s: seq<Byte>)
  {
    forall c: char :: !(EncodeChar(c) <= s)
  }

  lemma NothingLonger(s: seq<Byte>, n: nat)
    requires 1 <= n <= |s|
    requires 0xC2 <= s[0] <= 0xF4 ==>
               if n == 1 then s[0] < 0xE0 || !IsSecond(s[0], At(s, 1))
               else if n == 2 then s[0] < 0xF0 || !IsContinuation(At(s, 2))
               else n >= 3
    ensures forall m :: n < m <= |s| ==> !BeginsCharacter(s[..m])
  {
    forall m | n < m <= |s| ensures !BeginsCharacter(s[..m]) {
      if BeginsCharacter(s[..m]) {
        BeginningBytes(s[..m]);
        assert s[..m][0] == s[0] && s[..m][1] == At(s, 1) && (m >= 3 ==> s[..m][2] == At(s, 2));
      }
    }
  }

  lemma IllFormedTwo(s: seq<Byte>)
    requires s != [] && IllFormed(s) && 0xC2 <= s[0] <= 0xDF
    ensures Next(s).c == REPLACEMENT && MaximalSubpart(s, Next(s).used)
  {
    if IsContinuation(At(s, 1)) {
      CharacterOfTwo(s[0], s[1]);
      var c: char :| EncodeChar(c) == [s[0], s[1]];
      assert EncodeChar(c) <= s;
    }
    NothingLonger(s, 1);
  }

  lemma IllFormedThree(s: seq<Byte>)
    requires s != [] && IllFormed(s) && 0xE0 <= s[0] <= 0xEF
    ensures Next(s).c == REPLACEMENT && MaximalSubpart(s, Next(s).used)
  {
    if !IsSecond(s[0], At(s, 1)) {
      NothingLonger(s, 1);
    } else {
      if IsContinuation(At(s, 2)) {
        CharacterOfThree(s[0], s[1], s[2]);
        var c: char :| EncodeChar(c) == [s[0], s[1], s[2]];
        assert EncodeChar(c) <= s;
      }
      ThreeBytesBegin(s[..2]);
      NothingLonger(s, 2);
    }
  }

  lemma IllFormedFour(s: seq<Byte>)
    requires s != [] && IllFormed(s) && 0xF0 <= s[0] <= 0xF4
    ensures Next(s).c == REPLACEMENT && MaximalSubpart(s, Next(s).used)
  {
    if !IsSecond(s[0], At(s, 1)) {
      NothingLonger(s, 1);
    } else if !IsContinuation(At(s, 2)) {
      FourBytesBegin(s[..2]);
      NothingLonger(s, 2);
    } else {
      if IsContinuation(At(s, 3)) {
        CharacterOfFour(s[0], s[1], s[2], s[3]);
        var c: char :| EncodeChar(c) == [s[0], s[1], s[2], s[3]];
        assert EncodeChar(c) <= s;
      }
      FourBytesBegin(s[..3]);
      NothingLonger(s, 3);
    }
  }

  /** What is not the start of a character becomes one U+FFFD for its maximal subpart. */
  lemma IllFormedIsReplaced(s: seq<Byte>)
    requires s != [] && IllFormed(s)
    ensures Next(s).c == '\U{FFFD}' && MaximalSubpart(s, Next(s).used)
  {
    if s[0] < 0x80 {
      assert EncodeChar(s[0] as char) <= s;
    } else if 0xC2 <= s[0] <= 0xDF {
      IllFormedTwo(s);
    } else if 0xE0 <= s[0] <= 0xEF {
      IllFormedThree(s);
    } else if 0xF0 <= s[0] <= 0xF4 {
      IllFormedFour(s);
    } else {
      NothingLonger(s, 1);
    }
  }

  /**
   Lossy decoding, step by step and for any bytes: a character that stands at the start is taken, and otherwise one
   U+FFFD stands for the maximal subpart.
   */
  lemma LossyStep(s: seq<Byte>, c: char)
    requires s != []
    ensures EncodeChar(c) <= s ==> Next(s) == Step(c, |EncodeChar(c)|)
    ensures IllFormed(s) ==> Next(s).c == '\U{FFFD}' && MaximalSubpart(s, Next(s).used)
  {
    if EncodeChar(c) <= s {
      assert s == EncodeChar(c) + s[|EncodeChar(c)|..];
      NextOfEncoded(c, s[|EncodeChar(c)|..]);
    }
    if IllFormed(s) {
      IllFormedIsReplaced(s);
    }
  }

  /** The examples of section 7 of RFC 3629 have their bytes. */
  lemma EncodingExamples()
    ensures EncodeChar('A') == [0x41]
    ensures EncodeChar('\U{0391}') == [0xCE, 0x91]
    ensures EncodeChar('\U{2262}') == [0xE2, 0x89, 0xA2]
    ensures EncodeChar('\U{D55C}') == [0xED, 0x95, 0x9C]
    ensures EncodeChar('\U{233B4}') == [0xF0, 0xA3, 0x8E, 0xB4]
  {
  }
}
