/** The `str` methods the event parser uses: `trim_end`, `trim_start` and `splitn(2, ':')`. */
module Text {
  import opened Wrappers

  /** The characters with the Unicode property White_Space, as `char::is_whitespace` has them. */
  predicate IsWhitespace(c: char)
  {
    var n := c as int;
    0x09 <= n <= 0x0D || n == 0x20 || n == 0x85 || n == 0xA0 || n == 0x1680 || 0x2000 <= n <= 0x200A ||
    n == 0x2028 || n == 0x2029 || n == 0x202F || n == 0x205F || n == 0x3000
  }

  /** The length of the first `n` characters without the white space at their end. */
  function TextBefore(s: string, n: nat): (r: nat)
    requires n <= |s|
    ensures r <= n
    ensures r != 0 ==> !IsWhitespace(s[r - 1])
  {
    if n > 0 && IsWhitespace(s[n - 1]) then TextBefore(s, n - 1) else n
  }

  /** The length of `s` without the white space at its end. */
  function EndOfText(s: string): (r: nat)
    ensures r <= |s|
    ensures r != 0 ==> !IsWhitespace(s[r - 1])
  {
    TextBefore(s, |s|)
  }

  /** The first index from `from` on that holds no white space, or the length of `s`. */
  function TextAfter(s: string, from: nat): (r: nat)
    requires from <= |s|
    ensures from <= r <= |s|
    ensures r != |s| ==> !IsWhitespace(s[r])
    decreases |s| - from
  {
    if from < |s| && IsWhitespace(s[from]) then TextAfter(s, from + 1) else from
  }

  /** The length of the white space at the start of `s`. */
  function StartOfText(s: string): (r: nat)
    ensures r <= |s|
    ensures r != |s| ==> !IsWhitespace(s[r])
  {
    TextAfter(s, 0)
  }

  function TrimEnd(s: string): string
  {
    s[..EndOfText(s)]
  }

  function TrimStart(s: string): string
  {
    s[StartOfText(s)..]
  }

  /** Neither end is white space. */
  predicate Trimmed(s: string)
  {
    s != "" ==> !IsWhitespace(s[0]) && !IsWhitespace(s[|s| - 1])
  }

  /** The first index from `from` on that holds a ':', or the length of `s`. */
  function ColonAfter(s: string, from: nat): (r: nat)
    requires from <= |s|
    ensures from <= r <= |s|
    ensures r < |s| ==> s[r] == ':'
    decreases |s| - from
  {
    if from == |s| || s[from] == ':' then from else ColonAfter(s, from + 1)
  }

  /** The index of the first ':' of `s`, or the length of `s`. */
  function FindColon(s: string): (r: nat)
    ensures r <= |s|
    ensures r < |s| ==> s[r] == ':'
  {
    ColonAfter(s, 0)
  }

  lemma {:induction false} SpaceFollowsTextBefore(s: string, n: nat)
    requires n <= |s|
    ensures forall i :: TextBefore(s, n) <= i < n ==> IsWhitespace(s[i])
  {
    if n > 0 && IsWhitespace(s[n - 1]) {
      SpaceFollowsTextBefore(s, n - 1);
    }
  }

  /** What follows the text is white space. */
  lemma SpaceFollowsText(s: string)
    ensures forall i :: EndOfText(s) <= i < |s| ==> IsWhitespace(s[i])
  {
    SpaceFollowsTextBefore(s, |s|);
  }

  lemma {:induction false} SpacePrecedesTextAfter(s: string, from: nat)
    requires from <= |s|
    ensures forall i :: from <= i < TextAfter(s, from) ==> IsWhitespace(s[i])
    decreases |s| - from
  {
    if from < |s| && IsWhitespace(s[from]) {
      SpacePrecedesTextAfter(s, from + 1);
    }
  }

  /** What precedes the text is white space. */
  lemma SpacePrecedesText(s: string)
    ensures forall i :: 0 <= i < StartOfText(s) ==> IsWhitespace(s[i])
  {
    SpacePrecedesTextAfter(s, 0);
  }

  lemma {:induction false} ColonAfterIsFirst(s: string, from: nat)
    requires from <= |s|
    ensures forall i :: from <= i < ColonAfter(s, from) ==> s[i] != ':'
    decreases |s| - from
  {
    if from < |s| && s[from] != ':' {
      ColonAfterIsFirst(s, from + 1);
    }
  }

  /** No ':' precedes the one found. */
  lemma ColonIsFirst(s: string)
    ensures forall i :: 0 <= i < FindColon(s) ==> s[i] != ':'
  {
    ColonAfterIsFirst(s, 0);
  }

  /** What precedes the first ':', and what follows it if there is one. */
  function SplitColon(s: string): (string, Option<string>)
  {
    var i := FindColon(s);
    (s[..i], if i < |s| then Some(s[i + 1..]) else None)
  }

  lemma FirstColonAt(s: string, i: nat)
    requires i < |s| && s[i] == ':' && forall k :: 0 <= k < i ==> s[k] != ':'
    ensures FindColon(s) == i
  {
    ColonIsFirst(s);
  }

  lemma NoColon(s: string)
    requires forall k :: 0 <= k < |s| ==> s[k] != ':'
    ensures FindColon(s) == |s| && SplitColon(s) == (s, None)
  {
    assert s[..|s|] == s;
  }

  lemma TextEndsAt(s: string, end: nat)
    requires end <= |s| && (end != 0 ==> !IsWhitespace(s[end - 1]))
    requires forall i :: end <= i < |s| ==> IsWhitespace(s[i])
    ensures EndOfText(s) == end
  {
    SpaceFollowsText(s);
    var r := EndOfText(s);
    assert r < end ==> IsWhitespace(s[end - 1]);
    assert end < r ==> IsWhitespace(s[r - 1]);
  }

  lemma TextStartsAt(s: string, start: nat)
    requires start <= |s| && (start != |s| ==> !IsWhitespace(s[start]))
    requires forall i :: 0 <= i < start ==> IsWhitespace(s[i])
    ensures StartOfText(s) == start
  {
    SpacePrecedesText(s);
    var r := StartOfText(s);
    assert r > start ==> IsWhitespace(s[start]);
    assert start > r ==> IsWhitespace(s[r]);
  }

  lemma FindColonIs(name: string, value: string)
    requires ':' !in name
    ensures FindColon(name + ":" + value) == |name|
    ensures FindColon(name) == |name|
  {
    var s := name + ":" + value;
    assert s[|name|] == ':';
    assert forall i :: 0 <= i < |name| ==> s[i] == name[i] && name[i] in name;
    FirstColonAt(s, |name|);
  }
}
