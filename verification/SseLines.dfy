/**
 What each line means, in plain terms: which characters count as white space, what is trimmed and what is kept, and
 what the line does to the event being assembled. Every line of text is of one of the three kinds below.
 */
module SseLines {
  import opened Wrappers
  import opened Text
  import opened LineMachine
  import opened SseEvents
  import Utf8

  /** The 25 code points with the Unicode property White_Space. */
  const WHITE_SPACE: set<char> := {
    '\U{0009}', '\U{000A}', '\U{000B}', '\U{000C}', '\U{000D}', '\U{0020}', '\U{0085}', '\U{00A0}', '\U{1680}',
    '\U{2000}', '\U{2001}', '\U{2002}', '\U{2003}', '\U{2004}', '\U{2005}', '\U{2006}', '\U{2007}', '\U{2008}',
    '\U{2009}', '\U{200A}', '\U{2028}', '\U{2029}', '\U{202F}', '\U{205F}', '\U{3000}'}

  predicate Blank(s: string)
  {
    forall i :: 0 <= i < |s| ==> s[i] in WHITE_SPACE
  }

  /** Empty, or with neither end in the set. */
  predicate Bare(s: string)
  {
    s != "" ==> s[0] !in WHITE_SPACE && s[|s| - 1] !in WHITE_SPACE
  }

  /** What a field does to the event being assembled. */
  function WithField(a: Assembly, name: string, value: string): Assembly
  {
    if name == "data" then a.(pending := a.pending.(data := if a.pending.data == "" then value else a.pending.data + "\n" + value))
    else if name == "id" then Assembly(a.pending.(id := Some(value)), Some(value))
    else if name == "event" then a.(pending := a.pending.(event := Some(value)))
    else a
  }

  lemma WhiteSpaceIs(c: char)
    ensures IsWhitespace(c) <==> c in WHITE_SPACE
  {
    if IsWhitespace(c) {
      var n := c as int;
      assert n in {0x09, 0x0A, 0x0B, 0x0C, 0x0D, 0x20, 0x85, 0xA0, 0x1680, 0x2000, 0x2001, 0x2002, 0x2003, 0x2004, 0x2005,
                   0x2006, 0x2007, 0x2008, 0x2009, 0x200A, 0x2028, 0x2029, 0x202F, 0x205F, 0x3000};
    }
  }

  lemma BlankIsSpace(s: string)
    requires Blank(s)
    ensures forall i :: 0 <= i < |s| ==> IsWhitespace(s[i])
  {
    forall i | 0 <= i < |s| ensures IsWhitespace(s[i]) {
      WhiteSpaceIs(s[i]);
    }
  }

  lemma TrimEndDropsBlank(text: string, post: string)
    requires Blank(post) && (text != "" ==> text[|text| - 1] !in WHITE_SPACE)
    ensures TrimEnd(text + post) == text
  {
    var s := text + post;
    BlankIsSpace(post);
    assert forall i :: |text| <= i < |s| ==> s[i] == post[i - |text|];
    if text != "" {
      WhiteSpaceIs(text[|text| - 1]);
      assert s[|text| - 1] == text[|text| - 1];
    }
    TextEndsAt(s, |text|);
    assert s[..|text|] == text;
  }

  lemma TrimStartDropsBlank(pre: string, text: string)
    requires Blank(pre) && (text != "" ==> text[0] !in WHITE_SPACE)
    ensures TrimStart(pre + text) == text
  {
    var s := pre + text;
    BlankIsSpace(pre);
    if text != "" {
      WhiteSpaceIs(text[0]);
      assert s[|pre|] == text[0];
    }
    TextStartsAt(s, |pre|);
    assert s[|pre|..] == text;
  }

  lemma SplitAtColon(name: string, rest: string)
    requires ':' !in name
    ensures SplitColon(name + ":" + rest) == (name, Some(rest))
  {
    var line := name + ":" + rest;
    FindColonIs(name, rest);
    assert line[..|name|] == name && line[|name| + 1..] == rest;
  }

  lemma ColonIsNoSpace()
    ensures ':' !in WHITE_SPACE
  {
  }

  /** What is left of a field line when the white space at its end is gone: the value, or nothing but the colon. */
  lemma FieldLineTrimmed(name: string, pre: string, value: string, post: string) returns (rest: string)
    requires Blank(pre) && Blank(post) && Bare(value)
    ensures TrimEnd(name + ":" + pre + value + post) == name + ":" + rest
    ensures TrimStart(rest) == value
  {
    ColonIsNoSpace();
    if value == "" {
      rest := "";
      assert name + ":" + pre + value + post == (name + ":") + (pre + post);
      TrimEndDropsBlank(name + ":", pre + post);
      assert name + ":" + rest == name + ":";
      TrimStartDropsBlank("", "");
    } else {
      rest := pre + value;
      var text := name + ":" + (pre + value);
      assert name + ":" + pre + value + post == text + post;
      assert text[|text| - 1] == value[|value| - 1];
      TrimEndDropsBlank(text, post);
      TrimStartDropsBlank(pre, value);
    }
  }

  /**
   A field: whatever white space stands between the colon and the value and after it is dropped, and nothing else is.
   The name is everything before the first colon, as it stands.
   */
  lemma FieldCommandOfLine(name: string, pre: string, value: string, post: string)
    requires ':' !in name && Blank(pre) && Blank(post) && Bare(value)
    ensures CommandOf(TrimEnd(name + ":" + pre + value + post)) == FieldCommand(name, value)
  {
    var rest := FieldLineTrimmed(name, pre, value, post);
    SplitAtColon(name, rest);
    assert name + ":" + rest != "";
  }

  lemma ObeyField(a: Assembly, name: string, value: string)
    ensures Obey(a, FieldCommand(name, value)) == Fed(WithField(a, name, value), [])
  {
  }

  lemma FieldLine(a: Assembly, name: string, pre: string, value: string, post: string)
    requires ':' !in name && Blank(pre) && Blank(post) && Bare(value)
    ensures SseLine(a, Utf8.Encode(name + ":" + pre + value + post)) == Fed(WithField(a, name, value), [])
  {
    Utf8.DecodeOfEncoded(name + ":" + pre + value + post);
    FieldCommandOfLine(name, pre, value, post);
    ObeyField(a, name, value);
  }

  /** A line without a colon is a field without a value, once the white space at its end is dropped. */
  lemma NameLine(a: Assembly, name: string, post: string)
    requires ':' !in name && Blank(post) && name != "" && name[|name| - 1] !in WHITE_SPACE
    ensures SseLine(a, Utf8.Encode(name + post)) == Fed(WithField(a, name, ""), [])
  {
    Utf8.DecodeOfEncoded(name + post);
    TrimEndDropsBlank(name, post);
    NoColon(name);
    ObeyField(a, name, "");
  }

  /** A line of nothing but white space hands out the pending event, empty or not, and begins a new one. */
  lemma BlankLine(a: Assembly, line: string)
    requires Blank(line)
    ensures SseLine(a, Utf8.Encode(line)) == Fed(Assembly(SseEvent(None, None, ""), a.lastEventId), [a.pending])
  {
    Utf8.DecodeOfEncoded(line);
    TrimEndDropsBlank("", line);
    assert "" + line == line;
  }

  // Every line is of one of these kinds.

  lemma {:induction false} BlankThenBare(s: string) returns (pre: string, value: string, post: string)
    ensures s == pre + value + post && Blank(pre) && Blank(post) && Bare(value)
    decreases |s|
  {
    if s == "" {
      pre, value, post := "", "", "";
    } else if s[0] in WHITE_SPACE {
      pre, value, post := BlankThenBare(s[1..]);
      pre := [s[0]] + pre;
    } else if s[|s| - 1] in WHITE_SPACE {
      var init := s[..|s| - 1];
      pre, value, post := BlankThenBare(init);
      assert s == init + [s[|s| - 1]];
      assert s == pre + value + (post + [s[|s| - 1]]);
      post := post + [s[|s| - 1]];
    } else {
      pre, value, post := "", s, "";
    }
  }

  /**
   The meaning of every line, whatever it holds: one with a colon is a field, one without is a field without a value or
   blank.
   */
  lemma EveryLine(a: Assembly, line: string) returns (name: string, pre: string, value: string, post: string)
    ensures Blank(pre) && Blank(post) && Bare(value) && ':' !in name
    ensures ':' in line ==> line == name + ":" + pre + value + post
    ensures ':' !in line ==> line == pre + name + post && value == "" && (name == "" <==> Blank(line))
    ensures ':' in line || !Blank(line) ==>
              SseLine(a, Utf8.Encode(line)) == Fed(WithField(a, if ':' in line then name else pre + name, value), [])
    ensures Blank(line) ==> SseLine(a, Utf8.Encode(line)) == Fed(Assembly(SseEvent(None, None, ""), a.lastEventId), [a.pending])
  {
    if ':' in line {
      var i := FindColon(line);
      ColonIsFirst(line);
      FirstColonFound(line);
      name := line[..i];
      pre, value, post := BlankThenBare(line[i + 1..]);
      assert line == name + ":" + (pre + value + post) == name + ":" + pre + value + post;
      FieldLine(a, name, pre, value, post);
      ColonIsNoSpace();
    } else {
      pre, name, post := BlankThenBare(line);
      value := "";
      if name == "" {
        BlankLine(a, line);
      } else {
        assert line[|pre|] == name[0] && !Blank(line);
        NameLine(a, pre + name, post);
      }
    }
  }

  lemma FirstColonFound(line: string)
    requires ':' in line
    ensures FindColon(line) < |line|
  {
    ColonIsFirst(line);
  }
}
