/**
 The simple specification of line splitting, for bytes and for text alike:
 the separator-terminated lines of a sequence, and what follows the last separator.
 */
module Lines {

  /** The lines of `s` that are closed by a separator. */
  function Complete<T(==)>(sep: T, s: seq<T>): seq<seq<T>>
  {
    if s == [] then []
    else
      var init := s[..|s| - 1];
      if s[|s| - 1] == sep then Complete(sep, init) + [Rest(sep, init)] else Complete(sep, init)
  }

  /** What follows the last separator of `s`. */
  function Rest<T(==)>(sep: T, s: seq<T>): seq<T>
  {
    if s == [] || s[|s| - 1] == sep then [] else Rest(sep, s[..|s| - 1]) + [s[|s| - 1]]
  }

  /** Every line followed by the separator. */
  function Terminated<T>(sep: T, lines: seq<seq<T>>): seq<T>
  {
    if lines == [] then [] else Terminated(sep, lines[..|lines| - 1]) + lines[|lines| - 1] + [sep]
  }

  ghost predicate Clean<T>(sep: T, lines: seq<seq<T>>)
  {
    forall i :: 0 <= i < |lines| ==> sep !in lines[i]
  }

  lemma CleanConcat<T>(sep: T, a: seq<seq<T>>, b: seq<seq<T>>)
    requires Clean(sep, a) && Clean(sep, b)
    ensures Clean(sep, a + b)
  {
  }

  lemma CleanSlice<T>(sep: T, s: seq<T>, from: nat, to: nat)
    requires sep !in s && from <= to <= |s|
    ensures sep !in s[from..to]
  {
  }

  lemma AppendSeparator<T>(sep: T, s: seq<T>)
    ensures Complete(sep, s + [sep]) == Complete(sep, s) + [Rest(sep, s)]
    ensures Rest(sep, s + [sep]) == []
  {
    assert (s + [sep])[..|s|] == s;
  }

  lemma AppendOther<T>(sep: T, s: seq<T>, x: T)
    requires x != sep
    ensures Complete(sep, s + [x]) == Complete(sep, s)
    ensures Rest(sep, s + [x]) == Rest(sep, s) + [x]
  {
    assert (s + [x])[..|s|] == s;
  }

  lemma AppendLonger<T>(sep: T, s: seq<T>, piece: seq<T>, x: T)
    requires x != sep
    requires Complete(sep, s + piece) == Complete(sep, s) && Rest(sep, s + piece) == Rest(sep, s) + piece
    ensures Complete(sep, s + (piece + [x])) == Complete(sep, s)
    ensures Rest(sep, s + (piece + [x])) == Rest(sep, s) + (piece + [x])
  {
    AppendOther(sep, s + piece, x);
    assert s + (piece + [x]) == (s + piece) + [x];
  }

  lemma {:induction false} AppendPiece<T>(sep: T, s: seq<T>, piece: seq<T>)
    requires sep !in piece
    ensures Complete(sep, s + piece) == Complete(sep, s)
    ensures Rest(sep, s + piece) == Rest(sep, s) + piece
    decreases |piece|
  {
    if piece == [] {
      assert s + piece == s;
    } else {
      var init, last := piece[..|piece| - 1], piece[|piece| - 1];
      AppendPiece(sep, s, init);
      assert piece == init + [last];
      AppendLonger(sep, s, init, last);
    }
  }

  lemma Regroup<T>(x: seq<T>, y: seq<T>, z: seq<T>, w: seq<T>)
    ensures x + y + z + w == x + (y + z + w)
  {
  }

  lemma TerminatedAppend<T>(sep: T, lines: seq<seq<T>>, line: seq<T>)
    ensures Terminated(sep, lines + [line]) == Terminated(sep, lines) + line + [sep]
  {
    assert (lines + [line])[..|lines|] == lines;
  }

  lemma CleanAppend<T>(sep: T, lines: seq<seq<T>>, line: seq<T>)
    requires Clean(sep, lines) && sep !in line
    ensures Clean(sep, lines + [line])
  {
  }

  /** The lines with their separators, then the rest. */
  function Whole<T(==)>(sep: T, s: seq<T>): seq<T>
  {
    Terminated(sep, Complete(sep, s)) + Rest(sep, s)
  }

  lemma WholeWithSeparator<T>(sep: T, s: seq<T>)
    ensures Whole(sep, s + [sep]) == Whole(sep, s) + [sep]
  {
    AppendSeparator(sep, s);
    TerminatedAppend(sep, Complete(sep, s), Rest(sep, s));
  }

  lemma WholeWithPiece<T>(sep: T, s: seq<T>, piece: seq<T>)
    requires sep !in piece
    ensures Whole(sep, s + piece) == Whole(sep, s) + piece
  {
    AppendPiece(sep, s, piece);
  }

  lemma {:induction false} SplitIsWhole<T>(sep: T, s: seq<T>)
    ensures Whole(sep, s) == s
  {
    if s != [] {
      var init, last := s[..|s| - 1], s[|s| - 1];
      SplitIsWhole(sep, init);
      assert s == init + [last];
      if last == sep {
        WholeWithSeparator(sep, init);
      } else {
        WholeWithPiece(sep, init, [last]);
      }
    }
  }

  lemma {:induction false} SplitIsClean<T>(sep: T, s: seq<T>)
    ensures Clean(sep, Complete(sep, s)) && sep !in Rest(sep, s)
  {
    if s != [] {
      var init := s[..|s| - 1];
      SplitIsClean(sep, init);
      CleanAppend(sep, Complete(sep, init), Rest(sep, init));
    }
  }

  /** Splitting loses nothing: the lines with their separators, then the rest, are `s` again. */
  lemma SplitIsExact<T>(sep: T, s: seq<T>)
    ensures Terminated(sep, Complete(sep, s)) + Rest(sep, s) == s
    ensures Clean(sep, Complete(sep, s)) && sep !in Rest(sep, s)
  {
    SplitIsWhole(sep, s);
    SplitIsClean(sep, s);
  }

  /** Splitting is the only such decomposition. */
  lemma {:induction false} SplitIsUnique<T>(sep: T, lines: seq<seq<T>>, rest: seq<T>)
    requires Clean(sep, lines) && sep !in rest
    ensures Complete(sep, Terminated(sep, lines) + rest) == lines
    ensures Rest(sep, Terminated(sep, lines) + rest) == rest
    decreases |lines|
  {
    AppendPiece(sep, Terminated(sep, lines), rest);
    if lines != [] {
      var init, last := lines[..|lines| - 1], lines[|lines| - 1];
      var head := Terminated(sep, init);
      SplitIsUnique(sep, init, []);
      assert head + [] == head;
      AppendPiece(sep, head, last);
      AppendSeparator(sep, head + last);
      assert [] + last == last;
      assert lines == init + [last];
    } else {
      assert [] + rest == rest;
    }
  }

  lemma {:induction false} TerminatedConcat<T>(sep: T, a: seq<seq<T>>, b: seq<seq<T>>)
    ensures Terminated(sep, a + b) == Terminated(sep, a) + Terminated(sep, b)
    decreases |b|
  {
    if b == [] {
      assert a + b == a;
    } else {
      var init, last := b[..|b| - 1], b[|b| - 1];
      TerminatedConcat(sep, a, init);
      TerminatedAppend(sep, a + init, last);
      TerminatedAppend(sep, init, last);
      Regroup(Terminated(sep, a), Terminated(sep, init), last, [sep]);
      assert b == init + [last] && a + b == (a + init) + [last];
    }
  }

  lemma SlicesAgree<T>(x: seq<T>, y: seq<T>, b: seq<T>, z: seq<T>, w: seq<T>)
    requires y + b == z + w
    ensures (x + y) + b == (x + z) + w
  {
    assert (x + y) + b == x + (y + b) == x + (z + w) == (x + z) + w;
  }

  /** Only the rest of the first part is needed to go on splitting the second. */
  lemma SplitConcat<T>(sep: T, a: seq<T>, b: seq<T>)
    ensures Complete(sep, a + b) == Complete(sep, a) + Complete(sep, Rest(sep, a) + b)
    ensures Rest(sep, a + b) == Rest(sep, Rest(sep, a) + b)
  {
    var t := Rest(sep, a) + b;
    var closed, open, rest := Complete(sep, a), Complete(sep, t), Rest(sep, t);
    assert Clean(sep, closed + open) && sep !in rest && a + b == Terminated(sep, closed + open) + rest by {
      SplitIsExact(sep, a);
      SplitIsExact(sep, t);
      TerminatedConcat(sep, closed, open);
      SlicesAgree(Terminated(sep, closed), Rest(sep, a), b, Terminated(sep, open), rest);
    }
    SplitIsUnique(sep, closed + open, rest);
  }

  lemma FirstLine<T>(sep: T, line: seq<T>, s: seq<T>)
    requires sep !in line
    ensures Complete(sep, line + [sep] + s) == [line] + Complete(sep, s)
    ensures Rest(sep, line + [sep] + s) == Rest(sep, s)
  {
    var head := line + [sep];
    AppendPiece(sep, [], line);
    assert [] + line == line;
    AppendSeparator(sep, line);
    SplitConcat(sep, head, s);
    assert Rest(sep, head) + s == s;
  }

  /** One complete line per separator. */
  lemma {:induction false} CountComplete<T>(sep: T, s: seq<T>)
    ensures |Complete(sep, s)| == multiset(s)[sep]
  {
    if s != [] {
      CountComplete(sep, s[..|s| - 1]);
      assert s == s[..|s| - 1] + [s[|s| - 1]];
    }
  }

  lemma NoSeparator<T>(sep: T, s: seq<T>)
    requires sep !in s
    ensures Complete(sep, s) == [] && Rest(sep, s) == s
  {
    AppendPiece(sep, [], s);
    assert [] + s == s;
  }
}
