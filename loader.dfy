/**
 * Turning a file's bytes into the document: the byte-splitting loop of
 * editor_read_from_file (main.c:393-404), and the persisted form of a
 * document (each line followed by a line feed).
 */
module Loader {
  import opened Bytes
  import opened TextLine
  import opened LineList

  /** The bytes after the last line feed of `s`: the line the split loop is still collecting. */
  function Pending(s: seq<byte>): seq<byte>
  {
    if s == [] then []
    else if s[|s| - 1] == LF then []
    else Pending(s[..|s| - 1]) + [s[|s| - 1]]
  }

  /**
   * The lines the split loop appends for `s`: at each line feed, the bytes
   * collected since the previous one. Bytes after the last line feed are
   * never appended (main.c:396-404). Each line costs at least its line feed,
   * so there are never more lines than bytes.
   */
  function SplitLines(s: seq<byte>): (r: Doc)
    ensures |r| <= |s|
  {
    if s == [] then []
    else if s[|s| - 1] == LF then SplitLines(s[..|s| - 1]) + [Pending(s[..|s| - 1])]
    else SplitLines(s[..|s| - 1])
  }

  /** The persisted form of a document: every line followed by a line feed. */
  function Join(doc: Doc): seq<byte>
  {
    if doc == [] then [] else Join(doc[..|doc| - 1]) + doc[|doc| - 1] + [LF]
  }

  /** The line still being collected never holds a line feed. */
  lemma {:induction false} PendingNoLF(s: seq<byte>)
    ensures NoLF(Pending(s))
  {
    if s != [] && s[|s| - 1] != LF {
      PendingNoLF(s[..|s| - 1]);
    }
  }

  /** Nothing is pending exactly when the input is empty or ends in a line feed. */
  lemma PendingEmpty(s: seq<byte>)
    ensures Pending(s) == [] <==> (s == [] || s[|s| - 1] == LF)
  {
  }

  /** One line per line feed byte of the input. */
  lemma {:induction false} SplitLinesCount(s: seq<byte>)
    ensures |SplitLines(s)| == multiset(s)[LF]
  {
    if s != [] {
      var front := s[..|s| - 1];
      assert s == front + [s[|s| - 1]];
      SplitLinesCount(front);
    }
  }

  /** No loaded line contains a line feed. */
  lemma {:induction false} SplitLinesNoLF(s: seq<byte>)
    ensures LinesNoLF(SplitLines(s))
  {
    if s != [] {
      var front := s[..|s| - 1];
      SplitLinesNoLF(front);
      if s[|s| - 1] == LF {
        PendingNoLF(front);
      }
    }
  }

  /** Persisting the loaded lines gives back the input minus the dropped trailing bytes. */
  lemma {:induction false} JoinSplitLines(s: seq<byte>)
    ensures Join(SplitLines(s)) + Pending(s) == s
  {
    if s != [] {
      var front := s[..|s| - 1];
      JoinSplitLines(front);
      if s[|s| - 1] == LF {
        var lines := SplitLines(front) + [Pending(front)];
        assert SplitLines(s) == lines;
        assert lines[..|lines| - 1] == SplitLines(front);
        assert Join(SplitLines(s)) == Join(SplitLines(front)) + Pending(front) + [LF];
      } else {
        assert Join(SplitLines(s)) + Pending(s) == Join(SplitLines(front)) + Pending(front) + [s[|s| - 1]];
      }
      assert s == front + [s[|s| - 1]];
    }
  }

  /**
   * Loading then persisting reproduces the file exactly when it is empty or
   * ends in a line feed; otherwise the bytes after the last line feed are lost.
   */
  lemma FileRoundTrip(s: seq<byte>)
    ensures Join(SplitLines(s)) == s <==> (s == [] || s[|s| - 1] == LF)
  {
    JoinSplitLines(s);
    PendingEmpty(s);
  }

  /** Bytes without a line feed only extend the pending line. */
  lemma {:induction false} SplitNoLFSuffix(p: seq<byte>, l: seq<byte>)
    requires NoLF(l)
    ensures SplitLines(p + l) == SplitLines(p)
    ensures Pending(p + l) == Pending(p) + l
  {
    if l != [] {
      var front := l[..|l| - 1];
      assert (p + l)[..|p + l| - 1] == p + front;
      assert l == front + [l[|l| - 1]];
      SplitNoLFSuffix(p, front);
    } else {
      assert p + l == p;
    }
  }

  /** Persisting a document whose lines hold no line feed, then loading it, gives the same lines. */
  lemma {:induction false} DocRoundTrip(doc: Doc)
    requires LinesNoLF(doc)
    ensures SplitLines(Join(doc)) == doc
    ensures Pending(Join(doc)) == []
  {
    if doc != [] {
      var front, last := doc[..|doc| - 1], doc[|doc| - 1];
      DocRoundTrip(front);
      SplitNoLFSuffix(Join(front), last);
      var body := Join(front) + last;
      assert Join(doc) == body + [LF];
      assert Join(doc)[..|Join(doc)| - 1] == body;
      assert SplitLines(Join(doc)) == SplitLines(body) + [Pending(body)];
      assert Pending(body) == last;
      assert doc == front + [last];
    }
  }

  /**
   * The split loop of editor_read_from_file over the file's bytes, appending
   * to a fresh, empty document (main.c:393-404).
   */
  method ReadLines(contents: seq<byte>) returns (lines: Lines)
    ensures lines.Valid() && fresh(lines) && fresh(lines.data)
    ensures lines.Contents == SplitLines(contents)
  {
    lines := new Lines.Init();
    var l := new Line.Init();
    for i := 0 to |contents|
      invariant lines.Valid() && fresh(lines) && fresh(lines.data)
      invariant l.Valid() && fresh(l.data)
      invariant lines.Contents == SplitLines(contents[..i])
      invariant l.Contents() == Pending(contents[..i])
    {
      assert contents[..i + 1][..i] == contents[..i];
      if contents[i] == LF {
        lines.Append(l.Contents());
        l := new Line.Init();
      } else {
        l.Append(contents[i]);
      }
    }
    assert contents[..|contents|] == contents;
  }
}
