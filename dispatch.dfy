/**
 * The Normal/Insert key dispatch: the body of the input loop of main
 * (main.c:434-541), as a specification function on editor states and as a
 * method on the editor object.
 */
module Dispatch {
  import opened Bytes
  import opened Seqs
  import opened TextLine
  import opened LineList
  import opened Loader

  /** The two modes of the editor (main.c:56-59). */
  datatype Mode = Normal | Insert

  /** What the dispatch reads and writes: the cursor (column cx, row cy), the mode and the document. */
  datatype State = State(cx: nat, cy: nat, mode: Mode, doc: Doc)

  /**
   * The cursor invariant the dispatch keeps: the row names a line (or is 0 in
   * an empty document), and in Insert mode the column is at most the line's
   * length. Normal mode keeps no column bound: 'j' and 'k' do not clamp cx.
   */
  predicate Inv(s: State) {
    (if |s.doc| == 0 then s.cy == 0 else s.cy < |s.doc|) &&
    (s.mode == Insert ==> s.cy < |s.doc| && s.cx <= |s.doc[s.cy]|)
  }

  /** 'o': an empty line is opened below the cursor row and Insert mode begins on it (main.c:471-480). */
  function OpenBelow(s: State): (t: State)
    requires Inv(s) && s.mode == Normal
    ensures Inv(t) && |t.doc| == |s.doc| + (if s.cy < |s.doc| then 1 else 0)
  {
    if s.cy < |s.doc| then State(0, s.cy + 1, Insert, Place(s.doc, s.cy, [])) else s
  }

  /** 'x': the byte under the cursor is deleted, if there is one (main.c:481-487). */
  function DeleteUnder(s: State): (t: State)
    requires Inv(s) && s.mode == Normal
    ensures Inv(t) && t.mode == Normal && t.cx == s.cx && t.cy == s.cy && |t.doc| == |s.doc|
  {
    if s.cy < |s.doc| && s.cx < |s.doc[s.cy]|
    then s.(doc := s.doc[s.cy := RemoveAt(s.doc[s.cy], s.cx)])
    else s
  }

  /** The Normal-mode switch of main.c:435-490, with the guards of 'j' and 'l' made safe. */
  function NormalKey(s: State, key: byte): (t: State)
    requires Inv(s) && s.mode == Normal
    ensures Inv(t)
  {
    var n := |s.doc|;
    if key == 'h' as byte then
      if s.cx > 0 then s.(cx := s.cx - 1) else s
    else if key == 'j' as byte then
      // Departure: main.c:441 tests cy < count, letting cy reach count (MoveDownAsWritten).
      if s.cy + 1 < n then s.(cy := s.cy + 1) else s
    else if key == 'k' as byte then
      if s.cy > 0 then s.(cy := s.cy - 1) else s
    else if key == 'l' as byte then
      // Departure: main.c:449 indexes row cy unguarded and its count - 1 wraps
      // on an empty line (MoveRightAsWritten).
      if s.cy < n && s.cx + 1 < |s.doc[s.cy]| then s.(cx := s.cx + 1) else s
    else if key == 'i' as byte then
      if s.cy < n && s.cx <= |s.doc[s.cy]| then s.(mode := Insert) else s
    else if key == 'a' as byte then
      if s.cy < n && s.cx < |s.doc[s.cy]| then s.(mode := Insert, cx := s.cx + 1) else s
    else if key == 'A' as byte then
      if s.cy < n && s.cx < |s.doc[s.cy]| then s.(mode := Insert, cx := |s.doc[s.cy]|) else s
    else if key == 'o' as byte then
      OpenBelow(s)
    else if key == 'x' as byte then
      DeleteUnder(s)
    else
      s
  }

  /**
   * ENTER: the cursor row is split at the column and the cursor moves to the
   * start of the new line below; an empty line is not split, a fresh empty
   * line is inserted instead (main.c:499-511).
   */
  function BreakLine(s: State): (t: State)
    requires Inv(s) && s.mode == Insert
    ensures Inv(t) && t.mode == Insert && t.cx == 0 && t.cy == s.cy + 1 && |t.doc| == |s.doc| + 1
  {
    var line := s.doc[s.cy];
    var head, tail := if |line| != 0 then line[..s.cx] else line, if |line| != 0 then line[s.cx..] else [];
    State(0, s.cy + 1, Insert, Place(s.doc[s.cy := head], s.cy, tail))
  }

  /** BreakLine is the cut of the cursor row followed by the placement of its tail below it. */
  lemma BreakLineThrough(s: State, cut: Doc, tail: seq<byte>, t: State)
    requires Inv(s) && s.mode == Insert
    requires var line := s.doc[s.cy];
      cut == s.doc[s.cy := if |line| != 0 then line[..s.cx] else line] &&
      tail == if |line| != 0 then line[s.cx..] else []
    requires t == State(0, s.cy + 1, Insert, Place(cut, s.cy, tail))
    ensures t == BreakLine(s) && Inv(t)
  {
  }

  /**
   * BACKSPACE: at column 0 the row is joined onto the one above, the cursor
   * landing at the old end of that row; at the first row the source
   * `continue`s and nothing changes. Elsewhere the byte before the cursor is
   * deleted (main.c:512-529).
   */
  function Backspace(s: State): (t: State)
    requires Inv(s) && s.mode == Insert
    ensures Inv(t) && t.mode == Insert
  {
    if s.cx == 0 then
      if s.cy < 1 then s
      else State(|s.doc[s.cy - 1]|, s.cy - 1, Insert, Combined(s.doc, s.cy - 1, s.cy))
    else if s.cx <= |s.doc[s.cy]| then
      s.(cx := s.cx - 1, doc := s.doc[s.cy := RemoveAt(s.doc[s.cy], s.cx - 1)])
    else s
  }

  /** A printable key: inserted at the cursor, which moves past it (main.c:530-540). */
  function Type(s: State, key: byte): (t: State)
    requires Inv(s) && s.mode == Insert
    ensures Inv(t) && t.mode == Insert && |t.doc| == |s.doc|
  {
    // Departure: when cx < len, line_insert at main.c:535 loses the last byte
    // of the line (main.c:183); at cx == len it appends correctly
    // (main.c:180-181). The insertion here is the corrected one (see
    // TextLine.InsertAsWritten for the code as written).
    if s.cx <= |s.doc[s.cy]| then s.(cx := s.cx + 1, doc := s.doc[s.cy := InsertAt(s.doc[s.cy], s.cx, key)]) else s
  }

  /** The Insert-mode switch of main.c:492-541. */
  function InsertKey(s: State, key: byte): (t: State)
    requires Inv(s) && s.mode == Insert
    ensures Inv(t)
  {
    if key == ESC then
      s.(mode := Normal, cx := if s.cx > 0 then s.cx - 1 else s.cx)
    else if key == LF then
      BreakLine(s)
    else if key == DEL then
      Backspace(s)
    else if SPACE <= key <= DEL then
      // DEL itself never gets here: its own case above takes it.
      Type(s, key)
    else
      s
  }

  /**
   * One pass of the input loop for a key other than the quit key, which ends
   * the loop before any dispatch (main.c:433). The cursor invariant is kept,
   * so every entry to Insert mode leaves the column within its line.
   */
  function Next(s: State, key: byte): (t: State)
    requires Inv(s) && key != QUIT
    ensures Inv(t)
  {
    match s.mode
    case Normal => NormalKey(s, key)
    case Insert => InsertKey(s, key)
  }

  /**
   * The editor of main.c:88-93: cursor, terminal size, mode and the lines of
   * the document, which it owns.
   */
  class Editor {
    var cx: nat
    var cy: nat
    var width: nat
    var height: nat
    var mode: Mode
    var lines: Lines

    /** The part of the editor the key dispatch reads and writes. */
    ghost function Model(): State
      reads this, lines
    {
      State(cx, cy, mode, lines.Contents)
    }

    ghost predicate Valid()
      reads this, lines, lines.data
    {
      lines.Valid() && Inv(Model())
    }

    /**
     * The start-up of main (main.c:421-424): a zeroed editor loads the file's
     * bytes (editor_read_from_file) and takes the terminal's columns and rows
     * (editor_compute_size), both given here as parameters.
     */
    constructor Open(contents: seq<byte>, cols: nat, rows: nat)
      ensures Valid() && fresh(lines) && fresh(lines.data)
      ensures Model() == Opened(contents)
      ensures width == cols && height == rows
    {
      var loaded := ReadLines(contents);
      cx, cy, mode := 0, 0, Normal;
      width, height := cols, rows;
      lines := loaded;
    }

    /**
     * One pass of the input loop for a key other than the quit key
     * (main.c:434-542): the editor moves to the state Next prescribes.
     */
    method Step(key: byte)
      requires Valid() && key != QUIT
      modifies this, lines, lines.data
      ensures Valid() && Model() == Next(old(Model()), key)
      ensures lines == old(lines) && width == old(width) && height == old(height)
      ensures lines.data == old(lines.data) || fresh(lines.data)
    {
      if mode == Normal {
        NormalStep(key);
      } else {
        InsertStep(key);
      }
    }

    /** The Normal-mode switch (main.c:435-490). */
    method NormalStep(key: byte)
      requires Valid() && mode == Normal
      modifies this, lines, lines.data
      ensures Valid() && Model() == NormalKey(old(Model()), key)
      ensures lines == old(lines) && width == old(width) && height == old(height)
      ensures lines.data == old(lines.data) || fresh(lines.data)
    {
      if key == 'h' as byte {
        if cx > 0 {
          cx := cx - 1;
        }
      } else if key == 'j' as byte {
        // Departure from main.c:441, as in NormalKey.
        if cy + 1 < lines.count {
          cy := cy + 1;
        }
      } else if key == 'k' as byte {
        if cy > 0 {
          cy := cy - 1;
        }
      } else if key == 'l' as byte {
        // Departure from main.c:449, as in NormalKey.
        if cy < lines.count {
          var len := lines.LineLength(cy);
          if cx + 1 < len {
            cx := cx + 1;
          }
        }
      } else if key == 'i' as byte {
        if cy < lines.count {
          var len := lines.LineLength(cy);
          if cx <= len {
            mode := Insert;
          }
        }
      } else if key == 'a' as byte {
        if cy < lines.count {
          var len := lines.LineLength(cy);
          if cx < len {
            mode := Insert;
            cx := cx + 1;
          }
        }
      } else if key == 'A' as byte {
        if cy < lines.count {
          var len := lines.LineLength(cy);
          if cx < len {
            mode := Insert;
            cx := len;
          }
        }
      } else if key == 'o' as byte {
        OpenBelowStep();
      } else if key == 'x' as byte {
        DeleteUnderStep();
      }
    }

    method OpenBelowStep()
      requires Valid() && mode == Normal
      modifies this, lines, lines.data
      ensures Valid() && Model() == OpenBelow(old(Model()))
      ensures lines == old(lines) && width == old(width) && height == old(height)
      ensures lines.data == old(lines.data) || fresh(lines.data)
    {
      ghost var s := Model();
      if cy < lines.count {
        var line := new Line.Init();
        lines.Insert(cy, line.Contents());
        cx := 0;
        cy := cy + 1;
        mode := Insert;
        assert Model() == OpenBelow(s);
      }
    }

    method DeleteUnderStep()
      requires Valid() && mode == Normal
      modifies this, lines, lines.data
      ensures Valid() && Model() == DeleteUnder(old(Model()))
      ensures lines == old(lines) && width == old(width) && height == old(height)
      ensures lines.data == old(lines.data) || fresh(lines.data)
    {
      if cy < lines.count {
        var len := lines.LineLength(cy);
        if cx < len {
          lines.RemoveByte(cy, cx);
        }
      }
    }

    /** The Insert-mode switch (main.c:492-541). */
    method InsertStep(key: byte)
      requires Valid() && mode == Insert
      modifies this, lines, lines.data
      ensures Valid() && Model() == InsertKey(old(Model()), key)
      ensures lines == old(lines) && width == old(width) && height == old(height)
      ensures lines.data == old(lines.data) || fresh(lines.data)
    {
      if key == ESC {
        mode := Normal;
        if cx > 0 {
          cx := cx - 1;
        }
      } else if key == LF {
        BreakLineStep();
      } else if key == DEL {
        BackspaceStep();
      } else if SPACE <= key <= DEL {
        TypeStep(key);
      }
    }

    method BreakLineStep()
      requires Valid() && mode == Insert
      modifies this, lines, lines.data
      ensures Valid() && Model() == BreakLine(old(Model()))
      ensures lines == old(lines) && width == old(width) && height == old(height)
      ensures lines.data == old(lines.data) || fresh(lines.data)
    {
      // Under the cursor invariant the source's guards cy < count and
      // cy <= count (main.c:500, 502) always hold in Insert mode.
      ghost var s := Model();
      var tail := CutRow();
      ghost var cut := lines.Contents;
      lines.Insert(cy, tail);
      cy := cy + 1;
      cx := 0;
      BreakLineThrough(s, cut, tail, Model());
    }

    /** The cut of main.c:501-505: the row keeps its head, the returned fresh line holds its tail. */
    method CutRow() returns (tail: seq<byte>)
      requires Valid() && mode == Insert
      modifies lines, lines.data
      ensures lines.Valid() && lines.data == old(lines.data)
      ensures var line := old(lines.Contents[cy]);
        lines.Contents == old(lines.Contents)[cy := if |line| != 0 then line[..cx] else line] &&
        tail == if |line| != 0 then line[cx..] else []
    {
      var len := lines.LineLength(cy);
      if len != 0 {
        tail := lines.SplitRow(cy, cx);
      } else {
        var empty := new Line.Init();
        tail := empty.Contents();
      }
    }

    method BackspaceStep()
      requires Valid() && mode == Insert
      modifies this, lines, lines.data
      ensures Valid() && Model() == Backspace(old(Model()))
      ensures lines == old(lines) && width == old(width) && height == old(height)
      ensures lines.data == old(lines.data) || fresh(lines.data)
    {
      if cx == 0 {
        if cy >= 1 {
          JoinAboveStep();
        }
      } else {
        var len := lines.LineLength(cy);
        if cx <= len {
          cx := cx - 1;
          lines.RemoveByte(cy, cx);
        }
      }
    }

    /** BACKSPACE at column 0 below the first row (main.c:517-520). */
    method JoinAboveStep()
      requires Valid() && mode == Insert && cx == 0 && cy >= 1
      modifies this, lines, lines.data
      ensures Valid() && Model() == Backspace(old(Model()))
      ensures lines == old(lines) && width == old(width) && height == old(height)
      ensures lines.data == old(lines.data) || fresh(lines.data)
    {
      var lineEnd := lines.LineLength(cy - 1);
      lines.Combine(cy - 1, cy);
      cy := cy - 1;
      cx := lineEnd;
    }

    method TypeStep(key: byte)
      requires Valid() && mode == Insert
      modifies this, lines, lines.data
      ensures Valid() && Model() == Type(old(Model()), key)
      ensures lines == old(lines) && width == old(width) && height == old(height)
      ensures lines.data == old(lines.data) || fresh(lines.data)
    {
      var len := lines.LineLength(cy);
      if cx <= len {
        lines.InsertByte(cy, cx, key);
        cx := cx + 1;
      }
    }
  }

  /** The keys the input loop dispatches: those before the first quit key (main.c:433). */
  function BeforeQuit(keys: seq<byte>): (r: seq<byte>)
    ensures QUIT !in r && r <= keys
    ensures |r| < |keys| ==> keys[|r|] == QUIT
  {
    if keys == [] || keys[0] == QUIT then [] else [keys[0]] + BeforeQuit(keys[1..])
  }

  /** A prefix free of the quit key that stops at one (or at the end) is exactly what the loop dispatches. */
  lemma {:induction false} BeforeQuitPrefix(keys: seq<byte>, i: nat)
    requires i <= |keys| && QUIT !in keys[..i]
    requires i == |keys| || keys[i] == QUIT
    ensures BeforeQuit(keys) == keys[..i]
  {
    if i > 0 {
      assert keys[0] in keys[..i];
      assert keys[1..][..i - 1] == keys[..i][1..];
      BeforeQuitPrefix(keys[1..], i - 1);
      assert keys[..i] == [keys[0]] + keys[1..][..i - 1];
    }
  }

  /** The state after dispatching `keys` one after the other; the cursor invariant holds throughout. */
  function Run(s: State, keys: seq<byte>): (t: State)
    requires Inv(s) && QUIT !in keys
    ensures Inv(t)
    decreases |keys|
  {
    if keys == [] then s else Next(Run(s, keys[..|keys| - 1]), keys[|keys| - 1])
  }

  /** A freshly opened editor: cursor at the origin, Normal mode, the loaded lines (main.c:421-424). */
  function Opened(contents: seq<byte>): (s: State)
    ensures Inv(s) && |s.doc| == multiset(contents)[LF]
  {
    SplitLinesCount(contents);
    State(0, 0, Normal, SplitLines(contents))
  }

  /**
   * A file without a line feed opens as an empty document (its bytes are
   * never appended, main.c:396-404), and in that state no key other than
   * 'q' changes anything: every edit and every Insert entry needs a line.
   */
  lemma NoLineFeedOpensStuck(contents: seq<byte>, key: byte)
    requires LF !in contents && key != QUIT
    ensures Opened(contents) == State(0, 0, Normal, [])
    ensures Next(Opened(contents), key) == Opened(contents)
  {
    SplitLinesCount(contents);
    assert multiset(contents)[LF] == 0;
  }

  /** Joining the row ENTER split off gives back the state before the split. */
  lemma BreakLineThenJoin(s: State)
    requires Inv(s) && s.mode == Insert
    ensures Inv(BreakLine(s)) && BreakLine(s).mode == Insert
    ensures Backspace(BreakLine(s)) == s
  {
    var line := s.doc[s.cy];
    var head, tail := if |line| != 0 then line[..s.cx] else line, if |line| != 0 then line[s.cx..] else [];
    var cut := s.doc[s.cy := head];
    var t := BreakLine(s);
    assert t.doc == Place(cut, s.cy, tail);
    assert |t.doc| == |s.doc| + 1 && t.doc[s.cy] == head;
    CombinePlaced(cut, s.cy, tail);
    assert head + tail == line;
  }

  /** ENTER followed by BACKSPACE restores both the document and the cursor. */
  lemma EnterThenBackspace(s: State)
    requires Inv(s) && s.mode == Insert
    ensures Next(Next(s, LF), DEL) == s
  {
    BreakLineThenJoin(s);
    assert Next(s, LF) == BreakLine(s);
  }

  /**
   * The tab key (byte 9) has no case of its own in Insert mode: it reaches the
   * default case and fails the printable test of main.c:531, so it changes
   * nothing, whatever the cursor and the lines.
   */
  lemma TabIgnored(s: State)
    requires Inv(s) && s.mode == Insert
    ensures Next(s, 9) == s
  {
  }

  /** A typed byte followed by BACKSPACE restores both the document and the cursor. */
  lemma TypeThenBackspace(s: State, key: byte)
    requires Inv(s) && s.mode == Insert && SPACE <= key < DEL && key != QUIT
    ensures Next(Next(s, key), DEL) == s
  {
    var line := s.doc[s.cy];
    RemoveInsert(line, s.cx, key);
    assert s.doc[s.cy := line] == s.doc;
  }

  /** No Normal-mode key introduces a line feed into the document. */
  lemma NormalKeepsNoLF(s: State, key: byte)
    requires Inv(s) && s.mode == Normal && LinesNoLF(s.doc)
    ensures LinesNoLF(NormalKey(s, key).doc)
  {
    if key == 'o' as byte {
      if s.cy < |s.doc| {
        PlaceNoLF(s.doc, s.cy, []);
      }
    } else if key == 'x' as byte {
      if s.cy < |s.doc| && s.cx < |s.doc[s.cy]| {
        assert NoLF(RemoveAt(s.doc[s.cy], s.cx));
      }
    } else {
      assert NormalKey(s, key).doc == s.doc;
    }
  }

  /** ENTER splits a line without a line feed into two without. */
  lemma BreakLineNoLF(s: State)
    requires Inv(s) && s.mode == Insert && LinesNoLF(s.doc)
    ensures LinesNoLF(BreakLine(s).doc)
  {
    var line := s.doc[s.cy];
    var head, tail := if |line| != 0 then line[..s.cx] else line, if |line| != 0 then line[s.cx..] else [];
    assert line == head + tail;
    PlaceNoLF(s.doc[s.cy := head], s.cy, tail);
  }

  /** No Insert-mode key introduces a line feed into the document. */
  lemma InsertKeepsNoLF(s: State, key: byte)
    requires Inv(s) && s.mode == Insert && LinesNoLF(s.doc)
    ensures LinesNoLF(InsertKey(s, key).doc)
  {
    if key == LF {
      BreakLineNoLF(s);
    } else if key == DEL {
      if s.cx == 0 && s.cy >= 1 {
        CombinedNoLF(s.doc, s.cy - 1, s.cy);
      } else if s.cx != 0 && s.cx <= |s.doc[s.cy]| {
        assert NoLF(RemoveAt(s.doc[s.cy], s.cx - 1));
      }
    } else if key != ESC && SPACE <= key && s.cx <= |s.doc[s.cy]| {
      assert NoLF(InsertAt(s.doc[s.cy], s.cx, key));
    }
  }

  /** No key introduces a line feed into the document. */
  lemma NextKeepsNoLF(s: State, key: byte)
    requires Inv(s) && key != QUIT && LinesNoLF(s.doc)
    ensures LinesNoLF(Next(s, key).doc)
  {
    if s.mode == Normal {
      NormalKeepsNoLF(s, key);
    } else {
      InsertKeepsNoLF(s, key);
    }
  }

  /** The keys dispatched never introduce a line feed into the document. */
  lemma {:induction false} RunKeepsNoLF(s: State, keys: seq<byte>)
    requires Inv(s) && QUIT !in keys && LinesNoLF(s.doc)
    ensures LinesNoLF(Run(s, keys).doc)
  {
    if keys != [] {
      RunKeepsNoLF(s, keys[..|keys| - 1]);
      NextKeepsNoLF(Run(s, keys[..|keys| - 1]), keys[|keys| - 1]);
    }
  }

  /**
   * Whatever keys are pressed after opening a file, persisting the document
   * (each line followed by a line feed) and loading it again yields the same lines.
   */
  lemma EditedDocRoundTrip(contents: seq<byte>, keys: seq<byte>)
    requires QUIT !in keys
    ensures SplitLines(Join(Run(Opened(contents), keys).doc)) == Run(Opened(contents), keys).doc
  {
    SplitLinesNoLF(contents);
    RunKeepsNoLF(Opened(contents), keys);
    DocRoundTrip(Run(Opened(contents), keys).doc);
  }

  /**
   * 'j' as main.c:441 writes it: the row advances whenever it is below the
   * number of lines, so it can reach that number.
   */
  function MoveDownAsWritten(s: State): (t: State)
    ensures t.cy <= |s.doc| || t == s
  {
    if s.cy < |s.doc| then s.(cy := s.cy + 1) else s
  }

  /** On the last line, the as-written 'j' moves the cursor to a row that names no line. */
  lemma MoveDownAsWrittenLeavesDoc(s: State)
    requires Inv(s) && |s.doc| > 0 && s.cy == |s.doc| - 1
    ensures MoveDownAsWritten(s).cy == |s.doc| && !Inv(MoveDownAsWritten(s))
  {
  }

  /** 'j' moves down exactly when there is a line below, and the row always names a line. */
  lemma MoveDownStaysInDoc(s: State)
    requires Inv(s) && s.mode == Normal && |s.doc| > 0
    ensures Next(s, 'j' as byte).cy < |s.doc|
    ensures Next(s, 'j' as byte).cy == if s.cy + 1 < |s.doc| then s.cy + 1 else s.cy
  {
  }

  /** 2^64: `size_t` arithmetic is modulo this. */
  const SIZE_MOD: nat := 0x1_0000_0000_0000_0000

  /**
   * 'l' as main.c:449 writes it on a line of `len` bytes: the guard compares
   * with `len - 1` in `size_t`, which wraps to 2^64 - 1 when the line is empty.
   */
  function MoveRightAsWritten(cx: nat, len: nat): (r: nat)
    requires cx < SIZE_MOD && len < SIZE_MOD
    ensures r == cx || r == cx + 1
  {
    if cx < (len - 1) % SIZE_MOD then cx + 1 else cx
  }

  /** On an empty line the as-written 'l' moves the cursor past the line's end. */
  lemma MoveRightAsWrittenPassesEnd()
    ensures MoveRightAsWritten(0, 0) == 1
  {
  }

  /** 'l' moves right only onto a byte of the line, and leaves an empty line's cursor alone. */
  lemma MoveRightStaysOnLine(s: State)
    requires Inv(s) && s.mode == Normal && s.cy < |s.doc|
    ensures Next(s, 'l' as byte).cx == if s.cx + 1 < |s.doc[s.cy]| then s.cx + 1 else s.cx
    ensures Next(s, 'l' as byte).cx != s.cx ==> Next(s, 'l' as byte).cx < |s.doc[s.cy]|
  {
  }

  /**
   * 'A' from (3, 0) on ["abc", "def"] is refused, since the column is not
   * before the end of the line, so ENTER then reaches Normal mode and does nothing.
   */
  lemma EndOfLineRefusedAtEnd()
    ensures var s := State(3, 0, Normal, [Ascii("abc"), Ascii("def")]);
      Run(s, ['A' as byte, LF]) == s
  {
    var s := State(3, 0, Normal, [Ascii("abc"), Ascii("def")]);
    assert ['A' as byte, LF][..1] == ['A' as byte] && ['A' as byte][..0] == [];
    assert Run(s, ['A' as byte]) == Next(s, 'A' as byte) == s;
    assert Run(s, ['A' as byte, LF]) == Next(s, LF);
  }

  /** 'A' from (2, 0) then ENTER on ["abc", "def"] gives ["abc", "", "def"] with the cursor at (0, 1). */
  lemma EndOfLineThenEnter()
    ensures Run(State(2, 0, Normal, [Ascii("abc"), Ascii("def")]), ['A' as byte, LF]) ==
            State(0, 1, Insert, [Ascii("abc"), [], Ascii("def")])
  {
    var s := State(2, 0, Normal, [Ascii("abc"), Ascii("def")]);
    var t := State(3, 0, Insert, s.doc);
    assert Next(s, 'A' as byte) == t;
    assert ['A' as byte, LF][..1] == ['A' as byte] && ['A' as byte][..0] == [];
    assert Run(s, ['A' as byte]) == t;
    assert Ascii("abc")[..3] == Ascii("abc") && Ascii("abc")[3..] == [];
    assert Next(t, LF) == BreakLine(t);
    assert BreakLine(t).doc == Place(s.doc, 0, []);
  }

  /** BACKSPACE at (0, 1) on ["abc", "def"] joins the lines: ["abcdef"], cursor at (3, 0). */
  lemma BackspaceJoins()
    ensures Next(State(0, 1, Insert, [Ascii("abc"), Ascii("def")]), DEL) ==
            State(3, 0, Insert, [Ascii("abcdef")])
  {
    assert Ascii("abc") + Ascii("def") == Ascii("abcdef");
  }

  /** 'x' at (2, 0) on ["hello"] gives ["helo"] and leaves the cursor where it was. */
  lemma DeleteUnderCursor()
    ensures Next(State(2, 0, Normal, [Ascii("hello")]), 'x' as byte) == State(2, 0, Normal, [Ascii("helo")])
  {
    assert RemoveAt(Ascii("hello"), 2) == Ascii("helo");
  }

  /** Typing "hi" into a document of one empty line gives ["hi"] with the cursor at (2, 0). */
  lemma TypeIntoEmptyLine()
    ensures Run(State(0, 0, Insert, [[]]), Ascii("hi")) == State(2, 0, Insert, [Ascii("hi")])
  {
    var s := State(0, 0, Insert, [[]]);
    var keys := Ascii("hi");
    assert keys == ['h' as byte, 'i' as byte];
    assert keys[..1] == ['h' as byte] && keys[..1][..0] == [];
    var t := Next(s, 'h' as byte);
    assert InsertAt([], 0, 'h' as byte) == ['h' as byte];
    assert t == State(1, 0, Insert, [['h' as byte]]);
    assert Run(s, keys) == Next(t, 'i' as byte);
    assert InsertAt(['h' as byte], 1, 'i' as byte) == keys;
  }
}
