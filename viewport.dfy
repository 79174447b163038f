/**
 * The viewport: the scroll offsets that keep the cursor on screen, and the
 * flat snapshot of the visible text rebuilt after every key (main.c:80-86,
 * 95-142), with the input loop that drives both (main.c:433-546).
 */
module Viewports {
  import opened Bytes
  import opened Capacity
  import opened LineList
  import opened Dispatch

  /** Columns taken by the line-number sidebar (main.c:14). */
  const SIDEBAR_SZ: nat := 4
  /** Rows taken by the status bar (main.c:15). */
  const STATUS_SZ: nat := 1

  /**
   * The scroll adjustment of viewport_update along one axis (main.c:128-139):
   * the least movement of `offset` that puts `pos` inside the `extent`
   * positions starting at it.
   */
  function Follow(offset: nat, pos: nat, extent: nat): (r: nat)
    requires extent >= 1
    ensures r <= pos <= r + extent - 1
    ensures offset <= pos <= offset + extent - 1 ==> r == offset
    ensures pos < offset ==> r == pos
    ensures pos > offset + extent - 1 ==> r == pos - extent + 1
  {
    var o := if pos < offset then pos else offset;
    if pos >= o + extent - 1 then pos - extent + 1 else o
  }

  /** The byte shown in column `j` for a row holding `line`: its byte, or a space past its end (main.c:115). */
  function Cell(line: seq<byte>, j: nat): byte {
    if j < |line| then line[j] else SPACE
  }

  /** The columns `from` up to `stop` that one pass of the column loop emits (main.c:114-117). */
  function Span(from: nat, stop: nat): nat {
    if from < stop then stop - from else 0
  }

  /** The cells of columns `from` .. `stop`-1 of a row, in order. */
  function Cells(line: seq<byte>, from: nat, stop: nat): (r: seq<byte>)
    decreases stop
    ensures |r| == Span(from, stop)
  {
    if stop <= from then [] else Cells(line, from, stop - 1) + [Cell(line, stop - 1)]
  }

  /** Column `from + c` of a row shows the line's byte there, or a space past its end. */
  lemma {:induction false} CellsAt(line: seq<byte>, from: nat, stop: nat, c: nat)
    requires c < Span(from, stop)
    ensures Cells(line, from, stop)[c] == Cell(line, from + c)
    decreases stop
  {
    var before := Span(from, stop - 1);
    if c < before {
      CellsAt(line, from, stop - 1, c);
    }
  }

  /** What viewport_write emits for buffer row `i`: nothing past the buffer, else its cells and a line feed. */
  function RowText(doc: Doc, i: nat, left: nat, width: nat): seq<byte> {
    if i < |doc| then Cells(doc[i], left, width) + [LF] else []
  }

  /** The text of rows `lo` .. `hi`-1, one after the other. */
  function Rows(doc: Doc, lo: nat, hi: nat, left: nat, width: nat): seq<byte>
    decreases hi
  {
    if hi <= lo then [] else Rows(doc, lo, hi - 1, left, width) + RowText(doc, hi - 1, left, width)
  }

  /**
   * The content viewport_write leaves in the viewport (main.c:108-121). It
   * never exceeds the visible area: at most `height` blocks, each of the
   * visible columns and a line feed (Blocks is multiplication, BlocksIsProduct).
   */
  function Snapshot(doc: Doc, top: nat, left: nat, height: nat, width: nat): (r: seq<byte>)
    ensures |r| <= Blocks(height, Span(left, width) + 1)
  {
    RowsLength(doc, top, top + height, left, width);
    BlocksAtMost(Shown(|doc|, top, top + height), height, Span(left, width) + 1);
    Rows(doc, top, top + height, left, width)
  }

  /** How many of the rows `lo` .. `hi`-1 lie in a buffer of `n` lines. */
  function Shown(n: nat, lo: nat, hi: nat): nat {
    if lo < hi && lo < n then (if hi < n then hi else n) - lo else 0
  }

  /** `n` blocks of `k` bytes: n * k, built up block by block as the snapshot is. */
  function Blocks(n: nat, k: nat): nat {
    if n == 0 then 0 else Blocks(n - 1, k) + k
  }

  /** Fewer blocks take no more bytes. */
  lemma {:induction false} BlocksAtMost(n: nat, m: nat, k: nat)
    requires n <= m
    ensures Blocks(n, k) <= Blocks(m, k)
    decreases m
  {
    if n < m {
      BlocksAtMost(n, m - 1, k);
    }
  }

  /** Blocks is multiplication. */
  lemma {:induction false} BlocksIsProduct(n: nat, k: nat)
    ensures Blocks(n, k) == n * k
  {
    if n > 0 {
      BlocksIsProduct(n - 1, k);
    }
  }

  /** Extending the range of rows by one adds one shown row exactly when that row is in the buffer. */
  lemma ShownStep(n: nat, lo: nat, hi: nat)
    requires lo < hi
    ensures Shown(n, lo, hi) == Shown(n, lo, hi - 1) + (if hi - 1 < n then 1 else 0)
  {
  }

  /** Every row shown takes the visible columns plus a line feed; rows past the buffer add nothing. */
  lemma {:induction false} RowsLength(doc: Doc, lo: nat, hi: nat, left: nat, width: nat)
    ensures |Rows(doc, lo, hi, left, width)| == Blocks(Shown(|doc|, lo, hi), Span(left, width) + 1)
    decreases hi
  {
    if hi > lo {
      var m, k := Shown(|doc|, lo, hi - 1), Span(left, width) + 1;
      var front, last := Rows(doc, lo, hi - 1, left, width), RowText(doc, hi - 1, left, width);
      RowsLength(doc, lo, hi - 1, left, width);
      ShownStep(|doc|, lo, hi);
      assert |front + last| == Blocks(m, k) + |last|;
      if hi - 1 < |doc| {
        assert |last| == k;
        assert Blocks(m + 1, k) == Blocks(m, k) + k;
      }
    }
  }

  /** The text of the first rows is a prefix of the text of more rows. */
  lemma {:induction false} RowsPrefix(doc: Doc, lo: nat, mid: nat, hi: nat, left: nat, width: nat)
    requires mid <= hi
    ensures Rows(doc, lo, mid, left, width) <= Rows(doc, lo, hi, left, width)
    decreases hi
  {
    if mid < hi {
      RowsPrefix(doc, lo, mid, hi - 1, left, width);
      if lo < hi {
        assert Rows(doc, lo, hi, left, width) == Rows(doc, lo, hi - 1, left, width) + RowText(doc, hi - 1, left, width);
      }
    }
  }

  /** Rows at or past the end of the buffer add nothing to the snapshot. */
  lemma {:induction false} RowsPastBuffer(doc: Doc, lo: nat, hi: nat, left: nat, width: nat)
    requires lo <= |doc| <= hi
    ensures Rows(doc, lo, hi, left, width) == Rows(doc, lo, |doc|, left, width)
    decreases hi
  {
    if hi > |doc| {
      RowsPastBuffer(doc, lo, hi - 1, left, width);
    }
  }

  /**
   * Buffer row `lo + r`, when it is in range, follows the text of the rows
   * before it: its cells from `left`, then a line feed.
   */
  lemma RowsRow(doc: Doc, lo: nat, hi: nat, left: nat, width: nat, r: nat)
    requires lo + r < hi && lo + r < |doc|
    ensures |Rows(doc, lo, lo + r, left, width)| + Span(left, width) + 1 <= |Rows(doc, lo, hi, left, width)|
    ensures Rows(doc, lo, hi, left, width)[|Rows(doc, lo, lo + r, left, width)| ..
                                          |Rows(doc, lo, lo + r, left, width)| + Span(left, width) + 1]
            == Cells(doc[lo + r], left, width) + [LF]
  {
    var before, upto := Rows(doc, lo, lo + r, left, width), Rows(doc, lo, lo + r + 1, left, width);
    var row := Cells(doc[lo + r], left, width) + [LF];
    assert upto == before + row;
    RowsPrefix(doc, lo, lo + r + 1, hi, left, width);
    var all := Rows(doc, lo, hi, left, width);
    assert all[..|upto|] == upto;
    assert all[|before| .. |upto|] == upto[|before|..] == row;
  }

  /** The snapshot holds one block of visible-columns-plus-one bytes per buffer row in view. */
  lemma SnapshotShape(doc: Doc, top: nat, left: nat, height: nat, width: nat)
    ensures |Snapshot(doc, top, left, height, width)| == Shown(|doc|, top, top + height) * (Span(left, width) + 1)
    ensures top + height >= |doc| >= top ==>
      Snapshot(doc, top, left, height, width) == Rows(doc, top, |doc|, left, width)
  {
    RowsLength(doc, top, top + height, left, width);
    BlocksIsProduct(Shown(|doc|, top, top + height), Span(left, width) + 1);
    if top + height >= |doc| >= top {
      RowsPastBuffer(doc, top, top + height, left, width);
    }
  }

  /**
   * Screen row `r`, when it shows a buffer line, is the `r`-th block of
   * visible-columns-plus-one bytes of the snapshot (it starts at byte
   * Blocks(r, k), that is r * k): the cells of columns left up to width of
   * line top + r, then a line feed.
   */
  lemma SnapshotRow(doc: Doc, top: nat, left: nat, height: nat, width: nat, r: nat)
    requires r < height && top + r < |doc|
    ensures Blocks(r + 1, Span(left, width) + 1) <= |Snapshot(doc, top, left, height, width)|
    ensures Snapshot(doc, top, left, height, width)[Blocks(r, Span(left, width) + 1) .. Blocks(r + 1, Span(left, width) + 1)]
            == Cells(doc[top + r], left, width) + [LF]
  {
    RowsRow(doc, top, top + height, left, width, r);
    RowsLength(doc, top, top + r, left, width);
    assert Shown(|doc|, top, top + r) == r;
  }

  /** A viewport scrolled to `left` at or past `width` shows only a line feed per row. */
  lemma NoColumnsPastWidth(line: seq<byte>, left: nat, width: nat)
    requires width <= left
    ensures Cells(line, left, width) == []
  {
  }

  /** The viewport of main.c:80-86: scroll offsets, size, and the snapshot buffer it rebuilds. */
  class Viewport {
    var top: nat
    var left: nat
    var height: nat
    var width: nat
    var count: nat
    var capacity: nat
    var content: array<byte>

    ghost predicate Valid()
      reads this
    {
      capacity == content.Length && count <= capacity && OnSchedule(capacity)
    }

    /** The bytes of the snapshot. */
    ghost function Contents(): seq<byte>
      reads this, content
      requires Valid()
    {
      content[..count]
    }

    /** A zeroed viewport, as main declares it (main.c:422). */
    constructor Init()
      ensures Valid() && fresh(content) && Contents() == []
      ensures top == 0 && left == 0 && height == 0 && width == 0
    {
      top, left, height, width := 0, 0, 0, 0;
      count, capacity := 0, 0;
      content := new byte[0];
    }

    /** viewport_insert: appends one byte, growing the buffer by the shared policy when full (main.c:95-106). */
    method Insert(c: byte)
      requires Valid()
      modifies this, content
      ensures Valid() && Contents() == old(Contents()) + [c]
      ensures capacity == if old(count) < old(capacity) then old(capacity) else Grow(old(capacity))
      ensures content == old(content) || fresh(content)
      ensures top == old(top) && left == old(left) && height == old(height) && width == old(width)
    {
      if capacity < count + 1 {
        GrowOnSchedule(capacity);
        var grown := new byte[Grow(capacity)];
        forall i | 0 <= i < count {
          grown[i] := content[i];
        }
        content, capacity := grown, Grow(capacity);
      }
      content[count] := c;
      count := count + 1;
    }

    /**
     * The column loop of viewport_write for one row (main.c:114-117): the
     * cells of columns left up to width, a space past the line's end.
     */
    method WriteRow(line: seq<byte>)
      requires Valid()
      modifies this, content
      ensures Valid() && Contents() == old(Contents()) + Cells(line, left, width)
      ensures content == old(content) || fresh(content)
      ensures top == old(top) && left == old(left) && height == old(height) && width == old(width)
    {
      var j := left;
      while j < width
        invariant j == left || left <= j <= width
        invariant Valid() && (content == old(content) || fresh(content))
        invariant top == old(top) && left == old(left) && height == old(height) && width == old(width)
        invariant Contents() == old(Contents()) + Cells(line, left, j)
      {
        var c := if j < |line| then line[j] else SPACE;
        Insert(c);
        j := j + 1;
      }
    }

    /**
     * viewport_write: clears the snapshot and, for every row from top up to
     * top + height that names a line, emits the cells of columns left up to
     * width and a line feed (main.c:108-121).
     */
    method Write(lines: Lines)
      requires Valid() && lines.Valid()
      modifies this, content
      ensures Valid() && Contents() == Snapshot(lines.Contents, top, left, height, width)
      ensures content == old(content) || fresh(content)
      ensures top == old(top) && left == old(left) && height == old(height) && width == old(width)
    {
      count := 0;
      var i := top;
      while i < top + height
        invariant top <= i <= top + height
        invariant Valid() && (content == old(content) || fresh(content))
        invariant top == old(top) && left == old(left) && height == old(height) && width == old(width)
        invariant Contents() == Rows(lines.Contents, top, i, left, width)
      {
        PutRow(lines, i);
        i := i + 1;
      }
    }

    /** One pass of the row loop of viewport_write: row `i`, if it names a line, and a line feed (main.c:111-119). */
    method PutRow(lines: Lines, i: nat)
      requires Valid() && lines.Valid()
      modifies this, content
      ensures Valid() && Contents() == old(Contents()) + RowText(lines.Contents, i, left, width)
      ensures content == old(content) || fresh(content)
      ensures top == old(top) && left == old(left) && height == old(height) && width == old(width)
    {
      if i < lines.count {
        var line := lines.data[i];
        assert lines.data[..lines.count][i] == line;
        WriteRow(line);
        Insert(LF);
      }
    }

    /**
     * viewport_update: takes its size from the terminal's, minus the sidebar
     * and the status bar, scrolls so the cursor is inside, and rewrites the
     * snapshot (main.c:123-142). A terminal narrower than the sidebar or
     * shorter than the status bar makes the size wrap in the source, hence
     * the precondition.
     */
    method Update(e: Editor)
      requires Valid() && e.Valid()
      requires e.width > SIDEBAR_SZ && e.height > STATUS_SZ
      modifies this, content
      ensures Valid() && (content == old(content) || fresh(content))
      ensures width == e.width - SIDEBAR_SZ && height == e.height - STATUS_SZ
      ensures left == Follow(old(left), e.cx, width) && top == Follow(old(top), e.cy, height)
      ensures Contents() == Snapshot(e.lines.Contents, top, left, height, width)
    {
      width := e.width - SIDEBAR_SZ;
      height := e.height - STATUS_SZ;
      Scroll(e.cx, e.cy);
      Write(e.lines);
    }

    /** The scroll adjustment of viewport_update for a cursor at column cx, row cy (main.c:128-139). */
    method Scroll(cx: nat, cy: nat)
      requires width >= 1 && height >= 1
      modifies this
      ensures width == old(width) && height == old(height)
      ensures left == Follow(old(left), cx, width) && top == Follow(old(top), cy, height)
      ensures count == old(count) && capacity == old(capacity) && content == old(content)
    {
      if cx < left {
        left := cx;
      }
      if cx >= left + width - 1 {
        left := cx - width + 1;
      }
      // The row test is written `<=` where the column test has `<`; both give Follow.
      if cy <= top {
        top := cy;
      }
      if cy >= top + height - 1 {
        top := cy - height + 1;
      }
    }
  }

  /** A valid editor and a valid viewport, on a terminal large enough for both bars. */
  ghost predicate Ready(e: Editor, v: Viewport)
    reads e, e.lines, e.lines.data, v
  {
    e.Valid() && v.Valid() &&
    e.width > SIDEBAR_SZ && e.height > STATUS_SZ
  }

  /**
   * The viewport is sized to the terminal, its offsets hold the cursor, and
   * its content is the Snapshot of the buffer at those offsets. Because the
   * column loop stops at `width` (main.c:114), the cursor's column itself is
   * in that snapshot only while cx < width.
   */
  ghost predicate InView(e: Editor, v: Viewport)
    reads e, e.lines, e.lines.data, v, v.content
    requires Ready(e, v)
  {
    v.width == e.width - SIDEBAR_SZ && v.height == e.height - STATUS_SZ &&
    v.left <= e.cx <= v.left + v.width - 1 && v.top <= e.cy <= v.top + v.height - 1 &&
    v.Contents() == Snapshot(e.lines.Contents, v.top, v.left, v.height, v.width)
  }

  /** One pass of the input loop for a key other than the quit key: dispatch, then redraw (main.c:434-545). */
  method Pass(e: Editor, v: Viewport, key: byte)
    requires Ready(e, v) && key != QUIT
    modifies e, e.lines, e.lines.data, v, v.content
    ensures Ready(e, v) && InView(e, v) && e.Model() == Next(old(e.Model()), key)
    ensures e.lines == old(e.lines) && e.width == old(e.width) && e.height == old(e.height)
    ensures e.lines.data == old(e.lines.data) || fresh(e.lines.data)
    ensures v.content == old(v.content) || fresh(v.content)
  {
    e.Step(key);
    v.Update(e);
  }

  /**
   * main from the start-up viewport_update on (main.c:425-546), terminal
   * I/O aside: the viewport is brought up to date, then each key up to the
   * first quit key is dispatched and the viewport brought up to date again.
   * Afterwards the editor is in the state Run prescribes, the viewport's
   * offsets hold the cursor and its content is the Snapshot at them.
   */
  method Session(e: Editor, v: Viewport, keys: seq<byte>)
    requires Ready(e, v)
    modifies e, e.lines, e.lines.data, v, v.content
    ensures Ready(e, v) && InView(e, v)
    ensures e.Model() == Run(old(e.Model()), BeforeQuit(keys))
  {
    ghost var s0 := e.Model();
    v.Update(e);
    var i := 0;
    while i < |keys| && keys[i] != QUIT
      invariant i <= |keys| && QUIT !in keys[..i]
      invariant Ready(e, v) && InView(e, v) && e.Model() == Run(s0, keys[..i])
      invariant e.lines == old(e.lines) && (e.lines.data == old(e.lines.data) || fresh(e.lines.data))
      invariant v.content == old(v.content) || fresh(v.content)
    {
      assert keys[..i + 1][..i] == keys[..i];
      ghost var before := e.Model();
      Pass(e, v, keys[i]);
      assert e.Model() == Next(before, keys[i]) == Run(s0, keys[..i + 1]);
      i := i + 1;
    }
    BeforeQuitPrefix(keys, i);
  }
}
