/** The ordered, growable array of lines that makes up the document (main.c:74-78, 229-318). */
module LineList {
  import opened Bytes
  import opened Capacity
  import opened Seqs

  /** A document: the bytes of each line, in order. */
  type Doc = seq<seq<byte>>

  /** The slot where lines_insert(pos, l) puts its line: after `pos`, or at the end. */
  function Landing(count: nat, pos: nat): (k: nat)
    requires pos <= count
    ensures k <= count
  {
    if pos < count then pos + 1 else pos
  }

  /**
   * lines_insert as written (main.c:266-271): the new line lands right after
   * slot `pos` when `pos` names a line, at the end when `pos == count`; all
   * other lines keep their relative order.
   */
  function Place(doc: Doc, pos: nat, l: seq<byte>): (r: Doc)
    requires pos <= |doc|
    ensures |r| == |doc| + 1
    ensures pos < |doc| ==> r[pos + 1] == l && r[pos] == doc[pos]
    ensures pos == |doc| ==> r[|doc|] == l
    ensures RemoveAt(r, Landing(|doc|, pos)) == doc
  {
    if pos == |doc| then doc + [l] else doc[..pos + 1] + [l] + doc[pos + 1..]
  }

  /** Place is insertion at the landing slot. */
  lemma PlaceInserts(doc: Doc, pos: nat, l: seq<byte>)
    requires pos <= |doc|
    ensures Place(doc, pos, l) == InsertAt(doc, Landing(|doc|, pos), l)
  {
  }

  /**
   * lines_combine(a, b): line `a` becomes old `a` followed by old `b`, then
   * slot `b` is removed (main.c:288-310).
   */
  function Combined(doc: Doc, a: nat, b: nat): (r: Doc)
    requires a < |doc| && b < |doc|
    ensures |r| == |doc| - 1
    ensures a < b ==> r[a] == doc[a] + doc[b]
  {
    RemoveAt(doc[a := doc[a] + doc[b]], b)
  }

  /** Joining adjacent lines: line `a` is old `a` ++ old `a+1`, later lines move down one slot. */
  lemma CombinedAdjacent(doc: Doc, a: nat)
    requires a + 1 < |doc|
    ensures Combined(doc, a, a + 1) == doc[..a] + [doc[a] + doc[a + 1]] + doc[a + 2..]
  {
    var r, s := Combined(doc, a, a + 1), doc[..a] + [doc[a] + doc[a + 1]] + doc[a + 2..];
    assert |r| == |s|;
    forall i | 0 <= i < |r|
      ensures r[i] == s[i]
    {
      if i > a {
        assert r[i] == doc[i + 1];
      }
    }
  }

  /** Inserting a line after slot `pos`, then joining it onto that slot, appends it to slot `pos`. */
  lemma CombinePlaced(doc: Doc, pos: nat, l: seq<byte>)
    requires pos < |doc|
    ensures Combined(Place(doc, pos, l), pos, pos + 1) == doc[pos := doc[pos] + l]
  {
    var placed := Place(doc, pos, l);
    CombinedAdjacent(placed, pos);
    assert placed[..pos] == doc[..pos];
    assert placed[pos + 2..] == doc[pos + 1..];
  }

  /** No line of `doc` holds a line feed. */
  predicate LinesNoLF(doc: Doc) {
    forall k :: 0 <= k < |doc| ==> NoLF(doc[k])
  }

  /** Inserting a line without a line feed keeps every line free of them. */
  lemma PlaceNoLF(doc: Doc, pos: nat, l: seq<byte>)
    requires pos <= |doc| && LinesNoLF(doc) && NoLF(l)
    ensures LinesNoLF(Place(doc, pos, l))
  {
    PlaceInserts(doc, pos, l);
  }

  /** Joining two lines without line feeds gives none either. */
  lemma CombinedNoLF(doc: Doc, a: nat, b: nat)
    requires a < |doc| && b < |doc| && LinesNoLF(doc)
    ensures LinesNoLF(Combined(doc, a, b))
  {
    assert NoLF(doc[a] + doc[b]);
  }

  class Lines {
    /**
     * The slots. main.c copies Line structs by value into and out of its
     * slots, so each slot is modelled as the value it holds: a line's bytes.
     */
    var data: array<seq<byte>>
    var count: nat
    var capacity: nat
    /** The lines in slots 0 .. count-1. */
    ghost var Contents: Doc

    ghost predicate Valid()
      reads this, data
    {
      capacity == data.Length && count <= capacity && OnSchedule(capacity) &&
      Contents == data[..count]
    }

    /** lines_init: no lines and no storage (main.c:229-234). */
    constructor Init()
      ensures Valid() && fresh(data)
      ensures Contents == [] && capacity == 0
    {
      data := new seq<byte>[0];
      count, capacity := 0, 0;
      Contents := [];
    }

    /** Makes room for one more slot, growing by the shared policy when full (main.c:238-245, 257-264). */
    method Reserve()
      requires Valid()
      modifies this
      ensures Valid() && count < capacity
      ensures count == old(count) && Contents == old(Contents)
      ensures capacity == if old(count) < old(capacity) then old(capacity) else Grow(old(capacity))
      ensures data == old(data) || fresh(data)
    {
      if capacity < count + 1 {
        GrowOnSchedule(capacity);
        var grown := new seq<byte>[Grow(capacity)];
        forall i | 0 <= i < count {
          grown[i] := data[i];
        }
        data, capacity := grown, Grow(capacity);
      }
    }

    /** lines_append: `line` becomes the last line (main.c:236-248). */
    method Append(line: seq<byte>)
      requires Valid()
      modifies this, data
      ensures Valid() && Contents == old(Contents) + [line]
      ensures data == old(data) || fresh(data)
    {
      Reserve();
      data[count] := line;
      count := count + 1;
      Contents := Contents + [line];
    }

    /**
     * lines_insert: `line` lands right after slot `pos`, or at the end when
     * `pos == count`; the lines after `pos` move up one slot
     * (main.c:250-273). A position past the end makes the source exit,
     * hence the precondition.
     */
    method Insert(pos: nat, line: seq<byte>)
      requires Valid() && pos <= count
      modifies this, data
      ensures Valid() && Contents == Place(old(Contents), pos, line)
      ensures data == old(data) || fresh(data)
    {
      Reserve();
      PlaceInserts(Contents, pos, line);
      PutLine(pos, line);
      count := count + 1;
      Contents := Place(Contents, pos, line);
    }

    /**
     * The slot moves of lines_insert once there is room: the line is stored
     * at the end, or the lines after `pos` move up one slot and the line is
     * stored after `pos` (main.c:266-271).
     */
    method PutLine(pos: nat, line: seq<byte>)
      requires pos <= count < data.Length
      modifies data
      ensures data[..count + 1] == InsertAt(old(data[..count]), Landing(count, pos), line)
    {
      if pos == count {
        data[count] := line;
      } else {
        forall i | pos < i <= count {
          data[i] := data[i - 1];
        }
        data[pos + 1] := line;
      }
    }

    /**
     * lines_remove: drops the line in slot `pos`; later lines move down one
     * slot (main.c:275-286). A position past the end makes the source exit.
     */
    method Remove(pos: nat)
      requires Valid() && pos < count
      modifies this, data
      ensures Valid() && Contents == RemoveAt(old(Contents), pos)
      ensures data == old(data) && capacity == old(capacity)
    {
      // Departure: main.c:283 shifts count-pos-1 bytes rather than that many
      // Lines, and main.c:284 then frees the storage of the line shifted into
      // slot pos. Both are modelled by their evident intent: slot pos is
      // dropped and every later line moves down intact.
      forall i | pos <= i < count - 1 {
        data[i] := data[i + 1];
      }
      count := count - 1;
      Contents := RemoveAt(Contents, pos);
    }

    /**
     * lines_combine(a, b): appends the bytes of line `b` to line `a`, then
     * removes slot `b` (main.c:288-310). An index past the end makes the
     * source exit.
     */
    method Combine(a: nat, b: nat)
      requires Valid() && a < count && b < count
      modifies this, data
      ensures Valid() && Contents == Combined(old(Contents), a, b)
      ensures data == old(data) && capacity == old(capacity)
    {
      data[a] := data[a] + data[b];
      Contents := Contents[a := data[a]];
      Remove(b);
    }

    /** lines.data[row].count, as the key dispatch reads it. */
    method LineLength(row: nat) returns (n: nat)
      requires Valid() && row < count
      ensures n == |Contents[row]|
    {
      n := |data[row]|;
    }

    /**
     * line_insert on the line in slot `row`, as the key dispatch applies it
     * through &lines.data[row] (main.c:533-535).
     */
    method InsertByte(row: nat, pos: nat, c: byte)
      requires Valid() && row < count && pos <= |Contents[row]|
      modifies this, data
      ensures Valid() && Contents == old(Contents)[row := InsertAt(old(Contents)[row], pos, c)]
      ensures data == old(data) && capacity == old(capacity)
    {
      // Departure: when pos < count, main.c:183 moves count-pos-1 bytes and so
      // loses the last byte of the line; the insertion here is the corrected one (see
      // TextLine.InsertAsWritten for the code as written).
      data[row] := InsertAt(data[row], pos, c);
      Contents := Contents[row := data[row]];
    }

    /**
     * line_remove on the line in slot `row`, as the key dispatch applies it
     * through &lines.data[row] (main.c:483-485, 522-525).
     */
    method RemoveByte(row: nat, pos: nat)
      requires Valid() && row < count && pos < |Contents[row]|
      modifies this, data
      ensures Valid() && Contents == old(Contents)[row := RemoveAt(old(Contents)[row], pos)]
      ensures data == old(data) && capacity == old(capacity)
    {
      data[row] := RemoveAt(data[row], pos);
      Contents := Contents[row := data[row]];
    }

    /**
     * line_split_at on the line in slot `row`: the line keeps its first `pos`
     * bytes and the rest is returned as a new line (main.c:501-505).
     */
    method SplitRow(row: nat, pos: nat) returns (tail: seq<byte>)
      requires Valid() && row < count && pos <= |Contents[row]|
      modifies this, data
      ensures Valid() && Contents == old(Contents)[row := old(Contents)[row][..pos]]
      ensures tail == old(Contents)[row][pos..]
      ensures old(Contents)[row] == Contents[row] + tail
      ensures data == old(data) && capacity == old(capacity)
    {
      var line := data[row];
      tail := line[pos..];
      data[row] := line[..pos];
      Contents := Contents[row := data[row]];
    }
  }
}
