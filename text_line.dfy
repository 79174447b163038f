/** The growable byte buffer holding one line of text (main.c:68-72, 144-227). */
module TextLine {
  import opened Bytes
  import opened Capacity
  import opened Seqs

  /**
   * A line: `count` bytes in use at the front of `data`, whose length is the
   * `capacity`. Storage is reallocated when full; it never shrinks.
   */
  class Line {
    var data: array<byte>
    var count: nat
    var capacity: nat

    ghost predicate Valid()
      reads this
    {
      capacity == data.Length && count <= capacity
    }

    /** The bytes of the line. */
    function Contents(): seq<byte>
      reads this, data
      requires Valid()
    {
      data[..count]
    }

    /** line_init: an empty line that owns no storage yet (main.c:144-148). */
    constructor Init()
      ensures Valid() && fresh(data)
      ensures Contents() == [] && capacity == 0
    {
      data := new byte[0];
      count, capacity := 0, 0;
    }

    /** A line holding exactly `s` in storage of exactly |s| bytes, as line_split_at builds it (main.c:207-218). */
    constructor FromBytes(s: seq<byte>)
      ensures Valid() && fresh(data)
      ensures Contents() == s && capacity == |s|
    {
      data := new byte[|s|](i requires 0 <= i < |s| => s[i]);
      count, capacity := |s|, |s|;
    }

    /** realloc to storage of exactly `n` bytes, keeping the bytes in use (main.c:154, 300). */
    method Realloc(n: nat)
      requires Valid() && count <= n
      modifies this
      ensures Valid() && fresh(data)
      ensures capacity == n && count == old(count)
      ensures Contents() == old(Contents())
    {
      var grown := new byte[n];
      forall i | 0 <= i < count {
        grown[i] := data[i];
      }
      data, capacity := grown, n;
    }

    /** Makes room for one more byte, growing by the shared policy when full (main.c:152-159, 171-178). */
    method Reserve()
      requires Valid()
      modifies this
      ensures Valid() && count < capacity
      ensures count == old(count) && Contents() == old(Contents())
      ensures capacity == if old(count) < old(capacity) then old(capacity) else Grow(old(capacity))
      ensures data == old(data) || fresh(data)
    {
      if capacity < count + 1 {
        Realloc(Grow(capacity));
      }
    }

    /** line_append: adds `c` at the end (main.c:150-162). */
    method Append(c: byte)
      requires Valid()
      modifies this, data
      ensures Valid() && (data == old(data) || fresh(data))
      ensures Contents() == old(Contents()) + [c]
      ensures capacity == if old(count) < old(capacity) then old(capacity) else Grow(old(capacity))
    {
      Reserve();
      data[count] := c;
      count := count + 1;
    }

    /**
     * line_insert: places `c` at `pos`, shifting the bytes from `pos` on one
     * slot right; `pos == count` is an append (main.c:164-187). A position
     * past the end makes the source exit, hence the precondition.
     */
    method Insert(pos: nat, c: byte)
      requires Valid() && pos <= count
      modifies this, data
      ensures Valid() && (data == old(data) || fresh(data))
      ensures Contents() == InsertAt(old(Contents()), pos, c)
      ensures capacity == if old(count) < old(capacity) then old(capacity) else Grow(old(capacity))
    {
      Reserve();
      Store(pos, c);
      count := count + 1;
    }

    /**
     * The byte moves of line_insert once there is room: `c` is stored at the
     * end, or the bytes from `pos` on move up one slot and `c` is stored at
     * `pos` (main.c:180-186).
     */
    method Store(pos: nat, c: byte)
      requires pos <= count < data.Length
      modifies data
      ensures data[..count + 1] == InsertAt(old(data[..count]), pos, c)
    {
      if pos == count {
        data[count] := c;
      } else {
        // Departure: main.c:183 moves count-pos-1 bytes and so loses the last
        // byte (see InsertAsWritten); here the whole tail, count-pos bytes, moves.
        forall i | pos < i <= count {
          data[i] := data[i - 1];
        }
        data[pos] := c;
      }
    }

    /** line_remove: drops the byte at `pos`, shifting the rest one slot left (main.c:189-198). */
    method Remove(pos: nat)
      requires Valid() && pos < count
      modifies this, data
      ensures Valid() && data == old(data) && capacity == old(capacity)
      ensures Contents() == RemoveAt(old(Contents()), pos)
    {
      forall i | pos <= i < count - 1 {
        data[i] := data[i + 1];
      }
      count := count - 1;
    }

    /**
     * The byte-copying half of lines_combine: the bytes of `other` are added
     * at the end, after growing to exactly the joint length when the storage
     * is too small (main.c:297-308). `other` may be this very line.
     */
    method AppendAll(other: Line)
      requires Valid() && other.Valid()
      modifies this, data
      ensures Valid() && (data == old(data) || fresh(data))
      ensures Contents() == old(Contents()) + old(other.Contents())
      ensures capacity == if old(count) + old(other.count) > old(capacity)
                          then old(count) + old(other.count) else old(capacity)
    {
      var n := count + other.count;
      if n > capacity {
        // main.c:300 asks for sizeof(Line) bytes per byte; only the size n matters.
        Realloc(n);
      }
      forall i | 0 <= i < other.count {
        data[count + i] := other.data[i];
      }
      count := n;
    }

    /**
     * line_split_at: truncates the line to its first `pos` bytes and returns a
     * new line holding the rest (main.c:200-222).
     */
    method SplitAt(pos: nat) returns (tail: Line)
      requires Valid() && pos <= count
      modifies this
      ensures Valid() && data == old(data) && capacity == old(capacity)
      ensures fresh(tail) && fresh(tail.data) && tail.Valid()
      ensures Contents() == old(Contents())[..pos]
      ensures tail.Contents() == old(Contents())[pos..]
      ensures Contents() + tail.Contents() == old(Contents())
      ensures tail.capacity == old(count) - pos
    {
      tail := new Line.FromBytes(data[pos..count]);
      count := pos;
    }
  }

  /**
   * The first `count + 1` bytes of a buffer after line_insert(pos, c) with
   * pos < count, as main.c:183 is written: the memmove shifts count-pos-1
   * bytes, so old byte count-1 is overwritten and the slot at `count` keeps
   * whatever stale byte `buf[count]` held. `buf` is the whole storage after
   * the growth step, so |buf| > count.
   */
  function InsertAsWritten(buf: seq<byte>, count: nat, pos: nat, c: byte): (r: seq<byte>)
    requires pos < count < |buf|
    ensures |r| == count + 1 && r[pos] == c
    ensures r[count] == buf[count]
  {
    buf[..pos] + [c] + buf[pos..count - 1] + [buf[count]]
  }

  /**
   * The as-written insert agrees with the intended one exactly when the stale
   * byte past the end happens to equal the line's last byte.
   */
  lemma InsertAsWrittenAgreesIff(buf: seq<byte>, count: nat, pos: nat, c: byte)
    requires pos < count < |buf|
    ensures InsertAsWritten(buf, count, pos, c) == InsertAt(buf[..count], pos, c)
            <==> buf[count] == buf[count - 1]
  {
    var r, s := InsertAsWritten(buf, count, pos, c), InsertAt(buf[..count], pos, c);
    if buf[count] == buf[count - 1] {
      forall i | 0 <= i < |r|
        ensures r[i] == s[i]
      {
        if pos < i < count {
          assert r[i] == buf[i - 1];
        }
      }
    } else {
      assert r[count] != s[count];
    }
  }

  /** Inserting 'x' at the front of "ab": the source leaves "xa" and a stale byte, not "xab". */
  lemma InsertAsWrittenLosesByte()
    ensures InsertAsWritten(['a' as byte, 'b' as byte, 0], 2, 0, 'x' as byte)
            != InsertAt(['a' as byte, 'b' as byte], 0, 'x' as byte)
  {
    assert InsertAsWritten(['a' as byte, 'b' as byte, 0], 2, 0, 'x' as byte)[2] == 0;
  }
}
