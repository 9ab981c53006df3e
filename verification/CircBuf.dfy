/** The circular buffer (RageUtil_CircularBuffer.h) with blocks of one element, as one thread sees it. */
module CircBuf {
  import opened Bytes

  /** A position moved on, with wrap-around. */
  function Advanced(pos: nat, n: nat, size: nat): (r: nat)
    requires pos < size && n <= size
    ensures r == if pos + n < size then pos + n else pos + n - size
  {
    WrapOnce(pos + n, size);
    (pos + n) % size
  }

  /** The cell that lies `i` behind `pos`. */
  function Cell(pos: nat, i: nat, size: nat): (c: nat)
    requires pos < size && i <= size
    ensures i < size ==> c < size
  {
    if pos + i < size then pos + i else pos + i - size
  }

  lemma WrapOnce(x: nat, size: nat)
    requires 0 < size && x < 2 * size
    ensures x % size == if x < size then x else x - size
  {
    if x >= size {
      assert x == size * 1 + (x - size);
    }
  }

  lemma AdvancedIs(pos: nat, n: nat, size: nat)
    requires pos < size && n < size
    ensures Advanced(pos, n, size) == Cell(pos, n, size)
  {
    WrapOnce(pos + n, size);
  }

  /** How many elements lie between two positions. */
  function Distance(from: nat, to: nat, size: nat): (d: nat)
    requires from < size && to < size
    ensures d < size
  {
    if from <= to then to - from else size - (from - to)
  }

  /** The elements from `pos` on. */
  function Elements(buf: seq<byte>, pos: nat, n: nat): (s: Data)
    requires pos < |buf| && n <= |buf|
    ensures |s| == n
  {
    seq(n, i requires 0 <= i < n => buf[Cell(pos, i, |buf|)])
  }

  /** The two stretches of free cells, or of filled ones: where the first starts, and their lengths. The second
      starts at cell 0. */
  datatype Stretches = Stretches(start: nat, size0: nat, size1: nat)
  {
    function Total(): nat
    {
      size0 + size1
    }
  }

  function WriteStretches(rpos: nat, wpos: nat, size: nat): (s: Stretches)
    requires rpos < size && wpos < size
    ensures s.start == wpos && s.Total() == size - 1 - Distance(rpos, wpos, size)
    ensures forall i :: 0 <= i < s.Total() ==> (if i < s.size0 then wpos + i else i - s.size0) == Cell(wpos, i, size)
  {
    var size0 := if rpos <= wpos then size - wpos else rpos - wpos;
    var size1 := if rpos <= wpos then rpos else 0;
    if size1 != 0 then Stretches(wpos, size0, size1 - 1) else Stretches(wpos, size0 - 1, 0)
  }

  function ReadStretches(rpos: nat, wpos: nat, size: nat): (s: Stretches)
    requires rpos < size && wpos < size
    ensures s.start == rpos && s.Total() == Distance(rpos, wpos, size)
    ensures forall i :: 0 <= i < s.Total() ==> (if i < s.size0 then rpos + i else i - s.size0) == Cell(rpos, i, size)
  {
    if rpos <= wpos then Stretches(rpos, wpos - rpos, 0) else Stretches(rpos, size - rpos, wpos)
  }

  function Min(a: nat, b: nat): nat
  {
    if a < b then a else b
  }

  /** Overwriting the cells behind the elements appends to them. */
  lemma AppendedElements(before: seq<byte>, after: seq<byte>, rpos: nat, wpos: nat, data: Data)
    requires |before| == |after| && rpos < |before| && wpos < |before|
    requires Distance(rpos, wpos, |before|) + |data| < |before|
    requires forall i :: 0 <= i < |before| ==>
               after[Cell(wpos, i, |before|)] == if i < |data| then data[i] else before[Cell(wpos, i, |before|)]
    ensures var d := Distance(rpos, wpos, |before|);
            && Distance(rpos, Cell(wpos, |data|, |before|), |before|) == d + |data|
            && Elements(after, rpos, d + |data|) == Elements(before, rpos, d) + data
  {
    var size := |before|;
    var d := Distance(rpos, wpos, size);
    forall i | 0 <= i < d + |data|
      ensures after[Cell(rpos, i, size)] == if i < d then before[Cell(rpos, i, size)] else data[i - d]
    {
      var k := if i < d then size - d + i else i - d;
      assert Cell(rpos, i, size) == Cell(wpos, k, size);
    }
  }

  /** Overwriting the first cells takes the elements in them away. */
  lemma RemainingElements(before: seq<byte>, after: seq<byte>, rpos: nat, wpos: nat, n: nat)
    requires |before| == |after| && rpos < |before| && wpos < |before| && n <= Distance(rpos, wpos, |before|)
    requires forall i :: n <= i < |before| ==> after[Cell(rpos, i, |before|)] == before[Cell(rpos, i, |before|)]
    ensures var d := Distance(rpos, wpos, |before|);
            && Distance(Cell(rpos, n, |before|), wpos, |before|) == d - n
            && Elements(after, Cell(rpos, n, |before|), d - n) == Elements(before, rpos, d)[n..]
  {
    var size := |before|;
    var d := Distance(rpos, wpos, size);
    forall i | 0 <= i < d - n
      ensures after[Cell(Cell(rpos, n, size), i, size)] == before[Cell(rpos, n + i, size)]
    {
      assert Cell(Cell(rpos, n, size), i, size) == Cell(rpos, n + i, size);
    }
  }

  class CircBuf {
    var buf: array<byte>
    var size: nat
    var readPos: nat
    var writePos: nat

    ghost predicate Valid()
      reads this
    {
      buf.Length == size && readPos < size && writePos < size
    }

    ghost function Contents(): (s: Data)
      requires Valid()
      reads this, buf
    {
      Elements(buf[..], readPos, Distance(readPos, writePos, size))
    }

    /** A buffer for up to `n` elements: one cell more, so that full and empty differ. */
    constructor (n: nat)
      requires n > 0
      ensures Valid() && fresh(buf) && size == n + 1 && Contents() == []
    {
      size, readPos, writePos := n + 1, 0, 0;
      buf := new byte[n + 1](_ => 0);
    }

    method Reserve(n: nat)
      requires n > 0
      modifies this
      ensures Valid() && fresh(buf) && size == n + 1 && Contents() == []
    {
      Clear();
      size := n + 1;
      buf := new byte[n + 1](_ => 0);
    }

    method Clear()
      modifies this`readPos, this`writePos
      ensures readPos == writePos == 0
    {
      readPos, writePos := 0, 0;
    }

    method NumReadable() returns (n: nat)
      requires Valid()
      ensures n == |Contents()|
    {
      var rpos, wpos := readPos, writePos;
      if rpos < wpos {
        return wpos - rpos;
      } else if rpos > wpos {
        return size - (rpos - wpos);
      } else {
        return 0;
      }
    }

    method NumWritable() returns (n: nat)
      requires Valid()
      ensures n == size - 1 - |Contents()|
    {
      var rpos, wpos := readPos, writePos;
      var ret := if rpos < wpos then size - (wpos - rpos) else if rpos > wpos then rpos - wpos else size;
      return ret - 1;
    }

    method Capacity() returns (n: nat)
      requires Valid()
      ensures n == size - 1 && |Contents()| <= n
    {
      return size - 1;
    }

    method GetWritePointers() returns (s: Stretches)
      requires Valid()
      ensures s == WriteStretches(readPos, writePos, size)
    {
      var rpos, wpos := readPos, writePos;
      var size0, size1: nat;
      if rpos <= wpos {
        size0, size1 := size - wpos, rpos;
      } else {
        size0, size1 := rpos - wpos, 0;
      }
      if size1 != 0 {
        size1 := size1 - 1;
      } else {
        size0 := size0 - 1;
      }
      s := Stretches(wpos, size0, size1);
    }

    method GetReadPointers() returns (s: Stretches)
      requires Valid()
      ensures s == ReadStretches(readPos, writePos, size)
    {
      var rpos, wpos := readPos, writePos;
      if rpos <= wpos {
        s := Stretches(rpos, wpos - rpos, 0);
      } else {
        s := Stretches(rpos, size - rpos, wpos);
      }
    }

    /** Copies `data` into consecutive cells. */
    method Fill(at: nat, data: Data)
      requires at + |data| <= buf.Length
      modifies buf
      ensures forall c :: 0 <= c < buf.Length ==> buf[c] == if at <= c < at + |data| then data[c - at] else old(buf[c])
    {
      for i := 0 to |data|
        invariant forall c :: 0 <= c < buf.Length ==> buf[c] == if at <= c < at + i then data[c - at] else old(buf[c])
      {
        buf[at + i] := data[i];
      }
    }

    /** Copies `data` into the two stretches. */
    method CopyIn(s: Stretches, data: Data)
      requires Valid() && s.start < size && |data| <= s.Total() <= size
      requires s.size0 <= size - s.start && (s.size1 > 0 ==> s.size0 == size - s.start)
      modifies buf
      ensures forall i :: 0 <= i < size ==>
                buf[Cell(s.start, i, size)] == if i < |data| then data[i] else old(buf[Cell(s.start, i, size)])
    {
      var fromFirst := Min(|data|, s.size0);
      Fill(s.start, data[..fromFirst]);
      if |data| > s.size0 {
        Fill(0, data[fromFirst..]);
      }
    }

    method CopyOut(s: Stretches, n: nat) returns (data: Data)
      requires Valid() && s.start < size && n <= s.Total() <= size
      requires s.size0 <= size - s.start && (s.size1 > 0 ==> s.size0 == size - s.start)
      ensures data == Elements(buf[..], s.start, n)
    {
      var fromFirst := Min(n, s.size0);
      data := buf[s.start..s.start + fromFirst];
      if n > s.size0 {
        data := data + buf[..n - s.size0];
      }
    }

    /** Takes as much of `data` as there is room for. */
    method Write(data: Data) returns (n: nat)
      requires Valid()
      modifies this`writePos, buf
      ensures Valid()
      ensures var room := size - 1 - |old(Contents())|;
              n == if |data| < room then |data| else room
      ensures Contents() == old(Contents()) + data[..n]
    {
      var s := GetWritePointers();
      n := Min(|data|, s.Total());
      CopyIn(s, data[..n]);
      AppendedElements(old(buf[..]), buf[..], readPos, writePos, data[..n]);
      AdvancedIs(writePos, n, size);
      writePos := Advanced(writePos, n, size);
    }

    /** Gives back as many elements as there are, oldest first, and overwrites their cells. */
    method Read(wanted: nat) returns (data: Data)
      requires Valid()
      modifies this`readPos, buf
      ensures Valid()
      ensures |data| == if wanted < |old(Contents())| then wanted else |old(Contents())|
      ensures data == old(Contents())[..|data|] && Contents() == old(Contents())[|data|..]
      ensures forall i :: 0 <= i < |data| ==> buf[Cell(old(readPos), i, size)] == 0xFF
    {
      var s := GetReadPointers();
      var n := Min(wanted, s.Total());
      data := CopyOut(s, n);
      CopyIn(s, Bytes.Fill(n, 0xFF));
      RemainingElements(old(buf[..]), buf[..], readPos, writePos, n);
      AdvancedIs(readPos, n, size);
      readPos := Advanced(readPos, n, size);
    }
  }
}
