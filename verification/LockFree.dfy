/** The circular buffer between one reader and one writer that do not lock: every load and store of a position,
    and every element copied or overwritten, is a step of its own, and the steps interleave in any way. */
module LockFree {
  import opened Bytes
  import opened CircBuf

  /** Where the writer is in `write`. `seen` is the read position that it has loaded, which may be stale. */
  datatype Writer =
    | WriterIdle
    | WriterSaw(data: Data, seen: nat)
    | Copying(data: Data, seen: nat, s: Stretches, n: nat, i: nat)

  /** Where the reader is in `read`. `seen` is the write position that it has loaded, which may be stale. */
  datatype Reader =
    | ReaderIdle
    | ReaderSaw(wanted: nat, own: nat)
    | Reading(seen: nat, s: Stretches, n: nat, got: Data)
    | Filling(s: Stretches, n: nat, got: Data, i: nat)

  /** The shared buffer and positions, both programs, and what has been written and read in finished calls. */
  datatype Sys = Sys(buf: seq<byte>, readPos: nat, writePos: nat, writer: Writer, reader: Reader,
                     written: Data, readSoFar: Data)

  datatype Act = WriterCalls(data: Data) | WriterStep | ReaderCalls(wanted: nat) | ReaderStep

  function Init(n: nat): Sys
  {
    Sys(seq(n + 1, _ => 0), 0, 0, WriterIdle, ReaderIdle, [], [])
  }

  /** The cell that a program touches with element `i` of its stretches. */
  function Touched(s: Stretches, i: nat): nat
  {
    if i < s.size0 then s.start + i else i - s.size0
  }

  predicate InRange(y: Sys)
  {
    |y.buf| > 1 && y.readPos < |y.buf| && y.writePos < |y.buf|
  }

  /** The writer's next step: load the read position, load its own and compute the room, copy the elements one by
      one, store the new position. */
  function WriterMoves(y: Sys): (z: Sys)
    requires InRange(y)
    ensures InRange(z) && |z.buf| == |y.buf|
  {
    match y.writer
    case WriterIdle => y
    case WriterSaw(data, seen) =>
      if seen >= |y.buf| then y
      else
        var s := WriteStretches(seen, y.writePos, |y.buf|);
        y.(writer := Copying(data, seen, s, Min(|data|, s.Total()), 0))
    case Copying(data, seen, s, n, i) =>
      if i < n then
        if i < |data| && Touched(s, i) < |y.buf| then
          y.(buf := y.buf[Touched(s, i) := data[i]], writer := Copying(data, seen, s, n, i + 1))
        else y
      else if n <= |y.buf| && n <= |data| then
        y.(writePos := Advanced(y.writePos, n, |y.buf|), writer := WriterIdle, written := y.written + data[..n])
      else y
  }

  /** The reader's next step: load its own position, load the write position and compute how much there is, copy
      the elements, overwrite them, store the new position. */
  function ReaderMoves(y: Sys): (z: Sys)
    requires InRange(y)
    ensures InRange(z) && |z.buf| == |y.buf|
  {
    match y.reader
    case ReaderIdle => y
    case ReaderSaw(wanted, own) =>
      if own >= |y.buf| then y
      else
        var s := ReadStretches(own, y.writePos, |y.buf|);
        y.(reader := Reading(y.writePos, s, Min(wanted, s.Total()), []))
    case Reading(seen, s, n, got) =>
      if |got| < n then
        if Touched(s, |got|) < |y.buf| then
          y.(reader := Reading(seen, s, n, got + [y.buf[Touched(s, |got|)]]))
        else y
      else y.(reader := Filling(s, n, got, 0))
    case Filling(s, n, got, i) =>
      if i < n then
        if Touched(s, i) < |y.buf| then y.(buf := y.buf[Touched(s, i) := 0xFF], reader := Filling(s, n, got, i + 1)) else y
      else if n <= |y.buf| then
        y.(readPos := Advanced(y.readPos, n, |y.buf|), reader := ReaderIdle, readSoFar := y.readSoFar + got)
      else y
  }

  function Step(y: Sys, a: Act): (z: Sys)
    requires InRange(y)
    ensures InRange(z) && |z.buf| == |y.buf|
  {
    match a
    case WriterCalls(data) => if y.writer == WriterIdle then y.(writer := WriterSaw(data, y.readPos)) else y
    case WriterStep => WriterMoves(y)
    case ReaderCalls(wanted) => if y.reader == ReaderIdle then y.(reader := ReaderSaw(wanted, y.readPos)) else y
    case ReaderStep => ReaderMoves(y)
  }

  function Run(y: Sys, acts: seq<Act>): (z: Sys)
    requires InRange(y)
    ensures InRange(z)
  {
    if acts == [] then y else Step(Run(y, acts[..|acts| - 1]), acts[|acts| - 1])
  }

  // ----------------------------------------------------------- invariant

  function Held(y: Sys): nat
    requires InRange(y)
  {
    Distance(y.readPos, y.writePos, |y.buf|)
  }

  /** How many of the oldest elements the reader has overwritten but not given up yet. */
  function Blanked(y: Sys): nat
  {
    if y.reader.Filling? then y.reader.i else 0
  }

  ghost predicate WriterFits(y: Sys)
    requires InRange(y)
  {
    match y.writer
    case WriterIdle => true
    case WriterSaw(data, seen) => seen < |y.buf| && Held(y) <= Distance(seen, y.writePos, |y.buf|)
    case Copying(data, seen, s, n, i) =>
      && seen < |y.buf| && Held(y) <= Distance(seen, y.writePos, |y.buf|)
      && s == WriteStretches(seen, y.writePos, |y.buf|)
      && i <= n <= s.Total() && n <= |data|
      && forall k :: 0 <= k < i ==> y.buf[Cell(y.writePos, k, |y.buf|)] == data[k]
  }

  ghost predicate ReaderFits(y: Sys)
    requires InRange(y) && |y.written| == |y.readSoFar| + Held(y)
  {
    var r := |y.readSoFar|;
    match y.reader
    case ReaderIdle => true
    case ReaderSaw(wanted, own) => own == y.readPos
    case Reading(seen, s, n, got) =>
      && seen < |y.buf| && s == ReadStretches(y.readPos, seen, |y.buf|)
      && |got| <= n <= s.Total() <= Held(y) && got == y.written[r..r + |got|]
    case Filling(s, n, got, i) =>
      && (exists seen :: 0 <= seen < |y.buf| && s == ReadStretches(y.readPos, seen, |y.buf|))
      && i <= n <= s.Total() <= Held(y) && |got| == n && got == y.written[r..r + n]
  }

  /** The cells hold what has been written and not yet read. */
  ghost predicate BufferFits(y: Sys)
    requires InRange(y) && |y.written| == |y.readSoFar| + Held(y)
  {
    forall i :: Blanked(y) <= i < Held(y) ==> y.buf[Cell(y.readPos, i, |y.buf|)] == y.written[|y.readSoFar| + i]
  }

  ghost predicate Inv(y: Sys)
  {
    && InRange(y)
    && |y.written| == |y.readSoFar| + Held(y) && y.readSoFar <= y.written
    && BufferFits(y) && WriterFits(y) && ReaderFits(y)
  }

  /** The cells that the writer may touch lie behind those that the reader may touch. */
  lemma CellsDiffer(rpos: nat, wpos: nat, size: nat, k: nat, j: nat)
    requires rpos < size && wpos < size && j < Distance(rpos, wpos, size) && Distance(rpos, wpos, size) + k < size
    ensures Cell(wpos, k, size) != Cell(rpos, j, size)
  {
  }

  lemma SameCell(rpos: nat, wpos: nat, size: nat, k: nat)
    requires rpos < size && wpos < size && Distance(rpos, wpos, size) + k < size
    ensures Cell(wpos, k, size) == Cell(rpos, Distance(rpos, wpos, size) + k, size)
  {
  }

  lemma CopiedCell(y: Sys)
    requires Inv(y) && y.writer.Copying? && y.writer.i < y.writer.n
    ensures Held(y) + y.writer.i < |y.buf|
    ensures Touched(y.writer.s, y.writer.i) == Cell(y.writePos, y.writer.i, |y.buf|) < |y.buf|
    ensures forall k :: 0 <= k < y.writer.i ==>
              Cell(y.writePos, k, |y.buf|) != Cell(y.writePos, y.writer.i, |y.buf|)
    ensures forall j :: 0 <= j < Held(y) ==> Cell(y.readPos, j, |y.buf|) != Cell(y.writePos, y.writer.i, |y.buf|)
  {
    hide BufferFits, ReaderFits;
  }

  lemma WriterCopies(y: Sys)
    requires Inv(y) && y.writer.Copying? && y.writer.i < y.writer.n
    ensures Inv(WriterMoves(y))
  {
    CopiedCell(y);
    hide ReadStretches, WriteStretches, Touched, Cell;
  }

  lemma WriterStores(y: Sys)
    requires Inv(y) && y.writer.Copying? && y.writer.i == y.writer.n
    ensures Inv(WriterMoves(y))
  {
    hide BufferFits, ReaderFits, Cell;
    StoredHeld(y);
    StoredReader(y);
    StoredBuffer(y);
  }

  /** The elements copied come to those held. */
  lemma StoredHeld(y: Sys)
    requires Inv(y) && y.writer.Copying? && y.writer.i == y.writer.n
    ensures Held(WriterMoves(y)) == Held(y) + y.writer.n
  {
    AdvancedIs(y.writePos, y.writer.n, |y.buf|);
    hide Advanced, ReadStretches, Touched, BufferFits, ReaderFits;
  }

  lemma StoredReader(y: Sys)
    requires Inv(y) && y.writer.Copying? && y.writer.i == y.writer.n
    requires Held(WriterMoves(y)) == Held(y) + y.writer.n
    ensures |WriterMoves(y).written| == |WriterMoves(y).readSoFar| + Held(WriterMoves(y)) && ReaderFits(WriterMoves(y))
  {
    hide BufferFits, WriterFits, Advanced, WriteStretches, ReadStretches, Held;
  }

  lemma StoredBuffer(y: Sys)
    requires Inv(y) && y.writer.Copying? && y.writer.i == y.writer.n
    requires Held(WriterMoves(y)) == Held(y) + y.writer.n
    ensures |WriterMoves(y).written| == |WriterMoves(y).readSoFar| + Held(WriterMoves(y)) && BufferFits(WriterMoves(y))
  {
    hide ReaderFits, Advanced, WriteStretches, ReadStretches;
    var w := y.writer;
    var size := |y.buf|;
    var z := WriterMoves(y);
    forall i | Blanked(z) <= i < Held(z) ensures z.buf[Cell(z.readPos, i, size)] == z.written[|z.readSoFar| + i] {
      if i >= Held(y) {
        SameCell(y.readPos, y.writePos, size, i - Held(y));
      }
    }
  }

  lemma WriterKeeps(y: Sys)
    requires Inv(y)
    ensures Inv(WriterMoves(y))
  {
    hide Advanced;
    match y.writer {
      case WriterIdle =>
      case WriterSaw(data, seen) =>
      case Copying(data, seen, s, n, i) =>
        if i < n {
          WriterCopies(y);
        } else {
          WriterStores(y);
        }
    }
  }

  lemma ReaderCopies(y: Sys)
    requires Inv(y) && y.reader.Reading?
    ensures Inv(ReaderMoves(y))
  {
    var r := y.reader;
    if |r.got| < r.n {
      assert Touched(r.s, |r.got|) == Cell(y.readPos, |r.got|, |y.buf|);
    }
  }

  lemma FillSparesWriter(y: Sys)
    requires Inv(y) && y.reader.Filling? && y.reader.i < y.reader.n
    ensures WriterFits(ReaderMoves(y))
  {
    var r := y.reader;
    var size := |y.buf|;
    FilledCell(y);
    hide BufferFits, ReadStretches, WriteStretches, Touched, Cell;
    if y.writer.Copying? {
      forall k | 0 <= k < y.writer.i ensures Cell(y.writePos, k, size) != Cell(y.readPos, r.i, size) {
        CellsDiffer(y.readPos, y.writePos, size, k, r.i);
      }
    }
  }

  lemma FilledCell(y: Sys)
    requires Inv(y) && y.reader.Filling? && y.reader.i < y.reader.n
    ensures Touched(y.reader.s, y.reader.i) == Cell(y.readPos, y.reader.i, |y.buf|) < |y.buf|
    ensures forall j :: 0 <= j < Held(y) && j != y.reader.i ==>
              Cell(y.readPos, j, |y.buf|) != Cell(y.readPos, y.reader.i, |y.buf|)
  {
    hide BufferFits, WriterFits;
  }

  lemma ReaderFills(y: Sys)
    requires Inv(y) && y.reader.Filling? && y.reader.i < y.reader.n
    ensures Inv(ReaderMoves(y))
  {
    FilledCell(y);
    FillSparesWriter(y);
    hide WriterFits, ReadStretches, Touched, Cell;
  }

  lemma ReaderStores(y: Sys)
    requires Inv(y) && y.reader.Filling? && y.reader.i == y.reader.n
    ensures Inv(ReaderMoves(y))
  {
    var r := y.reader;
    var size := |y.buf|;
    var z := ReaderMoves(y);
    AdvancedIs(y.readPos, r.n, size);
    assert Held(z) == Held(y) - r.n;
    forall i | 0 <= i < Held(z) ensures z.buf[Cell(z.readPos, i, size)] == z.written[|z.readSoFar| + i] {
      assert Cell(z.readPos, i, size) == Cell(y.readPos, r.n + i, size);
    }
  }

  lemma ReaderKeeps(y: Sys)
    requires Inv(y)
    ensures Inv(ReaderMoves(y))
  {
    hide Advanced;
    match y.reader {
      case ReaderIdle =>
      case ReaderSaw(wanted, own) =>
      case Reading(seen, s, n, got) => ReaderCopies(y);
      case Filling(s, n, got, i) =>
        if i < n {
          ReaderFills(y);
        } else {
          ReaderStores(y);
        }
    }
  }

  lemma {:induction false} RunKeeps(n: nat, acts: seq<Act>)
    requires n > 0
    ensures Inv(Run(Init(n), acts)) && |Run(Init(n), acts).buf| == n + 1
  {
    if acts != [] {
      var before := acts[..|acts| - 1];
      RunKeeps(n, before);
      var y := Run(Init(n), before);
      hide Inv, Run, Init;
      StepKeeps(y, acts[|acts| - 1]);
    }
  }

  lemma StepKeeps(y: Sys, a: Act)
    requires Inv(y)
    ensures Inv(Step(y, a)) && |Step(y, a).buf| == |y.buf|
  {
    hide WriterMoves, ReaderMoves;
    match a {
      case WriterStep => WriterKeeps(y);
      case ReaderStep => ReaderKeeps(y);
      case WriterCalls(data) => hide ReaderFits;
      case ReaderCalls(wanted) => hide WriterFits;
    }
  }

  // ------------------------------------------------------------ theorem

  /** The cells that the writer's call copies into, and those that the reader's call copies from or overwrites. */
  ghost predicate WriterTouches(y: Sys, c: nat)
  {
    y.writer.Copying? && exists k :: 0 <= k < y.writer.n && c == Touched(y.writer.s, k)
  }

  ghost predicate ReaderTouches(y: Sys, c: nat)
  {
    || (y.reader.Reading? && exists k :: 0 <= k < y.reader.n && c == Touched(y.reader.s, k))
    || (y.reader.Filling? && exists k :: 0 <= k < y.reader.n && c == Touched(y.reader.s, k))
  }

  /** On every interleaving, the two programs never touch the same cell, the buffer never holds more than its
      capacity, and what has been read, followed by what the buffer holds, is what has been written. */
  lemma LockFreeFifo(n: nat, acts: seq<Act>)
    requires n > 0
    ensures var y := Run(Init(n), acts);
            && (forall c: nat :: !(WriterTouches(y, c) && ReaderTouches(y, c)))
            && Held(y) <= n
            && y.readSoFar <= y.written && |y.written| == |y.readSoFar| + Held(y)
            && (!y.reader.Filling? ==> y.readSoFar + Elements(y.buf, y.readPos, Held(y)) == y.written)
  {
    RunKeeps(n, acts);
    var y := Run(Init(n), acts);
    hide Run, Init;
    forall c: nat | WriterTouches(y, c) && ReaderTouches(y, c) ensures false {
      NeverTheSameCell(y, c);
    }
    hide WriterFits, ReaderFits, WriterTouches, ReaderTouches;
  }

  lemma WriterCell(y: Sys, c: nat) returns (k: nat)
    requires Inv(y) && WriterTouches(y, c)
    ensures Held(y) + k < |y.buf| && c == Cell(y.writePos, k, |y.buf|)
  {
    hide BufferFits, ReaderFits;
    k :| 0 <= k < y.writer.n && c == Touched(y.writer.s, k);
  }

  lemma ReaderCell(y: Sys, c: nat) returns (j: nat)
    requires Inv(y) && ReaderTouches(y, c)
    ensures j < Held(y) && c == Cell(y.readPos, j, |y.buf|)
  {
    hide BufferFits, WriterFits;
    j :| 0 <= j < y.reader.n && c == Touched(y.reader.s, j);
  }

  lemma NeverTheSameCell(y: Sys, c: nat)
    requires Inv(y)
    ensures !(WriterTouches(y, c) && ReaderTouches(y, c))
  {
    if WriterTouches(y, c) && ReaderTouches(y, c) {
      var k := WriterCell(y, c);
      var j := ReaderCell(y, c);
      CellsDiffer(y.readPos, y.writePos, |y.buf|, k, j);
    }
  }

  /** While the reader overwrites what it has copied, nothing is lost either: it still has the copy. */
  lemma NothingLostWhileFilling(n: nat, acts: seq<Act>)
    requires n > 0
    ensures var y := Run(Init(n), acts);
            y.reader.Filling? ==>
              && y.reader.n <= Held(y) && |y.reader.got| == y.reader.n
              && y.readSoFar + y.reader.got + Elements(y.buf, y.readPos, Held(y))[y.reader.n..] == y.written
  {
    RunKeeps(n, acts);
    var y := Run(Init(n), acts);
    hide Run, Init, WriterFits, ReadStretches, WriteStretches, Cell;
    if y.reader.Filling? {
      assert y.written[..|y.readSoFar|] == y.readSoFar;
    }
  }

  // ----------------------------------------------------------- progress

  /** How many steps of its own the writer's call still takes at most; the loads are stale, but never waited for. */
  function WriterLeft(y: Sys): (k: nat)
    ensures k == 0 ==> y.writer == WriterIdle
  {
    match y.writer
    case WriterIdle => 0
    case WriterSaw(data, seen) => |data| + 2
    case Copying(data, seen, s, n, i) => if i < n then n - i + 1 else 1
  }

  function ReaderLeft(y: Sys): (k: nat)
    ensures k == 0 ==> y.reader == ReaderIdle
  {
    match y.reader
    case ReaderIdle => 0
    case ReaderSaw(wanted, own) => 2 * wanted + 3
    case Reading(seen, s, n, got) => if |got| < n then n - |got| + n + 2 else n + 2
    case Filling(s, n, got, i) => if i < n then n - i + 1 else 1
  }

  /** A call in progress moves on with each step of its own, and with no step of the other program. */
  lemma WriterMovesOn(y: Sys)
    requires Inv(y)
    ensures y.writer != WriterIdle ==> WriterLeft(WriterMoves(y)) < WriterLeft(y)
    ensures WriterLeft(ReaderMoves(y)) == WriterLeft(y) && (WriterMoves(y).reader == y.reader)
  {
    hide BufferFits, ReaderFits, WriteStretches, ReadStretches, Advanced;
    if y.writer.Copying? && y.writer.i < y.writer.n {
      CopiedCell(y);
    }
    hide Touched;
  }

  lemma ReaderMovesOn(y: Sys)
    requires Inv(y)
    ensures y.reader != ReaderIdle ==> ReaderLeft(ReaderMoves(y)) < ReaderLeft(y)
    ensures ReaderLeft(WriterMoves(y)) == ReaderLeft(y) && (ReaderMoves(y).writer == y.writer)
  {
    hide BufferFits, WriterFits, WriteStretches, Advanced;
    if y.reader.Filling? && y.reader.i < y.reader.n {
      FilledCell(y);
    }
    if y.reader.Reading? && |y.reader.got| < y.reader.n {
      CopiedFrom(y);
    }
    hide Touched, ReadStretches;
  }

  lemma CopiedFrom(y: Sys)
    requires Inv(y) && y.reader.Reading? && |y.reader.got| < y.reader.n
    ensures Touched(y.reader.s, |y.reader.got|) == Cell(y.readPos, |y.reader.got|, |y.buf|) < |y.buf|
  {
    hide BufferFits, WriterFits;
  }

  function Count(acts: seq<Act>, a: Act): nat
  {
    if acts == [] then 0 else Count(acts[..|acts| - 1], a) + if acts[|acts| - 1] == a then 1 else 0
  }

  ghost predicate WriterReturns(y: Sys, acts: seq<Act>)
    requires InRange(y)
  {
    exists m :: 0 <= m <= |acts| && Run(y, acts[..m]).writer == WriterIdle
  }

  ghost predicate ReaderReturns(y: Sys, acts: seq<Act>)
    requires InRange(y)
  {
    exists m :: 0 <= m <= |acts| && Run(y, acts[..m]).reader == ReaderIdle
  }

  lemma {:induction false} RunInv(y: Sys, acts: seq<Act>)
    requires Inv(y)
    ensures Inv(Run(y, acts))
  {
    if acts != [] {
      RunInv(y, acts[..|acts| - 1]);
      hide Inv, Step;
      StepKeeps(Run(y, acts[..|acts| - 1]), acts[|acts| - 1]);
    }
  }

  lemma {:induction false} WriterReturnsOrMovesOn(y: Sys, acts: seq<Act>)
    requires Inv(y)
    ensures WriterReturns(y, acts) || WriterLeft(Run(y, acts)) + Count(acts, WriterStep) <= WriterLeft(y)
  {
    if acts != [] {
      var before := acts[..|acts| - 1];
      WriterReturnsOrMovesOn(y, before);
      if WriterReturns(y, before) {
        var m :| 0 <= m <= |before| && Run(y, before[..m]).writer == WriterIdle;
        assert acts[..m] == before[..m];
      } else {
        assert before[..|before|] == before;
        RunInv(y, before);
        hide Inv, WriterMoves, ReaderMoves;
        WriterMovesOn(Run(y, before));
      }
    }
  }

  lemma {:induction false} ReaderReturnsOrMovesOn(y: Sys, acts: seq<Act>)
    requires Inv(y)
    ensures ReaderReturns(y, acts) || ReaderLeft(Run(y, acts)) + Count(acts, ReaderStep) <= ReaderLeft(y)
  {
    if acts != [] {
      var before := acts[..|acts| - 1];
      ReaderReturnsOrMovesOn(y, before);
      if ReaderReturns(y, before) {
        var m :| 0 <= m <= |before| && Run(y, before[..m]).reader == ReaderIdle;
        assert acts[..m] == before[..m];
      } else {
        assert before[..|before|] == before;
        RunInv(y, before);
        hide Inv, WriterMoves, ReaderMoves;
        ReaderMovesOn(Run(y, before));
      }
    }
  }

  /** Neither program waits for the other: from any point of any run, a call to `write` returns after at most two
      more steps of the writer than it has elements to write, and a call to `read` after at most three more steps of
      the reader than twice the elements it wants, whatever the other program does or does not do meanwhile. */
  lemma WaitFree(n: nat, acts: seq<Act>, more: seq<Act>)
    requires n > 0
    ensures var y := Run(Init(n), acts);
            && (Count(more, WriterStep) >= WriterLeft(y) ==> WriterReturns(y, more))
            && (Count(more, ReaderStep) >= ReaderLeft(y) ==> ReaderReturns(y, more))
            && (y.writer.WriterSaw? ==> WriterLeft(y) == |y.writer.data| + 2)
            && (y.reader.ReaderSaw? ==> ReaderLeft(y) == 2 * y.reader.wanted + 3)
  {
    RunKeeps(n, acts);
    var y := Run(Init(n), acts);
    assert more[..|more|] == more;
    hide Run, Init, Inv;
    WriterReturnsOrMovesOn(y, more);
    ReaderReturnsOrMovesOn(y, more);
  }

  // ------------------------------------------------------ undisturbed calls

  /** `k` steps of the writer, or of the reader. */
  function Steps(a: Act, k: nat): seq<Act>
  {
    if k == 0 then [] else Steps(a, k - 1) + [a]
  }

  lemma {:induction false} RunAppend(y: Sys, acts: seq<Act>, more: seq<Act>)
    requires InRange(y)
    ensures Run(y, acts + more) == Run(Run(y, acts), more)
  {
    hide Step;
    if more == [] {
      assert acts + more == acts;
    } else {
      assert (acts + more)[..|acts + more| - 1] == acts + more[..|more| - 1];
      RunAppend(y, acts, more[..|more| - 1]);
    }
  }

  lemma RunOfOne(y: Sys, a: Act)
    requires InRange(y)
    ensures Run(y, [a]) == Step(y, a)
  {
    hide Step;
    assert [a][..0] == [];
  }

  lemma RunOfTwo(y: Sys, a: Act, b: Act)
    requires InRange(y)
    ensures Run(y, [a, b]) == Step(Step(y, a), b)
  {
    hide Step;
    RunOfOne(y, a);
    assert [a, b][..1] == [a];
  }

  lemma NextStep(y: Sys, a: Act, k: nat)
    requires InRange(y)
    ensures Run(y, Steps(a, k + 1)) == Step(Run(y, Steps(a, k)), a)
  {
    hide Step;
    assert Steps(a, k + 1)[..|Steps(a, k + 1)| - 1] == Steps(a, k);
  }

  lemma NoSteps(y: Sys, a: Act)
    requires InRange(y)
    ensures Run(y, Steps(a, 0)) == y
  {
  }

  lemma CopiesOne(y: Sys)
    requires Inv(y) && y.writer.Copying? && y.writer.i < y.writer.n
    ensures var z := WriterMoves(y);
            Inv(z) && z == y.(buf := z.buf, writer := y.writer.(i := y.writer.i + 1)) && |z.buf| == |y.buf|
  {
    WriterCopies(y);
    CopiedCell(y);
    hide BufferFits, ReaderFits, WriteStretches, Touched;
  }

  lemma {:induction false} CopiesAlone(y: Sys, k: nat)
    requires Inv(y) && y.writer.Copying? && y.writer.i + k <= y.writer.n
    ensures var z := Run(y, Steps(WriterStep, k));
            Inv(z) && z == y.(buf := z.buf, writer := y.writer.(i := y.writer.i + k)) && |z.buf| == |y.buf|
  {
    hide BufferFits, WriterFits, ReaderFits, Held, WriterMoves, Steps, Run;
    if k == 0 {
      NoSteps(y, WriterStep);
    } else {
      CopiesAlone(y, k - 1);
      NextStep(y, WriterStep, k - 1);
      CopiesOne(Run(y, Steps(WriterStep, k - 1)));
    }
  }

  lemma WriterStarts(y: Sys, data: Data)
    requires Inv(y) && y.writer == WriterIdle
    ensures var z := Step(Step(y, WriterCalls(data)), WriterStep);
            var room := |y.buf| - 1 - Held(y);
            && Inv(z) && z == y.(writer := z.writer) && z.writer.Copying? && z.writer.data == data && z.writer.i == 0
            && z.writer.n == if |data| < room then |data| else room
  {
    StepKeeps(y, WriterCalls(data));
    StepKeeps(Step(y, WriterCalls(data)), WriterStep);
    hide BufferFits, ReaderFits, Advanced;
  }

  /** The rest of a call that has not copied anything yet. */
  lemma FinishesAlone(y: Sys)
    requires Inv(y) && y.writer.Copying? && y.writer.i == 0
    ensures var z := Run(y, Steps(WriterStep, y.writer.n) + [WriterStep]);
            && z.writer == WriterIdle && y.writer.n <= |y.writer.data|
            && z.written == y.written + y.writer.data[..y.writer.n] && z.readSoFar == y.readSoFar
            && z.readPos == y.readPos && z.reader == y.reader && Held(z) == Held(y) + y.writer.n
  {
    var n := y.writer.n;
    hide BufferFits, WriterFits, ReaderFits, Run, Step, Steps, Advanced;
    CopiesAlone(y, n);
    RunAppend(y, Steps(WriterStep, n), [WriterStep]);
    RunOfOne(Run(y, Steps(WriterStep, n)), WriterStep);
    WriterEnds(Run(y, Steps(WriterStep, n)));
  }

  /** A call to `write` that no step of the reader interrupts takes as many of its elements as there is room for. */
  lemma WritesAlone(y: Sys, data: Data)
    requires Inv(y) && y.writer == WriterIdle
    ensures var room := |y.buf| - 1 - Held(y);
            var n := if |data| < room then |data| else room;
            var z := Run(y, [WriterCalls(data), WriterStep] + (Steps(WriterStep, n) + [WriterStep]));
            && z.writer == WriterIdle && z.written == y.written + data[..n] && z.readSoFar == y.readSoFar
            && z.readPos == y.readPos && z.reader == y.reader && Held(z) == Held(y) + n
  {
    var room := |y.buf| - 1 - Held(y);
    var n := if |data| < room then |data| else room;
    var y2 := Step(Step(y, WriterCalls(data)), WriterStep);
    WriterStarts(y, data);
    assert Held(y2) == Held(y);
    hide BufferFits, WriterFits, ReaderFits, Run, Step, Steps, Held;
    RunOfTwo(y, WriterCalls(data), WriterStep);
    RunAppend(y, [WriterCalls(data), WriterStep], Steps(WriterStep, n) + [WriterStep]);
    FinishesAlone(y2);
  }

  lemma WriterEnds(y: Sys)
    requires Inv(y) && y.writer.Copying? && y.writer.i == y.writer.n
    ensures var z := Step(y, WriterStep);
            && z.writer == WriterIdle && y.writer.n <= |y.writer.data|
            && z.written == y.written + y.writer.data[..y.writer.n] && z.readSoFar == y.readSoFar
            && z.readPos == y.readPos && z.reader == y.reader && Held(z) == Held(y) + y.writer.n
  {
    StoredHeld(y);
    hide BufferFits, ReaderFits, Advanced, Held;
  }

  lemma ReadsOne(y: Sys)
    requires Inv(y) && y.reader.Reading? && |y.reader.got| < y.reader.n
    ensures var z := ReaderMoves(y);
            && Inv(z) && z == y.(reader := z.reader) && z.reader.Reading?
            && z.reader.n == y.reader.n && |z.reader.got| == |y.reader.got| + 1
  {
    ReaderCopies(y);
    CopiedFrom(y);
    hide BufferFits, WriterFits, ReadStretches, Touched;
  }

  lemma {:induction false} ReadsAll(y: Sys, k: nat)
    requires Inv(y) && y.reader.Reading? && |y.reader.got| + k <= y.reader.n
    ensures var z := Run(y, Steps(ReaderStep, k));
            && Inv(z) && z == y.(reader := z.reader) && z.reader.Reading?
            && z.reader.n == y.reader.n && |z.reader.got| == |y.reader.got| + k
  {
    hide BufferFits, WriterFits, ReaderFits, Held, ReaderMoves, Steps, Run;
    if k == 0 {
      NoSteps(y, ReaderStep);
    } else {
      ReadsAll(y, k - 1);
      NextStep(y, ReaderStep, k - 1);
      ReadsOne(Run(y, Steps(ReaderStep, k - 1)));
    }
  }

  lemma FillsOne(y: Sys)
    requires Inv(y) && y.reader.Filling? && y.reader.i < y.reader.n
    ensures var z := ReaderMoves(y);
            Inv(z) && z == y.(buf := z.buf, reader := y.reader.(i := y.reader.i + 1)) && |z.buf| == |y.buf|
  {
    ReaderFills(y);
    FilledCell(y);
    hide BufferFits, WriterFits, ReadStretches, Touched;
  }

  lemma {:induction false} FillsAll(y: Sys, k: nat)
    requires Inv(y) && y.reader.Filling? && y.reader.i + k <= y.reader.n
    ensures var z := Run(y, Steps(ReaderStep, k));
            Inv(z) && z == y.(buf := z.buf, reader := y.reader.(i := y.reader.i + k)) && |z.buf| == |y.buf|
  {
    hide BufferFits, WriterFits, ReaderFits, Held, ReaderMoves, Steps, Run;
    if k == 0 {
      NoSteps(y, ReaderStep);
    } else {
      FillsAll(y, k - 1);
      NextStep(y, ReaderStep, k - 1);
      FillsOne(Run(y, Steps(ReaderStep, k - 1)));
    }
  }

  lemma ReaderStarts(y: Sys, wanted: nat)
    requires Inv(y) && y.reader == ReaderIdle
    ensures var z := Step(Step(y, ReaderCalls(wanted)), ReaderStep);
            && Inv(z) && z == y.(reader := z.reader) && z.reader.Reading? && z.reader.got == []
            && z.reader.n == if wanted < Held(y) then wanted else Held(y)
  {
    StepKeeps(y, ReaderCalls(wanted));
    StepKeeps(Step(y, ReaderCalls(wanted)), ReaderStep);
    hide BufferFits, WriterFits, Advanced;
  }

  lemma ReaderTurns(y: Sys)
    requires Inv(y) && y.reader.Reading? && |y.reader.got| == y.reader.n
    ensures var z := Step(y, ReaderStep);
            && Inv(z) && z == y.(reader := z.reader) && z.reader.Filling? && z.reader.i == 0 && z.reader.n == y.reader.n
  {
    StepKeeps(y, ReaderStep);
    hide BufferFits, WriterFits, ReaderFits;
  }

  lemma ReaderEnds(y: Sys)
    requires Inv(y) && y.reader.Filling? && y.reader.i == y.reader.n
    ensures Inv(Step(y, ReaderStep))
    ensures var z := Step(y, ReaderStep);
            && z.reader == ReaderIdle && |z.readSoFar| == |y.readSoFar| + y.reader.n
            && z.written == y.written && z.writer == y.writer && z.writePos == y.writePos
  {
    ReaderStores(y);
    hide BufferFits, WriterFits, Advanced;
  }

  /** A call to `read` that no step of the writer interrupts takes as many elements as it wants and there are. */
  lemma ReadsAlone(y: Sys, wanted: nat)
    requires Inv(y) && y.reader == ReaderIdle
    ensures var n := if wanted < Held(y) then wanted else Held(y);
            var z := Run(y, [ReaderCalls(wanted), ReaderStep] + Steps(ReaderStep, n) + [ReaderStep]
                            + Steps(ReaderStep, n) + [ReaderStep]);
            && z.reader == ReaderIdle && |y.readSoFar| + n <= |y.written|
            && z.readSoFar == y.written[..|y.readSoFar| + n]
            && z.written == y.written && z.writer == y.writer && z.writePos == y.writePos
  {
    HeldIsLeft(y);
    hide BufferFits, WriterFits, ReaderFits, Run, Step, Steps, ReaderMoves, Held;
    var n := if wanted < Held(y) then wanted else Held(y);
    var a1 := [ReaderCalls(wanted), ReaderStep];
    var a2 := a1 + Steps(ReaderStep, n);
    var a3 := a2 + [ReaderStep];
    var a4 := a3 + Steps(ReaderStep, n);
    RunOfTwo(y, ReaderCalls(wanted), ReaderStep);
    ReaderStarts(y, wanted);
    var y1 := Run(y, a1);
    RunAppend(y, a1, Steps(ReaderStep, n));
    ReadsAll(y1, n);
    var y2 := Run(y, a2);
    RunAppend(y, a2, [ReaderStep]);
    RunOfOne(y2, ReaderStep);
    ReaderTurns(y2);
    var y3 := Run(y, a3);
    RunAppend(y, a3, Steps(ReaderStep, n));
    FillsAll(y3, n);
    var y4 := Run(y, a4);
    RunAppend(y, a4, [ReaderStep]);
    RunOfOne(y4, ReaderStep);
    ReaderEnds(y4);
    HeldIsLeft(Step(y4, ReaderStep));
  }

  lemma HeldIsLeft(y: Sys)
    requires Inv(y)
    ensures |y.written| == |y.readSoFar| + Held(y) && y.readSoFar == y.written[..|y.readSoFar|]
  {
    hide BufferFits, WriterFits, ReaderFits;
  }
}
