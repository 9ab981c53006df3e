/** The sender's object (SenderY.cpp): buffers filled in place and counters moved by its methods. */
module SenderY {
  import opened Bytes
  import opened Crc
  import opened Text
  import opened Blocks
  import opened Session
  import opened SenderContext

  // ----------------------------------------------------------- memory

  /** `s` with `data` written over it from `at` on. */
  function Overwritten(s: Data, at: nat, data: Data): (r: Data)
    requires at + |data| <= |s|
    ensures |r| == |s|
  {
    s[..at] + data + s[at + |data|..]
  }

  method MemCpy(buf: array<byte>, at: nat, data: Data)
    requires at + |data| <= buf.Length
    modifies buf
    ensures buf[..] == Overwritten(old(buf[..]), at, data)
  {
    for i := 0 to |data|
      invariant forall j :: 0 <= j < buf.Length ==> buf[j] == if at <= j < at + i then data[j - at] else old(buf[j])
    {
      buf[at + i] := data[i];
    }
  }

  method MemSet(buf: array<byte>, at: nat, b: byte, n: nat)
    requires at + n <= buf.Length
    modifies buf
    ensures buf[..] == Overwritten(old(buf[..]), at, Fill(n, b))
  {
    for i := 0 to n
      invariant forall j :: 0 <= j < buf.Length ==> buf[j] == if at <= j < at + i then b else old(buf[j])
    {
      buf[at + i] := b;
    }
  }

  /** Where building a stat block can end: built, refused for lack of room, or at a write behind the payload. */
  datatype StatOutcome = Built | NoRoom | Overrun

  /** The bytes that the items of a reaction put on the line. */
  function LineBytes(items: seq<Item>): Data
  {
    if items == [] then []
    else LineBytes(items[..|items| - 1])
         + match items[|items| - 1]
           case Blk(b) => b
           case Eot => [EOT]
           case Cans => Fill(8, CAN)
  }

  /** How many bytes name and size take in a stat block, with a NUL byte behind each of them. */
  function StatSpace(f: SrcFile): nat
  {
    |f.name| + DigitCount(|f.content|) + 2
  }

  /** Where preparing the next stat block ends. */
  function PrepOutcome(files: seq<SrcFile>, c: Ctx): StatOutcome
  {
    if c.fileNameIndex >= |files| || !files[c.fileNameIndex].openable then Built
    else
      var space := StatSpace(files[c.fileNameIndex]);
      if space <= CHUNK_SZ then Built else if space == CHUNK_SZ + 1 then Overrun else NoRoom
  }

  /** An empty file with a base name of 126 bytes meets the overrun, and files of any size meet it with a name
      of the length that is left beside the digits. */
  lemma OverrunHappens(content: Data)
    requires DigitCount(|content|) <= CHUNK_SZ - 2
    ensures PrepOutcome([SrcFile(Fill(126, 97), [], true)], InitialCtx()) == Overrun
    ensures var name := Fill(CHUNK_SZ - 1 - DigitCount(|content|), 97);
            IsBaseName(name) && PrepOutcome([SrcFile(name, content, true)], InitialCtx()) == Overrun
  {
    assert DigitCount(0) == 1;
  }

  /** What preparing the next stat block does to the fields. */
  lemma PrepStatIs(files: seq<SrcFile>, c: Ctx)
    ensures var d := PrepStat(files, c);
            if c.fileNameIndex >= |files| then
              PrepOutcome(files, c) == Built
              && d == c.(blkNum := 0, k := 0, fd := -2, named := false, blk0 := EmptyStatBlk())
            else
              var f := files[c.fileNameIndex];
              && d == c.(blkNum := 0, k := 0, fileNameIndex := c.fileNameIndex + 1, named := true, blk0 := d.blk0,
                         fd := if f.openable then c.fileNameIndex else -1, pos := if f.openable then 0 else c.pos)
              && (if !f.openable then PrepOutcome(files, c) == Built && d.blk0 == c.blk0
                  else
                    && (PrepOutcome(files, c) == Built <==> StatSpace(f) <= CHUNK_SZ)
                    && (PrepOutcome(files, c) == Overrun <==> StatSpace(f) == CHUNK_SZ + 1)
                    && (StatFits(f.name, |f.content|) <==> StatSpace(f) <= CHUNK_SZ)
                    && (StatSpace(f) <= CHUNK_SZ ==> d.blk0 == StatBlk(f.name, |f.content|)))
  {
    hide StatBlk, EmptyStatBlk;
  }

  lemma NextFits(files: seq<SrcFile>, c: Ctx)
    requires FilesFit(files)
    ensures PrepOutcome(files, c) == Built
  {
  }

  class SenderY {
    const files: seq<SrcFile>
    const host: HostOrder
    const blkBuf0: array<byte>
    const blkBuf1: array<byte>

    var fileNameIndex: nat
    var named: bool
    var transferringFileD: int
    var pos: nat
    var bytesRd: int
    var blkNum: byte
    var errCnt: nat
    var firstBlk: bool
    var kbCan: bool
    var result: seq<Phrase>
    var absoluteTimeout: int
    var holdTimeout: int
    // what has been written to the medium, and what has arrived from it and not been read
    var written: Data
    var incoming: Data
    // how many different blocks of the current file have been sent
    ghost var k: nat

    ghost predicate Valid()
    {
      blkBuf0.Length == BLK_SZ && blkBuf1.Length == BLK_SZ && blkBuf0 != blkBuf1
    }

    ghost function View(): Ctx
      reads this, blkBuf0, blkBuf1
    {
      Ctx(fileNameIndex, named, transferringFileD, pos, bytesRd, blkNum, blkBuf0[..], blkBuf1[..],
          errCnt, firstBlk, kbCan, result, absoluteTimeout, holdTimeout, k)
    }

    constructor (files: seq<SrcFile>, host: HostOrder)
      ensures Valid() && fresh(blkBuf0) && fresh(blkBuf1)
      ensures this.files == files && View() == InitialCtx() && written == [] && incoming == []
    {
      this.files, this.host := files, host;
      blkBuf0, blkBuf1 := new byte[BLK_SZ](_ => 0), new byte[BLK_SZ](_ => 0);
      fileNameIndex, named, transferringFileD, pos, bytesRd, blkNum := 0, false, -1, 0, -2, 0;
      errCnt, firstBlk, kbCan, result, absoluteTimeout, holdTimeout := 0, false, false, [], 0, 0;
      written, incoming, k := [], [], 0;
    }

    /** The buffer of the block with number `n`. */
    function BufOf(n: byte): array<byte>
    {
      if n % 2 == 0 then blkBuf0 else blkBuf1
    }

    // ------------------------------------------------------------ medium

    /** Reads up to `n` bytes that have arrived, without waiting. */
    method ReadArrived(n: nat) returns (count: nat)
      modifies this`incoming
      ensures count == Min(n, |old(incoming)|)
      ensures incoming == old(incoming)[count..]
    {
      count := Min(n, |incoming|);
      incoming := incoming[count..];
    }

    /** Reads twenty bytes at a time until fewer come. */
    method DumpGlitches()
      modifies this`incoming
      ensures incoming == []
    {
      var bytesRead := ReadArrived(20);
      while bytesRead == 20
        invariant bytesRead <= 20 && (bytesRead < 20 ==> incoming == [])
        decreases |incoming|, if bytesRead == 20 then 1 else 0
      {
        bytesRead := ReadArrived(20);
      }
    }

    method SendMostBlk(buf: array<byte>) returns (lastByte: byte)
      requires buf.Length == BLK_SZ
      modifies this`written
      ensures written == old(written) + buf[..BLK_SZ - 1] && lastByte == buf[BLK_SZ - 1]
    {
      written := written + buf[..BLK_SZ - 1];
      lastByte := buf[BLK_SZ - 1];
    }

    /** What has arrived before the last byte goes out is discarded. */
    method SendLastByte(lastByte: byte)
      modifies this`written, this`incoming
      ensures written == old(written) + [lastByte] && incoming == []
    {
      DumpGlitches();
      written := written + [lastByte];
    }

    // ------------------------------------------------------------ blocks

    /** Number, complement, start byte and CRC around a payload that is in place. */
    method SealBlk(buf: array<byte>, num: byte)
      requires buf.Length == BLK_SZ
      modifies buf
      ensures buf[..] == Frame(num, old(buf[DATA_POS..PAST_CHUNK]))
    {
      buf[0] := SOH;
      buf[1] := num;
      buf[2] := Complement(num);
      ghost var payload := buf[DATA_POS..PAST_CHUNK];
      var crc := Crc16ns(host, buf[DATA_POS..PAST_CHUNK]);
      buf[PAST_CHUNK] := crc[0];
      buf[PAST_CHUNK + 1] := crc[1];
      assert buf[..] == [SOH, num, Complement(num)] + payload + crc;
    }

    /** Builds a stat block, or an empty one when there is no file. The room is checked, but not for the byte
        behind the size: with no byte to spare, the padding is written behind the payload. */
    method GenStatBlk(buf: array<byte>, f: Option<SrcFile>) returns (outcome: StatOutcome)
      requires buf.Length == BLK_SZ
      modifies buf
      ensures f.None? ==> outcome == Built && buf[..] == EmptyStatBlk()
      ensures f.Some? ==>
                var space := |f.value.name| + |Decimal(|f.value.content|)| + 2;
                && (outcome == Built <==> space <= 128)
                && (outcome == Overrun <==> space == 129)
                && (outcome == Built ==> buf[..] == StatBlk(f.value.name, |f.value.content|))
    {
      hide Frame, Decimal;
      var index := DATA_POS;
      if f.Some? {
        var name := f.value.name;
        var size := Decimal(|f.value.content|);
        if |name| + 2 > CHUNK_SZ {
          return NoRoom;
        }
        MemCpy(buf, index, name + [0]);
        index := index + |name| + 1;
        var spaceAvailable := PAST_CHUNK - index;
        var spaceNeeded := |size|;
        if spaceNeeded > spaceAvailable {
          return NoRoom;
        }
        if spaceNeeded == spaceAvailable {
          return Overrun;
        }
        MemCpy(buf, index, size + [0]);
        index := index + spaceNeeded + 1;
        assert buf[DATA_POS..index] == name + [0] + size + [0];
      }
      MemSet(buf, index, 0, PAST_CHUNK - index);
      if f.Some? {
        assert buf[DATA_POS..PAST_CHUNK] == StatPayload(f.value.name, |f.value.content|);
      } else {
        assert buf[DATA_POS..PAST_CHUNK] == Fill(CHUNK_SZ, 0);
      }
      SealBlk(buf, 0);
      outcome := Built;
    }

    /** The next 128 bytes of the open file, or what is left of it. */
    method ReadFile() returns (chunk: Data)
      ensures chunk == NextRead(files, View())
    {
      chunk := [];
      if 0 <= transferringFileD < |files| {
        var content := files[transferringFileD].content;
        if pos <= |content| {
          chunk := content[pos..Min(pos + CHUNK_SZ, |content|)];
        }
      }
    }

    /** Reads the next part of the file into the buffer and, unless the file has ended, makes a block of it. */
    method GenBlk(buf: array<byte>)
      requires Valid() && buf == BufOf(blkNum)
      modifies this`bytesRd, this`pos, buf
      ensures View() == SenderContext.GenBlk(files, old(View()))
    {
      var chunk := ReadFile();
      MemCpy(buf, DATA_POS, chunk);
      bytesRd := |chunk|;
      pos := pos + |chunk|;
      if bytesRd > 0 {
        MemSet(buf, DATA_POS + bytesRd, CTRL_Z, CHUNK_SZ - bytesRd);
        assert buf[DATA_POS..PAST_CHUNK] == PadChunk(chunk);
        SealBlk(buf, blkNum);
      }
    }

    method OpenFileToTransfer(index: nat)
      requires index < |files|
      modifies this`transferringFileD, this`pos
      ensures transferringFileD == if files[index].openable then index else -1
      ensures pos == if files[index].openable then 0 else old(pos)
    {
      if files[index].openable {
        transferringFileD, pos := index, 0;
      } else {
        transferringFileD := -1;
      }
    }

    /** The next file becomes the current one. */
    method OpenNext()
      requires fileNameIndex < |files|
      modifies this`fileNameIndex, this`named, this`transferringFileD, this`pos
      ensures var f := files[old(fileNameIndex)];
              View() == old(View()).(fileNameIndex := old(fileNameIndex) + 1, named := true,
                                     fd := if f.openable then old(fileNameIndex) else -1,
                                     pos := if f.openable then 0 else old(pos))
    {
      named := true;
      fileNameIndex := fileNameIndex + 1;
      OpenFileToTransfer(fileNameIndex - 1);
    }

    /** Opens the next file and prepares its stat block, or the empty one behind the last file. Without room for
        the stat block, the buffer holds only part of it, and the program does not go on. */
    method PrepStatBlk() returns (outcome: StatOutcome)
      requires Valid()
      modifies this`blkNum, this`fileNameIndex, this`named, this`transferringFileD, this`pos, this`k, blkBuf0
      ensures outcome == PrepOutcome(files, old(View()))
      ensures View() == PrepStat(files, old(View())).(blk0 := blkBuf0[..])
      ensures outcome == Built ==> blkBuf0[..] == PrepStat(files, old(View())).blk0
    {
      hide StatBlk, EmptyStatBlk, PrepOutcome, StatFits, Decimal, PrepStat;
      ghost var before := View();
      PrepStatIs(files, before);
      blkNum, k := 0, 0;
      outcome := Built;
      if fileNameIndex < |files| {
        OpenNext();
        ghost var ready := View();
        if transferringFileD != -1 {
          outcome := GenStatBlk(blkBuf0, Some(files[fileNameIndex - 1]));
          assert View() == ready.(blk0 := blkBuf0[..]);
        }
      } else {
        transferringFileD := -2;
        ghost var ready := View();
        outcome := GenStatBlk(blkBuf0, None);
        assert View() == ready.(blk0 := blkBuf0[..]);
        named := false;
      }
    }

    /** Makes the next block the current one, and builds it if there is a file to read. */
    method AdvanceBlk()
      requires Valid()
      modifies this`blkNum, this`bytesRd, this`pos, this`k, blkBuf0, blkBuf1
      ensures View() == SendNew(files, old(View()))
    {
      hide SenderContext.GenBlk;
      blkNum, k := Succ(blkNum), k + 1;
      if named {
        GenBlk(BufOf(blkNum));
      }
    }

    /** The current block goes out for the first time, and the next one is prepared while it is on its way. */
    method SendBlkPrepNext()
      requires Valid()
      modifies this`blkNum, this`bytesRd, this`pos, this`written, this`incoming, this`k, blkBuf0, blkBuf1
      ensures View() == SendNew(files, old(View()))
      ensures written == old(written) + CurrentBlk(old(View())) && incoming == []
    {
      hide SendNew;
      ghost var blk := CurrentBlk(View());
      var lastByte := SendMostBlk(BufOf(blkNum));
      assert blk == blk[..BLK_SZ - 1] + [lastByte];
      AdvanceBlk();
      SendLastByte(lastByte);
    }

    /** The block before the current one goes out again. */
    method ResendBlk()
      requires Valid()
      modifies this`written, this`incoming
      ensures View() == old(View())
      ensures written == old(written) + LastBlk(old(View())) && incoming == []
    {
      ghost var blk := LastBlk(View());
      var lastByte := SendMostBlk(BufOf((blkNum + 255) % 256));
      assert blk == blk[..BLK_SZ - 1] + [lastByte];
      SendLastByte(lastByte);
    }

    method CloseTransferredFile() returns (wasClosed: bool)
      modifies this`transferringFileD
      ensures View() == old(View()).CloseFile() && wasClosed == (old(transferringFileD) <= -1)
    {
      wasClosed := transferringFileD <= -1;
      if transferringFileD > -1 {
        transferringFileD := -1;
      }
    }

    method SendByte(b: byte)
      modifies this`written
      ensures written == old(written) + [b]
    {
      written := written + [b];
    }

    /** Eight CAN bytes in bursts of two. */
    method SendCans()
      modifies this`written
      ensures written == old(written) + Fill(8, CAN)
    {
      var x := 0;
      while x < 4
        invariant 0 <= x <= 4
        invariant written == old(written) + Fill(2 * x, CAN)
      {
        written := written + [CAN, CAN];
        x := x + 1;
      }
    }

    // ----------------------------------------------------------- timeouts

    method Tm(units: int, now: int)
      modifies this`absoluteTimeout
      ensures View() == old(View()).Tm(units, now)
    {
      absoluteTimeout := now + units * USECS_PER_UNIT;
    }

    method TmRed(units: int)
      modifies this`absoluteTimeout
      ensures View() == old(View()).TmRed(units)
    {
      absoluteTimeout := absoluteTimeout - units * USECS_PER_UNIT;
    }

    method TmPush(units: int, now: int)
      modifies this`absoluteTimeout, this`holdTimeout
      ensures View() == old(View()).TmPush(units, now)
    {
      holdTimeout := absoluteTimeout;
      absoluteTimeout := now + units * USECS_PER_UNIT;
    }

    method TmPop()
      modifies this`absoluteTimeout
      ensures View() == old(View()).TmPop()
    {
      absoluteTimeout := holdTimeout;
    }
  }
}
