/** The sender's context (SenderY.cpp): the two block buffers, the open file and the counters. */
module SenderContext {
  import opened Bytes
  import opened Crc
  import opened Text
  import opened Blocks
  import opened Session

  /** A file named on the command line. */
  datatype SrcFile = SrcFile(name: Data, content: Data, openable: bool)

  /** The stat block of every file that opens has room for its name and size, and the size fits an int. */
  ghost predicate FilesFit(files: seq<SrcFile>)
  {
    forall i :: 0 <= i < |files| && files[i].openable ==>
      FileFits(files[i])
  }

  predicate FileFits(f: SrcFile)
  {
    IsBaseName(f.name) && StatFits(f.name, |f.content|) && |f.content| <= INT_MAX
  }

  /** Block `k` of a file: its stat block, then its data blocks. */
  function Block(f: SrcFile, k: nat): (b: Data)
    requires FileFits(f)
    ensures |b| == BLK_SZ
  {
    if k == 0 then StatBlk(f.name, |f.content|) else DataBlk(f.content, k)
  }

  /** A value of the sender's fields. `named` says that there is a current file name; `fd` is -1 when no file
      is open, -2 when there are no more files, and otherwise the index of the open file. `k` is a history
      variable that the program does not have: how many different blocks of the file have been sent. */
  datatype Ctx = Ctx(
    fileNameIndex: nat, named: bool, fd: int, pos: nat,
    bytesRd: int, blkNum: byte, blk0: Data, blk1: Data,
    errCnt: nat, firstBlk: bool, kbCan: bool, result: seq<Phrase>,
    absoluteTimeout: int, holdTimeout: int, k: nat)
  {
    function Buf(n: byte): Data
    {
      if n % 2 == 0 then blk0 else blk1
    }

    function WithBuf(n: byte, b: Data): Ctx
    {
      if n % 2 == 0 then this.(blk0 := b) else this.(blk1 := b)
    }

    function Append(p: Phrase): Ctx
    {
      this.(result := result + [p])
    }

    function Tm(units: int, now: int): Ctx
    {
      this.(absoluteTimeout := now + units * USECS_PER_UNIT)
    }

    function TmRed(units: int): Ctx
    {
      this.(absoluteTimeout := absoluteTimeout - units * USECS_PER_UNIT)
    }

    function TmPush(units: int, now: int): Ctx
    {
      this.(holdTimeout := absoluteTimeout).Tm(units, now)
    }

    function TmPop(): Ctx
    {
      this.(absoluteTimeout := holdTimeout)
    }

    function CloseFile(): Ctx
    {
      if fd > -1 then this.(fd := -1) else this
    }
  }

  function InitialCtx(): Ctx
  {
    Ctx(0, false, -1, 0, -2, 0, Fill(BLK_SZ, 0), Fill(BLK_SZ, 0), 0, false, false, [], 0, 0, 0)
  }

  /** What the next read of the open file returns: 128 bytes, or what is left. */
  function NextRead(files: seq<SrcFile>, c: Ctx): (chunk: Data)
    ensures |chunk| <= CHUNK_SZ
  {
    if 0 <= c.fd < |files| && c.pos <= |files[c.fd].content| then
      var content := files[c.fd].content;
      content[c.pos..Min(c.pos + CHUNK_SZ, |content|)]
    else []
  }

  function GenBlk(files: seq<SrcFile>, c: Ctx): Ctx
  {
    var chunk := NextRead(files, c);
    var d := c.(bytesRd := |chunk|, pos := c.pos + |chunk|);
    if |chunk| > 0 then d.WithBuf(c.blkNum, Frame(c.blkNum, PadChunk(chunk))) else d
  }

  /** Opens the next file and prepares its stat block, if that has room for the name and the size. */
  function PrepStat(files: seq<SrcFile>, c: Ctx): Ctx
  {
    var d := c.(blkNum := 0, k := 0);
    if c.fileNameIndex < |files| then
      var f := files[c.fileNameIndex];
      var e := d.(fileNameIndex := c.fileNameIndex + 1, named := true);
      if !f.openable then e.(fd := -1)
      else if StatFits(f.name, |f.content|) then
        e.(fd := c.fileNameIndex, pos := 0, blk0 := StatBlk(f.name, |f.content|))
      else e.(fd := c.fileNameIndex, pos := 0)
    else
      d.(fd := -2, blk0 := EmptyStatBlk(), named := false)
  }

  /** Sending the current block for the first time, and preparing the one behind it. */
  function SendNew(files: seq<SrcFile>, c: Ctx): Ctx
  {
    var d := c.(blkNum := Succ(c.blkNum), k := c.k + 1);
    if c.named then GenBlk(files, d) else d
  }

  /** The block that `sendBlkPrepNext` sends. */
  function CurrentBlk(c: Ctx): Data
  {
    c.Buf(c.blkNum)
  }

  /** The block that `resendBlk` sends. */
  function LastBlk(c: Ctx): Data
  {
    c.Buf((c.blkNum + 255) % 256)
  }

  // ---------------------------------- refinement of the list of blocks

  /** The current file. */
  function Current(files: seq<SrcFile>, c: Ctx): SrcFile
    requires c.named && 0 < c.fileNameIndex <= |files|
  {
    files[c.fileNameIndex - 1]
  }

  /** What the two buffers hold, in terms of the list of all blocks of the file: block `k` is the next one to
      be sent, as long as the file has one, and block `k - 1` the last one sent, across all wraps of `blkNum`. */
  ghost predicate BuffersHold(files: seq<SrcFile>, c: Ctx)
  {
    && FilesFit(files)
    && c.named && 0 < c.fileNameIndex <= |files| && Current(files, c).openable
    && var f := Current(files, c);
    && c.blkNum == NumOf(c.k)
    && c.pos == EndOf(f.content, c.k)
    && (c.k == 0 ==> c.blk0 == Block(f, 0))
    && (c.k > 0 ==>
          && LastBlk(c) == Block(f, c.k - 1)
          && c.bytesRd == |ChunkOf(f.content, c.k)|
          && (c.bytesRd > 0 ==> CurrentBlk(c) == Block(f, c.k)))
  }

  lemma NeighbouringNumbers(k: nat)
    ensures Succ(NumOf(k)) == NumOf(k + 1)
    ensures k > 0 ==> (NumOf(k) + 255) % 256 == NumOf(k - 1)
  {
    var q := k / 256;
    assert k == 256 * q + NumOf(k);
  }

  /** A prepared stat block is block 0 of the file. */
  lemma PrepStatHolds(files: seq<SrcFile>, c: Ctx)
    requires FilesFit(files) && c.fileNameIndex < |files| && files[c.fileNameIndex].openable
    ensures BuffersHold(files, PrepStat(files, c))
  {
  }

  lemma ChunkIsNextRead(files: seq<SrcFile>, c: Ctx)
    requires 0 <= c.fd < |files| && c.k > 0 && c.pos == EndOf(files[c.fd].content, c.k - 1)
    ensures NextRead(files, c) == ChunkOf(files[c.fd].content, c.k)
    ensures c.pos + |NextRead(files, c)| == EndOf(files[c.fd].content, c.k)
  {
  }

  /** `g` differs from `e` by having block `k` prepared; the buffer of the block before it is untouched. */
  ghost predicate Prepared(f: SrcFile, e: Ctx, g: Ctx)
    requires FileFits(f) && e.k > 0
  {
    && g.k == e.k && g.blkNum == e.blkNum && g.named == e.named && g.fileNameIndex == e.fileNameIndex && g.fd == e.fd
    && LastBlk(g) == LastBlk(e)
    && g.bytesRd == |ChunkOf(f.content, e.k)|
    && g.pos == EndOf(f.content, e.k)
    && (g.bytesRd > 0 ==> CurrentBlk(g) == Block(f, e.k))
  }

  lemma GenBlkPrepares(files: seq<SrcFile>, e: Ctx)
    requires FilesFit(files) && 0 <= e.fd < |files| && files[e.fd].openable
    requires e.k > 0 && e.blkNum == NumOf(e.k) && e.pos == EndOf(files[e.fd].content, e.k - 1)
    ensures Prepared(files[e.fd], e, GenBlk(files, e))
  {
    ChunkIsNextRead(files, e);
    GenBlkFields(files, e);
    hide GenBlk, CurrentBlk, LastBlk, Frame, PadChunk, ChunkOf, EndOf, NextRead, NumOf, StatBlk, StatFits;
  }

  lemma GenBlkFields(files: seq<SrcFile>, e: Ctx)
    ensures var g := GenBlk(files, e);
            var chunk := NextRead(files, e);
            && g == e.(bytesRd := |chunk|, pos := e.pos + |chunk|, blk0 := g.blk0, blk1 := g.blk1)
            && LastBlk(g) == LastBlk(e)
            && (|chunk| > 0 ==> CurrentBlk(g) == Frame(e.blkNum, PadChunk(chunk)))
  {
    hide NextRead, Frame, PadChunk;
    assert (e.blkNum + 255) % 256 % 2 != e.blkNum % 2;
  }

  /** Sending a block for the first time sends block `k` of the file, and the buffers go on holding the last
      block and the next one: the two buffers refine the list of all blocks of the file. */
  lemma SendNewRefines(files: seq<SrcFile>, c: Ctx)
    requires BuffersHold(files, c) && c.fd == c.fileNameIndex - 1
    requires c.k == 0 || c.bytesRd > 0
    ensures var d := SendNew(files, c);
            && CurrentBlk(c) == Block(Current(files, c), c.k)
            && BuffersHold(files, d)
            && LastBlk(d) == Block(Current(files, d), c.k)
  {
    hide Frame, StatBlk, DataBlk, PadChunk, ChunkOf, NextRead, EndOf;
    var e := c.(blkNum := Succ(c.blkNum), k := c.k + 1);
    NeighbouringNumbers(c.k);
    NeighbouringNumbers(c.k + 1);
    GenBlkPrepares(files, e);
    PreparedHolds(files, c, e, GenBlk(files, e));
  }

  lemma PreparedHolds(files: seq<SrcFile>, c: Ctx, e: Ctx, g: Ctx)
    requires BuffersHold(files, c) && (c.k == 0 || c.bytesRd > 0)
    requires e == c.(blkNum := Succ(c.blkNum), k := c.k + 1)
    requires e.blkNum == NumOf(e.k) && (e.blkNum + 255) % 256 == c.blkNum
    requires Prepared(Current(files, c), e, g)
    ensures CurrentBlk(c) == Block(Current(files, c), c.k)
    ensures BuffersHold(files, g)
    ensures LastBlk(g) == Block(Current(files, g), c.k)
  {
    hide Frame, StatBlk, DataBlk, PadChunk, ChunkOf, EndOf;
    assert LastBlk(e) == CurrentBlk(c);
  }

  /** `bytesRd` is zero exactly when all data blocks have been sent. */
  lemma NothingLeft(files: seq<SrcFile>, c: Ctx)
    requires BuffersHold(files, c) && c.k > 0
    ensures c.bytesRd == 0 <==> c.k - 1 >= BlockCount(Current(files, c).content)
    ensures 0 <= c.bytesRd <= CHUNK_SZ
  {
    CountIsEnough(Current(files, c).content, c.k - 1);
  }
}
