/** The receiver's context (ReceiverY.cpp): the received block, the output file and the counters. */
module ReceiverContext {
  import opened Bytes
  import opened Text
  import opened Blocks
  import opened Session

  /** A file that the receiver has created, and what has been written to it. */
  datatype OutFile = OutFile(name: Data, data: Data)

  /** What the file system answers: whether `creat` succeeds, and what `close` returns. */
  datatype Env = Env(creatOk: bool, closeRc: int)

  /** A value of the receiver's fields. `fd` is -1 when no file is open, and otherwise the index in `outs` of
      the open file. */
  datatype Ctx = Ctx(
    rx: Reception, fd: int, closeProb: int, anotherFile: byte, bytesRemaining: int,
    errCnt: nat, kbCan: bool, outs: seq<OutFile>, result: seq<Phrase>)
  {
    ghost predicate Valid()
    {
      rx.Valid()
    }

    function Append(p: Phrase): Ctx
    {
      this.(result := result + [p])
    }
  }

  function InitialCtx(): Ctx
  {
    Ctx(Reception(Fill(BUF_SZ, 0), false, false, false, 255), -1, 1, 0xFF, 0, 0, false, [], [])
  }

  function GetRestBlk(c: Ctx, rd: Data): Ctx
    requires c.Valid() && |rd| < BUF_SZ
  {
    c.(rx := GetRest(c.rx, c.fd != -1, rd))
  }

  /** Whether `getRestBlk` ends by discarding what else the medium has delivered. */
  predicate GetRestPurges(c: Ctx, rd: Data)
    requires c.Valid() && |rd| < BUF_SZ
  {
    |rd| >= REST_BLK_SZ && !GetRestBlk(c, rd).rx.goodBlk
  }

  /** How many bytes `writeChunk` writes. */
  function WriteSize(bytesRemaining: int): nat
  {
    if bytesRemaining <= 0 then 0
    else if bytesRemaining < CHUNK_SZ then bytesRemaining
    else CHUNK_SZ
  }

  function WriteChunk(c: Ctx): Ctx
    requires c.Valid()
  {
    if c.bytesRemaining <= 0 then c
    else
      var d := c.(bytesRemaining := c.bytesRemaining - CHUNK_SZ);
      if 0 <= c.fd < |c.outs| then
        var f := c.outs[c.fd];
        d.(outs := c.outs[c.fd := f.(data := f.data + c.rx.Payload()[..WriteSize(c.bytesRemaining)])])
      else d
  }

  /** What opening a file leaves, and whether reading the size has thrown an exception. */
  datatype Opened = Opened(c: Ctx, threw: bool)

  /** Creates the file named in the stat block, and then reads the size. */
  function OpenFile(c: Ctx, env: Env): Opened
    requires c.Valid()
  {
    var d := if env.creatOk then c.(fd := |c.outs|, outs := c.outs + [OutFile(StatName(c.rx.rcvBlk), [])])
             else c.(fd := -1);
    match StatSize(c.rx.rcvBlk)
    case None => Opened(d, true)
    case Some(size) => Opened(d.(bytesRemaining := size), false)
  }

  function CloseFile(c: Ctx, env: Env): Ctx
  {
    if c.fd > -1 then
      if env.closeRc != 0 then c.(closeProb := env.closeRc)
      else c.(closeProb := 0, fd := -1, rx := c.rx.(numLastGoodBlk := 255))
    else c
  }

  function CheckForAnotherFile(c: Ctx): Ctx
    requires c.Valid()
  {
    c.(anotherFile := c.rx.rcvBlk[DATA_POS])
  }

  // --------------------------------------------------- chunking round trip

  /** After `k` blocks of `content` have been written to the open file. */
  ghost predicate HasWritten(c: Ctx, content: Data, k: nat)
  {
    && 0 <= c.fd < |c.outs|
    && c.outs[c.fd].data == WrittenAfter(content, k)
    && c.bytesRemaining == |content| - CHUNK_SZ * k
  }

  /** Writing the next block goes on rebuilding the file, whatever the padding looks like. */
  lemma WriteNextChunk(c: Ctx, content: Data, k: nat)
    requires c.Valid() && 0 < k <= BlockCount(content) && HasWritten(c, content, k - 1)
    requires c.rx.Payload() == PadChunk(ChunkOf(content, k))
    ensures HasWritten(WriteChunk(c), content, k)
    ensures var d := WriteChunk(c);
            && d == c.(outs := d.outs, bytesRemaining := d.bytesRemaining)
            && |d.outs| == |c.outs| && d.outs[c.fd].name == c.outs[c.fd].name
            && forall i :: 0 <= i < |c.outs| && i != c.fd ==> d.outs[i] == c.outs[i]
  {
    NextChunk(content, k);
  }

  /** Bytes on disk and bytes still missing add up to the declared size after every block. */
  lemma SizesAddUp(c: Ctx, content: Data, k: nat)
    requires k <= BlockCount(content) && HasWritten(c, content, k)
    ensures |c.outs[c.fd].data| + (if c.bytesRemaining > 0 then c.bytesRemaining else 0) == |content|
    ensures k == BlockCount(content) ==> c.outs[c.fd].data == content
  {
    CountIsEnough(content, k);
  }

  /** Block `k` of `content` received and written. */
  function WriteBlk(c: Ctx, content: Data, k: nat): (d: Ctx)
    requires c.Valid() && k > 0
    ensures d.Valid()
  {
    WriteChunk(c.(rx := c.rx.(rcvBlk := Stored(c.rx.rcvBlk, DataBlk(content, k)[1..]))))
  }

  lemma WriteNextBlk(c: Ctx, content: Data, k: nat)
    requires c.Valid() && 0 < k <= BlockCount(content) && HasWritten(c, content, k - 1)
    ensures HasWritten(WriteBlk(c, content, k), content, k) && WriteBlk(c, content, k).fd == c.fd
  {
    var payload := PadChunk(ChunkOf(content, k));
    FrameParts(c.rx, NumOf(k), payload);
    WriteNextChunk(c.(rx := c.rx.(rcvBlk := Stored(c.rx.rcvBlk, Frame(NumOf(k), payload)[1..]))), content, k);
  }

  /** The receiver after all data blocks up to `k` have been written one after the other. */
  function WriteAll(c: Ctx, content: Data, k: nat): (d: Ctx)
    requires c.Valid()
    ensures d.Valid()
  {
    if k == 0 then c else WriteBlk(WriteAll(c, content, k - 1), content, k)
  }

  /** Folding `writeChunk` over the blocks that the sender makes of a file rebuilds the file. */
  lemma {:induction false} ChunkingRoundTrip(c: Ctx, content: Data, k: nat)
    requires c.Valid() && k <= BlockCount(content) && HasWritten(c, content, 0)
    ensures HasWritten(WriteAll(c, content, k), content, k)
    ensures WriteAll(c, content, k).fd == c.fd
    ensures k == BlockCount(content) ==> WriteAll(c, content, k).outs[c.fd].data == content
  {
    hide WriteBlk;
    if k != 0 {
      ChunkingRoundTrip(c, content, k - 1);
      WriteNextBlk(WriteAll(c, content, k - 1), content, k);
    }
    SizesAddUp(WriteAll(c, content, k), content, k);
  }
}
