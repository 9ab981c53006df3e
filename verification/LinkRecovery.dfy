/** Recovery on the link: a block, a damaged block or a reply that gets lost is made good for, and how often in a row. */
module LinkRecovery {
  import opened Bytes
  import opened Text
  import opened Blocks
  import opened Session
  import opened SenderSteps
  import opened ReceiverSteps
  import opened Link
  import opened LinkStages
  import LinkSafety
  import SenderContext
  import SenderReplies
  import ReceiverContext
  import ReceiverReplies
  import S = SenderChart
  import R = ReceiverChart

  type Env = ReceiverContext.Env

  /** The current file of the sender. */
  function Current(files: seq<SrcFile>, c: SenderContext.Ctx): SrcFile
    requires c.named && 0 < c.fileNameIndex <= |files|
  {
    SenderContext.Current(files, c)
  }

  /** Both machines are in the data phase of the same file, no cancel is pending, and the receiver has accepted block `i`
      of the file, or all blocks before it. */
  ghost predicate AtBlock(files: seq<SrcFile>, y: Sys, i: nat)
  {
    && Live(files, y.s) && y.s.leaf == S.AckNak && y.phase == S.AckNak && !y.s.ctx.kbCan && y.s.ctx.k == i + 1 && i > 0
    && y.s.ctx.named && 0 < y.s.ctx.fileNameIndex <= |files|
    && y.r.leaf == R.FirstByteData && !y.r.ctx.kbCan
    && (IsNew(files, y, i) || (Receiving(y.r, Current(files, y.s.ctx), i) && y.r.ctx.anotherFile == 0))
  }

  /** Block `i` is still new to the receiver. */
  ghost predicate IsNew(files: seq<SrcFile>, y: Sys, i: nat)
    requires y.s.ctx.named && 0 < y.s.ctx.fileNameIndex <= |files|
  {
    i > 0 && Receiving(y.r, Current(files, y.s.ctx), i - 1)
  }

  /** Block `i` is on its way to the receiver, alone on the line, and no reply is on its way back. */
  ghost predicate BlockOut(files: seq<SrcFile>, y: Sys, i: nat)
  {
    && AtBlock(files, y, i) && SenderContext.FileFits(Current(files, y.s.ctx))
    && y.s2r == [Blk(SenderContext.Block(Current(files, y.s.ctx), i))] && y.r2s == []
  }

  lemma Fits(files: seq<SrcFile>, y: Sys, i: nat)
    requires AtBlock(files, y, i)
    ensures SenderContext.FilesFit(files) && SenderContext.FileFits(Current(files, y.s.ctx)) && y.r.Valid()
    ensures Current(files, y.s.ctx).openable && i <= BlockCount(Current(files, y.s.ctx).content)
    ensures y.r.ctx.fd >= 0
  {
    SenderReplies.Placed(files, y.s);
    hide Holds, BlockCount, SenderContext.FileFits, DoneCount, ReceiverContext.HasWritten, PadChunk, ChunkOf;
  }

  /** The errors that both sides have counted, and nothing else, may differ. */
  ghost predicate SamePlaces(y: Sys, z: Sys)
  {
    && SamePlace(y.s.ctx, z.s.ctx) && z.s.ctx.result == y.s.ctx.result
    && z.r.ctx.result == y.r.ctx.result && z.r.ctx.fd == y.r.ctx.fd
  }

  // -------------------------------------------------------- single steps

  lemma FirstItemLost(files: seq<SrcFile>, y: Sys)
    requires SenderContext.FilesFit(files) && y.r.Valid() && |y.s2r| == 1
    ensures Step(files, y, LoseItem(0)) == y.(s2r := [])
  {
  }

  lemma StillReceiving(r: R.Receiver, t: R.Receiver, f: SrcFile, j: nat)
    requires Receiving(r, f, j) && t == r.(ctx := r.ctx.(errCnt := t.ctx.errCnt))
    ensures Receiving(t, f, j)
  {
    hide PadChunk, ChunkOf, DoneCount, WrittenAfter;
  }

  /** The receiver asks again by a NAK. */
  lemma ReceiverAsks(files: seq<SrcFile>, y: Sys, i: nat, env: Env)
    requires AtBlock(files, y, i) && y.r.ctx.errCnt < 10
    ensures var z := Step(files, y, ReceiverTimeout(env));
            && AtBlock(files, z, i) && (IsNew(files, z, i) <==> IsNew(files, y, i))
            && z == y.(r := y.r.(ctx := y.r.ctx.(errCnt := y.r.ctx.errCnt + 1)), r2s := y.r2s + [NAK])
  {
    hide Live, Receiving, R.React, SenderContext.FilesFit, SenderContext.FileFits, BlockCount;
    Fits(files, y, i);
    ReceiverReplies.RepliesToTimeout(y.r, env);
    var f := Current(files, y.s.ctx);
    var z := Step(files, y, ReceiverTimeout(env));
    if IsNew(files, y, i) {
      StillReceiving(y.r, z.r, f, i - 1);
    } else {
      StillReceiving(y.r, z.r, f, i);
      NotBoth(z.r, f, i);
    }
  }

  /** At a NAK the sender puts the block on the line again. */
  lemma SenderRepeats(files: seq<SrcFile>, y: Sys, i: nat, now: int)
    requires AtBlock(files, y, i) && y.s2r == [] && y.r2s == [NAK] && y.s.ctx.errCnt < 10
    ensures var z := Step(files, y, SenderReads(now));
            && BlockOut(files, z, i) && (IsNew(files, z, i) <==> IsNew(files, y, i)) && z.r == y.r
            && z.s.ctx.errCnt == y.s.ctx.errCnt + 1 && SamePlaces(y, z)
  {
    hide Receiving, Shape, Holds, S.React, SenderContext.FilesFit, SenderContext.FileFits, BlockCount;
    hide SenderContext.Block;
    Fits(files, y, i);
    SenderReplies.NakReply(files, y.s, now);
    var o := S.React(files, y.s, S.Ser(NAK), now);
    Carried(files, S.AckNak, S.AckNak, y.s.ctx, o.s.ctx);
    assert y.r2s[1..] == [];
  }

  /** A damaged block is stored, and refused by a NAK once nothing more can be read. */
  lemma DamagedIsRefused(files: seq<SrcFile>, y: Sys, i: nat, rest: Data, env: Env)
    requires AtBlock(files, y, i) && y.s2r == [] && y.r2s == [] && y.r.ctx.errCnt < 9
    requires |rest| < BUF_SZ && Rejected(y.r.ctx.rx, true, rest)
    ensures var z := Step(files, Step(files, y, ReceiverGlitch(SOH, rest, env)), ReceiverTimeout(env));
            && AtBlock(files, z, i) && (IsNew(files, z, i) <==> IsNew(files, y, i))
            && z.s == y.s && z.s2r == [] && z.r2s == [NAK] && SamePlaces(y, z)
            && z.r.ctx.errCnt == y.r.ctx.errCnt + 1 && z.r.ctx.outs == y.r.ctx.outs
  {
    hide Live, Receiving, R.React, SenderContext.FilesFit, SenderContext.FileFits, BlockCount, Rejected, GetRest;
    Fits(files, y, i);
    var f := Current(files, y.s.ctx);
    var j: nat := if IsNew(files, y, i) then i - 1 else i;
    NoiseIsRefused(y.r, f, j, rest, env);
    NotBoth(R.React(R.React(y.r, R.Ser(SOH, rest), env).r, R.Tm, env).r, f, i);
    assert y.r2s + [] == [] && [] + [NAK] == [NAK];
  }

  lemma NoiseIsRefused(r: R.Receiver, f: SrcFile, j: nat, rest: Data, env: Env)
    requires Receiving(r, f, j) && r.leaf == R.FirstByteData && !r.ctx.kbCan && r.ctx.errCnt < 9
    requires |rest| < BUF_SZ && Rejected(r.ctx.rx, true, rest)
    ensures r.Valid() && r.ctx.fd >= 0
    ensures var o := R.React(r, R.Ser(SOH, rest), env);
            var o' := R.React(o.r, R.Tm, env);
            && o.sent == [] && o.r.leaf == R.TransientData && o'.sent == [NAK] && Receiving(o'.r, f, j)
            && o'.r.leaf == R.FirstByteData
            && o'.r.ctx == r.ctx.(rx := o'.r.ctx.rx, errCnt := r.ctx.errCnt + 1)
  {
    hide R.React, GetRest, PadChunk, ChunkOf, DoneCount, WrittenAfter, ReceiverContext.WriteChunk;
    ReceiverReplies.BlockIsStored(r, rest, env);
    RejectedIsOld(r.ctx.rx, rest);
    var o := R.React(r, R.Ser(SOH, rest), env);
    ReceiverReplies.RepliesToBlock(o.r, env);
    var x := GetRest(r.ctx.rx, true, rest);
    assert o.r.ctx.rx == x;
  }

  /** A rejected block is not new, and leaves the number of the last good one alone. */
  lemma RejectedIsOld(x: Reception, rest: Data)
    requires x.Valid() && |rest| < BUF_SZ && Rejected(x, true, rest)
    ensures var y := GetRest(x, true, rest);
            !y.goodBlk && !y.goodBlk1st && y.numLastGoodBlk == x.numLastGoodBlk && y.syncLoss == x.syncLoss
  {
    hide CrcMatches, Stored;
  }

  /** An intact block is stored, and once nothing more can be read an ACK goes out, whether it is new or repeated. */
  lemma BlockIsTaken(files: seq<SrcFile>, y: Sys, i: nat, env: Env)
    requires BlockOut(files, y, i) && (IsNew(files, y, i) || y.r.ctx.errCnt < 9)
    ensures var z := Step(files, Step(files, y, ReceiverReads(env)), ReceiverTimeout(env));
            && AtBlock(files, z, i) && Receiving(z.r, Current(files, z.s.ctx), i) && z.r.ctx.anotherFile == 0
            && z.s == y.s && z.s2r == [] && z.r2s == [ACK] && SamePlaces(y, z)
            && z.r.ctx.errCnt == if IsNew(files, y, i) then 0 else y.r.ctx.errCnt + 1
  {
    hide Live, Receiving, R.React, SenderContext.FilesFit, SenderContext.FileFits, SenderContext.Block;
    hide BlockCount, GetRest;
    Fits(files, y, i);
    var f := Current(files, y.s.ctx);
    var b := SenderContext.Block(f, i);
    StartsWithSoh(f, i);
    var j: nat := if IsNew(files, y, i) then i - 1 else i;
    GoodIsTaken(y.r, f, j, i, env);
    var y1 := Step(files, y, ReceiverReads(env));
    assert y.s2r[1..] == [] && [] + [ACK] == [ACK];
    assert y1 == y.(r := R.React(y.r, R.Ser(SOH, b[1..]), env).r, s2r := []);
    NotBoth(y.r, f, i);
  }

  lemma NotBoth(r: R.Receiver, f: SrcFile, i: nat)
    requires i > 0
    ensures !(Receiving(r, f, i - 1) && Receiving(r, f, i))
  {
    SenderContext.NeighbouringNumbers(i - 1);
    hide DoneCount, BlockCount, PadChunk, ChunkOf, WrittenAfter;
  }

  lemma GoodIsTaken(r: R.Receiver, f: SrcFile, j: nat, i: nat, env: Env)
    requires Receiving(r, f, j) && r.leaf == R.FirstByteData && !r.ctx.kbCan && SenderContext.FileFits(f)
    requires i == j + 1 <= BlockCount(f.content) || (i == j && r.ctx.errCnt < 9 && r.ctx.anotherFile == 0)
    ensures r.Valid()
    ensures var o := R.React(r, R.Ser(SOH, SenderContext.Block(f, i)[1..]), env);
            var o' := R.React(o.r, R.Tm, env);
            && o.sent == [] && o.r.leaf == R.TransientData && o'.sent == [ACK] && Receiving(o'.r, f, i)
            && o'.r.leaf == R.FirstByteData && !o'.r.ctx.kbCan && o'.r.ctx.anotherFile == 0
            && o'.r.ctx.errCnt == (if i == j + 1 then 0 else r.ctx.errCnt + 1)
            && o'.r.ctx.result == r.ctx.result && o'.r.ctx.fd == r.ctx.fd
  {
    hide Receiving, R.React, SenderContext.FileFits, SenderContext.Block, BlockCount, GetRest, ReceiverContext.WriteChunk;
    DataLeaf(r, f, j);
    var rest := SenderContext.Block(f, i)[1..];
    ReceivingBlk(r, f, j, i, env);
    ReceiverReplies.BlockIsStored(r, rest, env);
    GoodStored(r, f, j, i);
    var o := R.React(r, R.Ser(SOH, rest), env);
    ReceiverReplies.RepliesToBlock(o.r, env);
    ReceivingReplies(o.r, f, i, env);
    WriteKeeps(o.r.ctx);
  }

  lemma GoodStored(r: R.Receiver, f: SrcFile, j: nat, i: nat)
    requires Receiving(r, f, j) && SenderContext.FileFits(f) && (i == j || i == j + 1)
    ensures var x := GetRest(r.ctx.rx, true, SenderContext.Block(f, i)[1..]);
            x.goodBlk && (x.goodBlk1st <==> i == j + 1) && !x.syncLoss
  {
    hide SenderContext.FileFits, SenderContext.Block, BlockCount, GetRest, DoneCount, WrittenAfter, PadChunk, ChunkOf;
    AcceptedBlk(r.ctx.rx, f, j, i);
  }

  lemma WriteKeeps(c: ReceiverContext.Ctx)
    requires c.Valid()
    ensures var d := ReceiverContext.WriteChunk(c);
            d == c.(outs := d.outs, bytesRemaining := d.bytesRemaining)
  {
  }

  /** At an ACK the sender goes on: with the next block, or with an EOT when there is none. */
  lemma SenderGoesOn(files: seq<SrcFile>, y: Sys, i: nat, now: int)
    requires AtBlock(files, y, i) && Receiving(y.r, Current(files, y.s.ctx), i) && y.s2r == [] && y.r2s == [ACK]
    ensures Gone(files, y, Step(files, y, SenderReads(now)), i) && Step(files, y, SenderReads(now)).r == y.r
  {
    hide Receiving, Shape, Holds, S.React, SenderContext.FilesFit, SenderContext.FileFits, BlockCount;
    hide SenderContext.Block;
    Fits(files, y, i);
    SenderReplies.AckReply(files, y.s, now);
    assert y.r2s[1..] == [];
    assert y.s2r + [Eot] == [Eot];
  }

  /** Block `i` has arrived, and the sender has gone on behind it. */
  ghost predicate Gone(files: seq<SrcFile>, y: Sys, z: Sys, i: nat)
    requires AtBlock(files, y, i)
  {
    var f := Current(files, y.s.ctx);
    && z.s.ctx.fileNameIndex == y.s.ctx.fileNameIndex && z.s.ctx.named && z.s.ctx.result == y.s.ctx.result
    && z.s.ctx.errCnt == 0 && !z.s.ctx.kbCan && !z.r.ctx.kbCan
    && (i < BlockCount(f.content) ==> BlockOut(files, z, i + 1) && IsNew(files, z, i + 1))
    && (i >= BlockCount(f.content) ==>
          && Live(files, z.s) && z.s.leaf == S.Eot1 && z.phase == S.Eot1 && z.s2r == [Eot] && z.r2s == []
          && z.r.leaf == R.FirstByteData && Receiving(z.r, f, BlockCount(f.content)))
  }

  // -------------------------------------------------------------- faults

  /** What can befall a block on its way: it vanishes; something else arrives in its place that the receiver rejects; or
      it arrives, and the reply to it vanishes. */
  datatype Fault =
    | BlockLost(env: Env, now: int)
    | BlockDamaged(rest: Data, env: Env, now: int)
    | ReplyLost(env: Env, now: int)
  {
    /** How many errors the receiver may count for it. */
    function Cost(): nat
    {
      if ReplyLost? then 2 else 1
    }

    /** The fault, and what both sides do about it. */
    function Acts(): seq<Act>
    {
      match this
      case BlockLost(env, now) => [LoseItem(0), ReceiverTimeout(env), SenderReads(now)]
      case BlockDamaged(rest, env, now) =>
        [LoseItem(0)] + [ReceiverGlitch(SOH, rest, env), ReceiverTimeout(env), SenderReads(now)]
      case ReplyLost(env, now) =>
        [ReceiverReads(env), ReceiverTimeout(env)] + [LoseReply(0), ReceiverTimeout(env), SenderReads(now)]
    }
  }

  ghost predicate Strikes(y: Sys, fault: Fault)
    requires y.r.Valid()
  {
    fault.BlockDamaged? ==> |fault.rest| < BUF_SZ && Rejected(y.r.ctx.rx, true, fault.rest)
  }

  /** The block is out again, and the receiver may have got it or not. */
  ghost predicate OutAgain(files: seq<SrcFile>, y: Sys, z: Sys, i: nat, cost: nat)
    requires y.s.ctx.named && 0 < y.s.ctx.fileNameIndex <= |files|
  {
    && BlockOut(files, z, i) && SamePlaces(y, z)
    && z.r.ctx.errCnt <= y.r.ctx.errCnt + cost
    && (IsNew(files, y, i) && !IsNew(files, z, i) ==> z.r.ctx.errCnt < cost)
    && (!IsNew(files, y, i) ==> !IsNew(files, z, i))
  }

  lemma LostBlockMadeGood(files: seq<SrcFile>, y: Sys, i: nat, env: Env, now: int)
    requires BlockOut(files, y, i) && y.s.ctx.errCnt < 10 && y.r.ctx.errCnt < 10
    ensures var z := Run(files, y, [LoseItem(0), ReceiverTimeout(env), SenderReads(now)]);
            && BlockOut(files, z, i) && (IsNew(files, z, i) <==> IsNew(files, y, i)) && SamePlaces(y, z)
            && z.s.ctx.errCnt == y.s.ctx.errCnt + 1
            && z.r == y.r.(ctx := y.r.ctx.(errCnt := y.r.ctx.errCnt + 1))
  {
    hide Run, Step, Live, Receiving, SenderContext.FilesFit, SenderContext.FileFits, SenderContext.Block;
    Fits(files, y, i);
    RunOfThree(files, y, LoseItem(0), ReceiverTimeout(env), SenderReads(now));
    FirstItemLost(files, y);
    var y1 := y.(s2r := []);
    assert [] + [NAK] == [NAK];
    ReceiverAsks(files, y1, i, env);
    SenderRepeats(files, Step(files, y1, ReceiverTimeout(env)), i, now);
  }

  lemma DamagedBlockMadeGood(files: seq<SrcFile>, y: Sys, i: nat, rest: Data, env: Env, now: int)
    requires BlockOut(files, y, i) && y.s.ctx.errCnt < 10 && y.r.ctx.errCnt < 9
    requires |rest| < BUF_SZ && Rejected(y.r.ctx.rx, true, rest)
    ensures var z := Run(files, y, BlockDamaged(rest, env, now).Acts());
            && BlockOut(files, z, i) && (IsNew(files, z, i) <==> IsNew(files, y, i)) && SamePlaces(y, z)
            && z.s.ctx.errCnt == y.s.ctx.errCnt + 1 && z.r.ctx.errCnt == y.r.ctx.errCnt + 1
  {
    hide Run, Step, Live, Receiving, SenderContext.FilesFit, SenderContext.FileFits, SenderContext.Block, Rejected;
    Fits(files, y, i);
    var a, b, c := ReceiverGlitch(SOH, rest, env), ReceiverTimeout(env), SenderReads(now);
    RunAppend(files, y, [LoseItem(0)], [a, b, c]);
    RunOfOne(files, y, LoseItem(0));
    FirstItemLost(files, y);
    var y1 := y.(s2r := []);
    RunOfThree(files, y1, a, b, c);
    DamagedIsRefused(files, y1, i, rest, env);
    SenderRepeats(files, Step(files, Step(files, y1, a), b), i, now);
  }

  lemma ReplyVanishes(files: seq<SrcFile>, y: Sys)
    requires SenderContext.FilesFit(files) && y.r.Valid() && |y.r2s| == 1
    ensures Step(files, y, LoseReply(0)) == y.(r2s := [])
  {
  }

  lemma LostReplyMadeGood(files: seq<SrcFile>, y: Sys, i: nat, env: Env, now: int)
    requires BlockOut(files, y, i) && y.s.ctx.errCnt < 10 && (IsNew(files, y, i) || y.r.ctx.errCnt < 9)
    ensures var z := Run(files, y, ReplyLost(env, now).Acts());
            && BlockOut(files, z, i) && !IsNew(files, z, i) && SamePlaces(y, z)
            && z.s.ctx.errCnt == y.s.ctx.errCnt + 1
            && z.r.ctx.errCnt == if IsNew(files, y, i) then 1 else y.r.ctx.errCnt + 2
  {
    hide Run, Step, Live, Receiving, SenderContext.FilesFit, SenderContext.FileFits, SenderContext.Block;
    var a, b := ReceiverReads(env), ReceiverTimeout(env);
    RunAppend(files, y, [a, b], [LoseReply(0), b, SenderReads(now)]);
    RunOfTwo(files, y, a, b);
    BlockIsTaken(files, y, i, env);
    var y1 := Step(files, Step(files, y, a), b);
    Fits(files, y1, i);
    NotBoth(y1.r, Current(files, y1.s.ctx), i);
    RunOfThree(files, y1, LoseReply(0), b, SenderReads(now));
    ReplyVanishes(files, y1);
    var y2 := y1.(r2s := []);
    assert [] + [NAK] == [NAK];
    ReceiverAsks(files, y2, i, env);
    SenderRepeats(files, Step(files, y2, b), i, now);
  }

  lemma MadeGood(files: seq<SrcFile>, y: Sys, i: nat, fault: Fault)
    requires BlockOut(files, y, i) && y.r.Valid() && Strikes(y, fault)
    requires y.s.ctx.errCnt < 10 && y.r.ctx.errCnt + fault.Cost() <= 8
    ensures var z := Run(files, y, fault.Acts());
            OutAgain(files, y, z, i, fault.Cost()) && z.s.ctx.errCnt == y.s.ctx.errCnt + 1
  {
    hide Run, AtBlock, BlockOut, Receiving, Rejected;
    BlockNamed(files, y, i);
    match fault {
      case BlockLost(env, now) => LostBlockMadeGood(files, y, i, env, now);
      case BlockDamaged(rest, env, now) => DamagedBlockMadeGood(files, y, i, rest, env, now);
      case ReplyLost(env, now) => LostReplyMadeGood(files, y, i, env, now);
    }
  }

  lemma BlockNamed(files: seq<SrcFile>, y: Sys, i: nat)
    requires BlockOut(files, y, i)
    ensures y.s.ctx.named && 0 < y.s.ctx.fileNameIndex <= |files| && y.r.Valid() && i > 0
  {
    hide SenderContext.Block, SenderContext.FileFits;
    Fits(files, y, i);
  }

  function TotalCost(faults: seq<Fault>): nat
  {
    if faults == [] then 0 else TotalCost(faults[..|faults| - 1]) + faults[|faults| - 1].Cost()
  }

  function ActsOf(faults: seq<Fault>): seq<Act>
  {
    if faults == [] then [] else ActsOf(faults[..|faults| - 1]) + faults[|faults| - 1].Acts()
  }

  /** Each fault can strike where it does. */
  ghost predicate AllStrike(files: seq<SrcFile>, y: Sys, faults: seq<Fault>)
  {
    faults != [] ==>
      var n := |faults| - 1;
      var z := Run(files, y, ActsOf(faults[..n]));
      AllStrike(files, y, faults[..n]) && z.r.Valid() && Strikes(z, faults[n])
  }

  /** Faults that cost no more than the receiver has errors left leave the block out again, however they are mixed. */
  lemma {:induction false} AllMadeGood(files: seq<SrcFile>, y: Sys, i: nat, faults: seq<Fault>)
    requires BlockOut(files, y, i) && AllStrike(files, y, faults)
    requires y.s.ctx.errCnt + |faults| <= 10 && y.r.ctx.errCnt + TotalCost(faults) <= 8
    ensures y.s.ctx.named && 0 < y.s.ctx.fileNameIndex <= |files|
    ensures var z := Run(files, y, ActsOf(faults));
            OutAgain(files, y, z, i, TotalCost(faults)) && z.s.ctx.errCnt == y.s.ctx.errCnt + |faults|
  {
    hide Run, BlockOut, IsNew, Strikes;
    BlockNamed(files, y, i);
    if faults == [] {
      NoActs(files, y);
    } else {
      var n := |faults| - 1;
      AllMadeGood(files, y, i, faults[..n]);
      var z := Run(files, y, ActsOf(faults[..n]));
      MadeGood(files, z, i, faults[n]);
      RunAppend(files, y, ActsOf(faults[..n]), faults[n].Acts());
    }
  }

  lemma NoActs(files: seq<SrcFile>, y: Sys)
    ensures Run(files, y, []) == y
  {
  }

  /** The last three acts: the block arrives, and so does its ACK. */
  function ArrivalActs(env: Env, now: int): seq<Act>
  {
    [ReceiverReads(env), ReceiverTimeout(env), SenderReads(now)]
  }

  lemma GetsThrough(files: seq<SrcFile>, y: Sys, i: nat, env: Env, now: int)
    requires BlockOut(files, y, i) && (IsNew(files, y, i) || y.r.ctx.errCnt < 9)
    ensures var z := Run(files, y, ArrivalActs(env, now));
            Gone(files, y, z, i) && z.r.ctx.errCnt == if IsNew(files, y, i) then 0 else y.r.ctx.errCnt + 1
  {
    hide Run, Step, Receiving, Live, SenderContext.FileFits, SenderContext.Block, BlockCount;
    RunOfThree(files, y, ReceiverReads(env), ReceiverTimeout(env), SenderReads(now));
    BlockIsTaken(files, y, i, env);
    SenderGoesOn(files, Step(files, Step(files, y, ReceiverReads(env)), ReceiverTimeout(env)), i, now);
  }

  /** Recovery: from any moment at which a data block is on its way with no cancel pending, whatever mix of lost blocks,
      damaged blocks and lost replies befalls it, within what the receiver still puts up with, the block arrives and the
      sender goes on to the next one, or to the end of the file. */
  lemma Recovers(files: seq<SrcFile>, y: Sys, i: nat, faults: seq<Fault>, env: Env, now: int)
    requires BlockOut(files, y, i) && AllStrike(files, y, faults)
    requires y.s.ctx.errCnt + |faults| <= 10 && y.r.ctx.errCnt + TotalCost(faults) <= 8
    ensures var z := Run(files, y, ActsOf(faults) + ArrivalActs(env, now));
            && Gone(files, y, z, i)
            && (IsNew(files, y, i) ==> z.r.ctx.errCnt <= TotalCost(faults))
  {
    hide Run, AllStrike, AtBlock, ActsOf, ArrivalActs, TotalCost, Receiving, BlockCount, Live;
    AllMadeGood(files, y, i, faults);
    var x := Run(files, y, ActsOf(faults));
    GetsThrough(files, x, i, env, now);
    RunAppend(files, y, ActsOf(faults), ArrivalActs(env, now));
  }

  // -------------------------------------------------------- a whole file

  /** What happens to one block: some faults, and then its arrival. */
  datatype Round = Round(faults: seq<Fault>, env: Env, now: int)
  {
    function Acts(): seq<Act>
    {
      ActsOf(faults) + ArrivalActs(env, now)
    }
  }

  function ActsOfRounds(rounds: seq<Round>): seq<Act>
  {
    if rounds == [] then [] else rounds[0].Acts() + ActsOfRounds(rounds[1..])
  }

  /** In each round faults of a cost of at most four strike: four lost or damaged blocks, or two lost replies. */
  ghost predicate Bearable(files: seq<SrcFile>, y: Sys, rounds: seq<Round>)
    decreases |rounds|
  {
    rounds != [] ==>
      && AllStrike(files, y, rounds[0].faults) && TotalCost(rounds[0].faults) <= 4
      && Bearable(files, Run(files, y, rounds[0].Acts()), rounds[1..])
  }

  lemma {:induction false} CostIsEnough(faults: seq<Fault>)
    ensures |faults| <= TotalCost(faults)
  {
    if faults != [] {
      CostIsEnough(faults[..|faults| - 1]);
    }
  }

  /** The receiver has all of the file of the sender's that it is to have. */
  ghost predicate HasAll(y: Sys, f: SrcFile)
  {
    && 0 <= y.r.ctx.fd < |y.r.ctx.outs| && y.r.ctx.outs[y.r.ctx.fd] == ReceiverContext.OutFile(f.name, f.content)
  }

  lemma AllReceived(files: seq<SrcFile>, y: Sys, f: SrcFile)
    requires Receiving(y.r, f, BlockCount(f.content)) && y.r.leaf == R.FirstByteData
    ensures HasAll(y, f)
  {
    ReceiverContext.SizesAddUp(y.r.ctx, f.content, BlockCount(f.content));
    hide WrittenAfter, BlockCount, DoneCount;
  }

  /** From the first sending of any block on, the rest of the file gets through, whatever bearable faults befall each of
      its blocks: then the receiver has written the whole file, and the sender has put an EOT on the line. */
  lemma {:induction false} FileGetsThrough(files: seq<SrcFile>, y: Sys, i: nat, rounds: seq<Round>)
    requires BlockOut(files, y, i) && IsNew(files, y, i) && y.s.ctx.errCnt == 0 && y.r.ctx.errCnt <= 4
    requires |rounds| == BlockCount(Current(files, y.s.ctx).content) + 1 - i && Bearable(files, y, rounds)
    ensures var z := Run(files, y, ActsOfRounds(rounds));
            && HasAll(z, Current(files, y.s.ctx))
            && z.s.leaf == S.Eot1 && z.s2r == [Eot] && z.s.ctx.fileNameIndex == y.s.ctx.fileNameIndex
            && z.s.ctx.result == y.s.ctx.result
    decreases |rounds|
  {
    hide Run, AllStrike, Receiving, Live, ActsOf, ArrivalActs, TotalCost, BlockCount, SenderContext.Block;
    hide SenderContext.FileFits;
    Fits(files, y, i);
    var f := Current(files, y.s.ctx);
    var round := rounds[0];
    CostIsEnough(round.faults);
    Recovers(files, y, i, round.faults, round.env, round.now);
    var z := Run(files, y, round.Acts());
    RunAppend(files, y, round.Acts(), ActsOfRounds(rounds[1..]));
    if i < BlockCount(f.content) {
      FileGetsThrough(files, z, i + 1, rounds[1..]);
    } else {
      assert rounds[1..] == [];
      NoActs(files, z);
      AllReceived(files, z, f);
    }
  }

  // --------------------------------------------------- how many losses

  /** `n` times the same block is lost. */
  function Losses(n: nat, env: Env, now: int): seq<Act>
  {
    if n == 0 then [] else Losses(n - 1, env, now) + [LoseItem(0), ReceiverTimeout(env), SenderReads(now)]
  }

  /** A block may be lost as often as both sides still count errors: ten times when they have counted none. */
  lemma {:induction false} LossesMadeGood(files: seq<SrcFile>, y: Sys, i: nat, n: nat, env: Env, now: int)
    requires BlockOut(files, y, i) && y.s.ctx.errCnt + n <= 10 && y.r.ctx.errCnt + n <= 10
    ensures var z := Run(files, y, Losses(n, env, now));
            && BlockOut(files, z, i) && (IsNew(files, z, i) <==> IsNew(files, y, i)) && SamePlaces(y, z)
            && z.s.ctx.errCnt == y.s.ctx.errCnt + n && z.r == y.r.(ctx := y.r.ctx.(errCnt := y.r.ctx.errCnt + n))
  {
    hide Run, AtBlock, Receiving;
    if n == 0 {
      NoActs(files, y);
    } else {
      LossesMadeGood(files, y, i, n - 1, env, now);
      LostBlockMadeGood(files, Run(files, y, Losses(n - 1, env, now)), i, env, now);
      RunAppend(files, y, Losses(n - 1, env, now), [LoseItem(0), ReceiverTimeout(env), SenderReads(now)]);
    }
  }

  /** The loss behind that ends the session on both sides: the receiver gives up with eight CAN bytes, and the second of
      them stops the sender. */
  lemma OneLossTooMany(files: seq<SrcFile>, y: Sys, i: nat, env: Env, now: int)
    requires BlockOut(files, y, i) && y.r.ctx.errCnt == 10
    ensures var z := Run(files, y, [LoseItem(0), ReceiverTimeout(env)] + [SenderReads(now), SenderReads(now)]);
            && z.r.leaf == R.Final && z.r.ctx.result == y.r.ctx.result + [ExcessiveErrors]
            && z.s.leaf == S.Final && z.s.ctx.result == y.s.ctx.result + [RcvCancelled] && z.s2r == []
  {
    hide Run, Step, Live, Receiving, SenderContext.FilesFit, SenderContext.FileFits, SenderContext.Block;
    var a, b, c := LoseItem(0), ReceiverTimeout(env), SenderReads(now);
    Fits(files, y, i);
    RunAppend(files, y, [a, b], [c, c]);
    RunOfTwo(files, y, a, b);
    FirstItemLost(files, y);
    var y1 := y.(s2r := []);
    ReceiverGivesUp(files, y1, i, env);
    var y2 := Step(files, y1, b);
    RunOfTwo(files, y2, c, c);
    TwoCansStop(files, y2, now);
  }

  lemma ReceiverGivesUp(files: seq<SrcFile>, y: Sys, i: nat, env: Env)
    requires AtBlock(files, y, i) && y.r.ctx.errCnt == 10 && y.r2s == []
    ensures var z := Step(files, y, ReceiverTimeout(env));
            && z == y.(r := z.r, r2s := [CAN, CAN, CAN, CAN, CAN, CAN, CAN, CAN]) && z.r.Valid()
            && z.r.leaf == R.Final && z.r.ctx.result == y.r.ctx.result + [ExcessiveErrors]
  {
    hide Live, Receiving, R.React, SenderContext.FilesFit, SenderContext.FileFits, BlockCount;
    Fits(files, y, i);
    ReceiverReplies.RepliesToTimeout(y.r, env);
    assert [] + ReceiverReplies.EightCans() == ReceiverReplies.EightCans();
  }

  /** Two CAN bytes at the head stop a sender that waits for a reply to a block. */
  lemma TwoCansStop(files: seq<SrcFile>, y: Sys, now: int)
    requires SenderContext.FilesFit(files) && y.r.Valid() && y.s.leaf == S.AckNak && Live(files, y.s)
    requires !y.s.ctx.kbCan && |y.r2s| >= 2 && y.r2s[0] == CAN && y.r2s[1] == CAN && y.s2r == []
    ensures var z := Step(files, Step(files, y, SenderReads(now)), SenderReads(now));
            z.s.leaf == S.Final && z.s.ctx.result == y.s.ctx.result + [RcvCancelled] && z.s2r == [] && z.r == y.r
  {
    hide Live, S.React, SenderContext.FilesFit;
    SenderReplies.AckNakReplies(files, y.s, CAN, now);
    var s1 := S.React(files, y.s, S.Ser(CAN), now).s;
    SenderReplies.CanReplies(files, s1, CAN, now);
  }

  // ------------------------------------------------ stat blocks and EOTs

  /** A stat block that gets lost is asked for by a 'C', and goes out again. */
  lemma LostStatMadeGood(files: seq<SrcFile>, y: Sys, env: Env, now: int)
    requires Live(files, y.s) && y.s.leaf == S.AckNakStat && y.phase == S.AckNakStat && !y.s.ctx.kbCan
    requires Waiting(y.r) && !y.r.ctx.kbCan && y.r.ctx.errCnt < 10 && |y.s2r| == 1 && y.r2s == []
    ensures SenderContext.FilesFit(files) && y.s.ctx.k > 0
    ensures y.s.ctx.named ==>
              0 < y.s.ctx.fileNameIndex <= |files| && SenderContext.Current(files, y.s.ctx).openable
    ensures var z := Run(files, y, [LoseItem(0), ReceiverTimeout(env), SenderReads(now)]);
            && z.s2r == [SenderReplies.LastSent(files, y.s)] && z.r2s == [] && z.phase == y.phase
            && z.s == y.s.(ctx := y.s.ctx.(errCnt := y.s.ctx.errCnt + 1, absoluteTimeout := now + 15_000_000))
            && z.r == y.r.(ctx := y.r.ctx.(errCnt := y.r.ctx.errCnt + 1))
  {
    hide Run, Live, Waiting, R.React, S.React, SenderContext.FilesFit, SenderReplies.LastSent;
    WaitingLeaf(y.r);
    WaitsClosed(y.r);
    var a, b, c := LoseItem(0), ReceiverTimeout(env), SenderReads(now);
    RunOfThree(files, y, a, b, c);
    ReceiverReplies.RepliesToTimeout(y.r, env);
    SenderReplies.AckNakStatReplies(files, y.s, CHAR_C, now);
    FirstItemLost(files, y);
    var y2 := Step(files, y.(s2r := []), b);
    assert [] + [CHAR_C] == [CHAR_C];
    assert y2 == y.(s2r := [], r := y2.r, r2s := [CHAR_C]);
    assert y2.r2s[1..] == [];
  }

  lemma WaitsClosed(r: R.Receiver)
    requires Waiting(r)
    ensures r.ctx.fd == -1
  {
    hide DoneCount;
  }

  /** An EOT that gets lost is asked for by a NAK, which brings another one. */
  lemma LostEotMadeGood(files: seq<SrcFile>, y: Sys, env: Env, now: int)
    requires Live(files, y.s) && y.s.leaf in {S.Eot1, S.EotEot} && !y.s.ctx.kbCan && y.s.ctx.errCnt < 10
    requires y.r.Valid() && y.r.leaf in {R.FirstByteData, R.EotData} && y.r.ctx.fd >= 0 && !y.r.ctx.kbCan
    requires y.r.ctx.errCnt < 10 && |y.s2r| == 1 && y.r2s == []
    ensures var z := Run(files, y, [LoseItem(0), ReceiverTimeout(env), SenderReads(now)]);
            && z.s2r == [Eot] && z.r2s == [] && z.s.leaf == S.EotEot && SamePlace(y.s.ctx, z.s.ctx) && Live(files, z.s)
            && z.r == y.r.(ctx := y.r.ctx.(errCnt := y.r.ctx.errCnt + 1))
  {
    hide Run, Step, Live, R.React, S.React, SenderContext.FilesFit;
    SenderReplies.Placed(files, y.s);
    var a, b, c := LoseItem(0), ReceiverTimeout(env), SenderReads(now);
    RunOfThree(files, y, a, b, c);
    FirstItemLost(files, y);
    var y1 := y.(s2r := []);
    EotAskedFor(files, y1, env);
    EotGoesOutAgain(files, Step(files, y1, b), now);
  }

  lemma EotAskedFor(files: seq<SrcFile>, y: Sys, env: Env)
    requires SenderContext.FilesFit(files) && y.r.Valid() && y.r.leaf in {R.FirstByteData, R.EotData}
    requires y.r.ctx.fd >= 0 && !y.r.ctx.kbCan && y.r.ctx.errCnt < 10 && y.r2s == []
    ensures Step(files, y, ReceiverTimeout(env))
         == y.(r := y.r.(ctx := y.r.ctx.(errCnt := y.r.ctx.errCnt + 1)), r2s := [NAK])
  {
    hide R.React, SenderContext.FilesFit;
    ReceiverReplies.RepliesToTimeout(y.r, env);
    assert [] + [NAK] == [NAK];
  }

  lemma EotGoesOutAgain(files: seq<SrcFile>, y: Sys, now: int)
    requires SenderContext.FilesFit(files) && y.r.Valid() && y.r2s == [NAK] && y.s2r == []
    requires Live(files, y.s) && y.s.leaf in {S.Eot1, S.EotEot} && !y.s.ctx.kbCan && y.s.ctx.errCnt < 10
    ensures var z := Step(files, y, SenderReads(now));
            && z.s2r == [Eot] && z.r2s == [] && z.s.leaf == S.EotEot && SamePlace(y.s.ctx, z.s.ctx) && Live(files, z.s)
            && z.r == y.r
  {
    hide Live, S.React, SenderContext.FilesFit;
    EotRepeated(files, y.s, now);
    assert y.r2s[1..] == [] && [] + [Eot] == [Eot];
  }

  lemma EotRepeated(files: seq<SrcFile>, s: S.Sender, now: int)
    requires Live(files, s) && s.leaf in {S.Eot1, S.EotEot} && !s.ctx.kbCan && s.ctx.errCnt < 10
    ensures var o := S.React(files, s, S.Ser(NAK), now);
            o.sent == [Eot] && o.s.leaf == S.EotEot && SamePlace(s.ctx, o.s.ctx) && Live(files, o.s)
  {
    hide Shape, Holds, S.React, SenderContext.FilesFit;
    if s.leaf == S.Eot1 {
      SenderReplies.Eot1Replies(files, s, NAK, now);
    } else {
      SenderReplies.EotEotReplies(files, s, NAK, now);
      Carried(files, S.EotEot, S.EotEot, s.ctx, S.React(files, s, S.Ser(NAK), now).s.ctx);
    }
  }

  /** There is no recovery from the loss of the ACK for a second EOT: the receiver, which waits for the next stat block,
      asks by a 'C' alone, and that does not move the sender, whose own timeout then ends the session although the file
      is complete at the receiver. */
  lemma LostLastAckIsFinal(files: seq<SrcFile>, y: Sys, env: Env, now: int, later: int)
    requires Live(files, y.s) && y.s.leaf == S.EotEot && y.phase == S.EotEot && !y.s.ctx.kbCan
    requires Waiting(y.r) && !y.r.ctx.kbCan && y.r.ctx.errCnt < 10 && y.s2r == [] && y.r2s == []
    ensures var z := Run(files, y, [ReceiverTimeout(env), SenderReads(now)]);
            && z == y.(r := y.r.(ctx := y.r.ctx.(errCnt := y.r.ctx.errCnt + 1)))
            && Step(files, z, SenderTimeout(later)).s.leaf == S.Final
            && Step(files, z, SenderTimeout(later)).s.ctx.result == y.s.ctx.result + [Timeout]
  {
    hide Run, Live, Waiting, R.React, S.React, SenderContext.FilesFit;
    SenderReplies.Placed(files, y.s);
    WaitingLeaf(y.r);
    WaitsClosed(y.r);
    RunOfTwo(files, y, ReceiverTimeout(env), SenderReads(now));
    ReceiverReplies.RepliesToTimeout(y.r, env);
    SenderReplies.EotEotReplies(files, y.s, CHAR_C, now);
    SenderReplies.RepliesToTimeout(files, y.s, later);
    var y1 := Step(files, y, ReceiverTimeout(env));
    assert [] + [CHAR_C] == [CHAR_C];
    assert y1 == y.(r := y1.r, r2s := [CHAR_C]);
    assert y1.r2s[1..] == [] && y.s2r + [] == [];
  }

  // --------------------------------------------------- on every run

  /** In any state that a run of the link can reach, a data block that is on its way alone, with no cancel pending and no
      reply on its way, meets what recovery asks for. */
  lemma ReachedBlockOut(files: seq<SrcFile>, y: Sys)
    requires LinkSafety.Inv(files, y) && y.s.leaf == S.AckNak && y.r.leaf == R.FirstByteData
    requires !y.s.ctx.kbCan && !y.r.ctx.kbCan && y.r2s == []
    requires |y.s2r| == 1 && y.s2r[0].Blk?
    requires y.r.ctx.anotherFile == 0 || y.r.ctx.rx.numLastGoodBlk != NumOf(y.s.ctx.k - 1)
    ensures y.s.ctx.k > 1 && BlockOut(files, y, y.s.ctx.k - 1)
  {
    hide Live, Receiving, SenderContext.Block, SenderContext.FileFits, SenderContext.FilesFit, OutsOk, OneAck;
    DataPlace(files, y.s);
    var f := Current(files, y.s.ctx);
    var i := y.s.ctx.k - 1;
    if Receiving(y.r, f, i) {
      NumberOf(y.r, f, i);
    }
  }

  lemma DataPlace(files: seq<SrcFile>, s: S.Sender)
    requires Live(files, s) && s.leaf == S.AckNak
    ensures s.ctx.named && 0 < s.ctx.fileNameIndex <= |files| && s.ctx.k > 1
  {
    NamedInData(files, s);
    hide Holds, BlockCount, SenderContext.FilesFit;
  }

  lemma NumberOf(r: R.Receiver, f: SrcFile, i: nat)
    requires Receiving(r, f, i)
    ensures r.ctx.rx.numLastGoodBlk == NumOf(i)
  {
    hide NumOf, DoneCount, PadChunk, ChunkOf, BlockCount, WrittenAfter;
  }
}
