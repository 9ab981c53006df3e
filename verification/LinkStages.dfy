/** The stages that the two peers and the line between them go through for one file, and what the receiver's
    reactions do to them. */
module LinkStages {
  import opened Bytes
  import opened Text
  import opened Blocks
  import opened Session
  import opened ReceiverContext
  import opened ReceiverChart
  import opened ReceiverSteps
  import opened Link
  import SenderContext

  // ---------------------------------------------------------- the line

  /** A block is only ever at the head of the line, and it is `b`; EOT is on the line only if `eots`. */
  ghost predicate Line(s2r: seq<Item>, b: Option<Data>, eots: bool)
  {
    forall i :: 0 <= i < |s2r| ==>
      match s2r[i]
      case Blk(x) => i == 0 && b == Some(x)
      case Eot => eots
      case Cans => true
  }

  ghost predicate NoBlk(s2r: seq<Item>)
  {
    forall i :: 0 <= i < |s2r| ==> !s2r[i].Blk?
  }

  ghost predicate AtMostOneAck(r2s: Data)
  {
    forall i, j :: 0 <= i < j < |r2s| && r2s[i] == ACK ==> r2s[j] != ACK
  }

  /** Every block that is sent leads to at most one ACK. */
  ghost predicate OneAck(r: Receiver, s2r: seq<Item>, r2s: Data)
  {
    && AtMostOneAck(r2s)
    && (ACK in r2s ==> !AckPending(r) && NoBlk(s2r))
  }

  /** No ACK is there, and none can come. */
  ghost predicate Silent(r: Receiver, s2r: seq<Item>, r2s: Data)
  {
    ACK !in r2s && !AckPending(r) && NoBlk(s2r)
  }

  // ------------------------------------------------------------- files

  /** The files created so far are the first ones of the sender's, hold prefixes of their contents, and hold
      all of it where the receiver has reported "Done, ". */
  ghost predicate OutsOk(files: seq<SrcFile>, c: Ctx)
  {
    && Completed(c) <= |c.outs| <= Completed(c) + 1 && |c.outs| <= |files|
    && (forall i :: 0 <= i < |c.outs| ==>
          c.outs[i].name == files[i].name && c.outs[i].data <= files[i].content)
    && (forall i :: 0 <= i < Completed(c) ==> c.outs[i].data == files[i].content)
  }

  // -------------------------------------------------------- data phase

  /** The receiver is in the data phase of file `p` and has accepted its data blocks up to `j`; the block that
      the sender sends is number `i`, which is that one or the next one. */
  ghost predicate InData(files: seq<SrcFile>, p: nat, r: Receiver, j: nat, i: nat, s2r: seq<Item>, r2s: Data)
  {
    && p < |files| && SenderContext.FileFits(files[p]) && Completed(r.ctx) == p
    && Receiving(r, files[p], j) && r.leaf != EotData
    && (i == j || i == j + 1 <= BlockCount(files[p].content))
    && Line(s2r, Some(SenderContext.Block(files[p], i)), false)
    && OneAck(r, s2r, r2s)
    && (ACK in r2s || AckPending(r) ==> j == i)
  }

  lemma WrittenIsPrefix(files: seq<SrcFile>, p: nat, c: Ctx, d: Ctx, j: nat)
    requires OutsOk(files, c) && Completed(c) == p == |c.outs| - 1 && p < |files|
    requires |d.outs| == |c.outs| && d.outs[..p] == c.outs[..p] && d.result == c.result
    requires d.outs[p].name == files[p].name && d.outs[p].data == WrittenAfter(files[p].content, j)
    ensures OutsOk(files, d)
  {
    hide EndOf, DoneCount;
    forall i | 0 <= i < p ensures d.outs[i] == c.outs[i] {
      assert d.outs[..p][i] == c.outs[..p][i];
    }
  }

  lemma DataIdle(files: seq<SrcFile>, p: nat, r: Receiver, j: nat, i: nat, s2r: seq<Item>, r2s: Data, e: Event, env: Env)
    requires InData(files, p, r, j, i, s2r, r2s) && e.Valid() && IsIdle(r, e)
    ensures var o := React(r, e, env);
            Stopped(r, o)
            || (&& InData(files, p, o.r, j, i, s2r, r2s + o.sent) && SameFiles(r, o)
                && (Silent(r, s2r, r2s) ==> Silent(o.r, s2r, r2s + o.sent)))
  {
    hide Receiving, React, IsIdle, BlockCount, SenderContext.Block, SenderContext.FileFits, DoneCount;
    DataLeaf(r, files[p], j);
    ReceivingIdle(r, files[p], j, e, env);
  }

  lemma DataLeaf(r: Receiver, f: SrcFile, j: nat)
    requires Receiving(r, f, j)
    ensures r.Valid() && r.leaf in {FirstByteData, EotData, TransientData}
    ensures !r.leaf.IsTransient() && !r.leaf.IsOver() && r.leaf != Can && r.ctx.fd == Completed(r.ctx) == |r.ctx.outs| - 1
  {
  }

  lemma DataReply(files: seq<SrcFile>, p: nat, r: Receiver, j: nat, i: nat, r2s: Data, env: Env)
    requires InData(files, p, r, j, i, [], r2s) && r.leaf == TransientData && OutsOk(files, r.ctx)
    ensures var o := React(r, Tm, env);
            Stopped(r, o)
            || (&& InData(files, p, o.r, j, i, [], r2s + o.sent) && OutsOk(files, o.r.ctx)
                && (Silent(r, [], r2s) ==> Silent(o.r, [], r2s + o.sent)))
  {
    hide React, BlockCount, SenderContext.Block, SenderContext.FileFits, DoneCount, WrittenAfter, Receiving, Stopped;
    DataLeaf(r, files[p], j);
    ReceivingReplies(r, files[p], j, env);
    var o := React(r, Tm, env);
    if !Stopped(r, o) {
      DataLeaf(o.r, files[p], j);
      DataWritten(o.r, files[p], j);
      WrittenIsPrefix(files, p, r.ctx, o.r.ctx, j);
    }
  }

  lemma DataWritten(r: Receiver, f: SrcFile, j: nat)
    requires Receiving(r, f, j) && !Pending(r)
    ensures r.ctx.outs[r.ctx.fd].name == f.name && r.ctx.outs[r.ctx.fd].data == WrittenAfter(f.content, j)
  {
  }

  /** The receiver takes the block, or discards it while a reply is due. */
  lemma DataBlkRead(files: seq<SrcFile>, p: nat, r: Receiver, j: nat, i: nat, s2r: seq<Item>, r2s: Data, env: Env)
    requires InData(files, p, r, j, i, s2r, r2s) && s2r != [] && s2r[0].Blk?
    ensures Whole(s2r[0])
    ensures var o := Takes(r, s2r[0], env);
            Stopped(r, o)
            || (&& SameFiles(r, o)
                && InData(files, p, o.r, if r.leaf == TransientData then j else i, i, s2r[1..], r2s + o.sent))
  {
    hide React, BlockCount, SenderContext.FileFits, DoneCount, Receiving, Stopped;
    DataLeaf(r, files[p], j);
    var b := s2r[0].bytes;
    if r.leaf == TransientData {
      ReceivingPurges(r, b[0], b[1..], env);
    } else {
      StartsWithSoh(files[p], i);
      hide SenderContext.Block;
      ReceivingBlk(r, files[p], j, i, env);
    }
  }

  lemma StartsWithSoh(f: SrcFile, i: nat)
    requires SenderContext.FileFits(f)
    ensures SenderContext.Block(f, i)[0] == SOH
  {
  }

  lemma DataCansRead(files: seq<SrcFile>, p: nat, r: Receiver, j: nat, i: nat, s2r: seq<Item>, r2s: Data, env: Env)
    requires InData(files, p, r, j, i, s2r, r2s) && s2r != [] && s2r[0].Cans?
    ensures var o := Takes(r, s2r[0], env);
            Stopped(r, o)
            || (&& InData(files, p, o.r, j, i, s2r[1..], r2s + o.sent) && SameFiles(r, o)
                && (Silent(r, s2r, r2s) ==> Silent(o.r, s2r[1..], r2s + o.sent)))
  {
    hide React, BlockCount, SenderContext.Block, SenderContext.FileFits, DoneCount, Receiving;
    DataLeaf(r, files[p], j);
    BurstStops(r, env);
  }

  // --------------------------------------------------- the other stages

  /** The sender waits for 'C', with `p` files behind both peers. */
  ghost predicate BeforeStat(p: nat, r: Receiver, s2r: seq<Item>)
  {
    AwaitsStat(r) && Completed(r.ctx) == p && Line(s2r, None, true)
  }

  /** The sender has sent the stat block of file `p`, and the receiver may have taken it. */
  ghost predicate StatSent(files: seq<SrcFile>, p: nat, r: Receiver, s2r: seq<Item>, r2s: Data)
  {
    && p < |files| && SenderContext.FileFits(files[p]) && Completed(r.ctx) == p
    && ((AwaitsStat(r) && ACK !in r2s && Line(s2r, Some(SenderContext.Block(files[p], 0)), false))
        || InData(files, p, r, 0, 0, s2r, r2s))
  }

  /** The sender has sent the empty stat block. */
  ghost predicate EndSent(files: seq<SrcFile>, r: Receiver, s2r: seq<Item>)
  {
    AwaitsEnd(r) && Completed(r.ctx) == |files| && Line(s2r, Some(EmptyStatBlk()), false)
  }

  /** All blocks of file `p` have been acknowledged, and the receiver may have closed it. */
  ghost predicate EotSent(files: seq<SrcFile>, p: nat, r: Receiver, s2r: seq<Item>, r2s: Data)
  {
    && p < |files| && Line(s2r, None, true)
    && ((&& Receiving(r, files[p], BlockCount(files[p].content)) && Completed(r.ctx) == p && Silent(r, s2r, r2s))
        || (AwaitsStat(r) && Completed(r.ctx) == p + 1))
  }

  lemma WaitingLeaf(r: Receiver)
    requires Waiting(r)
    ensures r.Valid() && r.leaf == FirstByteStat && |r.ctx.outs| == Completed(r.ctx) && !AckPending(r)
  {
  }

  lemma AwaitingLeaf(r: Receiver)
    requires AwaitsStat(r)
    ensures r.Valid() && r.leaf in {FirstByteStat, Can} && (r.leaf == FirstByteStat <==> Waiting(r))
    ensures |r.ctx.outs| == Completed(r.ctx) && !AckPending(r)
  {
    hide DoneCount;
  }

  lemma EndingLeaf(r: Receiver)
    requires AwaitsEnd(r)
    ensures r.Valid() && r.leaf in {FirstByteStat, AreWeDone, Can} && (r.leaf != Can <==> Ending(r))
    ensures r.leaf == Can ==> r.history in {FirstByteStat, AreWeDone} && AwaitsEnd(Back(r))
  {
    hide DoneCount;
  }

  lemma WaitingOrReceiving(r: Receiver, f: SrcFile, j: nat)
    ensures !(AwaitsStat(r) && Receiving(r, f, j)) && (Waiting(r) ==> AwaitsStat(r))
  {
  }

  /** Whatever arrives in the CAN state is discarded, or stops the receiver. */
  lemma CanTakes(r: Receiver, item: Item, env: Env)
    requires r.Valid() && r.leaf == Can && !r.history.IsTransient() && Whole(item)
    ensures var o := Takes(r, item, env);
            Stopped(r, o) || (o.sent == [] && o.r == Back(r))
  {
    hide DoneCount, React, CloseFile;
    match item {
      case Blk(b) => CanHears(r, b[0], b[1..], env);
      case Eot => CanHears(r, EOT, [], env);
      case Cans =>
        CanHears(r, CAN, [], env);
        StoppedStays(React(r, Ser(CAN, []), env).r, env);
    }
  }

  lemma CanHears(r: Receiver, c: byte, rest: Data, env: Env)
    requires r.Valid() && r.leaf == Can && !r.history.IsTransient() && |rest| < BUF_SZ
    ensures var o := React(r, Ser(c, rest), env);
            if c == CAN then Stopped(r, o) && o.sent == [] else Stopped(r, o) || (o.sent == [] && o.r == Back(r))
  {
    hide React, DoneCount, CloseFile;
    NothingFollows(r, Ser(c, rest), env);
    FinishStops(r, r.ctx, KbCancelledDelayed);
    FinishStops(r, r.ctx, ExcessiveErrors);
    ClosedStops(r, env);
  }

  lemma StoppedStays(r: Receiver, env: Env)
    requires r.Valid() && r.leaf.IsOver()
    ensures React(r, Ser(CAN, []), env) == Quiet(r)
  {
  }

  lemma BeforeStatIdle(p: nat, r: Receiver, s2r: seq<Item>, e: Event, env: Env)
    requires BeforeStat(p, r, s2r) && e.Valid() && IsIdle(r, e)
    ensures var o := React(r, e, env);
            Stopped(r, o) || (BeforeStat(p, o.r, s2r) && SameFiles(r, o))
  {
    hide React, IsIdle, AwaitsStat, DoneCount, Stopped;
    AwaitingLeaf(r);
    WaitingIdle(r, e, env);
  }

  lemma BeforeStatReads(p: nat, r: Receiver, s2r: seq<Item>, env: Env)
    requires BeforeStat(p, r, s2r) && s2r != []
    ensures !s2r[0].Blk?
    ensures var o := Takes(r, s2r[0], env);
            Stopped(r, o) || (BeforeStat(p, o.r, s2r[1..]) && SameFiles(r, o))
  {
    hide React, Takes, AwaitsStat, DoneCount, Stopped;
    AwaitingReads(r, s2r[0], env);
  }

  /** An EOT or a CAN burst, while the receiver waits for a stat block or is about to. */
  lemma AwaitingReads(r: Receiver, item: Item, env: Env)
    requires AwaitsStat(r) && !item.Blk?
    ensures r.Valid()
    ensures var o := Takes(r, item, env);
            Stopped(r, o) || (AwaitsStat(o.r) && SameFiles(r, o))
  {
    hide React, Waiting, DoneCount;
    AwaitingLeaf(r);
    if r.leaf == Can {
      BackIsRest(r);
      CanTakes(r, item, env);
    } else if item.Eot? {
      WaitingEot(r, env);
      WaitingAwaits(React(r, Ser(EOT, []), env).r);
    } else {
      BurstStops(r, env);
    }
  }

  lemma BackIsRest(r: Receiver)
    requires AwaitsStat(r) && r.leaf == Can
    ensures r.history == FirstByteStat && Waiting(Back(r)) && AwaitsStat(Back(r)) && SameFiles(r, Quiet(Back(r)))
  {
    hide DoneCount;
  }

  lemma WaitingAwaits(r: Receiver)
    ensures Waiting(r) ==> AwaitsStat(r)
  {
    hide DoneCount;
  }

  lemma StatSentIdle(files: seq<SrcFile>, p: nat, r: Receiver, s2r: seq<Item>, r2s: Data, e: Event, env: Env)
    requires StatSent(files, p, r, s2r, r2s) && e.Valid() && IsIdle(r, e)
    ensures var o := React(r, e, env);
            Stopped(r, o) || (StatSent(files, p, o.r, s2r, r2s + o.sent) && SameFiles(r, o))
  {
    hide React, IsIdle, AwaitsStat, DoneCount, Stopped, SenderContext.Block, SenderContext.FileFits;
    if AwaitsStat(r) {
      hide InData;
      AwaitingLeaf(r);
      WaitingIdle(r, e, env);
    } else {
      InDataStill(files, p, r, 0, 0, s2r, r2s);
      DataIdle(files, p, r, 0, 0, s2r, r2s, e, env);
      var o := React(r, e, env);
      if !Stopped(r, o) {
        InDataStill(files, p, o.r, 0, 0, s2r, r2s + o.sent);
      }
      hide InData;
    }
  }

  lemma InDataStill(files: seq<SrcFile>, p: nat, r: Receiver, j: nat, i: nat, s2r: seq<Item>, r2s: Data)
    requires InData(files, p, r, j, i, s2r, r2s)
    ensures p < |files| && SenderContext.FileFits(files[p]) && Completed(r.ctx) == p && r.Valid()
    ensures r.leaf in {FirstByteData, TransientData}
  {
    hide Line, OneAck, SenderContext.Block, SenderContext.FileFits, BlockCount, DoneCount;
  }

  lemma StatTaken(files: seq<SrcFile>, p: nat, r: Receiver, s2r: seq<Item>, r2s: Data, env: Env)
    requires p < |files| && SenderContext.FileFits(files[p]) && Completed(r.ctx) == p && Waiting(r) && ACK !in r2s
    requires s2r != [] && s2r[0] == Blk(SenderContext.Block(files[p], 0)) && OutsOk(files, r.ctx)
    requires Line(s2r, Some(SenderContext.Block(files[p], 0)), false)
    ensures var o := Takes(r, s2r[0], env);
            Stopped(r, o) || (InData(files, p, o.r, 0, 0, s2r[1..], r2s + o.sent) && OutsOk(files, o.r.ctx))
  {
    hide React, Waiting, Receiving, DoneCount, Stopped, SenderContext.FileFits, BlockCount, Frame, StatPayload;
    StartsWithSoh(files[p], 0);
    WaitingLeaf(r);
    WaitingStat(r, files[p], env);
    hide StatBlk;
    var o := Takes(r, s2r[0], env);
    if !Stopped(r, o) {
      DataLeaf(o.r, files[p], 0);
    }
  }

  lemma StatSentReads(files: seq<SrcFile>, p: nat, r: Receiver, s2r: seq<Item>, r2s: Data, env: Env)
    requires StatSent(files, p, r, s2r, r2s) && s2r != [] && OutsOk(files, r.ctx)
    ensures r.Valid() && Whole(s2r[0])
    ensures var o := Takes(r, s2r[0], env);
            Stopped(r, o) || (StatSent(files, p, o.r, s2r[1..], r2s + o.sent) && OutsOk(files, o.r.ctx))
  {
    hide React, AwaitsStat, Waiting, DoneCount, SenderContext.Block, SenderContext.FileFits;
    if AwaitsStat(r) {
      AwaitingLeaf(r);
      if r.leaf == Can {
        hide InData, Takes;
        BackIsRest(r);
        CanTakes(r, s2r[0], env);
      } else if s2r[0].Blk? {
        StatTaken(files, p, r, s2r, r2s, env);
        var o := Takes(r, s2r[0], env);
        if !Stopped(r, o) {
          InDataStill(files, p, o.r, 0, 0, s2r[1..], r2s + o.sent);
        }
      } else {
        hide InData;
        BurstStops(r, env);
      }
    } else {
      InDataStill(files, p, r, 0, 0, s2r, r2s);
      if s2r[0].Blk? {
        DataBlkRead(files, p, r, 0, 0, s2r, r2s, env);
      } else {
        DataCansRead(files, p, r, 0, 0, s2r, r2s, env);
      }
      var o := Takes(r, s2r[0], env);
      if !Stopped(r, o) {
        InDataStill(files, p, o.r, 0, 0, s2r[1..], r2s + o.sent);
      }
      hide InData;
    }
  }

  lemma EndSentIdle(files: seq<SrcFile>, r: Receiver, s2r: seq<Item>, e: Event, env: Env)
    requires EndSent(files, r, s2r) && e.Valid() && IsIdle(r, e)
    ensures var o := React(r, e, env);
            Stopped(r, o) || (EndSent(files, o.r, s2r) && SameFiles(r, o))
  {
    hide React, IsIdle, AwaitsEnd, DoneCount, Stopped, EmptyStatBlk;
    EndingLeaf(r);
    EndingIdle(r, e, env);
  }

  lemma EndingAwaits(r: Receiver)
    ensures Ending(r) ==> AwaitsEnd(r)
  {
    hide DoneCount;
  }

  lemma EndSentReads(files: seq<SrcFile>, r: Receiver, s2r: seq<Item>, env: Env)
    requires EndSent(files, r, s2r) && s2r != []
    ensures Whole(s2r[0])
    ensures var o := Takes(r, s2r[0], env);
            Stopped(r, o) || (EndSent(files, o.r, s2r[1..]) && SameFiles(r, o))
  {
    hide React, DoneCount, Ending;
    EndingLeaf(r);
    if r.leaf == Can {
      hide EmptyStatBlk;
      CanTakes(r, s2r[0], env);
    } else if s2r[0].Blk? {
      EndingBlk(r, env);
      assert EmptyStatBlk()[0] == SOH;
      EndingAwaits(Takes(r, s2r[0], env).r);
      hide EmptyStatBlk;
    } else {
      BurstStops(r, env);
      hide EmptyStatBlk;
    }
  }

  lemma EotSentIdle(files: seq<SrcFile>, p: nat, r: Receiver, s2r: seq<Item>, r2s: Data, e: Event, env: Env)
    requires EotSent(files, p, r, s2r, r2s) && e.Valid() && IsIdle(r, e)
    ensures var o := React(r, e, env);
            Stopped(r, o) || (EotSent(files, p, o.r, s2r, r2s + o.sent) && SameFiles(r, o))
  {
    hide React, IsIdle, AwaitsStat, Receiving, DoneCount, Stopped, BlockCount;
    WaitingOrReceiving(r, files[p], BlockCount(files[p].content));
    if AwaitsStat(r) {
      WaitingIdle(r, e, env);
    } else {
      ReceivingIdle(r, files[p], BlockCount(files[p].content), e, env);
    }
  }

  lemma EotSentReply(files: seq<SrcFile>, p: nat, r: Receiver, r2s: Data, env: Env)
    requires EotSent(files, p, r, [], r2s) && r.leaf == TransientData && OutsOk(files, r.ctx)
    ensures var o := React(r, Tm, env);
            Stopped(r, o) || (EotSent(files, p, o.r, [], r2s + o.sent) && OutsOk(files, o.r.ctx))
  {
    hide React, AwaitsStat, Receiving, DoneCount, Stopped, BlockCount, WrittenAfter;
    if AwaitsStat(r) {
      AwaitingLeaf(r);
    } else {
      var n := BlockCount(files[p].content);
      DataLeaf(r, files[p], n);
      ReceivingReplies(r, files[p], n, env);
      var o := React(r, Tm, env);
      if !Stopped(r, o) {
        DataLeaf(o.r, files[p], n);
        DataWritten(o.r, files[p], n);
        WrittenIsPrefix(files, p, r.ctx, o.r.ctx, n);
      }
    }
  }

  /** A file that is reported as done is complete. */
  lemma DoneIsComplete(files: seq<SrcFile>, p: nat, r: Receiver, c: Ctx)
    requires OutsOk(files, r.ctx) && p < |files| && Completed(r.ctx) == p
    requires Receiving(r, files[p], BlockCount(files[p].content)) && r.leaf == EotData
    requires c.outs == r.ctx.outs && c.result == r.ctx.result + [Done]
    ensures OutsOk(files, c) && Completed(c) == p + 1
  {
    DoneCountAppend(r.ctx.result, Done);
    SizesAddUp(r.ctx, files[p].content, BlockCount(files[p].content));
    hide DoneCount, BlockCount, WrittenAfter;
  }

  lemma EotSentReads(files: seq<SrcFile>, p: nat, r: Receiver, s2r: seq<Item>, r2s: Data, env: Env)
    requires EotSent(files, p, r, s2r, r2s) && s2r != [] && OutsOk(files, r.ctx)
    ensures r.Valid() && Whole(s2r[0])
    ensures var o := Takes(r, s2r[0], env);
            Stopped(r, o) || (EotSent(files, p, o.r, s2r[1..], r2s + o.sent) && OutsOk(files, o.r.ctx))
  {
    hide React, AwaitsStat, Waiting, Receiving, DoneCount, BlockCount;
    var n := BlockCount(files[p].content);
    WaitingOrReceiving(r, files[p], n);
    if AwaitsStat(r) {
      hide Takes;
      AwaitingReads(r, s2r[0], env);
    } else {
      DataLeaf(r, files[p], n);
      if s2r[0].Cans? {
        BurstStops(r, env);
      } else if r.leaf == TransientData {
        ReceivingPurges(r, EOT, [], env);
      } else {
        ReceivingEot(r, files[p], n, env);
        var o := Takes(r, s2r[0], env);
        WaitingOrReceiving(o.r, files[p], n);
        if !Stopped(r, o) && Waiting(o.r) {
          DoneIsComplete(files, p, r, o.r.ctx);
        }
      }
    }
  }
}
