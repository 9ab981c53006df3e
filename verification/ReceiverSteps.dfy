/** What single reactions of the receiver do to the phase of a transfer that it is in. */
module ReceiverSteps {
  import opened Bytes
  import opened Text
  import opened Blocks
  import opened Session
  import opened ReceiverContext
  import opened ReceiverChart
  import SenderContext

  type SrcFile = SenderContext.SrcFile

  function Completed(c: Ctx): nat
  {
    DoneCount(c.result)
  }

  /** Waiting for a stat block, with every file created so far reported as done. */
  ghost predicate Waiting(r: Receiver)
  {
    && r.Valid() && r.leaf == FirstByteStat
    && r.ctx.fd == -1 && r.ctx.rx.numLastGoodBlk == 255 && !r.ctx.rx.syncLoss
    && |r.ctx.outs| == Completed(r.ctx)
  }

  /** A new data block has been accepted and not yet been written. */
  ghost predicate Pending(r: Receiver)
  {
    r.leaf == TransientData && r.ctx.rx.goodBlk1st
  }

  /** The next timeout will send an ACK for the block just received. */
  ghost predicate AckPending(r: Receiver)
  {
    r.leaf == TransientData && r.ctx.rx.goodBlk
  }

  /** In the data phase of file `f`, with data blocks 1 to `j` accepted. */
  ghost predicate Receiving(r: Receiver, f: SrcFile, j: nat)
  {
    && r.Valid() && r.leaf in {FirstByteData, EotData, TransientData}
    && r.ctx.fd == Completed(r.ctx) == |r.ctx.outs| - 1
    && r.ctx.outs[r.ctx.fd].name == f.name
    && r.ctx.rx.numLastGoodBlk == NumOf(j) && !r.ctx.rx.syncLoss
    && j <= BlockCount(f.content)
    && (Pending(r) ==> j > 0 && r.ctx.rx.goodBlk && r.ctx.rx.Payload() == PadChunk(ChunkOf(f.content, j)))
    && HasWritten(r.ctx, f.content, if Pending(r) then j - 1 else j)
  }

  /** Where the receiver is, or will be when it comes back from the CAN state. */
  function Back(r: Receiver): Receiver
  {
    if r.leaf == Can then r.(leaf := r.history) else r
  }

  /** Waiting for a stat block, or about to go on waiting. */
  ghost predicate AwaitsStat(r: Receiver)
  {
    Waiting(Back(r))
  }

  /** What the line may show the receiver at any time: anything at all while it discards what arrives; a block only if
      `getRestBlk` rejects it; a lone CAN byte outside the data phase, which has no history to come back to; and an
      EOT only where it means nothing. */
  ghost predicate IsNoise(r: Receiver, c: byte, rest: Data)
    requires r.Valid()
  {
    && |rest| < BUF_SZ
    && (|| r.leaf in {TransientData, Can}
        || (if c == SOH then Rejected(r.ctx.rx, r.ctx.fd != -1, rest)
            else if c == CAN then r.leaf in {FirstByteStat, AreWeDone}
            else if c == EOT then r.leaf == AreWeDone || (r.leaf == FirstByteStat && r.ctx.closeProb != 0)
            else true))
  }

  /** Events that carry nothing from the sender. */
  ghost predicate IsIdle(r: Receiver, e: Event)
    requires r.Valid()
  {
    match e
    case Ser(c, rest) => IsNoise(r, c, rest)
    case Tm => r.leaf != TransientData
    case KbC => true
  }

  /** The receiver has stopped, and has not touched its files or reported another one as done. */
  ghost predicate Stopped(r: Receiver, o: Out)
    requires r.Valid()
  {
    o.r.leaf.IsOver() && o.r.Valid() && o.r.ctx.outs == r.ctx.outs && Completed(o.r.ctx) == Completed(r.ctx)
  }

  /** Nothing has gone wrong since the count of errors was last set back. */
  predicate Calm(r: Receiver)
  {
    !r.ctx.kbCan && r.ctx.errCnt == 0
  }

  ghost predicate SameFiles(r: Receiver, o: Out)
  {
    o.r.ctx.outs == r.ctx.outs && o.r.ctx.result == r.ctx.result
  }

  lemma FinishStops(r: Receiver, c: Ctx, p: Phrase)
    requires p != Done
    ensures Completed(Finish(r, c, p).ctx) == Completed(c)
  {
    DoneCountAppend(c.result, p);
  }

  // -------------------------------------------------------- the CAN state

  /** A CAN byte outside the data phase. */
  lemma GoesToCan(r: Receiver, rest: Data, env: Env)
    requires r.Valid() && r.leaf in {FirstByteStat, AreWeDone} && |rest| < BUF_SZ
    ensures React(r, Ser(CAN, rest), env) == Quiet(r.(leaf := Can, history := r.leaf))
  {
    hide React, GetRestBlk, CloseFile;
    NothingFollows(r, Ser(CAN, rest), env);
  }

  /** From the CAN state the receiver comes back as it was, stops, or notes down a cancel; it never answers. */
  lemma CanReacts(r: Receiver, e: Event, env: Env)
    requires r.Valid() && r.leaf == Can && !r.history.IsTransient() && e.Valid()
    ensures var o := React(r, e, env);
            Stopped(r, o)
            || (o.sent == [] && (o.r == Back(r) || o.r == r.(ctx := r.ctx.(kbCan := true))))
  {
    hide React, DoneCount, CloseFile;
    NothingFollows(r, e, env);
    FinishStops(r, r.ctx, KbCancelledDelayed);
    FinishStops(r, r.ctx, KbCancelled);
    FinishStops(r, r.ctx, ExcessiveErrors);
    ClosedStops(r, env);
  }

  lemma ClosedStops(r: Receiver, env: Env)
    requires r.Valid()
    ensures Stopped(r, Out(Finish(r, CloseFile(r.ctx, env), SndCancelled), [], true))
  {
    hide DoneCount;
    FinishStops(r, CloseFile(r.ctx, env), SndCancelled);
  }

  // -------------------------------------------------------------- waiting

  /** Whatever carries nothing from the sender makes the receiver stop or go on waiting, and draws no ACK. */
  lemma WaitingIdle(r: Receiver, e: Event, env: Env)
    requires AwaitsStat(r) && e.Valid() && IsIdle(r, e)
    ensures var o := React(r, e, env);
            Stopped(r, o) || (AwaitsStat(o.r) && SameFiles(r, o) && ACK !in o.sent)
  {
    hide React, DoneCount;
    if r.leaf == Can {
      hide IsIdle;
      CanReacts(r, e, env);
    } else if e.Ser? && e.c == CAN {
      hide IsIdle;
      GoesToCan(r, e.rest, env);
    } else {
      WaitingHere(r, e, env);
    }
  }

  lemma WaitingHere(r: Receiver, e: Event, env: Env)
    requires Waiting(r) && e.Valid() && IsIdle(r, e) && (e.Ser? ==> e.c != CAN)
    ensures var o := React(r, e, env);
            Stopped(r, o) || (Waiting(o.r) && SameFiles(r, o) && ACK !in o.sent)
  {
    hide Frame, CrcMatches, Stored, DoneCount, Cascade, Fire;
    FireWaiting(r, e, env);
    var o := Fire(r, e, env);
    FinishStops(r, r.ctx, KbCancelledDelayed);
    FinishStops(r, r.ctx, KbCancelled);
    FinishStops(r, r.ctx, ExcessiveErrors);
    if e.Ser? && e.c == SOH && !r.ctx.kbCan {
      RejectedStatWaits(o.r, env, o);
    } else {
      CascadeStep(o, env);
    }
  }

  /** What a receiver that waits for a stat block makes of an event. */
  lemma FireWaiting(r: Receiver, e: Event, env: Env)
    requires r.Valid() && r.leaf == FirstByteStat && e.Valid()
    ensures Fire(r, e, env) == match e
                               case Ser(c, rest) => FirstByteStatSer(r, c, rest)
                               case Tm => NonCanTm(r)
                               case KbC => Quiet(r.(ctx := r.ctx.(kbCan := true)))
  {
    hide FirstByteStatSer, NonCanTm;
  }

  lemma RejectedStatWaits(r: Receiver, env: Env, o: Out)
    requires r.Valid() && r.leaf == TransientStat && r.ctx.fd == -1 && r.ctx.rx.numLastGoodBlk == 255
    requires |r.ctx.outs| == Completed(r.ctx) && o.r == r && o.sent == []
    requires !r.ctx.rx.goodBlk && !r.ctx.rx.syncLoss
    ensures var o' := Cascade(o, env);
            Stopped(r, o') || (Waiting(o'.r) && SameFiles(r, o') && ACK !in o'.sent)
  {
    hide DoneCount, CheckCont;
    FinishStops(r, r.ctx, ExcessiveErrorsAtStat);
    var o1 := StatCont(r);
    assert Cascade(o, env) == Cascade(Out(o1.r, o.sent + o1.sent, o.purged || o1.purged), env);
  }

  /** An EOT that comes again after the file has been closed is answered again. */
  lemma WaitingEot(r: Receiver, env: Env)
    requires Waiting(r)
    ensures var o := React(r, Ser(EOT, []), env);
            Stopped(r, o) || (Waiting(o.r) && SameFiles(r, o))
  {
    hide DoneCount, GetRestBlk, FirstByteDataSer, EotDataSer, AreWeDoneSer, CanSer, OnTm, OnKb, Cont;
    FinishStops(r, r.ctx, KbCancelledDelayed);
    FinishStops(r, r.ctx, ExcessiveEots);
  }

  lemma CreatedFileStarts(r: Receiver, f: SrcFile, env: Env)
    requires r.Valid() && r.leaf == TransientCheck && r.ctx.fd == -1 && r.ctx.anotherFile != 0
    requires !r.ctx.rx.syncLoss && r.ctx.rx.numLastGoodBlk == 0 && |r.ctx.outs| == Completed(r.ctx)
    requires SenderContext.FileFits(f) && r.ctx.rx.Payload() == StatPayload(f.name, |f.content|)
    ensures var o := CheckCont(r, env);
            if env.creatOk then
              && o.r.leaf == TransientOpen && o.sent == []
              && Receiving(OpenCont(o.r).r, f, 0) && OpenCont(o.r).sent == [ACK, CHAR_C]
              && o.r.ctx.outs == r.ctx.outs + [OutFile(f.name, [])] && o.r.ctx.result == r.ctx.result
              && OpenCont(o.r).r.ctx == o.r.ctx && OpenCont(o.r).r.leaf == FirstByteData
              && (Calm(r) ==> Calm(o.r)) && o.r.ctx.anotherFile == r.ctx.anotherFile
            else
              o.r.leaf == TransientOpen && Stopped(r, OpenCont(o.r))
  {
    StatRoundTrip(r.ctx.rx.rcvBlk, f.name, |f.content|);
    hide StatPayload, CString, Stoi, DoneCount, StatName, StatSize, OpenFile;
    OpenedFile(r.ctx, f, env);
    var o := CheckCont(r, env);
    FinishStops(o.r, o.r.ctx, CreatError);
    if env.creatOk {
      NothingWritten(o.r.ctx, f);
    }
    hide HasWritten;
  }

  lemma OpenedFile(c: Ctx, f: SrcFile, env: Env)
    requires c.Valid() && StatName(c.rx.rcvBlk) == f.name && StatSize(c.rx.rcvBlk) == Some(|f.content|)
    ensures OpenFile(c, env) == Opened(if env.creatOk then
                                         c.(fd := |c.outs|, outs := c.outs + [OutFile(f.name, [])],
                                            bytesRemaining := |f.content|)
                                       else c.(fd := -1, bytesRemaining := |f.content|), false)
  {
    hide StatName, StatSize;
  }

  lemma NothingWritten(c: Ctx, f: SrcFile)
    requires 0 <= c.fd < |c.outs| && c.outs[c.fd].data == [] && c.bytesRemaining == |f.content|
    ensures HasWritten(c, f.content, 0)
  {
  }

  /** The stat block of the next file starts its data phase, unless the receiver gives up. */
  lemma WaitingStat(r: Receiver, f: SrcFile, env: Env)
    requires Waiting(r) && SenderContext.FileFits(f)
    ensures var o := React(r, Ser(SOH, StatBlk(f.name, |f.content|)[1..]), env);
            Stopped(r, o)
            || (&& Receiving(o.r, f, 0) && o.r.leaf == FirstByteData
                && o.r.ctx.outs == r.ctx.outs + [OutFile(f.name, [])] && o.r.ctx.result == r.ctx.result
                && o.sent == [ACK, CHAR_C])
    ensures Calm(r) && env.creatOk ==>
              var o := React(r, Ser(SOH, StatBlk(f.name, |f.content|)[1..]), env);
              !Stopped(r, o) && Calm(o.r)
  {
    hide StatBlk, DoneCount, FirstByteStatSer, OnTm, OnKb, Cascade, Receiving;
    var rest := StatBlk(f.name, |f.content|)[1..];
    var o := FirstByteStatSer(r, SOH, rest);
    assert Fire(r, Ser(SOH, rest), env) == o;
    if r.ctx.kbCan {
      StatRefused(r, rest);
      CascadeStep(o, env);
    } else {
      StatTaken(r, f);
      GoodStat(o.r, f, env, o);
    }
  }

  lemma StatRefused(r: Receiver, rest: Data)
    requires r.Valid() && r.ctx.kbCan && |rest| < BUF_SZ
    ensures Stopped(r, FirstByteStatSer(r, SOH, rest)) && !Calm(r)
  {
    hide DoneCount, GetRestBlk;
    FinishStops(r, r.ctx, KbCancelledDelayed);
  }

  lemma StatTaken(r: Receiver, f: SrcFile)
    requires Waiting(r) && SenderContext.FileFits(f) && !r.ctx.kbCan
    ensures var o := FirstByteStatSer(r, SOH, StatBlk(f.name, |f.content|)[1..]);
            && o.r.Valid() && o.r.leaf == TransientStat && o.r.ctx.fd == -1 && o.sent == [] && SameFiles(r, o)
            && o.r.ctx.rx.goodBlk && !o.r.ctx.rx.syncLoss && o.r.ctx.rx.numLastGoodBlk == 0
            && o.r.ctx.rx.Payload() == StatPayload(f.name, |f.content|) && (Calm(r) ==> Calm(o.r))
  {
    IntactBlock(r.ctx.rx, false, 0, StatPayload(f.name, |f.content|));
    hide Frame, GetRest, StatPayload, DoneCount;
  }

  /** From a good stat block on. */
  lemma GoodStat(r: Receiver, f: SrcFile, env: Env, o: Out)
    requires r.Valid() && r.leaf == TransientStat && r.ctx.fd == -1 && o.r == r && o.sent == []
    requires r.ctx.rx.goodBlk && !r.ctx.rx.syncLoss && r.ctx.rx.numLastGoodBlk == 0
    requires |r.ctx.outs| == Completed(r.ctx)
    requires SenderContext.FileFits(f) && r.ctx.rx.Payload() == StatPayload(f.name, |f.content|)
    ensures var o' := Cascade(o, env);
            Stopped(r, o')
            || (&& Receiving(o'.r, f, 0) && o'.r.leaf == FirstByteData
                && o'.r.ctx.outs == r.ctx.outs + [OutFile(f.name, [])] && o'.r.ctx.result == r.ctx.result
                && o'.sent == [ACK, CHAR_C])
    ensures Calm(r) && env.creatOk ==> !Stopped(r, Cascade(o, env)) && Calm(Cascade(o, env).r)
  {
    FirstPayloadByte(r.ctx.rx, f);
    hide StatPayload, DoneCount, Receiving;
    FinishStops(r, r.ctx, ExcessiveErrorsAtStat);
    if r.ctx.errCnt < ERR_BOUND {
      var t := StatCont(r).r;
      CreatedFileStarts(t, f, env);
      StatCascade(o, env);
    }
  }

  lemma FirstPayloadByte(x: Reception, f: SrcFile)
    requires x.Valid() && SenderContext.FileFits(f) && x.Payload() == StatPayload(f.name, |f.content|)
    ensures x.rcvBlk[DATA_POS] != 0
  {
    StatRoundTrip(x.rcvBlk, f.name, |f.content|);
  }

  /** The three CONT messages that follow a good stat block. */
  lemma StatCascade(o: Out, env: Env)
    requires o.r.Valid() && o.r.leaf == TransientStat && o.sent == []
    requires StatCont(o.r).r.leaf == TransientCheck && CheckCont(StatCont(o.r).r, env).r.leaf == TransientOpen
    requires StatCont(o.r).sent == [] && CheckCont(StatCont(o.r).r, env).sent == []
    ensures Cascade(o, env).r == OpenCont(CheckCont(StatCont(o.r).r, env).r).r
    ensures Cascade(o, env).sent == OpenCont(CheckCont(StatCont(o.r).r, env).r).sent
  {
    hide StatCont, CheckCont, OpenCont, EotCont;
    var o1 := StatCont(o.r);
    var p1 := Out(o1.r, o.sent + o1.sent, o.purged || o1.purged);
    var o2 := CheckCont(p1.r, env);
    var p2 := Out(o2.r, p1.sent + o2.sent, p1.purged || o2.purged);
    var o3 := OpenCont(p2.r);
    var p3 := Out(o3.r, p2.sent + o3.sent, p2.purged || o3.purged);
    hide Cascade;
    CascadeStep(o, env);
    CascadeStep(p1, env);
    CascadeStep(p2, env);
    OpenEnds(p2.r);
    CascadeStep(p3, env);
  }

  lemma OpenEnds(r: Receiver)
    ensures !OpenCont(r).r.leaf.IsTransient()
  {
  }

  // ------------------------------------------------------------ receiving

  lemma ReceivingIdle(r: Receiver, f: SrcFile, j: nat, e: Event, env: Env)
    requires Receiving(r, f, j) && e.Valid() && IsIdle(r, e)
    ensures var o := React(r, e, env);
            Stopped(r, o)
            || (&& Receiving(o.r, f, j) && SameFiles(r, o) && ACK !in o.sent
                && (AckPending(o.r) ==> AckPending(r)) && (r.leaf != EotData ==> o.r.leaf != EotData))
  {
    match e
    case Ser(c, rest) => ReceivingNoise(r, f, j, c, rest, env);
    case Tm => ReceivingTimeout(r, f, j, env);
    case KbC => ReceivingCancel(r, f, j, env);
  }

  lemma ReceivingNoise(r: Receiver, f: SrcFile, j: nat, c: byte, rest: Data, env: Env)
    requires Receiving(r, f, j) && IsNoise(r, c, rest)
    ensures var o := React(r, Ser(c, rest), env);
            Stopped(r, o)
            || (&& Receiving(o.r, f, j) && SameFiles(r, o) && o.sent == []
                && (AckPending(o.r) ==> AckPending(r)) && (r.leaf != EotData ==> o.r.leaf != EotData))
  {
    hide Frame, PadChunk, ChunkOf, CrcMatches, Stored, DoneCount, WrittenAfter;
    hide FirstByteStatSer, AreWeDoneSer, CanSer, OnTm, OnKb, Cascade, React;
    FinishStops(r, r.ctx, KbCancelledDelayed);
    NothingFollows(r, Ser(c, rest), env);
  }

  lemma ReceivingTimeout(r: Receiver, f: SrcFile, j: nat, env: Env)
    requires Receiving(r, f, j) && r.leaf != TransientData
    ensures var o := React(r, Tm, env);
            Stopped(r, o)
            || (Receiving(o.r, f, j) && SameFiles(r, o) && ACK !in o.sent && o.r.leaf == r.leaf)
  {
    hide PadChunk, ChunkOf, DoneCount, WrittenAfter, TransientDataTm, OnSer, OnKb, Cont;
    FinishStops(r, r.ctx, KbCancelled);
    FinishStops(r, r.ctx, ExcessiveErrors);
  }

  lemma ReceivingCancel(r: Receiver, f: SrcFile, j: nat, env: Env)
    requires Receiving(r, f, j)
    ensures var o := React(r, KbC, env);
            Stopped(r, o)
            || (&& Receiving(o.r, f, j) && SameFiles(r, o) && o.sent == []
                && o.r.leaf == r.leaf && o.r.ctx.rx == r.ctx.rx)
  {
    hide PadChunk, ChunkOf, DoneCount, WrittenAfter, OnSer, OnTm, Cont;
    FinishStops(r, r.ctx.(kbCan := true), KbCancelledImmediate);
  }

  /** While a reply is due, everything from the line is discarded. */
  lemma ReceivingPurges(r: Receiver, c: byte, rest: Data, env: Env)
    requires r.Valid() && r.leaf == TransientData && |rest| < BUF_SZ
    ensures React(r, Ser(c, rest), env) == Out(r, [], true)
  {
  }

  /** The reply: new data go to the disk, and an ACK goes out only for a good block. */
  lemma ReceivingReplies(r: Receiver, f: SrcFile, j: nat, env: Env)
    requires Receiving(r, f, j) && r.leaf == TransientData
    ensures var o := React(r, Tm, env);
            Stopped(r, o)
            || (&& Receiving(o.r, f, j) && o.r.leaf == FirstByteData
                && o.r.ctx.outs[..r.ctx.fd] == r.ctx.outs[..r.ctx.fd] && |o.r.ctx.outs| == |r.ctx.outs|
                && o.r.ctx.result == r.ctx.result
                && (o.sent == [ACK] || o.sent == [ACK, CHAR_C] || o.sent == [NAK])
                && (ACK in o.sent <==> AckPending(r)))
    ensures Calm(r) && r.ctx.rx.goodBlk && r.ctx.anotherFile == 0 ==>
              var o := React(r, Tm, env);
              !Stopped(r, o) && Calm(o.r) && o.sent == [ACK]
  {
    hide PadChunk, ChunkOf, DoneCount, OnSer, OnKb, Cont;
    var o := TransientDataTm(r, env);
    assert React(r, Tm, env) == o;
    if !r.ctx.rx.syncLoss && r.ctx.errCnt < ERR_BOUND {
      WrittenReply(r, f, j, o);
    } else {
      FinishStops(r, CloseFile(r.ctx, env), ExcessiveErrors);
    }
  }

  lemma WrittenReply(r: Receiver, f: SrcFile, j: nat, o: Out)
    requires Receiving(r, f, j) && r.leaf == TransientData
    requires o.r == r.(leaf := FirstByteData, ctx := if r.ctx.rx.goodBlk1st then WriteChunk(r.ctx) else r.ctx)
    ensures Receiving(o.r, f, j)
    ensures o.r.ctx.outs[..r.ctx.fd] == r.ctx.outs[..r.ctx.fd] && |o.r.ctx.outs| == |r.ctx.outs|
    ensures o.r.ctx.result == r.ctx.result
  {
    if r.ctx.rx.goodBlk1st {
      WriteNextChunk(r.ctx, f.content, j);
    }
    hide PadChunk, ChunkOf, DoneCount, WriteChunk, WrittenAfter;
  }

  /** The next block is accepted as new, the last one as a repetition. */
  lemma ReceivingBlk(r: Receiver, f: SrcFile, j: nat, i: nat, env: Env)
    requires Receiving(r, f, j) && r.leaf != TransientData && SenderContext.FileFits(f)
    requires i == j || i == j + 1 <= BlockCount(f.content)
    ensures var o := React(r, Ser(SOH, SenderContext.Block(f, i)[1..]), env);
            Stopped(r, o)
            || (&& Receiving(o.r, f, i) && SameFiles(r, o) && o.sent == []
                && o.r.leaf == TransientData && (o.r.ctx.rx.goodBlk1st <==> i == j + 1))
    ensures Calm(r) && i == j + 1 ==>
              var o := React(r, Ser(SOH, SenderContext.Block(f, i)[1..]), env);
              !Stopped(r, o) && Calm(o.r) && o.r.ctx.rx.goodBlk && o.r.ctx.anotherFile == 0
  {
    hide SenderContext.Block, GetRest, PadChunk, ChunkOf, WrittenAfter, DoneCount, DataSer, OnSer, OnTm, OnKb, Cont;
    var rest := SenderContext.Block(f, i)[1..];
    if r.ctx.kbCan {
      FinishStops(r, r.ctx, KbCancelledDelayed);
      DataSerStops(r, rest);
    } else {
      AcceptedBlk(r.ctx.rx, f, j, i);
      DataSerTakes(r, f, j, i, rest);
    }
    OnlyFire(r, rest, env);
  }

  lemma OnlyFire(r: Receiver, rest: Data, env: Env)
    requires r.Valid() && (r.leaf == FirstByteData || r.leaf == EotData) && |rest| < BUF_SZ
    ensures React(r, Ser(SOH, rest), env) == DataSer(r, SOH, rest)
  {
    hide FirstByteStatSer, AreWeDoneSer, CanSer, OnTm, OnKb, Cont, GetRestBlk, GetRestPurges;
  }

  lemma DataSerStops(r: Receiver, rest: Data)
    requires r.Valid() && r.ctx.kbCan && |rest| < BUF_SZ
    ensures Stopped(r, DataSer(r, SOH, rest))
  {
    hide DoneCount, GetRestBlk;
    FinishStops(r, r.ctx, KbCancelledDelayed);
  }

  lemma DataSerTakes(r: Receiver, f: SrcFile, j: nat, i: nat, rest: Data)
    requires Receiving(r, f, j) && r.leaf != TransientData && !r.ctx.kbCan && |rest| < BUF_SZ
    requires i == j || i == j + 1 <= BlockCount(f.content)
    requires var y := GetRest(r.ctx.rx, true, rest);
             && y.goodBlk && (y.goodBlk1st <==> i == j + 1) && y.numLastGoodBlk == NumOf(i) && !y.syncLoss
             && (i > 0 ==> y.Payload() == PadChunk(ChunkOf(f.content, i)))
    ensures var o := DataSer(r, SOH, rest);
            && Receiving(o.r, f, i) && SameFiles(r, o) && o.sent == []
            && o.r.leaf == TransientData && (o.r.ctx.rx.goodBlk1st <==> i == j + 1) && o.r.ctx.rx.goodBlk
            && !o.r.ctx.kbCan && (i == j + 1 ==> o.r.ctx.errCnt == 0 && o.r.ctx.anotherFile == 0)
  {
    hide PadChunk, ChunkOf, GetRest, DoneCount, WrittenAfter, BlockCount;
  }

  lemma AcceptedBlk(x: Reception, f: SrcFile, j: nat, i: nat)
    requires x.Valid() && SenderContext.FileFits(f) && x.numLastGoodBlk == NumOf(j)
    requires i == j || i == j + 1
    ensures var y := GetRest(x, true, SenderContext.Block(f, i)[1..]);
            && y.goodBlk && (y.goodBlk1st <==> i == j + 1) && y.numLastGoodBlk == NumOf(i) && y.syncLoss == x.syncLoss
            && (i > 0 ==> y.Payload() == PadChunk(ChunkOf(f.content, i)))
  {
    SenderContext.NeighbouringNumbers(j);
    if i == 0 {
      IntactBlock(x, true, 0, StatPayload(f.name, |f.content|));
    } else {
      IntactBlock(x, true, NumOf(i), PadChunk(ChunkOf(f.content, i)));
    }
    hide Frame, PadChunk, ChunkOf, GetRest, StatPayload;
  }

  /** A first EOT is refused; a second one closes the file and reports it as done, or stops the receiver. */
  lemma ReceivingEot(r: Receiver, f: SrcFile, j: nat, env: Env)
    requires Receiving(r, f, j) && r.leaf != TransientData
    ensures var o := React(r, Ser(EOT, []), env);
            Stopped(r, o)
            || (Receiving(o.r, f, j) && SameFiles(r, o) && ACK !in o.sent && o.r.leaf == EotData)
            || (&& Waiting(o.r) && o.r.ctx.outs == r.ctx.outs && o.r.ctx.result == r.ctx.result + [Done]
                && r.leaf == EotData)
    ensures !r.ctx.kbCan && r.leaf == FirstByteData ==>
              var o := React(r, Ser(EOT, []), env);
              !Stopped(r, o) && !o.r.ctx.kbCan && o.sent == [NAK] && o.r.leaf == EotData
    ensures !r.ctx.kbCan && r.leaf == EotData && env.closeRc == 0 ==>
              var o := React(r, Ser(EOT, []), env);
              !Stopped(r, o) && Calm(o.r) && o.sent == [ACK, CHAR_C] && o.r.leaf == FirstByteStat
  {
    hide HasWritten, PadChunk, ChunkOf, DoneCount, FirstByteDataSer, EotDataSer, FirstByteStatSer, AreWeDoneSer, CanSer;
    hide OnTm, OnKb, Cont, Waiting;
    if r.leaf == EotData {
      SecondEot(r, f, j, env);
    } else {
      FirstEot(r, f, j);
      assert Fire(r, Ser(EOT, []), env) == FirstByteDataSer(r, EOT, []);
    }
  }

  lemma FirstEot(r: Receiver, f: SrcFile, j: nat)
    requires Receiving(r, f, j) && r.leaf == FirstByteData
    ensures var o := FirstByteDataSer(r, EOT, []);
            Stopped(r, o) || (Receiving(o.r, f, j) && SameFiles(r, o) && ACK !in o.sent && o.r.leaf == EotData)
    ensures !r.ctx.kbCan ==>
              var o := FirstByteDataSer(r, EOT, []);
              !Stopped(r, o) && !o.r.ctx.kbCan && o.sent == [NAK] && o.r.leaf == EotData
  {
    hide PadChunk, ChunkOf, DoneCount, WrittenAfter;
    FinishStops(r, r.ctx, KbCancelledDelayed);
  }

  lemma SecondEot(r: Receiver, f: SrcFile, j: nat, env: Env)
    requires Receiving(r, f, j) && r.leaf == EotData
    ensures var o := React(r, Ser(EOT, []), env);
            Stopped(r, o)
            || (Waiting(o.r) && o.r.ctx.outs == r.ctx.outs && o.r.ctx.result == r.ctx.result + [Done])
    ensures !r.ctx.kbCan && env.closeRc == 0 ==>
              var o := React(r, Ser(EOT, []), env);
              !Stopped(r, o) && Calm(o.r) && o.sent == [ACK, CHAR_C] && o.r.leaf == FirstByteStat
  {
    hide HasWritten, PadChunk, ChunkOf, Waiting, DoneCount, Cascade, OnTm, OnKb, EotCont;
    var o := EotDataSer(r, EOT, [], env);
    assert Fire(r, Ser(EOT, []), env) == o;
    ClosesOrStops(r, f, j, env, o);
    var n := EotCont(o.r);
    CascadeStep(o, env);
    CascadeStep(Out(n.r, o.sent + n.sent, o.purged || n.purged), env);
  }

  /** The CONT message behind the second EOT. */
  lemma ClosesOrStops(r: Receiver, f: SrcFile, j: nat, env: Env, o: Out)
    requires Receiving(r, f, j) && r.leaf == EotData && o == EotDataSer(r, EOT, [], env)
    ensures o.sent == [] && o.r.leaf == TransientEot
    ensures var n := EotCont(o.r);
            && !n.r.leaf.IsTransient()
            && (Stopped(r, n)
                || (Waiting(n.r) && n.r.ctx.outs == r.ctx.outs && n.r.ctx.result == r.ctx.result + [Done]))
            && (!r.ctx.kbCan && env.closeRc == 0 ==>
                  !Stopped(r, n) && Calm(n.r) && n.sent == [ACK, CHAR_C] && n.r.leaf == FirstByteStat)
  {
    hide HasWritten, PadChunk, ChunkOf, DoneCount;
    FinishStops(r, CloseFile(r.ctx, env), CloseError);
    DoneCountAppend(r.ctx.result, Done);
  }

  /** The receiver does not count bytes at EOT: in the data phase, two EOTs in a row make it report a file as done
      whatever it has got of it, and the file is complete exactly when all blocks have been taken. */
  lemma DoneWithoutCounting(r: Receiver, f: SrcFile, j: nat, env: Env, env': Env)
    requires Receiving(r, f, j) && r.leaf == FirstByteData && !r.ctx.kbCan && env'.closeRc == 0
    ensures var o1 := React(r, Ser(EOT, []), env);
            var o2 := React(o1.r, Ser(EOT, []), env');
            && o2.r.ctx.result == r.ctx.result + [Done] && o2.r.ctx.outs == r.ctx.outs
            && r.ctx.outs[r.ctx.fd].data == WrittenAfter(f.content, j)
            && (r.ctx.outs[r.ctx.fd].data == f.content <==> j == BlockCount(f.content))
            && (j == BlockCount(f.content) <==> r.ctx.bytesRemaining <= 0)
  {
    SizesAddUp(r.ctx, f.content, j);
    CountIsEnough(f.content, j);
    hide Receiving, Waiting, DoneCount, React, BlockCount;
    ReceivingEot(r, f, j, env);
    var o1 := React(r, Ser(EOT, []), env);
    WaitsNot(o1.r);
    ReceivingEot(o1.r, f, j, env');
    ReceivesNot(React(o1.r, Ser(EOT, []), env').r, f, j);
  }

  lemma WaitsNot(r: Receiver)
    requires r.leaf == EotData
    ensures !Waiting(r)
  {
  }

  lemma ReceivesNot(r: Receiver, f: SrcFile, j: nat)
    requires r.leaf == FirstByteStat
    ensures !Receiving(r, f, j)
  {
  }

  // ------------------------------------------- after the last stat block

  /** All files have been received: the session is about to end. */
  ghost predicate Ending(r: Receiver)
  {
    && r.Valid() && r.leaf in {FirstByteStat, AreWeDone}
    && r.ctx.fd == -1 && !r.ctx.rx.syncLoss && |r.ctx.outs| == Completed(r.ctx)
  }

  /** The session is about to end, or will be when the receiver is back from the CAN state. */
  ghost predicate AwaitsEnd(r: Receiver)
  {
    Ending(Back(r))
  }

  lemma EndingIdle(r: Receiver, e: Event, env: Env)
    requires AwaitsEnd(r) && e.Valid() && IsIdle(r, e)
    ensures var o := React(r, e, env);
            Stopped(r, o) || (AwaitsEnd(o.r) && SameFiles(r, o))
  {
    hide React, DoneCount;
    if r.leaf == Can {
      hide IsIdle;
      CanReacts(r, e, env);
    } else if e.Ser? && e.c == CAN {
      hide IsIdle;
      GoesToCan(r, e.rest, env);
    } else {
      EndingHere(r, e, env);
    }
  }

  lemma EndingHere(r: Receiver, e: Event, env: Env)
    requires Ending(r) && e.Valid() && IsIdle(r, e) && (e.Ser? ==> e.c != CAN)
    ensures var o := React(r, e, env);
            Stopped(r, o) || (Ending(o.r) && SameFiles(r, o))
  {
    hide React, Ending, Stopped, IsNoise;
    match e
    case Ser(c, rest) => EndingNoise(r, c, rest, env);
    case Tm => EndingQuietly(r, e, env);
    case KbC => EndingQuietly(r, e, env);
  }

  lemma EndingQuietly(r: Receiver, e: Event, env: Env)
    requires Ending(r) && !e.Ser?
    ensures var o := React(r, e, env);
            Stopped(r, o) || (Ending(o.r) && SameFiles(r, o))
  {
    hide DoneCount, Cascade, Fire, NonCanTm;
    FireEnding(r, e, env);
    CascadeStep(Fire(r, e, env), env);
    TimeoutStopsOrCounts(r);
    FinishStops(r, r.ctx, EndOfSession);
  }

  lemma TimeoutStopsOrCounts(r: Receiver)
    requires r.Valid() && !r.leaf.IsTransient()
    ensures var o := NonCanTm(r);
            Stopped(r, o) || o.r == r.(ctx := r.ctx.(errCnt := r.ctx.errCnt + 1))
  {
    hide DoneCount;
    FinishStops(r, r.ctx, KbCancelled);
    FinishStops(r, r.ctx, ExcessiveErrors);
  }

  lemma FireEnding(r: Receiver, e: Event, env: Env)
    requires Ending(r) && e.Valid()
    ensures Fire(r, e, env) == match e
                               case Ser(c, rest) =>
                                 if r.leaf == FirstByteStat then FirstByteStatSer(r, c, rest)
                                 else AreWeDoneSer(r, c, rest)
                               case Tm =>
                                 if r.leaf == FirstByteStat then NonCanTm(r) else Quiet(Finish(r, r.ctx, EndOfSession))
                               case KbC => Quiet(r.(ctx := r.ctx.(kbCan := true)))
  {
    hide DoneCount;
    if r.leaf == FirstByteStat {
      FireWaiting(r, e, env);
    } else {
      FireAsking(r, e, env);
    }
    hide Fire, FirstByteStatSer, AreWeDoneSer, NonCanTm;
  }

  lemma EndingNoise(r: Receiver, c: byte, rest: Data, env: Env)
    requires Ending(r) && IsNoise(r, c, rest) && c != CAN
    ensures var o := React(r, Ser(c, rest), env);
            Stopped(r, o) || (Ending(o.r) && SameFiles(r, o))
  {
    hide CrcMatches, Stored, DoneCount, Cascade, Fire;
    FireEnding(r, Ser(c, rest), env);
    var o := Fire(r, Ser(c, rest), env);
    FinishStops(r, r.ctx, KbCancelledDelayed);
    FinishStops(r, r.ctx, ExcessiveErrors);
    if c == SOH && !r.ctx.kbCan {
      RejectedStat(o.r, env, o);
    } else {
      CascadeStep(o, env);
    }
  }

  lemma FireAsking(r: Receiver, e: Event, env: Env)
    requires r.Valid() && r.leaf == AreWeDone && e.Valid()
    ensures Fire(r, e, env) == match e
                               case Ser(c, rest) => AreWeDoneSer(r, c, rest)
                               case Tm => Quiet(Finish(r, r.ctx, EndOfSession))
                               case KbC => Quiet(r.(ctx := r.ctx.(kbCan := true)))
  {
    hide AreWeDoneSer;
  }

  lemma RejectedStat(r: Receiver, env: Env, o: Out)
    requires r.Valid() && r.leaf == TransientStat && r.ctx.fd == -1 && o.r == r
    requires |r.ctx.outs| == Completed(r.ctx)
    requires !r.ctx.rx.goodBlk && !r.ctx.rx.syncLoss
    ensures var o' := Cascade(o, env);
            Stopped(r, o') || (Ending(o'.r) && SameFiles(r, o'))
  {
    hide DoneCount, CheckCont;
    FinishStops(r, r.ctx, ExcessiveErrorsAtStat);
    var o1 := StatCont(r);
    assert Cascade(o, env) == Cascade(Out(o1.r, o.sent + o1.sent, o.purged || o1.purged), env);
  }

  lemma EndingBlk(r: Receiver, env: Env)
    requires Ending(r)
    ensures var o := React(r, Ser(SOH, EmptyStatBlk()[1..]), env);
            Stopped(r, o) || (Ending(o.r) && SameFiles(r, o))
    ensures Waiting(r) && Calm(r) ==>
              var o := React(r, Ser(SOH, EmptyStatBlk()[1..]), env);
              !Stopped(r, o) && !o.r.ctx.kbCan && o.r.leaf == AreWeDone && o.sent == [ACK]
  {
    hide EmptyStatBlk, DoneCount, OnTm, OnKb, Cont;
    if r.ctx.kbCan {
      hide GetRestBlk, FirstByteDataSer, EotDataSer, CanSer;
      FinishStops(r, r.ctx, KbCancelledDelayed);
    } else {
      EmptyStatFired(r, env);
      hide OnSer;
      var o := OnSer(r, SOH, EmptyStatBlk()[1..], env);
      EmptyStat(o.r, env, o);
    }
  }

  lemma EmptyStatFired(r: Receiver, env: Env)
    requires Ending(r) && !r.ctx.kbCan
    ensures var o := OnSer(r, SOH, EmptyStatBlk()[1..], env);
            && o.r.Valid() && o.r.leaf == TransientStat && o.r.ctx.fd == -1 && o.sent == [] && SameFiles(r, o)
            && (o.r.ctx.rx.goodBlk || o.r.ctx.rx.syncLoss) && o.r.ctx.rx.Payload()[0] == 0
            && (Waiting(r) && Calm(r) ==> o.r.ctx.rx.goodBlk && !o.r.ctx.rx.syncLoss && Calm(o.r))
  {
    IntactBlock(r.ctx.rx, false, 0, Fill(CHUNK_SZ, 0));
    hide Frame, GetRest, DoneCount, FirstByteDataSer, EotDataSer, CanSer;
  }

  lemma EmptyStat(r: Receiver, env: Env, o: Out)
    requires r.Valid() && r.leaf == TransientStat && r.ctx.fd == -1 && o.r == r
    requires |r.ctx.outs| == Completed(r.ctx)
    requires r.ctx.rx.goodBlk || r.ctx.rx.syncLoss
    requires r.ctx.rx.Payload()[0] == 0
    ensures var o' := Cascade(o, env);
            Stopped(r, o') || (Ending(o'.r) && SameFiles(r, o'))
    ensures r.ctx.rx.goodBlk && !r.ctx.rx.syncLoss && Calm(r) ==>
              var o' := Cascade(o, env);
              !Stopped(r, o') && !o'.r.ctx.kbCan && o'.r.leaf == AreWeDone && o'.sent == o.sent + [ACK]
  {
    hide DoneCount, Cascade;
    FinishStops(r, r.ctx, ExcessiveErrorsAtStat);
    FinishStops(r, r.ctx, LossOfSyncAtStat);
    var o1 := StatCont(r);
    assert r.ctx.rx.rcvBlk[DATA_POS] == r.ctx.rx.Payload()[0];
    if o1.r.leaf == TransientCheck {
      LastCheck(o, env);
    } else {
      CascadeStep(o, env);
      CascadeStep(Out(o1.r, o.sent + o1.sent, o.purged || o1.purged), env);
    }
  }

  lemma LastCheck(o: Out, env: Env)
    requires o.r.Valid() && o.r.leaf == TransientStat
    requires StatCont(o.r).r.leaf == TransientCheck && StatCont(o.r).r.ctx.anotherFile == 0
    ensures Cascade(o, env).r == StatCont(o.r).r.(leaf := AreWeDone)
    ensures Cascade(o, env).sent == o.sent + StatCont(o.r).sent + [ACK]
  {
    hide StatCont, OpenCont, EotCont, OpenFile;
    var o1 := StatCont(o.r);
    var p1 := Out(o1.r, o.sent + o1.sent, o.purged || o1.purged);
    var o2 := CheckCont(p1.r, env);
    var p2 := Out(o2.r, p1.sent + o2.sent, p1.purged || o2.purged);
    assert Cascade(o, env) == Cascade(p1, env);
    assert Cascade(p1, env) == Cascade(p2, env);
  }

  // --------------------------------------------------------- cancelling

  /** A burst of CAN bytes stops the receiver, or is discarded as a whole. */
  lemma BurstStops(r: Receiver, env: Env)
    requires r.Valid() && !r.leaf.IsTransient() && r.leaf != Can && !r.leaf.IsOver()
    ensures var o1 := React(r, Ser(CAN, []), env);
            var o2 := React(o1.r, Ser(CAN, []), env);
            if r.leaf == TransientData then o2.r == r && o1.sent == o2.sent == []
            else Stopped(r, o2) && o1.sent == o2.sent == []
  {
    hide DoneCount, React;
    FirstCan(r, env);
    if r.leaf != TransientData {
      SecondCan(React(r, Ser(CAN, []), env).r, env);
      FinishStops(r, CloseFile(r.ctx, env), SndCancelled);
    }
  }

  lemma FirstCan(r: Receiver, env: Env)
    requires r.Valid() && !r.leaf.IsTransient() && r.leaf != Can && !r.leaf.IsOver()
    ensures React(r, Ser(CAN, []), env) == if r.leaf == TransientData then Out(r, [], true)
                                           else Quiet(r.(leaf := Can, history := Remembered(r.leaf, r.history)))
  {
    hide React, GetRestBlk, Remembered, CloseFile;
    NothingFollows(r, Ser(CAN, []), env);
  }

  lemma SecondCan(r: Receiver, env: Env)
    requires r.Valid() && r.leaf == Can
    ensures React(r, Ser(CAN, []), env) == Out(Finish(r, CloseFile(r.ctx, env), SndCancelled), [], true)
  {
    hide React, CloseFile;
    NothingFollows(r, Ser(CAN, []), env);
  }

  // ------------------------------------------------------- CAN detour

  /** One CAN byte followed by another byte or a timeout brings the receiver back to where it was if and only if it is
      outside the data phase and no keyboard cancel is pending; then nothing but the history has changed. */
  lemma CanDetour(r: Receiver, back: Event, env: Env, env': Env)
    requires r.Valid() && r.history in {FirstByteStat, AreWeDone}
    requires r.leaf in {FirstByteStat, AreWeDone, FirstByteData, EotData}
    requires back.Valid() && (back == Tm || (back.Ser? && back.c != CAN))
    ensures var away := React(r, Ser(CAN, []), env);
            var home := React(away.r, back, env');
            && away.r.leaf == Can && away.r.ctx == r.ctx && away.sent == []
            && (home.r.leaf == r.leaf <==> !r.ctx.kbCan && r.leaf !in {FirstByteData, EotData})
            && (home.r.leaf == r.leaf ==> home.r == r.(history := r.leaf) && home.sent == [])
            && (!r.ctx.kbCan && home.r.leaf != r.leaf ==> home.r == r.(leaf := r.history) && home.sent == [])
  {
    hide React, CloseFile;
    FirstCan(r, env);
    NothingFollows(React(r, Ser(CAN, []), env).r, back, env');
  }

  /** From the data phase the receiver comes back to waiting for a stat block, with the file still open. */
  lemma CanLeavesDataPhase(r: Receiver, env: Env, env': Env)
    requires r.Valid() && r.leaf == FirstByteData && r.history == FirstByteStat && !r.ctx.kbCan
    ensures var away := React(r, Ser(CAN, []), env);
            React(away.r, Tm, env') == Quiet(r.(leaf := FirstByteStat))
  {
    hide React, CloseFile;
    FirstCan(r, env);
    NothingFollows(React(r, Ser(CAN, []), env).r, Tm, env');
  }

  /** The next data block is then read as a stat block: unless its first byte is zero, another file is created, and the
      one before it is neither complete nor reported. */
  lemma DataReadAsStat(r: Receiver, f: SrcFile, j: nat, env: Env, env': Env, env'': Env)
    requires Receiving(r, f, j) && r.leaf == FirstByteData && r.history == FirstByteStat
    requires !r.ctx.kbCan && r.ctx.errCnt < ERR_BOUND && SenderContext.FileFits(f)
    requires j < BlockCount(f.content) && env''.creatOk
    requires PadChunk(ChunkOf(f.content, j + 1))[0] != 0
    ensures var away := React(r, Ser(CAN, []), env);
            var home := React(away.r, Tm, env');
            var o := React(home.r, Ser(SOH, SenderContext.Block(f, j + 1)[1..]), env'');
            && |o.r.ctx.outs| == Completed(o.r.ctx) + 2
            && o.r.ctx.outs[Completed(o.r.ctx)].data == WrittenAfter(f.content, j)
            && o.r.ctx.outs[Completed(o.r.ctx)].data != f.content
  {
    hide Receiving, React, SenderContext.Block, GetRest, PadChunk, ChunkOf, DoneCount, BlockCount, WrittenAfter;
    IncompleteFile(r, f, j);
    CanLeavesDataPhase(r, env, env');
    AcceptedBlk(r.ctx.rx, f, j, j + 1);
    var rest := SenderContext.Block(f, j + 1)[1..];
    var t := r.(leaf := FirstByteStat);
    var o := FirstByteStatSer(t, SOH, rest);
    OnlyStat(t, rest, env'');
    assert o.r.ctx.rx.Payload()[0] == o.r.ctx.rx.rcvBlk[DATA_POS];
    AnotherFile(o.r, env'', o.purged);
  }

  lemma IncompleteFile(r: Receiver, f: SrcFile, j: nat)
    requires Receiving(r, f, j) && r.leaf == FirstByteData && j < BlockCount(f.content)
    ensures r.Valid() && r.ctx.fd == Completed(r.ctx) == |r.ctx.outs| - 1 && !r.ctx.rx.syncLoss
    ensures r.ctx.rx.numLastGoodBlk == NumOf(j)
    ensures r.ctx.outs[r.ctx.fd].data == WrittenAfter(f.content, j) != f.content
  {
    SizesAddUp(r.ctx, f.content, j);
    CountIsEnough(f.content, j);
    hide DoneCount, BlockCount, PadChunk, ChunkOf;
  }

  lemma OnlyStat(r: Receiver, rest: Data, env: Env)
    requires r.Valid() && r.leaf == FirstByteStat && |rest| < BUF_SZ
    ensures React(r, Ser(SOH, rest), env) == Cascade(FirstByteStatSer(r, SOH, rest), env)
  {
    hide FirstByteStatSer, Cascade;
  }

  lemma OpenCreates(c: Ctx, env: Env)
    requires c.Valid() && env.creatOk
    ensures var d := OpenFile(c, env).c;
            && |d.outs| == |c.outs| + 1 && d.outs[..|c.outs|] == c.outs && d.result == c.result && d.fd == |c.outs|
  {
    hide StatName, StatSize;
  }

  /** A good block that does not begin with a zero byte has a file created, whatever becomes of its size. */
  lemma AnotherFile(r: Receiver, env: Env, purged: bool)
    requires r.Valid() && r.leaf == TransientStat && r.ctx.rx.goodBlk && !r.ctx.rx.syncLoss && r.ctx.errCnt < ERR_BOUND
    requires r.ctx.rx.rcvBlk[DATA_POS] != 0 && env.creatOk
    ensures var o := Cascade(Out(r, [], purged), env);
            && |o.r.ctx.outs| == |r.ctx.outs| + 1 && o.r.ctx.outs[..|r.ctx.outs|] == r.ctx.outs
            && o.r.ctx.result == r.ctx.result
  {
    hide Cascade, StatName, StatSize, OpenFile;
    OpenCreates(CheckForAnotherFile(r.ctx), env);
    var n := StatCont(r);
    var o1 := Out(n.r, [] + n.sent, purged || n.purged);
    CascadeStep(Out(r, [], purged), env);
    var m := CheckCont(o1.r, env);
    var o2 := Out(m.r, o1.sent + m.sent, o1.purged || m.purged);
    CascadeStep(o1, env);
    CascadeStep(o2, env);
    if m.r.leaf == TransientOpen {
      var k := OpenCont(m.r);
      CascadeStep(Out(k.r, o2.sent + k.sent, o2.purged || k.purged), env);
    }
  }
}
