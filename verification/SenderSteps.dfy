/** What single reactions of the sender do to its place in the list of files and blocks. */
module SenderSteps {
  import opened Bytes
  import opened Blocks
  import opened Session
  import opened SenderContext
  import opened SenderChart

  /** The state of NON_CAN that the sender is in, or to which it would return. */
  function Phase(s: Sender): Leaf
  {
    if s.leaf == Can then s.history else s.leaf
  }

  /** The place of the sender: which file, and how many blocks of it have been sent, fit the phase. */
  ghost predicate Shape(files: seq<SrcFile>, phase: Leaf, c: Ctx)
  {
    && FilesFit(files) && c.fileNameIndex <= |files|
    && (c.named ==> c.fileNameIndex > 0)
    && (!c.named ==> c.fileNameIndex == |files| && phase in {StatC, AckNakStat})
    && (c.named && phase != StatC ==> Current(files, c).openable)
    && match phase
       case StatC => c.k == 0
       case AckNakStat => c.k == 1
       case One => c.k == 1
       case AckNak => 2 <= c.k <= BlockCount(Current(files, c).content) + 1
       case Eot1 => c.k == BlockCount(Current(files, c).content) + 1
       case EotEot => c.k == BlockCount(Current(files, c).content) + 1
       case _ => false
  }

  /** The fields of a sender that is still at work hold what the phase needs. */
  ghost predicate Holds(files: seq<SrcFile>, phase: Leaf, c: Ctx)
    requires c.named ==> 0 < c.fileNameIndex <= |files|
  {
    if c.named then
      if Current(files, c).openable then
        BuffersHold(files, c) && (phase != Eot1 && phase != EotEot ==> c.fd == c.fileNameIndex - 1)
      else
        phase == StatC && c.fd == -1
    else
      c.fd == -2 && c.blk0 == EmptyStatBlk() && c.blkNum == (if phase == StatC then 0 else 1)
  }

  ghost predicate Live(files: seq<SrcFile>, s: Sender)
  {
    && s.leaf != Final
    && Shape(files, Phase(s), s.ctx) && Holds(files, Phase(s), s.ctx)
  }

  /** The same file and the same number of blocks sent. */
  predicate SamePlace(c: Ctx, d: Ctx)
  {
    d.named == c.named && d.fileNameIndex == c.fileNameIndex && d.k == c.k
  }

  ghost predicate Ended(s: Sender, o: Out)
  {
    o.s.leaf == Final && SamePlace(s.ctx, o.s.ctx) && (o.sent == [] || o.sent == [Cans])
  }

  ghost predicate Idle(files: seq<SrcFile>, s: Sender, o: Out)
  {
    Live(files, o.s) && Phase(o.s) == Phase(s) && SamePlace(s.ctx, o.s.ctx) && o.sent == []
  }

  /** The last block goes out once more. */
  ghost predicate Resent(files: seq<SrcFile>, s: Sender, o: Out)
    requires Live(files, s)
  {
    && Live(files, o.s) && SamePlace(s.ctx, o.s.ctx) && s.ctx.k > 0
    && o.s.leaf == (if s.leaf == One then AckNakStat else s.leaf)
    && o.sent == [Blk(if s.ctx.named then Block(Current(files, s.ctx), s.ctx.k - 1) else EmptyStatBlk())]
  }

  /** The next block goes out for the first time. */
  ghost predicate SentNext(files: seq<SrcFile>, s: Sender, o: Out, to: Leaf)
    requires Live(files, s)
  {
    && Live(files, o.s) && o.s.leaf == to && SamePlace(s.ctx.(k := s.ctx.k + 1), o.s.ctx)
    && (s.ctx.named ==> Current(files, s.ctx).openable)
    && o.sent == [Blk(if s.ctx.named then Block(Current(files, s.ctx), s.ctx.k) else EmptyStatBlk())]
  }

  ghost predicate SentEot(files: seq<SrcFile>, s: Sender, o: Out, to: Leaf)
  {
    Live(files, o.s) && o.s.leaf == to && SamePlace(s.ctx, o.s.ctx) && o.sent == [Eot]
  }

  /** On to the next file, or to the end of the session. */
  ghost predicate NextFile(files: seq<SrcFile>, s: Sender, o: Out)
  {
    && Live(files, o.s) && o.s.leaf == StatC && o.sent == []
    && if s.ctx.fileNameIndex < |files| then o.s.ctx.named && o.s.ctx.fileNameIndex == s.ctx.fileNameIndex + 1
       else !o.s.ctx.named && o.s.ctx.fileNameIndex == s.ctx.fileNameIndex
  }

  // ------------------------------------------------------------- events

  lemma NonCanEndsOrStays(files: seq<SrcFile>, s: Sender, c: byte, now: int)
    requires Live(files, s) && s.leaf != Can
    ensures var o := NonCanSer(s, c, now);
            Ended(s, o) || Idle(files, s, o)
  {
    hide Frame, StatBlk, DataBlk, ChunkOf, EndOf, BlockCount, FilesFit;
  }

  lemma TimeoutEndsOrReturns(files: seq<SrcFile>, s: Sender, now: int)
    requires Live(files, s)
    ensures var o := React(files, s, Tm, now);
            Ended(s, o) || Idle(files, s, o)
  {
    hide Frame, StatBlk, DataBlk, ChunkOf, EndOf, BlockCount, PrepStat, SendNew;
  }

  lemma CancelEndsOrStays(files: seq<SrcFile>, s: Sender, now: int)
    requires Live(files, s)
    ensures var o := React(files, s, KbC, now);
            Ended(s, o) || Idle(files, s, o)
  {
    hide Frame, StatBlk, DataBlk, ChunkOf, EndOf, BlockCount, PrepStat, SendNew;
  }

  lemma CanReads(files: seq<SrcFile>, s: Sender, c: byte)
    requires Live(files, s) && s.leaf == Can
    ensures var o := CanSer(s, c);
            Ended(s, o) || Idle(files, s, o)
  {
    hide Frame, StatBlk, DataBlk, ChunkOf, EndOf, BlockCount;
  }

  /** Fields that neither the shape nor the buffers depend on may change, and the file may be closed when the
      phase no longer needs it. */
  predicate SameBuffers(c: Ctx, d: Ctx)
  {
    && SamePlace(c, d) && d.pos == c.pos && d.bytesRd == c.bytesRd && d.blkNum == c.blkNum
    && d.blk0 == c.blk0 && d.blk1 == c.blk1
  }

  lemma Carried(files: seq<SrcFile>, from: Leaf, to: Leaf, c: Ctx, d: Ctx)
    requires Shape(files, from, c) && Holds(files, from, c) && SameBuffers(c, d)
    requires from == to || (from == One && to == AckNakStat) || (from == AckNakStat && to == One && c.named)
    requires d.fd == c.fd
    ensures Shape(files, to, d) && Holds(files, to, d)
  {
    hide Frame, StatBlk, DataBlk, ChunkOf, EndOf, BlockCount, FilesFit;
  }

  /** When nothing is left to send, the sender may go on to the end of the file. */
  lemma CarriedToEot(files: seq<SrcFile>, from: Leaf, to: Leaf, c: Ctx, d: Ctx)
    requires Shape(files, from, c) && Holds(files, from, c) && SameBuffers(c, d)
    requires (from in {One, AckNak} && c.bytesRd == 0) || from in {Eot1, EotEot}
    requires to in {Eot1, EotEot}
    ensures Shape(files, to, d) && Holds(files, to, d)
  {
    hide FilesFit, BuffersHold, BlockCount;
    AllSent(files, from, c);
    BuffersCarried(files, c, d);
  }

  lemma BuffersCarried(files: seq<SrcFile>, c: Ctx, d: Ctx)
    requires BuffersHold(files, c) && SameBuffers(c, d)
    ensures BuffersHold(files, d)
  {
    hide Frame, StatBlk, DataBlk, ChunkOf, EndOf, BlockCount, FilesFit;
  }

  lemma AllSent(files: seq<SrcFile>, from: Leaf, c: Ctx)
    requires Shape(files, from, c) && Holds(files, from, c)
    requires (from in {One, AckNak} && c.bytesRd == 0) || from in {Eot1, EotEot}
    ensures c.named && Current(files, c).openable && c.k == BlockCount(Current(files, c).content) + 1
    ensures BuffersHold(files, c)
  {
    hide Frame, StatBlk, DataBlk, ChunkOf, EndOf, BlockCount, FilesFit;
    if from in {One, AckNak} {
      assert BuffersHold(files, c);
      NothingLeft(files, c);
      hide BuffersHold;
    }
  }

  /** Sending the next block keeps the buffers and the place in step. */
  lemma SendNewKeeps(files: seq<SrcFile>, phase: Leaf, c: Ctx, d: Ctx)
    requires Shape(files, phase, c) && Holds(files, phase, c)
    requires (phase == StatC && c.named && c.fd != -1) || (phase in {One, AckNak} && c.bytesRd != 0)
    requires SameBuffers(SendNew(files, c), d) && d.fd == SendNew(files, c).fd
    ensures SamePlace(c.(k := c.k + 1), d)
    ensures var to := if phase == StatC then AckNakStat else AckNak;
            Shape(files, to, d) && Holds(files, to, d)
    ensures CurrentBlk(c) == Block(Current(files, c), c.k) && Current(files, c).openable
  {
    hide Block, ChunkOf, EndOf, BlockCount, SendNew, FileFits;
    SendNewFields(files, c);
    if c.k > 0 {
      NothingLeft(files, c);
    }
    SendNewRefines(files, c);
  }

  lemma SendNewFields(files: seq<SrcFile>, c: Ctx)
    ensures var d := SendNew(files, c);
            && d.k == c.k + 1 && d.named == c.named && d.fileNameIndex == c.fileNameIndex && d.fd == c.fd
            && d.blkNum == Succ(c.blkNum) && d.result == c.result && d.kbCan == c.kbCan
  {
    hide NextRead, Frame, PadChunk;
  }

  lemma LastStatKeeps(files: seq<SrcFile>, c: Ctx, d: Ctx)
    requires Shape(files, StatC, c) && Holds(files, StatC, c) && !c.named
    requires SameBuffers(SendNew(files, c), d) && d.fd == SendNew(files, c).fd
    ensures SamePlace(c.(k := c.k + 1), d)
    ensures Shape(files, AckNakStat, d) && Holds(files, AckNakStat, d) && CurrentBlk(c) == EmptyStatBlk()
  {
    hide EmptyStatBlk;
  }

  lemma StatCReads(files: seq<SrcFile>, s: Sender, c: byte, now: int)
    requires Live(files, s) && s.leaf == StatC
    ensures var o := StatCSer(files, s, c, now);
            Ended(s, o) || Idle(files, s, o) || SentNext(files, s, o, AckNakStat)
  {
    hide Shape, Holds, Block, EmptyStatBlk, NonCanSer, SendNew, CurrentBlk, FilesFit, Idle;
    NonCanEndsOrStays(files, s, c, now);
    var o := StatCSer(files, s, c, now);
    if c == CHAR_C && s.ctx.fd != -1 {
      hide Ended;
      if s.ctx.named {
        SendNewKeeps(files, StatC, s.ctx, o.s.ctx);
      } else {
        LastStatKeeps(files, s.ctx, o.s.ctx);
      }
    }
  }

  /** What goes out when a block is sent again. */
  lemma ResendKeeps(files: seq<SrcFile>, s: Sender, to: Leaf, now: int)
    requires Live(files, s) && (s.leaf == AckNakStat || s.leaf == One || s.leaf == AckNak)
    requires to == if s.leaf == One then AckNakStat else s.leaf
    ensures var o := Resend(s, now);
            Resent(files, s, o.(s := o.s.(leaf := to)))
  {
    hide Shape, Holds, Block, EmptyStatBlk, LastBlk, FilesFit;
    Carried(files, s.leaf, to, s.ctx, Resend(s, now).s.ctx);
    LastBlkSent(files, s.leaf, s.ctx);
  }

  lemma LastBlkSent(files: seq<SrcFile>, phase: Leaf, c: Ctx)
    requires Shape(files, phase, c) && Holds(files, phase, c) && phase in {AckNakStat, One, AckNak}
    ensures c.k > 0
    ensures LastBlk(c) == if c.named then Block(Current(files, c), c.k - 1) else EmptyStatBlk()
  {
    hide Frame, StatBlk, DataBlk, EmptyStatBlk, ChunkOf, EndOf, BlockCount, FilesFit;
  }

  lemma AckNakStatReads(files: seq<SrcFile>, s: Sender, c: byte, now: int)
    requires Live(files, s) && s.leaf == AckNakStat
    ensures var o := AckNakStatSer(s, c, now);
            || Ended(s, o) || Idle(files, s, o)
            || (c != ACK && Resent(files, s, o))
            || (c == ACK && s.ctx.named && Live(files, o.s) && o.s.leaf == One && SamePlace(s.ctx, o.s.ctx) && o.sent == [])
  {
    hide Shape, Holds, Block, EmptyStatBlk, NonCanSer, FilesFit, Idle;
    NonCanEndsOrStays(files, s, c, now);
    var o := AckNakStatSer(s, c, now);
    if c == ACK && s.ctx.named && !s.ctx.kbCan {
      hide Resent;
      Carried(files, AckNakStat, One, s.ctx, o.s.ctx);
    } else if (c == NAK || c == CHAR_C) && !s.ctx.kbCan {
      hide Resent;
      ResendKeeps(files, s, AckNakStat, now);
    }
  }

  lemma OneReads(files: seq<SrcFile>, s: Sender, c: byte, now: int)
    requires Live(files, s) && s.leaf == One
    ensures var o := OneSer(files, s, c, now);
            || Ended(s, o) || Idle(files, s, o)
            || (c != ACK && (Resent(files, s, o) || SentNext(files, s, o, AckNak) || SentEot(files, s, o, Eot1)))
  {
    hide Shape, Holds, Block, EmptyStatBlk, NonCanSer, SendNew, CurrentBlk, FilesFit, Idle, Ended;
    NonCanEndsOrStays(files, s, c, now);
    var o := OneSer(files, s, c, now);
    if c == CHAR_C && s.ctx.bytesRd == 0 && !s.ctx.kbCan {
      hide Resent, SentNext;
      CarriedToEot(files, One, Eot1, s.ctx, o.s.ctx);
    } else if c == CHAR_C && !s.ctx.kbCan {
      hide Resent;
      SendNewKeeps(files, One, s.ctx, o.s.ctx);
      NamedInData(files, s);
    } else if c == NAK && !s.ctx.kbCan {
      hide Resent, SentNext;
      ResendKeeps(files, s, AckNakStat, now);
    }
  }

  lemma NamedInData(files: seq<SrcFile>, s: Sender)
    requires Live(files, s) && s.leaf in {One, AckNak, Eot1, EotEot}
    ensures s.ctx.named && Current(files, s.ctx).openable
  {
    hide BlockCount, FilesFit;
  }

  lemma AckNakReads(files: seq<SrcFile>, s: Sender, c: byte, now: int)
    requires Live(files, s) && s.leaf == AckNak
    ensures var o := AckNakSer(files, s, c, now);
            || Ended(s, o) || Idle(files, s, o)
            || (c != ACK && Resent(files, s, o))
            || (c == ACK && (SentNext(files, s, o, AckNak) || SentEot(files, s, o, Eot1)))
  {
    hide Shape, Holds, Block, EmptyStatBlk, NonCanSer, SendNew, CurrentBlk, FilesFit, Idle, Ended;
    NonCanEndsOrStays(files, s, c, now);
    var o := AckNakSer(files, s, c, now);
    if (c == NAK || (c == CHAR_C && s.ctx.firstBlk)) && s.ctx.errCnt < ERR_BOUND && !s.ctx.kbCan {
      hide Resent, SentNext;
      ResendKeeps(files, s, AckNak, now);
    } else if c == ACK && s.ctx.bytesRd == 0 && !s.ctx.kbCan {
      hide Resent, SentNext;
      CarriedToEot(files, AckNak, Eot1, s.ctx, o.s.ctx);
    } else if c == ACK && !s.ctx.kbCan {
      hide Resent;
      SendNewKeeps(files, AckNak, s.ctx, o.s.ctx);
      NamedInData(files, s);
    }
  }

  lemma PrepStatLive(files: seq<SrcFile>, s: Sender, c: Ctx, now: int)
    requires FilesFit(files) && s.leaf == StatC && c.fileNameIndex <= |files| && s.ctx == PrepStat(files, c).Tm(TM_VL, now)
    ensures Live(files, s)
    ensures if c.fileNameIndex < |files| then s.ctx.named && s.ctx.fileNameIndex == c.fileNameIndex + 1
            else !s.ctx.named && s.ctx.fileNameIndex == c.fileNameIndex
  {
    hide Frame, StatBlk, EmptyStatBlk, DataBlk, ChunkOf, BlockCount, FileFits;
    if c.fileNameIndex < |files| && files[c.fileNameIndex].openable {
      PrepStatHolds(files, c);
    }
  }

  lemma Eot1Reads(files: seq<SrcFile>, s: Sender, c: byte, now: int)
    requires Live(files, s) && s.leaf == Eot1
    ensures var o := Eot1Ser(files, s, c, now);
            || Ended(s, o) || Idle(files, s, o)
            || (c != ACK && (SentEot(files, s, o, Eot1) || SentEot(files, s, o, EotEot)))
            || (c == ACK && NextFile(files, s, o))
  {
    hide Holds, Block, EmptyStatBlk, NonCanSer, BlockCount, FilesFit, PrepStat, Idle, Ended;
    NonCanEndsOrStays(files, s, c, now);
    var o := Eot1Ser(files, s, c, now);
    if c == CHAR_C && s.ctx.firstBlk && s.ctx.errCnt < ERR_BOUND {
      hide NextFile;
      CarriedToEot(files, Eot1, Eot1, s.ctx, o.s.ctx);
    } else if c == ACK && !s.ctx.kbCan {
      hide Shape, SentEot;
      PrepStatLive(files, o.s, s.ctx, now);
    } else if c == NAK && !s.ctx.kbCan {
      hide NextFile;
      CarriedToEot(files, Eot1, EotEot, s.ctx, o.s.ctx);
    }
  }

  lemma EotEotReads(files: seq<SrcFile>, s: Sender, c: byte, now: int)
    requires Live(files, s) && s.leaf == EotEot
    ensures var o := EotEotSer(files, s, c, now);
            || Ended(s, o) || Idle(files, s, o)
            || (c != ACK && SentEot(files, s, o, EotEot))
            || (c == ACK && NextFile(files, s, o))
  {
    hide Holds, Block, EmptyStatBlk, NonCanSer, BlockCount, FilesFit, PrepStat, Idle, Ended;
    NonCanEndsOrStays(files, s, c, now);
    var o := EotEotSer(files, s, c, now);
    if c == NAK && !s.ctx.kbCan && s.ctx.errCnt < ERR_BOUND {
      hide NextFile;
      CarriedToEot(files, EotEot, EotEot, s.ctx, o.s.ctx);
    } else if c == ACK && !s.ctx.kbCan {
      hide Shape, SentEot;
      PrepStatLive(files, o.s, s.ctx.Append(Done), now);
    }
  }

  // ---------------------------------------------------------- every run

  lemma LiveShape(files: seq<SrcFile>, s: Sender)
    requires Live(files, s)
    ensures Shape(files, Phase(s), s.ctx)
  {
    hide Shape, Holds;
  }

  /** What the sender does with a byte that moves it on. */
  ghost predicate Busy(files: seq<SrcFile>, s: Sender, c: byte, o: Out)
    requires Live(files, s)
  {
    match s.leaf
    case StatC => SentNext(files, s, o, AckNakStat)
    case AckNakStat =>
      || (c != ACK && Resent(files, s, o))
      || (c == ACK && s.ctx.named && Live(files, o.s) && o.s.leaf == One && SamePlace(s.ctx, o.s.ctx) && o.sent == [])
    case One => c != ACK && (Resent(files, s, o) || SentNext(files, s, o, AckNak) || SentEot(files, s, o, Eot1))
    case AckNak =>
      || (c != ACK && Resent(files, s, o))
      || (c == ACK && (SentNext(files, s, o, AckNak) || SentEot(files, s, o, Eot1)))
    case Eot1 =>
      || (c != ACK && (SentEot(files, s, o, Eot1) || SentEot(files, s, o, EotEot)))
      || (c == ACK && NextFile(files, s, o))
    case EotEot => (c != ACK && SentEot(files, s, o, EotEot)) || (c == ACK && NextFile(files, s, o))
    case _ => false
  }

  lemma SenderOutcome(files: seq<SrcFile>, s: Sender, c: byte, now: int)
    requires Live(files, s)
    ensures FilesFit(files)
    ensures var o := React(files, s, Ser(c), now);
            Ended(s, o) || Idle(files, s, o) || Busy(files, s, c, o)
  {
    LiveShape(files, s);
    hide Ended, Idle, Resent, SentNext, SentEot, NextFile;
    hide StatCSer, AckNakStatSer, OneSer, AckNakSer, Eot1Ser, EotEotSer, CanSer;
    match s.leaf {
      case StatC => StatCReads(files, s, c, now);
      case AckNakStat => AckNakStatReads(files, s, c, now);
      case One => OneReads(files, s, c, now);
      case AckNak => AckNakReads(files, s, c, now);
      case Eot1 => Eot1Reads(files, s, c, now);
      case EotEot => EotEotReads(files, s, c, now);
      case Can => CanReads(files, s, c);
      case Final =>
    }
  }

  lemma BusyShape(files: seq<SrcFile>, s: Sender, c: byte, o: Out)
    requires Live(files, s) && Busy(files, s, c, o)
    ensures Live(files, o.s) && Phase(o.s) == o.s.leaf && o.s.leaf != Final
  {
    hide Shape, Holds;
  }

  /** A sender at work, or one that has stopped. */
  ghost predicate Sound(files: seq<SrcFile>, s: Sender)
  {
    FilesFit(files) && (s.leaf != Final ==> Live(files, s))
  }

  lemma EventOutcome(files: seq<SrcFile>, s: Sender, e: Event, now: int)
    requires Live(files, s)
    ensures FilesFit(files)
    ensures var o := React(files, s, e, now);
            Ended(s, o) || Idle(files, s, o) || (e.Ser? && Busy(files, s, e.c, o))
  {
    LiveShape(files, s);
    hide Live, React, Ended, Idle, Busy;
    match e {
      case Ser(c) => SenderOutcome(files, s, c, now);
      case Tm => TimeoutEndsOrReturns(files, s, now);
      case KbC => CancelEndsOrStays(files, s, now);
    }
  }

  lemma ReactSound(files: seq<SrcFile>, s: Sender, e: Event, now: int)
    requires Sound(files, s)
    ensures Sound(files, React(files, s, e, now).s)
  {
    hide StatCSer, AckNakStatSer, OneSer, AckNakSer, Eot1Ser, EotEotSer, CanSer, TopTm, StatCKb, NonCanKb;
    if s.leaf != Final {
      hide React, Live, Ended, Idle, Busy;
      EventOutcome(files, s, e, now);
      var o := React(files, s, e, now);
      if Busy(files, s, if e.Ser? then e.c else 0, o) && e.Ser? {
        BusyShape(files, s, e.c, o);
      } else {
        EndedOrIdleSound(files, s, o);
      }
    }
  }

  lemma EndedOrIdleSound(files: seq<SrcFile>, s: Sender, o: Out)
    requires FilesFit(files) && (Ended(s, o) || Idle(files, s, o))
    ensures Sound(files, o.s)
  {
    hide Shape, Holds;
  }

  lemma {:induction false} RunSound(files: seq<SrcFile>, s: Sender, es: seq<(Event, int)>)
    requires Sound(files, s)
    ensures Sound(files, Run(files, s, es))
  {
    hide Live, React;
    if es != [] {
      var n := |es| - 1;
      RunSound(files, s, es[..n]);
      ReactSound(files, Run(files, s, es[..n]), es[n].0, es[n].1);
    }
  }

  lemma StartSound(files: seq<SrcFile>, now: int)
    requires FilesFit(files)
    ensures Sound(files, Start(files, now))
  {
    PrepStatLive(files, Start(files, now), InitialCtx(), now);
    hide PrepStat, Live;
  }

  /** If the sender has put a block on the line, it is the last block sent of the current file, with the count of
      blocks unchanged, or the next one, which is then counted; behind the last file it is the empty stat block. */
  ghost predicate SendsRightBlock(files: seq<SrcFile>, s: Sender, o: Out)
  {
    |o.sent| <= 1
    && forall b :: o.sent == [Blk(b)] ==>
         if s.ctx.named then
           && 0 < s.ctx.fileNameIndex <= |files| && FileFits(Current(files, s.ctx))
           && o.s.ctx.fileNameIndex == s.ctx.fileNameIndex
           && ((o.s.ctx.k == s.ctx.k > 0 && b == Block(Current(files, s.ctx), s.ctx.k - 1))
               || (o.s.ctx.k == s.ctx.k + 1 && b == Block(Current(files, s.ctx), s.ctx.k)))
         else b == EmptyStatBlk()
  }

  /** The two buffers refine the list of all blocks: after any events at all, across any number of wraps of the
      8-bit block number, every block that the sender puts on the line is byte for byte the last block it sent
      of the current file, or the one behind it. */
  lemma BlocksOnEveryRun(files: seq<SrcFile>, start: int, es: seq<(Event, int)>, e: Event, now: int)
    requires FilesFit(files)
    ensures var s := Run(files, Start(files, start), es);
            SendsRightBlock(files, s, React(files, s, e, now))
  {
    StartSound(files, start);
    RunSound(files, Start(files, start), es);
    var s := Run(files, Start(files, start), es);
    hide Run, React, SendsRightBlock, Sound;
    ReactSends(files, s, e, now);
  }

  lemma ReactSends(files: seq<SrcFile>, s: Sender, e: Event, now: int)
    requires Sound(files, s)
    ensures SendsRightBlock(files, s, React(files, s, e, now))
  {
    hide Block, EmptyStatBlk, FileFits, Holds, BlockCount;
    hide StatCSer, AckNakStatSer, OneSer, AckNakSer, Eot1Ser, EotEotSer, CanSer, TopTm, StatCKb, NonCanKb;
    if s.leaf != Final {
      hide React;
      LiveShape(files, s);
      EventOutcome(files, s, e, now);
      hide Live;
    }
  }
}
