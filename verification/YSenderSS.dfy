/** The sender's state machine object (ySenderSS.cpp): its handlers move the active state and call the sender. */
module YSenderSS {
  import opened Bytes
  import opened Blocks
  import opened Session
  import opened SenderY
  import SenderContext
  import S = SenderChart

  lemma OneItemBytes(item: Item)
    ensures LineBytes([item]) == match item case Blk(b) => b case Eot => [EOT] case Cans => Fill(8, CAN)
  {
    assert [item][..0] == [];
  }

  /** Where the building of a stat block ends that the reaction to an event asks for. Only an ACK for an EOT goes on to
      the next file. */
  function StepOutcome(files: seq<SenderContext.SrcFile>, s: S.Sender, e: S.Event): StatOutcome
  {
    if GoesOn(s, e) then PrepOutcome(files, s.ctx) else Built
  }

  predicate GoesOn(s: S.Sender, e: S.Event)
  {
    e == S.Ser(ACK) && !s.ctx.kbCan && s.leaf in {S.Eot1, S.EotEot}
  }

  class YSenderSS {
    const ctx: SenderY
    var active: S.Leaf
    var history: S.Leaf

    ghost predicate Valid()
    {
      ctx.Valid()
    }

    ghost function Machine(): S.Sender
      reads this, ctx, ctx.blkBuf0, ctx.blkBuf1
    {
      S.Sender(active, history, ctx.View())
    }

    /** The machine has reacted as the chart says, and has put what the chart says on the line. */
    ghost predicate Did(o: S.Out, before: Data)
      reads this, ctx, ctx.blkBuf0, ctx.blkBuf1
    {
      Machine() == o.s && ctx.written == before + LineBytes(o.sent)
    }

    /** The machine with its context; it does not run yet. */
    constructor (ctx: SenderY)
      requires ctx.Valid()
      ensures this.ctx == ctx && Valid() && active == history == S.StatC
    {
      this.ctx := ctx;
      active, history := S.StatC, S.StatC;
    }

    /** Entry of the initial states. The program goes on only if the first stat block can be built. */
    method Start(now: int) returns (outcome: StatOutcome)
      requires Valid() && active == history == S.StatC && ctx.View() == SenderContext.InitialCtx()
      modifies ctx, ctx.blkBuf0
      ensures Valid() && outcome == PrepOutcome(ctx.files, SenderContext.InitialCtx())
      ensures outcome == Built ==> Machine() == S.Start(ctx.files, now)
      ensures ctx.written == old(ctx.written)
    {
      hide SenderContext.PrepStat;
      outcome := ctx.PrepStatBlk();
      ctx.Tm(TM_VL, now);
    }

    // --------------------------------------------- top level, NON_CAN

    method Finish(p: Phrase)
      modifies this`active, ctx`result
      ensures Machine() == S.Finish(old(Machine()), old(Machine()).ctx, p)
    {
      ctx.result := ctx.result + [p];
      active := S.Final;
    }

    method Abort(p: Phrase)
      modifies this`active, ctx`result, ctx`transferringFileD, ctx`written
      ensures Did(S.Out(S.Finish(old(Machine()), old(Machine()).ctx.CloseFile(), p), [Cans]), old(ctx.written))
    {
      OneItemBytes(Cans);
      ctx.SendCans();
      var _ := ctx.CloseTransferredFile();
      Finish(p);
    }

    method TopTm()
      modifies this`active, ctx`result, ctx`transferringFileD, ctx`written
      ensures Did(S.TopTm(old(Machine())), old(ctx.written))
    {
      Abort(if ctx.kbCan then KbCancelled else Timeout);
    }

    method TopSer(c: byte)
      modifies this`active, ctx`result, ctx`transferringFileD, ctx`written
      ensures Did(S.TopSer(old(Machine()), c), old(ctx.written))
    {
      if ctx.kbCan && (c == ACK || c == NAK || c == CHAR_C) {
        Abort(KbCancelled);
      }
    }

    method NonCanSer(c: byte, now: int)
      modifies this, ctx
      ensures Did(S.NonCanSer(old(Machine()), c, now), old(ctx.written))
    {
      if c == NAK && ctx.errCnt >= ERR_BOUND {
        Abort(ExcessiveNaks);
      } else if c == CAN {
        history, active := active, S.Can;
        ctx.TmPush(TM_CHAR, now);
      } else {
        TopSer(c);
      }
    }

    method NonCanKb()
      modifies this, ctx
      ensures Did(S.NonCanKb(old(Machine())), old(ctx.written))
    {
      if !ctx.kbCan {
        ctx.TmRed(TM_VL - TM_2CHAR);
        ctx.kbCan := true;
      }
    }

    // -------------------------------------------------------- leaves

    method SendNew(to: S.Leaf, now: int)
      requires Valid()
      modifies this`active, ctx, ctx.blkBuf0, ctx.blkBuf1
      ensures var c := old(Machine()).ctx;
              Did(S.Out(S.Goto(old(Machine()), to, SenderContext.SendNew(ctx.files, c).(errCnt := 0).Tm(TM_VL, now)),
                        [Blk(SenderContext.CurrentBlk(c))]), old(ctx.written))
    {
      hide SenderContext.SendNew;
      OneItemBytes(Blk(SenderContext.CurrentBlk(Machine().ctx)));
      ctx.SendBlkPrepNext();
      ctx.errCnt := 0;
      ctx.Tm(TM_VL, now);
      active := to;
    }

    method Resend(now: int)
      requires Valid()
      modifies ctx
      ensures Did(S.Resend(old(Machine()), now), old(ctx.written))
    {
      hide LineBytes, SenderContext.LastBlk;
      OneItemBytes(Blk(SenderContext.LastBlk(Machine().ctx)));
      ctx.ResendBlk();
      ctx.errCnt := ctx.errCnt + 1;
      ctx.Tm(TM_VL, now);
    }

    method SendEot(to: S.Leaf, errs: nat, now: int)
      modifies this`active, ctx`written, ctx`errCnt, ctx`absoluteTimeout
      ensures Did(S.SendEot(S.Goto(old(Machine()), to, old(Machine()).ctx.(errCnt := errs).Tm(TM_VL, now))), old(ctx.written))
    {
      OneItemBytes(Eot);
      ctx.SendByte(EOT);
      ctx.errCnt := errs;
      ctx.Tm(TM_VL, now);
      active := to;
    }

    method StatCSer(c: byte, now: int)
      requires Valid() && active == S.StatC
      modifies this, ctx, ctx.blkBuf0, ctx.blkBuf1
      ensures Did(S.StatCSer(ctx.files, old(Machine()), c, now), old(ctx.written))
    {
      hide SenderContext.SendNew;
      if c == CHAR_C && ctx.named && ctx.transferringFileD == -1 {
        OneItemBytes(Cans);
        ctx.SendCans();
        Finish(OpenError);
      } else if c == CHAR_C && ctx.transferringFileD != -1 {
        SendNew(S.AckNakStat, now);
      } else {
        NonCanSer(c, now);
      }
    }

    method StatCKb()
      modifies this, ctx
      ensures Did(S.StatCKb(old(Machine())), old(ctx.written))
    {
      if ctx.transferringFileD == -1 {
        ctx.result := [KbCancelledOpenErr];
      } else {
        var _ := ctx.CloseTransferredFile();
        ctx.result := [KbCancelledFromStatC];
      }
      active := S.Final;
      ctx.kbCan := true;
    }

    method AckNakStatSer(c: byte, now: int)
      requires Valid() && active == S.AckNakStat
      modifies this, ctx
      ensures Did(S.AckNakStatSer(old(Machine()), c, now), old(ctx.written))
    {
      if c == ACK && ctx.named && !ctx.kbCan {
        ctx.firstBlk := true;
        ctx.Tm(TM_VL, now);
        active := S.One;
      } else if (c == NAK || c == CHAR_C) && !ctx.kbCan {
        Resend(now);
      } else if c == ACK && !ctx.named {
        Finish(EndOfSession);
      } else {
        NonCanSer(c, now);
      }
    }

    method OneSer(c: byte, now: int)
      requires Valid() && active == S.One
      modifies this, ctx, ctx.blkBuf0, ctx.blkBuf1
      ensures Did(S.OneSer(ctx.files, old(Machine()), c, now), old(ctx.written))
    {
      hide SenderContext.SendNew;
      if c == CHAR_C && ctx.bytesRd == 0 && !ctx.kbCan {
        var _ := ctx.CloseTransferredFile();
        SendEot(S.Eot1, 0, now);
      } else if c == CHAR_C && ctx.bytesRd != 0 && !ctx.kbCan {
        SendNew(S.AckNak, now);
      } else if c == NAK && !ctx.kbCan {
        Resend(now);
        active := S.AckNakStat;
      } else {
        NonCanSer(c, now);
      }
    }

    method AckNakSer(c: byte, now: int)
      requires Valid() && active == S.AckNak
      modifies this, ctx, ctx.blkBuf0, ctx.blkBuf1
      ensures Did(S.AckNakSer(ctx.files, old(Machine()), c, now), old(ctx.written))
    {
      hide SenderContext.SendNew;
      if (c == NAK || (c == CHAR_C && ctx.firstBlk)) && ctx.errCnt < ERR_BOUND && !ctx.kbCan {
        Resend(now);
      } else if c == ACK && ctx.bytesRd == 0 && !ctx.kbCan {
        var _ := ctx.CloseTransferredFile();
        SendEot(S.Eot1, 0, now);
      } else if c == ACK && ctx.bytesRd != 0 && !ctx.kbCan {
        SendNew(S.AckNak, now);
        ctx.firstBlk := false;
      } else {
        NonCanSer(c, now);
      }
    }

    /** On to the next file. */
    method NextFile(now: int) returns (outcome: StatOutcome)
      requires Valid()
      modifies this`active, ctx, ctx.blkBuf0
      ensures outcome == PrepOutcome(ctx.files, old(ctx.View()))
      ensures outcome == Built ==>
                Machine() == S.Goto(old(Machine()), S.StatC,
                                    SenderContext.PrepStat(ctx.files, old(Machine()).ctx).Tm(TM_VL, now))
      ensures ctx.written == old(ctx.written)
    {
      hide SenderContext.PrepStat;
      outcome := ctx.PrepStatBlk();
      ctx.Tm(TM_VL, now);
      active := S.StatC;
    }

    method Eot1Ser(c: byte, now: int) returns (outcome: StatOutcome)
      requires Valid() && active == S.Eot1
      modifies this, ctx, ctx.blkBuf0, ctx.blkBuf1
      ensures outcome == StepOutcome(ctx.files, old(Machine()), S.Ser(c))
      ensures outcome == Built ==> Did(S.Eot1Ser(ctx.files, old(Machine()), c, now), old(ctx.written))
    {
      hide SenderContext.PrepStat, PrepOutcome;
      outcome := Built;
      if c == CHAR_C && ctx.firstBlk && ctx.errCnt < ERR_BOUND {
        SendEot(S.Eot1, ctx.errCnt + 1, now);
      } else if c == ACK && !ctx.kbCan {
        outcome := NextFile(now);
      } else if c == NAK && !ctx.kbCan {
        SendEot(S.EotEot, 0, now);
        ctx.firstBlk := false;
      } else {
        NonCanSer(c, now);
      }
    }

    method EotEotSer(c: byte, now: int) returns (outcome: StatOutcome)
      requires Valid() && active == S.EotEot
      modifies this, ctx, ctx.blkBuf0, ctx.blkBuf1
      ensures outcome == StepOutcome(ctx.files, old(Machine()), S.Ser(c))
      ensures outcome == Built ==> Did(S.EotEotSer(ctx.files, old(Machine()), c, now), old(ctx.written))
    {
      hide SenderContext.PrepStat;
      outcome := Built;
      if c == NAK && !ctx.kbCan && ctx.errCnt < ERR_BOUND {
        SendEot(S.EotEot, ctx.errCnt + 1, now);
      } else if c == ACK && !ctx.kbCan {
        ctx.result := ctx.result + [Done];
        outcome := NextFile(now);
      } else {
        NonCanSer(c, now);
      }
    }

    method CanSer(c: byte)
      requires active == S.Can
      modifies this, ctx
      ensures Did(S.CanSer(old(Machine()), c), old(ctx.written))
    {
      if c != CAN && !ctx.kbCan {
        ctx.TmPop();
        active := history;
      } else if c == CAN {
        var _ := ctx.CloseTransferredFile();
        Finish(RcvCancelled);
      } else {
        TopSer(c);
      }
    }

    // -------------------------------------------------------- events

    method OnSer(c: byte, now: int) returns (outcome: StatOutcome)
      requires Valid()
      modifies this, ctx, ctx.blkBuf0, ctx.blkBuf1
      ensures outcome == StepOutcome(ctx.files, old(Machine()), S.Ser(c))
      ensures outcome == Built ==> Did(S.React(ctx.files, old(Machine()), S.Ser(c), now), old(ctx.written))
    {
      hide S.StatCSer, S.AckNakStatSer, S.OneSer, S.AckNakSer, S.Eot1Ser, S.EotEotSer, S.CanSer, PrepOutcome;
      outcome := Built;
      match active {
        case StatC => StatCSer(c, now);
        case AckNakStat => AckNakStatSer(c, now);
        case One => OneSer(c, now);
        case AckNak => AckNakSer(c, now);
        case Eot1 => outcome := Eot1Ser(c, now);
        case EotEot => outcome := EotEotSer(c, now);
        case Can => CanSer(c);
        case Final =>
      }
    }

    method OnTm(now: int)
      requires Valid()
      modifies this, ctx
      ensures Did(S.React(ctx.files, old(Machine()), S.Tm, now), old(ctx.written))
    {
      hide S.TopTm;
      match active {
        case Can =>
          if !ctx.kbCan {
            ctx.TmPop();
            active := history;
          } else {
            TopTm();
          }
        case Final =>
        case _ => TopTm();
      }
    }

    method OnKb(now: int)
      requires Valid()
      modifies this, ctx
      ensures Did(S.React(ctx.files, old(Machine()), S.KbC, now), old(ctx.written))
    {
      hide S.StatCKb, S.NonCanKb;
      match active {
        case StatC => StatCKb();
        case Can => ctx.kbCan := true;
        case Final =>
        case _ => NonCanKb();
      }
    }

    /** The reaction to one event is that of the chart, in state, buffers, counters and bytes sent, unless it goes on
        to a file whose stat block cannot be built. */
    method PostEvent(e: S.Event, now: int) returns (outcome: StatOutcome)
      requires Valid()
      modifies this, ctx, ctx.blkBuf0, ctx.blkBuf1
      ensures Valid() && outcome == StepOutcome(ctx.files, old(Machine()), e)
      ensures outcome == Built ==> Did(S.React(ctx.files, old(Machine()), e, now), old(ctx.written))
    {
      hide S.React, PrepOutcome;
      outcome := Built;
      match e {
        case Ser(c) => outcome := OnSer(c, now);
        case Tm => OnTm(now);
        case KbC => OnKb(now);
      }
    }
  }
}
