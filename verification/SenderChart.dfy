/** The sender's statechart (ySenderSS.cpp) as a function of state and event. */
module SenderChart {
  import opened Bytes
  import opened Blocks
  import opened Session
  import opened SenderContext

  datatype Leaf = StatC | AckNak | Eot1 | One | EotEot | AckNakStat | Can | Final

  /** The active leaf, the state to which NON_CAN returns, and the context. */
  datatype Sender = Sender(leaf: Leaf, history: Leaf, ctx: Ctx)

  /** A byte from the medium, a timeout, or a keyboard cancel. */
  datatype Event = Ser(c: byte) | Tm | KbC

  /** The state after a reaction, and what it puts on the line. */
  datatype Out = Out(s: Sender, sent: seq<Item>)

  /** Entry of the initial states: the first stat block is prepared. */
  function Start(files: seq<SrcFile>, now: int): Sender
  {
    Sender(StatC, StatC, PrepStat(files, InitialCtx()).Tm(TM_VL, now))
  }

  function Quiet(s: Sender): Out
  {
    Out(s, [])
  }

  function Goto(s: Sender, leaf: Leaf, c: Ctx): Sender
  {
    s.(leaf := leaf, ctx := c)
  }

  function Finish(s: Sender, c: Ctx, p: Phrase): Sender
  {
    Goto(s, Final, c.Append(p))
  }

  function SendEot(s: Sender): Out
  {
    Out(s, [Eot])
  }

  function Resend(s: Sender, now: int): Out
  {
    Out(s.(ctx := s.ctx.(errCnt := s.ctx.errCnt + 1).Tm(TM_VL, now)), [Blk(LastBlk(s.ctx))])
  }

  // ------------------------------------------------- top level, NON_CAN

  function TopTm(s: Sender): Out
  {
    Out(Finish(s, s.ctx.CloseFile(), if s.ctx.kbCan then KbCancelled else Timeout), [Cans])
  }

  function TopSer(s: Sender, c: byte): Out
  {
    if s.ctx.kbCan && (c == ACK || c == NAK || c == CHAR_C) then
      Out(Finish(s, s.ctx.CloseFile(), KbCancelled), [Cans])
    else Quiet(s)
  }

  function NonCanSer(s: Sender, c: byte, now: int): Out
  {
    if c == NAK && s.ctx.errCnt >= ERR_BOUND then
      Out(Finish(s, s.ctx.CloseFile(), ExcessiveNaks), [Cans])
    else if c == CAN then
      Quiet(Sender(Can, s.leaf, s.ctx.TmPush(TM_CHAR, now)))
    else TopSer(s, c)
  }

  function NonCanKb(s: Sender): Out
  {
    if !s.ctx.kbCan then Quiet(s.(ctx := s.ctx.(kbCan := true).TmRed(TM_VL - TM_2CHAR)))
    else Quiet(s)
  }

  // ----------------------------------------------------------- leaves

  function StatCSer(files: seq<SrcFile>, s: Sender, c: byte, now: int): Out
  {
    if c == CHAR_C && s.ctx.named && s.ctx.fd == -1 then
      Out(Finish(s, s.ctx, OpenError), [Cans])
    else if c == CHAR_C && s.ctx.fd != -1 then
      Out(Goto(s, AckNakStat, SendNew(files, s.ctx).(errCnt := 0).Tm(TM_VL, now)), [Blk(CurrentBlk(s.ctx))])
    else NonCanSer(s, c, now)
  }

  function StatCKb(s: Sender): Out
  {
    if s.ctx.fd == -1 then Quiet(Goto(s, Final, s.ctx.(result := [KbCancelledOpenErr], kbCan := true)))
    else Quiet(Goto(s, Final, s.ctx.CloseFile().(result := [KbCancelledFromStatC], kbCan := true)))
  }

  function AckNakStatSer(s: Sender, c: byte, now: int): Out
  {
    if c == ACK && s.ctx.named && !s.ctx.kbCan then
      Quiet(Goto(s, One, s.ctx.(firstBlk := true).Tm(TM_VL, now)))
    else if (c == NAK || c == CHAR_C) && !s.ctx.kbCan then Resend(s, now)
    else if c == ACK && !s.ctx.named then Quiet(Finish(s, s.ctx, EndOfSession))
    else NonCanSer(s, c, now)
  }

  function OneSer(files: seq<SrcFile>, s: Sender, c: byte, now: int): Out
  {
    if c == CHAR_C && s.ctx.bytesRd == 0 && !s.ctx.kbCan then
      SendEot(Goto(s, Eot1, s.ctx.(errCnt := 0).CloseFile().Tm(TM_VL, now)))
    else if c == CHAR_C && s.ctx.bytesRd != 0 && !s.ctx.kbCan then
      Out(Goto(s, AckNak, SendNew(files, s.ctx).(errCnt := 0).Tm(TM_VL, now)), [Blk(CurrentBlk(s.ctx))])
    else if c == NAK && !s.ctx.kbCan then
      var o := Resend(s, now);
      o.(s := o.s.(leaf := AckNakStat))
    else NonCanSer(s, c, now)
  }

  function AckNakSer(files: seq<SrcFile>, s: Sender, c: byte, now: int): Out
  {
    if (c == NAK || (c == CHAR_C && s.ctx.firstBlk)) && s.ctx.errCnt < ERR_BOUND && !s.ctx.kbCan then Resend(s, now)
    else if c == ACK && s.ctx.bytesRd == 0 && !s.ctx.kbCan then
      SendEot(Goto(s, Eot1, s.ctx.(errCnt := 0).CloseFile().Tm(TM_VL, now)))
    else if c == ACK && s.ctx.bytesRd != 0 && !s.ctx.kbCan then
      Out(s.(ctx := SendNew(files, s.ctx).(errCnt := 0, firstBlk := false).Tm(TM_VL, now)), [Blk(CurrentBlk(s.ctx))])
    else NonCanSer(s, c, now)
  }

  function Eot1Ser(files: seq<SrcFile>, s: Sender, c: byte, now: int): Out
  {
    if c == CHAR_C && s.ctx.firstBlk && s.ctx.errCnt < ERR_BOUND then
      SendEot(s.(ctx := s.ctx.(errCnt := s.ctx.errCnt + 1).Tm(TM_VL, now)))
    else if c == ACK && !s.ctx.kbCan then
      Quiet(Goto(s, StatC, PrepStat(files, s.ctx).Tm(TM_VL, now)))
    else if c == NAK && !s.ctx.kbCan then
      SendEot(Goto(s, EotEot, s.ctx.(errCnt := 0, firstBlk := false).Tm(TM_VL, now)))
    else NonCanSer(s, c, now)
  }

  function EotEotSer(files: seq<SrcFile>, s: Sender, c: byte, now: int): Out
  {
    if c == NAK && !s.ctx.kbCan && s.ctx.errCnt < ERR_BOUND then
      SendEot(s.(ctx := s.ctx.(errCnt := s.ctx.errCnt + 1).Tm(TM_VL, now)))
    else if c == ACK && !s.ctx.kbCan then
      Quiet(Goto(s, StatC, PrepStat(files, s.ctx.Append(Done)).Tm(TM_VL, now)))
    else NonCanSer(s, c, now)
  }

  function CanSer(s: Sender, c: byte): Out
  {
    if c != CAN && !s.ctx.kbCan then Quiet(Goto(s, s.history, s.ctx.TmPop()))
    else if c == CAN then Quiet(Finish(s, s.ctx.CloseFile(), RcvCancelled))
    else TopSer(s, c)
  }

  /** The reaction of the active leaf, or of the state around it, to one event. */
  function React(files: seq<SrcFile>, s: Sender, e: Event, now: int): Out
  {
    match e
    case Ser(c) =>
      (match s.leaf
       case StatC => StatCSer(files, s, c, now)
       case AckNakStat => AckNakStatSer(s, c, now)
       case One => OneSer(files, s, c, now)
       case AckNak => AckNakSer(files, s, c, now)
       case Eot1 => Eot1Ser(files, s, c, now)
       case EotEot => EotEotSer(files, s, c, now)
       case Can => CanSer(s, c)
       case Final => Quiet(s))
    case Tm =>
      (match s.leaf
       case Can => if !s.ctx.kbCan then Quiet(Goto(s, s.history, s.ctx.TmPop())) else TopTm(s)
       case Final => Quiet(s)
       case _ => TopTm(s))
    case KbC =>
      (match s.leaf
       case StatC => StatCKb(s)
       case Can => Quiet(s.(ctx := s.ctx.(kbCan := true)))
       case Final => Quiet(s)
       case _ => NonCanKb(s))
  }

  // ------------------------------------------------------- CAN detour

  /** One CAN byte followed by another byte or a timeout brings the sender back to where it was, with every
      field but the slot for the saved timeout unchanged, exactly when no keyboard cancel is pending. */
  lemma CanDetour(files: seq<SrcFile>, s: Sender, now: int, back: Event, later: int)
    requires s.leaf != Can && s.leaf != Final
    requires back == Tm || (back.Ser? && back.c != CAN)
    ensures var away := React(files, s, Ser(CAN), now);
            var home := React(files, away.s, back, later);
            && away.s.leaf == Can && away.sent == []
            && (!s.ctx.kbCan <==> home.s.leaf == s.leaf)
            && (!s.ctx.kbCan ==>
                  && home.sent == []
                  && home.s.ctx == s.ctx.(holdTimeout := s.ctx.absoluteTimeout))
  {
  }

  /** A run of the sender: events with their times. */
  function Run(files: seq<SrcFile>, s: Sender, es: seq<(Event, int)>): Sender
  {
    if es == [] then s
    else
      var n := |es| - 1;
      React(files, Run(files, s, es[..n]), es[n].0, es[n].1).s
  }

  /** The items that a run of the sender puts on the line. */
  function ItemsOf(files: seq<SrcFile>, s: Sender, es: seq<(Event, int)>): seq<Item>
  {
    if es == [] then []
    else
      var n := |es| - 1;
      ItemsOf(files, s, es[..n]) + React(files, Run(files, s, es[..n]), es[n].0, es[n].1).sent
  }

  lemma RunOn(files: seq<SrcFile>, s: Sender, es: seq<(Event, int)>, e: Event, at: int)
    ensures var o := React(files, Run(files, s, es), e, at);
            && Run(files, s, es + [(e, at)]) == o.s
            && ItemsOf(files, s, es + [(e, at)]) == ItemsOf(files, s, es) + o.sent
  {
    hide React;
    var all := es + [(e, at)];
    assert all[..|all| - 1] == es;
  }

  /** The absolute timeout at the last time that the sender was not in the CAN state. */
  function TimeoutBeforeCan(files: seq<SrcFile>, s: Sender, es: seq<(Event, int)>): int
  {
    if es == [] then s.ctx.absoluteTimeout
    else
      var before := TimeoutBeforeCan(files, s, es[..|es| - 1]);
      var t := Run(files, s, es);
      if t.leaf == Can then before else t.ctx.absoluteTimeout
  }

  /** On every run, whenever the sender is in the CAN state, the one slot for a saved timeout still holds the
      timeout that was in force when that state was entered. */
  lemma {:induction false} SavedTimeoutKept(files: seq<SrcFile>, s: Sender, es: seq<(Event, int)>)
    requires s.leaf != Can
    ensures var t := Run(files, s, es);
            && (t.leaf == Can ==> t.ctx.holdTimeout == TimeoutBeforeCan(files, s, es))
            && (t.leaf != Can ==> t.ctx.absoluteTimeout == TimeoutBeforeCan(files, s, es))
  {
    if es != [] {
      var n := |es| - 1;
      SavedTimeoutKept(files, s, es[..n]);
      SlotKept(files, Run(files, s, es[..n]), es[n].0, es[n].1);
    }
  }

  lemma SlotKept(files: seq<SrcFile>, s: Sender, e: Event, now: int)
    ensures var t := React(files, s, e, now).s;
            && (t.leaf == Can && s.leaf == Can ==> t.ctx.holdTimeout == s.ctx.holdTimeout)
            && (t.leaf == Can && s.leaf != Can ==> t.ctx.holdTimeout == s.ctx.absoluteTimeout)
  {
    hide PrepStat, SendNew;
  }
}
