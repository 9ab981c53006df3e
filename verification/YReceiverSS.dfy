/** The receiver's state machine object (yReceiverSS.cpp): its handlers move the active state, call the receiver
    and post CONT messages, which are handled before the next event. */
module YReceiverSS {
  import opened Bytes
  import opened Text
  import opened Blocks
  import opened Session
  import opened ReceiverY
  import C = ReceiverContext
  import R = ReceiverChart

  type Env = C.Env

  class YReceiverSS {
    const ctx: ReceiverY
    var active: R.Leaf
    var history: R.Leaf
    // how many CONT messages are in the queue
    var posted: nat

    ghost predicate Valid()
    {
      ctx.Valid()
    }

    ghost function Machine(): R.Receiver
      reads this, ctx, ctx.rcvBlk
    {
      R.Receiver(active, history, ctx.View())
    }

    /** The machine has reacted as the chart says, has sent and discarded what the chart says, and has posted
        exactly one CONT message if its new state waits for one. */
    ghost predicate Did(o: R.Out, before: Data, was: bool)
      reads this, ctx, ctx.rcvBlk
    {
      && Machine() == o.r && ctx.written == before + o.sent && ctx.purged == (was || o.purged)
      && posted == if o.r.leaf.IsTransient() then 1 else 0
    }

    constructor (ctx: ReceiverY)
      requires ctx.Valid() && ctx.View() == C.InitialCtx()
      modifies ctx
      ensures this.ctx == ctx && Valid() && Did(R.Start(), old(ctx.written), old(ctx.purged))
    {
      this.ctx := ctx;
      active, history, posted := R.FirstByteStat, R.FirstByteStat, 0;
      new;
      ctx.SendByte(R.NCG_BYTE);
      ctx.closeProb, ctx.errCnt, ctx.kbCan := -1, 0, false;
    }

    /** Moves to a state whose entry posts a CONT message. */
    method GoAndPost(to: R.Leaf)
      modifies this`active, this`posted
      ensures active == to && posted == old(posted) + 1
    {
      active := to;
      posted := posted + 1;
    }

    // --------------------------------------------- top level, NON_CAN

    method Finish(p: Phrase)
      modifies this`active, ctx`result
      ensures Machine() == R.Finish(old(Machine()), old(Machine()).ctx, p)
    {
      ctx.result := ctx.result + [p];
      active := R.Final;
    }

    method Abort(p: Phrase)
      requires posted == 0
      modifies this`active, ctx`result, ctx`written
      ensures Did(R.Out(R.Finish(old(Machine()), old(Machine()).ctx, p), R.CanBytes(), false),
                  old(ctx.written), old(ctx.purged))
    {
      ctx.SendCans();
      Finish(p);
    }

    method TopSer()
      requires posted == 0
      modifies this`active, ctx`result, ctx`written, ctx`purged
      ensures Did(R.TopSer(old(Machine())), old(ctx.written), old(ctx.purged))
    {
      ctx.Purge();
      Abort(if ctx.kbCan then KbCancelledDelayed else ExcessiveErrors);
    }

    method TopTm()
      requires posted == 0
      modifies this`active, ctx`result, ctx`written
      ensures Did(R.TopTm(old(Machine())), old(ctx.written), old(ctx.purged))
    {
      Abort(if ctx.kbCan then KbCancelled else ExcessiveErrors);
    }

    method NonCanSer(c: byte)
      requires posted == 0 && !active.IsTransient()
      modifies this, ctx
      ensures Did(R.NonCanSer(old(Machine()), c), old(ctx.written), old(ctx.purged))
    {
      if !ctx.kbCan && c != CAN {
        ctx.Purge();
      } else if c == CAN {
        // the history of NON_CAN keeps its own children only
        if active != R.FirstByteData && active != R.EotData {
          history := active;
        }
        active := R.Can;
      } else {
        TopSer();
      }
    }

    method NonCanTm()
      requires posted == 0 && !active.IsTransient()
      modifies this, ctx
      ensures Did(R.NonCanTm(old(Machine())), old(ctx.written), old(ctx.purged))
    {
      if ctx.errCnt < ERR_BOUND && !ctx.kbCan {
        ctx.SendByte(if ctx.transferringFileD == -1 then R.NCG_BYTE else NAK);
        ctx.errCnt := ctx.errCnt + 1;
      } else {
        TopTm();
      }
    }

    // -------------------------------------------------------- leaves

    method DataSer(c: byte, rest: Data)
      requires Valid() && |rest| < BUF_SZ && posted == 0 && !active.IsTransient()
      modifies this, ctx, ctx.rcvBlk
      ensures Did(R.DataSer(old(Machine()), c, rest), old(ctx.written), old(ctx.purged))
    {
      hide GetRest, C.GetRestPurges;
      if !ctx.kbCan && c == SOH {
        ctx.GetRestBlk(rest);
        if ctx.goodBlk1st {
          ctx.errCnt := 0;
          ctx.anotherFile := 0;
        } else {
          ctx.errCnt := ctx.errCnt + 1;
        }
        active := R.TransientData;
      } else {
        NonCanSer(c);
      }
    }

    method FirstByteDataSer(c: byte, rest: Data)
      requires Valid() && |rest| < BUF_SZ && posted == 0 && active == R.FirstByteData
      modifies this, ctx, ctx.rcvBlk
      ensures Did(R.FirstByteDataSer(old(Machine()), c, rest), old(ctx.written), old(ctx.purged))
    {
      hide R.DataSer;
      if !ctx.kbCan && c == EOT {
        ctx.Purge();
        ctx.SendByte(NAK);
        ctx.errCnt := ctx.errCnt + 1;
        active := R.EotData;
      } else {
        DataSer(c, rest);
      }
    }

    method EotDataSer(c: byte, rest: Data, env: Env)
      requires Valid() && |rest| < BUF_SZ && posted == 0 && active == R.EotData
      modifies this, ctx, ctx.rcvBlk
      ensures Did(R.EotDataSer(old(Machine()), c, rest, env), old(ctx.written), old(ctx.purged))
    {
      hide R.DataSer;
      if c == EOT {
        ctx.CloseTransferredFile(env);
        GoAndPost(R.TransientEot);
      } else {
        DataSer(c, rest);
      }
    }

    /** Takes in a stat block; the first block behind a closed file sets the count of errors back. */
    method TakeStatBlk(rest: Data)
      requires Valid() && |rest| < BUF_SZ && posted == 0
      modifies this`active, this`posted, ctx, ctx.rcvBlk
      ensures var d := C.GetRestBlk(old(Machine()).ctx, rest);
              Did(R.Out(old(Machine()).(leaf := R.TransientStat,
                                        ctx := if d.closeProb == 0 then d.(errCnt := 0, closeProb := -1) else d),
                        [], C.GetRestPurges(old(Machine()).ctx, rest)), old(ctx.written), old(ctx.purged))
    {
      hide GetRest, C.GetRestPurges;
      ctx.GetRestBlk(rest);
      if ctx.closeProb == 0 {
        ctx.errCnt := 0;
        ctx.closeProb := -1;
      }
      GoAndPost(R.TransientStat);
    }

    method FirstByteStatSer(c: byte, rest: Data)
      requires Valid() && |rest| < BUF_SZ && posted == 0 && active == R.FirstByteStat
      modifies this, ctx, ctx.rcvBlk
      ensures Did(R.FirstByteStatSer(old(Machine()), c, rest), old(ctx.written), old(ctx.purged))
    {
      hide GetRest, C.GetRestPurges;
      if c == EOT && ctx.closeProb == 0 && ctx.errCnt >= ERR_BOUND {
        Abort(ExcessiveEots);
      } else if c == EOT && ctx.closeProb == 0 && ctx.errCnt < ERR_BOUND {
        ctx.SendByte(ACK);
        ctx.SendByte(R.NCG_BYTE);
        ctx.errCnt := ctx.errCnt + 1;
      } else if !ctx.kbCan && c == SOH {
        TakeStatBlk(rest);
      } else {
        NonCanSer(c);
      }
    }

    method AreWeDoneSer(c: byte, rest: Data)
      requires Valid() && |rest| < BUF_SZ && posted == 0 && active == R.AreWeDone
      modifies this, ctx, ctx.rcvBlk
      ensures Did(R.AreWeDoneSer(old(Machine()), c, rest), old(ctx.written), old(ctx.purged))
    {
      hide GetRest, C.GetRestPurges;
      if !ctx.kbCan && c == SOH {
        ctx.GetRestBlk(rest);
        ctx.errCnt := ctx.errCnt + 1;
        GoAndPost(R.TransientStat);
      } else {
        NonCanSer(c);
      }
    }

    method CanSer(c: byte, env: Env)
      requires posted == 0 && active == R.Can && !history.IsTransient()
      modifies this, ctx
      ensures Did(R.CanSer(old(Machine()), c, env), old(ctx.written), old(ctx.purged))
    {
      if c != CAN && !ctx.kbCan {
        ctx.Purge();
        active := history;
      } else if c == CAN {
        ctx.CloseTransferredFile(env);
        ctx.Purge();
        Finish(SndCancelled);
      } else {
        TopSer();
      }
    }

    /** The reply to a block; new data go to the disk. */
    method ReplyToBlk()
      requires Valid() && posted == 0
      modifies this`active, ctx`written, ctx`bytesRemaining, ctx`outs
      ensures var r := old(Machine());
              Did(R.Out(r.(leaf := R.FirstByteData, ctx := if r.ctx.rx.goodBlk1st then C.WriteChunk(r.ctx) else r.ctx),
                        if r.ctx.rx.goodBlk then [ACK] + (if r.ctx.anotherFile != 0 then [CHAR_C] else []) else [NAK],
                        false), old(ctx.written), old(ctx.purged))
    {
      hide C.WriteChunk;
      if ctx.goodBlk {
        ctx.SendByte(ACK);
        if ctx.anotherFile != 0 {
          ctx.SendByte(CHAR_C);
        }
      } else {
        ctx.SendByte(NAK);
      }
      if ctx.goodBlk1st {
        ctx.WriteChunk();
      }
      active := R.FirstByteData;
    }

    method TransientDataTm(env: Env)
      requires Valid() && posted == 0 && active == R.TransientData
      modifies this, ctx
      ensures Did(R.TransientDataTm(old(Machine()), env), old(ctx.written), old(ctx.purged))
    {
      hide C.WriteChunk;
      if !ctx.syncLoss && ctx.errCnt < ERR_BOUND {
        ReplyToBlk();
      } else {
        ctx.SendCans();
        ctx.CloseTransferredFile(env);
        Finish(if ctx.syncLoss then LossOfSync else ExcessiveErrors);
      }
    }

    // -------------------------------------------------------- events

    method OnSer(c: byte, rest: Data, env: Env)
      requires Valid() && |rest| < BUF_SZ && posted == 0 && !active.IsTransient() && !history.IsTransient()
      modifies this, ctx, ctx.rcvBlk
      ensures Did(R.OnSer(old(Machine()), c, rest, env), old(ctx.written), old(ctx.purged))
    {
      hide R.FirstByteStatSer, R.FirstByteDataSer, R.EotDataSer, R.AreWeDoneSer, R.CanSer;
      match active {
        case FirstByteStat => FirstByteStatSer(c, rest);
        case FirstByteData => FirstByteDataSer(c, rest);
        case EotData => EotDataSer(c, rest, env);
        case TransientData => ctx.Purge();
        case AreWeDone => AreWeDoneSer(c, rest);
        case Can => CanSer(c, env);
        case _ =>
      }
    }

    method OnTm(env: Env)
      requires Valid() && posted == 0 && !active.IsTransient() && !history.IsTransient()
      modifies this, ctx
      ensures Did(R.OnTm(old(Machine()), env), old(ctx.written), old(ctx.purged))
    {
      hide R.TransientDataTm, R.NonCanTm, R.TopTm;
      match active {
        case TransientData => TransientDataTm(env);
        case AreWeDone => Finish(EndOfSession);
        case Can =>
          if !ctx.kbCan {
            active := history;
          } else {
            TopTm();
          }
        case FirstByteStat => NonCanTm();
        case FirstByteData => NonCanTm();
        case EotData => NonCanTm();
        case _ =>
      }
    }

    /** The driver records the cancel behind the handler, in every state. */
    method OnKb()
      requires Valid() && posted == 0 && !active.IsTransient()
      modifies this, ctx
      ensures Did(R.OnKb(old(Machine())), old(ctx.written), old(ctx.purged))
    {
      if active == R.TransientData {
        Abort(KbCancelledImmediate);
        ctx.kbCan := true;
      } else if !active.IsOver() {
        ctx.kbCan := true;
      }
    }

    // ---------------------------------------------------------- CONT

    method StatCont()
      requires Valid() && posted == 0 && active == R.TransientStat
      modifies this, ctx
      ensures Did(R.StatCont(old(Machine())), old(ctx.written), old(ctx.purged))
    {
      if !ctx.syncLoss && ctx.errCnt < ERR_BOUND && !ctx.goodBlk {
        ctx.SendByte(NAK);
        ctx.errCnt := ctx.errCnt + 1;
        active := R.FirstByteStat;
      } else if !ctx.syncLoss && ctx.errCnt < ERR_BOUND && ctx.goodBlk {
        var _ := ctx.CheckForAnotherFile();
        GoAndPost(R.TransientCheck);
      } else if ctx.syncLoss || ctx.errCnt >= ERR_BOUND {
        Abort(if ctx.syncLoss then LossOfSyncAtStat else ExcessiveErrorsAtStat);
      }
    }

    method CheckCont(env: Env)
      requires Valid() && posted == 0 && active == R.TransientCheck
      modifies this, ctx
      ensures Did(R.CheckCont(old(Machine()), env), old(ctx.written), old(ctx.purged))
    {
      if ctx.anotherFile == 0 {
        ctx.SendByte(ACK);
        active := R.AreWeDone;
      } else if ctx.anotherFile != 0 {
        var threw := ctx.OpenFileForTransfer(env);
        if threw {
          active := R.Aborted;
        } else {
          GoAndPost(R.TransientOpen);
        }
      }
    }

    method OpenCont()
      requires Valid() && posted == 0 && active == R.TransientOpen
      modifies this, ctx
      ensures Did(R.OpenCont(old(Machine())), old(ctx.written), old(ctx.purged))
    {
      if ctx.transferringFileD != -1 {
        ctx.SendByte(ACK);
        ctx.SendByte(R.NCG_BYTE);
        active := R.FirstByteData;
      } else if ctx.transferringFileD == -1 {
        Abort(CreatError);
      }
    }

    method EotCont()
      requires Valid() && posted == 0 && active == R.TransientEot
      modifies this, ctx
      ensures Did(R.EotCont(old(Machine())), old(ctx.written), old(ctx.purged))
    {
      if ctx.closeProb == 0 {
        ctx.SendByte(ACK);
        ctx.SendByte(R.NCG_BYTE);
        ctx.result := ctx.result + [Done];
        ctx.errCnt := 0;
        active := R.FirstByteStat;
      } else if ctx.closeProb != 0 {
        Abort(CloseError);
      }
    }

    method OnCont(env: Env)
      requires Valid() && posted == 0 && active.IsTransient()
      modifies this, ctx
      ensures Did(R.Cont(old(Machine()), env), old(ctx.written), old(ctx.purged))
    {
      hide R.StatCont, R.CheckCont, R.OpenCont, R.EotCont;
      match active {
        case TransientStat => StatCont();
        case TransientCheck => CheckCont(env);
        case TransientOpen => OpenCont();
        case TransientEot => EotCont();
        case _ =>
      }
    }

    /** Handles posted messages until none is left. */
    method SendPostedMessages(env: Env)
      requires Valid() && posted == if active.IsTransient() then 1 else 0
      modifies this, ctx
      ensures Did(R.Cascade(R.Out(old(Machine()), [], false), env), old(ctx.written), old(ctx.purged))
    {
      hide R.Cont;
      ghost var start := R.Out(Machine(), [], false);
      ghost var o := start;
      while posted > 0
        invariant o.r.Valid() && R.Cascade(o, env) == R.Cascade(start, env)
        invariant Did(o, old(ctx.written), old(ctx.purged))
        decreases active.Rank()
      {
        posted := posted - 1;
        ghost var n := R.Cont(o.r, env);
        OnCont(env);
        ghost var next := R.Out(n.r, o.sent + n.sent, o.purged || n.purged);
        assert R.Cascade(o, env) == R.Cascade(next, env);
        o := next;
      }
    }

    method Dispatch(e: R.Event, env: Env)
      requires Valid() && e.Valid() && posted == 0 && !active.IsTransient() && !history.IsTransient()
      modifies this, ctx, ctx.rcvBlk
      ensures Did(R.Fire(old(Machine()), e, env), old(ctx.written), old(ctx.purged))
    {
      hide R.OnSer, R.OnTm, R.OnKb;
      match e {
        case Ser(c, rest) => OnSer(c, rest, env);
        case Tm => OnTm(env);
        case KbC => OnKb();
      }
    }

    /** The reaction to one event is that of the chart, with all the messages that it posts. */
    method PostEvent(e: R.Event, env: Env)
      requires Valid() && e.Valid() && posted == 0 && !active.IsTransient() && !history.IsTransient()
      modifies this, ctx, ctx.rcvBlk
      ensures Did(R.React(old(Machine()), e, env), old(ctx.written), old(ctx.purged))
      ensures posted == 0 && !active.IsTransient()
    {
      hide R.Fire, R.Cascade;
      ghost var o := R.Fire(Machine(), e, env);
      ghost var before := ctx.written;
      ghost var p := R.Cascade(R.Out(o.r, [], false), env);
      CascadeFrom(o, env);
      assert (before + o.sent) + p.sent == before + (o.sent + p.sent);
      Dispatch(e, env);
      SendPostedMessages(env);
    }
  }

  /** What has been sent before does not matter for what follows. */
  lemma {:induction false} CascadeFrom(o: R.Out, env: Env)
    requires o.r.Valid()
    ensures var p := R.Cascade(R.Out(o.r, [], false), env);
            R.Cascade(o, env) == R.Out(p.r, o.sent + p.sent, o.purged || p.purged)
    decreases o.r.leaf.Rank()
  {
    hide R.Cont;
    if o.r.leaf.IsTransient() {
      var n := R.Cont(o.r, env);
      var a := R.Out(n.r, o.sent + n.sent, o.purged || n.purged);
      var b := R.Out(n.r, [] + n.sent, false || n.purged);
      CascadeFrom(a, env);
      CascadeFrom(b, env);
      var p := R.Cascade(R.Out(n.r, [], false), env);
      assert R.Cascade(o, env) == R.Cascade(a, env);
      assert R.Cascade(R.Out(o.r, [], false), env) == R.Cascade(b, env);
      assert (o.sent + n.sent) + p.sent == o.sent + (([] + n.sent) + p.sent);
    }
  }
}
