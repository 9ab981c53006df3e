/** What the receiver answers: for the states in which it waits, and each kind of event, the one reaction that there is. */
module ReceiverReplies {
  import opened Bytes
  import opened Text
  import opened Blocks
  import opened Session
  import opened ReceiverContext
  import opened ReceiverChart
  import opened ReceiverSteps
  import ReceiverBounds
  import SenderContext

  /** Eight CAN bytes. */
  function EightCans(): (d: Data)
    ensures |d| == 8
  {
    [0x18, 0x18, 0x18, 0x18, 0x18, 0x18, 0x18, 0x18]
  }

  lemma CansAreEight()
    ensures CanBytes() == EightCans()
  {
    assert |Fill(8, CAN)| == 8;
  }

  /** The receiver stops with `phrase` behind its result, which leaves the context otherwise as `c`. */
  predicate Ends(r: Receiver, o: Out, c: Ctx, sent: Data, phrase: Phrase)
  {
    o.sent == sent && o.r == Receiver(Final, r.history, c.(result := c.result + [phrase]))
  }

  /** One more error is counted, and `sent` goes out. */
  predicate Counts(r: Receiver, o: Out, sent: Data, to: Leaf)
  {
    o.sent == sent && o.r == Receiver(to, r.history, r.ctx.(errCnt := r.ctx.errCnt + 1))
  }

  /** The context once the open file has been closed, or could not be. */
  function Closed(c: Ctx, closeRc: int): Ctx
  {
    if c.fd < 0 then c
    else if closeRc == 0 then c.(closeProb := 0, fd := -1, rx := c.rx.(numLastGoodBlk := 255))
    else c.(closeProb := closeRc)
  }

  /** The receiver starts by asking for a stat block by a 'C', with no file closed yet, and takes a block with number 0
      as the next one. */
  lemma Starts()
    ensures Start().sent == [0x43] && Waiting(Start().r)
    ensures var c := Start().r.ctx;
            && c.closeProb == -1 && c.errCnt == 0 && !c.kbCan && c.outs == [] && c.result == []
            && (c.rx.numLastGoodBlk + 1) % 256 == 0 && !c.rx.goodBlk && !c.rx.syncLoss
  {
  }

  // ----------------------------------------------------------- timeouts

  /** A timeout while the receiver waits: with a file open it asks again by a NAK, and otherwise by a 'C', ten times in a
      row; then it gives up with eight CAN bytes, and so it does at once when a cancel is pending. */
  lemma RepliesToTimeout(r: Receiver, env: Env)
    requires r.Valid() && r.leaf in {FirstByteStat, FirstByteData, EotData}
    ensures var o := React(r, Tm, env);
            && !o.purged
            && (!r.ctx.kbCan && r.ctx.errCnt < 10 ==> Counts(r, o, if r.ctx.fd == -1 then [0x43] else [0x15], r.leaf))
            && (!r.ctx.kbCan && r.ctx.errCnt >= 10 ==> Ends(r, o, r.ctx, EightCans(), ExcessiveErrors))
            && (r.ctx.kbCan ==> Ends(r, o, r.ctx, EightCans(), KbCancelled))
  {
    hide React, OnSer, OnKb, TransientDataTm;
    CansAreEight();
    NothingFollows(r, Tm, env);
  }

  /** In the data phase it is a NAK that goes out, and a 'C' before a stat block. */
  lemma AsksAgain(r: Receiver, env: Env)
    requires r.Valid() && !r.ctx.kbCan && r.ctx.errCnt < 10
    ensures forall f, j :: Receiving(r, f, j) && r.leaf in {FirstByteData, EotData} ==>
              Counts(r, React(r, Tm, env), [0x15], r.leaf)
    ensures Waiting(r) ==> Counts(r, React(r, Tm, env), [0x43], r.leaf)
  {
    hide React, Counts, HasWritten, PadChunk, ChunkOf, BlockCount, DoneCount, EightCans;
    if r.leaf in {FirstByteStat, FirstByteData, EotData} {
      RepliesToTimeout(r, env);
    }
  }

  /** The other timeouts: behind the empty stat block it ends the session, and in the CAN state it brings the receiver
      back unless a cancel is pending. */
  lemma RepliesToOtherTimeouts(r: Receiver, env: Env)
    requires r.Valid() && r.leaf in {AreWeDone, Can} && !r.history.IsTransient()
    ensures var o := React(r, Tm, env);
            && !o.purged
            && (r.leaf == AreWeDone ==> Ends(r, o, r.ctx, [], EndOfSession))
            && (r.leaf == Can && !r.ctx.kbCan ==> o.sent == [] && o.r == r.(leaf := r.history))
            && (r.leaf == Can && r.ctx.kbCan ==> Ends(r, o, r.ctx, EightCans(), KbCancelled))
  {
    hide React, OnSer, OnKb, TransientDataTm;
    CansAreEight();
    NothingFollows(r, Tm, env);
  }

  /** The reply to a data block: an ACK for a good one, with a 'C' behind it when no new data block has come since the
      stat block, and a NAK for a bad one. With ten errors counted, or a block out of step, the session ends instead, and
      the file is closed. A new block's data are written in any case that goes on. */
  lemma RepliesToBlock(r: Receiver, env: Env)
    requires r.Valid() && r.leaf == TransientData
    ensures var o := React(r, Tm, env);
            && !o.purged
            && (!r.ctx.rx.syncLoss && r.ctx.errCnt < 10 ==>
                  && o.sent == (if !r.ctx.rx.goodBlk then [0x15]
                                else if r.ctx.anotherFile == 0 then [0x06] else [0x06, 0x43])
                  && o.r == Receiver(FirstByteData, r.history,
                                     if r.ctx.rx.goodBlk1st then WriteChunk(r.ctx) else r.ctx))
            && (!r.ctx.rx.syncLoss && r.ctx.errCnt >= 10 ==>
                  Ends(r, o, Closed(r.ctx, env.closeRc), EightCans(), ExcessiveErrors))
            && (r.ctx.rx.syncLoss ==> Ends(r, o, Closed(r.ctx, env.closeRc), EightCans(), LossOfSync))
  {
    hide React, OnSer, OnKb, WriteChunk, NonCanTm;
    CansAreEight();
    NothingFollows(r, Tm, env);
  }

  // ------------------------------------------------------------- cancels

  /** A cancel is noted down, and ends the session at once only while a reply to a block is due. */
  lemma RepliesToCancel(r: Receiver, env: Env)
    requires r.Valid() && !r.leaf.IsTransient() && !r.leaf.IsOver()
    ensures var o := React(r, KbC, env);
            && !o.purged
            && (r.leaf == TransientData ==> Ends(r, o, r.ctx.(kbCan := true), EightCans(), KbCancelledImmediate))
            && (r.leaf != TransientData ==> o.sent == [] && o.r == r.(ctx := r.ctx.(kbCan := true)))
  {
    hide React, OnSer, OnTm;
    CansAreEight();
    NothingFollows(r, KbC, env);
  }

  // --------------------------------------------------------------- bytes

  /** Bytes that begin nothing, while the receiver waits: they are discarded with all that comes behind them, or end a
      session in which a cancel is pending. */
  lemma RepliesToOtherBytes(r: Receiver, c: byte, rest: Data, env: Env)
    requires r.Valid() && r.leaf in {FirstByteStat, FirstByteData, EotData, AreWeDone} && |rest| < BUF_SZ
    requires c !in {0x01, 0x04, 0x18} || (c == 0x04 && r.leaf == AreWeDone)
    ensures var o := React(r, Ser(c, rest), env);
            && o.purged
            && (!r.ctx.kbCan ==> o.sent == [] && o.r == r)
            && (r.ctx.kbCan ==> Ends(r, o, r.ctx, EightCans(), KbCancelledDelayed))
  {
    hide React, GetRestBlk, GetRestPurges, CloseFile, OnTm, OnKb;
    CansAreEight();
    NothingFollows(r, Ser(c, rest), env);
  }

  /** A start byte in a session in which a cancel is pending. */
  lemma RepliesOfCancelled(r: Receiver, rest: Data, env: Env)
    requires r.Valid() && r.leaf in {FirstByteStat, FirstByteData, EotData, AreWeDone} && |rest| < BUF_SZ
    requires r.ctx.kbCan
    ensures var o := React(r, Ser(0x01, rest), env);
            o.purged && Ends(r, o, r.ctx, EightCans(), KbCancelledDelayed)
  {
    hide React, GetRestBlk, GetRestPurges, CloseFile, OnTm, OnKb;
    CansAreEight();
    NothingFollows(r, Ser(0x01, rest), env);
  }

  /** In the CAN state another CAN byte ends the session, closes the file and sends nothing; any other byte is discarded
      and brings the receiver back unless a cancel is pending. */
  lemma RepliesInCan(r: Receiver, c: byte, rest: Data, env: Env)
    requires r.Valid() && r.leaf == Can && !r.history.IsTransient() && |rest| < BUF_SZ
    ensures var o := React(r, Ser(c, rest), env);
            && o.purged
            && (c == 0x18 ==> Ends(r, o, Closed(r.ctx, env.closeRc), [], SndCancelled))
            && (c != 0x18 && !r.ctx.kbCan ==> o.sent == [] && o.r == r.(leaf := r.history))
            && (c != 0x18 && r.ctx.kbCan ==> Ends(r, o, r.ctx, EightCans(), KbCancelledDelayed))
  {
    hide React, OnTm, OnKb;
    CansAreEight();
    NothingFollows(r, Ser(c, rest), env);
  }

  /** While a reply is due, whatever arrives is discarded. */
  lemma RepliesWhileDue(r: Receiver, c: byte, rest: Data, env: Env)
    requires r.Valid() && r.leaf == TransientData && |rest| < BUF_SZ
    ensures React(r, Ser(c, rest), env) == Out(r, [], true)
  {
    ReceivingPurges(r, c, rest, env);
  }

  // ----------------------------------------------------------------- EOT

  /** The first EOT behind a block is refused and counted; with a cancel pending it ends the session. */
  lemma RepliesToFirstEot(r: Receiver, rest: Data, env: Env)
    requires r.Valid() && r.leaf == FirstByteData && |rest| < BUF_SZ
    ensures var o := React(r, Ser(0x04, rest), env);
            && o.purged
            && (!r.ctx.kbCan ==> Counts(r, o, [0x15], EotData))
            && (r.ctx.kbCan ==> Ends(r, o, r.ctx, EightCans(), KbCancelledDelayed))
  {
    hide React, GetRestBlk, GetRestPurges, OnTm, OnKb;
    CansAreEight();
    NothingFollows(r, Ser(0x04, rest), env);
  }

  /** The second EOT closes the file, with a cancel pending or not: an ACK and a 'C' report it as done, or eight CAN bytes
      say that it cannot be closed. */
  lemma RepliesToSecondEot(r: Receiver, rest: Data, env: Env)
    requires r.Valid() && r.leaf == EotData && r.ctx.fd >= 0 && |rest| < BUF_SZ
    ensures var o := React(r, Ser(0x04, rest), env);
            var c := Closed(r.ctx, env.closeRc);
            && !o.purged
            && (env.closeRc == 0 ==>
                  && o.sent == [0x06, 0x43]
                  && o.r == Receiver(FirstByteStat, r.history, c.(errCnt := 0, result := r.ctx.result + [Done])))
            && (env.closeRc != 0 ==> Ends(r, o, c, EightCans(), CloseError))
  {
    hide React, Cascade, OnTm, OnKb;
    CansAreEight();
    var o := EotDataSer(r, EOT, rest, env);
    assert Fire(r, Ser(EOT, rest), env) == o;
    assert React(r, Ser(EOT, rest), env) == Cascade(o, env) by {
      hide Fire;
      OnlyCascade(r, Ser(EOT, rest), env);
    }
    CascadeStep(o, env);
    var n := EotCont(o.r);
    CascadeStep(Out(n.r, o.sent + n.sent, o.purged || n.purged), env);
  }

  lemma OnlyCascade(r: Receiver, e: Event, env: Env)
    requires r.Valid() && e.Valid()
    ensures React(r, e, env) == Cascade(Fire(r, e, env), env)
  {
    hide Fire, Cascade;
  }

  /** An EOT before a stat block: once a file has been closed it is acknowledged again, ten times in a row, even with a
      cancel pending; before the first file it is discarded. */
  lemma RepliesToLateEot(r: Receiver, rest: Data, env: Env)
    requires r.Valid() && r.leaf == FirstByteStat && |rest| < BUF_SZ
    ensures var o := React(r, Ser(0x04, rest), env);
            && (r.ctx.closeProb == 0 && r.ctx.errCnt < 10 <==> Counts(r, o, [0x06, 0x43], FirstByteStat))
            && (r.ctx.closeProb == 0 && r.ctx.errCnt >= 10 ==> Ends(r, o, r.ctx, EightCans(), ExcessiveEots))
            && (r.ctx.closeProb != 0 && !r.ctx.kbCan ==> o == Out(r, [], true))
            && (r.ctx.closeProb != 0 && r.ctx.kbCan ==> Ends(r, o, r.ctx, EightCans(), KbCancelledDelayed))
  {
    hide React, GetRestBlk, GetRestPurges, OnTm, OnKb;
    CansAreEight();
    NothingFollows(r, Ser(0x04, rest), env);
  }

  // ------------------------------------------------------- start of a block

  /** A block in the data phase is stored, and replied to when nothing more can be read: a new one sets the count of
      errors back, and a repeated or a bad one adds to it. */
  lemma BlockIsStored(r: Receiver, rest: Data, env: Env)
    requires r.Valid() && r.leaf in {FirstByteData, EotData} && !r.ctx.kbCan && |rest| < BUF_SZ
    ensures var o := React(r, Ser(0x01, rest), env);
            var x := GetRest(r.ctx.rx, r.ctx.fd != -1, rest);
            && o.sent == []
            && o.r == Receiver(TransientData, r.history,
                               if x.goodBlk1st then r.ctx.(rx := x, errCnt := 0, anotherFile := 0)
                               else r.ctx.(rx := x, errCnt := r.ctx.errCnt + 1))
            && (o.purged <==> |rest| >= 132 && !x.goodBlk)
  {
    hide React, GetRest, OnTm, OnKb, CrcMatches, Stored;
    NothingFollows(r, Ser(0x01, rest), env);
  }

  /** What the count of errors and the note of a closed file become at the start of a block before the data phase. */
  function StatErrors(r: Receiver): nat
  {
    if r.leaf == AreWeDone then r.ctx.errCnt + 1 else if r.ctx.closeProb == 0 then 0 else r.ctx.errCnt
  }

  function StatCloseProb(r: Receiver): int
  {
    if r.leaf == FirstByteStat && r.ctx.closeProb == 0 then -1 else r.ctx.closeProb
  }

  /** The start of a block before the data phase, up to the message that it posts. */
  function StatRead(r: Receiver, rest: Data): (t: Receiver)
    requires r.Valid() && |rest| < BUF_SZ
    ensures t.Valid() && t.leaf == TransientStat
  {
    Receiver(TransientStat, r.history,
             r.ctx.(rx := GetRest(r.ctx.rx, r.ctx.fd != -1, rest), errCnt := StatErrors(r),
                    closeProb := StatCloseProb(r)))
  }

  lemma StatIsRead(r: Receiver, rest: Data, env: Env)
    requires r.Valid() && r.leaf in {FirstByteStat, AreWeDone} && !r.ctx.kbCan && |rest| < BUF_SZ
    ensures var o := Fire(r, Ser(SOH, rest), env);
            o.r == StatRead(r, rest) && o.sent == [] && React(r, Ser(SOH, rest), env) == Cascade(o, env)
  {
    hide React, Cascade, GetRest, OnTm, OnKb;
    assert React(r, Ser(SOH, rest), env) == Cascade(Fire(r, Ser(SOH, rest), env), env) by {
      hide Fire;
      OnlyCascade(r, Ser(SOH, rest), env);
    }
  }

  /** A block before the data phase that is bad, out of step, or one too many: a NAK, or the end when ten errors have been
      counted or the block is out of step. The start of a block behind a closed file sets the count of errors back. */
  lemma RepliesToBadStat(r: Receiver, rest: Data, env: Env)
    requires r.Valid() && r.leaf in {FirstByteStat, AreWeDone} && !r.ctx.kbCan && |rest| < BUF_SZ
    requires var c := StatRead(r, rest).ctx;
             !c.rx.goodBlk || c.rx.syncLoss || c.errCnt >= 10
    ensures var o := React(r, Ser(0x01, rest), env);
            var c := StatRead(r, rest).ctx;
            && (!c.rx.syncLoss && c.errCnt < 10 ==>
                  o.sent == [0x15] && o.r == Receiver(FirstByteStat, r.history, c.(errCnt := c.errCnt + 1)))
            && (!c.rx.syncLoss && c.errCnt >= 10 ==> Ends(r, o, c, EightCans(), ExcessiveErrorsAtStat))
            && (c.rx.syncLoss ==> Ends(r, o, c, EightCans(), LossOfSyncAtStat))
  {
    hide React, Cascade, StatRead, Fire;
    CansAreEight();
    StatIsRead(r, rest, env);
    ReadKeepsHistory(r, rest);
    var o := Fire(r, Ser(SOH, rest), env);
    CascadeStep(o, env);
    var n := StatCont(o.r);
    CascadeStep(Out(n.r, o.sent + n.sent, o.purged || n.purged), env);
  }

  lemma ReadKeepsHistory(r: Receiver, rest: Data)
    requires r.Valid() && |rest| < BUF_SZ
    ensures StatRead(r, rest).history == r.history
  {
    hide GetRest;
  }

  /** A good block whose first byte is zero ends the files: an ACK, and the receiver asks no more. */
  lemma RepliesToEmptyStat(r: Receiver, rest: Data, env: Env)
    requires r.Valid() && r.leaf in {FirstByteStat, AreWeDone} && !r.ctx.kbCan && |rest| < BUF_SZ
    requires var x := StatRead(r, rest).ctx.rx;
             x.goodBlk && !x.syncLoss && x.rcvBlk[3] == 0
    requires StatErrors(r) < 10
    ensures var o := React(r, Ser(0x01, rest), env);
            o.sent == [0x06] && o.r == Receiver(AreWeDone, r.history, StatRead(r, rest).ctx.(anotherFile := 0))
  {
    hide React, Cascade, StatRead, Fire, OpenFile;
    StatIsRead(r, rest, env);
    ReadKeepsHistory(r, rest);
    ReadKeepsErrors(r, rest);
    var o := Fire(r, Ser(SOH, rest), env);
    LastCheck(o, env);
  }

  lemma ReadKeepsErrors(r: Receiver, rest: Data)
    requires r.Valid() && |rest| < BUF_SZ
    ensures StatRead(r, rest).ctx.errCnt == StatErrors(r)
  {
    hide GetRest;
  }

  /** A good block that names a file: the file is created and the data are asked for by an ACK and a 'C', or eight CAN
      bytes say that it cannot be created, or the machine ends by an exception over a size that cannot be read. */
  lemma RepliesToStat(r: Receiver, rest: Data, env: Env)
    requires r.Valid() && r.leaf in {FirstByteStat, AreWeDone} && !r.ctx.kbCan && |rest| < BUF_SZ
    requires var x := StatRead(r, rest).ctx.rx;
             x.goodBlk && !x.syncLoss && x.rcvBlk[3] != 0
    requires StatErrors(r) < 10
    ensures var o := React(r, Ser(0x01, rest), env);
            var t := StatRead(r, rest).ctx;
            var c := t.(anotherFile := t.rx.rcvBlk[3]);
            var created := if env.creatOk then
                             c.(fd := |c.outs|, outs := c.outs + [OutFile(StatName(c.rx.rcvBlk), [])])
                           else c.(fd := -1);
            match StatSize(c.rx.rcvBlk)
            case None => o.sent == [] && o.r == Receiver(Aborted, r.history, created)
            case Some(size) =>
              var d := created.(bytesRemaining := size);
              if env.creatOk then o.sent == [0x06, 0x43] && o.r == Receiver(FirstByteData, r.history, d)
              else Ends(r, o, d, EightCans(), CreatError)
  {
    hide React, Cascade, StatRead, Fire, StatName, StatSize;
    CansAreEight();
    StatIsRead(r, rest, env);
    ReadKeepsHistory(r, rest);
    ReadKeepsErrors(r, rest);
    var o := Fire(r, Ser(SOH, rest), env);
    var n := StatCont(o.r);
    var o1 := Out(n.r, o.sent + n.sent, o.purged || n.purged);
    CascadeStep(o, env);
    var m := CheckCont(o1.r, env);
    var o2 := Out(m.r, o1.sent + m.sent, o1.purged || m.purged);
    CascadeStep(o1, env);
    CascadeStep(o2, env);
    if m.r.leaf == TransientOpen {
      var k := OpenCont(m.r);
      CascadeStep(Out(k.r, o2.sent + k.sent, o2.purged || k.purged), env);
    }
  }

  // ------------------------------------------------------- runs of timeouts

  /** As many timeouts as there are answers of the file system. */
  function Timeouts(envs: seq<Env>): (es: seq<(Event, Env)>)
    ensures |es| == |envs| && forall i :: 0 <= i < |es| ==> es[i].0.Valid()
  {
    seq(|envs|, i requires 0 <= i < |envs| => (Tm, envs[i]))
  }

  lemma LastTimeout(envs: seq<Env>)
    requires envs != []
    ensures var n := |envs| - 1;
            Timeouts(envs)[..n] == Timeouts(envs[..n]) && Timeouts(envs)[n] == (Tm, envs[n])
  {
  }

  lemma OneMoreByte(n: nat, b: byte)
    ensures Fill(n + 1, b) == Fill(n, b) + [b]
  {
  }

  lemma StopsForGood(r: Receiver, env: Env)
    requires r.Valid() && r.leaf == Final
    ensures React(r, Tm, env) == Out(r, [], false)
  {
    hide OnSer, OnKb, Cont;
  }

  /** However many timeouts follow each other, the receiver asks again once for each of them until ten errors have been
      counted since the last new block; the next timeout ends the session with eight CAN bytes, and later ones change
      nothing. */
  lemma {:induction false} TimeoutsOnEnd(r: Receiver, envs: seq<Env>)
    requires r.Valid() && r.leaf in {FirstByteStat, FirstByteData, EotData} && !r.ctx.kbCan && r.ctx.errCnt <= 10
    ensures var asked: byte := if r.ctx.fd == -1 then 0x43 else 0x15;
            var t := ReceiverBounds.Run(r, Timeouts(envs));
            var sent := ReceiverBounds.BytesOf(r, Timeouts(envs));
            if |envs| <= 10 - r.ctx.errCnt then
              t == r.(ctx := r.ctx.(errCnt := r.ctx.errCnt + |envs|)) && sent == Fill(|envs|, asked)
            else
              && t.leaf == Final && t.ctx.result == r.ctx.result + [ExcessiveErrors]
              && sent == Fill(10 - r.ctx.errCnt, asked) + EightCans()
  {
    hide React, Timeouts, EightCans, Fill;
    if envs == [] {
      assert Fill(0, NAK) == Fill(0, CHAR_C) == [];
    } else {
      var n := |envs| - 1;
      TimeoutsOnEnd(r, envs[..n]);
      LastTimeout(envs);
      var t := ReceiverBounds.Run(r, Timeouts(envs[..n]));
      if n <= 10 - r.ctx.errCnt {
        RepliesToTimeout(t, envs[n]);
        OneMoreByte(n, if r.ctx.fd == -1 then CHAR_C else NAK);
      } else {
        StopsForGood(t, envs[n]);
      }
    }
  }
}
