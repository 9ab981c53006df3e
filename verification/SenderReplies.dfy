/** What the sender answers: for every state and every byte, timeout and cancel, the one reaction that there is, in terms
    of the blocks of the current file. */
module SenderReplies {
  import opened Bytes
  import opened Blocks
  import opened Session
  import opened SenderContext
  import opened SenderChart
  import opened SenderSteps

  /** The same item goes out once more: one more error is counted, and the sender waits for another 15 seconds. */
  predicate Repeats(s: Sender, o: Out, item: Item, to: Leaf, now: int)
  {
    && o.sent == [item]
    && o.s == Sender(to, s.history, s.ctx.(errCnt := s.ctx.errCnt + 1, absoluteTimeout := now + 15_000_000))
  }

  /** Nothing happens at all. */
  predicate Ignores(s: Sender, o: Out)
  {
    o.sent == [] && o.s == s
  }

  /** The sender stops with one more phrase in its result, and no file open. */
  predicate Ends(s: Sender, o: Out, sent: seq<Item>, phrase: Phrase)
  {
    && o.sent == sent
    && o.s == Sender(Final, s.history, s.ctx.(fd := if s.ctx.fd >= 0 then -1 else s.ctx.fd,
                                              result := s.ctx.result + [phrase]))
  }

  /** A CAN byte: the sender waits 0.2 seconds for another one, and remembers where it was and until when it waited. */
  predicate Detours(s: Sender, o: Out, now: int)
  {
    && o.sent == []
    && o.s == Sender(Can, s.leaf, s.ctx.(holdTimeout := s.ctx.absoluteTimeout, absoluteTimeout := now + 200_000))
  }

  /** An item goes out for the first time, or nothing does, and the sender moves on with its count of errors set back. */
  ghost predicate MovesOn(files: seq<SrcFile>, s: Sender, o: Out, sent: seq<Item>, to: Leaf, k: nat, now: int)
  {
    && o.sent == sent && Live(files, o.s) && o.s.leaf == to && o.s.history == s.history
    && SamePlace(s.ctx.(k := k), o.s.ctx)
    && o.s.ctx.errCnt == 0 && o.s.ctx.absoluteTimeout == now + 15_000_000
    && o.s.ctx.holdTimeout == s.ctx.holdTimeout && o.s.ctx.kbCan == s.ctx.kbCan && o.s.ctx.result == s.ctx.result
  }

  /** On to the next file that is named, or to the end of the session. */
  ghost predicate NextStat(files: seq<SrcFile>, s: Sender, o: Out, result: seq<Phrase>, now: int)
  {
    && NextFile(files, s, o) && o.s.history == s.history
    && o.s.ctx.result == result && o.s.ctx.kbCan == s.ctx.kbCan && o.s.ctx.errCnt == s.ctx.errCnt
    && o.s.ctx.firstBlk == s.ctx.firstBlk && o.s.ctx.holdTimeout == s.ctx.holdTimeout
    && o.s.ctx.absoluteTimeout == now + 15_000_000
  }

  /** The last block sent, and the one to send next. */
  function LastSent(files: seq<SrcFile>, s: Sender): (b: Item)
    requires FilesFit(files) && s.ctx.k > 0
    requires s.ctx.named ==> 0 < s.ctx.fileNameIndex <= |files| && Current(files, s.ctx).openable
  {
    Blk(if s.ctx.named then Block(Current(files, s.ctx), s.ctx.k - 1) else EmptyStatBlk())
  }

  function NextToSend(files: seq<SrcFile>, s: Sender): (b: Item)
    requires FilesFit(files)
    requires s.ctx.named ==> 0 < s.ctx.fileNameIndex <= |files| && Current(files, s.ctx).openable
  {
    Blk(if s.ctx.named then Block(Current(files, s.ctx), s.ctx.k) else EmptyStatBlk())
  }

  /** How many data blocks of the current file are still to be sent for the first time. */
  function Remaining(files: seq<SrcFile>, s: Sender): int
    requires s.ctx.named && 0 < s.ctx.fileNameIndex <= |files|
  {
    BlockCount(Current(files, s.ctx).content) + 1 - s.ctx.k
  }

  lemma Placed(files: seq<SrcFile>, s: Sender)
    requires Live(files, s)
    ensures FilesFit(files)
    ensures s.ctx.named ==> 0 < s.ctx.fileNameIndex <= |files|
    ensures s.ctx.named && Phase(s) != StatC ==> Current(files, s.ctx).openable
    ensures Phase(s) in {One, AckNak, Eot1, EotEot} ==> s.ctx.named
    ensures Phase(s) in {AckNakStat, One} ==> s.ctx.k == 1
    ensures Phase(s) in {AckNak, Eot1, EotEot} ==> s.ctx.k > 0
    ensures Phase(s) == StatC ==> s.ctx.k == 0
    ensures s.leaf != Final && Phase(s) in {StatC, AckNakStat, One, AckNak, Eot1, EotEot}
  {
    hide Holds, BlockCount, FilesFit;
  }

  /** There is one way to end. */
  lemma OneEnd(s: Sender, o: Out)
    ensures forall a, b, p, q :: Ends(s, o, a, p) && Ends(s, o, b, q) ==> a == b && p == q
    ensures s.leaf != Final ==> forall a, p :: Ends(s, o, a, p) ==> !Ignores(s, o)
  {
    forall a, b, p, q | Ends(s, o, a, p) && Ends(s, o, b, q) ensures a == b && p == q {
      assert o.s.ctx.result[|s.ctx.result|] == p;
      assert (s.ctx.result + [q])[|s.ctx.result|] == q;
    }
  }

  lemma NoMoreFiles(files: seq<SrcFile>, s: Sender)
    requires Live(files, s) && !s.ctx.named
    ensures s.ctx.fd == -2
  {
    hide Shape, FilesFit, EmptyStatBlk;
  }

  lemma ByteRead(files: seq<SrcFile>, s: Sender, c: byte, now: int)
    ensures React(files, s, Ser(c), now) == match s.leaf
                                            case StatC => StatCSer(files, s, c, now)
                                            case AckNakStat => AckNakStatSer(s, c, now)
                                            case One => OneSer(files, s, c, now)
                                            case AckNak => AckNakSer(files, s, c, now)
                                            case Eot1 => Eot1Ser(files, s, c, now)
                                            case EotEot => EotEotSer(files, s, c, now)
                                            case Can => CanSer(s, c)
                                            case Final => Quiet(s)
  {
    hide StatCSer, AckNakStatSer, OneSer, AckNakSer, Eot1Ser, EotEotSer, CanSer;
  }

  /** The sender starts by preparing the first file, or the end of the session, and waits for 15 seconds. */
  lemma Starts(files: seq<SrcFile>, now: int)
    requires FilesFit(files)
    ensures var s := Start(files, now);
            && Live(files, s) && s.leaf == StatC && s.ctx.absoluteTimeout == now + 15_000_000
            && s.ctx.errCnt == 0 && !s.ctx.firstBlk && !s.ctx.kbCan && s.ctx.result == []
            && (if files == [] then !s.ctx.named else s.ctx.named && s.ctx.fileNameIndex == 1)
  {
    PrepStatLive(files, Start(files, now), InitialCtx(), now);
    PrepFields(files, InitialCtx());
    hide Live, PrepStat, FilesFit;
  }

  // ---------------------------------------------- bytes without a meaning

  /** Bytes that the active state leaves to the states around it. */
  lemma LeftOver(s: Sender, c: byte, now: int)
    requires s.leaf != Can && s.leaf != Final
    ensures var o := NonCanSer(s, c, now);
            && (c == 0x15 && s.ctx.errCnt >= 10 ==> Ends(s, o, [Cans], ExcessiveNaks))
            && (c == 0x18 ==> Detours(s, o, now))
            && (c in {0x06, 0x15, 0x43} && s.ctx.kbCan && !(c == 0x15 && s.ctx.errCnt >= 10) ==>
                  Ends(s, o, [Cans], KbCancelled))
            && (c in {0x06, 0x15, 0x43} && !s.ctx.kbCan && !(c == 0x15 && s.ctx.errCnt >= 10) ==> Ignores(s, o))
            && (c !in {0x06, 0x15, 0x18, 0x43} ==> Ignores(s, o))
  {
  }

  lemma LastOf(files: seq<SrcFile>, s: Sender)
    requires Live(files, s) && s.leaf in {AckNakStat, One, AckNak}
    ensures s.ctx.k > 0 && FilesFit(files)
    ensures s.ctx.named ==> 0 < s.ctx.fileNameIndex <= |files| && Current(files, s.ctx).openable
    ensures Blk(LastBlk(s.ctx)) == LastSent(files, s)
  {
    hide Shape, Holds, Block, EmptyStatBlk, LastBlk, FilesFit;
    Placed(files, s);
    LastBlkSent(files, s.leaf, s.ctx);
  }

  // --------------------------------------------------- with a data block out

  /** The reply to a data block. A NAK, or a 'C' behind the first block, has the block repeated ten times in a row; the
      NAK behind that ends the session. An ACK brings the next block, or the EOT when there is none. */
  lemma AckNakReplies(files: seq<SrcFile>, s: Sender, c: byte, now: int)
    requires Live(files, s) && s.leaf == AckNak && !s.ctx.kbCan
    ensures FilesFit(files) && s.ctx.k > 0 && s.ctx.named
    ensures 0 < s.ctx.fileNameIndex <= |files| && Current(files, s.ctx).openable
    ensures var o := React(files, s, Ser(c), now);
            && (Repeats(s, o, LastSent(files, s), AckNak, now)
                <==> (c == 0x15 || (c == 0x43 && s.ctx.firstBlk)) && s.ctx.errCnt < 10)
            && (Ends(s, o, [Cans], ExcessiveNaks) <==> c == 0x15 && s.ctx.errCnt >= 10)
            && (c == 0x06 && Remaining(files, s) > 0 ==>
                  MovesOn(files, s, o, [NextToSend(files, s)], AckNak, s.ctx.k + 1, now) && !o.s.ctx.firstBlk)
            && (c == 0x06 && Remaining(files, s) <= 0 ==>
                  MovesOn(files, s, o, [Eot], Eot1, s.ctx.k, now)
                  && o.s.ctx.fd == -1 && o.s.ctx.firstBlk == s.ctx.firstBlk)
            && (c == 0x18 <==> Detours(s, o, now))
            && (c !in {0x06, 0x15, 0x18} && !(c == 0x43 && s.ctx.firstBlk && s.ctx.errCnt < 10) <==> Ignores(s, o))
  {
    hide React, Live, MovesOn, LastSent, NextToSend, NonCanSer, SendNew, Current, FilesFit, LastBlk, CurrentBlk;
    hide BlockCount;
    ByteRead(files, s, c, now);
    Placed(files, s);
    LastOf(files, s);
    LeftOver(s, c, now);
    if c == 0x06 {
      AckOfBlock(files, s, now);
    }
  }

  /** The ACK for a data block. */
  lemma AckReply(files: seq<SrcFile>, s: Sender, now: int)
    requires Live(files, s) && s.leaf == AckNak && !s.ctx.kbCan
    ensures FilesFit(files) && s.ctx.named && 0 < s.ctx.fileNameIndex <= |files| && Current(files, s.ctx).openable
    ensures var o := React(files, s, Ser(ACK), now);
            if Remaining(files, s) > 0 then MovesOn(files, s, o, [NextToSend(files, s)], AckNak, s.ctx.k + 1, now)
            else MovesOn(files, s, o, [Eot], Eot1, s.ctx.k, now)
  {
    hide Live, React, Current, FilesFit, Repeats, Ends, MovesOn, Detours, Ignores, LastSent, NextToSend, Remaining;
    AckNakReplies(files, s, ACK, now);
  }

  lemma LeftToSend(files: seq<SrcFile>, s: Sender)
    requires Live(files, s) && s.leaf in {One, AckNak}
    ensures s.ctx.named && 0 < s.ctx.fileNameIndex <= |files| && (s.ctx.bytesRd == 0 <==> Remaining(files, s) <= 0)
  {
    hide Frame, StatBlk, DataBlk, ChunkOf, EndOf, StatFits;
    Placed(files, s);
    NamedInData(files, s);
    assert BuffersHold(files, s.ctx) by {
      hide BuffersHold, BlockCount, FilesFit;
    }
    NothingLeft(files, s.ctx);
    hide Live, BuffersHold, BlockCount;
  }

  lemma AckOfBlock(files: seq<SrcFile>, s: Sender, now: int)
    requires Live(files, s) && s.leaf == AckNak && !s.ctx.kbCan
    ensures FilesFit(files) && s.ctx.named && 0 < s.ctx.fileNameIndex <= |files| && Current(files, s.ctx).openable
    ensures var o := AckNakSer(files, s, ACK, now);
            && (Remaining(files, s) > 0 ==>
                  MovesOn(files, s, o, [NextToSend(files, s)], AckNak, s.ctx.k + 1, now) && !o.s.ctx.firstBlk)
            && (Remaining(files, s) <= 0 ==>
                  MovesOn(files, s, o, [Eot], Eot1, s.ctx.k, now)
                  && o.s.ctx.fd == -1 && o.s.ctx.firstBlk == s.ctx.firstBlk)
  {
    hide Shape, Holds, FilesFit, BlockCount, SendNew, Block;
    Placed(files, s);
    LeftToSend(files, s);
    var o := AckNakSer(files, s, ACK, now);
    if s.ctx.bytesRd != 0 {
      SendNewMoves(files, s, o, false, now);
    } else {
      OpenInData(files, s);
      CarriedToEot(files, AckNak, Eot1, s.ctx, o.s.ctx);
    }
  }

  lemma OpenInData(files: seq<SrcFile>, s: Sender)
    requires Live(files, s) && s.leaf in {One, AckNak}
    ensures s.ctx.fd >= 0
  {
    hide BuffersHold, BlockCount, FilesFit;
  }

  /** The next block goes out. */
  lemma SendNewMoves(files: seq<SrcFile>, s: Sender, o: Out, firstBlk: bool, now: int)
    requires Live(files, s) && s.leaf in {One, AckNak} && s.ctx.bytesRd != 0
    requires o.sent == [Blk(CurrentBlk(s.ctx))] && o.s.leaf == AckNak && o.s.history == s.history
    requires o.s.ctx == SendNew(files, s.ctx).(errCnt := 0, absoluteTimeout := now + 15_000_000, firstBlk := firstBlk)
    ensures FilesFit(files) && s.ctx.named && 0 < s.ctx.fileNameIndex <= |files| && Current(files, s.ctx).openable
    ensures MovesOn(files, s, o, [NextToSend(files, s)], AckNak, s.ctx.k + 1, now)
  {
    hide Shape, Holds, Block, SendNew, CurrentBlk, FilesFit;
    Placed(files, s);
    SendNewKeeps(files, s.leaf, s.ctx, o.s.ctx);
    NewFields(files, s.ctx);
  }

  lemma NewFields(files: seq<SrcFile>, c: Ctx)
    ensures var d := SendNew(files, c);
            && d.holdTimeout == c.holdTimeout && d.kbCan == c.kbCan && d.result == c.result && d.firstBlk == c.firstBlk
            && d.fd == c.fd && d.absoluteTimeout == c.absoluteTimeout && d.errCnt == c.errCnt
  {
    hide NextRead, Frame, PadChunk;
  }

  // ------------------------------------------------ with a stat block out

  /** The reply to a stat block. There is no bound on how often a NAK or a 'C' has it repeated. The ACK for a file's
      stat block has the sender wait for a 'C'; the one for the empty stat block ends the session. */
  lemma AckNakStatReplies(files: seq<SrcFile>, s: Sender, c: byte, now: int)
    requires Live(files, s) && s.leaf == AckNakStat && !s.ctx.kbCan
    ensures FilesFit(files) && s.ctx.k > 0
    ensures s.ctx.named ==> 0 < s.ctx.fileNameIndex <= |files| && Current(files, s.ctx).openable
    ensures var o := React(files, s, Ser(c), now);
            && (Repeats(s, o, LastSent(files, s), AckNakStat, now) <==> c == 0x15 || c == 0x43)
            && (c == 0x06 && s.ctx.named ==>
                  Live(files, o.s) && o.sent == []
                  && o.s == s.(leaf := One, ctx := s.ctx.(firstBlk := true, absoluteTimeout := now + 15_000_000)))
            && (Ends(s, o, [], EndOfSession) <==> c == 0x06 && !s.ctx.named)
            && (c == 0x18 <==> Detours(s, o, now))
            && (c !in {0x06, 0x15, 0x18, 0x43} <==> Ignores(s, o))
  {
    hide React, Shape, Holds, LastSent, NonCanSer, Current, FilesFit, LastBlk;
    OneEnd(s, React(files, s, Ser(c), now));
    if !s.ctx.named {
      NoMoreFiles(files, s);
    }
    ByteRead(files, s, c, now);
    Placed(files, s);
    LastOf(files, s);
    LeftOver(s, c, now);
    var o := AckNakStatSer(s, c, now);
    if c == ACK && s.ctx.named {
      Carried(files, AckNakStat, One, s.ctx, o.s.ctx);
    } else {
      hide Live;
    }
  }

  /** With the stat block of a file acknowledged, a 'C' brings the first data block, or the EOT of an empty file; a NAK
      has the stat block repeated. */
  lemma OneReplies(files: seq<SrcFile>, s: Sender, c: byte, now: int)
    requires Live(files, s) && s.leaf == One && !s.ctx.kbCan
    ensures FilesFit(files) && s.ctx.k == 1 && s.ctx.named
    ensures 0 < s.ctx.fileNameIndex <= |files| && Current(files, s.ctx).openable
    ensures var o := React(files, s, Ser(c), now);
            && (Repeats(s, o, LastSent(files, s), AckNakStat, now) <==> c == 0x15)
            && (c == 0x43 && Remaining(files, s) > 0 ==>
                  MovesOn(files, s, o, [NextToSend(files, s)], AckNak, 2, now) && o.s.ctx.firstBlk == s.ctx.firstBlk)
            && (c == 0x43 && Remaining(files, s) <= 0 ==>
                  MovesOn(files, s, o, [Eot], Eot1, 1, now)
                  && o.s.ctx.fd == -1 && o.s.ctx.firstBlk == s.ctx.firstBlk)
            && (c == 0x18 <==> Detours(s, o, now))
            && (c !in {0x15, 0x18, 0x43} <==> Ignores(s, o))
  {
    hide React, Live, MovesOn, LastSent, NextToSend, NonCanSer, SendNew, Current, FilesFit, LastBlk, CurrentBlk;
    hide BlockCount;
    ByteRead(files, s, c, now);
    Placed(files, s);
    LastOf(files, s);
    LeftOver(s, c, now);
    if c == 0x43 {
      AskedForData(files, s, now);
    }
  }

  lemma AskedForData(files: seq<SrcFile>, s: Sender, now: int)
    requires Live(files, s) && s.leaf == One && !s.ctx.kbCan
    ensures FilesFit(files) && s.ctx.named && 0 < s.ctx.fileNameIndex <= |files| && Current(files, s.ctx).openable
    ensures var o := OneSer(files, s, CHAR_C, now);
            && (Remaining(files, s) > 0 ==>
                  MovesOn(files, s, o, [NextToSend(files, s)], AckNak, s.ctx.k + 1, now)
                  && o.s.ctx.firstBlk == s.ctx.firstBlk)
            && (Remaining(files, s) <= 0 ==>
                  MovesOn(files, s, o, [Eot], Eot1, s.ctx.k, now)
                  && o.s.ctx.fd == -1 && o.s.ctx.firstBlk == s.ctx.firstBlk)
  {
    hide Shape, Holds, FilesFit, BlockCount, SendNew, Block;
    Placed(files, s);
    LeftToSend(files, s);
    var o := OneSer(files, s, CHAR_C, now);
    NewFields(files, s.ctx);
    if s.ctx.bytesRd != 0 {
      SendNewMoves(files, s, o, s.ctx.firstBlk, now);
    } else {
      OpenInData(files, s);
      CarriedToEot(files, One, Eot1, s.ctx, o.s.ctx);
    }
  }

  // ------------------------------------------------------- with an EOT out

  /** The reply to the first EOT. A 'C' has it repeated as long as only one block has gone out, with a cancel pending or
      not. A NAK brings the second EOT. An ACK brings the next file without reporting this one as done. */
  lemma Eot1Replies(files: seq<SrcFile>, s: Sender, c: byte, now: int)
    requires Live(files, s) && s.leaf == Eot1
    ensures var o := React(files, s, Ser(c), now);
            && (Repeats(s, o, Eot, Eot1, now) <==> c == 0x43 && s.ctx.firstBlk && s.ctx.errCnt < 10)
            && (!s.ctx.kbCan ==>
                  && (c == 0x06 ==> NextStat(files, s, o, s.ctx.result, now))
                  && (c == 0x15 ==>
                        MovesOn(files, s, o, [Eot], EotEot, s.ctx.k, now)
                        && o.s.ctx.fd == s.ctx.fd && !o.s.ctx.firstBlk)
                  && (c == 0x18 <==> Detours(s, o, now))
                  && (c !in {0x06, 0x15, 0x18} && !(c == 0x43 && s.ctx.firstBlk && s.ctx.errCnt < 10)
                      <==> Ignores(s, o)))
  {
    hide React, Shape, Holds, NextStat, NonCanSer, PrepStat, FilesFit, BlockCount;
    ByteRead(files, s, c, now);
    LeftOver(s, c, now);
    var o := Eot1Ser(files, s, c, now);
    if c == NAK && !s.ctx.kbCan {
      CarriedToEot(files, Eot1, EotEot, s.ctx, o.s.ctx);
    } else if c == ACK && !s.ctx.kbCan {
      NextIsPrepared(files, s, o, s.ctx, now);
    }
  }

  lemma PrepFields(files: seq<SrcFile>, c: Ctx)
    ensures var d := PrepStat(files, c);
            && d.holdTimeout == c.holdTimeout && d.kbCan == c.kbCan && d.result == c.result && d.firstBlk == c.firstBlk
            && d.errCnt == c.errCnt
  {
    hide StatBlk, StatFits, EmptyStatBlk;
  }

  lemma NextIsPrepared(files: seq<SrcFile>, s: Sender, o: Out, c: Ctx, now: int)
    requires Live(files, s) && s.leaf in {Eot1, EotEot} && c == s.ctx.(result := c.result)
    requires o == Out(s.(leaf := StatC, ctx := PrepStat(files, c).Tm(TM_VL, now)), [])
    ensures NextStat(files, s, o, c.result, now)
  {
    LiveShape(files, s);
    hide Live, PrepStat, FilesFit;
    PrepStatLive(files, o.s, c, now);
    PrepFields(files, c);
  }

  /** The reply to the second EOT: a NAK has it repeated ten times in a row, and the NAK behind that ends the session;
      an ACK reports the file as done. */
  lemma EotEotReplies(files: seq<SrcFile>, s: Sender, c: byte, now: int)
    requires Live(files, s) && s.leaf == EotEot && !s.ctx.kbCan
    ensures var o := React(files, s, Ser(c), now);
            && (Repeats(s, o, Eot, EotEot, now) <==> c == 0x15 && s.ctx.errCnt < 10)
            && (Ends(s, o, [Cans], ExcessiveNaks) <==> c == 0x15 && s.ctx.errCnt >= 10)
            && (c == 0x06 ==> NextStat(files, s, o, s.ctx.result + [Done], now))
            && (c == 0x18 <==> Detours(s, o, now))
            && (c !in {0x06, 0x15, 0x18} <==> Ignores(s, o))
  {
    hide React, Live, NextStat, NonCanSer, PrepStat;
    ByteRead(files, s, c, now);
    LeftOver(s, c, now);
    var o := EotEotSer(files, s, c, now);
    if c == ACK {
      NextIsPrepared(files, s, o, s.ctx.Append(Done), now);
      NextIsNot(files, s, o, now);
    }
  }

  lemma NextIsNot(files: seq<SrcFile>, s: Sender, o: Out, now: int)
    requires NextStat(files, s, o, s.ctx.result + [Done], now)
    ensures !Ignores(s, o)
  {
    hide NextFile;
  }

  // ------------------------------------------------ before a stat block

  /** A 'C' brings the stat block of the next file, the empty one behind the last file, or the end of the session at a
      file that cannot be opened, even with a cancel pending. */
  lemma StatCReplies(files: seq<SrcFile>, s: Sender, c: byte, now: int)
    requires Live(files, s) && s.leaf == StatC
    ensures FilesFit(files) && (s.ctx.named ==> 0 < s.ctx.fileNameIndex <= |files|)
    ensures var o := React(files, s, Ser(c), now);
            var opens := !s.ctx.named || Current(files, s.ctx).openable;
            && (c == 0x43 && opens ==>
                  MovesOn(files, s, o, [NextToSend(files, s)], AckNakStat, 1, now)
                  && o.s.ctx.firstBlk == s.ctx.firstBlk && o.s.ctx.fd == s.ctx.fd)
            && (Ends(s, o, [Cans], OpenError) <==> c == 0x43 && !opens)
            && (c == 0x18 <==> Detours(s, o, now))
            && (!s.ctx.kbCan ==>
                  && (Ends(s, o, [Cans], ExcessiveNaks) <==> c == 0x15 && s.ctx.errCnt >= 10)
                  && (c !in {0x18, 0x43} && !(c == 0x15 && s.ctx.errCnt >= 10) <==> Ignores(s, o)))
  {
    hide React, Live, MovesOn, NextToSend, NonCanSer, SendNew, CurrentBlk, Current, FilesFit;
    OneEnd(s, React(files, s, Ser(c), now));
    if !s.ctx.named {
      NoMoreFiles(files, s);
    }
    ByteRead(files, s, c, now);
    Placed(files, s);
    StatCFile(files, s);
    LeftOver(s, c, now);
    if c == CHAR_C && s.ctx.fd != -1 {
      StatGoes(files, s, now);
    }
  }

  lemma StatCFile(files: seq<SrcFile>, s: Sender)
    requires Live(files, s) && s.leaf == StatC
    ensures s.ctx.named ==> 0 < s.ctx.fileNameIndex <= |files| && (s.ctx.fd == -1 <==> !Current(files, s.ctx).openable)
    ensures !s.ctx.named ==> s.ctx.fd == -2
  {
    hide BuffersHold, FilesFit, BlockCount;
  }

  lemma StatGoes(files: seq<SrcFile>, s: Sender, now: int)
    requires Live(files, s) && s.leaf == StatC && s.ctx.fd != -1
    ensures FilesFit(files) && (s.ctx.named ==> 0 < s.ctx.fileNameIndex <= |files| && Current(files, s.ctx).openable)
    ensures var o := StatCSer(files, s, CHAR_C, now);
            && MovesOn(files, s, o, [NextToSend(files, s)], AckNakStat, 1, now)
            && o.s.ctx.firstBlk == s.ctx.firstBlk && o.s.ctx.fd == s.ctx.fd
  {
    hide Shape, Holds, Block, EmptyStatBlk, SendNew, CurrentBlk, FilesFit;
    Placed(files, s);
    StatCFile(files, s);
    var o := StatCSer(files, s, CHAR_C, now);
    NewFields(files, s.ctx);
    if s.ctx.named {
      SendNewKeeps(files, StatC, s.ctx, o.s.ctx);
    } else {
      LastStatKeeps(files, s.ctx, o.s.ctx);
    }
  }

  // --------------------------------------------- in the CAN state, cancels

  /** Behind a CAN byte another one ends the session with nothing sent; any other byte, or a timeout, brings the sender
      back unless a cancel is pending. */
  lemma CanReplies(files: seq<SrcFile>, s: Sender, c: byte, now: int)
    requires s.leaf == Can
    ensures var o := React(files, s, Ser(c), now);
            && (Ends(s, o, [], RcvCancelled) <==> c == 0x18)
            && (c != 0x18 && !s.ctx.kbCan ==>
                  o.sent == [] && o.s == s.(leaf := s.history, ctx := s.ctx.(absoluteTimeout := s.ctx.holdTimeout)))
            && (c != 0x18 && s.ctx.kbCan ==>
                  if c in {0x06, 0x15, 0x43} then Ends(s, o, [Cans], KbCancelled) else Ignores(s, o))
  {
    OneEnd(s, React(files, s, Ser(c), now));
    assert |s.ctx.result + [RcvCancelled]| > |s.ctx.result|;
  }

  /** With a cancel pending, what would be answered ends the session instead, except for the ACK of the empty stat block,
      a NAK past the bound, and a 'C' that has the first EOT repeated. */
  lemma RepliesOfCancelled(files: seq<SrcFile>, s: Sender, c: byte, now: int)
    requires Live(files, s) && s.leaf !in {Can, StatC} && s.ctx.kbCan
    ensures var o := React(files, s, Ser(c), now);
            var repeated := s.leaf == Eot1 && c == 0x43 && s.ctx.firstBlk && s.ctx.errCnt < 10;
            var ended := s.leaf == AckNakStat && c == 0x06 && !s.ctx.named;
            var bound := c == 0x15 && s.ctx.errCnt >= 10;
            && (ended <==> Ends(s, o, [], EndOfSession))
            && (bound <==> Ends(s, o, [Cans], ExcessiveNaks))
            && (c in {0x06, 0x15, 0x43} && !repeated && !ended && !bound <==> Ends(s, o, [Cans], KbCancelled))
            && (c == 0x18 <==> Detours(s, o, now))
            && (c !in {0x06, 0x15, 0x18, 0x43} <==> Ignores(s, o))
  {
    hide React, Live, NonCanSer, SendNew, PrepStat, LastBlk, CurrentBlk, Current, FilesFit;
    OneEnd(s, React(files, s, Ser(c), now));
    if !s.ctx.named {
      NoMoreFiles(files, s);
    }
    ByteRead(files, s, c, now);
    Placed(files, s);
    LeftOver(s, c, now);
  }

  lemma RepliesToTimeout(files: seq<SrcFile>, s: Sender, now: int)
    requires s.leaf != Final
    ensures var o := React(files, s, Tm, now);
            if s.leaf == Can && !s.ctx.kbCan then
              o.sent == [] && o.s == s.(leaf := s.history, ctx := s.ctx.(absoluteTimeout := s.ctx.holdTimeout))
            else Ends(s, o, [Cans], if s.ctx.kbCan then KbCancelled else Timeout)
  {
  }

  /** A first cancel takes 14.6 seconds off the time for which the sender waits; before a stat block it ends the session
      at once, and its phrase is all that the result then holds. */
  lemma RepliesToCancel(files: seq<SrcFile>, s: Sender, now: int)
    requires Live(files, s)
    ensures s.leaf == StatC && s.ctx.named ==> 0 < s.ctx.fileNameIndex <= |files|
    ensures var o := React(files, s, KbC, now);
            && o.sent == []
            && (s.leaf == StatC ==>
                  var opens := !s.ctx.named || Current(files, s.ctx).openable;
                  && o.s.leaf == Final && o.s.ctx.kbCan && o.s.ctx.fd < 0 && SamePlace(s.ctx, o.s.ctx)
                  && o.s.ctx.result == [if opens then KbCancelledFromStatC else KbCancelledOpenErr])
            && (s.leaf == Can ==> o.s == s.(ctx := s.ctx.(kbCan := true)))
            && (s.leaf !in {StatC, Can} && s.ctx.kbCan ==> Ignores(s, o))
            && (s.leaf !in {StatC, Can} && !s.ctx.kbCan ==>
                  o.s == s.(ctx := s.ctx.(kbCan := true, absoluteTimeout := s.ctx.absoluteTimeout - 14_600_000)))
  {
    hide Live, Current;
    if s.leaf == StatC {
      StatCFile(files, s);
    }
    Placed(files, s);
  }

  // ------------------------------------------------------------ runs of NAKs

  /** NAKs, one at each of these times. */
  function Naks(nows: seq<int>): (es: seq<(Event, int)>)
    ensures |es| == |nows|
  {
    seq(|nows|, i requires 0 <= i < |nows| => (Ser(NAK), nows[i]))
  }

  function Copies(item: Item, n: nat): (items: seq<Item>)
    ensures |items| == n
  {
    seq(n, _ => item)
  }

  /** `n` more errors have been counted, and nothing else but the time has changed. */
  ghost predicate Counted(files: seq<SrcFile>, s: Sender, t: Sender, n: nat)
  {
    Live(files, t) && t == s.(ctx := s.ctx.(errCnt := s.ctx.errCnt + n, absoluteTimeout := t.ctx.absoluteTimeout))
  }

  lemma RepeatsCounts(files: seq<SrcFile>, s: Sender, t: Sender, n: nat, o: Out, item: Item, now: int)
    requires Live(files, s) && Counted(files, s, t, n) && Repeats(t, o, item, t.leaf, now)
    requires s.leaf in {AckNakStat, AckNak, EotEot}
    ensures Counted(files, s, o.s, n + 1)
  {
    hide Shape, Holds;
    Carried(files, t.leaf, t.leaf, t.ctx, o.s.ctx);
  }

  lemma SameLast(files: seq<SrcFile>, s: Sender, t: Sender, n: nat)
    requires Counted(files, s, t, n) && t.ctx.k > 0 && FilesFit(files)
    requires t.ctx.named ==> 0 < t.ctx.fileNameIndex <= |files| && Current(files, t.ctx).openable
    ensures s.ctx.k > 0 && (s.ctx.named ==> 0 < s.ctx.fileNameIndex <= |files| && Current(files, s.ctx).openable)
    ensures LastSent(files, t) == LastSent(files, s)
  {
    hide Live, FilesFit;
  }

  lemma NakReply(files: seq<SrcFile>, s: Sender, now: int)
    requires Live(files, s) && s.leaf == AckNak && !s.ctx.kbCan
    ensures FilesFit(files) && s.ctx.k > 0 && s.ctx.named && 0 < s.ctx.fileNameIndex <= |files|
    ensures Current(files, s.ctx).openable
    ensures var o := React(files, s, Ser(NAK), now);
            if s.ctx.errCnt < 10 then Repeats(s, o, LastSent(files, s), AckNak, now)
            else Ends(s, o, [Cans], ExcessiveNaks)
  {
    hide Live, React, Current, FilesFit, Repeats, Ends, MovesOn, Detours, Ignores, LastSent;
    AckNakReplies(files, s, NAK, now);
  }

  lemma NakOfBlock(files: seq<SrcFile>, s: Sender, t: Sender, n: nat, now: int)
    requires Live(files, s) && s.leaf == AckNak && !s.ctx.kbCan && s.ctx.errCnt + n <= 10 && Counted(files, s, t, n)
    ensures FilesFit(files) && s.ctx.k > 0 && s.ctx.named && 0 < s.ctx.fileNameIndex <= |files|
    ensures Current(files, s.ctx).openable
    ensures var o := React(files, t, Ser(NAK), now);
            if s.ctx.errCnt + n < 10 then Counted(files, s, o.s, n + 1) && o.sent == [LastSent(files, s)]
            else o.s.leaf == Final && o.sent == [Cans] && o.s.ctx.result == s.ctx.result + [ExcessiveNaks]
  {
    hide Live, React, Current, FilesFit, LastSent;
    NakReply(files, t, now);
    SameLast(files, s, t, n);
    if s.ctx.errCnt + n < 10 {
      RepeatsCounts(files, s, t, n, React(files, t, Ser(NAK), now), LastSent(files, t), now);
    }
  }

  lemma StopsForGood(files: seq<SrcFile>, s: Sender, e: Event, now: int)
    requires s.leaf == Final
    ensures React(files, s, e, now) == Out(s, [])
  {
  }

  lemma LastNak(nows: seq<int>)
    requires nows != []
    ensures var n := |nows| - 1;
            Naks(nows)[..n] == Naks(nows[..n]) && Naks(nows)[n] == (Ser(NAK), nows[n])
  {
  }

  lemma OneMore(item: Item, n: nat)
    ensures Copies(item, n + 1) == Copies(item, n) + [item]
  {
  }

  /** However many NAKs come for a data block, the block goes out again once for each of them until ten have been counted
      since it first went out; the next NAK ends the session, and what comes behind it changes nothing. */
  lemma {:induction false} NaksOfBlock(files: seq<SrcFile>, s: Sender, nows: seq<int>)
    requires Live(files, s) && s.leaf == AckNak && !s.ctx.kbCan && s.ctx.errCnt <= 10
    ensures FilesFit(files) && s.ctx.k > 0 && s.ctx.named && 0 < s.ctx.fileNameIndex <= |files|
    ensures Current(files, s.ctx).openable
    ensures var t := Run(files, s, Naks(nows));
            var items := ItemsOf(files, s, Naks(nows));
            if |nows| <= 10 - s.ctx.errCnt then
              Counted(files, s, t, |nows|) && items == Copies(LastSent(files, s), |nows|)
            else
              && t.leaf == Final && t.ctx.result == s.ctx.result + [ExcessiveNaks]
              && items == Copies(LastSent(files, s), 10 - s.ctx.errCnt) + [Cans]
  {
    hide Live, React, Current, FilesFit, Copies, Naks, LastSent;
    if nows == [] {
      NakOfBlock(files, s, s, 0, 0);
    } else {
      var n := |nows| - 1;
      NaksOfBlock(files, s, nows[..n]);
      LastNak(nows);
      var t := Run(files, s, Naks(nows[..n]));
      if n <= 10 - s.ctx.errCnt {
        NakOfBlock(files, s, t, n, nows[n]);
        OneMore(LastSent(files, s), n);
      } else {
        StopsForGood(files, t, Ser(NAK), nows[n]);
      }
    }
  }

  /** The same for the second EOT of a file. */
  lemma {:induction false} NaksOfEot(files: seq<SrcFile>, s: Sender, nows: seq<int>)
    requires Live(files, s) && s.leaf == EotEot && !s.ctx.kbCan && s.ctx.errCnt <= 10
    ensures var t := Run(files, s, Naks(nows));
            var items := ItemsOf(files, s, Naks(nows));
            if |nows| <= 10 - s.ctx.errCnt then
              Counted(files, s, t, |nows|) && items == Copies(Eot, |nows|)
            else
              && t.leaf == Final && t.ctx.result == s.ctx.result + [ExcessiveNaks]
              && items == Copies(Eot, 10 - s.ctx.errCnt) + [Cans]
  {
    hide Live, React, Copies, Naks;
    if nows != [] {
      var n := |nows| - 1;
      NaksOfEot(files, s, nows[..n]);
      LastNak(nows);
      var t := Run(files, s, Naks(nows[..n]));
      if n > 10 - s.ctx.errCnt {
        StopsForGood(files, t, Ser(NAK), nows[n]);
      } else {
        EotEotReplies(files, t, NAK, nows[n]);
        OneMore(Eot, n);
        if n < 10 - s.ctx.errCnt {
          RepeatsCounts(files, s, t, n, React(files, t, Ser(NAK), nows[n]), Eot, nows[n]);
        }
      }
    }
  }

  /** A stat block is repeated for every NAK, without any bound. */
  lemma {:induction false} NaksOfStat(files: seq<SrcFile>, s: Sender, nows: seq<int>)
    requires Live(files, s) && s.leaf == AckNakStat && !s.ctx.kbCan
    ensures FilesFit(files) && s.ctx.k > 0
    ensures s.ctx.named ==> 0 < s.ctx.fileNameIndex <= |files| && Current(files, s.ctx).openable
    ensures var t := Run(files, s, Naks(nows));
            && Counted(files, s, t, |nows|)
            && ItemsOf(files, s, Naks(nows)) == Copies(LastSent(files, s), |nows|)
  {
    hide Live, React, Current, FilesFit, Copies, Naks;
    AckNakStatReplies(files, s, NAK, 0);
    if nows != [] {
      var n := |nows| - 1;
      NaksOfStat(files, s, nows[..n]);
      LastNak(nows);
      var t := Run(files, s, Naks(nows[..n]));
      AckNakStatReplies(files, t, NAK, nows[n]);
      SameLast(files, s, t, n);
      OneMore(LastSent(files, s), n);
      RepeatsCounts(files, s, t, n, React(files, t, Ser(NAK), nows[n]), LastSent(files, t), nows[n]);
    }
  }
}
