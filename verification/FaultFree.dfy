/** Total correctness on a line that neither loses nor damages anything. */
module FaultFree {
  import opened Bytes
  import opened Text
  import opened Blocks
  import opened Session
  import opened SenderSteps
  import opened ReceiverSteps
  import opened Link
  import opened LinkStages
  import opened ReceiverContext
  import SenderContext
  import S = SenderChart
  import R = ReceiverChart

  /** All files open and fit. */
  ghost predicate Sendable(files: seq<SrcFile>)
  {
    SenderContext.FilesFit(files) && forall i :: 0 <= i < |files| ==> files[i].openable
  }

  /** An act of a session in which nothing fails: a peer reads what has been sent to it, or the receiver's timer
      runs out while nothing is on the line. The sender's much longer timer and the user stay quiet. */
  predicate Faultless(y: Sys, a: Act)
  {
    match a
    case SenderReads(_) => true
    case ReceiverReads(env) => env.creatOk && env.closeRc == 0
    case ReceiverTimeout(env) => env.creatOk && env.closeRc == 0 && y.s2r == [] && y.r2s == []
    case _ => false
  }

  /** The first `n` files as the receiver creates them. */
  function Copies(files: seq<SrcFile>, n: nat): (outs: seq<OutFile>)
    requires n <= |files|
    ensures |outs| == n
  {
    seq(n, i requires 0 <= i < n => OutFile(files[i].name, files[i].content))
  }

  // -------------------------------------------------------------- stages

  /** Where a faultless session can be. */
  datatype Stage =
    | Offered | StatOut | StatAcked | Asked
    | BlkOut(k: nat) | BlkTaken(k: nat) | BlkAcked(k: nat)
    | EotOut | EotRefused | EotOutAgain | Closed
    | LastOffered | LastOut | LastAcked | SenderDone | Over

  ghost predicate SenderAt(files: seq<SrcFile>, s: S.Sender, leaf: S.Leaf, i: nat, k: nat)
  {
    && Live(files, s) && s.leaf == leaf && s.ctx.result == Dones(i) && !s.ctx.kbCan
    && s.ctx.named == (i < |files|) && s.ctx.fileNameIndex == (if i < |files| then i + 1 else i) && s.ctx.k == k
  }

  ghost predicate ReceiverWaits(files: seq<SrcFile>, r: R.Receiver, i: nat)
  {
    && Waiting(r) && Calm(r)
    && i <= |files| && r.ctx.result == Dones(i) && r.ctx.outs == Copies(files, i)
  }

  ghost predicate ReceiverHas(files: seq<SrcFile>, r: R.Receiver, leaf: R.Leaf, i: nat, j: nat)
  {
    && i < |files| && r.leaf == leaf && !r.ctx.kbCan && (leaf != R.EotData ==> Calm(r))
    && Receiving(r, files[i], j)
    && r.ctx.result == Dones(i) && r.ctx.outs[..r.ctx.fd] == Copies(files, i)
  }

  ghost predicate ReceiverEnds(files: seq<SrcFile>, r: R.Receiver)
  {
    && r.Valid() && r.leaf == R.AreWeDone && !r.ctx.kbCan
    && r.ctx.result == Dones(|files|) && r.ctx.outs == Copies(files, |files|)
  }

  ghost predicate IsOver(files: seq<SrcFile>, y: Sys)
  {
    && y.s.leaf == S.Final && y.s.ctx.result == Dones(|files|) + [EndOfSession]
    && y.r.leaf == R.Final && y.r.ctx.result == Dones(|files|) + [EndOfSession]
    && y.r.ctx.outs == Copies(files, |files|)
  }

  function BlocksOf(files: seq<SrcFile>, i: nat): nat
    requires i < |files|
  {
    BlockCount(files[i].content)
  }

  function TheBlk(files: seq<SrcFile>, i: nat, k: nat): Item
    requires i < |files| && SenderContext.FileFits(files[i])
  {
    Blk(SenderContext.Block(files[i], k))
  }

  /** With `i` files behind it, the system is at stage `g`. */
  ghost predicate At(files: seq<SrcFile>, i: nat, g: Stage, y: Sys)
    requires Sendable(files)
  {
    && (g in {LastOffered, LastOut, LastAcked, SenderDone, Over} <==> i >= |files|)
    && match g
       case Offered => SenderAt(files, y.s, S.StatC, i, 0) && ReceiverWaits(files, y.r, i) && y.s2r == [] && y.r2s == [CHAR_C]
       case StatOut => SenderAt(files, y.s, S.AckNakStat, i, 1) && ReceiverWaits(files, y.r, i)
                       && y.s2r == [TheBlk(files, i, 0)] && y.r2s == []
       case StatAcked => SenderAt(files, y.s, S.AckNakStat, i, 1) && ReceiverHas(files, y.r, R.FirstByteData, i, 0)
                         && y.s2r == [] && y.r2s == [ACK, CHAR_C]
       case Asked => SenderAt(files, y.s, S.One, i, 1) && ReceiverHas(files, y.r, R.FirstByteData, i, 0)
                     && y.s2r == [] && y.r2s == [CHAR_C]
       case BlkOut(k) => 0 < k <= BlocksOf(files, i)
                         && SenderAt(files, y.s, S.AckNak, i, k + 1) && ReceiverHas(files, y.r, R.FirstByteData, i, k - 1)
                         && y.s2r == [TheBlk(files, i, k)] && y.r2s == []
       case BlkTaken(k) => 0 < k <= BlocksOf(files, i)
                           && SenderAt(files, y.s, S.AckNak, i, k + 1) && ReceiverHas(files, y.r, R.TransientData, i, k)
                           && y.r.ctx.rx.goodBlk && y.r.ctx.anotherFile == 0 && y.s2r == [] && y.r2s == []
       case BlkAcked(k) => 0 < k <= BlocksOf(files, i)
                           && SenderAt(files, y.s, S.AckNak, i, k + 1) && ReceiverHas(files, y.r, R.FirstByteData, i, k)
                           && y.s2r == [] && y.r2s == [ACK]
       case EotOut => SenderAt(files, y.s, S.Eot1, i, BlocksOf(files, i) + 1)
                      && ReceiverHas(files, y.r, R.FirstByteData, i, BlocksOf(files, i)) && y.s2r == [Eot] && y.r2s == []
       case EotRefused => SenderAt(files, y.s, S.Eot1, i, BlocksOf(files, i) + 1)
                          && ReceiverHas(files, y.r, R.EotData, i, BlocksOf(files, i)) && y.s2r == [] && y.r2s == [NAK]
       case EotOutAgain => SenderAt(files, y.s, S.EotEot, i, BlocksOf(files, i) + 1)
                           && ReceiverHas(files, y.r, R.EotData, i, BlocksOf(files, i)) && y.s2r == [Eot] && y.r2s == []
       case Closed => SenderAt(files, y.s, S.EotEot, i, BlocksOf(files, i) + 1) && ReceiverWaits(files, y.r, i + 1)
                      && y.s2r == [] && y.r2s == [ACK, CHAR_C]
       case LastOffered => i == |files| && SenderAt(files, y.s, S.StatC, i, 0) && ReceiverWaits(files, y.r, i)
                           && y.s2r == [] && y.r2s == [CHAR_C]
       case LastOut => i == |files| && SenderAt(files, y.s, S.AckNakStat, i, 1) && ReceiverWaits(files, y.r, i)
                       && y.s2r == [Blk(EmptyStatBlk())] && y.r2s == []
       case LastAcked => i == |files| && SenderAt(files, y.s, S.AckNakStat, i, 1) && ReceiverEnds(files, y.r)
                         && y.s2r == [] && y.r2s == [ACK]
       case SenderDone => && i == |files| && y.s.leaf == S.Final && y.s.ctx.result == Dones(|files|) + [EndOfSession]
                          && ReceiverEnds(files, y.r) && y.s2r == [] && y.r2s == []
       case Over => i == |files| && IsOver(files, y) && y.s2r == [] && y.r2s == []
  }

  /** Where the session goes from a stage. */
  function Next(files: seq<SrcFile>, i: nat, g: Stage): (nat, Stage)
    requires i >= |files| ==> g in {LastOffered, LastOut, LastAcked, SenderDone, Over}
  {
    match g
    case Offered => (i, StatOut)
    case StatOut => (i, StatAcked)
    case StatAcked => (i, Asked)
    case Asked => if i < |files| && BlocksOf(files, i) > 0 then (i, BlkOut(1)) else (i, EotOut)
    case BlkOut(k) => (i, BlkTaken(k))
    case BlkTaken(k) => (i, BlkAcked(k))
    case BlkAcked(k) => if i < |files| && k < BlocksOf(files, i) then (i, BlkOut(k + 1)) else (i, EotOut)
    case EotOut => (i, EotRefused)
    case EotRefused => (i, EotOutAgain)
    case EotOutAgain => (i, Closed)
    case Closed => if i + 1 < |files| then (i + 1, Offered) else (i + 1, LastOffered)
    case LastOffered => (i, LastOut)
    case LastOut => (i, LastAcked)
    case LastAcked => (i, SenderDone)
    case SenderDone => (i, Over)
    case Over => (i, Over)
  }

  // ------------------------------------------------------------- sender

  /** What the sender does with the byte that it is waiting for. */
  lemma SenderProceeds(files: seq<SrcFile>, s: S.Sender, i: nat, now: int)
    requires Sendable(files) && Live(files, s) && !s.ctx.kbCan && s.ctx.result == Dones(i)
    ensures s.leaf == S.StatC ==>
              var o := S.React(files, s, S.Ser(CHAR_C), now);
              SentNext(files, s, o, S.AckNakStat) && o.s.ctx.result == Dones(i) && !o.s.ctx.kbCan
    ensures s.leaf == S.AckNakStat && s.ctx.named ==>
              var o := S.React(files, s, S.Ser(ACK), now);
              && Live(files, o.s) && o.s.leaf == S.One && SamePlace(s.ctx, o.s.ctx) && o.sent == []
              && o.s.ctx.result == Dones(i) && !o.s.ctx.kbCan
    ensures s.leaf == S.AckNakStat && !s.ctx.named ==>
              var o := S.React(files, s, S.Ser(ACK), now);
              o.s.leaf == S.Final && o.sent == [] && o.s.ctx.result == Dones(i) + [EndOfSession]
  {
    hide Shape, Holds, Ended, Idle, SenderContext.Block, EmptyStatBlk, SenderContext.SendNew, S.NonCanSer;
    if s.leaf == S.StatC {
      StatCHasFd(files, s);
      StatCReads(files, s, CHAR_C, now);
      SendNewKeepsRest(files, s.ctx);
      assert !Ended(s, S.React(files, s, S.Ser(CHAR_C), now)) && !Idle(files, s, S.React(files, s, S.Ser(CHAR_C), now)) by {
        NotIdle(files, s, S.React(files, s, S.Ser(CHAR_C), now));
      }
    } else if s.leaf == S.AckNakStat && s.ctx.named {
      AckNakStatReads(files, s, ACK, now);
      NotIdle(files, s, S.React(files, s, S.Ser(ACK), now));
    }
  }

  lemma NotIdle(files: seq<SrcFile>, s: S.Sender, o: S.Out)
    ensures o.s.leaf != S.Final ==> !Ended(s, o)
    ensures o.s.leaf != S.Can && s.leaf != S.Can && o.s.leaf != s.leaf ==> !Idle(files, s, o)
    ensures o.sent != [] ==> !Idle(files, s, o)
  {
  }

  lemma StatCHasFd(files: seq<SrcFile>, s: S.Sender)
    requires Sendable(files) && Live(files, s) && s.leaf == S.StatC
    ensures s.ctx.fd != -1
  {
    hide EmptyStatBlk, SenderContext.BuffersHold, SenderContext.FilesFit;
  }

  lemma SendNewKeepsRest(files: seq<SrcFile>, c: SenderContext.Ctx)
    ensures var d := SenderContext.SendNew(files, c);
            d.result == c.result && d.kbCan == c.kbCan
  {
  }

  /** The sender goes on with the next block, or with EOT behind the last one. */
  lemma OneGoesOn(files: seq<SrcFile>, s: S.Sender, i: nat, now: int)
    requires Sendable(files) && Live(files, s) && !s.ctx.kbCan && s.ctx.result == Dones(i) && s.leaf == S.One
    ensures s.ctx.named && 0 < s.ctx.fileNameIndex <= |files| && s.ctx.k > 0
    ensures var o := S.React(files, s, S.Ser(CHAR_C), now);
            && o.s.ctx.result == Dones(i) && !o.s.ctx.kbCan
            && if s.ctx.k - 1 < BlockCount(files[s.ctx.fileNameIndex - 1].content)
               then SentNext(files, s, o, S.AckNak) else SentEot(files, s, o, S.Eot1)
  {
    SentSoFar(files, s);
    hide Shape, Holds, Ended, Idle, SenderContext.Block, EmptyStatBlk, SenderContext.SendNew, S.NonCanSer, BlockCount;
    SendNewKeepsRest(files, s.ctx);
    NotIdle(files, s, S.React(files, s, S.Ser(CHAR_C), now));
    OneReads(files, s, CHAR_C, now);
  }

  lemma AckNakGoesOn(files: seq<SrcFile>, s: S.Sender, i: nat, now: int)
    requires Sendable(files) && Live(files, s) && !s.ctx.kbCan && s.ctx.result == Dones(i) && s.leaf == S.AckNak
    ensures s.ctx.named && 0 < s.ctx.fileNameIndex <= |files| && s.ctx.k > 0
    ensures var o := S.React(files, s, S.Ser(ACK), now);
            && o.s.ctx.result == Dones(i) && !o.s.ctx.kbCan
            && if s.ctx.k - 1 < BlockCount(files[s.ctx.fileNameIndex - 1].content)
               then SentNext(files, s, o, S.AckNak) else SentEot(files, s, o, S.Eot1)
  {
    SentSoFar(files, s);
    hide Shape, Holds, Ended, Idle, SenderContext.Block, EmptyStatBlk, SenderContext.SendNew, S.NonCanSer, BlockCount;
    SendNewKeepsRest(files, s.ctx);
    NotIdle(files, s, S.React(files, s, S.Ser(ACK), now));
    AckNakReads(files, s, ACK, now);
  }

  lemma SentSoFar(files: seq<SrcFile>, s: S.Sender)
    requires Live(files, s) && s.leaf in {S.One, S.AckNak}
    ensures s.ctx.named && 0 < s.ctx.fileNameIndex <= |files| && s.ctx.k > 0
    ensures s.ctx.bytesRd == 0 <==> s.ctx.k - 1 >= BlockCount(files[s.ctx.fileNameIndex - 1].content)
  {
    SenderContext.NothingLeft(files, s.ctx);
    hide SenderContext.BuffersHold, BlockCount, SenderContext.FilesFit;
  }

  lemma SenderEnds(files: seq<SrcFile>, s: S.Sender, i: nat, now: int)
    requires Sendable(files) && Live(files, s) && !s.ctx.kbCan && s.ctx.result == Dones(i)
    ensures s.leaf == S.Eot1 ==>
              var o := S.React(files, s, S.Ser(NAK), now);
              SentEot(files, s, o, S.EotEot) && o.s.ctx.result == Dones(i) && !o.s.ctx.kbCan
    ensures s.leaf == S.EotEot ==>
              var o := S.React(files, s, S.Ser(ACK), now);
              NextFile(files, s, o) && o.s.ctx.result == Dones(i + 1) && !o.s.ctx.kbCan
  {
    hide Shape, Holds, Ended, Idle, S.NonCanSer, SenderContext.PrepStat;
    if s.leaf == S.Eot1 {
      NotIdle(files, s, S.React(files, s, S.Ser(NAK), now));
      Eot1Reads(files, s, NAK, now);
    } else if s.leaf == S.EotEot {
      NotIdle(files, s, S.React(files, s, S.Ser(ACK), now));
      EotEotReads(files, s, ACK, now);
      PrepStatKeepsRest(files, s.ctx.Append(Done));
      assert Dones(i) + [Done] == Dones(i + 1);
    }
  }

  lemma PrepStatKeepsRest(files: seq<SrcFile>, c: SenderContext.Ctx)
    requires SenderContext.FilesFit(files)
    ensures var d := SenderContext.PrepStat(files, c);
            d.result == c.result && d.kbCan == c.kbCan
  {
  }

  lemma StatStage(files: seq<SrcFile>, i: nat, g: Stage, y: Sys, now: int)
    requires Sendable(files) && At(files, i, g, y) && (g == Offered || g == LastOffered)
    ensures y.s.leaf != S.Final && y.s2r == [] && y.r2s != []
    ensures var o := S.React(files, y.s, S.Ser(y.r2s[0]), now);
            var n := Next(files, i, g);
            At(files, n.0, n.1, SenderMoves(y, o, y.r2s[1..]))
  {
    hide Shape, Holds, ReceiverWaits, ReceiverHas, ReceiverEnds, SenderContext.Block, EmptyStatBlk, BlockCount, S.React;
    hide SenderContext.FilesFit, SenderContext.FileFits;
    LiveShape(files, y.s);
    SenderProceeds(files, y.s, i, now);
  }

  lemma StatAckedStage(files: seq<SrcFile>, i: nat, g: Stage, y: Sys, now: int)
    requires Sendable(files) && At(files, i, g, y) && (g == StatAcked || g == LastAcked)
    ensures y.s.leaf != S.Final && y.s2r == [] && y.r2s != []
    ensures var o := S.React(files, y.s, S.Ser(y.r2s[0]), now);
            var n := Next(files, i, g);
            At(files, n.0, n.1, SenderMoves(y, o, y.r2s[1..]))
  {
    hide Shape, Holds, ReceiverWaits, ReceiverHas, ReceiverEnds, SenderContext.Block, EmptyStatBlk, BlockCount, S.React;
    hide SenderContext.FilesFit, SenderContext.FileFits;
    LiveShape(files, y.s);
    SenderProceeds(files, y.s, i, now);
  }

  lemma AskedStage(files: seq<SrcFile>, i: nat, g: Stage, y: Sys, now: int)
    requires Sendable(files) && At(files, i, g, y) && g == Asked
    ensures y.s.leaf != S.Final && y.s2r == [] && y.r2s != []
    ensures var o := S.React(files, y.s, S.Ser(y.r2s[0]), now);
            var n := Next(files, i, g);
            At(files, n.0, n.1, SenderMoves(y, o, y.r2s[1..]))
  {
    hide Shape, Holds, ReceiverWaits, ReceiverHas, ReceiverEnds, SenderContext.Block, EmptyStatBlk, BlockCount, S.React;
    hide SenderContext.FilesFit, SenderContext.FileFits;
    LiveShape(files, y.s);
    OneGoesOn(files, y.s, i, now);
  }

  lemma BlkAckedStage(files: seq<SrcFile>, i: nat, g: Stage, y: Sys, now: int)
    requires Sendable(files) && At(files, i, g, y) && g.BlkAcked?
    ensures y.s.leaf != S.Final && y.s2r == [] && y.r2s != []
    ensures var o := S.React(files, y.s, S.Ser(y.r2s[0]), now);
            var n := Next(files, i, g);
            At(files, n.0, n.1, SenderMoves(y, o, y.r2s[1..]))
  {
    hide Shape, Holds, ReceiverWaits, ReceiverHas, ReceiverEnds, SenderContext.Block, EmptyStatBlk, BlockCount, S.React;
    hide SenderContext.FilesFit, SenderContext.FileFits;
    LiveShape(files, y.s);
    AckNakGoesOn(files, y.s, i, now);
  }

  lemma RefusedStage(files: seq<SrcFile>, i: nat, g: Stage, y: Sys, now: int)
    requires Sendable(files) && At(files, i, g, y) && g == EotRefused
    ensures y.s.leaf != S.Final && y.s2r == [] && y.r2s != []
    ensures var o := S.React(files, y.s, S.Ser(y.r2s[0]), now);
            var n := Next(files, i, g);
            At(files, n.0, n.1, SenderMoves(y, o, y.r2s[1..]))
  {
    hide Shape, Holds, ReceiverWaits, ReceiverHas, ReceiverEnds, SenderContext.Block, EmptyStatBlk, BlockCount, S.React;
    hide SenderContext.FilesFit, SenderContext.FileFits;
    LiveShape(files, y.s);
    SenderEnds(files, y.s, i, now);
  }

  lemma ClosedStage(files: seq<SrcFile>, i: nat, g: Stage, y: Sys, now: int)
    requires Sendable(files) && At(files, i, g, y) && g == Closed
    ensures y.s.leaf != S.Final && y.s2r == [] && y.r2s != []
    ensures var o := S.React(files, y.s, S.Ser(y.r2s[0]), now);
            var n := Next(files, i, g);
            At(files, n.0, n.1, SenderMoves(y, o, y.r2s[1..]))
  {
    hide Shape, Holds, ReceiverWaits, ReceiverHas, ReceiverEnds, SenderContext.Block, EmptyStatBlk, BlockCount, S.React;
    hide SenderContext.FilesFit, SenderContext.FileFits;
    LiveShape(files, y.s);
    SenderEnds(files, y.s, i, now);
    StatCShape(files, S.React(files, y.s, S.Ser(y.r2s[0]), now).s);
  }

  /** The next stage, once the sender has read what it was waiting for. */
  lemma SenderStage(files: seq<SrcFile>, i: nat, g: Stage, y: Sys, now: int)
    requires Sendable(files) && At(files, i, g, y) && y.r2s != []
    ensures y.s.leaf != S.Final && y.s2r == [] && y.r2s != []
    ensures var o := S.React(files, y.s, S.Ser(y.r2s[0]), now);
            var n := Next(files, i, g);
            At(files, n.0, n.1, SenderMoves(y, o, y.r2s[1..]))
  {
    hide At, S.React;
    ReplyStages(files, i, g, y);
    match g {
      case Offered => StatStage(files, i, g, y, now);
      case LastOffered => StatStage(files, i, g, y, now);
      case StatAcked => StatAckedStage(files, i, g, y, now);
      case LastAcked => StatAckedStage(files, i, g, y, now);
      case Asked => AskedStage(files, i, g, y, now);
      case BlkAcked(_) => BlkAckedStage(files, i, g, y, now);
      case EotRefused => RefusedStage(files, i, g, y, now);
      case Closed => ClosedStage(files, i, g, y, now);
      case _ =>
    }
  }

  /** At every stage exactly one peer has something to read, except where a timeout is due. */
  lemma ReplyStages(files: seq<SrcFile>, i: nat, g: Stage, y: Sys)
    requires Sendable(files) && At(files, i, g, y)
    ensures SenderContext.FilesFit(files) && (i >= |files| ==> g in {LastOffered, LastOut, LastAcked, SenderDone, Over})
    ensures y.r2s != [] <==> g in {Offered, LastOffered, StatAcked, LastAcked, Asked, EotRefused, Closed} || g.BlkAcked?
    ensures y.s2r != [] <==> g in {StatOut, EotOut, EotOutAgain, LastOut} || g.BlkOut?
    ensures y.r2s == [] || y.s2r == []
  {
    hide Live, ReceiverWaits, ReceiverHas, ReceiverEnds, BlockCount, SenderAt;
  }

  lemma StatCShape(files: seq<SrcFile>, s: S.Sender)
    requires Live(files, s) && s.leaf == S.StatC
    ensures s.ctx.k == 0
  {
    hide Holds, SenderContext.FilesFit;
  }

  // ------------------------------------------------------------ receiver

  /** What the receiver does with the item that it is waiting for. */
  lemma StatArrives(files: seq<SrcFile>, r: R.Receiver, i: nat, env: Env)
    requires Sendable(files) && i < |files| && ReceiverWaits(files, r, i) && env.creatOk
    ensures var o := Takes(r, TheBlk(files, i, 0), env);
            ReceiverHas(files, o.r, R.FirstByteData, i, 0) && o.sent == [ACK, CHAR_C]
  {
    hide R.React, Receiving, Waiting, DoneCount, SenderContext.FileFits, BlockCount, Frame, StatPayload;
    StartsWithSoh(files[i], 0);
    WaitingLeaf(r);
    WaitingStat(r, files[i], env);
    hide StatBlk;
    var o := Takes(r, TheBlk(files, i, 0), env);
    DataLeaf(o.r, files[i], 0);
  }

  lemma BlkArrives(files: seq<SrcFile>, r: R.Receiver, i: nat, k: nat, env: Env)
    requires Sendable(files) && i < |files| && 0 < k <= BlocksOf(files, i)
    requires ReceiverHas(files, r, R.FirstByteData, i, k - 1)
    ensures r.Valid()
    ensures var o := Takes(r, TheBlk(files, i, k), env);
            && ReceiverHas(files, o.r, R.TransientData, i, k) && o.sent == []
            && o.r.ctx.rx.goodBlk && o.r.ctx.anotherFile == 0
  {
    hide R.React, Receiving, DoneCount, SenderContext.FileFits, BlockCount;
    StartsWithSoh(files[i], k);
    DataLeaf(r, files[i], k - 1);
    hide SenderContext.Block;
    ReceivingBlk(r, files[i], k - 1, k, env);
    var o := Takes(r, TheBlk(files, i, k), env);
    DataLeaf(o.r, files[i], k);
  }

  lemma ReplyDue(files: seq<SrcFile>, r: R.Receiver, i: nat, k: nat, env: Env)
    requires ReceiverHas(files, r, R.TransientData, i, k) && r.ctx.rx.goodBlk && r.ctx.anotherFile == 0
    ensures r.Valid()
    ensures var o := R.React(r, R.Tm, env);
            ReceiverHas(files, o.r, R.FirstByteData, i, k) && o.sent == [ACK]
  {
    hide R.React, Receiving, DoneCount, BlockCount;
    DataLeaf(r, files[i], k);
    ReceivingReplies(r, files[i], k, env);
    DataLeaf(R.React(r, R.Tm, env).r, files[i], k);
  }

  lemma EotArrives(files: seq<SrcFile>, r: R.Receiver, i: nat, n: nat, env: Env)
    requires ReceiverHas(files, r, R.FirstByteData, i, n)
    ensures r.Valid()
    ensures var o := Takes(r, Eot, env);
            ReceiverHas(files, o.r, R.EotData, i, n) && o.sent == [NAK]
  {
    hide R.React, Receiving, DoneCount, BlockCount;
    DataLeaf(r, files[i], n);
    ReceivingEot(r, files[i], n, env);
    var o := Takes(r, Eot, env);
    assert !Waiting(o.r);
    DataLeaf(o.r, files[i], n);
  }

  lemma EotArrivesAgain(files: seq<SrcFile>, r: R.Receiver, i: nat, env: Env)
    requires i < |files| && ReceiverHas(files, r, R.EotData, i, BlocksOf(files, i)) && env.closeRc == 0
    ensures r.Valid()
    ensures var o := Takes(r, Eot, env);
            ReceiverWaits(files, o.r, i + 1) && o.sent == [ACK, CHAR_C]
  {
    var n := BlocksOf(files, i);
    DataLeaf(r, files[i], n);
    DataWritten(r, files[i], n);
    SizesAddUp(r.ctx, files[i].content, n);
    hide R.React, Receiving, DoneCount, BlockCount, WrittenAfter, HasWritten;
    ReceivingEot(r, files[i], n, env);
    var o := Takes(r, Eot, env);
    WaitingOrReceiving(o.r, files[i], n);
    WaitingLeaf(o.r);
    assert r.ctx.outs == r.ctx.outs[..r.ctx.fd] + [r.ctx.outs[r.ctx.fd]];
    assert Copies(files, i + 1) == Copies(files, i) + [OutFile(files[i].name, files[i].content)];
    assert Dones(i + 1) == Dones(i) + [Done];
    FdIsCount(files, r, i, n);
  }

  lemma FdIsCount(files: seq<SrcFile>, r: R.Receiver, i: nat, n: nat)
    requires i < |files| && Receiving(r, files[i], n) && r.ctx.outs[..r.ctx.fd] == Copies(files, i)
    ensures r.ctx.fd == i && |r.ctx.outs| == i + 1
  {
    hide DoneCount, BlockCount, HasWritten, Copies;
    assert |r.ctx.outs[..r.ctx.fd]| == i;
  }

  lemma EndArrives(files: seq<SrcFile>, r: R.Receiver, env: Env)
    requires ReceiverWaits(files, r, |files|)
    ensures r.Valid()
    ensures var o := Takes(r, Blk(EmptyStatBlk()), env);
            ReceiverEnds(files, o.r) && o.sent == [ACK]
  {
    WaitingEnds(r);
    hide R.React, DoneCount, Waiting;
    EndingBlk(r, env);
    assert EmptyStatBlk()[0] == SOH;
    hide EmptyStatBlk;
  }

  lemma WaitingEnds(r: R.Receiver)
    requires Waiting(r)
    ensures r.Valid() && Ending(r)
  {
    hide DoneCount;
  }

  lemma SessionEnds(files: seq<SrcFile>, r: R.Receiver, env: Env)
    requires ReceiverEnds(files, r)
    ensures var o := R.React(r, R.Tm, env);
            && o.r.leaf == R.Final && o.r.ctx.result == Dones(|files|) + [EndOfSession] && o.sent == []
            && o.r.ctx.outs == Copies(files, |files|)
  {
    hide R.OnSer, R.OnKb, Copies, Dones;
  }

  /** The next stage, once the receiver has read what it was waiting for. */
  lemma ReceiverStage(files: seq<SrcFile>, i: nat, g: Stage, y: Sys, env: Env)
    requires Sendable(files) && At(files, i, g, y) && y.s2r != [] && env.creatOk && env.closeRc == 0
    ensures y.r.Valid() && Whole(y.s2r[0])
    ensures var n := Next(files, i, g);
            At(files, n.0, n.1, ReceiverMoves(y, Takes(y.r, y.s2r[0], env), []))
  {
    hide SenderAt, ReceiverWaits, ReceiverHas, ReceiverEnds, SenderContext.Block, EmptyStatBlk, BlockCount, Takes;
    hide SenderContext.FilesFit, SenderContext.FileFits;
    match g {
      case StatOut =>
        WaitsValid(files, y.r, i);
        StatArrives(files, y.r, i, env);
      case BlkOut(k) => BlkArrives(files, y.r, i, k, env);
      case EotOut => EotArrives(files, y.r, i, BlocksOf(files, i), env);
      case EotOutAgain => EotArrivesAgain(files, y.r, i, env);
      case LastOut =>
        WaitsValid(files, y.r, i);
        EndArrives(files, y.r, env);
      case _ =>
    }
  }

  lemma WaitsValid(files: seq<SrcFile>, r: R.Receiver, i: nat)
    requires ReceiverWaits(files, r, i)
    ensures r.Valid()
  {
  }

  // ------------------------------------------------------------- theorem

  /** How many acts a session still takes when the next file is number `i`: eight for each file and three for
      each of its data blocks, and four for the end. */
  function ActsFrom(files: seq<SrcFile>, i: nat): (n: nat)
    ensures n >= 4
    decreases |files| - i
  {
    if i < |files| then 8 + 3 * BlocksOf(files, i) + ActsFrom(files, i + 1) else 4
  }

  function Remaining(files: seq<SrcFile>, i: nat, g: Stage): int
  {
    var n := if i < |files| then BlocksOf(files, i) else 0;
    var rest := ActsFrom(files, i + 1);
    match g
    case Offered => 8 + 3 * n + rest
    case StatOut => 7 + 3 * n + rest
    case StatAcked => 6 + 3 * n + rest
    case Asked => 5 + 3 * n + rest
    case BlkOut(k) => 7 + 3 * (n - k) + rest
    case BlkTaken(k) => 6 + 3 * (n - k) + rest
    case BlkAcked(k) => 5 + 3 * (n - k) + rest
    case EotOut => 4 + rest
    case EotRefused => 3 + rest
    case EotOutAgain => 2 + rest
    case Closed => 1 + rest
    case LastOffered => 4
    case LastOut => 3
    case LastAcked => 2
    case SenderDone => 1
    case Over => 0
  }

  lemma BlkInRange(files: seq<SrcFile>, i: nat, g: Stage, y: Sys)
    requires Sendable(files) && At(files, i, g, y)
    ensures i >= |files| <==> g in {LastOffered, LastOut, LastAcked, SenderDone, Over}
    ensures g.BlkOut? || g.BlkTaken? || g.BlkAcked? ==> 0 < g.k <= BlocksOf(files, i)
  {
    hide SenderAt, ReceiverWaits, ReceiverHas, ReceiverEnds, BlockCount;
  }

  lemma NextIsNearer(files: seq<SrcFile>, i: nat, g: Stage, y: Sys)
    requires Sendable(files) && At(files, i, g, y) && g != Over
    ensures i >= |files| ==> g in {LastOffered, LastOut, LastAcked, SenderDone, Over}
    ensures var n := Next(files, i, g);
            0 < Remaining(files, i, g) == Remaining(files, n.0, n.1) + 1
  {
    BlkInRange(files, i, g, y);
    OneLess(files, i, g);
    hide At, Next, Remaining;
  }

  lemma OneLess(files: seq<SrcFile>, i: nat, g: Stage)
    requires i >= |files| <==> g in {LastOffered, LastOut, LastAcked, SenderDone, Over}
    requires g.BlkOut? || g.BlkTaken? || g.BlkAcked? ==> 0 < g.k <= BlocksOf(files, i)
    requires g != Over
    ensures var n := Next(files, i, g);
            0 < Remaining(files, i, g) == Remaining(files, n.0, n.1) + 1
  {
    hide BlocksOf;
    if g == Closed {
      hide BlockCount;
      assert ActsFrom(files, i + 1) == Remaining(files, i + 1, if i + 1 < |files| then Offered else LastOffered);
    } else {
      hide ActsFrom;
    }
  }

  /** Every faultless act takes the session to its next stage, and what the receiver reads is all that is on the
      line, so that a purge finds nothing there. */
  lemma FaultlessStep(files: seq<SrcFile>, i: nat, g: Stage, y: Sys, a: Act)
    requires Sendable(files) && At(files, i, g, y) && Faultless(y, a) && Enabled(files, y, a)
    ensures g != Over && (i >= |files| ==> g in {LastOffered, LastOut, LastAcked, SenderDone, Over})
    ensures var n := Next(files, i, g);
            At(files, n.0, n.1, Do(files, y, a)) && (a.ReceiverReads? ==> |y.s2r| == 1)
  {
    hide At, S.React, Takes;
    ReplyStages(files, i, g, y);
    match a {
      case SenderReads(now) => SenderStage(files, i, g, y, now);
      case ReceiverReads(env) =>
        ReceiverStage(files, i, g, y, env);
        OneItem(files, i, g, y);
      case ReceiverTimeout(env) => TimeoutStage(files, i, g, y, env);
      case _ =>
    }
  }

  lemma OneItem(files: seq<SrcFile>, i: nat, g: Stage, y: Sys)
    requires Sendable(files) && At(files, i, g, y) && y.s2r != []
    ensures y.s2r[1..] == [] && g != Over
  {
    hide SenderAt, ReceiverWaits, ReceiverHas, ReceiverEnds, BlockCount, TheBlk, EmptyStatBlk;
  }

  lemma TimeoutStage(files: seq<SrcFile>, i: nat, g: Stage, y: Sys, env: Env)
    requires Sendable(files) && At(files, i, g, y) && y.s2r == [] && y.r2s == []
    requires y.r.Valid() && !y.r.leaf.IsOver()
    ensures g != Over && (i >= |files| ==> g in {LastOffered, LastOut, LastAcked, SenderDone, Over})
    ensures var n := Next(files, i, g);
            At(files, n.0, n.1, ReceiverMoves(y, R.React(y.r, R.Tm, env), y.s2r))
  {
    hide SenderAt, ReceiverWaits, ReceiverHas, ReceiverEnds, SenderContext.Block, EmptyStatBlk, BlockCount, R.React;
    hide SenderContext.FilesFit, SenderContext.FileFits;
    match g {
      case BlkTaken(k) => ReplyDue(files, y.r, i, k, env);
      case SenderDone => SessionEnds(files, y.r, env);
      case _ =>
    }
  }

  /** Until the session is over, something can happen. */
  lemma SomethingToDo(files: seq<SrcFile>, i: nat, g: Stage, y: Sys)
    requires Sendable(files) && At(files, i, g, y) && g != Over
    ensures exists a :: Faultless(y, a) && Enabled(files, y, a)
  {
    hide At, S.React, R.React;
    ReplyStages(files, i, g, y);
    var good := Env(true, 0);
    ReceiverAlive(files, i, g, y);
    if y.r2s != [] {
      SenderStage(files, i, g, y, 0);
      assert Enabled(files, y, SenderReads(0));
      assert Faultless(y, SenderReads(0));
    } else if y.s2r != [] {
      ReceiverStage(files, i, g, y, good);
      assert Faultless(y, ReceiverReads(good)) && Enabled(files, y, ReceiverReads(good));
    } else {
      assert Faultless(y, ReceiverTimeout(good)) && Enabled(files, y, ReceiverTimeout(good));
    }
  }

  lemma ReceiverAlive(files: seq<SrcFile>, i: nat, g: Stage, y: Sys)
    requires Sendable(files) && At(files, i, g, y) && g != Over
    ensures y.r.Valid() && !y.r.leaf.IsOver()
  {
    hide SenderAt, Calm, Copies, Completed, HasWritten, SenderContext.Block, EmptyStatBlk, BlockCount;
    hide SenderContext.FilesFit, SenderContext.FileFits;
  }

  /** A run of faultless acts, each of which can happen when its turn comes. */
  ghost predicate FaultlessRun(files: seq<SrcFile>, y: Sys, acts: seq<Act>)
  {
    acts != [] ==>
      var n := |acts| - 1;
      var z := Run(files, y, acts[..n]);
      FaultlessRun(files, y, acts[..n]) && Faultless(z, acts[n]) && Enabled(files, z, acts[n])
  }

  function FirstStage(files: seq<SrcFile>): Stage
  {
    if files == [] then LastOffered else Offered
  }

  lemma StartsAtFirstStage(files: seq<SrcFile>, now: int)
    requires Sendable(files)
    ensures At(files, 0, FirstStage(files), Init(files, now))
  {
    hide SenderAt, ReceiverWaits, S.Start, R.Start;
    SenderStarts(files, now);
    ReceiverStarts(files);
  }

  lemma SenderStarts(files: seq<SrcFile>, now: int)
    requires Sendable(files)
    ensures SenderAt(files, S.Start(files, now), S.StatC, 0, 0)
  {
    hide SenderContext.PrepStat, Live;
    PrepStatLive(files, S.Start(files, now), SenderContext.InitialCtx(), now);
    PrepStatKeepsRest(files, SenderContext.InitialCtx());
    StatCShape(files, S.Start(files, now));
  }

  lemma ReceiverStarts(files: seq<SrcFile>)
    ensures ReceiverWaits(files, R.Start().r, 0) && R.Start().sent == [CHAR_C]
  {
  }

  /** The stage that a run has reached follows from its length alone. */
  lemma {:induction false} StageOfRun(files: seq<SrcFile>, now: int, acts: seq<Act>) returns (i: nat, g: Stage)
    requires Sendable(files) && FaultlessRun(files, Init(files, now), acts)
    ensures At(files, i, g, Run(files, Init(files, now), acts))
    ensures Remaining(files, i, g) == ActsFrom(files, 0) - |acts|
  {
    hide At, Do, Enabled, Faultless, Init;
    if acts == [] {
      StartsAtFirstStage(files, now);
      i, g := 0, FirstStage(files);
    } else {
      var n := |acts| - 1;
      var z := Run(files, Init(files, now), acts[..n]);
      i, g := StageOfRun(files, now, acts[..n]);
      FaultlessStep(files, i, g, z, acts[n]);
      NextIsNearer(files, i, g, z);
      var m := Next(files, i, g);
      i, g := m.0, m.1;
    }
  }

  lemma RemainingIsZero(files: seq<SrcFile>, i: nat, g: Stage, y: Sys)
    requires Sendable(files) && At(files, i, g, y)
    ensures Remaining(files, i, g) >= 0
    ensures Remaining(files, i, g) == 0 <==> g == Over
    ensures g == Over ==> IsOver(files, y)
  {
    BlkInRange(files, i, g, y);
    hide SenderAt, ReceiverWaits, ReceiverHas, ReceiverEnds, IsOver, BlockCount, ActsFrom;
  }

  /** Total correctness: for every list of files that open, empty ones and ones of more than 255 blocks included,
      no session without faults can get stuck before it has made exactly `ActsFrom(files, 0)` acts, and then both
      peers have stopped, both have reported one "Done, " for each file and "EndOfSession", and the receiver has
      created the sender's files. */
  lemma TotalCorrectness(files: seq<SrcFile>, now: int, acts: seq<Act>)
    requires Sendable(files) && FaultlessRun(files, Init(files, now), acts)
    ensures |acts| <= ActsFrom(files, 0)
    ensures |acts| < ActsFrom(files, 0) ==>
              var y := Run(files, Init(files, now), acts);
              exists a :: Faultless(y, a) && Enabled(files, y, a)
    ensures |acts| == ActsFrom(files, 0) ==> IsOver(files, Run(files, Init(files, now), acts))
  {
    hide At, Run, Init, IsOver, ActsFrom, Remaining, Faultless, Enabled;
    var i, g := StageOfRun(files, now, acts);
    var y := Run(files, Init(files, now), acts);
    RemainingIsZero(files, i, g, y);
    if g != Over {
      SomethingToDo(files, i, g, y);
    }
  }

  /** The result strings of both peers, once the session is over. */
  lemma FinalResults(files: seq<SrcFile>, y: Sys)
    requires IsOver(files, y)
    ensures ResultText(y.s.ctx.result) == ResultText(y.r.ctx.result) == Repeated("Done, ", |files|) + "EndOfSession"
  {
    FinalText(|files|);
    hide ResultText, Repeated, Dones, Copies;
  }

  // ----------------------------------------------------------- directory

  /** The receiver's directory: creating a file again replaces it. */
  function Directory(outs: seq<OutFile>): map<Data, Data>
  {
    if outs == [] then map[]
    else
      var f := outs[|outs| - 1];
      Directory(outs[..|outs| - 1])[f.name := f.data]
  }

  /** With different base names, the directory ends up holding exactly the sender's files. */
  lemma {:induction false} DirectoryHolds(files: seq<SrcFile>, n: nat)
    requires n <= |files| && forall i, j :: 0 <= i < j < |files| ==> files[i].name != files[j].name
    ensures var d := Directory(Copies(files, n));
            && (forall i :: 0 <= i < n ==> files[i].name in d && d[files[i].name] == files[i].content)
            && |d| == n
  {
    var outs := Copies(files, n);
    if n > 0 {
      DirectoryHolds(files, n - 1);
      assert outs[..n - 1] == Copies(files, n - 1);
      OnlyNames(files, n - 1);
      hide Copies;
      AddedFile(Directory(Copies(files, n - 1)), files, n - 1);
    }
  }

  lemma AddedFile(d: map<Data, Data>, files: seq<SrcFile>, n: nat)
    requires n < |files| && forall i, j :: 0 <= i < j < |files| ==> files[i].name != files[j].name
    requires forall x :: x in d ==> exists i :: 0 <= i < n && files[i].name == x
    requires (forall i :: 0 <= i < n ==> files[i].name in d && d[files[i].name] == files[i].content) && |d| == n
    ensures var d' := d[files[n].name := files[n].content];
            (forall i :: 0 <= i <= n ==> files[i].name in d' && d'[files[i].name] == files[i].content) && |d'| == n + 1
  {
    assert files[n].name !in d;
  }

  lemma {:induction false} OnlyNames(files: seq<SrcFile>, n: nat)
    requires n <= |files|
    ensures forall x :: x in Directory(Copies(files, n)) ==> exists i :: 0 <= i < n && files[i].name == x
  {
    if n > 0 {
      OnlyNames(files, n - 1);
      assert Copies(files, n)[..n - 1] == Copies(files, n - 1);
    }
  }
}
