/** 8-bit block numbers suffice: the data phase on a line that may invent ACKs, as long as every block that is
    sent is at least shown to the receiver. */
module UnsolicitedAck {
  import opened Bytes
  import opened Text
  import opened Blocks
  import opened Session
  import opened SenderSteps
  import opened ReceiverSteps
  import opened ReceiverBounds
  import opened Link
  import opened LinkStages
  import opened ReceiverContext
  import opened LinkReports
  import L = Link
  import C = ReceiverContext
  import LinkSafety
  import SenderContext
  import S = SenderChart
  import R = ReceiverChart

  /** What can happen in the data phase of a file. A block reaches the receiver as it is, or in a form that
      `getRestBlk` rejects; replies get lost, and any byte at all, an ACK too, can reach the sender. */
  datatype Act =
    | SenderReads(now: int)
    | SenderTimeout(now: int)
    | SenderCancel(now: int)
    | Shown(env: Env)
    | ShownDamaged(rest: Data, env: Env)
    | ReceiverGlitch(c: byte, rest: Data, env: Env)
    | ReceiverTimeout(env: Env)
    | ReceiverCancel(env: Env)
    | LoseItem(i: nat)
    | LoseReply(i: nat)
    | InjectReply(i: nat, c: byte)

  /** A block is shown only while no reply is due, because the receiver would discard it unseen; for the same
      reason there is noise only when no block is on the line. */
  ghost predicate Enabled(files: seq<SrcFile>, y: Sys, a: Act)
  {
    SenderContext.FilesFit(files) && y.r.Valid() && y.phase == S.AckNak &&
    match a
    case SenderReads(now) =>
      && y.s.leaf != S.Final && y.r2s != []
      && (SendsBlk(S.React(files, y.s, S.Ser(y.r2s[0]), now)) ==> y.s2r == [])
    case SenderTimeout(_) => y.s.leaf != S.Final
    case SenderCancel(_) => y.s.leaf != S.Final
    case Shown(_) => !y.r.leaf.IsOver() && y.r.leaf != R.TransientData && y.s2r != [] && Whole(y.s2r[0])
    case ShownDamaged(rest, _) =>
      && !y.r.leaf.IsOver() && y.r.leaf != R.TransientData && y.s2r != [] && y.s2r[0].Blk?
      && |rest| < BUF_SZ && Rejected(y.r.ctx.rx, y.r.ctx.fd != -1, rest)
    case ReceiverGlitch(c, rest, _) => !y.r.leaf.IsOver() && y.s2r == [] && IsNoise(y.r, c, rest)
    case ReceiverTimeout(_) => !y.r.leaf.IsOver()
    case ReceiverCancel(_) => !y.r.leaf.IsOver()
    case LoseItem(i) => i < |y.s2r| && !y.s2r[i].Blk?
    case LoseReply(i) => i < |y.r2s|
    case InjectReply(i, _) => i <= |y.r2s|
  }

  ghost function Do(files: seq<SrcFile>, y: Sys, a: Act): Sys
    requires Enabled(files, y, a)
  {
    match a
    case SenderReads(now) => SenderMoves(y, S.React(files, y.s, S.Ser(y.r2s[0]), now), y.r2s[1..])
    case SenderTimeout(now) => SenderMoves(y, S.React(files, y.s, S.Tm, now), y.r2s)
    case SenderCancel(now) => SenderMoves(y, S.React(files, y.s, S.KbC, now), y.r2s)
    case Shown(env) => ReceiverMoves(y, Takes(y.r, y.s2r[0], env), y.s2r[1..])
    case ShownDamaged(rest, env) => ReceiverMoves(y, R.React(y.r, R.Ser(SOH, rest), env), y.s2r[1..])
    case ReceiverGlitch(c, rest, env) => ReceiverMoves(y, R.React(y.r, R.Ser(c, rest), env), y.s2r)
    case ReceiverTimeout(env) => ReceiverMoves(y, R.React(y.r, R.Tm, env), y.s2r)
    case ReceiverCancel(env) => ReceiverMoves(y, R.React(y.r, R.KbC, env), y.s2r)
    case LoseItem(i) => y.(s2r := y.s2r[..i] + y.s2r[i + 1..])
    case LoseReply(i) => y.(r2s := y.r2s[..i] + y.r2s[i + 1..])
    case InjectReply(i, c) => y.(r2s := y.r2s[..i] + [c] + y.r2s[i..])
  }

  /** Acts that cannot happen, and those after the data phase, are skipped. */
  ghost function Run(files: seq<SrcFile>, y: Sys, acts: seq<Act>): Sys
  {
    if acts == [] then y
    else
      var z := Run(files, y, acts[..|acts| - 1]);
      var a := acts[|acts| - 1];
      if Enabled(files, z, a) then Do(files, z, a) else z
  }

  // ----------------------------------------------------------- invariant

  /** How many blocks are on the line and have not been shown yet. */
  function Unseen(s2r: seq<Item>): nat
  {
    if s2r != [] && s2r[0].Blk? then 1 else 0
  }

  /** The receiver has taken the data blocks up to `j`; the last one sent is `i`. Every block that `i` is ahead
      has been counted as an error, or is still on the line. */
  ghost predicate Ahead(f: SrcFile, r: R.Receiver, j: nat, i: nat, s2r: seq<Item>)
  {
    && Receiving(r, f, j) && r.leaf != R.EotData
    && j <= i <= j + r.ctx.errCnt + Unseen(s2r)
  }

  /** The receiver has found a wrong number; the timeout that is due ends the session. */
  ghost predicate OutOfStep(r: R.Receiver)
  {
    r.leaf == R.TransientData && r.ctx.rx.syncLoss && !r.ctx.rx.goodBlk
  }

  /** The number of the last block that the sender has sent. */
  function LastSent(c: SenderContext.Ctx): nat
  {
    if c.k > 0 then c.k - 1 else 0
  }

  ghost predicate Inv(files: seq<SrcFile>, p: nat, y: Sys)
  {
    && p < |files| && SenderContext.FileFits(files[p])
    && Bounded(y.r) && OutsOk(files, y.r.ctx)
    && (y.phase == S.AckNak ==>
          && Shape(files, S.AckNak, y.s.ctx) && y.s.ctx.fileNameIndex == p + 1
          && (y.s.leaf != S.Final ==> Live(files, y.s) && Phase(y.s) == S.AckNak)
          && Line(y.s2r, Some(SenderContext.Block(files[p], LastSent(y.s.ctx))), false)
          && (|| y.r.leaf.IsOver() || OutOfStep(y.r)
              || (Completed(y.r.ctx) == p && exists j :: Ahead(files[p], y.r, j, LastSent(y.s.ctx), y.s2r))))
  }

  /** The receiver has taken the stat block of file `p` and no data block yet, or has stopped. */
  ghost predicate Starts(f: SrcFile, p: nat, r: R.Receiver)
  {
    r.leaf.IsOver() || (Receiving(r, f, 0) && r.leaf != R.EotData && Completed(r.ctx) == p)
  }

  /** The first data block has just gone out. */
  ghost predicate Begins(files: seq<SrcFile>, p: nat, y: Sys)
  {
    && p < |files| && SenderContext.FileFits(files[p])
    && Live(files, y.s) && y.phase == Phase(y.s) == S.AckNak
    && y.s.ctx.fileNameIndex == p + 1 && y.s.ctx.k == 2
    && Bounded(y.r) && Starts(files[p], p, y.r) && OutsOk(files, y.r.ctx)
    && y.s2r == [Blk(SenderContext.Block(files[p], 1))]
  }

  lemma BeginsInv(files: seq<SrcFile>, p: nat, y: Sys)
    requires Begins(files, p, y)
    ensures Inv(files, p, y)
  {
    LiveShape(files, y.s);
    hide Live, Receiving, Bounded, OutsOk, Shape, SenderContext.Block, SenderContext.FileFits, DoneCount;
    assert y.r.leaf.IsOver() || Ahead(files[p], y.r, 0, LastSent(y.s.ctx), y.s2r);
  }

  // ------------------------------------------------------------ receiver

  /** What a reaction of the receiver keeps, while the last block sent stays the same. */
  ghost predicate Keeps(files: seq<SrcFile>, p: nat, o: R.Out, i: nat, s2r: seq<Item>)
    requires p < |files|
  {
    && OutsOk(files, o.r.ctx)
    && (|| o.r.leaf.IsOver() || OutOfStep(o.r)
        || (Completed(o.r.ctx) == p && exists j :: Ahead(files[p], o.r, j, i, s2r)))
  }

  lemma StoppedKeeps(files: seq<SrcFile>, p: nat, r: R.Receiver, o: R.Out, i: nat, s2r: seq<Item>)
    requires p < |files| && r.Valid() && OutsOk(files, r.ctx) && Stopped(r, o)
    ensures Keeps(files, p, o, i, s2r)
  {
    hide DoneCount, Ahead;
  }

  /** Events other than blocks never take back errors. */
  lemma ErrorsGrow(r: R.Receiver, f: SrcFile, j: nat, e: R.Event, env: Env)
    requires Receiving(r, f, j) && e.Valid() && IsIdle(r, e)
    ensures var o := R.React(r, e, env);
            && (o.r.leaf.IsOver() || o.r.ctx.errCnt >= r.ctx.errCnt)
            && (e.Ser? && e.c == SOH && r.leaf != R.TransientData && !o.r.leaf.IsOver() ==>
                  o.r.ctx.errCnt == r.ctx.errCnt + 1)
  {
    hide HasWritten, PadChunk, ChunkOf, DoneCount, BlockCount, CrcMatches, Stored;
    hide R.FirstByteStatSer, R.AreWeDoneSer, R.CanSer, R.TransientDataTm, R.Cont;
  }

  lemma IdleKeeps(files: seq<SrcFile>, p: nat, r: R.Receiver, j: nat, i: nat, s2r: seq<Item>, e: R.Event, env: Env)
    requires p < |files| && Ahead(files[p], r, j, i, s2r) && Completed(r.ctx) == p && OutsOk(files, r.ctx)
    requires e.Valid() && IsIdle(r, e) && (e.Ser? ==> s2r == [])
    ensures Keeps(files, p, R.React(r, e, env), i, s2r)
  {
    var o := R.React(r, e, env);
    ReceivingIdle(r, files[p], j, e, env);
    ErrorsGrow(r, files[p], j, e, env);
    hide R.React, Receiving, IsIdle, DoneCount, OutsOk;
    if Stopped(r, o) {
      StoppedKeeps(files, p, r, o, i, s2r);
    } else {
      SameFilesOk(files, r, o);
      assert Ahead(files[p], o.r, j, i, s2r);
    }
  }

  lemma SameFilesOk(files: seq<SrcFile>, r: R.Receiver, o: R.Out)
    requires OutsOk(files, r.ctx) && SameFiles(r, o)
    ensures OutsOk(files, o.r.ctx) && Completed(o.r.ctx) == Completed(r.ctx)
  {
    hide DoneCount;
  }

  lemma OnlyBytesPurge(r: R.Receiver, e: R.Event, env: Env)
    requires r.Valid() && e.Valid() && !e.Ser?
    ensures !R.React(r, e, env).purged
  {
    NoPurge(R.Fire(r, e, env), env);
    hide R.Cascade;
  }

  lemma {:induction false} NoPurge(o: R.Out, env: Env)
    requires o.r.Valid() && !o.purged
    ensures !R.Cascade(o, env).purged
    decreases o.r.leaf.Rank()
  {
    if o.r.leaf.IsTransient() {
      var n := R.Cont(o.r, env);
      NoPurge(R.Out(n.r, o.sent + n.sent, o.purged || n.purged), env);
    }
  }

  /** The reply that is due. */
  lemma ReplyKeeps(files: seq<SrcFile>, p: nat, r: R.Receiver, j: nat, i: nat, s2r: seq<Item>, env: Env)
    requires p < |files| && Ahead(files[p], r, j, i, s2r) && Completed(r.ctx) == p && OutsOk(files, r.ctx)
    requires r.leaf == R.TransientData
    ensures Keeps(files, p, R.React(r, R.Tm, env), i, s2r)
  {
    var o := R.React(r, R.Tm, env);
    ReceivingReplies(r, files[p], j, env);
    ReplyCounts(r, env);
    DataLeaf(r, files[p], j);
    hide R.React, Receiving, DoneCount, OutsOk, Stopped, WrittenAfter;
    if Stopped(r, o) {
      StoppedKeeps(files, p, r, o, i, s2r);
    } else {
      DataLeaf(o.r, files[p], j);
      DataWritten(o.r, files[p], j);
      WrittenIsPrefix(files, p, r.ctx, o.r.ctx, j);
      assert Ahead(files[p], o.r, j, i, s2r);
    }
  }

  lemma ReplyCounts(r: R.Receiver, env: Env)
    requires r.Valid() && r.leaf == R.TransientData
    ensures R.React(r, R.Tm, env).r.ctx.errCnt == r.ctx.errCnt
  {
  }

  /** A block with a number that is neither the last one nor the next one. */
  lemma WrongNumber(r: R.Receiver, f: SrcFile, j: nat, i: nat, env: Env)
    requires Receiving(r, f, j) && r.leaf == R.FirstByteData && SenderContext.FileFits(f)
    requires j + 2 <= i <= j + 200
    ensures var o := R.React(r, R.Ser(SOH, SenderContext.Block(f, i)[1..]), env);
            && (Stopped(r, o) || (OutOfStep(o.r) && SameFiles(r, o)))
            && !(o.r.leaf == R.TransientData && o.r.ctx.rx.goodBlk1st)
  {
    hide SenderContext.Block, GetRest, C.GetRestPurges, DoneCount, BlockCount, HasWritten, R.React;
    var rest := SenderContext.Block(f, i)[1..];
    OnlyFire(r, rest, env);
    if r.ctx.kbCan {
      DataSerStops(r, rest);
    } else {
      WrongRest(r.ctx.rx, f, j, i);
    }
  }

  lemma WrongRest(x: Reception, f: SrcFile, j: nat, i: nat)
    requires x.Valid() && x.numLastGoodBlk == NumOf(j) && SenderContext.FileFits(f) && j + 2 <= i <= j + 200
    ensures var y := GetRest(x, true, SenderContext.Block(f, i)[1..]);
            !y.goodBlk && !y.goodBlk1st && y.syncLoss
  {
    hide Frame, PadChunk, ChunkOf, GetRest, NumOf;
    SenderContext.NeighbouringNumbers(j);
    FarNumbersDiffer(j, i);
    IntactBlock(x, true, NumOf(i), PadChunk(ChunkOf(f.content, i)));
  }

  lemma FarNumbersDiffer(j: nat, i: nat)
    requires j + 2 <= i <= j + 200
    ensures NumOf(i) != NumOf(j) && NumOf(i) != NumOf(j + 1)
  {
    var q, p := j / 256, i / 256;
    assert j == 256 * q + NumOf(j) && i == 256 * p + NumOf(i);
  }

  lemma ShownKeeps(files: seq<SrcFile>, p: nat, r: R.Receiver, j: nat, i: nat, s2r: seq<Item>, env: Env)
    requires p < |files| && SenderContext.FileFits(files[p]) && 0 < i <= BlockCount(files[p].content)
    requires Ahead(files[p], r, j, i, s2r) && Completed(r.ctx) == p && OutsOk(files, r.ctx) && Bounded(r)
    requires r.leaf == R.FirstByteData && s2r != [] && s2r[0] == Blk(SenderContext.Block(files[p], i))
    requires Line(s2r, Some(SenderContext.Block(files[p], i)), false)
    ensures Keeps(files, p, Takes(r, s2r[0], env), i, s2r[1..])
    ensures Takes(r, s2r[0], env).r.ctx.rx.goodBlk1st && Takes(r, s2r[0], env).r.leaf == R.TransientData ==> i == j + 1
  {
    StartsWithSoh(files[p], i);
    var o := Takes(r, s2r[0], env);
    hide R.React, Receiving, DoneCount, OutsOk, SenderContext.Block, BlockCount, SenderContext.FileFits, Line;
    if i <= j + 1 {
      ReceivingBlk(r, files[p], j, i, env);
      if Stopped(r, o) {
        StoppedKeeps(files, p, r, o, i, s2r[1..]);
      } else {
        hide Stopped;
        SameFilesOk(files, r, o);
        assert Ahead(files[p], o.r, i, i, s2r[1..]);
      }
    } else {
      WrongNumber(r, files[p], j, i, env);
      if Stopped(r, o) {
        StoppedKeeps(files, p, r, o, i, s2r[1..]);
      } else {
        SameFilesOk(files, r, o);
      }
    }
  }

  /** A damaged block counts as an error, and so makes up for the block that is lost with it. */
  lemma DamagedKeeps(files: seq<SrcFile>, p: nat, r: R.Receiver, j: nat, i: nat, s2r: seq<Item>, rest: Data, env: Env)
    requires p < |files| && Ahead(files[p], r, j, i, s2r) && Completed(r.ctx) == p && OutsOk(files, r.ctx)
    requires r.leaf == R.FirstByteData && s2r != [] && |rest| < BUF_SZ && Rejected(r.ctx.rx, r.ctx.fd != -1, rest)
    ensures Keeps(files, p, R.React(r, R.Ser(SOH, rest), env), i, s2r[1..])
  {
    var e := R.Ser(SOH, rest);
    var o := R.React(r, e, env);
    ReceivingIdle(r, files[p], j, e, env);
    ErrorsGrow(r, files[p], j, e, env);
    DataLeaf(r, files[p], j);
    hide R.React, Receiving, IsIdle, DoneCount, OutsOk;
    if Stopped(r, o) {
      StoppedKeeps(files, p, r, o, i, s2r[1..]);
    } else {
      SameFilesOk(files, r, o);
      DataLeaf(o.r, files[p], j);
      assert Ahead(files[p], o.r, j, i, s2r[1..]);
    }
  }

  /** Out of step, the receiver only stops. */
  lemma OutOfStepKeeps(files: seq<SrcFile>, p: nat, r: R.Receiver, i: nat, s2r: seq<Item>, e: R.Event, env: Env)
    requires p < |files| && OutOfStep(r) && r.Valid() && e.Valid() && OutsOk(files, r.ctx)
    ensures Keeps(files, p, R.React(r, e, env), i, s2r)
  {
    hide DoneCount, Ahead;
    var o := R.React(r, e, env);
    if !e.Ser? {
      FinishStops(r, CloseFile(r.ctx, env), LossOfSync);
      FinishStops(r, r.ctx.(kbCan := true), KbCancelledImmediate);
      assert Stopped(r, o);
      hide R.React;
      StoppedKeeps(files, p, r, o, i, s2r);
    } else {
      ReceivingPurges(r, e.c, e.rest, env);
    }
  }

  // --------------------------------------------------------------- steps

  lemma KeptInv(files: seq<SrcFile>, p: nat, y: Sys, o: R.Out, s2r: seq<Item>)
    requires Inv(files, p, y) && y.phase == S.AckNak && Bounded(o.r)
    requires Keeps(files, p, o, LastSent(y.s.ctx), s2r)
    requires forall b, eots :: Line(y.s2r, b, eots) ==> Line(s2r, b, eots)
    ensures Inv(files, p, ReceiverMoves(y, o, s2r))
  {
    hide Shape, Live, OutsOk, Bounded, OutOfStep, Ahead, Line, SenderContext.Block, SenderContext.FileFits, DoneCount;
    EmptyLine();
  }

  lemma EmptyLine()
    ensures forall b, eots :: Line([], b, eots)
  {
  }

  lemma TailLine(s2r: seq<Item>)
    requires s2r != []
    ensures forall b, eots :: Line(s2r, b, eots) ==> Line(s2r[1..], b, eots)
    ensures forall b, eots :: Line(s2r, b, eots) ==> Unseen(s2r[1..]) == 0
  {
    forall b, eots | Line(s2r, b, eots) ensures Line(s2r[1..], b, eots) && Unseen(s2r[1..]) == 0 {
      if |s2r| > 1 {
        assert !s2r[1].Blk?;
      }
    }
  }

  lemma EventKeeps(files: seq<SrcFile>, p: nat, y: Sys, e: R.Event, env: Env)
    requires Inv(files, p, y) && y.phase == S.AckNak && !y.r.leaf.IsOver() && e.Valid()
    requires e.Ser? ==> y.s2r == [] && IsNoise(y.r, e.c, e.rest)
    ensures Keeps(files, p, R.React(y.r, e, env), LastSent(y.s.ctx), y.s2r)
  {
    hide Shape, Live, OutsOk, Ahead, Line, R.React, Keeps, SenderContext.Block, SenderContext.FileFits, DoneCount;
    var i := LastSent(y.s.ctx);
    if OutOfStep(y.r) {
      OutOfStepKeeps(files, p, y.r, i, y.s2r, e, env);
    } else {
      hide OutOfStep;
      var j :| Ahead(files[p], y.r, j, i, y.s2r);
      if e == R.Tm && y.r.leaf == R.TransientData {
        ReplyKeeps(files, p, y.r, j, i, y.s2r, env);
      } else {
        IdleKeeps(files, p, y.r, j, i, y.s2r, e, env);
      }
    }
  }

  lemma ItemKeeps(files: seq<SrcFile>, p: nat, y: Sys, env: Env)
    requires Inv(files, p, y) && Enabled(files, y, Shown(env))
    ensures Keeps(files, p, Takes(y.r, y.s2r[0], env), LastSent(y.s.ctx), y.s2r[1..])
  {
    hide Live, OutsOk, Bounded, Takes, Keeps, SenderContext.Block, SenderContext.FileFits, DoneCount, Receiving;
    var i := LastSent(y.s.ctx);
    var j :| Ahead(files[p], y.r, j, i, y.s2r);
    DataLeaf(y.r, files[p], j);
    if y.s2r[0].Blk? {
      ShownKeeps(files, p, y.r, j, i, y.s2r, env);
    } else {
      hide Shape;
      CansStop(y.r, env);
      StoppedKeeps(files, p, y.r, Takes(y.r, y.s2r[0], env), i, y.s2r[1..]);
    }
  }

  lemma CansStop(r: R.Receiver, env: Env)
    requires r.Valid() && r.leaf == R.FirstByteData
    ensures Stopped(r, Takes(r, Cans, env))
  {
    BurstStops(r, env);
    hide R.React, DoneCount;
  }

  lemma ReceiverActKeeps(files: seq<SrcFile>, p: nat, y: Sys, a: Act)
    requires Inv(files, p, y) && Enabled(files, y, a)
    requires a.Shown? || a.ShownDamaged? || a.ReceiverGlitch? || a.ReceiverTimeout? || a.ReceiverCancel?
    ensures Inv(files, p, Do(files, y, a))
  {
    hide Shape, Live, OutsOk, Bounded, OutOfStep, Ahead, Keeps, R.Fire, R.Cascade, SenderContext.Block;
    hide SenderContext.FileFits, DoneCount;
    match a {
      case Shown(env) =>
        ItemKeeps(files, p, y, env);
        TailLine(y.s2r);
        TakesBounded(y.r, y.s2r[0], env);
        KeptInv(files, p, y, Takes(y.r, y.s2r[0], env), y.s2r[1..]);
      case ShownDamaged(rest, env) =>
        DamagedAct(files, p, y, rest, env);
        TailLine(y.s2r);
        ReactBounded(y.r, R.Ser(SOH, rest), env);
        KeptInv(files, p, y, R.React(y.r, R.Ser(SOH, rest), env), y.s2r[1..]);
      case ReceiverGlitch(c, rest, env) =>
        EventKeeps(files, p, y, R.Ser(c, rest), env);
        ReactBounded(y.r, R.Ser(c, rest), env);
        KeptInv(files, p, y, R.React(y.r, R.Ser(c, rest), env), y.s2r);
      case ReceiverTimeout(env) =>
        EventKeeps(files, p, y, R.Tm, env);
        ReactBounded(y.r, R.Tm, env);
        KeptInv(files, p, y, R.React(y.r, R.Tm, env), y.s2r);
      case ReceiverCancel(env) =>
        EventKeeps(files, p, y, R.KbC, env);
        ReactBounded(y.r, R.KbC, env);
        KeptInv(files, p, y, R.React(y.r, R.KbC, env), y.s2r);
    }
  }

  lemma DamagedAct(files: seq<SrcFile>, p: nat, y: Sys, rest: Data, env: Env)
    requires Inv(files, p, y) && Enabled(files, y, ShownDamaged(rest, env))
    ensures Keeps(files, p, R.React(y.r, R.Ser(SOH, rest), env), LastSent(y.s.ctx), y.s2r[1..])
  {
    hide Shape, Live, OutsOk, Bounded, R.React, Keeps, SenderContext.Block, SenderContext.FileFits, DoneCount, Receiving;
    hide Rejected;
    var i := LastSent(y.s.ctx);
    var j :| Ahead(files[p], y.r, j, i, y.s2r);
    DataLeaf(y.r, files[p], j);
    DamagedKeeps(files, p, y.r, j, i, y.s2r, rest, env);
  }

  lemma TakesBounded(r: R.Receiver, item: Item, env: Env)
    requires Bounded(r) && Whole(item)
    ensures Bounded(Takes(r, item, env).r)
  {
    hide R.React;
    match item {
      case Blk(b) => ReactBounded(r, R.Ser(b[0], b[1..]), env);
      case Eot => ReactBounded(r, R.Ser(EOT, []), env);
      case Cans =>
        ReactBounded(r, R.Ser(CAN, []), env);
        ReactBounded(R.React(r, R.Ser(CAN, []), env).r, R.Ser(CAN, []), env);
    }
  }

  /** The sender stops, stays, repeats its last block, sends the next one, or leaves the data phase. */
  lemma SenderActKeeps(files: seq<SrcFile>, p: nat, y: Sys, o: S.Out, r2s: Data, c: byte)
    requires Inv(files, p, y) && y.phase == S.AckNak && y.s.leaf != S.Final
    requires Ended(y.s, o) || Idle(files, y.s, o) || Busy(files, y.s, c, o)
    requires SendsBlk(o) ==> y.s2r == []
    ensures Inv(files, p, SenderMoves(y, o, r2s))
  {
    hide Live, OutsOk, Bounded, OutOfStep, Receiving, SenderContext.Block, SenderContext.FileFits, DoneCount;
    hide Ahead, Line, Shape, Ended, Idle, Busy;
    SenderPlace(files, p, y, o, r2s, c);
    var z := SenderMoves(y, o, r2s);
    if z.phase == S.AckNak && !y.r.leaf.IsOver() && !OutOfStep(y.r) {
      var j :| Ahead(files[p], y.r, j, LastSent(y.s.ctx), y.s2r);
      LeadGoesOn(files[p], y.r, j, LastSent(y.s.ctx), y.s2r, LastSent(z.s.ctx), z.s2r);
    }
  }

  lemma LeadGoesOn(f: SrcFile, r: R.Receiver, j: nat, i: nat, s2r: seq<Item>, i': nat, s2r': seq<Item>)
    requires Ahead(f, r, j, i, s2r)
    requires (i' == i && Unseen(s2r') >= Unseen(s2r)) || (i' == i + 1 && Unseen(s2r') == 1 && Unseen(s2r) == 0)
    ensures Ahead(f, r, j, i', s2r')
  {
    hide Receiving;
  }

  /** Where the sender is, and what it has put on the line, as long as it stays in the data phase. */
  lemma SenderPlace(files: seq<SrcFile>, p: nat, y: Sys, o: S.Out, r2s: Data, c: byte)
    requires Inv(files, p, y) && y.phase == S.AckNak && y.s.leaf != S.Final
    requires Ended(y.s, o) || Idle(files, y.s, o) || Busy(files, y.s, c, o)
    requires SendsBlk(o) ==> y.s2r == []
    ensures var z := SenderMoves(y, o, r2s);
            z.phase == S.AckNak ==>
              && Shape(files, S.AckNak, z.s.ctx) && z.s.ctx.fileNameIndex == p + 1
              && (z.s.leaf != S.Final ==> Live(files, z.s) && Phase(z.s) == S.AckNak)
              && Line(z.s2r, Some(SenderContext.Block(files[p], LastSent(z.s.ctx))), false)
              && ((LastSent(z.s.ctx) == LastSent(y.s.ctx) && Unseen(z.s2r) >= Unseen(y.s2r))
                  || (LastSent(z.s.ctx) == LastSent(y.s.ctx) + 1 && Unseen(z.s2r) == 1 && Unseen(y.s2r) == 0))
  {
    hide Live, OutsOk, Bounded, OutOfStep, Ahead, SenderContext.Block, SenderContext.FileFits, DoneCount, BlockCount;
    LiveShape(files, y.s);
    if o.s.leaf != S.Final {
      LiveShape(files, o.s);
    }
  }

  lemma StepKeeps(files: seq<SrcFile>, p: nat, y: Sys, a: Act)
    requires Inv(files, p, y) && Enabled(files, y, a)
    ensures Inv(files, p, Do(files, y, a))
  {
    if a.SenderReads? || a.SenderTimeout? || a.SenderCancel? {
      hide Inv, Enabled, Do;
      SenderEventKeeps(files, p, y, a);
    } else if a.LoseReply? || a.InjectReply? {
      hide Shape, Live, OutsOk, Bounded, OutOfStep, Ahead, Line;
    } else if a.LoseItem? {
      LossKeeps(files, p, y, a.i);
    } else {
      hide Inv, Enabled, Do;
      ReceiverActKeeps(files, p, y, a);
    }
  }

  lemma SenderEventKeeps(files: seq<SrcFile>, p: nat, y: Sys, a: Act)
    requires Inv(files, p, y) && Enabled(files, y, a) && (a.SenderReads? || a.SenderTimeout? || a.SenderCancel?)
    ensures Inv(files, p, Do(files, y, a))
  {
    hide Shape, Live, OutsOk, Bounded, OutOfStep, Ahead, Line, S.React, Ended, Idle, Busy;
    var e := if a.SenderReads? then S.Ser(y.r2s[0]) else if a.SenderTimeout? then S.Tm else S.KbC;
    var now := a.now;
    EventOutcome(files, y.s, e, now);
    var o := S.React(files, y.s, e, now);
    QuietSends(files, y.s, o);
    SenderActKeeps(files, p, y, o, if a.SenderReads? then y.r2s[1..] else y.r2s, if e.Ser? then e.c else 0);
  }

  lemma LossKeeps(files: seq<SrcFile>, p: nat, y: Sys, i: nat)
    requires Inv(files, p, y) && Enabled(files, y, Act.LoseItem(i))
    ensures Inv(files, p, Do(files, y, Act.LoseItem(i)))
  {
    hide Shape, Live, OutsOk, Bounded, OutOfStep, Receiving, SenderContext.Block, SenderContext.FileFits, DoneCount;
    var z := Do(files, y, Act.LoseItem(i));
    if !y.r.leaf.IsOver() && !OutOfStep(y.r) {
      var j :| Ahead(files[p], y.r, j, LastSent(y.s.ctx), y.s2r);
      assert Ahead(files[p], z.r, j, LastSent(z.s.ctx), z.s2r);
    }
  }

  /** A purge never hits a block that the receiver has not been shown: timeouts and cancels do not purge, bytes come
      in front of no block, and behind a block there is no other one. */
  lemma PurgesSpareBlocks(files: seq<SrcFile>, p: nat, y: Sys, a: Act)
    requires Inv(files, p, y) && Enabled(files, y, a)
    ensures match a
            case ReceiverTimeout(env) => !R.React(y.r, R.Tm, env).purged
            case ReceiverCancel(env) => !R.React(y.r, R.KbC, env).purged
            case ReceiverGlitch(_, _, _) => NoBlk(Do(files, y, a).s2r)
            case Shown(_) => NoBlk(Do(files, y, a).s2r)
            case ShownDamaged(_, _) => NoBlk(Do(files, y, a).s2r)
            case _ => true
  {
    hide R.React, Takes, Shape, Live, OutsOk, Bounded, OutOfStep, Ahead, SenderContext.Block, SenderContext.FileFits;
    match a {
      case ReceiverTimeout(env) => OnlyBytesPurge(y.r, R.Tm, env);
      case ReceiverCancel(env) => OnlyBytesPurge(y.r, R.KbC, env);
      case _ =>
    }
  }

  lemma QuietSends(files: seq<SrcFile>, s: S.Sender, o: S.Out)
    ensures Ended(s, o) || Idle(files, s, o) ==> !SendsBlk(o)
  {
  }

  lemma {:induction false} RunKeeps(files: seq<SrcFile>, p: nat, y: Sys, acts: seq<Act>)
    requires Inv(files, p, y)
    ensures Inv(files, p, Run(files, y, acts))
  {
    hide Inv, Enabled, Do;
    if acts != [] {
      var z := Run(files, y, acts[..|acts| - 1]);
      RunKeeps(files, p, y, acts[..|acts| - 1]);
      if Enabled(files, z, acts[|acts| - 1]) {
        StepKeeps(files, p, z, acts[|acts| - 1]);
      }
    }
  }

  /** Through the data phase of a file of any length, with any bytes at all on the way to the sender, the last
      block sent is at most 13 ahead of the last one taken, and what has been written is a prefix of the file. */
  lemma LeadIsSmall(files: seq<SrcFile>, p: nat, y: Sys, acts: seq<Act>)
    requires p < |files| && Begins(files, p, y)
    ensures var z := Run(files, y, acts);
            && OutsOk(files, z.r.ctx)
            && (z.phase == S.AckNak && !z.r.leaf.IsOver() && !OutOfStep(z.r) ==>
                  exists j: nat :: Receiving(z.r, files[p], j) && j <= LastSent(z.s.ctx) <= j + ERR_BOUND + 3)
  {
    hide Begins, Run, Inv, Receiving, OutsOk, OutOfStep;
    BeginsInv(files, p, y);
    RunKeeps(files, p, y, acts);
    InvLead(files, p, Run(files, y, acts));
  }

  lemma InvLead(files: seq<SrcFile>, p: nat, z: Sys)
    requires p < |files| && Inv(files, p, z)
    ensures OutsOk(files, z.r.ctx)
    ensures z.phase == S.AckNak && !z.r.leaf.IsOver() && !OutOfStep(z.r) ==>
              exists j: nat :: Receiving(z.r, files[p], j) && j <= LastSent(z.s.ctx) <= j + ERR_BOUND + 3
  {
    hide Receiving, OutsOk, Line, Shape, Live, OutOfStep, SenderContext.FileFits, SenderContext.Block, DoneCount;
    if z.phase == S.AckNak && !z.r.leaf.IsOver() && !OutOfStep(z.r) {
      var j :| Ahead(files[p], z.r, j, LastSent(z.s.ctx), z.s2r);
      assert Receiving(z.r, files[p], j);
    }
  }

  /** Any block that is taken as new is exactly the next block of the file, although its number says so only
      modulo 256. */
  lemma NewBlockIsNext(files: seq<SrcFile>, p: nat, y: Sys, acts: seq<Act>, env: Env) returns (j: nat)
    requires Begins(files, p, y)
    requires var z := Run(files, y, acts);
             && Enabled(files, z, Shown(env)) && z.s2r[0].Blk?
             && Takes(z.r, z.s2r[0], env).r.leaf == R.TransientData
             && Takes(z.r, z.s2r[0], env).r.ctx.rx.goodBlk1st
    ensures var z := Run(files, y, acts);
            && Receiving(z.r, files[p], j) && j + 1 == LastSent(z.s.ctx)
            && z.s2r[0] == Blk(SenderContext.Block(files[p], j + 1))
  {
    hide Inv, Begins, Receiving, Takes, SenderContext.Block;
    BeginsInv(files, p, y);
    RunKeeps(files, p, y, acts);
    j := NewBlockHere(files, p, Run(files, y, acts), env);
  }

  lemma NewBlockHere(files: seq<SrcFile>, p: nat, z: Sys, env: Env) returns (j: nat)
    requires Inv(files, p, z) && Enabled(files, z, Shown(env)) && z.s2r[0].Blk?
    requires Takes(z.r, z.s2r[0], env).r.leaf == R.TransientData && Takes(z.r, z.s2r[0], env).r.ctx.rx.goodBlk1st
    ensures p < |files| && SenderContext.FileFits(files[p])
    ensures Receiving(z.r, files[p], j) && j + 1 == LastSent(z.s.ctx)
    ensures z.s2r[0] == Blk(SenderContext.Block(files[p], j + 1))
  {
    hide Receiving, OutsOk, Bounded, Live, Takes, SenderContext.FileFits, SenderContext.Block, DoneCount;
    var k :| Ahead(files[p], z.r, k, LastSent(z.s.ctx), z.s2r);
    j := k;
    DataLeaf(z.r, files[p], j);
    ShownKeeps(files, p, z.r, j, LastSent(z.s.ctx), z.s2r, env);
  }

  /** On every run of both peers from the start, the data phase of a file begins when the sender reads the byte that
      makes it send the first data block, whether or not the receiver has stopped or still owes a reply by then. */
  lemma DataPhaseBegins(files: seq<SrcFile>, y: Sys, now: int)
    requires Honest(files, y) && y.s.leaf == S.One && L.Enabled(files, y, L.SenderReads(now))
    requires L.Do(files, y, L.SenderReads(now)).s.leaf == S.AckNak
    ensures 0 < y.s.ctx.fileNameIndex <= |files|
    ensures Begins(files, y.s.ctx.fileNameIndex - 1, L.Do(files, y, L.SenderReads(now)))
  {
    hide LinkSafety.Inv, Live, Receiving, Bounded, OutsOk, S.React, SenderContext.Block, SenderContext.FilesFit;
    hide SenderContext.FileFits, DoneCount, RepliesOk;
    AskedFacts(files, y);
    FirstBlockGoesOut(files, y.s, y.r2s[0], now);
  }

  lemma AskedFacts(files: seq<SrcFile>, y: Sys)
    requires LinkSafety.Inv(files, y) && y.s.leaf == S.One
    ensures Live(files, y.s) && OutsOk(files, y.r.ctx) && y.s.ctx.named && 0 < y.s.ctx.fileNameIndex <= |files|
    ensures var p: int := y.s.ctx.fileNameIndex - 1;
            SenderContext.FileFits(files[p]) && Starts(files[p], p, y.r)
  {
    LiveShape(files, y.s);
    FitsCurrent(files, y.s);
    hide Live, Holds, OutsOk, Receiving, BlockCount, SenderContext.FilesFit, SenderContext.FileFits, DoneCount;
    hide SenderContext.Block, Line, OneAck, Silent;
  }

  lemma FitsCurrent(files: seq<SrcFile>, s: S.Sender)
    requires Live(files, s) && s.leaf == S.One
    ensures s.ctx.named && 0 < s.ctx.fileNameIndex <= |files| && SenderContext.FileFits(files[s.ctx.fileNameIndex - 1])
  {
    hide SenderContext.FileFits, SenderContext.Block;
  }

  lemma FirstBlockGoesOut(files: seq<SrcFile>, s: S.Sender, c: byte, now: int)
    requires SenderContext.FilesFit(files) && Live(files, s) && s.leaf == S.One
    requires S.React(files, s, S.Ser(c), now).s.leaf == S.AckNak
    ensures s.ctx.k == 1 && SentNext(files, s, S.React(files, s, S.Ser(c), now), S.AckNak)
  {
    LiveShape(files, s);
    OneReads(files, s, c, now);
    hide Live, Holds, Shape, SenderContext.Block, SenderContext.SendNew, SenderContext.FilesFit;
  }

  /** From the start of both peers on, over any run up to the first data block of a file and any run of the data
      phase that follows, the lead stays small. */
  lemma LeadIsSmallOnEveryRun(files: seq<SrcFile>, start: int, before: seq<L.Act>, now: int, acts: seq<Act>)
    requires SenderContext.FilesFit(files)
    requires var y := L.Run(files, L.Init(files, start), before);
             && y.s.leaf == S.One && L.Enabled(files, y, L.SenderReads(now))
             && L.Do(files, y, L.SenderReads(now)).s.leaf == S.AckNak
    ensures var y := L.Run(files, L.Init(files, start), before);
            && 0 < y.s.ctx.fileNameIndex <= |files|
            && var p: int := y.s.ctx.fileNameIndex - 1;
            && Begins(files, p, L.Do(files, y, L.SenderReads(now)))
            && var z := Run(files, L.Do(files, y, L.SenderReads(now)), acts);
            && OutsOk(files, z.r.ctx)
            && (z.phase == S.AckNak && !z.r.leaf.IsOver() && !OutOfStep(z.r) ==>
                  exists j: nat :: Receiving(z.r, files[p], j) && j <= LastSent(z.s.ctx) <= j + ERR_BOUND + 3)
  {
    hide Begins, L.Run, L.Init, L.Do, L.Enabled, Run, Receiving, OutsOk, OutOfStep, Honest;
    InitHonest(files, start);
    RunReports(files, L.Init(files, start), before);
    var y := L.Run(files, L.Init(files, start), before);
    DataPhaseBegins(files, y, now);
    LeadIsSmall(files, y.s.ctx.fileNameIndex - 1, L.Do(files, y, L.SenderReads(now)), acts);
  }
}
