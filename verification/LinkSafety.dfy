/** Safety of the protocol on a line that loses and damages: what holds in every state of every run. */
module LinkSafety {
  import opened Bytes
  import opened Text
  import opened Blocks
  import opened Session
  import opened SenderSteps
  import opened ReceiverSteps
  import opened Link
  import opened LinkStages
  import SenderContext
  import ReceiverContext
  import S = SenderChart
  import R = ReceiverChart

  // --------------------------------------------------------- invariant

  /** The receiver and the line are at a stage that fits the place of the sender `c`. */
  ghost predicate Coupled(files: seq<SrcFile>, phase: S.Leaf, c: SenderContext.Ctx,
                          r: R.Receiver, s2r: seq<Item>, r2s: Data)
    requires Shape(files, phase, c)
  {
    match phase
    case StatC => BeforeStat(if c.named then c.fileNameIndex - 1 else c.fileNameIndex, r, s2r)
    case AckNakStat =>
      if c.named then StatSent(files, c.fileNameIndex - 1, r, s2r, r2s) else EndSent(files, r, s2r)
    case One => InData(files, c.fileNameIndex - 1, r, 0, 0, s2r, r2s) && Silent(r, s2r, r2s)
    case AckNak =>
      || InData(files, c.fileNameIndex - 1, r, c.k - 1, c.k - 1, s2r, r2s)
      || InData(files, c.fileNameIndex - 1, r, c.k - 2, c.k - 1, s2r, r2s)
    case Eot1 => EotSent(files, c.fileNameIndex - 1, r, s2r, r2s)
    case EotEot => EotSent(files, c.fileNameIndex - 1, r, s2r, r2s)
    case _ => false
  }

  ghost predicate Inv(files: seq<SrcFile>, y: Sys)
  {
    && y.r.Valid() && !y.r.leaf.IsTransient()
    && Shape(files, y.phase, y.s.ctx)
    && (y.s.leaf != S.Final ==> Live(files, y.s) && Phase(y.s) == y.phase)
    && OutsOk(files, y.r.ctx)
    && (!y.r.leaf.IsOver() ==> Coupled(files, y.phase, y.s.ctx, y.r, y.s2r, y.r2s))
  }

  lemma InitInv(files: seq<SrcFile>, now: int)
    requires SenderContext.FilesFit(files)
    ensures Inv(files, Init(files, now))
  {
    PrepStatLive(files, S.Start(files, now), SenderContext.InitialCtx(), now);
    hide SenderContext.PrepStat, Live;
    LiveShape(files, S.Start(files, now));
    hide Shape;
  }

  // --------------------------------------------------- receiver's steps

  /** What a reaction of the receiver has to keep. */
  ghost predicate Keeps(files: seq<SrcFile>, y: Sys, o: R.Out, s2r: seq<Item>)
    requires Shape(files, y.phase, y.s.ctx)
  {
    && o.r.Valid() && OutsOk(files, o.r.ctx)
    && (o.r.leaf.IsOver() || Coupled(files, y.phase, y.s.ctx, o.r, s2r, y.r2s + o.sent))
  }

  lemma StoppedKeeps(files: seq<SrcFile>, y: Sys, o: R.Out, s2r: seq<Item>)
    requires y.r.Valid() && Shape(files, y.phase, y.s.ctx) && OutsOk(files, y.r.ctx) && Stopped(y.r, o)
    ensures Keeps(files, y, o, s2r)
  {
    hide Shape, Coupled, DoneCount;
  }

  lemma SameFilesOk(files: seq<SrcFile>, r: R.Receiver, o: R.Out)
    requires OutsOk(files, r.ctx) && SameFiles(r, o)
    ensures OutsOk(files, o.r.ctx)
  {
    hide DoneCount;
  }

  lemma IdleKeeps(files: seq<SrcFile>, y: Sys, e: R.Event, env: ReceiverContext.Env)
    requires Inv(files, y) && !y.r.leaf.IsOver() && e.Valid() && IsIdle(y.r, e)
    ensures Keeps(files, y, R.React(y.r, e, env), y.s2r)
  {
    hide R.React, Live, OutsOk, Stopped, SameFiles, IsIdle, BeforeStat, StatSent, EndSent, EotSent, InData, Silent, Keeps;
    var o := R.React(y.r, e, env);
    var c := y.s.ctx;
    match y.phase {
      case StatC => BeforeStatIdle(if c.named then c.fileNameIndex - 1 else c.fileNameIndex, y.r, y.s2r, e, env);
      case AckNakStat =>
        if c.named {
          StatSentIdle(files, c.fileNameIndex - 1, y.r, y.s2r, y.r2s, e, env);
        } else {
          EndSentIdle(files, y.r, y.s2r, e, env);
        }
      case One => DataIdle(files, c.fileNameIndex - 1, y.r, 0, 0, y.s2r, y.r2s, e, env);
      case AckNak =>
        var j := if InData(files, c.fileNameIndex - 1, y.r, c.k - 1, c.k - 1, y.s2r, y.r2s) then c.k - 1 else c.k - 2;
        DataIdle(files, c.fileNameIndex - 1, y.r, j, c.k - 1, y.s2r, y.r2s, e, env);
      case Eot1 => EotSentIdle(files, c.fileNameIndex - 1, y.r, y.s2r, y.r2s, e, env);
      case EotEot => EotSentIdle(files, c.fileNameIndex - 1, y.r, y.s2r, y.r2s, e, env);
      case _ =>
    }
    KeepsFrom(files, y, o, y.s2r);
  }

  /** A reaction that stops the receiver, or leaves its files alone and reaches a fitting stage. */
  lemma KeepsFrom(files: seq<SrcFile>, y: Sys, o: R.Out, s2r: seq<Item>)
    requires y.r.Valid() && o.r.Valid() && Shape(files, y.phase, y.s.ctx) && OutsOk(files, y.r.ctx)
    requires Stopped(y.r, o)
             || ((SameFiles(y.r, o) || OutsOk(files, o.r.ctx))
                 && Coupled(files, y.phase, y.s.ctx, o.r, s2r, y.r2s + o.sent))
    ensures Keeps(files, y, o, s2r)
  {
    hide Shape, Coupled, OutsOk, Stopped, SameFiles;
    if Stopped(y.r, o) {
      StoppedKeeps(files, y, o, s2r);
    } else if SameFiles(y.r, o) {
      SameFilesOk(files, y.r, o);
    }
  }

  /** The reply to a block, once nothing is on the line. */
  lemma ReplyKeeps(files: seq<SrcFile>, y: Sys, env: ReceiverContext.Env)
    requires Inv(files, y) && y.r.leaf == R.TransientData && y.s2r == []
    ensures Keeps(files, y, R.React(y.r, R.Tm, env), [])
  {
    hide R.React, Live, OutsOk, Stopped, SameFiles, Silent, Keeps, InData, EotSent, StatSent;
    var o := R.React(y.r, R.Tm, env);
    var c := y.s.ctx;
    var p: int := c.fileNameIndex - 1;
    match y.phase {
      case StatC =>
      case AckNakStat =>
        if c.named {
          StatSentReply(files, p, y.r, y.r2s, env);
        }
      case One => DataReply(files, p, y.r, 0, 0, y.r2s, env);
      case AckNak =>
        var j := if InData(files, p, y.r, c.k - 1, c.k - 1, y.s2r, y.r2s) then c.k - 1 else c.k - 2;
        DataReply(files, p, y.r, j, c.k - 1, y.r2s, env);
      case Eot1 => EotSentReply(files, p, y.r, y.r2s, env);
      case EotEot => EotSentReply(files, p, y.r, y.r2s, env);
      case _ =>
    }
    KeepsFrom(files, y, o, []);
  }

  lemma InDataOrWaiting(files: seq<SrcFile>, p: nat, r: R.Receiver, s2r: seq<Item>, r2s: Data)
    requires StatSent(files, p, r, s2r, r2s)
    ensures r.Valid() && (r.leaf !in {R.FirstByteStat, R.Can} ==> InData(files, p, r, 0, 0, s2r, r2s))
  {
    hide Receiving, DoneCount, SenderContext.FileFits, SenderContext.Block, OneAck;
    if InData(files, p, r, 0, 0, s2r, r2s) {
      InDataStill(files, p, r, 0, 0, s2r, r2s);
    }
  }

  lemma StatSentReply(files: seq<SrcFile>, p: nat, r: R.Receiver, r2s: Data, env: ReceiverContext.Env)
    requires StatSent(files, p, r, [], r2s) && r.leaf == R.TransientData && OutsOk(files, r.ctx)
    ensures r.Valid()
    ensures var o := R.React(r, R.Tm, env);
            Stopped(r, o) || (StatSent(files, p, o.r, [], r2s + o.sent) && OutsOk(files, o.r.ctx))
  {
    hide R.React, InData, OutsOk, Stopped, SenderContext.Block, SenderContext.FileFits, DoneCount;
    InDataOrWaiting(files, p, r, [], r2s);
    DataReply(files, p, r, 0, 0, r2s, env);
    var o := R.React(r, R.Tm, env);
    if !Stopped(r, o) {
      InDataStill(files, p, o.r, 0, 0, [], r2s + o.sent);
    }
  }

  lemma ReadKeeps(files: seq<SrcFile>, y: Sys, env: ReceiverContext.Env)
    requires Inv(files, y) && !y.r.leaf.IsOver() && y.s2r != []
    ensures Whole(y.s2r[0])
    ensures Keeps(files, y, Takes(y.r, y.s2r[0], env), y.s2r[1..])
  {
    hide Takes, Live, OutsOk, Stopped, SameFiles, BeforeStat, StatSent, EndSent, EotSent, InData, Silent, Keeps;
    var c := y.s.ctx;
    match y.phase {
      case StatC => BeforeStatReads(if c.named then c.fileNameIndex - 1 else c.fileNameIndex, y.r, y.s2r, env);
      case AckNakStat =>
        if c.named {
          StatSentReads(files, c.fileNameIndex - 1, y.r, y.s2r, y.r2s, env);
        } else {
          EndSentReads(files, y.r, y.s2r, env);
        }
      case One => OneStageReads(files, c.fileNameIndex - 1, y.r, y.s2r, y.r2s, env);
      case AckNak =>
        var j := if InData(files, c.fileNameIndex - 1, y.r, c.k - 1, c.k - 1, y.s2r, y.r2s) then c.k - 1 else c.k - 2;
        DataReads(files, c.fileNameIndex - 1, y.r, j, c.k - 1, y.s2r, y.r2s, env);
      case Eot1 => EotSentReads(files, c.fileNameIndex - 1, y.r, y.s2r, y.r2s, env);
      case EotEot => EotSentReads(files, c.fileNameIndex - 1, y.r, y.s2r, y.r2s, env);
      case _ =>
    }
    TakesValid(y.r, y.s2r[0], env);
    KeepsFrom(files, y, Takes(y.r, y.s2r[0], env), y.s2r[1..]);
  }

  lemma TakesValid(r: R.Receiver, item: Item, env: ReceiverContext.Env)
    requires r.Valid() && Whole(item)
    ensures Takes(r, item, env).r.Valid() && !Takes(r, item, env).r.leaf.IsTransient()
  {
    hide R.Fire, R.Cascade;
  }

  lemma OneStageReads(files: seq<SrcFile>, p: nat, r: R.Receiver, s2r: seq<Item>, r2s: Data, env: ReceiverContext.Env)
    requires InData(files, p, r, 0, 0, s2r, r2s) && Silent(r, s2r, r2s) && s2r != []
    ensures r.Valid() && Whole(s2r[0])
    ensures var o := Takes(r, s2r[0], env);
            Stopped(r, o)
            || (InData(files, p, o.r, 0, 0, s2r[1..], r2s + o.sent)
                && Silent(o.r, s2r[1..], r2s + o.sent) && SameFiles(r, o))
  {
    OnlyCans(files, p, r, 0, 0, s2r, r2s);
    assert !s2r[0].Blk?;
    DataCansRead(files, p, r, 0, 0, s2r, r2s, env);
    InDataStill(files, p, r, 0, 0, s2r, r2s);
    hide Takes, InData, Stopped, SameFiles, AckPending;
  }

  lemma OnlyCans(files: seq<SrcFile>, p: nat, r: R.Receiver, j: nat, i: nat, s2r: seq<Item>, r2s: Data)
    requires InData(files, p, r, j, i, s2r, r2s) && s2r != []
    ensures r.Valid() && Whole(s2r[0]) && !s2r[0].Eot?
  {
    hide Receiving, DoneCount, BlockCount, SenderContext.FileFits, OneAck;
    InDataStill(files, p, r, j, i, s2r, r2s);
  }

  lemma DataReads(files: seq<SrcFile>, p: nat, r: R.Receiver, j: nat, i: nat, s2r: seq<Item>, r2s: Data,
                  env: ReceiverContext.Env)
    requires InData(files, p, r, j, i, s2r, r2s) && s2r != []
    ensures r.Valid() && Whole(s2r[0])
    ensures var o := Takes(r, s2r[0], env);
            Stopped(r, o)
            || ((InData(files, p, o.r, j, i, s2r[1..], r2s + o.sent)
                 || InData(files, p, o.r, i, i, s2r[1..], r2s + o.sent)) && SameFiles(r, o))
  {
    OnlyCans(files, p, r, j, i, s2r, r2s);
    if s2r[0].Blk? {
      DataBlkRead(files, p, r, j, i, s2r, r2s, env);
    } else {
      DataCansRead(files, p, r, j, i, s2r, r2s, env);
    }
    hide Takes, InData, Stopped, SameFiles;
  }

  // ------------------------------------------------------------ the line

  lemma LineLoses(s2r: seq<Item>, i: nat, b: Option<Data>, eots: bool)
    requires i < |s2r| && Line(s2r, b, eots)
    ensures Line(s2r[..i] + s2r[i + 1..], b, eots)
    ensures NoBlk(s2r) ==> NoBlk(s2r[..i] + s2r[i + 1..])
  {
  }

  lemma AcksLose(r2s: Data, i: nat)
    requires i < |r2s|
    ensures var t := r2s[..i] + r2s[i + 1..];
            (ACK in t ==> ACK in r2s) && (AtMostOneAck(r2s) ==> AtMostOneAck(t))
  {
    var t := r2s[..i] + r2s[i + 1..];
    forall k | 0 <= k < |t| ensures t[k] == r2s[if k < i then k else k + 1] {
    }
  }

  lemma AcksInjected(r2s: Data, i: nat, c: byte)
    requires i <= |r2s| && c != ACK
    ensures var t := r2s[..i] + [c] + r2s[i..];
            (ACK in t ==> ACK in r2s) && (AtMostOneAck(r2s) ==> AtMostOneAck(t))
  {
    var t := r2s[..i] + [c] + r2s[i..];
    forall k | 0 <= k < |t| && k != i ensures t[k] == r2s[if k < i then k else k - 1] {
    }
  }

  /** A stage survives when items get lost and replies change without an ACK appearing. */
  lemma CoupledWeakens(files: seq<SrcFile>, phase: S.Leaf, c: SenderContext.Ctx, r: R.Receiver,
                       s2r: seq<Item>, r2s: Data, s2r': seq<Item>, r2s': Data)
    requires Shape(files, phase, c) && Coupled(files, phase, c, r, s2r, r2s)
    requires forall b, eots :: Line(s2r, b, eots) ==> Line(s2r', b, eots)
    requires NoBlk(s2r) ==> NoBlk(s2r')
    requires (ACK in r2s' ==> ACK in r2s) && (AtMostOneAck(r2s) ==> AtMostOneAck(r2s'))
    ensures Coupled(files, phase, c, r, s2r', r2s')
  {
    hide Line, NoBlk, AtMostOneAck, AwaitsStat, Receiving, AwaitsEnd, DoneCount, BlockCount, AckPending;
    hide SenderContext.Block, SenderContext.FilesFit, SenderContext.FileFits;
  }

  lemma LineActKeeps(files: seq<SrcFile>, y: Sys, a: Act)
    requires Inv(files, y) && Enabled(files, y, a) && (a.LoseItem? || a.LoseReply? || a.InjectReply?)
    ensures Inv(files, Do(files, y, a))
  {
    hide Shape, Live, OutsOk, Coupled;
    var z := Do(files, y, a);
    match a {
      case LoseItem(i) =>
        forall b, eots | Line(y.s2r, b, eots) ensures Line(z.s2r, b, eots) {
          LineLoses(y.s2r, i, b, eots);
        }
        if NoBlk(y.s2r) {
          LineLoses(y.s2r, i, None, true);
        }
      case LoseReply(i) => AcksLose(y.r2s, i);
      case InjectReply(i, c) => AcksInjected(y.r2s, i, c);
    }
    hide Line, NoBlk, AtMostOneAck;
    if !y.r.leaf.IsOver() {
      CoupledWeakens(files, y.phase, y.s.ctx, y.r, y.s2r, y.r2s, z.s2r, z.r2s);
    }
  }

  // ------------------------------------------------------ sender's steps

  /** Shape and stage depend on the sender's place only. */
  lemma SamePlaceSameStage(files: seq<SrcFile>, phase: S.Leaf, c: SenderContext.Ctx, d: SenderContext.Ctx)
    requires Shape(files, phase, c) && SamePlace(c, d)
    ensures Shape(files, phase, d)
    ensures forall r, s2r, r2s :: Coupled(files, phase, d, r, s2r, r2s) == Coupled(files, phase, c, r, s2r, r2s)
  {
    hide BeforeStat, StatSent, EndSent, EotSent, InData, Silent, BlockCount, SenderContext.FilesFit;
  }

  /** The sender stops or stays where it is. */
  lemma QuietMove(files: seq<SrcFile>, y: Sys, o: S.Out, r2s: Data)
    requires Inv(files, y) && y.s.leaf != S.Final && (Ended(y.s, o) || Idle(files, y.s, o))
    requires (ACK in r2s ==> ACK in y.r2s) && (AtMostOneAck(y.r2s) ==> AtMostOneAck(r2s))
    ensures Inv(files, SenderMoves(y, o, r2s))
  {
    hide Shape, Live, OutsOk, Coupled, AtMostOneAck;
    SamePlaceSameStage(files, y.phase, y.s.ctx, o.s.ctx);
    var s2r := y.s2r + o.sent;
    forall b, eots | Line(y.s2r, b, eots) ensures Line(s2r, b, eots) {
    }
    if !y.r.leaf.IsOver() {
      CoupledWeakens(files, y.phase, y.s.ctx, y.r, y.s2r, y.r2s, s2r, r2s);
    }
  }

  lemma ResentStage(files: seq<SrcFile>, from: S.Leaf, to: S.Leaf, c: SenderContext.Ctx, r: R.Receiver, r2s: Data, b: Data)
    requires Shape(files, from, c) && Shape(files, to, c) && Coupled(files, from, c, r, [], r2s)
    requires from in {S.AckNakStat, S.One, S.AckNak} && to == (if from == S.One then S.AckNakStat else from)
    requires b == if c.named then SenderContext.Block(Current(files, c), c.k - 1) else EmptyStatBlk()
    ensures Coupled(files, to, c, r, [Blk(b)], [])
  {
    hide AwaitsStat, Receiving, AwaitsEnd, DoneCount, BlockCount, SenderContext.Block, SenderContext.FilesFit;
    hide SenderContext.FileFits, EmptyStatBlk;
    if from == S.AckNak {
      var p := c.fileNameIndex - 1;
      if InData(files, p, r, c.k - 1, c.k - 1, [], r2s) {
        assert InData(files, p, r, c.k - 1, c.k - 1, [Blk(b)], []);
      } else {
        assert InData(files, p, r, c.k - 2, c.k - 1, [Blk(b)], []);
      }
    } else if c.named {
      var p := c.fileNameIndex - 1;
      if InData(files, p, r, 0, 0, [], r2s) {
        assert InData(files, p, r, 0, 0, [Blk(b)], []);
      }
    }
  }

  function Current(files: seq<SrcFile>, c: SenderContext.Ctx): SrcFile
    requires c.named && 0 < c.fileNameIndex <= |files|
  {
    SenderContext.Current(files, c)
  }

  lemma AwaitingIsEnding(r: R.Receiver)
    requires AwaitsStat(r)
    ensures AwaitsEnd(r)
  {
    hide DoneCount;
  }

  /** The stat block goes out. */
  lemma StatGoesOut(files: seq<SrcFile>, c: SenderContext.Ctx, d: SenderContext.Ctx, r: R.Receiver, r2s: Data, b: Data)
    requires Shape(files, S.StatC, c) && Shape(files, S.AckNakStat, d) && SamePlace(c.(k := c.k + 1), d)
    requires Coupled(files, S.StatC, c, r, [], r2s)
    requires c.named ==> Current(files, c).openable
    requires b == if c.named then SenderContext.Block(Current(files, c), c.k) else EmptyStatBlk()
    ensures Coupled(files, S.AckNakStat, d, r, [Blk(b)], [])
  {
    hide AwaitsStat, InData, AwaitsEnd, DoneCount, BlockCount, SenderContext.Block, SenderContext.FileFits, EmptyStatBlk;
    AwaitingIsEnding(r);
    if c.named {
      assert StatSent(files, c.fileNameIndex - 1, r, [Blk(b)], []);
    } else {
      assert EndSent(files, r, [Blk(b)]);
    }
  }

  /** A new data block goes out, when the one before it is known to have arrived. */
  lemma DataGoesOut(files: seq<SrcFile>, from: S.Leaf, c: SenderContext.Ctx, d: SenderContext.Ctx, r: R.Receiver,
                    r2s: Data)
    requires Shape(files, from, c) && Shape(files, S.AckNak, d) && SamePlace(c.(k := c.k + 1), d)
    requires from == S.One || (from == S.AckNak && ACK in r2s)
    requires Coupled(files, from, c, r, [], r2s)
    ensures Coupled(files, S.AckNak, d, r, [Blk(SenderContext.Block(Current(files, c), c.k))], [])
  {
    hide Receiving, DoneCount, BlockCount, SenderContext.Block, SenderContext.FilesFit, SenderContext.FileFits;
    assert InData(files, c.fileNameIndex - 1, r, c.k - 1, c.k, [Blk(SenderContext.Block(Current(files, c), c.k))], []);
  }

  /** An ACK at the head is the only one. */
  lemma TheOneAck(r2s: Data)
    requires r2s != [] && r2s[0] == ACK && AtMostOneAck(r2s)
    ensures ACK !in r2s[1..]
  {
  }

  lemma EotAfterStat(files: seq<SrcFile>, p: nat, r: R.Receiver, s2r: seq<Item>, r2s: Data)
    requires InData(files, p, r, 0, 0, s2r, r2s) && Silent(r, s2r, r2s) && r2s != []
    requires BlockCount(files[p].content) == 0
    ensures EotSent(files, p, r, s2r + [Eot], r2s[1..])
  {
    hide Receiving, AwaitsStat, DoneCount, BlockCount, SenderContext.Block, SenderContext.FileFits, AtMostOneAck;
  }

  lemma EotAfterBlocks(files: seq<SrcFile>, p: nat, r: R.Receiver, j: nat, i: nat, s2r: seq<Item>, r2s: Data)
    requires InData(files, p, r, j, i, s2r, r2s) && r2s != [] && r2s[0] == ACK
    requires i == BlockCount(files[p].content)
    ensures EotSent(files, p, r, s2r + [Eot], r2s[1..])
  {
    hide Receiving, AwaitsStat, DoneCount, BlockCount, SenderContext.Block, SenderContext.FileFits, AtMostOneAck;
    TheOneAck(r2s);
    assert ACK in r2s;
  }

  /** The sender has read the ACK for the stat block. */
  lemma StatAcknowledged(files: seq<SrcFile>, c: SenderContext.Ctx, r: R.Receiver, s2r: seq<Item>, r2s: Data)
    requires Shape(files, S.AckNakStat, c) && Shape(files, S.One, c) && c.named
    requires r2s != [] && r2s[0] == ACK && Coupled(files, S.AckNakStat, c, r, s2r, r2s)
    ensures Coupled(files, S.One, c, r, s2r, r2s[1..])
  {
    assert OneAck(r, s2r, r2s);
    TheOneAck(r2s);
    hide Receiving, AwaitsStat, DoneCount, BlockCount, SenderContext.Block, SenderContext.FilesFit, SenderContext.FileFits;
    hide AtMostOneAck;
    assert AtMostOneAck(r2s[1..]) by { NoAckNoTwo(r2s[1..]); }
  }

  lemma NoAckNoTwo(r2s: Data)
    requires ACK !in r2s
    ensures AtMostOneAck(r2s)
  {
  }

  /** The first EOT of a file goes out, when its last block is known to have arrived. */
  lemma EotGoesOut(files: seq<SrcFile>, from: S.Leaf, c: SenderContext.Ctx, r: R.Receiver, s2r: seq<Item>, r2s: Data)
    requires Shape(files, from, c) && Shape(files, S.Eot1, c) && Coupled(files, from, c, r, s2r, r2s) && r2s != []
    requires from == S.One || (from == S.AckNak && r2s[0] == ACK)
    ensures Coupled(files, S.Eot1, c, r, s2r + [Eot], r2s[1..])
  {
    hide Receiving, AwaitsStat, DoneCount, BlockCount, SenderContext.Block, SenderContext.FileFits, AtMostOneAck;
    var p: int := c.fileNameIndex - 1;
    if from == S.One {
      EotAfterStat(files, p, r, s2r, r2s);
    } else {
      var j := if InData(files, p, r, c.k - 1, c.k - 1, s2r, r2s) then c.k - 1 else c.k - 2;
      EotAfterBlocks(files, p, r, j, c.k - 1, s2r, r2s);
    }
  }

  lemma EotAgain(files: seq<SrcFile>, from: S.Leaf, to: S.Leaf, c: SenderContext.Ctx, r: R.Receiver, s2r: seq<Item>,
                 r2s: Data)
    requires from in {S.Eot1, S.EotEot} && to in {S.Eot1, S.EotEot} && r2s != []
    requires Shape(files, from, c) && Shape(files, to, c) && Coupled(files, from, c, r, s2r, r2s)
    ensures Coupled(files, to, c, r, s2r + [Eot], r2s[1..])
  {
    hide Receiving, AwaitsStat, DoneCount, BlockCount, SenderContext.FilesFit;
  }

  /** An ACK for an EOT means that the receiver has closed the file. */
  lemma NextFileStage(files: seq<SrcFile>, from: S.Leaf, c: SenderContext.Ctx, d: SenderContext.Ctx, r: R.Receiver,
                      s2r: seq<Item>, r2s: Data)
    requires from in {S.Eot1, S.EotEot} && r2s != [] && r2s[0] == ACK
    requires Shape(files, from, c) && Shape(files, S.StatC, d) && Coupled(files, from, c, r, s2r, r2s)
    requires if c.fileNameIndex < |files| then d.named && d.fileNameIndex == c.fileNameIndex + 1
             else !d.named && d.fileNameIndex == c.fileNameIndex
    ensures Coupled(files, S.StatC, d, r, s2r, r2s[1..])
  {
    hide Receiving, AwaitsStat, DoneCount, BlockCount, SenderContext.FilesFit;
  }

  /** One case each for what the sender does with a byte. */
  lemma SenderReadKeeps(files: seq<SrcFile>, y: Sys, now: int)
    requires Inv(files, y) && Enabled(files, y, SenderReads(now))
    ensures Inv(files, Do(files, y, SenderReads(now)))
  {
    hide Shape, Live, OutsOk, Coupled, S.React;
    var c := y.r2s[0];
    var o := S.React(files, y.s, S.Ser(c), now);
    TailOfAcks(y.r2s);
    SenderOutcome(files, y.s, c, now);
    if Ended(y.s, o) || Idle(files, y.s, o) {
      QuietMove(files, y, o, y.r2s[1..]);
    } else {
      hide Ended, Idle, AtMostOneAck;
      BusyMove(files, y, o);
    }
  }

  lemma TailOfAcks(r2s: Data)
    requires r2s != []
    ensures (ACK in r2s[1..] ==> ACK in r2s) && (AtMostOneAck(r2s) ==> AtMostOneAck(r2s[1..]))
  {
  }

  lemma BusyMove(files: seq<SrcFile>, y: Sys, o: S.Out)
    requires Inv(files, y) && y.s.leaf != S.Final && y.r2s != [] && Busy(files, y.s, y.r2s[0], o)
    requires SendsBlk(o) ==> y.s2r == []
    ensures Inv(files, SenderMoves(y, o, y.r2s[1..]))
  {
    hide OutsOk, Coupled, Shape, Live, Busy;
    BusyShape(files, y.s, y.r2s[0], o);
    LiveShape(files, o.s);
    if !y.r.leaf.IsOver() {
      BusyStage(files, y, o);
    }
  }

  lemma BusyStage(files: seq<SrcFile>, y: Sys, o: S.Out)
    requires Inv(files, y) && y.s.leaf != S.Final && y.r2s != [] && Busy(files, y.s, y.r2s[0], o)
    requires SendsBlk(o) ==> y.s2r == []
    requires !y.r.leaf.IsOver() && Live(files, o.s) && Phase(o.s) == o.s.leaf
    ensures var z := SenderMoves(y, o, y.r2s[1..]);
            Shape(files, o.s.leaf, o.s.ctx) && Coupled(files, o.s.leaf, o.s.ctx, z.r, z.s2r, z.r2s)
  {
    hide OutsOk, Coupled, Shape, Live, SenderContext.Block, EmptyStatBlk;
    var s := y.s;
    var c := y.r2s[0];
    LiveShape(files, o.s);
    LiveShape(files, s);
    assert y.s2r + [] == y.s2r;
    if Resent(files, s, o) && c != ACK && s.leaf in {S.AckNakStat, S.One, S.AckNak} {
      PlaceShape(files, o.s.leaf, o.s.ctx, s.ctx);
      ResentStage(files, s.leaf, o.s.leaf, s.ctx, y.r, y.r2s, o.sent[0].bytes);
      SamePlaceSameStage(files, o.s.leaf, s.ctx, o.s.ctx);
    } else if s.leaf == S.StatC {
      StatGoesOut(files, s.ctx, o.s.ctx, y.r, y.r2s, o.sent[0].bytes);
    } else if SentNext(files, s, o, S.AckNak) {
      DataStageNamed(files, s);
      DataGoesOut(files, s.leaf, s.ctx, o.s.ctx, y.r, y.r2s);
    } else if s.leaf == S.AckNakStat {
      PlaceShape(files, o.s.leaf, o.s.ctx, s.ctx);
      StatAcknowledged(files, s.ctx, y.r, y.s2r, y.r2s);
      SamePlaceSameStage(files, o.s.leaf, s.ctx, o.s.ctx);
    } else if s.leaf in {S.One, S.AckNak} {
      PlaceShape(files, o.s.leaf, o.s.ctx, s.ctx);
      EotGoesOut(files, s.leaf, s.ctx, y.r, y.s2r, y.r2s);
      SamePlaceSameStage(files, o.s.leaf, s.ctx, o.s.ctx);
    } else if c != ACK {
      PlaceShape(files, o.s.leaf, o.s.ctx, s.ctx);
      EotAgain(files, s.leaf, o.s.leaf, s.ctx, y.r, y.s2r, y.r2s);
      SamePlaceSameStage(files, o.s.leaf, s.ctx, o.s.ctx);
    } else {
      NextFileStage(files, s.leaf, s.ctx, o.s.ctx, y.r, y.s2r, y.r2s);
    }
  }

  lemma DataStageNamed(files: seq<SrcFile>, s: S.Sender)
    requires Live(files, s) && s.leaf in {S.One, S.AckNak}
    ensures s.ctx.named && 0 < s.ctx.fileNameIndex <= |files|
  {
    NamedInData(files, s);
    hide Holds, BlockCount;
  }

  lemma PlaceShape(files: seq<SrcFile>, phase: S.Leaf, c: SenderContext.Ctx, d: SenderContext.Ctx)
    requires Shape(files, phase, c) && SamePlace(d, c)
    ensures Shape(files, phase, d)
  {
    hide BlockCount, SenderContext.FilesFit;
  }

  // ------------------------------------------------------------- theorem

  lemma ReceiverActKeeps(files: seq<SrcFile>, y: Sys, a: Act)
    requires Inv(files, y) && Enabled(files, y, a)
    requires a.ReceiverReads? || a.ReceiverGlitch? || a.ReceiverTimeout? || a.ReceiverCancel?
    ensures Inv(files, Do(files, y, a))
  {
    hide Shape, Live, OutsOk, Coupled, R.Fire, R.Cascade;
    match a {
      case ReceiverReads(env) =>
        ReadKeeps(files, y, env);
        TakesValid(y.r, y.s2r[0], env);
        hide Takes;
      case ReceiverGlitch(c, rest, env) => IdleKeeps(files, y, R.Ser(c, rest), env);
      case ReceiverTimeout(env) =>
        if y.r.leaf == R.TransientData {
          ReplyKeeps(files, y, env);
        } else {
          IdleKeeps(files, y, R.Tm, env);
        }
      case ReceiverCancel(env) => IdleKeeps(files, y, R.KbC, env);
    }
  }

  lemma StepKeeps(files: seq<SrcFile>, y: Sys, a: Act)
    requires Inv(files, y)
    ensures Inv(files, Step(files, y, a))
  {
    hide Inv, Enabled, Do;
    if Enabled(files, y, a) {
      match a {
        case SenderReads(now) => SenderReadKeeps(files, y, now);
        case SenderTimeout(now) => SenderEventKeeps(files, y, a);
        case SenderCancel(now) => SenderEventKeeps(files, y, a);
        case LoseItem(_) => LineActKeeps(files, y, a);
        case LoseReply(_) => LineActKeeps(files, y, a);
        case InjectReply(_, _) => LineActKeeps(files, y, a);
        case _ => ReceiverActKeeps(files, y, a);
      }
    }
  }

  lemma SenderEventKeeps(files: seq<SrcFile>, y: Sys, a: Act)
    requires Inv(files, y) && Enabled(files, y, a) && (a.SenderTimeout? || a.SenderCancel?)
    ensures Inv(files, Do(files, y, a))
  {
    hide Shape, Live, OutsOk, Coupled, S.React, Ended, Idle, AtMostOneAck;
    if a.SenderTimeout? {
      TimeoutEndsOrReturns(files, y.s, a.now);
      QuietMove(files, y, S.React(files, y.s, S.Tm, a.now), y.r2s);
    } else {
      CancelEndsOrStays(files, y.s, a.now);
      QuietMove(files, y, S.React(files, y.s, S.KbC, a.now), y.r2s);
    }
  }

  lemma {:induction false} RunKeeps(files: seq<SrcFile>, y: Sys, acts: seq<Act>)
    requires Inv(files, y)
    ensures Inv(files, Run(files, y, acts))
  {
    hide Inv, Step;
    if acts != [] {
      RunKeeps(files, y, acts[..|acts| - 1]);
      StepKeeps(files, Run(files, y, acts[..|acts| - 1]), acts[|acts| - 1]);
    }
  }

  /** End-to-end safety: on every run, what the receiver has written are prefixes of the sender's files, in their
      order and under their names, and every file that it has reported as "Done, " is complete. */
  lemma Safety(files: seq<SrcFile>, now: int, acts: seq<Act>)
    requires SenderContext.FilesFit(files)
    ensures var c := Run(files, Init(files, now), acts).r.ctx;
            && Completed(c) <= |c.outs| <= |files|
            && (forall i :: 0 <= i < |c.outs| ==>
                  c.outs[i].name == files[i].name && c.outs[i].data <= files[i].content)
            && (forall i :: 0 <= i < Completed(c) ==> c.outs[i].data == files[i].content)
  {
    InitInv(files, now);
    RunKeeps(files, Init(files, now), acts);
    hide Run, Init, DoneCount, Coupled, Shape, Live;
  }
}
