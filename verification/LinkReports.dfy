/** What the sender reports: every file that it has left behind is complete at the receiver, even if the receiver has
    stopped since. */
module LinkReports {
  import opened Bytes
  import opened Text
  import opened Blocks
  import opened Session
  import opened SenderSteps
  import opened ReceiverSteps
  import opened Link
  import opened LinkStages
  import opened LinkSafety
  import opened ReceiverBounds
  import L = Link
  import SenderContext
  import ReceiverContext
  import S = SenderChart
  import R = ReceiverChart

  /** How many files the sender has left behind. */
  function FilesBehind(c: SenderContext.Ctx): int
  {
    if c.named then c.fileNameIndex - 1 else c.fileNameIndex
  }

  /** What the replies on their way can still make the sender believe. This does not need a receiver at work. */
  ghost predicate RepliesOk(phase: S.Leaf, c: SenderContext.Ctx, done: nat, r2s: Data)
  {
    match phase
    case AckNakStat => c.named ==> AtMostOneAck(r2s)
    case One => ACK !in r2s
    case AckNak => AtMostOneAck(r2s)
    case Eot1 => ACK in r2s ==> c.fileNameIndex <= done
    case EotEot => ACK in r2s ==> c.fileNameIndex <= done
    case _ => true
  }

  ghost predicate Honest(files: seq<SrcFile>, y: Sys)
  {
    && Inv(files, y) && Bounded(y.r)
    && DoneCount(y.s.ctx.result) <= FilesBehind(y.s.ctx) <= Completed(y.r.ctx)
    && RepliesOk(y.phase, y.s.ctx, Completed(y.r.ctx), y.r2s)
  }

  // ------------------------------------------------------------ receiver

  /** A state that has just been left for good, or only waits for CONT, has not sent an ACK. */
  ghost predicate AckFree(o: R.Out)
  {
    o.r.leaf.IsOver() || o.r.leaf.IsTransient() ==> ACK !in o.sent
  }

  lemma FireReports(r: R.Receiver, e: R.Event, env: ReceiverContext.Env)
    requires r.Valid() && e.Valid() && !r.leaf.IsTransient() && !r.history.IsTransient() && !r.history.IsOver()
    ensures var o := R.Fire(r, e, env);
            AckFree(o) && Completed(r.ctx) <= Completed(o.r.ctx)
  {
    hide R.OnSer, R.OnTm, R.OnKb, AckFree, DoneCount;
    match e {
      case Ser(c, rest) => SerReports(r, c, rest, env);
      case Tm => TmReports(r, env);
      case KbC => KbReports(r);
    }
  }

  lemma ResultGrows(result: seq<Phrase>)
    ensures forall p: Phrase :: DoneCount(result + [p]) >= DoneCount(result)
  {
    forall p: Phrase ensures DoneCount(result + [p]) >= DoneCount(result) {
      DoneCountAppend(result, p);
    }
  }

  lemma SerReports(r: R.Receiver, c: byte, rest: Data, env: ReceiverContext.Env)
    requires r.Valid() && |rest| < BUF_SZ && !r.leaf.IsTransient() && !r.history.IsTransient() && !r.history.IsOver()
    ensures var o := R.OnSer(r, c, rest, env);
            AckFree(o) && Completed(r.ctx) <= Completed(o.r.ctx)
  {
    hide GetRest, ReceiverContext.GetRestPurges, DoneCount;
    ResultGrows(r.ctx.result);
  }

  lemma TmReports(r: R.Receiver, env: ReceiverContext.Env)
    requires r.Valid() && !r.leaf.IsTransient() && !r.history.IsTransient() && !r.history.IsOver()
    ensures var o := R.OnTm(r, env);
            AckFree(o) && Completed(r.ctx) <= Completed(o.r.ctx)
  {
    hide DoneCount;
    ResultGrows(r.ctx.result);
  }

  lemma KbReports(r: R.Receiver)
    requires r.Valid() && !r.leaf.IsTransient()
    ensures var o := R.OnKb(r);
            AckFree(o) && Completed(r.ctx) <= Completed(o.r.ctx)
  {
    hide DoneCount;
    ResultGrows(r.ctx.result);
  }

  lemma ContReports(r: R.Receiver, env: ReceiverContext.Env)
    requires r.Valid() && r.leaf.IsTransient()
    ensures var o := R.Cont(r, env);
            AckFree(o) && Completed(r.ctx) <= Completed(o.r.ctx)
  {
    hide ReceiverContext.OpenFile, DoneCount;
    ResultGrows(r.ctx.result);
    OpenKeepsResult(r.ctx, env);
  }

  lemma OpenKeepsResult(c: ReceiverContext.Ctx, env: ReceiverContext.Env)
    requires c.Valid()
    ensures ReceiverContext.OpenFile(c, env).c.result == c.result
  {
  }

  lemma {:induction false} CascadeReports(o: R.Out, env: ReceiverContext.Env, done: nat)
    requires o.r.Valid() && AckFree(o) && done <= Completed(o.r.ctx)
    ensures AckFree(R.Cascade(o, env)) && done <= Completed(R.Cascade(o, env).r.ctx)
    decreases o.r.leaf.Rank()
  {
    hide R.Cont, DoneCount;
    if o.r.leaf.IsTransient() {
      ContReports(o.r, env);
      var n := R.Cont(o.r, env);
      CascadeReports(R.Out(n.r, o.sent + n.sent, o.purged || n.purged), env, done);
    }
  }

  lemma ReactReports(r: R.Receiver, e: R.Event, env: ReceiverContext.Env)
    requires r.Valid() && e.Valid() && !r.leaf.IsTransient() && !r.history.IsTransient() && !r.history.IsOver()
    ensures var o := R.React(r, e, env);
            AckFree(o) && Completed(r.ctx) <= Completed(o.r.ctx)
  {
    hide R.Fire, R.Cascade, DoneCount;
    FireReports(r, e, env);
    CascadeReports(R.Fire(r, e, env), env, Completed(r.ctx));
  }

  /** A CAN byte is never answered with an ACK. */
  lemma CanDrawsNothing(r: R.Receiver, env: ReceiverContext.Env)
    requires r.Valid() && !r.leaf.IsTransient() && !r.leaf.IsOver()
    ensures ACK !in R.React(r, R.Ser(CAN, []), env).sent
  {
    hide GetRest, ReceiverContext.GetRestPurges, R.Cont, R.OnTm, R.OnKb;
  }

  lemma TakesReports(r: R.Receiver, item: Item, env: ReceiverContext.Env)
    requires Bounded(r) && !r.leaf.IsOver() && Whole(item)
    ensures var o := Takes(r, item, env);
            AckFree(o) && Completed(r.ctx) <= Completed(o.r.ctx) && Bounded(o.r)
  {
    hide R.React, DoneCount;
    match item {
      case Blk(b) =>
        ReactReports(r, R.Ser(b[0], b[1..]), env);
        ReactBounded(r, R.Ser(b[0], b[1..]), env);
      case Eot =>
        ReactReports(r, R.Ser(EOT, []), env);
        ReactBounded(r, R.Ser(EOT, []), env);
      case Cans =>
        var e := R.Ser(CAN, []);
        CanDrawsNothing(r, env);
        ReactReports(r, e, env);
        ReactBounded(r, e, env);
        var t := R.React(r, e, env).r;
        ReactReports(t, e, env);
        ReactBounded(t, e, env);
    }
  }

  /** A receiver at work has sent only what the sender may believe. */
  lemma StageReplies(files: seq<SrcFile>, phase: S.Leaf, c: SenderContext.Ctx, r: R.Receiver, s2r: seq<Item>, r2s: Data)
    requires Shape(files, phase, c) && Coupled(files, phase, c, r, s2r, r2s)
    ensures RepliesOk(phase, c, Completed(r.ctx), r2s)
  {
    hide Receiving, AwaitsStat, AwaitsEnd, DoneCount, BlockCount, Line, SenderContext.Block, SenderContext.FilesFit;
    hide SenderContext.FileFits;
    if ACK !in r2s {
      NoAckNoTwo(r2s);
    }
    hide AtMostOneAck;
  }

  /** A receiver that stops adds nothing that the sender might believe. */
  lemma StoppedReplies(phase: S.Leaf, c: SenderContext.Ctx, done: nat, done': nat, r2s: Data, sent: Data)
    requires RepliesOk(phase, c, done, r2s) && done <= done' && ACK !in sent
    ensures RepliesOk(phase, c, done', r2s + sent)
  {
    assert forall i :: 0 <= i < |sent| ==> (r2s + sent)[|r2s| + i] == sent[i];
  }

  lemma ReceiverReports(files: seq<SrcFile>, y: Sys, o: R.Out, s2r: seq<Item>)
    requires Honest(files, y) && Inv(files, ReceiverMoves(y, o, s2r)) && Bounded(o.r)
    requires AckFree(o) && Completed(y.r.ctx) <= Completed(o.r.ctx)
    ensures Honest(files, ReceiverMoves(y, o, s2r))
  {
    hide Shape, Live, OutsOk, Coupled, DoneCount, RepliesOk, Bounded;
    var z := ReceiverMoves(y, o, s2r);
    if o.r.leaf.IsOver() {
      StoppedReplies(y.phase, y.s.ctx, Completed(y.r.ctx), Completed(o.r.ctx), y.r2s, o.sent);
    } else {
      StageReplies(files, y.phase, y.s.ctx, z.r, z.s2r, z.r2s);
    }
  }

  lemma ReceiverActReports(files: seq<SrcFile>, y: Sys, a: Act)
    requires Honest(files, y) && Enabled(files, y, a)
    requires a.ReceiverReads? || a.ReceiverGlitch? || a.ReceiverTimeout? || a.ReceiverCancel?
    ensures Honest(files, Do(files, y, a))
  {
    ReceiverActKeeps(files, y, a);
    hide Inv, RepliesOk, R.Fire, R.Cascade, DoneCount;
    match a {
      case ReceiverReads(env) =>
        TakesReports(y.r, y.s2r[0], env);
        hide Takes, Bounded;
        ReceiverReports(files, y, Takes(y.r, y.s2r[0], env), y.s2r[1..]);
      case ReceiverGlitch(c, rest, env) =>
        ReactReports(y.r, R.Ser(c, rest), env);
        ReactBounded(y.r, R.Ser(c, rest), env);
        ReceiverReports(files, y, R.React(y.r, R.Ser(c, rest), env), y.s2r);
      case ReceiverTimeout(env) =>
        ReactReports(y.r, R.Tm, env);
        ReactBounded(y.r, R.Tm, env);
        ReceiverReports(files, y, R.React(y.r, R.Tm, env), y.s2r);
      case ReceiverCancel(env) =>
        ReactReports(y.r, R.KbC, env);
        ReactBounded(y.r, R.KbC, env);
        ReceiverReports(files, y, R.React(y.r, R.KbC, env), y.s2r);
    }
  }

  // -------------------------------------------------------------- sender

  /** The sender reports a file as done only when an ACK takes it from its second EOT to the next file. */
  lemma SenderResult(files: seq<SrcFile>, s: S.Sender, e: S.Event, now: int)
    requires SenderContext.FilesFit(files)
    ensures var o := S.React(files, s, e, now);
            DoneCount(o.s.ctx.result) <= DoneCount(s.ctx.result)
              + if s.leaf == S.EotEot && e == S.Ser(ACK) && o.s.leaf == S.StatC then 1 else 0
  {
    hide SenderContext.PrepStat, SenderContext.SendNew, DoneCount, S.NonCanSer;
    match e {
      case Ser(c) =>
        hide S.React;
        SerResult(files, s, c, now);
      case Tm =>
        DoneCountAppend(s.ctx.result, KbCancelled);
        DoneCountAppend(s.ctx.result, Timeout);
        hide S.StatCKb, S.NonCanKb;
      case KbC =>
        hide S.TopTm;
        OnePhrase(KbCancelledOpenErr);
        OnePhrase(KbCancelledFromStatC);
    }
  }

  lemma SerResult(files: seq<SrcFile>, s: S.Sender, c: byte, now: int)
    requires SenderContext.FilesFit(files)
    ensures var o := S.React(files, s, S.Ser(c), now);
            DoneCount(o.s.ctx.result) <= DoneCount(s.ctx.result)
              + if s.leaf == S.EotEot && c == ACK && o.s.leaf == S.StatC then 1 else 0
  {
    hide S.StatCSer, S.AckNakStatSer, S.OneSer, S.AckNakSer, S.Eot1Ser, S.EotEotSer, S.CanSer, DoneCount;
    match s.leaf {
      case StatC => StatSerResult(files, s, c, now);
      case AckNakStat => StatSerResult(files, s, c, now);
      case One => DataSerResult(files, s, c, now);
      case AckNak => DataSerResult(files, s, c, now);
      case Eot1 => EotSerResult(files, s, c, now);
      case EotEot => EotSerResult(files, s, c, now);
      case Can => CanSerResult(s, c);
      case Final =>
    }
  }

  lemma StatSerResult(files: seq<SrcFile>, s: S.Sender, c: byte, now: int)
    requires SenderContext.FilesFit(files)
    ensures DoneCount(S.StatCSer(files, s, c, now).s.ctx.result) <= DoneCount(s.ctx.result)
    ensures DoneCount(S.AckNakStatSer(s, c, now).s.ctx.result) <= DoneCount(s.ctx.result)
  {
    hide SenderContext.SendNew, DoneCount, S.NonCanSer;
    NonCanResult(s, c, now);
    KeepsResult(files, s.ctx);
    DoneCountAppend(s.ctx.result, OpenError);
    DoneCountAppend(s.ctx.result, EndOfSession);
  }

  lemma DataSerResult(files: seq<SrcFile>, s: S.Sender, c: byte, now: int)
    requires SenderContext.FilesFit(files)
    ensures DoneCount(S.OneSer(files, s, c, now).s.ctx.result) <= DoneCount(s.ctx.result)
    ensures DoneCount(S.AckNakSer(files, s, c, now).s.ctx.result) <= DoneCount(s.ctx.result)
  {
    hide SenderContext.SendNew, DoneCount, S.NonCanSer;
    NonCanResult(s, c, now);
    KeepsResult(files, s.ctx);
  }

  lemma EotSerResult(files: seq<SrcFile>, s: S.Sender, c: byte, now: int)
    requires SenderContext.FilesFit(files)
    requires s.leaf == S.Eot1 || s.leaf == S.EotEot
    ensures DoneCount(S.Eot1Ser(files, s, c, now).s.ctx.result) <= DoneCount(s.ctx.result)
    ensures s.leaf == S.EotEot ==>
              var o := S.EotEotSer(files, s, c, now);
              DoneCount(o.s.ctx.result) <= DoneCount(s.ctx.result) + if c == ACK && o.s.leaf == S.StatC then 1 else 0
  {
    hide SenderContext.PrepStat, DoneCount, S.NonCanSer;
    NonCanResult(s, c, now);
    KeepsResult(files, s.ctx);
    KeepsResult(files, s.ctx.Append(Done));
    DoneCountAppend(s.ctx.result, Done);
  }

  lemma CanSerResult(s: S.Sender, c: byte)
    ensures DoneCount(S.CanSer(s, c).s.ctx.result) <= DoneCount(s.ctx.result)
  {
    hide DoneCount;
    DoneCountAppend(s.ctx.result, RcvCancelled);
    DoneCountAppend(s.ctx.result, KbCancelled);
  }

  lemma NonDoneAppended(result: seq<Phrase>)
    ensures forall p: Phrase :: p != Done ==> DoneCount(result + [p]) == DoneCount(result)
  {
    forall p: Phrase | p != Done ensures DoneCount(result + [p]) == DoneCount(result) {
      DoneCountAppend(result, p);
    }
  }

  lemma NonCanResult(s: S.Sender, c: byte, now: int)
    ensures DoneCount(S.NonCanSer(s, c, now).s.ctx.result) == DoneCount(s.ctx.result)
  {
    hide DoneCount;
    NonDoneAppended(s.ctx.result);
  }

  lemma OnePhrase(p: Phrase)
    requires p != Done
    ensures DoneCount([p]) == 0
  {
    assert [p][..0] == [];
  }

  lemma KeepsResult(files: seq<SrcFile>, c: SenderContext.Ctx)
    requires SenderContext.FilesFit(files)
    ensures SenderContext.PrepStat(files, c).result == c.result && SenderContext.SendNew(files, c).result == c.result
  {
    hide Frame, StatBlk, EmptyStatBlk;
  }

  /** The replies left once the head has been read. */
  lemma QuietReplies(phase: S.Leaf, c: SenderContext.Ctx, d: SenderContext.Ctx, done: nat, r2s: Data, r2s': Data)
    requires RepliesOk(phase, c, done, r2s) && SamePlace(c, d)
    requires (ACK in r2s' ==> ACK in r2s) && (AtMostOneAck(r2s) ==> AtMostOneAck(r2s'))
    ensures RepliesOk(phase, d, done, r2s')
  {
    hide AtMostOneAck;
  }

  lemma QuietReports(files: seq<SrcFile>, y: Sys, o: S.Out, r2s: Data)
    requires Honest(files, y) && y.s.leaf != S.Final && (Ended(y.s, o) || Idle(files, y.s, o))
    requires DoneCount(o.s.ctx.result) <= DoneCount(y.s.ctx.result)
    requires (ACK in r2s ==> ACK in y.r2s) && (AtMostOneAck(y.r2s) ==> AtMostOneAck(r2s))
    ensures Honest(files, SenderMoves(y, o, r2s))
  {
    QuietMove(files, y, o, r2s);
    hide Inv, DoneCount, RepliesOk, AtMostOneAck, Live;
    QuietReplies(y.phase, y.s.ctx, o.s.ctx, Completed(y.r.ctx), y.r2s, r2s);
    PhaseStays(files, y, o);
  }

  lemma PhaseStays(files: seq<SrcFile>, y: Sys, o: S.Out)
    requires Inv(files, y) && y.s.leaf != S.Final && (Ended(y.s, o) || Idle(files, y.s, o))
    ensures SamePlace(y.s.ctx, o.s.ctx) && (o.s.leaf == S.Final || Phase(o.s) == y.phase) && !SendsBlk(o)
  {
    hide Shape, Live, OutsOk, Coupled;
  }

  /** Only an ACK for an EOT leaves a file behind, and then the receiver has closed it. */
  lemma BusyReports(files: seq<SrcFile>, y: Sys, o: S.Out)
    requires Honest(files, y) && y.s.leaf != S.Final && y.r2s != [] && Busy(files, y.s, y.r2s[0], o)
    requires SendsBlk(o) ==> y.s2r == []
    requires DoneCount(o.s.ctx.result) <= DoneCount(y.s.ctx.result)
               + if y.s.leaf == S.EotEot && y.r2s[0] == ACK && o.s.leaf == S.StatC then 1 else 0
    ensures Honest(files, SenderMoves(y, o, y.r2s[1..]))
  {
    BusyMove(files, y, o);
    BusyPlace(files, y.s, y.r2s[0], o);
    BusyReplies(files, y, o);
    hide Inv, Busy, RepliesOk, DoneCount, Bounded;
  }

  /** The four ways in which a byte moves the sender on: to the next file, to EOT, to a block, to the first block. */
  predicate ToNextFile(s: S.Sender, c: byte, o: S.Out)
  {
    o.s.leaf == S.StatC && s.leaf in {S.Eot1, S.EotEot} && c == ACK && !SendsBlk(o)
  }

  predicate ToEot(s: S.Sender, c: byte, o: S.Out)
  {
    && o.s.leaf in {S.Eot1, S.EotEot} && SamePlace(s.ctx, o.s.ctx) && !SendsBlk(o)
    && ((s.leaf == S.AckNak && c == ACK) || (s.leaf in {S.One, S.Eot1, S.EotEot} && c != ACK))
  }

  predicate ToBlock(s: S.Sender, o: S.Out)
  {
    && o.s.leaf in {S.AckNakStat, S.AckNak} && SendsBlk(o)
    && o.s.ctx.named == s.ctx.named && o.s.ctx.fileNameIndex == s.ctx.fileNameIndex
  }

  predicate ToOne(s: S.Sender, c: byte, o: S.Out)
  {
    o.s.leaf == S.One && s.leaf == S.AckNakStat && c == ACK && s.ctx.named && SamePlace(s.ctx, o.s.ctx) && !SendsBlk(o)
  }

  lemma BusyFacts(files: seq<SrcFile>, s: S.Sender, c: byte, o: S.Out)
    requires Live(files, s) && Busy(files, s, c, o)
    ensures ToNextFile(s, c, o) || ToEot(s, c, o) || ToBlock(s, o) || ToOne(s, c, o)
    ensures ToNextFile(s, c, o) ==> NextFile(files, s, o)
  {
    hide Live, SenderContext.Block, EmptyStatBlk;
  }

  lemma BusyPlace(files: seq<SrcFile>, s: S.Sender, c: byte, o: S.Out)
    requires Live(files, s) && Busy(files, s, c, o)
    ensures o.s.leaf != S.Final && Phase(o.s) == o.s.leaf
    ensures if o.s.leaf == S.StatC then
              s.leaf in {S.Eot1, S.EotEot} && c == ACK
              && FilesBehind(o.s.ctx) == s.ctx.fileNameIndex == FilesBehind(s.ctx) + 1
            else FilesBehind(o.s.ctx) == FilesBehind(s.ctx)
  {
    BusyFacts(files, s, c, o);
    BusyShape(files, s, c, o);
    LiveShape(files, s);
    hide Live, Busy, BlockCount, SenderContext.FilesFit;
  }

  lemma BusyReplies(files: seq<SrcFile>, y: Sys, o: S.Out)
    requires Honest(files, y) && y.s.leaf != S.Final && y.r2s != [] && Busy(files, y.s, y.r2s[0], o)
    ensures RepliesOk(o.s.leaf, o.s.ctx, Completed(y.r.ctx), if SendsBlk(o) then [] else y.r2s[1..])
    ensures y.s.leaf in {S.Eot1, S.EotEot} && y.r2s[0] == ACK ==> y.s.ctx.fileNameIndex <= Completed(y.r.ctx)
  {
    LiveOf(files, y);
    BusyFacts(files, y.s, y.r2s[0], o);
    BusyNotCan(files, y.s, y.r2s[0], o);
    LeafIsPhase(files, y);
    hide Inv, Live, Busy, Bounded, DoneCount, NextFile, ToNextFile, ToEot, ToBlock, ToOne, AtMostOneAck;
    MovedReplies(y.s, y.r2s[0], o, Completed(y.r.ctx), y.r2s);
  }

  lemma BusyNotCan(files: seq<SrcFile>, s: S.Sender, c: byte, o: S.Out)
    requires Live(files, s) && Busy(files, s, c, o)
    ensures s.leaf != S.Can
  {
    hide Live;
  }

  lemma MovedReplies(s: S.Sender, c: byte, o: S.Out, done: nat, r2s: Data)
    requires r2s != [] && r2s[0] == c && s.leaf != S.Can && (s.leaf in {S.One, S.AckNak} ==> s.ctx.named)
    requires RepliesOk(s.leaf, s.ctx, done, r2s)
    requires ToNextFile(s, c, o) || ToEot(s, c, o) || ToBlock(s, o) || ToOne(s, c, o)
    ensures RepliesOk(o.s.leaf, o.s.ctx, done, if SendsBlk(o) then [] else r2s[1..])
  {
    if AtMostOneAck(r2s) && c == ACK {
      TheOneAck(r2s);
    }
    NoAckNoTwo([]);
    hide AtMostOneAck, SendsBlk;
  }

  lemma LeafIsPhase(files: seq<SrcFile>, y: Sys)
    requires Inv(files, y) && y.s.leaf != S.Final
    ensures y.s.leaf != S.Can ==> y.phase == y.s.leaf
    ensures y.s.leaf in {S.One, S.AckNak} ==> y.s.ctx.named
  {
    hide Live, OutsOk, Coupled, BlockCount, SenderContext.FilesFit;
  }

  lemma SenderReadReports(files: seq<SrcFile>, y: Sys, now: int)
    requires Honest(files, y) && Enabled(files, y, SenderReads(now))
    ensures Honest(files, Do(files, y, SenderReads(now)))
  {
    var c := y.r2s[0];
    var o := S.React(files, y.s, S.Ser(c), now);
    TailOfAcks(y.r2s);
    LiveOf(files, y);
    SenderOutcome(files, y.s, c, now);
    SenderResult(files, y.s, S.Ser(c), now);
    hide Honest, S.React, Busy, Live, DoneCount, AtMostOneAck;
    if Ended(y.s, o) || Idle(files, y.s, o) {
      LeafOfQuiet(files, y.s, o);
      QuietReports(files, y, o, y.r2s[1..]);
    } else {
      hide Ended, Idle;
      BusyReports(files, y, o);
    }
  }

  lemma LiveOf(files: seq<SrcFile>, y: Sys)
    requires Honest(files, y) && y.s.leaf != S.Final
    ensures Live(files, y.s)
  {
    hide Live, OutsOk, Coupled, Shape, DoneCount, Bounded;
  }

  lemma LeafOfQuiet(files: seq<SrcFile>, s: S.Sender, o: S.Out)
    requires Ended(s, o) || Idle(files, s, o)
    ensures s.leaf == S.EotEot ==> o.s.leaf != S.StatC
  {
    hide Live;
  }

  lemma SenderEventReports(files: seq<SrcFile>, y: Sys, a: Act)
    requires Honest(files, y) && Enabled(files, y, a) && (a.SenderTimeout? || a.SenderCancel?)
    ensures Honest(files, Do(files, y, a))
  {
    LiveOf(files, y);
    hide Honest, S.React, Ended, Idle, AtMostOneAck, Live, DoneCount;
    if a.SenderTimeout? {
      TimeoutEndsOrReturns(files, y.s, a.now);
      SenderResult(files, y.s, S.Tm, a.now);
      QuietReports(files, y, S.React(files, y.s, S.Tm, a.now), y.r2s);
    } else {
      CancelEndsOrStays(files, y.s, a.now);
      SenderResult(files, y.s, S.KbC, a.now);
      QuietReports(files, y, S.React(files, y.s, S.KbC, a.now), y.r2s);
    }
  }

  lemma LineActReports(files: seq<SrcFile>, y: Sys, a: Act)
    requires Honest(files, y) && Enabled(files, y, a) && (a.LoseItem? || a.LoseReply? || a.InjectReply?)
    ensures Honest(files, Do(files, y, a))
  {
    hide Inv, RepliesOk, DoneCount, Bounded, AtMostOneAck;
    LineActKeeps(files, y, a);
    var z := Do(files, y, a);
    match a {
      case LoseItem(i) =>
      case LoseReply(i) => AcksLose(y.r2s, i);
      case InjectReply(i, c) => AcksInjected(y.r2s, i, c);
    }
    QuietReplies(y.phase, y.s.ctx, y.s.ctx, Completed(y.r.ctx), y.r2s, z.r2s);
  }

  lemma StepReports(files: seq<SrcFile>, y: Sys, a: Act)
    requires Honest(files, y)
    ensures Honest(files, Step(files, y, a))
  {
    hide Honest, Enabled, Do;
    if Enabled(files, y, a) {
      match a {
        case SenderReads(now) => SenderReadReports(files, y, now);
        case SenderTimeout(now) => SenderEventReports(files, y, a);
        case SenderCancel(now) => SenderEventReports(files, y, a);
        case LoseItem(_) => LineActReports(files, y, a);
        case LoseReply(_) => LineActReports(files, y, a);
        case InjectReply(_, _) => LineActReports(files, y, a);
        case _ => ReceiverActReports(files, y, a);
      }
    }
  }

  lemma {:induction false} RunReports(files: seq<SrcFile>, y: Sys, acts: seq<Act>)
    requires Honest(files, y)
    ensures Honest(files, L.Run(files, y, acts))
  {
    hide Honest, Step;
    if acts != [] {
      RunReports(files, y, acts[..|acts| - 1]);
      StepReports(files, L.Run(files, y, acts[..|acts| - 1]), acts[|acts| - 1]);
    }
  }

  lemma InitHonest(files: seq<SrcFile>, now: int)
    requires SenderContext.FilesFit(files)
    ensures Honest(files, Init(files, now))
  {
    InitInv(files, now);
    StartBounded();
    KeepsResult(files, SenderContext.InitialCtx());
    PrepStatLive(files, S.Start(files, now), SenderContext.InitialCtx(), now);
    hide Inv, SenderContext.PrepStat, Live, Bounded;
  }

  /** The sender's word is good: on every run, every file that the sender has left behind to offer the next one, and
      so every file that it has reported as "Done, ", has been written completely by the receiver. */
  lemma SenderIsRight(files: seq<SrcFile>, now: int, acts: seq<Act>)
    requires SenderContext.FilesFit(files)
    ensures var y := L.Run(files, Init(files, now), acts);
            && DoneCount(y.s.ctx.result) <= FilesBehind(y.s.ctx) <= |y.r.ctx.outs| <= |files|
            && forall i :: 0 <= i < FilesBehind(y.s.ctx) ==>
                 y.r.ctx.outs[i].name == files[i].name && y.r.ctx.outs[i].data == files[i].content
  {
    InitHonest(files, now);
    RunReports(files, Init(files, now), acts);
    hide L.Run, Init, DoneCount, Coupled, Shape, Live, Bounded, RepliesOk;
  }

  // ------------------------------------------------------ end of session

  predicate Ends(result: seq<Phrase>)
  {
    EndOfSession in result
  }

  /** "EndOfSession" is in the sender's result only when it has stopped behind the last file. */
  predicate EndOk(s: S.Sender)
  {
    Ends(s.ctx.result) ==> s.leaf == S.Final && !s.ctx.named
  }

  lemma AppendEnds(result: seq<Phrase>)
    ensures forall p: Phrase :: Ends(result + [p]) <==> Ends(result) || p == EndOfSession
  {
    forall p: Phrase ensures Ends(result + [p]) <==> Ends(result) || p == EndOfSession {
      assert (result + [p])[|result|] == p;
    }
  }

  lemma NonCanEndOk(s: S.Sender, c: byte, now: int)
    requires !Ends(s.ctx.result)
    ensures !Ends(S.NonCanSer(s, c, now).s.ctx.result)
  {
    AppendEnds(s.ctx.result);
    hide Ends;
  }

  lemma SerEndOk(files: seq<SrcFile>, s: S.Sender, c: byte, now: int)
    requires SenderContext.FilesFit(files) && !Ends(s.ctx.result)
    ensures EndOk(S.React(files, s, S.Ser(c), now).s)
  {
    hide S.StatCSer, S.AckNakStatSer, S.OneSer, S.AckNakSer, S.Eot1Ser, S.EotEotSer, S.CanSer, EndOk;
    match s.leaf {
      case StatC => StatSerEndOk(files, s, c, now);
      case AckNakStat => StatSerEndOk(files, s, c, now);
      case One => DataSerEndOk(files, s, c, now);
      case AckNak => DataSerEndOk(files, s, c, now);
      case Eot1 => EotSerEndOk(files, s, c, now);
      case EotEot => EotSerEndOk(files, s, c, now);
      case Can => CanSerEndOk(s, c);
      case Final => NotEnded(s);
    }
  }

  lemma NotEnded(s: S.Sender)
    requires !Ends(s.ctx.result)
    ensures EndOk(s)
  {
  }

  lemma StatSerEndOk(files: seq<SrcFile>, s: S.Sender, c: byte, now: int)
    requires SenderContext.FilesFit(files) && !Ends(s.ctx.result)
    ensures EndOk(S.StatCSer(files, s, c, now).s) && EndOk(S.AckNakStatSer(s, c, now).s)
  {
    hide SenderContext.SendNew, S.NonCanSer, Ends;
    AppendEnds(s.ctx.result);
    NonCanEndOk(s, c, now);
    KeepsResult(files, s.ctx);
  }

  lemma DataSerEndOk(files: seq<SrcFile>, s: S.Sender, c: byte, now: int)
    requires SenderContext.FilesFit(files) && !Ends(s.ctx.result)
    ensures EndOk(S.OneSer(files, s, c, now).s) && EndOk(S.AckNakSer(files, s, c, now).s)
  {
    hide SenderContext.SendNew, S.NonCanSer, Ends;
    NonCanEndOk(s, c, now);
    KeepsResult(files, s.ctx);
  }

  lemma EotSerEndOk(files: seq<SrcFile>, s: S.Sender, c: byte, now: int)
    requires SenderContext.FilesFit(files) && !Ends(s.ctx.result)
    ensures EndOk(S.Eot1Ser(files, s, c, now).s) && EndOk(S.EotEotSer(files, s, c, now).s)
  {
    hide SenderContext.PrepStat, S.NonCanSer, Ends;
    AppendEnds(s.ctx.result);
    NonCanEndOk(s, c, now);
    KeepsResult(files, s.ctx);
    KeepsResult(files, s.ctx.Append(Done));
  }

  lemma CanSerEndOk(s: S.Sender, c: byte)
    requires !Ends(s.ctx.result)
    ensures EndOk(S.CanSer(s, c).s)
  {
    hide Ends;
    AppendEnds(s.ctx.result);
  }

  lemma OtherEndOk(files: seq<SrcFile>, s: S.Sender, e: S.Event, now: int)
    requires SenderContext.FilesFit(files) && !Ends(s.ctx.result) && !e.Ser?
    ensures EndOk(S.React(files, s, e, now).s)
  {
    hide Ends;
    AppendEnds(s.ctx.result);
    CancelledEarly();
  }

  lemma CancelledEarly()
    ensures !Ends([KbCancelledOpenErr]) && !Ends([KbCancelledFromStatC])
  {
  }

  lemma StepEndOk(files: seq<SrcFile>, y: Sys, a: Act)
    requires EndOk(y.s)
    ensures EndOk(Step(files, y, a).s)
  {
    hide Inv, EndOk;
    if Enabled(files, y, a) && y.s.leaf != S.Final {
      NotYetEnded(y.s);
      hide S.React, R.React, Takes;
      match a {
        case SenderReads(now) => SerEndOk(files, y.s, y.r2s[0], now);
        case SenderTimeout(now) => OtherEndOk(files, y.s, S.Tm, now);
        case SenderCancel(now) => OtherEndOk(files, y.s, S.KbC, now);
        case _ =>
      }
    }
  }

  lemma NotYetEnded(s: S.Sender)
    requires EndOk(s) && s.leaf != S.Final
    ensures !Ends(s.ctx.result)
  {
  }

  lemma {:induction false} RunEndOk(files: seq<SrcFile>, y: Sys, acts: seq<Act>)
    requires EndOk(y.s)
    ensures EndOk(L.Run(files, y, acts).s)
  {
    hide EndOk, Step;
    if acts != [] {
      RunEndOk(files, y, acts[..|acts| - 1]);
      StepEndOk(files, L.Run(files, y, acts[..|acts| - 1]), acts[|acts| - 1]);
    }
  }

  /** When the sender has reported "EndOfSession", on whatever run, the receiver has written all of its files
      completely. */
  lemma EndOfSessionMeansAllFiles(files: seq<SrcFile>, now: int, acts: seq<Act>)
    requires SenderContext.FilesFit(files)
    ensures var y := L.Run(files, Init(files, now), acts);
            EndOfSession in y.s.ctx.result ==>
              && |y.r.ctx.outs| == |files|
              && forall i :: 0 <= i < |files| ==>
                   y.r.ctx.outs[i].name == files[i].name && y.r.ctx.outs[i].data == files[i].content
  {
    SenderIsRight(files, now, acts);
    KeepsResult(files, SenderContext.InitialCtx());
    RunEndOk(files, Init(files, now), acts);
    RunReports(files, Init(files, now), acts) by {
      InitHonest(files, now);
    }
    var y := L.Run(files, Init(files, now), acts);
    hide L.Run, Init, Coupled, Live, Bounded, RepliesOk, DoneCount, OutsOk, SenderContext.FilesFit;
  }
}
