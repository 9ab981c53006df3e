/** Both peers and the line between them, as a system of steps. */
module Link {
  import opened Bytes
  import opened Text
  import opened Blocks
  import opened Session
  import opened SenderSteps
  import opened ReceiverSteps
  import SenderContext
  import S = SenderChart
  import R = ReceiverChart
  import opened ReceiverContext

  /** The two machines, what is on its way to the receiver, and what is on its way to the sender. `phase` is a
      history variable: the phase that the sender is in, or was in when it stopped. */
  datatype Sys = Sys(s: S.Sender, r: R.Receiver, s2r: seq<Item>, r2s: Data, phase: S.Leaf)

  /** What can happen next. The line may lose anything, may put anything but an ACK in front of the sender, and
      may show the receiver noise or a damaged block at any time. */
  datatype Act =
    | SenderReads(now: int)
    | SenderTimeout(now: int)
    | SenderCancel(now: int)
    | ReceiverReads(env: Env)
    | ReceiverGlitch(c: byte, rest: Data, env: Env)
    | ReceiverTimeout(env: Env)
    | ReceiverCancel(env: Env)
    | LoseItem(i: nat)
    | LoseReply(i: nat)
    | InjectReply(i: nat, c: byte)

  function Init(files: seq<SrcFile>, now: int): Sys
    requires SenderContext.FilesFit(files)
  {
    Sys(S.Start(files, now), R.Start().r, [], R.Start().sent, S.StatC)
  }

  predicate SendsBlk(o: S.Out)
  {
    |o.sent| > 0 && o.sent[0].Blk?
  }

  /** The system once the sender has reacted. Behind a block the sender waits until the line has taken it, and
      then discards what it has been sent so far. */
  function SenderMoves(y: Sys, o: S.Out, r2s: Data): Sys
  {
    Sys(o.s, y.r, if SendsBlk(o) then o.sent else y.s2r + o.sent, if SendsBlk(o) then [] else r2s,
        if o.s.leaf == S.Final then y.phase else Phase(o.s))
  }

  /** The system once the receiver has reacted, with `s2r` still on its way to it. A purge discards what has come
      through by then, which can be any part of the line: that part is lost to `LoseItem`. */
  function ReceiverMoves(y: Sys, o: R.Out, s2r: seq<Item>): Sys
  {
    y.(r := o.r, s2r := s2r, r2s := y.r2s + o.sent)
  }

  /** What the receiver makes of an item. A burst of CAN bytes is more than one event. */
  function Takes(r: R.Receiver, item: Item, env: Env): R.Out
    requires r.Valid() && Whole(item)
  {
    match item
    case Blk(b) => R.React(r, R.Ser(b[0], b[1..]), env)
    case Eot => R.React(r, R.Ser(EOT, []), env)
    case Cans =>
      var o1 := R.React(r, R.Ser(CAN, []), env);
      var o2 := R.React(o1.r, R.Ser(CAN, []), env);
      R.Out(o2.r, o1.sent + o2.sent, o1.purged || o2.purged)
  }

  predicate Whole(item: Item)
  {
    item.Blk? ==> |item.bytes| == BLK_SZ
  }

  /** Whether an act can happen. A block is on the line alone, because sending it waits until the line is empty,
      and the receiver's zero timeout comes only when nothing can be read. */
  ghost predicate Enabled(files: seq<SrcFile>, y: Sys, a: Act)
  {
    SenderContext.FilesFit(files) && y.r.Valid() &&
    match a
    case SenderReads(now) =>
      && y.s.leaf != S.Final && y.r2s != []
      && (SendsBlk(S.React(files, y.s, S.Ser(y.r2s[0]), now)) ==> y.s2r == [])
    case SenderTimeout(_) => y.s.leaf != S.Final
    case SenderCancel(_) => y.s.leaf != S.Final
    case ReceiverReads(_) => !y.r.leaf.IsOver() && y.s2r != [] && Whole(y.s2r[0])
    case ReceiverGlitch(c, rest, _) => !y.r.leaf.IsOver() && IsNoise(y.r, c, rest)
    case ReceiverTimeout(_) => !y.r.leaf.IsOver() && (y.r.leaf == R.TransientData ==> y.s2r == [])
    case ReceiverCancel(_) => !y.r.leaf.IsOver()
    case LoseItem(i) => i < |y.s2r|
    case LoseReply(i) => i < |y.r2s|
    case InjectReply(i, c) => i <= |y.r2s| && c != ACK
  }

  /** The system after an act that can happen. */
  ghost function Do(files: seq<SrcFile>, y: Sys, a: Act): Sys
    requires Enabled(files, y, a)
  {
    match a
    case SenderReads(now) => SenderMoves(y, S.React(files, y.s, S.Ser(y.r2s[0]), now), y.r2s[1..])
    case SenderTimeout(now) => SenderMoves(y, S.React(files, y.s, S.Tm, now), y.r2s)
    case SenderCancel(now) => SenderMoves(y, S.React(files, y.s, S.KbC, now), y.r2s)
    case ReceiverReads(env) => ReceiverMoves(y, Takes(y.r, y.s2r[0], env), y.s2r[1..])
    case ReceiverGlitch(c, rest, env) => ReceiverMoves(y, R.React(y.r, R.Ser(c, rest), env), y.s2r)
    case ReceiverTimeout(env) => ReceiverMoves(y, R.React(y.r, R.Tm, env), y.s2r)
    case ReceiverCancel(env) => ReceiverMoves(y, R.React(y.r, R.KbC, env), y.s2r)
    case LoseItem(i) => y.(s2r := y.s2r[..i] + y.s2r[i + 1..])
    case LoseReply(i) => y.(r2s := y.r2s[..i] + y.r2s[i + 1..])
    case InjectReply(i, c) => y.(r2s := y.r2s[..i] + [c] + y.r2s[i..])
  }

  /** Acts that cannot happen are skipped. */
  ghost function Step(files: seq<SrcFile>, y: Sys, a: Act): Sys
  {
    if Enabled(files, y, a) then Do(files, y, a) else y
  }

  ghost function Run(files: seq<SrcFile>, y: Sys, acts: seq<Act>): Sys
  {
    if acts == [] then y
    else Step(files, Run(files, y, acts[..|acts| - 1]), acts[|acts| - 1])
  }

  lemma {:induction false} RunAppend(files: seq<SrcFile>, y: Sys, acts: seq<Act>, more: seq<Act>)
    ensures Run(files, y, acts + more) == Run(files, Run(files, y, acts), more)
  {
    hide Step;
    if more == [] {
      assert acts + more == acts;
    } else {
      assert (acts + more)[..|acts + more| - 1] == acts + more[..|more| - 1];
      RunAppend(files, y, acts, more[..|more| - 1]);
    }
  }

  lemma RunOfOne(files: seq<SrcFile>, y: Sys, a: Act)
    ensures Run(files, y, [a]) == Step(files, y, a)
  {
    hide Step;
    assert [a][..0] == [];
  }

  lemma RunOfTwo(files: seq<SrcFile>, y: Sys, a: Act, b: Act)
    ensures Run(files, y, [a, b]) == Step(files, Step(files, y, a), b)
  {
    hide Step;
    RunOfOne(files, y, a);
    assert [a, b][..1] == [a];
  }

  lemma RunOfThree(files: seq<SrcFile>, y: Sys, a: Act, b: Act, c: Act)
    ensures Run(files, y, [a, b, c]) == Step(files, Step(files, Step(files, y, a), b), c)
  {
    hide Step;
    RunOfTwo(files, y, a, b);
    assert [a, b, c][..2] == [a, b];
  }

  /** Discarding any number of items from the head of the line, all of them or none, is a run of losses. */
  lemma {:induction false} PurgeIsLosses(files: seq<SrcFile>, y: Sys, n: nat)
    requires SenderContext.FilesFit(files) && y.r.Valid() && n <= |y.s2r|
    ensures Run(files, y, seq(n, _ => LoseItem(0))) == y.(s2r := y.s2r[n..])
  {
    var acts := seq(n, _ => LoseItem(0));
    if n > 0 {
      PurgeIsLosses(files, y, n - 1);
      assert acts[..n - 1] == seq(n - 1, _ => LoseItem(0));
    }
  }
}
