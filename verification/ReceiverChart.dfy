/** The receiver's statechart (yReceiverSS.cpp) as a function of state and event. */
module ReceiverChart {
  import opened Bytes
  import opened Text
  import opened Blocks
  import opened Session
  import opened ReceiverContext

  /** The leaf states, the final state, and the end by an exception. */
  datatype Leaf =
    | FirstByteStat
    | FirstByteData
    | EotData
    | TransientData
    | TransientCheck
    | TransientOpen
    | TransientEot
    | TransientStat
    | AreWeDone
    | Can
    | Final
    | Aborted
  {
    /** States that only wait for the CONT message that their entry action posts. */
    predicate IsTransient()
    {
      TransientCheck? || TransientOpen? || TransientEot? || TransientStat?
    }

    predicate IsOver()
    {
      Final? || Aborted?
    }

    /** How many CONT messages can still follow. */
    function Rank(): (n: nat)
      ensures n <= 3 && (n == 0 <==> !IsTransient())
    {
      match this
      case TransientStat => 3
      case TransientCheck => 2
      case TransientOpen => 1
      case TransientEot => 1
      case _ => 0
    }
  }

  /** The active leaf, the state to which NON_CAN returns, and the context. */
  datatype Receiver = Receiver(leaf: Leaf, history: Leaf, ctx: Ctx)
  {
    ghost predicate Valid()
    {
      ctx.Valid()
    }
  }

  /** A byte from the medium, with what `getRestBlk` would read behind it; a timeout; a keyboard cancel. */
  datatype Event = Ser(c: byte, rest: Data) | Tm | KbC
  {
    ghost predicate Valid()
    {
      Ser? ==> |rest| < BUF_SZ
    }
  }

  /** The state after a reaction, the bytes it sends, and whether it discards what is on the line. */
  datatype Out = Out(r: Receiver, sent: Data, purged: bool)

  const NCG_BYTE: byte := CHAR_C

  function CanBytes(): Data
  {
    Fill(8, CAN)
  }

  /** Entry of the initial states: 'C' goes out, and a stat block is awaited. */
  function Start(): Out
  {
    Out(Receiver(FirstByteStat, FirstByteStat, InitialCtx().(closeProb := -1)), [NCG_BYTE], false)
  }

  function Quiet(r: Receiver): Out
  {
    Out(r, [], false)
  }

  function Finish(r: Receiver, c: Ctx, p: Phrase): Receiver
  {
    r.(leaf := Final, ctx := c.Append(p))
  }

  // ------------------------------------------------- top level, NON_CAN

  function TopSer(r: Receiver): Out
  {
    Out(Finish(r, r.ctx, if r.ctx.kbCan then KbCancelledDelayed else ExcessiveErrors), CanBytes(), true)
  }

  function TopTm(r: Receiver): Out
  {
    Out(Finish(r, r.ctx, if r.ctx.kbCan then KbCancelled else ExcessiveErrors), CanBytes(), false)
  }

  /** The history state of NON_CAN when it is left: only its own children are remembered. */
  function Remembered(leaf: Leaf, history: Leaf): Leaf
  {
    if leaf == FirstByteData || leaf == EotData then history else leaf
  }

  function NonCanSer(r: Receiver, c: byte): Out
  {
    if !r.ctx.kbCan && c != CAN then Out(r, [], true)
    else if c == CAN then Quiet(r.(leaf := Can, history := Remembered(r.leaf, r.history)))
    else TopSer(r)
  }

  function NonCanTm(r: Receiver): Out
  {
    if r.ctx.errCnt < ERR_BOUND && !r.ctx.kbCan then
      Out(r.(ctx := r.ctx.(errCnt := r.ctx.errCnt + 1)), [if r.ctx.fd == -1 then NCG_BYTE else NAK], false)
    else TopTm(r)
  }

  // ----------------------------------------------------------- leaves

  function DataSer(r: Receiver, c: byte, rest: Data): Out
    requires r.Valid() && |rest| < BUF_SZ
  {
    if !r.ctx.kbCan && c == SOH then
      var d := GetRestBlk(r.ctx, rest);
      var e := if d.rx.goodBlk1st then d.(errCnt := 0, anotherFile := 0) else d.(errCnt := d.errCnt + 1);
      Out(r.(leaf := TransientData, ctx := e), [], GetRestPurges(r.ctx, rest))
    else NonCanSer(r, c)
  }

  function FirstByteDataSer(r: Receiver, c: byte, rest: Data): Out
    requires r.Valid() && |rest| < BUF_SZ
  {
    if !r.ctx.kbCan && c == EOT then
      Out(r.(leaf := EotData, ctx := r.ctx.(errCnt := r.ctx.errCnt + 1)), [NAK], true)
    else DataSer(r, c, rest)
  }

  function EotDataSer(r: Receiver, c: byte, rest: Data, env: Env): Out
    requires r.Valid() && |rest| < BUF_SZ
  {
    if c == EOT then Quiet(r.(leaf := TransientEot, ctx := CloseFile(r.ctx, env)))
    else DataSer(r, c, rest)
  }

  function FirstByteStatSer(r: Receiver, c: byte, rest: Data): Out
    requires r.Valid() && |rest| < BUF_SZ
  {
    if c == EOT && r.ctx.closeProb == 0 && r.ctx.errCnt >= ERR_BOUND then
      Out(Finish(r, r.ctx, ExcessiveEots), CanBytes(), false)
    else if c == EOT && r.ctx.closeProb == 0 then
      Out(r.(ctx := r.ctx.(errCnt := r.ctx.errCnt + 1)), [ACK, NCG_BYTE], false)
    else if !r.ctx.kbCan && c == SOH then
      var d := GetRestBlk(r.ctx, rest);
      var e := if d.closeProb == 0 then d.(errCnt := 0, closeProb := -1) else d;
      Out(r.(leaf := TransientStat, ctx := e), [], GetRestPurges(r.ctx, rest))
    else NonCanSer(r, c)
  }

  function AreWeDoneSer(r: Receiver, c: byte, rest: Data): Out
    requires r.Valid() && |rest| < BUF_SZ
  {
    if !r.ctx.kbCan && c == SOH then
      var d := GetRestBlk(r.ctx, rest);
      Out(r.(leaf := TransientStat, ctx := d.(errCnt := d.errCnt + 1)), [], GetRestPurges(r.ctx, rest))
    else NonCanSer(r, c)
  }

  function CanSer(r: Receiver, c: byte, env: Env): Out
  {
    if c != CAN && !r.ctx.kbCan then Out(r.(leaf := r.history), [], true)
    else if c == CAN then Out(Finish(r, CloseFile(r.ctx, env), SndCancelled), [], true)
    else TopSer(r)
  }

  /** The zero timeout of TransientData: the reply to a block goes out, and new data go to the disk. */
  function TransientDataTm(r: Receiver, env: Env): Out
    requires r.Valid()
  {
    var c := r.ctx;
    if !c.rx.syncLoss && c.errCnt < ERR_BOUND then
      var reply := if c.rx.goodBlk then [ACK] + (if c.anotherFile != 0 then [CHAR_C] else []) else [NAK];
      Out(r.(leaf := FirstByteData, ctx := if c.rx.goodBlk1st then WriteChunk(c) else c), reply, false)
    else
      Out(Finish(r, CloseFile(c, env), if c.rx.syncLoss then LossOfSync else ExcessiveErrors), CanBytes(), false)
  }

  function OnSer(r: Receiver, c: byte, rest: Data, env: Env): (o: Out)
    requires r.Valid() && |rest| < BUF_SZ
    ensures o.r.Valid()
  {
    match r.leaf
    case FirstByteStat => FirstByteStatSer(r, c, rest)
    case FirstByteData => FirstByteDataSer(r, c, rest)
    case EotData => EotDataSer(r, c, rest, env)
    case TransientData => Out(r, [], true)
    case AreWeDone => AreWeDoneSer(r, c, rest)
    case Can => CanSer(r, c, env)
    case Final => Quiet(r)
    case Aborted => Quiet(r)
    case _ => NonCanSer(r, c)
  }

  function OnTm(r: Receiver, env: Env): (o: Out)
    requires r.Valid()
    ensures o.r.Valid()
  {
    match r.leaf
    case TransientData => TransientDataTm(r, env)
    case AreWeDone => Quiet(Finish(r, r.ctx, EndOfSession))
    case Can => if !r.ctx.kbCan then Quiet(r.(leaf := r.history)) else TopTm(r)
    case Final => Quiet(r)
    case Aborted => Quiet(r)
    case _ => NonCanTm(r)
  }

  function OnKb(r: Receiver): (o: Out)
    requires r.Valid()
    ensures o.r.Valid()
  {
    match r.leaf
    case TransientData => Out(Finish(r, r.ctx.(kbCan := true), KbCancelledImmediate), CanBytes(), false)
    case Final => Quiet(r)
    case Aborted => Quiet(r)
    case _ => Quiet(r.(ctx := r.ctx.(kbCan := true)))
  }

  /** The reaction of the active leaf, or of the state around it, to one event. */
  function Fire(r: Receiver, e: Event, env: Env): (o: Out)
    requires r.Valid() && e.Valid()
    ensures o.r.Valid()
  {
    match e
    case Ser(c, rest) => OnSer(r, c, rest, env)
    case Tm => OnTm(r, env)
    case KbC => OnKb(r)
  }

  // -------------------------------------------------------------- CONT

  function StatCont(r: Receiver): (o: Out)
    requires r.Valid()
    ensures o.r.Valid()
  {
    var c := r.ctx;
    if !c.rx.syncLoss && c.errCnt < ERR_BOUND && !c.rx.goodBlk then
      Out(r.(leaf := FirstByteStat, ctx := c.(errCnt := c.errCnt + 1)), [NAK], false)
    else if !c.rx.syncLoss && c.errCnt < ERR_BOUND then
      Quiet(r.(leaf := TransientCheck, ctx := CheckForAnotherFile(c)))
    else
      Out(Finish(r, c, if c.rx.syncLoss then LossOfSyncAtStat else ExcessiveErrorsAtStat), CanBytes(), false)
  }

  function CheckCont(r: Receiver, env: Env): (o: Out)
    requires r.Valid()
    ensures o.r.Valid()
  {
    if r.ctx.anotherFile == 0 then Out(r.(leaf := AreWeDone), [ACK], false)
    else
      var f := OpenFile(r.ctx, env);
      Quiet(r.(leaf := if f.threw then Aborted else TransientOpen, ctx := f.c))
  }

  function OpenCont(r: Receiver): Out
  {
    if r.ctx.fd != -1 then Out(r.(leaf := FirstByteData), [ACK, NCG_BYTE], false)
    else Out(Finish(r, r.ctx, CreatError), CanBytes(), false)
  }

  function EotCont(r: Receiver): Out
  {
    if r.ctx.closeProb == 0 then
      Out(r.(leaf := FirstByteStat, ctx := r.ctx.Append(Done).(errCnt := 0)), [ACK, NCG_BYTE], false)
    else Out(Finish(r, r.ctx, CloseError), CanBytes(), false)
  }

  function Cont(r: Receiver, env: Env): (o: Out)
    requires r.Valid() && r.leaf.IsTransient()
    ensures o.r.Valid() && o.r.leaf.Rank() < r.leaf.Rank()
  {
    match r.leaf
    case TransientStat => StatCont(r)
    case TransientCheck => CheckCont(r, env)
    case TransientOpen => OpenCont(r)
    case _ => EotCont(r)
  }

  /** All posted CONT messages, one after the other. */
  function Cascade(o: Out, env: Env): (o': Out)
    requires o.r.Valid()
    ensures o'.r.Valid() && !o'.r.leaf.IsTransient()
    decreases o.r.leaf.Rank()
  {
    if o.r.leaf.IsTransient() then
      var n := Cont(o.r, env);
      Cascade(Out(n.r, o.sent + n.sent, o.purged || n.purged), env)
    else o
  }

  /** The reaction to an event, with all that follows from it before the next event. */
  function React(r: Receiver, e: Event, env: Env): (o: Out)
    requires r.Valid() && e.Valid()
    ensures o.r.Valid() && !o.r.leaf.IsTransient()
  {
    Cascade(Fire(r, e, env), env)
  }

  /** Outside the transient states nothing follows from a reaction. */
  lemma NothingFollows(r: Receiver, e: Event, env: Env)
    requires r.Valid() && e.Valid() && !Fire(r, e, env).r.leaf.IsTransient()
    ensures React(r, e, env) == Fire(r, e, env)
  {
    hide Fire;
  }

  lemma CascadeStep(o: Out, env: Env)
    requires o.r.Valid()
    ensures !o.r.leaf.IsTransient() ==> Cascade(o, env) == o
    ensures o.r.leaf.IsTransient() ==>
              var n := Cont(o.r, env);
              Cascade(o, env) == Cascade(Out(n.r, o.sent + n.sent, o.purged || n.purged), env)
  {
    hide Cont;
  }
}
