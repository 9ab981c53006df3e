/** How many errors the receiver puts up with, and how many CONT messages follow an event. */
module ReceiverBounds {
  import opened Bytes
  import opened Text
  import opened Blocks
  import opened Session
  import opened ReceiverContext
  import opened ReceiverChart
  import opened ReceiverSteps
  import SenderContext

  /** A run of the receiver: events, each with what the file system answers. */
  function Run(r: Receiver, es: seq<(Event, Env)>): (t: Receiver)
    requires r.Valid() && forall i :: 0 <= i < |es| ==> es[i].0.Valid()
    ensures t.Valid()
  {
    if es == [] then r
    else
      var n := |es| - 1;
      React(Run(r, es[..n]), es[n].0, es[n].1).r
  }

  /** The bytes that a run of the receiver sends. */
  function BytesOf(r: Receiver, es: seq<(Event, Env)>): Data
    requires r.Valid() && forall i :: 0 <= i < |es| ==> es[i].0.Valid()
  {
    if es == [] then []
    else
      var n := |es| - 1;
      BytesOf(r, es[..n]) + React(Run(r, es[..n]), es[n].0, es[n].1).sent
  }

  lemma RunOn(r: Receiver, es: seq<(Event, Env)>, e: Event, env: Env)
    requires r.Valid() && e.Valid() && forall i :: 0 <= i < |es| ==> es[i].0.Valid()
    ensures var o := React(Run(r, es), e, env);
            && Run(r, es + [(e, env)]) == o.r
            && BytesOf(r, es + [(e, env)]) == BytesOf(r, es) + o.sent
  {
    hide React;
    var all := es + [(e, env)];
    assert all[..|all| - 1] == es;
  }

  /** Where errors may have got in each state at rest. The data phase can be left through one EOT and one
      damaged block after the bound has been reached, and a CAN byte can carry that count elsewhere. */
  function Limit(leaf: Leaf): nat
  {
    match leaf
    case FirstByteData => ERR_BOUND
    case FirstByteStat => ERR_BOUND + 1
    case AreWeDone => ERR_BOUND + 1
    case EotData => ERR_BOUND + 1
    case Can => ERR_BOUND + 1
    case _ => ERR_BOUND + 2
  }

  ghost predicate Bounded(r: Receiver)
  {
    && r.Valid() && !r.leaf.IsTransient()
    && r.history in {FirstByteStat, AreWeDone}
    && r.ctx.errCnt <= Limit(r.leaf)
    && NewIsGood(r)
  }

  /** While the reply to a data block is due, a block that counts as new is also good. */
  ghost predicate NewIsGood(r: Receiver)
  {
    r.leaf == TransientData && r.ctx.rx.goodBlk1st ==> r.ctx.rx.goodBlk
  }

  /** Bounds for the transient states, which only follow an event that has just been handled. */
  ghost predicate InReach(r: Receiver)
  {
    && r.Valid() && r.history in {FirstByteStat, AreWeDone} && NewIsGood(r)
    && r.ctx.errCnt <= match r.leaf
                       case TransientStat => ERR_BOUND + 2
                       case TransientCheck => ERR_BOUND
                       case TransientOpen => ERR_BOUND
                       case TransientEot => ERR_BOUND + 2
                       case _ => Limit(r.leaf)
  }

  lemma FireInReach(r: Receiver, e: Event, env: Env)
    requires Bounded(r) && e.Valid()
    ensures InReach(Fire(r, e, env).r)
  {
    hide OnSer, OnTm, OnKb, InReach, Bounded;
    match e
    case Ser(c, rest) => SerInReach(r, c, rest, env);
    case Tm => TmInReach(r, env);
    case KbC => KbInReach(r);
  }

  lemma TmInReach(r: Receiver, env: Env)
    requires Bounded(r)
    ensures InReach(OnTm(r, env).r)
  {
  }

  lemma KbInReach(r: Receiver)
    requires Bounded(r)
    ensures InReach(OnKb(r).r)
  {
  }

  lemma SerInReach(r: Receiver, c: byte, rest: Data, env: Env)
    requires Bounded(r) && |rest| < BUF_SZ
    ensures InReach(OnSer(r, c, rest, env).r)
  {
    hide InReach;
    StatSerInReach(r, c, rest);
    FirstDataSerInReach(r, c, rest);
    EotDataSerInReach(r, c, rest, env);
    OtherSerInReach(r, c, env);
    hide FirstByteStatSer, AreWeDoneSer, FirstByteDataSer, EotDataSer, CanSer;
  }

  lemma StatSerInReach(r: Receiver, c: byte, rest: Data)
    requires Bounded(r) && |rest| < BUF_SZ
    ensures r.leaf == FirstByteStat ==> InReach(FirstByteStatSer(r, c, rest).r)
    ensures r.leaf == AreWeDone ==> InReach(AreWeDoneSer(r, c, rest).r)
  {
    hide GetRest, GetRestPurges;
  }

  lemma FirstDataSerInReach(r: Receiver, c: byte, rest: Data)
    requires Bounded(r) && |rest| < BUF_SZ
    ensures r.leaf == FirstByteData ==> InReach(FirstByteDataSer(r, c, rest).r)
  {
    hide GetRest, GetRestPurges;
    NewBlockIsGood(r.ctx, rest);
  }

  lemma EotDataSerInReach(r: Receiver, c: byte, rest: Data, env: Env)
    requires Bounded(r) && |rest| < BUF_SZ
    ensures r.leaf == EotData ==> InReach(EotDataSer(r, c, rest, env).r)
  {
    hide GetRest, GetRestPurges;
    NewBlockIsGood(r.ctx, rest);
  }

  lemma OtherSerInReach(r: Receiver, c: byte, env: Env)
    requires Bounded(r)
    ensures r.leaf in {TransientData, Final, Aborted} ==> InReach(r)
    ensures r.leaf == Can ==> InReach(CanSer(r, c, env).r)
  {
  }

  lemma NewBlockIsGood(c: Ctx, rest: Data)
    requires c.Valid() && |rest| < BUF_SZ
    ensures GetRestBlk(c, rest).rx.goodBlk1st ==> GetRestBlk(c, rest).rx.goodBlk
  {
    hide Stored, CrcMatches;
  }

  lemma ContInReach(r: Receiver, env: Env)
    requires InReach(r) && r.leaf.IsTransient()
    ensures InReach(Cont(r, env).r)
  {
    hide StatName, StatSize;
  }

  lemma {:induction false} CascadeInReach(o: Out, env: Env)
    requires InReach(o.r)
    ensures InReach(Cascade(o, env).r)
    decreases o.r.leaf.Rank()
  {
    hide Cont;
    if o.r.leaf.IsTransient() {
      ContInReach(o.r, env);
      var n := Cont(o.r, env);
      CascadeInReach(Out(n.r, o.sent + n.sent, o.purged || n.purged), env);
    }
  }

  lemma ReactBounded(r: Receiver, e: Event, env: Env)
    requires Bounded(r) && e.Valid()
    ensures Bounded(React(r, e, env).r)
  {
    FireInReach(r, e, env);
    CascadeInReach(Fire(r, e, env), env);
    hide Fire, Cascade;
  }

  lemma {:induction false} RunBounded(r: Receiver, es: seq<(Event, Env)>)
    requires Bounded(r) && forall i :: 0 <= i < |es| ==> es[i].0.Valid()
    ensures Bounded(Run(r, es))
  {
    hide React;
    if es != [] {
      var n := |es| - 1;
      RunBounded(r, es[..n]);
      ReactBounded(Run(r, es[..n]), es[n].0, es[n].1);
    }
  }

  /** Over every sequence of events, whatever the bytes are and whatever the file system answers, the count of
      errors never exceeds the bound by more than two, and the receiver never rests in a transient state. */
  lemma ErrorsBounded(es: seq<(Event, Env)>)
    requires forall i :: 0 <= i < |es| ==> es[i].0.Valid()
    ensures Run(Start().r, es).ctx.errCnt <= ERR_BOUND + 2
    ensures Run(Start().r, es).leaf == FirstByteData ==> Run(Start().r, es).ctx.errCnt <= ERR_BOUND
    ensures !Run(Start().r, es).leaf.IsTransient()
  {
    StartBounded();
    hide Start, Run;
    RunBounded(Start().r, es);
  }

  lemma StartBounded()
    ensures Bounded(Start().r)
  {
  }

  // ---------------------------------------------- what the count counts

  /** The events that set the count of errors back: the next data block arrives, the first block after a file
      arrives, or a file is closed. */
  ghost predicate Resets(r: Receiver, e: Event, env: Env)
    requires r.Valid() && e.Valid()
  {
    && e.Ser?
    && ((r.leaf in {FirstByteData, EotData} && e.c == SOH && !r.ctx.kbCan && GetRestBlk(r.ctx, e.rest).rx.goodBlk1st)
        || (r.leaf == FirstByteStat && e.c == SOH && !r.ctx.kbCan && r.ctx.closeProb == 0)
        || (r.leaf == EotData && e.c == EOT && CloseFile(r.ctx, env).closeProb == 0))
  }

  /** A response to a problem, by a receiver that goes on: a NAK; the byte that asks again after a timeout; the
      answer to an EOT that is repeated behind a closed file; the ACK for a data block that is not new; the ACK for
      a stat block that arrives behind the last file. */
  ghost predicate Problem(r: Receiver, e: Event, o: Out)
  {
    && !o.r.leaf.IsOver()
    && (|| NAK in o.sent
        || (e.Tm? && NCG_BYTE in o.sent && r.leaf != TransientData)
        || (e.Ser? && e.c == EOT && r.leaf == FirstByteStat && ACK in o.sent)
        || (e.Tm? && r.leaf == TransientData && !r.ctx.rx.goodBlk1st && ACK in o.sent)
        || (e.Ser? && r.leaf == AreWeDone && ACK in o.sent))
  }

  /** How often the receiver has responded to a problem since the count was last set back. */
  ghost function ProblemsSinceReset(r: Receiver, es: seq<(Event, Env)>): nat
    requires r.Valid() && forall i :: 0 <= i < |es| ==> es[i].0.Valid()
  {
    if es == [] then 0
    else
      var n := |es| - 1;
      var t := Run(r, es[..n]);
      var before := if Resets(t, es[n].0, es[n].1) then 0 else ProblemsSinceReset(r, es[..n]);
      before + if Problem(t, es[n].0, React(t, es[n].0, es[n].1)) then 1 else 0
  }

  /** A response that is still due for a block that has already been counted. */
  function Due(r: Receiver): nat
  {
    if r.leaf == TransientData && !r.ctx.rx.goodBlk1st then 1 else 0
  }

  /** The responses before an event are covered by the count, and those after it, too. */
  ghost predicate Counts(r: Receiver, e: Event, env: Env, problems: nat)
    requires r.Valid() && e.Valid()
  {
    var o := React(r, e, env);
    (if Resets(r, e, env) then 0 else problems) + (if Problem(r, e, o) then 1 else 0) + Due(o.r) <= o.r.ctx.errCnt
  }

  lemma ReactCounts(r: Receiver, e: Event, env: Env, problems: nat)
    requires Bounded(r) && e.Valid() && problems + Due(r) <= r.ctx.errCnt
    ensures Counts(r, e, env, problems)
  {
    match e
    case Tm => TmCounts(r, env, problems);
    case KbC => KbCounts(r, env, problems);
    case Ser(c, rest) =>
      match r.leaf {
        case FirstByteStat => FirstByteStatCounts(r, c, rest, env, problems);
        case FirstByteData => DataCounts(r, c, rest, env, problems);
        case EotData =>
          if c == EOT {
            EotDataCounts(r, rest, env, problems);
          } else {
            DataCounts(r, c, rest, env, problems);
          }
        case AreWeDone => AreWeDoneCounts(r, c, rest, env, problems);
        case TransientData => OtherSerCounts(r, c, rest, env, problems);
        case Can => OtherSerCounts(r, c, rest, env, problems);
        case Final => OtherSerCounts(r, c, rest, env, problems);
        case Aborted => OtherSerCounts(r, c, rest, env, problems);
        case TransientCheck =>
        case TransientOpen =>
        case TransientEot =>
        case TransientStat =>
      }
  }

  lemma TmCounts(r: Receiver, env: Env, problems: nat)
    requires Bounded(r) && problems + Due(r) <= r.ctx.errCnt
    ensures Counts(r, Tm, env, problems)
  {
    hide WriteChunk, React;
    NothingFollows(r, Tm, env);
    WriteKeepsCount(r.ctx);
  }

  lemma WriteKeepsCount(c: Ctx)
    requires c.Valid()
    ensures WriteChunk(c).errCnt == c.errCnt
  {
  }

  lemma KbCounts(r: Receiver, env: Env, problems: nat)
    requires Bounded(r) && problems + Due(r) <= r.ctx.errCnt
    ensures Counts(r, KbC, env, problems)
  {
    hide React;
    NothingFollows(r, KbC, env);
  }

  lemma OtherSerCounts(r: Receiver, c: byte, rest: Data, env: Env, problems: nat)
    requires Bounded(r) && |rest| < BUF_SZ && problems + Due(r) <= r.ctx.errCnt
    requires r.leaf in {TransientData, Can, Final, Aborted}
    ensures Counts(r, Ser(c, rest), env, problems)
  {
    hide React, GetRestBlk;
    NothingFollows(r, Ser(c, rest), env);
  }

  lemma DataCounts(r: Receiver, c: byte, rest: Data, env: Env, problems: nat)
    requires Bounded(r) && |rest| < BUF_SZ && problems + Due(r) <= r.ctx.errCnt
    requires r.leaf == FirstByteData || (r.leaf == EotData && c != EOT)
    ensures Counts(r, Ser(c, rest), env, problems)
  {
    hide React, GetRest, GetRestPurges;
    NothingFollows(r, Ser(c, rest), env);
  }

  lemma EotDataCounts(r: Receiver, rest: Data, env: Env, problems: nat)
    requires Bounded(r) && |rest| < BUF_SZ && r.leaf == EotData && problems <= r.ctx.errCnt
    ensures Counts(r, Ser(EOT, rest), env, problems)
  {
    hide DataSer, Cascade;
    var t := Fire(r, Ser(EOT, rest), env);
    var n := Cont(t.r, env);
    CascadeStep(t, env);
    CascadeStep(Out(n.r, t.sent + n.sent, t.purged || n.purged), env);
  }

  /** What follows a stat block: a NAK goes out only with the count raised, and the count is never set back. */
  lemma StatReplies(t: Receiver, env: Env, purged: bool)
    requires t.Valid() && t.leaf == TransientStat
    ensures var o := Cascade(Out(t, [], purged), env);
            && Due(o.r) == 0 && o.r.ctx.errCnt >= t.ctx.errCnt
            && (!o.r.leaf.IsOver() && NAK in o.sent ==> o.r.ctx.errCnt > t.ctx.errCnt)
  {
    hide Cascade;
    var n := Cont(t, env);
    var o := Out(n.r, [] + n.sent, purged || n.purged);
    CascadeStep(Out(t, [], purged), env);
    CascadeStep(o, env);
    if n.r.leaf == TransientCheck {
      CheckReplies(n.r, env, o.purged);
      assert o.sent == [];
    }
  }

  lemma CheckReplies(t: Receiver, env: Env, purged: bool)
    requires t.Valid() && t.leaf == TransientCheck
    ensures var o := Cascade(Out(t, [], purged), env);
            && Due(o.r) == 0 && o.r.ctx.errCnt == t.ctx.errCnt
            && (!o.r.leaf.IsOver() ==> NAK !in o.sent)
  {
    hide StatName, StatSize, Cascade;
    var n := Cont(t, env);
    var o := Out(n.r, [] + n.sent, purged || n.purged);
    CascadeStep(Out(t, [], purged), env);
    CascadeStep(o, env);
    if n.r.leaf == TransientOpen {
      var m := Cont(n.r, env);
      CascadeStep(Out(m.r, o.sent + m.sent, o.purged || m.purged), env);
    }
  }

  lemma FirstByteStatCounts(r: Receiver, c: byte, rest: Data, env: Env, problems: nat)
    requires Bounded(r) && |rest| < BUF_SZ && r.leaf == FirstByteStat && problems <= r.ctx.errCnt
    ensures Counts(r, Ser(c, rest), env, problems)
  {
    hide Cascade, GetRest, GetRestPurges;
    var t := Fire(r, Ser(c, rest), env);
    if t.r.leaf == TransientStat {
      StatReplies(t.r, env, t.purged);
    } else {
      hide Fire, React;
      NothingFollows(r, Ser(c, rest), env);
    }
  }

  lemma AreWeDoneCounts(r: Receiver, c: byte, rest: Data, env: Env, problems: nat)
    requires Bounded(r) && |rest| < BUF_SZ && r.leaf == AreWeDone && problems <= r.ctx.errCnt
    ensures Counts(r, Ser(c, rest), env, problems)
  {
    hide Cascade, GetRest, GetRestPurges;
    var t := Fire(r, Ser(c, rest), env);
    if t.r.leaf == TransientStat {
      StatReplies(t.r, env, t.purged);
    } else {
      hide Fire, React;
      NothingFollows(r, Ser(c, rest), env);
    }
  }

  /** From any state within the bounds, and so on every run, the responses to problems since the count was last
      set back are all counted, and so there are at most `ERR_BOUND + 2` of them. */
  lemma {:induction false} ProblemsCounted(r: Receiver, es: seq<(Event, Env)>)
    requires Bounded(r) && forall i :: 0 <= i < |es| ==> es[i].0.Valid()
    requires Due(r) <= r.ctx.errCnt
    ensures var t := Run(r, es);
            ProblemsSinceReset(r, es) + Due(t) <= t.ctx.errCnt <= ERR_BOUND + 2
  {
    RunBounded(r, es);
    hide React, Resets, Problem;
    if es != [] {
      var n := |es| - 1;
      ProblemsCounted(r, es[..n]);
      RunBounded(r, es[..n]);
      ReactCounts(Run(r, es[..n]), es[n].0, es[n].1, ProblemsSinceReset(r, es[..n]));
    }
  }

  // ------------------------------------------------- the bound takes effect

  /** After a data block, the next timeout ends the session exactly when the block numbers are out of step, or
      the block was not the next one and the count has reached the bound. */
  lemma LateBlockEndsSession(r: Receiver, rest: Data, env: Env, env': Env)
    requires r.Valid() && r.leaf in {FirstByteData, EotData} && !r.ctx.kbCan && |rest| < BUF_SZ
    ensures var t := React(r, Ser(SOH, rest), env).r;
            var u := React(t, Tm, env');
            && t.leaf == TransientData
            && (u.r.leaf == Final <==>
                  GetRestBlk(r.ctx, rest).rx.syncLoss
                  || (!GetRestBlk(r.ctx, rest).rx.goodBlk1st && r.ctx.errCnt + 1 >= ERR_BOUND))
            && (u.r.leaf != Final ==> u.r.leaf == FirstByteData)
  {
    hide GetRest, GetRestPurges, WriteChunk;
    OnlyFire(r, rest, env);
    var t := React(r, Ser(SOH, rest), env).r;
    assert t == DataSer(r, SOH, rest).r;
    hide DataSer;
    assert React(t, Tm, env') == TransientDataTm(t, env');
  }

  /** Timeouts in the data phase are counted one by one. */
  lemma {:induction false} TimeoutsCount(r: Receiver, n: nat, env: Env)
    requires r.Valid() && r.leaf == FirstByteData && !r.ctx.kbCan && r.ctx.errCnt + n <= ERR_BOUND
    ensures Run(r, seq(n, _ => (Tm, env))) == r.(ctx := r.ctx.(errCnt := r.ctx.errCnt + n))
  {
    hide React;
    var es := seq(n, _ => (Tm, env));
    if n > 0 {
      TimeoutsCount(r, n - 1, env);
      assert es[..n - 1] == seq(n - 1, _ => (Tm, env));
      TimeoutCounts(r.(ctx := r.ctx.(errCnt := r.ctx.errCnt + n - 1)), env);
    }
  }

  lemma TimeoutCounts(r: Receiver, env: Env)
    requires r.Valid() && r.leaf == FirstByteData && !r.ctx.kbCan && r.ctx.errCnt < ERR_BOUND
    ensures React(r, Tm, env).r == r.(ctx := r.ctx.(errCnt := r.ctx.errCnt + 1))
  {
    hide React;
    NothingFollows(r, Tm, env);
  }

  /** The events that are counted without the bound being looked at: an EOT in the data phase, a data block that is not
      new, and a block that arrives behind the last file. */
  ghost predicate CountedUnchecked(r: Receiver, e: Event)
    requires r.Valid() && e.Valid()
  {
    && e.Ser? && !r.ctx.kbCan
    && (|| (r.leaf == FirstByteData && e.c == EOT)
        || (r.leaf in {FirstByteData, EotData} && e.c == SOH && !GetRestBlk(r.ctx, e.rest).rx.goodBlk1st)
        || (r.leaf == AreWeDone && e.c == SOH))
  }

  /** An event takes the count up to more than `ERR_BOUND` if and only if the count has reached the bound and the event
      is counted unchecked; then it goes up by exactly one. */
  ghost predicate PastExactly(r: Receiver, e: Event, env: Env)
    requires r.Valid() && e.Valid()
  {
    var t := React(r, e, env).r;
    && (t.ctx.errCnt > r.ctx.errCnt && t.ctx.errCnt > ERR_BOUND
        <==> r.ctx.errCnt >= ERR_BOUND && CountedUnchecked(r, e))
    && (r.ctx.errCnt >= ERR_BOUND && CountedUnchecked(r, e) ==> t.ctx.errCnt == r.ctx.errCnt + 1)
  }

  /** This holds in any state within the bounds, and so in every state of every run. */
  lemma PastTheBound(r: Receiver, e: Event, env: Env)
    requires Bounded(r) && e.Valid()
    ensures PastExactly(r, e, env)
  {
    match e
    case Tm => TmPast(r, env);
    case KbC =>
      hide React;
      NothingFollows(r, e, env);
    case Ser(c, rest) =>
      hide PastExactly;
      match r.leaf {
        case FirstByteStat => FirstByteStatPast(r, c, rest, env);
        case FirstByteData => DataPast(r, c, rest, env);
        case EotData =>
          if c == EOT {
            SecondEotPast(r, rest, env);
          } else {
            DataPast(r, c, rest, env);
          }
        case AreWeDone => AreWeDonePast(r, c, rest, env);
        case TransientData => OtherPast(r, c, rest, env);
        case Can => OtherPast(r, c, rest, env);
        case Final => OtherPast(r, c, rest, env);
        case Aborted => OtherPast(r, c, rest, env);
        case TransientCheck =>
        case TransientOpen =>
        case TransientEot =>
        case TransientStat =>
      }
  }

  lemma PastTheBoundOnEveryRun(es: seq<(Event, Env)>, e: Event, env: Env)
    requires e.Valid() && forall i :: 0 <= i < |es| ==> es[i].0.Valid()
    ensures PastExactly(Run(Start().r, es), e, env)
  {
    hide Start, Run, PastExactly;
    StartBounded();
    RunBounded(Start().r, es);
    PastTheBound(Run(Start().r, es), e, env);
  }

  lemma TmPast(r: Receiver, env: Env)
    requires Bounded(r)
    ensures PastExactly(r, Tm, env)
  {
    hide WriteChunk, React, CloseFile;
    NothingFollows(r, Tm, env);
    WriteKeepsCount(r.ctx);
    CloseKeepsCount(r.ctx, env);
  }

  lemma CloseKeepsCount(c: Ctx, env: Env)
    ensures CloseFile(c, env).errCnt == c.errCnt
  {
  }

  lemma OtherPast(r: Receiver, c: byte, rest: Data, env: Env)
    requires Bounded(r) && |rest| < BUF_SZ && r.leaf in {TransientData, Can, Final, Aborted}
    ensures PastExactly(r, Ser(c, rest), env)
  {
    hide React, GetRestBlk, CloseFile;
    NothingFollows(r, Ser(c, rest), env);
    CloseKeepsCount(r.ctx, env);
  }

  lemma DataPast(r: Receiver, c: byte, rest: Data, env: Env)
    requires Bounded(r) && |rest| < BUF_SZ && (r.leaf == FirstByteData || (r.leaf == EotData && c != EOT))
    ensures PastExactly(r, Ser(c, rest), env)
  {
    hide React, GetRest, GetRestPurges;
    NothingFollows(r, Ser(c, rest), env);
  }

  lemma SecondEotPast(r: Receiver, rest: Data, env: Env)
    requires Bounded(r) && |rest| < BUF_SZ && r.leaf == EotData
    ensures PastExactly(r, Ser(EOT, rest), env)
  {
    hide DataSer, Cascade, CloseFile;
    CloseKeepsCount(r.ctx, env);
    var t := Fire(r, Ser(EOT, rest), env);
    var n := Cont(t.r, env);
    CascadeStep(t, env);
    CascadeStep(Out(n.r, t.sent + n.sent, t.purged || n.purged), env);
  }

  /** A stat block that has been read is refused at the bound, and raises the count by at most one below it. */
  lemma StatPast(t: Receiver, env: Env, purged: bool)
    requires t.Valid() && t.leaf == TransientStat
    ensures var o := Cascade(Out(t, [], purged), env);
            && t.ctx.errCnt <= o.r.ctx.errCnt <= t.ctx.errCnt + 1
            && (t.ctx.errCnt >= ERR_BOUND ==> o.r.ctx.errCnt == t.ctx.errCnt)
  {
    hide Cascade;
    var n := Cont(t, env);
    var o := Out(n.r, [] + n.sent, purged || n.purged);
    CascadeStep(Out(t, [], purged), env);
    CascadeStep(o, env);
    if n.r.leaf == TransientCheck {
      CheckReplies(n.r, env, o.purged);
      assert o.sent == [];
    }
  }

  lemma FirstByteStatPast(r: Receiver, c: byte, rest: Data, env: Env)
    requires Bounded(r) && |rest| < BUF_SZ && r.leaf == FirstByteStat
    ensures PastExactly(r, Ser(c, rest), env)
  {
    hide Cascade, GetRest, GetRestPurges;
    var t := Fire(r, Ser(c, rest), env);
    if t.r.leaf == TransientStat {
      StatPast(t.r, env, t.purged);
    } else {
      hide Fire, React;
      NothingFollows(r, Ser(c, rest), env);
    }
  }

  lemma AreWeDonePast(r: Receiver, c: byte, rest: Data, env: Env)
    requires Bounded(r) && |rest| < BUF_SZ && r.leaf == AreWeDone
    ensures PastExactly(r, Ser(c, rest), env)
  {
    hide Cascade, GetRest, GetRestPurges;
    var t := Fire(r, Ser(c, rest), env);
    if t.r.leaf == TransientStat {
      StatPast(t.r, env, t.purged);
    } else {
      hide Fire, React;
      NothingFollows(r, Ser(c, rest), env);
    }
  }

  /** The limit is reached: from any state of the data phase without errors, ten timeouts, an EOT and a block of
      which nothing more than the start byte arrives. */
  lemma LimitIsReached(r: Receiver, env: Env)
    requires r.Valid() && r.leaf == FirstByteData && Calm(r)
    ensures var es := seq(ERR_BOUND, _ => (Tm, env)) + [(Ser(EOT, []), env), (Ser(SOH, []), env)];
            Run(r, es).ctx.errCnt == ERR_BOUND + 2
  {
    hide GetRestPurges, WriteChunk, Stored, CrcMatches;
    var tms := seq(ERR_BOUND, _ => (Tm, env));
    var es1 := tms + [(Ser(EOT, []), env)];
    var es := tms + [(Ser(EOT, []), env), (Ser(SOH, []), env)];
    TimeoutsCount(r, ERR_BOUND, env);
    assert es[..|es| - 1] == es1 && es1[..|es1| - 1] == tms;
    var t := Run(r, tms);
    var u := Run(r, es1);
    assert u == React(t, Ser(EOT, []), env).r;
    assert Run(r, es) == React(u, Ser(SOH, []), env).r;
    EotCounts(t, env);
    ShortBlockCounts(u, env);
  }

  lemma EotCounts(t: Receiver, env: Env)
    requires t.Valid() && t.leaf == FirstByteData && !t.ctx.kbCan
    ensures React(t, Ser(EOT, []), env).r == t.(leaf := EotData, ctx := t.ctx.(errCnt := t.ctx.errCnt + 1))
  {
  }

  lemma ShortBlockCounts(u: Receiver, env: Env)
    requires u.Valid() && u.leaf == EotData && !u.ctx.kbCan
    ensures React(u, Ser(SOH, []), env).r.ctx.errCnt == u.ctx.errCnt + 1
  {
    hide Stored, CrcMatches;
    OnlyFire(u, [], env);
  }

  // ----------------------------------------------------------------- CONT

  /** How many CONT messages follow. */
  function Rounds(r: Receiver, env: Env): nat
    requires r.Valid()
    decreases r.leaf.Rank()
  {
    if r.leaf.IsTransient() then 1 + Rounds(Cont(r, env).r, env) else 0
  }

  lemma {:induction false} RoundsWithinRank(r: Receiver, env: Env)
    requires r.Valid()
    ensures Rounds(r, env) <= r.leaf.Rank()
    decreases r.leaf.Rank()
  {
    hide Cont;
    if r.leaf.IsTransient() {
      RoundsWithinRank(Cont(r, env).r, env);
    }
  }

  /** After every event at most three CONT messages follow, and it is three exactly when a good stat block has
      been read, the session is not over, and the size in it can be read. */
  lemma ContRounds(r: Receiver, e: Event, env: Env)
    requires Bounded(r) && e.Valid()
    ensures var t := Fire(r, e, env).r;
            && Rounds(t, env) <= 3
            && (Rounds(t, env) == 3 <==>
                  && t.leaf == TransientStat && t.ctx.rx.goodBlk && !t.ctx.rx.syncLoss && t.ctx.errCnt < ERR_BOUND
                  && t.ctx.rx.rcvBlk[DATA_POS] != 0 && StatSize(t.ctx.rx.rcvBlk).Some?)
  {
    var t := Fire(r, e, env).r;
    NoCheckYet(r, e, env);
    hide Fire, StatSize, StatName;
    RoundsWithinRank(t, env);
    if t.leaf == TransientStat {
      var u := Cont(t, env).r;
      assert Rounds(t, env) == 1 + Rounds(u, env);
      if u.leaf == TransientCheck {
        var v := Cont(u, env).r;
        assert Rounds(u, env) == 1 + Rounds(v, env);
        assert v.leaf == TransientOpen ==> Rounds(v, env) == 1 + Rounds(Cont(v, env).r, env);
      }
    }
  }

  lemma NoCheckYet(r: Receiver, e: Event, env: Env)
    requires Bounded(r) && e.Valid()
    ensures Fire(r, e, env).r.leaf !in {TransientCheck, TransientOpen}
  {
    hide GetRest, GetRestPurges;
  }
}
