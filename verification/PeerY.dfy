/** The loop that both peers run (PeerY.cpp): it waits for the medium, the keyboard and the timeout, and posts events
    to a state machine object until that has stopped. */
module PeerY {
  import opened Bytes
  import opened Text
  import opened Blocks
  import opened Session
  import opened SenderContext
  import opened SenderSteps
  import SenderObject = SenderY
  import SenderMachine = YSenderSS
  import SenderReplies
  import S = SenderChart
  import ReceiverContext
  import ReceiverObject = ReceiverY
  import ReceiverMachine = YReceiverSS
  import R = ReceiverChart
  import ReceiverBounds
  import ReceiverSteps

  type Env = ReceiverContext.Env

  // ------------------------------------------------------------- sender

  /** What `select` and the reads behind it come to: nothing is ready, with the time read before the wait; or a
      byte from the medium, a keyboard cancel, or both. `at` is the time of the reaction. */
  datatype SenderPoll = NothingReady(now: int, at: int) | Ready(c: Option<byte>, cancel: bool, at: int)

  /** The event from the medium, if a byte has come from there. */
  function FromMedium(p: SenderPoll): seq<(S.Event, int)>
    requires p.Ready?
  {
    if p.c.Some? then [(S.Ser(p.c.value), p.at)] else []
  }

  /** The events that one turn of the loop posts to a machine in state `s`. */
  function Posted(files: seq<SrcFile>, s: S.Sender, p: SenderPoll): seq<(S.Event, int)>
  {
    if s.leaf == S.Final then []
    else
      match p
      case NothingReady(now, at) => if now >= s.ctx.absoluteTimeout then [(S.Tm, at)] else []
      case Ready(c, cancel, at) =>
        FromMedium(p) + (if cancel && !Throws(files, s, p) then [(S.KbC, at)] else [])
  }

  /** A cancel that is typed in the same turn as the byte that stops the machine makes `postEvent` throw. */
  predicate Throws(files: seq<SrcFile>, s: S.Sender, p: SenderPoll)
  {
    s.leaf != S.Final && p.Ready? && p.cancel && S.Run(files, s, FromMedium(p)).leaf == S.Final
  }

  /** The events that all turns post, one after the other, to a machine that starts in state `s`. */
  function EventsOf(files: seq<SrcFile>, s: S.Sender, polls: seq<SenderPoll>): seq<(S.Event, int)>
  {
    if polls == [] then []
    else
      var n := |polls| - 1;
      var es := EventsOf(files, s, polls[..n]);
      es + Posted(files, S.Run(files, s, es), polls[n])
  }

  /** Whether one of the turns throws. */
  predicate Throw(files: seq<SrcFile>, s: S.Sender, polls: seq<SenderPoll>)
  {
    polls != [] &&
      var n := |polls| - 1;
      || Throw(files, s, polls[..n])
      || Throws(files, S.Run(files, s, EventsOf(files, s, polls[..n])), polls[n])
  }

  lemma {:induction false} LineBytesAppend(a: seq<Item>, b: seq<Item>)
    ensures SenderObject.LineBytes(a + b) == SenderObject.LineBytes(a) + SenderObject.LineBytes(b)
  {
    if b == [] {
      assert a + b == a;
    } else {
      assert (a + b)[..|a + b| - 1] == a + b[..|b| - 1];
      LineBytesAppend(a, b[..|b| - 1]);
    }
  }

  /** The cancel that the loop notes down is one that the machine has noted down already. */
  lemma RunningCancels(files: seq<SrcFile>, s: S.Sender, at: int)
    requires s.leaf != S.Final
    ensures var t := S.React(files, s, S.KbC, at).s;
            t.ctx == t.ctx.(kbCan := true)
  {
  }

  lemma RunOfOne(files: seq<SrcFile>, s: S.Sender, es: seq<(S.Event, int)>, p: SenderPoll)
    requires p.Ready?
    ensures S.Run(files, s, es + FromMedium(p)) == S.Run(files, S.Run(files, s, es), FromMedium(p))
  {
    hide S.React;
    if p.c.Some? {
      S.RunOn(files, s, es, S.Ser(p.c.value), p.at);
      S.RunOn(files, S.Run(files, s, es), [], S.Ser(p.c.value), p.at);
      assert [] + FromMedium(p) == FromMedium(p);
    } else {
      assert es + FromMedium(p) == es;
    }
  }

  /** Whether all stat blocks can be built that a run asks for, and if not, where the first one fails. */
  function RunOutcome(files: seq<SrcFile>, s: S.Sender, es: seq<(S.Event, int)>): SenderObject.StatOutcome
  {
    if es == [] then SenderObject.Built
    else
      var n := |es| - 1;
      var before := RunOutcome(files, s, es[..n]);
      if before != SenderObject.Built then before
      else SenderMachine.StepOutcome(files, S.Run(files, s, es[..n]), es[n].0)
  }

  lemma OutcomeOn(files: seq<SrcFile>, s: S.Sender, es: seq<(S.Event, int)>, e: S.Event, at: int)
    requires RunOutcome(files, s, es) == SenderObject.Built
    ensures RunOutcome(files, s, es + [(e, at)]) == SenderMachine.StepOutcome(files, S.Run(files, s, es), e)
  {
    hide SenderMachine.StepOutcome;
    var all := es + [(e, at)];
    assert all[..|all| - 1] == es;
  }

  /** A run that has come to its end stays there. */
  lemma {:induction false} OutcomeStays(files: seq<SrcFile>, s: S.Sender, es: seq<(S.Event, int)>,
                                        more: seq<(S.Event, int)>)
    requires RunOutcome(files, s, es) != SenderObject.Built
    ensures RunOutcome(files, s, es + more) == RunOutcome(files, s, es)
  {
    hide SenderMachine.StepOutcome;
    if more == [] {
      assert es + more == es;
    } else {
      assert (es + more)[..|es + more| - 1] == es + more[..|more| - 1];
      OutcomeStays(files, s, es, more[..|more| - 1]);
    }
  }

  /** Files whose stat blocks have room, and whose sizes fit an int, never end a run. */
  lemma {:induction false} FittingFilesGoOn(files: seq<SrcFile>, s: S.Sender, es: seq<(S.Event, int)>)
    requires FilesFit(files)
    ensures RunOutcome(files, s, es) == SenderObject.Built
  {
    if es != [] {
      var n := |es| - 1;
      FittingFilesGoOn(files, s, es[..n]);
      SenderObject.NextFits(files, S.Run(files, s, es[..n]).ctx);
    }
  }

  /** Later turns only add events. */
  lemma {:induction false} EventsGrow(files: seq<SrcFile>, s: S.Sender, polls: seq<SenderPoll>, n: nat)
    requires n <= |polls|
    ensures EventsOf(files, s, polls[..n]) <= EventsOf(files, s, polls)
  {
    hide Posted;
    if n == |polls| {
      assert polls[..n] == polls;
    } else {
      var m := |polls| - 1;
      EventsGrow(files, s, polls[..m], n);
      assert polls[..m][..n] == polls[..n];
    }
  }

  /** The object has followed a run of the chart that started with `before` written. */
  ghost predicate Followed(sm: SenderMachine.YSenderSS, s: S.Sender, es: seq<(S.Event, int)>, before: Data)
    requires sm.Valid()
    reads sm, sm.ctx, sm.ctx.blkBuf0, sm.ctx.blkBuf1
  {
    && sm.Machine() == S.Run(sm.ctx.files, s, es) && RunOutcome(sm.ctx.files, s, es) == SenderObject.Built
    && sm.ctx.written == before + SenderObject.LineBytes(S.ItemsOf(sm.ctx.files, s, es))
  }

  method PostToSender(sm: SenderMachine.YSenderSS, e: S.Event, at: int,
                      ghost s: S.Sender, ghost es: seq<(S.Event, int)>, ghost before: Data)
    returns (outcome: SenderObject.StatOutcome)
    requires sm.Valid() && Followed(sm, s, es, before)
    modifies sm, sm.ctx, sm.ctx.blkBuf0, sm.ctx.blkBuf1
    ensures sm.Valid() && outcome == RunOutcome(sm.ctx.files, s, es + [(e, at)])
    ensures outcome == SenderObject.Built ==> Followed(sm, s, es + [(e, at)], before)
  {
    hide S.React, S.Run, S.ItemsOf, SenderObject.LineBytes, RunOutcome, SenderMachine.StepOutcome;
    S.RunOn(sm.ctx.files, s, es, e, at);
    OutcomeOn(sm.ctx.files, s, es, e, at);
    LineBytesAppend(S.ItemsOf(sm.ctx.files, s, es), S.React(sm.ctx.files, S.Run(sm.ctx.files, s, es), e, at).sent);
    outcome := sm.PostEvent(e, at);
  }

  /** A keyboard cancel is posted and then noted down. */
  method CancelSender(sm: SenderMachine.YSenderSS, at: int,
                      ghost s: S.Sender, ghost es: seq<(S.Event, int)>, ghost before: Data)
    requires sm.Valid() && Followed(sm, s, es, before) && sm.active != S.Final
    modifies sm, sm.ctx, sm.ctx.blkBuf0, sm.ctx.blkBuf1
    ensures sm.Valid() && Followed(sm, s, es + [(S.KbC, at)], before)
  {
    hide S.React, S.Run, S.ItemsOf, SenderObject.LineBytes, RunOutcome;
    S.RunOn(sm.ctx.files, s, es, S.KbC, at);
    OutcomeOn(sm.ctx.files, s, es, S.KbC, at);
    RunningCancels(sm.ctx.files, S.Run(sm.ctx.files, s, es), at);
    var _ := PostToSender(sm, S.KbC, at, s, es, before);
    sm.ctx.kbCan := true;
  }

  lemma StartsEmpty(files: seq<SrcFile>, s: S.Sender)
    ensures S.Run(files, s, []) == s && SenderObject.LineBytes(S.ItemsOf(files, s, [])) == []
    ensures RunOutcome(files, s, []) == SenderObject.Built
  {
  }

  /** One turn of the loop; a machine that has stopped gets no more turns. */
  method TurnSender(sm: SenderMachine.YSenderSS, p: SenderPoll,
                    ghost s: S.Sender, ghost es: seq<(S.Event, int)>, ghost before: Data)
    returns (outcome: SenderObject.StatOutcome, threw: bool)
    requires sm.Valid() && Followed(sm, s, es, before)
    modifies sm, sm.ctx, sm.ctx.blkBuf0, sm.ctx.blkBuf1
    ensures var all := es + Posted(sm.ctx.files, S.Run(sm.ctx.files, s, es), p);
            && sm.Valid() && outcome == RunOutcome(sm.ctx.files, s, all)
            && (outcome == SenderObject.Built ==> Followed(sm, s, all, before))
    ensures outcome == SenderObject.Built ==> threw == Throws(sm.ctx.files, S.Run(sm.ctx.files, s, es), p)
  {
    hide S.React, S.Run, S.ItemsOf, SenderObject.LineBytes, RunOutcome;
    outcome, threw := SenderObject.Built, false;
    ghost var all := es;
    ghost var posted := Posted(sm.ctx.files, S.Run(sm.ctx.files, s, es), p);
    if sm.active != S.Final {
      match p {
        case NothingReady(now, at) =>
          if now >= sm.ctx.absoluteTimeout {
            outcome := PostToSender(sm, S.Tm, at, s, es, before);
            all := all + [(S.Tm, at)];
          }
        case Ready(c, cancel, at) =>
          RunOfOne(sm.ctx.files, s, es, p);
          if c.Some? {
            outcome := PostToSender(sm, S.Ser(c.value), at, s, es, before);
            all := all + [(S.Ser(c.value), at)];
          }
          assert all == es + FromMedium(p);
          if outcome != SenderObject.Built {
            OutcomeStays(sm.ctx.files, s, all, posted[|FromMedium(p)|..]);
            assert all + posted[|FromMedium(p)|..] == es + posted;
            return;
          }
          if cancel {
            if sm.active == S.Final {
              threw := true;
            } else {
              CancelSender(sm, at, s, all, before);
              all := all + [(S.KbC, at)];
            }
          }
      }
    }
    assert all == es + posted;
  }

  /** A single turn posts what that turn posts. */
  lemma OneTurn(files: seq<SrcFile>, s: S.Sender, p: SenderPoll)
    ensures EventsOf(files, s, [p]) == Posted(files, s, p) && Throw(files, s, [p]) == Throws(files, s, p)
  {
    hide Posted, Throws, S.React;
    assert [p][..0] == [];
    assert [] + Posted(files, s, p) == Posted(files, s, p);
  }

  /** The turns of a run go on where those before them have ended. */
  lemma {:induction false} TurnsGoOn(files: seq<SrcFile>, s: S.Sender, polls: seq<SenderPoll>, more: seq<SenderPoll>)
    ensures var es := EventsOf(files, s, polls);
            var t := S.Run(files, s, es);
            && EventsOf(files, s, polls + more) == es + EventsOf(files, t, more)
            && S.Run(files, s, EventsOf(files, s, polls + more)) == S.Run(files, t, EventsOf(files, t, more))
  {
    hide EventsOf, Posted, Throw, Throws, S.Run, S.ItemsOf, SenderObject.LineBytes, RunOutcome, S.React;
    var es := EventsOf(files, s, polls);
    var t := S.Run(files, s, es);
    if more == [] {
      NoTurns(files, t);
      StartsEmpty(files, t);
      assert polls + more == polls && es + [] == es;
    } else {
      var n := |more| - 1;
      TurnsGoOn(files, s, polls, more[..n]);
      NextTurn(files, s, polls + more);
      NextTurn(files, t, more);
      assert (polls + more)[..|polls + more| - 1] == polls + more[..n];
      var later := EventsOf(files, t, more[..n]);
      var last := Posted(files, S.Run(files, t, later), more[n]);
      assert es + later + last == es + (later + last);
      RunsGoOn(files, s, es, later + last);
    }
  }

  lemma {:induction false} RunsGoOn(files: seq<SrcFile>, s: S.Sender, es: seq<(S.Event, int)>, more: seq<(S.Event, int)>)
    ensures S.Run(files, s, es + more) == S.Run(files, S.Run(files, s, es), more)
  {
    hide S.React;
    if more == [] {
      assert es + more == es;
    } else {
      var n := |more| - 1;
      assert (es + more)[..|es + more| - 1] == es + more[..n];
      RunsGoOn(files, s, es, more[..n]);
    }
  }

  lemma RunOfEvent(files: seq<SrcFile>, s: S.Sender, e: S.Event, at: int)
    ensures var o := S.React(files, s, e, at);
            S.Run(files, s, [(e, at)]) == o.s && S.ItemsOf(files, s, [(e, at)]) == o.sent
  {
    hide S.React;
    S.RunOn(files, s, [], e, at);
    assert [] + [(e, at)] == [(e, at)];
    assert [] + S.React(files, s, e, at).sent == S.React(files, s, e, at).sent;
  }

  lemma EightCanBytes()
    ensures Fill(8, CAN) == [0x18, 0x18, 0x18, 0x18, 0x18, 0x18, 0x18, 0x18]
  {
    assert |Fill(8, CAN)| == 8;
  }

  /** A turn in which nothing is ready: before the deadline nothing happens, and from the deadline on a timeout ends the
      session with eight CAN bytes. */
  lemma QuietTurn(files: seq<SrcFile>, s: S.Sender, now: int, at: int)
    requires s.leaf != S.Final
    ensures var es := EventsOf(files, s, [NothingReady(now, at)]);
            var t := S.Run(files, s, es);
            var bytes := SenderObject.LineBytes(S.ItemsOf(files, s, es));
            && RunOutcome(files, s, es) == SenderObject.Built && !Throw(files, s, [NothingReady(now, at)])
            && (now < s.ctx.absoluteTimeout ==> t == s && bytes == [])
            && (now >= s.ctx.absoluteTimeout && s.leaf != S.Can ==>
                  && t.leaf == S.Final && bytes == [0x18, 0x18, 0x18, 0x18, 0x18, 0x18, 0x18, 0x18]
                  && t.ctx.result == s.ctx.result + [if s.ctx.kbCan then KbCancelled else Timeout])
            && (now >= s.ctx.absoluteTimeout && s.leaf == S.Can && !s.ctx.kbCan ==>
                  t.leaf == s.history && bytes == [] && t.ctx.absoluteTimeout == s.ctx.holdTimeout)
  {
    assert SenderObject.LineBytes([]) == [];
    hide S.React, S.Run, S.ItemsOf, SenderObject.LineBytes, RunOutcome, Throw, EventsOf, Fill;
    OneTurn(files, s, NothingReady(now, at));
    StartsEmpty(files, s);
    RunOfEvent(files, s, S.Tm, at);
    SenderReplies.RepliesToTimeout(files, s, at);
    SenderMachine.OneItemBytes(Cans);
    OutcomeOn(files, s, [], S.Tm, at);
    assert [] + [(S.Tm, at)] == [(S.Tm, at)];
    EightCanBytes();
  }

  /** A turn in which a byte and a cancel are ready: the machine reacts to the byte first, and then to the cancel unless
      the byte has stopped it. */
  lemma BusyTurn(files: seq<SrcFile>, s: S.Sender, c: byte, cancel: bool, at: int)
    requires s.leaf != S.Final
    ensures var p := Ready(Some(c), cancel, at);
            var t := S.Run(files, s, EventsOf(files, s, [p]));
            var items := S.ItemsOf(files, s, EventsOf(files, s, [p]));
            var o := S.React(files, s, S.Ser(c), at);
            var o' := S.React(files, o.s, S.KbC, at);
            && (Throw(files, s, [p]) <==> cancel && o.s.leaf == S.Final)
            && (cancel && o.s.leaf != S.Final ==> t == o'.s && items == o.sent + o'.sent)
            && (!cancel || o.s.leaf == S.Final ==> t == o.s && items == o.sent)
  {
    hide S.React;
    var p := Ready(Some(c), cancel, at);
    OneTurn(files, s, p);
    RunOfEvent(files, s, S.Ser(c), at);
    S.RunOn(files, s, [(S.Ser(c), at)], S.KbC, at);
    assert [(S.Ser(c), at)] + [] == [(S.Ser(c), at)];
    assert FromMedium(p) == [(S.Ser(c), at)];
  }

  lemma NoTurns(files: seq<SrcFile>, s: S.Sender)
    ensures EventsOf(files, s, []) == [] && !Throw(files, s, [])
  {
  }

  lemma NextTurn(files: seq<SrcFile>, s: S.Sender, polls: seq<SenderPoll>)
    requires polls != []
    ensures var n := |polls| - 1;
            var es := EventsOf(files, s, polls[..n]);
            && EventsOf(files, s, polls) == es + Posted(files, S.Run(files, s, es), polls[n])
            && Throw(files, s, polls) == (Throw(files, s, polls[..n]) || Throws(files, S.Run(files, s, es), polls[n]))
  {
    hide Posted, Throws, S.Run;
  }

  /** What a single turn comes to. */
  lemma SingleTurn(files: seq<SrcFile>, s: S.Sender, polls: seq<SenderPoll>)
    ensures |polls| == 1 && polls[0].NothingReady? && s.leaf != S.Final ==>
              var now := polls[0].now;
              var es := EventsOf(files, s, polls);
              var t := S.Run(files, s, es);
              var bytes := SenderObject.LineBytes(S.ItemsOf(files, s, es));
              && RunOutcome(files, s, es) == SenderObject.Built && !Throw(files, s, polls)
              && (now < s.ctx.absoluteTimeout ==> t == s && bytes == [])
              && (now >= s.ctx.absoluteTimeout && s.leaf != S.Can ==>
                    && t.leaf == S.Final && bytes == [0x18, 0x18, 0x18, 0x18, 0x18, 0x18, 0x18, 0x18]
                    && t.ctx.result == s.ctx.result + [if s.ctx.kbCan then KbCancelled else Timeout])
    ensures |polls| == 1 && polls[0].Ready? && polls[0].c.Some? && s.leaf != S.Final ==>
              var t := S.Run(files, s, EventsOf(files, s, polls));
              var o := S.React(files, s, S.Ser(polls[0].c.value), polls[0].at);
              && (Throw(files, s, polls) <==> polls[0].cancel && o.s.leaf == S.Final)
              && (polls[0].cancel && o.s.leaf != S.Final ==> t == S.React(files, o.s, S.KbC, polls[0].at).s)
              && (!polls[0].cancel || o.s.leaf == S.Final ==> t == o.s)
  {
    hide S.React, S.Run, S.ItemsOf, SenderObject.LineBytes, RunOutcome, EventsOf, Throw;
    if |polls| == 1 && s.leaf != S.Final {
      assert polls == [polls[0]];
      match polls[0] {
        case NothingReady(now, at) => QuietTurn(files, s, now, at);
        case Ready(c, cancel, at) =>
          if c.Some? {
            BusyTurn(files, s, c.value, cancel, at);
          }
      }
    }
  }

  /** `transferCommon` for the sender: the object goes through the run of the chart on the events that the turns post,
      and has written what that run puts on the line, unless the program ends over a stat block that it cannot build. */
  method TransferSender(sm: SenderMachine.YSenderSS, polls: seq<SenderPoll>)
    returns (outcome: SenderObject.StatOutcome, threw: bool)
    requires sm.Valid()
    modifies sm, sm.ctx, sm.ctx.blkBuf0, sm.ctx.blkBuf1
    ensures var files := sm.ctx.files;
            var s := old(sm.Machine());
            var es := EventsOf(files, s, polls);
            && sm.Valid() && outcome == RunOutcome(files, s, es)
            && (outcome == SenderObject.Built ==>
                  && sm.Machine() == S.Run(files, s, es) && threw == Throw(files, s, polls)
                  && sm.ctx.written == old(sm.ctx.written) + SenderObject.LineBytes(S.ItemsOf(files, s, es)))
    ensures |polls| == 1 && polls[0].NothingReady? && old(sm.active) != S.Final ==>
              && outcome == SenderObject.Built && !threw
              && (polls[0].now < old(sm.ctx.absoluteTimeout) ==>
                    sm.Machine() == old(sm.Machine()) && sm.ctx.written == old(sm.ctx.written))
              && (polls[0].now >= old(sm.ctx.absoluteTimeout) && old(sm.active) != S.Can ==>
                    && sm.active == S.Final
                    && sm.ctx.result == old(sm.ctx.result) + [if old(sm.ctx.kbCan) then KbCancelled else Timeout]
                    && sm.ctx.written == old(sm.ctx.written) + [0x18, 0x18, 0x18, 0x18, 0x18, 0x18, 0x18, 0x18])
    ensures |polls| == 1 && polls[0].Ready? && polls[0].c.Some? && old(sm.active) != S.Final
            && outcome == SenderObject.Built ==>
              var o := S.React(sm.ctx.files, old(sm.Machine()), S.Ser(polls[0].c.value), polls[0].at);
              && (threw <==> polls[0].cancel && o.s.leaf == S.Final)
              && sm.Machine() == if polls[0].cancel && !threw
                                 then S.React(sm.ctx.files, o.s, S.KbC, polls[0].at).s else o.s
  {
    hide S.React, S.Run, S.ItemsOf, SenderObject.LineBytes, RunOutcome, Posted, EventsOf, Throw;
    ghost var s := sm.Machine();
    ghost var before := sm.ctx.written;
    ghost var es := [];
    outcome, threw := SenderObject.Built, false;
    NoTurns(sm.ctx.files, s);
    StartsEmpty(sm.ctx.files, s);
    SingleTurn(sm.ctx.files, s, polls);
    var i := 0;
    while i < |polls|
      invariant 0 <= i <= |polls| && sm.Valid() && es == EventsOf(sm.ctx.files, s, polls[..i])
      invariant outcome == SenderObject.Built && Followed(sm, s, es, before)
      invariant threw == Throw(sm.ctx.files, s, polls[..i])
    {
      assert polls[..i + 1][..i] == polls[..i];
      NextTurn(sm.ctx.files, s, polls[..i + 1]);
      var threwNow;
      outcome, threwNow := TurnSender(sm, polls[i], s, es, before);
      es := EventsOf(sm.ctx.files, s, polls[..i + 1]);
      if outcome != SenderObject.Built {
        EventsGrow(sm.ctx.files, s, polls, i + 1);
        var all := EventsOf(sm.ctx.files, s, polls);
        OutcomeStays(sm.ctx.files, s, es, all[|es|..]);
        assert es + all[|es|..] == all;
        return;
      }
      i, threw := i + 1, threw || threwNow;
    }
    assert polls[..i] == polls;
  }

  /** Whatever the files are: two CAN bytes stop a sender that has just started, and a cancel in the turn of the second
      one makes the loop throw. */
  lemma CancelCanThrow(files: seq<SrcFile>, start: int, at: int)
    ensures Throw(files, S.Start(files, start), [Ready(Some(CAN), false, at), Ready(Some(CAN), true, at)])
  {
    var s := S.Start(files, start);
    hide S.React, S.Run, S.ItemsOf, S.Start, EventsOf, Throw, Throws, Posted;
    var first, second := Ready(Some(CAN), false, at), Ready(Some(CAN), true, at);
    StartTakesCan(files, start, at);
    BusyTurn(files, s, CAN, false, at);
    var t := S.React(files, s, S.Ser(CAN), at).s;
    SenderReplies.CanReplies(files, t, CAN, at);
    BusyTurn(files, t, CAN, true, at);
    OneTurn(files, t, second);
    NextTurn(files, s, [first, second]);
    assert [first, second][..1] == [first];
  }

  lemma StartTakesCan(files: seq<SrcFile>, start: int, at: int)
    ensures var s := S.Start(files, start);
            s.leaf == S.StatC && S.React(files, s, S.Ser(CAN), at).s.leaf == S.Can
  {
    hide PrepStat;
  }

  /** On a run, every block that goes on the line is the last one sent of the current file, or the next one. */
  ghost predicate BlocksRight(files: seq<SrcFile>, s: S.Sender, es: seq<(S.Event, int)>)
  {
    forall n :: 0 <= n < |es| ==>
      var t := S.Run(files, s, es[..n]);
      SendsRightBlock(files, t, S.React(files, t, es[n].0, es[n].1))
  }

  /** `sendFiles`: whatever happens at the medium, at the keyboard and with the time, all that the sender's objects
      write from construction on is the items of one run of the chart, unless a stat block cannot be built; and if
      the files fit, that does not happen, and every block is the last one or the next one of the current file. */
  method SendFiles(sender: SenderObject.SenderY, polls: seq<SenderPoll>, start: int)
    returns (sm: SenderMachine.YSenderSS, outcome: SenderObject.StatOutcome, threw: bool)
    requires sender.Valid() && sender.View() == InitialCtx() && sender.written == []
    modifies sender, sender.blkBuf0, sender.blkBuf1
    ensures fresh(sm) && sm.ctx == sender && sm.Valid()
    ensures var s := S.Start(sender.files, start);
            var es := EventsOf(sender.files, s, polls);
            var first := SenderObject.PrepOutcome(sender.files, InitialCtx());
            && outcome == (if first != SenderObject.Built then first else RunOutcome(sender.files, s, es))
            && (outcome == SenderObject.Built ==>
                  && sm.Machine() == S.Run(sender.files, s, es) && threw == Throw(sender.files, s, polls)
                  && sender.written == SenderObject.LineBytes(S.ItemsOf(sender.files, s, es)))
            && (FilesFit(sender.files) ==> outcome == SenderObject.Built && BlocksRight(sender.files, s, es))
  {
    hide S.React, S.Run, S.ItemsOf, SenderObject.LineBytes, SendsRightBlock, S.Start, FilesFit, SenderObject.PrepOutcome;
    ghost var s := S.Start(sender.files, start);
    ghost var es := EventsOf(sender.files, s, polls);
    if FilesFit(sender.files) {
      SenderObject.NextFits(sender.files, InitialCtx());
      FittingFilesGoOn(sender.files, s, es);
      AllBlocksRight(sender.files, start, es);
    }
    sm := new SenderMachine.YSenderSS(sender);
    outcome := sm.Start(start);
    threw := false;
    if outcome == SenderObject.Built {
      outcome, threw := TransferSender(sm, polls);
    }
  }

  lemma AllBlocksRight(files: seq<SrcFile>, start: int, es: seq<(S.Event, int)>)
    requires FilesFit(files)
    ensures BlocksRight(files, S.Start(files, start), es)
  {
    hide S.React, S.Run, SendsRightBlock, S.Start;
    forall n | 0 <= n < |es|
      ensures var t := S.Run(files, S.Start(files, start), es[..n]);
              SendsRightBlock(files, t, S.React(files, t, es[n].0, es[n].1))
    {
      BlocksOnEveryRun(files, start, es[..n], es[n].0, es[n].1);
    }
  }

  // ----------------------------------------------------------- receiver

  /** Nothing is ready, and the timeout is due or not; or there is a byte, with what `getRestBlk` would read behind it,
      a keyboard cancel, or both, each with what the file system answers. */
  datatype ReceiverPoll =
    | Idle(due: bool, env: Env)
    | Arrived(c: Option<byte>, rest: Data, cancel: bool, env: Env, envOfCancel: Env)
  {
    ghost predicate Valid()
    {
      Arrived? ==> |rest| < BUF_SZ
    }
  }

  function ByteArrived(p: ReceiverPoll): (es: seq<(R.Event, Env)>)
    requires p.Valid() && p.Arrived?
    ensures forall i :: 0 <= i < |es| ==> es[i].0.Valid()
  {
    if p.c.Some? then [(R.Ser(p.c.value, p.rest), p.env)] else []
  }

  function PostedToReceiver(r: R.Receiver, p: ReceiverPoll): (es: seq<(R.Event, Env)>)
    requires r.Valid() && p.Valid()
    ensures forall i :: 0 <= i < |es| ==> es[i].0.Valid()
  {
    if r.leaf.IsOver() then []
    else
      match p
      case Idle(due, env) => if due then [(R.Tm, env)] else []
      case Arrived(c, rest, cancel, env, envOfCancel) =>
        ByteArrived(p)
        + (if cancel && !ReceiverBounds.Run(r, ByteArrived(p)).leaf.IsOver() then [(R.KbC, envOfCancel)] else [])
  }

  /** The turn throws at a cancel behind the byte that stops the machine, and at a size that cannot be read. */
  predicate ReceiverThrows(r: R.Receiver, p: ReceiverPoll)
    requires r.Valid() && p.Valid()
  {
    !r.leaf.IsOver() && p.Arrived? &&
      var t := ReceiverBounds.Run(r, ByteArrived(p));
      t.leaf == R.Aborted || (p.cancel && t.leaf == R.Final)
  }

  function ReceiverEvents(r: R.Receiver, polls: seq<ReceiverPoll>): (es: seq<(R.Event, Env)>)
    requires r.Valid() && forall i :: 0 <= i < |polls| ==> polls[i].Valid()
    ensures forall i :: 0 <= i < |es| ==> es[i].0.Valid()
  {
    hide PostedToReceiver, ReceiverBounds.Run;
    if polls == [] then []
    else
      var n := |polls| - 1;
      var es := ReceiverEvents(r, polls[..n]);
      es + PostedToReceiver(ReceiverBounds.Run(r, es), polls[n])
  }

  predicate ReceiverThrow(r: R.Receiver, polls: seq<ReceiverPoll>)
    requires r.Valid() && forall i :: 0 <= i < |polls| ==> polls[i].Valid()
  {
    polls != [] &&
      var n := |polls| - 1;
      || ReceiverThrow(r, polls[..n])
      || ReceiverThrows(ReceiverBounds.Run(r, ReceiverEvents(r, polls[..n])), polls[n])
  }

  lemma ReceiverCancels(r: R.Receiver, env: Env)
    requires r.Valid() && !r.leaf.IsTransient() && !r.leaf.IsOver()
    ensures var t := R.React(r, R.KbC, env).r;
            t.ctx == t.ctx.(kbCan := true)
  {
  }

  lemma ReceiverRunOfOne(r: R.Receiver, es: seq<(R.Event, Env)>, p: ReceiverPoll)
    requires r.Valid() && p.Valid() && p.Arrived? && forall i :: 0 <= i < |es| ==> es[i].0.Valid()
    ensures ReceiverBounds.Run(r, es + ByteArrived(p)) == ReceiverBounds.Run(ReceiverBounds.Run(r, es), ByteArrived(p))
  {
    hide R.React;
    if p.c.Some? {
      var e := R.Ser(p.c.value, p.rest);
      ReceiverBounds.RunOn(r, es, e, p.env);
      ReceiverBounds.RunOn(ReceiverBounds.Run(r, es), [], e, p.env);
      assert [] + ByteArrived(p) == ByteArrived(p);
    } else {
      assert es + ByteArrived(p) == es;
    }
  }

  ghost predicate ReceiverFollowed(sm: ReceiverMachine.YReceiverSS, r: R.Receiver, es: seq<(R.Event, Env)>,
                                   before: Data)
    requires r.Valid() && forall i :: 0 <= i < |es| ==> es[i].0.Valid()
    reads sm, sm.ctx, sm.ctx.rcvBlk
  {
    && sm.Valid() && sm.posted == 0 && ReceiverBounds.Bounded(r)
    && sm.Machine() == ReceiverBounds.Run(r, es) && sm.ctx.written == before + ReceiverBounds.BytesOf(r, es)
  }

  lemma RestsBetweenEvents(r: R.Receiver, es: seq<(R.Event, Env)>)
    requires ReceiverBounds.Bounded(r) && forall i :: 0 <= i < |es| ==> es[i].0.Valid()
    ensures var t := ReceiverBounds.Run(r, es);
            !t.leaf.IsTransient() && !t.history.IsTransient() && t.ctx.errCnt <= ERR_BOUND + 2
  {
    ReceiverBounds.RunBounded(r, es);
    hide ReceiverBounds.Run;
  }

  method PostToReceiver(sm: ReceiverMachine.YReceiverSS, e: R.Event, env: Env,
                        ghost r: R.Receiver, ghost es: seq<(R.Event, Env)>, ghost before: Data)
    requires r.Valid() && e.Valid() && forall i :: 0 <= i < |es| ==> es[i].0.Valid()
    requires ReceiverFollowed(sm, r, es, before)
    modifies sm, sm.ctx, sm.ctx.rcvBlk
    ensures ReceiverFollowed(sm, r, es + [(e, env)], before)
  {
    hide R.React, ReceiverBounds.Run, ReceiverBounds.BytesOf, ReceiverBounds.Bounded;
    RestsBetweenEvents(r, es);
    ReceiverBounds.RunOn(r, es, e, env);
    sm.PostEvent(e, env);
  }

  method CancelReceiver(sm: ReceiverMachine.YReceiverSS, env: Env,
                        ghost r: R.Receiver, ghost es: seq<(R.Event, Env)>, ghost before: Data)
    requires r.Valid() && forall i :: 0 <= i < |es| ==> es[i].0.Valid()
    requires ReceiverFollowed(sm, r, es, before) && !sm.active.IsOver()
    modifies sm, sm.ctx, sm.ctx.rcvBlk
    ensures ReceiverFollowed(sm, r, es + [(R.KbC, env)], before)
  {
    hide R.React, ReceiverBounds.Run, ReceiverBounds.BytesOf, ReceiverBounds.Bounded;
    RestsBetweenEvents(r, es);
    ReceiverBounds.RunOn(r, es, R.KbC, env);
    ReceiverCancels(ReceiverBounds.Run(r, es), env);
    PostToReceiver(sm, R.KbC, env, r, es, before);
    sm.ctx.kbCan := true;
  }

  /** The same happens to the receiver. */
  lemma CancelCanThrowAtReceiver(env: Env)
    ensures ReceiverThrow(R.Start().r, [Arrived(Some(CAN), [], false, env, env),
                                        Arrived(Some(CAN), [], true, env, env)])
  {
    hide R.React, ReceiverThrow, ReceiverThrows, PostedToReceiver, ByteArrived, ReceiverBounds.Run;
    var r := R.Start().r;
    var first, second := Arrived(Some(CAN), [], false, env, env), Arrived(Some(CAN), [], true, env, env);
    ReceiverSteps.FirstCan(r, env);
    OneByte(r, first);
    var t := R.React(r, R.Ser(CAN, []), env).r;
    ReceiverSteps.SecondCan(t, env);
    OneByte(t, second);
    SecondTurnThrows(r, first, second);
  }

  /** A byte that leaves the machine running, and one with a cancel that stops it. */
  lemma OneByte(r: R.Receiver, p: ReceiverPoll)
    requires r.Valid() && p.Valid() && p.Arrived? && p.c.Some? && !r.leaf.IsOver()
    ensures var t := R.React(r, R.Ser(p.c.value, p.rest), p.env).r;
            && (!p.cancel ==> ReceiverBounds.Run(r, PostedToReceiver(r, p)) == t)
            && (p.cancel && t.leaf == R.Final ==> ReceiverThrows(r, p))
  {
    hide R.React;
    ReceiverBounds.RunOn(r, [], R.Ser(p.c.value, p.rest), p.env);
    assert [] + [(R.Ser(p.c.value, p.rest), p.env)] == ByteArrived(p);
    assert ByteArrived(p) + [] == ByteArrived(p);
  }

  lemma SecondTurnThrows(r: R.Receiver, p: ReceiverPoll, q: ReceiverPoll)
    requires r.Valid() && p.Valid() && q.Valid()
    requires ReceiverThrows(ReceiverBounds.Run(r, PostedToReceiver(r, p)), q)
    ensures ReceiverThrow(r, [p, q])
  {
    hide ReceiverThrows, PostedToReceiver, R.React, ReceiverBounds.Run;
    ReceiverStartsEmpty(r);
    var polls := [p, q];
    assert polls[..1] == [p] && [p][..0] == [];
    assert ReceiverEvents(r, []) == [];
    assert [] + PostedToReceiver(r, p) == PostedToReceiver(r, p);
    assert ReceiverEvents(r, [p]) == PostedToReceiver(r, p);
  }

  lemma NoReceiverTurns(r: R.Receiver)
    requires r.Valid()
    ensures ReceiverEvents(r, []) == [] && !ReceiverThrow(r, [])
  {
  }

  lemma NextReceiverTurn(r: R.Receiver, polls: seq<ReceiverPoll>)
    requires r.Valid() && polls != [] && forall i :: 0 <= i < |polls| ==> polls[i].Valid()
    ensures var n := |polls| - 1;
            var es := ReceiverEvents(r, polls[..n]);
            && ReceiverEvents(r, polls) == es + PostedToReceiver(ReceiverBounds.Run(r, es), polls[n])
            && ReceiverThrow(r, polls)
               == (ReceiverThrow(r, polls[..n]) || ReceiverThrows(ReceiverBounds.Run(r, es), polls[n]))
  {
    hide PostedToReceiver, ReceiverThrows, ReceiverBounds.Run;
  }

  lemma OnlyReceiverTurn(r: R.Receiver, p: ReceiverPoll)
    requires r.Valid() && p.Valid()
    ensures ReceiverEvents(r, [p]) == PostedToReceiver(r, p) && ReceiverThrow(r, [p]) == ReceiverThrows(r, p)
  {
    hide PostedToReceiver, ReceiverThrows, ReceiverBounds.Run, ReceiverEvents, ReceiverThrow, R.React;
    NoReceiverTurns(r);
    NextReceiverTurn(r, [p]);
    ReceiverStartsEmpty(r);
    assert [p][..0] == [];
    assert [] + PostedToReceiver(r, p) == PostedToReceiver(r, p);
  }

  /** A turn in which nothing is ready posts a timeout exactly when it is due; one with a byte and a cancel posts the byte
      first, and the cancel unless the byte has stopped the machine. */
  lemma OneReceiverTurn(r: R.Receiver, due: bool, c: byte, rest: Data, cancel: bool, env: Env, envOfCancel: Env)
    requires r.Valid() && !r.leaf.IsOver() && |rest| < BUF_SZ
    ensures ReceiverEvents(r, [Idle(due, env)]) == (if due then [(R.Tm, env)] else [])
    ensures !ReceiverThrow(r, [Idle(due, env)])
    ensures var p := Arrived(Some(c), rest, cancel, env, envOfCancel);
            var o := R.React(r, R.Ser(c, rest), env);
            var t := ReceiverBounds.Run(r, ReceiverEvents(r, [p]));
            && (cancel && !o.r.leaf.IsOver() ==> t == R.React(o.r, R.KbC, envOfCancel).r)
            && (!cancel || o.r.leaf.IsOver() ==> t == o.r)
            && (ReceiverThrow(r, [p]) <==> o.r.leaf == R.Aborted || (cancel && o.r.leaf == R.Final))
  {
    hide R.React, ReceiverBounds.Run, ReceiverBounds.BytesOf, ReceiverEvents, ReceiverThrow;
    var p := Arrived(Some(c), rest, cancel, env, envOfCancel);
    OnlyReceiverTurn(r, Idle(due, env));
    OnlyReceiverTurn(r, p);
    ReceiverStartsEmpty(r);
    ReceiverBounds.RunOn(r, [], R.Ser(c, rest), env);
    assert [] + [(R.Ser(c, rest), env)] == ByteArrived(p);
    ReceiverBounds.RunOn(r, ByteArrived(p), R.KbC, envOfCancel);
    assert ByteArrived(p) + [] == ByteArrived(p);
  }

  /** The turns of a run go on where those before them have ended. */
  lemma {:induction false} ReceiverTurnsGoOn(r: R.Receiver, polls: seq<ReceiverPoll>, more: seq<ReceiverPoll>)
    requires r.Valid() && forall i :: 0 <= i < |polls| ==> polls[i].Valid()
    requires forall i :: 0 <= i < |more| ==> more[i].Valid()
    ensures var es := ReceiverEvents(r, polls);
            var t := ReceiverBounds.Run(r, es);
            && ReceiverEvents(r, polls + more) == es + ReceiverEvents(t, more)
            && ReceiverBounds.Run(r, ReceiverEvents(r, polls + more)) == ReceiverBounds.Run(t, ReceiverEvents(t, more))
  {
    hide PostedToReceiver, R.React, ReceiverBounds.Run, ReceiverEvents, ReceiverThrow, ReceiverThrows;
    var es := ReceiverEvents(r, polls);
    var t := ReceiverBounds.Run(r, es);
    if more == [] {
      NoReceiverTurns(t);
      ReceiverStartsEmpty(t);
      assert polls + more == polls && es + [] == es;
    } else {
      var n := |more| - 1;
      ReceiverTurnsGoOn(r, polls, more[..n]);
      NextReceiverTurn(r, polls + more);
      NextReceiverTurn(t, more);
      assert (polls + more)[..|polls + more| - 1] == polls + more[..n];
      var later := ReceiverEvents(t, more[..n]);
      var last := PostedToReceiver(ReceiverBounds.Run(t, later), more[n]);
      assert es + later + last == es + (later + last);
      ReceiverRunsGoOn(r, es, later + last);
    }
  }

  lemma {:induction false} ReceiverRunsGoOn(r: R.Receiver, es: seq<(R.Event, Env)>, more: seq<(R.Event, Env)>)
    requires r.Valid() && forall i :: 0 <= i < |es| ==> es[i].0.Valid()
    requires forall i :: 0 <= i < |more| ==> more[i].0.Valid()
    ensures ReceiverBounds.Run(r, es + more) == ReceiverBounds.Run(ReceiverBounds.Run(r, es), more)
  {
    hide R.React;
    if more == [] {
      assert es + more == es;
    } else {
      var n := |more| - 1;
      assert (es + more)[..|es + more| - 1] == es + more[..n];
      ReceiverRunsGoOn(r, es, more[..n]);
    }
  }

  method TurnReceiver(sm: ReceiverMachine.YReceiverSS, p: ReceiverPoll,
                      ghost r: R.Receiver, ghost es: seq<(R.Event, Env)>, ghost before: Data)
    returns (threw: bool, ghost all: seq<(R.Event, Env)>)
    requires r.Valid() && p.Valid() && forall i :: 0 <= i < |es| ==> es[i].0.Valid()
    requires ReceiverFollowed(sm, r, es, before)
    modifies sm, sm.ctx, sm.ctx.rcvBlk
    ensures all == es + PostedToReceiver(ReceiverBounds.Run(r, es), p)
    ensures forall i :: 0 <= i < |all| ==> all[i].0.Valid()
    ensures ReceiverFollowed(sm, r, all, before)
    ensures threw == ReceiverThrows(ReceiverBounds.Run(r, es), p)
  {
    hide R.React, ReceiverBounds.Run, ReceiverBounds.BytesOf, ReceiverBounds.Bounded;
    all, threw := es, false;
    if !sm.active.IsOver() {
      match p {
        case Idle(due, env) =>
          if due {
            PostToReceiver(sm, R.Tm, env, r, es, before);
            all := all + [(R.Tm, env)];
          }
        case Arrived(c, rest, cancel, env, envOfCancel) =>
          ReceiverRunOfOne(r, es, p);
          if c.Some? {
            PostToReceiver(sm, R.Ser(c.value, rest), env, r, es, before);
            all := all + [(R.Ser(c.value, rest), env)];
          }
          assert all == es + ByteArrived(p);
          if sm.active == R.Aborted {
            threw := true;
          } else if cancel {
            if sm.active == R.Final {
              threw := true;
            } else {
              CancelReceiver(sm, envOfCancel, r, all, before);
              all := all + [(R.KbC, envOfCancel)];
            }
          }
      }
    }
    assert all == es + PostedToReceiver(ReceiverBounds.Run(r, es), p);
  }

  /** `receiveFiles`: all that the receiver's objects send from construction on is what one run of the chart sends, and
      their count of errors ends up within its bound, with no message left in the queue. */
  method ReceiveFiles(receiver: ReceiverObject.ReceiverY, polls: seq<ReceiverPoll>)
    returns (sm: ReceiverMachine.YReceiverSS, threw: bool)
    requires receiver.Valid() && receiver.View() == ReceiverContext.InitialCtx() && receiver.written == []
    requires forall i :: 0 <= i < |polls| ==> polls[i].Valid()
    modifies receiver, receiver.rcvBlk
    ensures fresh(sm) && sm.ctx == receiver && sm.Valid() && sm.posted == 0
    ensures var r := R.Start().r;
            var es := ReceiverEvents(r, polls);
            && sm.Machine() == ReceiverBounds.Run(r, es) && threw == ReceiverThrow(r, polls)
            && receiver.written == R.Start().sent + ReceiverBounds.BytesOf(r, es)
    ensures receiver.errCnt <= ERR_BOUND + 2
  {
    hide R.React, ReceiverBounds.Run, ReceiverBounds.BytesOf, ReceiverBounds.Bounded;
    sm := new ReceiverMachine.YReceiverSS(receiver);
    ghost var r := R.Start().r;
    ghost var es: seq<(R.Event, Env)> := [];
    ReceiverStartsEmpty(r);
    ReceiverBounds.StartBounded();
    threw := false;
    var i := 0;
    while i < |polls|
      invariant 0 <= i <= |polls| && forall k :: 0 <= k < |es| ==> es[k].0.Valid()
      invariant ReceiverFollowed(sm, r, es, R.Start().sent)
      invariant es == ReceiverEvents(r, polls[..i]) && threw == ReceiverThrow(r, polls[..i])
    {
      assert polls[..i + 1][..i] == polls[..i];
      var threwNow;
      threwNow, es := TurnReceiver(sm, polls[i], r, es, R.Start().sent);
      i, threw := i + 1, threw || threwNow;
    }
    assert polls[..i] == polls;
    RestsBetweenEvents(r, es);
  }

  lemma ReceiverStartsEmpty(r: R.Receiver)
    requires r.Valid()
    ensures ReceiverBounds.Run(r, []) == r && ReceiverBounds.BytesOf(r, []) == []
  {
  }
}
