/** The message loop of the statechart engine (ss_api.cpp): any chart over any tree of states, its handlers, and the
    messages that they post. */
module StateEngine {
  import opened Text
  import opened StateTree

  /** A context, and the messages posted so far and not yet handled. */
  datatype Did<C, M> = Did(ctx: C, queue: seq<M>)

  /** Where a handler goes: nowhere, from a state to another one, or from a state to the end. */
  datatype Move = Stay | Goto(caller: nat, target: nat) | Finish(caller: nat)

  /** What a handler does: its effect, between leaving the old states and entering the new ones. */
  datatype Reaction<!C, M> = Reaction(effect: C -> Did<C, M>, move: Move)

  /** A chart: the tree of states, what a leaf, or a state around it, makes of a message, and what is done at exit
      from a state and at entry to it. */
  datatype Chart<!C, !M> = Chart(
    tree: Tree,
    onMessage: (nat, M, C) -> Reaction<C, M>,
    onExit: (nat, C) -> Did<C, M>,
    onEntry: (nat, C) -> Did<C, M>)

  /** A handler leaves a state that is active, and goes to one that is not below it, unless it leaves the leaf. */
  predicate MoveFits(t: Tree, leaf: nat, move: Move)
    requires t.Valid() && t.Has(leaf)
  {
    match move
    case Stay => true
    case Finish(caller) => t.Has(caller) && t.IsAbove(caller, leaf)
    case Goto(caller, target) =>
      && t.Has(caller) && t.Has(target) && t.IsAbove(caller, leaf)
      && (caller == leaf || !t.IsAbove(caller, target))
  }

  ghost predicate Proper<C(!new), M(!new)>(ch: Chart<C, M>)
  {
    && ch.tree.Valid()
    && forall leaf: nat, m, c :: ch.tree.Has(leaf) && !ch.tree.IsSuper(leaf) ==>
         MoveFits(ch.tree, leaf, ch.onMessage(leaf, m, c).move)
  }

  /** The engine between two messages. */
  datatype Config<C, M> = Config(active: seq<nat>, history: History, did: Did<C, M>)

  /** One leaf is active, or the machine has finished. */
  ghost predicate Fits(t: Tree, active: seq<nat>, history: History)
    requires t.Valid()
  {
    HistoryFits(t, history) && |active| <= 1 && forall s :: s in active ==> t.Has(s) && !t.IsSuper(s)
  }

  /** What is posted goes behind what is in the queue. */
  function Then<C, M>(d: Did<C, M>, more: Did<C, M>): Did<C, M>
  {
    Did(more.ctx, d.queue + more.queue)
  }

  /** What is done in each of some states, in their order. */
  function Through<C, M>(step: (nat, C) -> Did<C, M>, states: seq<nat>, d: Did<C, M>): Did<C, M>
  {
    if states == [] then d
    else
      var before := Through(step, states[..|states| - 1], d);
      Then(before, step(states[|states| - 1], before.ctx))
  }

  /** One message is handled by the active leaf; a machine that has finished ignores it. */
  function Fired<C(!new), M(!new)>(ch: Chart<C, M>, g: Config<C, M>, m: M): (g': Config<C, M>)
    requires Proper(ch) && Fits(ch.tree, g.active, g.history)
    ensures Fits(ch.tree, g'.active, g'.history) && (g.active == [] ==> g' == g)
  {
    if g.active == [] then g
    else
      var leaf := g.active[0];
      var r := ch.onMessage(leaf, m, g.did.ctx);
      match r.move
      case Stay => g.(did := Then(g.did, r.effect(g.did.ctx)))
      case Finish(caller) =>
        var left := Then(g.did, ch.onExit(caller, g.did.ctx));
        Config([], g.history, Then(left, r.effect(left.ctx)))
      case Goto(caller, target) =>
        var e := Expected(ch.tree, g.history, leaf, caller, target);
        LeafAfter(ch.tree, g.history, leaf, caller, target);
        var left := Through(ch.onExit, e.exited, g.did);
        Config(e.active, e.history, Through(ch.onEntry, e.entered, Then(left, r.effect(left.ctx))))
  }

  /** A proper move leaves exactly one leaf active. */
  lemma LeafAfter(t: Tree, h: History, leaf: nat, caller: nat, target: nat)
    requires t.Valid() && HistoryFits(t, h) && t.Has(leaf) && t.Has(caller) && t.Has(target)
    requires t.IsAbove(caller, leaf) && (caller == leaf || !t.IsAbove(caller, target))
    ensures var e := Expected(t, h, leaf, caller, target);
            |e.active| == 1 && Fits(t, e.active, e.history)
  {
    TransitionTheorem(t, h, leaf, caller, target);
    var e := Expected(t, h, leaf, caller, target);
    hide CommonRoot, Expected;
    assert e.active == [e.active[0]];
  }

  /** The first message in the queue, and all that come behind it, up to `n` of them. */
  function Emptied<C(!new), M(!new)>(ch: Chart<C, M>, g: Config<C, M>, n: nat): (g': Config<C, M>)
    requires Proper(ch) && Fits(ch.tree, g.active, g.history)
    ensures Fits(ch.tree, g'.active, g'.history) && (g.active == [] ==> g'.active == [])
    decreases n
  {
    if n == 0 || g.did.queue == [] then g
    else
      var q := g.did.queue;
      Emptied(ch, Fired(ch, g.(did := g.did.(queue := q[1..])), q[0]), n - 1)
  }

  /** The messages come to an end after at most `n` of them. */
  predicate Ends<C(!new), M(!new)>(ch: Chart<C, M>, g: Config<C, M>, n: nat)
    requires Proper(ch) && Fits(ch.tree, g.active, g.history)
  {
    Emptied(ch, g, n).did.queue == []
  }

  /** It does not matter how many messages are allowed for, once they come to an end. */
  lemma {:induction false} EndIsTheSame<C(!new), M(!new)>(ch: Chart<C, M>, g: Config<C, M>, n: nat, m: nat)
    requires Proper(ch) && Fits(ch.tree, g.active, g.history) && Ends(ch, g, n) && n <= m
    ensures Emptied(ch, g, m) == Emptied(ch, g, n)
    decreases n
  {
    hide Fired, Proper, Fits;
    if n > 0 && g.did.queue != [] {
      var q := g.did.queue;
      EndIsTheSame(ch, Fired(ch, g.(did := g.did.(queue := q[1..])), q[0]), n - 1, m - 1);
    }
  }

  /** `g` with `q` in front of its queue. */
  function Behind<C, M>(q: seq<M>, g: Config<C, M>): Config<C, M>
  {
    g.(did := g.did.(queue := q + g.did.queue))
  }

  lemma {:induction false} ThroughBehind<C, M>(step: (nat, C) -> Did<C, M>, states: seq<nat>, d: Did<C, M>, q: seq<M>)
    ensures Through(step, states, d.(queue := q + d.queue))
            == Through(step, states, d).(queue := q + Through(step, states, d).queue)
  {
    if states != [] {
      ThroughBehind(step, states[..|states| - 1], d, q);
    }
  }

  lemma ThenBehind<C, M>(d: Did<C, M>, more: Did<C, M>, q: seq<M>)
    ensures Then(d.(queue := q + d.queue), more) == Then(d, more).(queue := q + Then(d, more).queue)
  {
  }

  /** Messages that have been handled already do not matter. */
  lemma FiredBehind<C(!new), M(!new)>(ch: Chart<C, M>, g: Config<C, M>, m: M, q: seq<M>)
    requires Proper(ch) && Fits(ch.tree, g.active, g.history)
    ensures Fired(ch, Behind(q, g), m) == Behind(q, Fired(ch, g, m))
  {
    hide Through, Expected, Proper, Fits, CommonRoot;
    if g.active != [] {
      var leaf := g.active[0];
      var r := ch.onMessage(leaf, m, g.did.ctx);
      match r.move
      case Stay => ThenBehind(g.did, r.effect(g.did.ctx), q);
      case Finish(caller) =>
        var left := Then(g.did, ch.onExit(caller, g.did.ctx));
        ThenBehind(g.did, ch.onExit(caller, g.did.ctx), q);
        ThenBehind(left, r.effect(left.ctx), q);
      case Goto(caller, target) =>
        LeafIsThere(ch, g, m);
        var e := Expected(ch.tree, g.history, leaf, caller, target);
        var left := Through(ch.onExit, e.exited, g.did);
        ThroughBehind(ch.onExit, e.exited, g.did, q);
        ThenBehind(left, r.effect(left.ctx), q);
        ThroughBehind(ch.onEntry, e.entered, Then(left, r.effect(left.ctx)), q);
    }
  }

  lemma LeafIsThere<C(!new), M(!new)>(ch: Chart<C, M>, g: Config<C, M>, m: M)
    requires Proper(ch) && Fits(ch.tree, g.active, g.history) && g.active != []
    ensures ch.tree.Valid() && HistoryFits(ch.tree, g.history) && g.active == [g.active[0]]
    ensures ch.tree.Has(g.active[0]) && !ch.tree.IsSuper(g.active[0])
    ensures MoveFits(ch.tree, g.active[0], ch.onMessage(g.active[0], m, g.did.ctx).move)
  {
  }

  // --------------------------------------------- what happens in which order

  /** What a chart does that keeps a record of it. */
  datatype Event<M> = Left(state: nat) | Effect(m: M) | Entered(state: nat)

  /** A chart that notes down every exit, effect and entry, with its moves and the messages posted by an effect as given. */
  function Recorder<M(!new)>(t: Tree, move: (nat, M) -> Move, posts: M -> seq<M>): Chart<seq<Event<M>>, M>
  {
    Chart(t,
          (leaf, m, c) => Reaction(d => Did(d + [Effect(m)], posts(m)), move(leaf, m)),
          (s, c) => Did(c + [Left(s)], []),
          (s, c) => Did(c + [Entered(s)], []))
  }

  function AllLeft<M>(states: seq<nat>): (es: seq<Event<M>>)
    ensures |es| == |states|
  {
    seq(|states|, i requires 0 <= i < |states| => Left(states[i]))
  }

  function AllEntered<M>(states: seq<nat>): (es: seq<Event<M>>)
    ensures |es| == |states|
  {
    seq(|states|, i requires 0 <= i < |states| => Entered(states[i]))
  }

  lemma {:induction false} ExitsRecorded<M(!new)>(t: Tree, move: (nat, M) -> Move, posts: M -> seq<M>, states: seq<nat>,
                                            d: Did<seq<Event<M>>, M>)
    ensures Through(Recorder(t, move, posts).onExit, states, d) == Did(d.ctx + AllLeft(states), d.queue)
    ensures Through(Recorder(t, move, posts).onEntry, states, d) == Did(d.ctx + AllEntered(states), d.queue)
  {
    if states == [] {
      assert d.ctx + AllLeft<M>([]) == d.ctx && d.ctx + AllEntered<M>([]) == d.ctx;
    } else {
      var n := |states| - 1;
      ExitsRecorded(t, move, posts, states[..n], d);
      assert AllLeft<M>(states) == AllLeft<M>(states[..n]) + [Left(states[n])];
      assert AllEntered<M>(states) == AllEntered<M>(states[..n]) + [Entered(states[n])];
      assert d.ctx + AllLeft<M>(states) == d.ctx + AllLeft<M>(states[..n]) + [Left(states[n])];
      assert d.ctx + AllEntered<M>(states) == d.ctx + AllEntered<M>(states[..n]) + [Entered(states[n])];
      assert d.queue + [] == d.queue;
    }
  }

  /** A handler that moves leaves the old states first, then does what it does, and then enters the new states; one that
      finishes the machine leaves the state whose handler it is; and what it posts goes behind what is in the queue. */
  lemma MovesInOrder<M(!new)>(t: Tree, move: (nat, M) -> Move, posts: M -> seq<M>, g: Config<seq<Event<M>>, M>, m: M)
    requires Proper(Recorder(t, move, posts)) && Fits(t, g.active, g.history) && g.active != []
    ensures t.Has(g.active[0]) && MoveFits(t, g.active[0], move(g.active[0], m))
    ensures var leaf := g.active[0];
            var g' := Fired(Recorder(t, move, posts), g, m);
            && g'.did.queue == g.did.queue + posts(m)
            && match move(leaf, m)
               case Stay => g'.did.ctx == g.did.ctx + [Effect(m)] && g'.active == g.active
               case Finish(caller) => g'.did.ctx == g.did.ctx + [Left(caller), Effect(m)] && g'.active == []
               case Goto(caller, target) =>
                 var e := Expected(t, g.history, leaf, caller, target);
                 g'.did.ctx == g.did.ctx + AllLeft(e.exited) + [Effect(m)] + AllEntered(e.entered)
                 && g'.active == e.active && g'.history == e.history
  {
    hide Expected, CommonRoot, Through, AllLeft, AllEntered;
    var ch := Recorder(t, move, posts);
    LeafIsThere(ch, g, m);
    var leaf := g.active[0];
    assert g.did.queue + [] == g.did.queue;
    if move(leaf, m).Goto? {
      var e := Expected(t, g.history, leaf, move(leaf, m).caller, move(leaf, m).target);
      ExitsRecorded(t, move, posts, e.exited, g.did);
      var left := Through(ch.onExit, e.exited, g.did);
      var after := Then(left, Did(left.ctx + [Effect(m)], posts(m)));
      ExitsRecorded(t, move, posts, e.entered, after);
    }
  }

  function AllEffects<M>(ms: seq<M>): (es: seq<Event<M>>)
    ensures |es| == |ms|
  {
    seq(|ms|, i requires 0 <= i < |ms| => Effect(ms[i]))
  }

  /** Messages that post nothing are handled in the order of the queue. */
  lemma {:induction false} HandledInOrder<M(!new)>(t: Tree, move: (nat, M) -> Move, posts: M -> seq<M>,
                                             g: Config<seq<Event<M>>, M>)
    requires Proper(Recorder(t, move, posts)) && Fits(t, g.active, g.history) && g.active != []
    requires forall leaf, m :: move(leaf, m) == Stay
    requires forall m :: m in g.did.queue ==> posts(m) == []
    ensures Emptied(Recorder(t, move, posts), g, |g.did.queue|)
            == g.(did := Did(g.did.ctx + AllEffects(g.did.queue), []))
    decreases |g.did.queue|
  {
    var q := g.did.queue;
    if q == [] {
      assert g.did.ctx + AllEffects<M>([]) == g.did.ctx;
    } else {
      hide Fired;
      var h := g.(did := g.did.(queue := q[1..]));
      MovesInOrder(t, move, posts, h, q[0]);
      StaysPut(t, move, posts, h, q[0]);
      var g' := Fired(Recorder(t, move, posts), h, q[0]);
      assert q[1..] + [] == q[1..];
      HandledInOrder(t, move, posts, g');
      assert AllEffects(q) == [Effect(q[0])] + AllEffects(q[1..]);
      assert g.did.ctx + AllEffects(q) == g.did.ctx + [Effect(q[0])] + AllEffects(q[1..]);
    }
  }

  lemma StaysPut<M(!new)>(t: Tree, move: (nat, M) -> Move, posts: M -> seq<M>, g: Config<seq<Event<M>>, M>, m: M)
    requires Proper(Recorder(t, move, posts)) && Fits(t, g.active, g.history) && g.active != []
    requires forall leaf, n :: move(leaf, n) == Stay
    ensures Fired(Recorder(t, move, posts), g, m) == g.(did := Did(g.did.ctx + [Effect(m)], g.did.queue + posts(m)))
  {
  }

  /** What a message posts is handled behind all that was in the queue with it. */
  lemma PostedComeLast<M(!new)>(t: Tree, move: (nat, M) -> Move, posts: M -> seq<M>, g: Config<seq<Event<M>>, M>)
    requires Proper(Recorder(t, move, posts)) && Fits(t, g.active, g.history) && g.active != []
    requires forall leaf, m :: move(leaf, m) == Stay
    requires g.did.queue != []
    requires var q := g.did.queue;
             forall m :: m in q[1..] + posts(q[0]) ==> posts(m) == []
    ensures var q := g.did.queue + posts(g.did.queue[0]);
            Emptied(Recorder(t, move, posts), g, |q|) == g.(did := Did(g.did.ctx + AllEffects(q), []))
  {
    hide Fired, Fits, Proper, Emptied, AllEffects;
    var q := g.did.queue;
    var all := q + posts(q[0]);
    var h := g.(did := g.did.(queue := q[1..]));
    StaysPut(t, move, posts, h, q[0]);
    var g' := Fired(Recorder(t, move, posts), h, q[0]);
    FirstIsHandled(Recorder(t, move, posts), g, |all|);
    assert all[1..] == q[1..] + posts(q[0]);
    HandledInOrder(t, move, posts, g');
    FirstEffect(all);
    assert g.did.ctx + AllEffects(all) == g.did.ctx + [Effect(q[0])] + AllEffects(all[1..]);
  }

  lemma FirstEffect<M>(ms: seq<M>)
    requires ms != []
    ensures AllEffects(ms) == [Effect(ms[0])] + AllEffects(ms[1..])
  {
  }

  lemma FirstIsHandled<C(!new), M(!new)>(ch: Chart<C, M>, g: Config<C, M>, n: nat)
    requires Proper(ch) && Fits(ch.tree, g.active, g.history) && n > 0 && g.did.queue != []
    ensures var q := g.did.queue;
            Emptied(ch, g, n) == Emptied(ch, Fired(ch, g.(did := g.did.(queue := q[1..])), q[0]), n - 1)
  {
    hide Fired, Proper, Fits;
  }

  // ------------------------------------------------------------ the engine

  class Machine<C(!new), M(!new)> {
    const chart: Chart<C, M>
    const mgr: StateMgr
    var ctx: C
    // all messages posted since the last event, handled ones included
    var posted: seq<M>
    var busy: bool

    ghost predicate Valid()
      reads this, mgr
    {
      Proper(chart) && mgr.tree == chart.tree && mgr.Valid() && Fits(mgr.tree, mgr.active, mgr.history)
    }

    /** The engine, with the posted messages from number `i` on not yet handled. */
    ghost function View(i: nat): Config<C, M>
      requires i <= |posted|
      reads this, mgr
    {
      Config(mgr.active, mgr.history, Did(ctx, posted[i..]))
    }

    constructor (chart: Chart<C, M>, ctx: C)
      requires Proper(chart)
      ensures Valid() && fresh(mgr) && this.chart == chart && this.ctx == ctx
      ensures posted == [] && !busy && !mgr.running && mgr.active == []
      ensures mgr.history == seq(|chart.tree.parent|, _ => -1)
    {
      this.chart, this.ctx, posted, busy := chart, ctx, [], false;
      mgr := new StateMgr(chart.tree);
    }

    method DoNow(d: Did<C, M>)
      modifies this`ctx, this`posted
      ensures Did(ctx, posted) == Then(old(Did(ctx, posted)), d)
    {
      ctx := d.ctx;
      posted := posted + d.queue;
    }

    /** Calls `onExit` or `onEntry` of some states. */
    method CallAll(step: (nat, C) -> Did<C, M>, states: seq<nat>)
      modifies this`ctx, this`posted
      ensures Did(ctx, posted) == Through(step, states, old(Did(ctx, posted)))
    {
      var i := 0;
      while i < |states|
        invariant 0 <= i <= |states| && Did(ctx, posted) == Through(step, states[..i], old(Did(ctx, posted)))
      {
        assert states[..i + 1][..i] == states[..i];
        DoNow(step(states[i], ctx));
        i := i + 1;
      }
      assert states[..|states|] == states;
    }

    /** A handler's move to another state. */
    method GoTo(caller: nat, target: nat, effect: C -> Did<C, M>, ghost leaf: nat)
      requires Valid() && mgr.active == [leaf] && mgr.tree.Has(leaf)
      requires MoveFits(mgr.tree, leaf, Goto(caller, target))
      modifies this`ctx, this`posted, mgr
      ensures mgr.tree.Has(caller) && mgr.tree.Has(target) && mgr.tree.IsAbove(caller, leaf)
      ensures mgr.running == old(mgr.running)
      ensures var e := Expected(mgr.tree, old(mgr.history), leaf, caller, target);
              var left := Through(chart.onExit, e.exited, old(Did(ctx, posted)));
              && mgr.active == e.active && mgr.history == e.history
              && Did(ctx, posted) == Through(chart.onEntry, e.entered, Then(left, effect(left.ctx)))
    {
      hide Proper, Through, Fits, CommonRoot, InitialLeaf;
      var before := |mgr.exited|;
      var root := mgr.ExecuteExit(caller, Some(target), leaf);
      CallAll(chart.onExit, mgr.exited[before..]);
      DoNow(effect(ctx));
      before := |mgr.entered|;
      mgr.ExecuteEntry(root, Some(target));
      CallAll(chart.onEntry, mgr.entered[before..]);
    }

    /** The active leaf handles a message. */
    method FireMessage(m: M)
      requires Valid()
      modifies this`ctx, this`posted, mgr
      ensures Valid() && View(0) == Fired(chart, old(View(0)), m)
      ensures mgr.running == (old(mgr.running) && (old(mgr.active) != [] ==> mgr.active != []))
    {
      hide Through, Expected, CommonRoot;
      if |mgr.active| > 0 {
        ghost var g := View(0);
        LeafIsThere(chart, g, m);
        var leaf := mgr.active[0];
        var r := chart.onMessage(leaf, m, ctx);
        match r.move {
          case Stay => DoNow(r.effect(ctx));
          case Finish(caller) =>
            var root := mgr.ExecuteExit(caller, None, leaf);
            DoNow(chart.onExit(caller, ctx));
            DoNow(r.effect(ctx));
            mgr.ExecuteEntry(root, None);
          case Goto(caller, target) =>
            LeafAfter(mgr.tree, mgr.history, leaf, caller, target);
            GoTo(caller, target, r.effect, leaf);
        }
      }
    }

    /** What the handling of message `i` leaves, in terms of the messages behind it. */
    method FirePosted(i: nat)
      requires Valid() && i < |posted|
      modifies this`ctx, this`posted, mgr
      ensures Valid() && i < |posted|
      ensures View(i + 1) == Fired(chart, old(View(i + 1)), old(posted[i]))
      ensures mgr.running == (old(mgr.running) && (old(mgr.active) != [] ==> mgr.active != []))
    {
      hide Fired, Proper, Fits;
      ghost var q := posted[..i + 1];
      assert posted == q + posted[i + 1..];
      FiredBehind(chart, View(i + 1), posted[i], q);
      FireMessage(posted[i]);
      assert posted == View(0).did.queue;
    }

    /** Posted messages are handled in the order in which they were posted, those included that are posted meanwhile,
        until none is left. `n` says that they come to an end. */
    method SendPostedMessages(ghost n: nat)
      requires Valid() && Ends(chart, View(0), n)
      modifies this`ctx, this`posted, mgr
      ensures Valid() && View(|posted|) == Emptied(chart, old(View(0)), n)
      ensures mgr.running == (old(mgr.running) && (old(mgr.active) != [] ==> mgr.active != []))
    {
      hide Fired, Proper, Fits;
      ghost var left := n;
      var i := 0;
      while i < |posted|
        invariant i <= |posted| && Valid() && Emptied(chart, View(i), left) == Emptied(chart, old(View(0)), n)
        invariant mgr.running == (old(mgr.running) && (old(mgr.active) != [] ==> mgr.active != []))
        invariant old(mgr.active) == [] ==> mgr.active == []
        decreases left
      {
        ghost var g := View(i);
        assert g.(did := g.did.(queue := g.did.queue[1..])) == View(i + 1);
        FirePosted(i);
        i, left := i + 1, left - 1;
      }
    }

    /** The machine is put into its initial states, and the messages that entering them has posted are handled, with
        those that are still in the list. Then it counts as running, whatever those messages have done. */
    method Start(ghost n: nat)
      requires Valid() && Ends(chart, Started(), n)
      modifies this`ctx, this`posted, mgr
      ensures Valid() && mgr.running
      ensures View(|posted|) == Emptied(chart, old(Started()), n)
    {
      hide Proper, Through, InitialLeaf, FromTop, Fits, Emptied;
      StartedFits();
      var before := |mgr.entered|;
      mgr.EnterInitialStates();
      CallAll(chart.onEntry, mgr.entered[before..]);
      assert View(0) == old(Started());
      SendPostedMessages(n);
      mgr.running := true;
    }

    /** Where entering the initial states leads. */
    ghost function Started(): (g: Config<C, M>)
      requires Valid()
      reads this, mgr
      ensures Proper(chart) && Fits(chart.tree, g.active, g.history)
    {
      var l := InitialLeaf(mgr.tree, mgr.history, 0);
      Config([l], mgr.history, Through(chart.onEntry, FromTop(mgr.tree, l), Did(ctx, posted)))
    }

    lemma StartedFits()
      requires Valid()
      ensures mgr.tree == chart.tree && Fits(chart.tree, [InitialLeaf(mgr.tree, mgr.history, 0)], mgr.history)
    {
    }

    /** Where an event leads before the messages that its handler posts. */
    ghost function AtEvent(m: M): (g: Config<C, M>)
      requires Valid()
      reads this, mgr
      ensures Proper(chart) && Fits(chart.tree, g.active, g.history)
    {
      Fired(chart, Config(mgr.active, mgr.history, Did(ctx, [])), m)
    }

    /** Handles an event and all that is posted because of it, before it returns; while it is busy, an event goes behind
        the posted messages. The result says whether the machine was running; if not, the program throws. A machine
        that was running with a leaf goes on running exactly if it still has one. */
    method PostEvent(m: M, ghost n: nat) returns (ok: bool)
      requires Valid() && (mgr.running && !busy ==> Ends(chart, AtEvent(m), n))
      modifies this, mgr
      ensures Valid() && ok == old(mgr.running) && busy == old(busy)
      ensures !ok ==> ctx == old(ctx) && posted == old(posted) && mgr.active == old(mgr.active) && !mgr.running
      ensures ok && busy ==> ctx == old(ctx) && posted == old(posted) + [m] && mgr.active == old(mgr.active)
      ensures ok && !busy ==> View(|posted|) == Emptied(chart, old(AtEvent(m)), n)
      ensures ok && !busy && old(mgr.active) != [] ==> (mgr.running <==> |mgr.active| == 1)
    {
      if !mgr.running {
        return false;
      }
      ok := true;
      if busy {
        posted := posted + [m];
        return;
      }
      busy := true;
      posted := [];
      FireMessage(m);
      SendPostedMessages(n);
      busy := false;
    }
  }

  // -------------------------------------------------- finished at the start

  /** One state, whose entry posts a message that finishes the machine. */
  function FinishingChart(): Chart<bool, bool>
  {
    Chart(Tree([-1], [[]], [false]),
          (leaf, m, c) => Reaction(d => Did(d, []), Finish(0)),
          (s, c) => Did(c, []),
          (s, c) => Did(c, [true]))
  }

  lemma FinishingChartIsProper()
    ensures Proper(FinishingChart())
  {
  }

  /** The machine of this chart has no leaf after its start, and counts as running. */
  method StartFinished() returns (m: Machine<bool, bool>)
    ensures m.mgr.active == [] && m.mgr.running
  {
    FinishingChartIsProper();
    m := new Machine(FinishingChart(), false);
    FinishesAtOnce(m);
    m.Start(1);
  }

  lemma FinishesAtOnce(m: Machine<bool, bool>)
    requires m.Valid() && m.chart == FinishingChart() && m.ctx == false && m.posted == []
    ensures Ends(m.chart, m.Started(), 1) && Emptied(m.chart, m.Started(), 1).active == []
  {
    var g := m.Started();
    assert FromTop(m.mgr.tree, 0) == [0];
    assert [0][..0] == [];
    assert Through(m.chart.onEntry, [0], Did(false, [])) == Then(Did(false, []), Did(false, [true]));
    assert g.active == [0] && g.did == Did(false, [true]);
    var g' := Fired(m.chart, g.(did := g.did.(queue := [])), true);
    assert g.did.queue[1..] == [];
    assert g' == Config([], g.history, Did(false, []));
    assert Emptied(m.chart, g, 1) == Emptied(m.chart, g', 0);
  }
}
