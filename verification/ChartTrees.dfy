/** The two charts as trees of the statechart engine: where the engine ends up, and what it remembers, is what the
    flat charts say. */
module ChartTrees {
  import opened Text
  import opened StateTree
  import R = ReceiverChart
  import S = SenderChart

  // ------------------------------------------------------------ receiver

  const R_NON_CAN: nat := 1
  const R_CAN: nat := 2
  const R_DATA: nat := 4

  function ReceiverTree(): Tree
  {
    Tree([-1, 0, 0, 1, 1, 1, 1, 1, 1, 1, 1, 4, 4],
         [[1, 2], [3, 4, 5, 6, 7, 8, 9, 10], [], [], [11, 12], [], [], [], [], [], [], [], []],
         [true, true, false, false, false, false, false, false, false, false, false, false, false])
  }

  function ReceiverState(l: R.Leaf): nat
    requires !l.IsOver()
  {
    match l
    case FirstByteStat => 3
    case TransientData => 5
    case TransientCheck => 6
    case TransientOpen => 7
    case TransientEot => 8
    case TransientStat => 9
    case AreWeDone => 10
    case FirstByteData => 11
    case EotData => 12
    case Can => 2
  }

  lemma ReceiverTreeIsValid()
    ensures ReceiverTree().Valid()
  {
    var t := ReceiverTree();
    ReceiverParents();
    forall p, i | 0 <= p < 13 && 0 <= i < |t.subs[p]| ensures p < t.subs[p][i] < 13 && t.parent[t.subs[p][i]] == p {
      ReceiverSubs(p, i);
    }
    hide ReceiverTree;
  }

  lemma ReceiverParents()
    ensures var t := ReceiverTree();
            && |t.parent| == |t.subs| == |t.keepsHistory| == 13 && t.parent[0] == -1
            && forall s :: 0 < s < 13 ==> 0 <= t.parent[s] < s && s in t.subs[t.parent[s]]
  {
    var t := ReceiverTree();
    forall s | 0 < s < 13 ensures 0 <= t.parent[s] < s && s in t.subs[t.parent[s]] {
      assert t.subs[t.parent[s]][if s <= 2 then s - 1 else if s <= 10 then s - 3 else s - 11] == s;
    }
  }

  lemma ReceiverSubs(p: nat, i: nat)
    requires p < 13 && i < |ReceiverTree().subs[p]|
    ensures var t := ReceiverTree();
            p < t.subs[p][i] < 13 && t.parent[t.subs[p][i]] == p
  {
    var t := ReceiverTree();
    assert t.subs[p][i] == if p == 0 then 1 + i else if p == 1 then 3 + i else 11 + i;
  }

  /** The engine's history shows what the chart says: only NON_CAN remembers anything. */
  ghost predicate ReceiverShows(h: History, history: R.Leaf)
  {
    && |h| == 13 && !history.IsOver() && history !in {R.Can, R.FirstByteData, R.EotData}
    && (h[R_NON_CAN] == ReceiverState(history) || (h[R_NON_CAN] == -1 && history == R.FirstByteStat))
    && forall s :: 0 <= s < 13 && s != R_NON_CAN ==> h[s] == -1
  }

  lemma ReceiverShowsFits(h: History, history: R.Leaf)
    requires ReceiverShows(h, history)
    ensures ReceiverTree().Valid() && HistoryFits(ReceiverTree(), h)
  {
    hide ReceiverTree;
    ReceiverTreeIsValid();
    ReceiverParents();
    if h[R_NON_CAN] != -1 {
      ChildOfNonCan(ReceiverState(history));
    }
  }

  /** Where each leaf of the receiver's tree lies. */
  lemma ReceiverAncestry(l: R.Leaf)
    requires !l.IsOver()
    ensures ReceiverTree().Valid()
    ensures var t := ReceiverTree();
            var s := ReceiverState(l);
            && t.Has(s) && !t.IsSuper(s)
            && t.parent[s] == (if l == R.Can then 0 else if l in {R.FirstByteData, R.EotData} then R_DATA else R_NON_CAN)
            && (l != R.Can ==> t.IsAbove(R_NON_CAN, s))
            && (l in {R.FirstByteData, R.EotData} ==> t.IsAbove(R_DATA, s))
  {
    hide ReceiverTree;
    var s := ReceiverState(l);
    if s >= 11 {
      DataBelowNonCan(ReceiverTree(), s);
    } else if s == R_CAN {
      CanIsLeaf();
    } else {
      ChildOfNonCan(s);
    }
  }

  lemma ChildOfNonCan(s: nat)
    requires s == 3 || 5 <= s <= 10
    ensures var t := ReceiverTree();
            t.Valid() && t.Has(s) && !t.IsSuper(s) && t.parent[s] == R_NON_CAN && t.IsAbove(R_NON_CAN, s)
  {
    ReceiverTreeIsValid();
  }

  lemma CanIsLeaf()
    ensures var t := ReceiverTree();
            t.Valid() && t.Has(R_CAN) && !t.IsSuper(R_CAN) && t.parent[R_CAN] == 0
  {
    ReceiverTreeIsValid();
  }

  lemma DataBelowNonCan(t: Tree, s: nat)
    requires t == ReceiverTree() && (s == 11 || s == 12)
    ensures t.Valid() && t.Has(s) && !t.IsSuper(s) && t.parent[s] == R_DATA
    ensures t.IsAbove(R_NON_CAN, s) && t.IsAbove(R_DATA, s)
  {
    ReceiverTreeIsValid();
    assert t.parent[s] == R_DATA && t.parent[R_DATA] == R_NON_CAN;
    assert t.IsParent(R_DATA, R_NON_CAN);
  }

  lemma ReceiverSupers(h: History, history: R.Leaf)
    requires ReceiverShows(h, history)
    ensures ReceiverTree().Valid() && HistoryFits(ReceiverTree(), h)
    ensures var t := ReceiverTree();
            && |t.parent| == 13 && t.IsSuper(R_NON_CAN) && t.IsSuper(R_DATA)
            && t.keepsHistory[0] && t.keepsHistory[R_NON_CAN] && !t.keepsHistory[R_DATA]
            && FirstSub(t, h, R_NON_CAN) == ReceiverState(history) && FirstSub(t, h, R_DATA) == 11
            && t.parent[R_CAN] == 0 && t.parent[R_NON_CAN] == 0 && t.parent[R_DATA] == R_NON_CAN
            && t.parent[5] == R_NON_CAN
  {
    ReceiverShowsFits(h, history);
    SuperParts();
    hide ReceiverTree, HistoryFits;
    assert h[R_DATA] == -1;
  }

  lemma SuperParts()
    ensures var t := ReceiverTree();
            && |t.parent| == |t.subs| == |t.keepsHistory| == 13
            && t.subs[R_NON_CAN] == [3, 4, 5, 6, 7, 8, 9, 10] && t.subs[R_DATA] == [11, 12]
            && t.keepsHistory[0] && t.keepsHistory[R_NON_CAN] && !t.keepsHistory[R_DATA]
            && t.parent[R_CAN] == 0 && t.parent[R_NON_CAN] == 0 && t.parent[R_DATA] == R_NON_CAN
            && t.parent[5] == R_NON_CAN
  {
  }

  /** CAN is not below NON_CAN, and the reply state not below the data phase. */
  lemma ReceiverApart(h: History, history: R.Leaf)
    requires ReceiverShows(h, history)
    ensures ReceiverTree().Valid()
    ensures !ReceiverTree().IsAbove(R_NON_CAN, R_CAN) && !ReceiverTree().IsAbove(R_DATA, 5)
  {
    ReceiverSupers(h, history);
    hide ReceiverTree;
    var t := ReceiverTree();
    assert t.parent[0] == -1;
    assert !t.IsParent(0, 1) && !t.IsParent(0, 4);
    assert !t.IsParent(1, 4);
  }

  lemma RememberedShows(h: History, history: R.Leaf, leaf: R.Leaf, h': History)
    requires ReceiverShows(h, history) && !leaf.IsOver() && leaf != R.Can
    requires h' == if leaf in {R.FirstByteData, R.EotData} then h else h[R_NON_CAN := ReceiverState(leaf)]
    ensures ReceiverShows(h', R.Remembered(leaf, history))
  {
  }

  /** A CAN byte: from any state of NON_CAN to CAN, remembering what the chart remembers. */
  lemma ReceiverGoesToCan(h: History, history: R.Leaf, leaf: R.Leaf)
    requires ReceiverShows(h, history) && !leaf.IsOver() && leaf != R.Can
    ensures ReceiverTree().Valid() && HistoryFits(ReceiverTree(), h)
    ensures var t := ReceiverTree();
            && t.Has(ReceiverState(leaf)) && t.IsAbove(R_NON_CAN, ReceiverState(leaf))
            && var e := Expected(t, h, ReceiverState(leaf), R_NON_CAN, R_CAN);
               e.active == [R_CAN] && ReceiverShows(e.history, R.Remembered(leaf, history))
  {
    hide ReceiverTree, Expected, ReceiverShows, HistoryFits, InitialLeaf;
    ReceiverSupers(h, history);
    ReceiverAncestry(leaf);
    ReceiverAncestry(R.Can);
    ReceiverApart(h, history);
    SuperLeaves(ReceiverTree(), h, ReceiverState(leaf), R_NON_CAN, R_CAN);
    RememberedShows(h, history, leaf, Remembered(ReceiverTree(), h, ReceiverState(leaf)));
  }

  /** Back from CAN, to the remembered state or to the first one. */
  lemma ReceiverComesBack(h: History, history: R.Leaf)
    requires ReceiverShows(h, history)
    ensures ReceiverTree().Valid() && HistoryFits(ReceiverTree(), h)
    ensures var t := ReceiverTree();
            var e := Expected(t, h, R_CAN, R_CAN, R_NON_CAN);
            e.active == [ReceiverState(history)] && e.history == h
  {
    ReceiverSupers(h, history);
    ReceiverAncestry(history);
    hide ReceiverTree, Expected;
    LeafLeaves(ReceiverTree(), h, R_CAN, R_NON_CAN);
  }

  /** From one leaf to another, or to the super state of the data phase. */
  lemma ReceiverMoves(h: History, history: R.Leaf, leaf: R.Leaf, target: R.Leaf)
    requires ReceiverShows(h, history) && !leaf.IsOver() && !target.IsOver()
    ensures ReceiverTree().Valid() && HistoryFits(ReceiverTree(), h)
    ensures var t := ReceiverTree();
            var l := ReceiverState(leaf);
            && t.Has(l) && t.Has(ReceiverState(target))
            && Expected(t, h, l, l, ReceiverState(target)).active == [ReceiverState(target)]
            && Expected(t, h, l, l, ReceiverState(target)).history == h
            && Expected(t, h, l, l, R_DATA).active == [ReceiverState(R.FirstByteData)]
            && Expected(t, h, l, l, R_DATA).history == h
  {
    ReceiverSupers(h, history);
    ReceiverAncestry(leaf);
    ReceiverAncestry(target);
    ReceiverAncestry(R.FirstByteData);
    hide ReceiverTree, Expected;
    var t := ReceiverTree();
    LeafLeaves(t, h, ReceiverState(leaf), ReceiverState(target));
    LeafLeaves(t, h, ReceiverState(leaf), R_DATA);
  }

  /** From the data phase to the state in which the reply is due: nothing is remembered. */
  lemma ReceiverLeavesData(h: History, history: R.Leaf, leaf: R.Leaf)
    requires ReceiverShows(h, history) && leaf in {R.FirstByteData, R.EotData}
    ensures ReceiverTree().Valid() && HistoryFits(ReceiverTree(), h)
    ensures var t := ReceiverTree();
            && t.Has(ReceiverState(leaf)) && t.IsAbove(R_DATA, ReceiverState(leaf))
            && var e := Expected(t, h, ReceiverState(leaf), R_DATA, ReceiverState(R.TransientData));
               e.active == [ReceiverState(R.TransientData)] && e.history == h
  {
    hide ReceiverTree, Expected, ReceiverShows, HistoryFits, InitialLeaf;
    ReceiverSupers(h, history);
    ReceiverAncestry(leaf);
    ReceiverAncestry(R.TransientData);
    ReceiverApart(h, history);
    SuperLeaves(ReceiverTree(), h, ReceiverState(leaf), R_DATA, ReceiverState(R.TransientData));
  }

  // -------------------------------------------------------------- sender

  const S_NON_CAN: nat := 1
  const S_CAN: nat := 2

  function SenderTree(): Tree
  {
    Tree([-1, 0, 0, 1, 1, 1, 1, 1, 1],
         [[1, 2], [3, 4, 5, 6, 7, 8], [], [], [], [], [], [], []],
         [false, true, false, false, false, false, false, false, false])
  }

  function SenderState(l: S.Leaf): nat
    requires l != S.Final
  {
    match l
    case StatC => 3
    case AckNak => 4
    case Eot1 => 5
    case One => 6
    case EotEot => 7
    case AckNakStat => 8
    case Can => 2
  }

  ghost predicate SenderShows(h: History, history: S.Leaf)
  {
    && |h| == 9 && history != S.Final && history != S.Can
    && (h[S_NON_CAN] == SenderState(history) || (h[S_NON_CAN] == -1 && history == S.StatC))
    && forall s :: 0 <= s < 9 && s != S_NON_CAN ==> h[s] == -1
  }

  lemma SenderParts()
    ensures var t := SenderTree();
            && |t.parent| == |t.subs| == |t.keepsHistory| == 9
            && t.parent == [-1, 0, 0, 1, 1, 1, 1, 1, 1] && t.subs[0] == [1, 2] && t.subs[1] == [3, 4, 5, 6, 7, 8]
            && t.keepsHistory[S_NON_CAN] && forall s :: 2 <= s < 9 ==> t.subs[s] == []
  {
  }

  lemma SenderTreeIsValid()
    ensures SenderTree().Valid()
  {
    hide SenderTree;
    SenderParts();
    var t := SenderTree();
    forall s | 0 < s < 9 ensures s in t.subs[t.parent[s]] {
      assert t.subs[t.parent[s]][if s <= 2 then s - 1 else s - 3] == s;
    }
  }

  lemma SenderAncestry(h: History, history: S.Leaf, l: S.Leaf)
    requires SenderShows(h, history) && l != S.Final && l != S.Can
    ensures SenderTree().Valid() && HistoryFits(SenderTree(), h)
    ensures var t := SenderTree();
            var s := SenderState(l);
            && t.Has(s) && t.Has(S_CAN) && !t.IsSuper(s) && !t.IsSuper(S_CAN) && t.IsSuper(S_NON_CAN)
            && t.parent[s] == S_NON_CAN && t.parent[S_CAN] == 0 && t.parent[0] == -1 && t.keepsHistory[S_NON_CAN]
            && t.IsAbove(S_NON_CAN, s) && |t.parent| == 9
  {
    hide SenderTree, HistoryFits, SenderShows;
    SenderTreeIsValid();
    SenderParts();
    SenderHistoryFits(h, history);
    var s := SenderState(l);
    assert 3 <= s <= 8;
  }

  lemma SenderHistoryFits(h: History, history: S.Leaf)
    requires SenderShows(h, history)
    ensures SenderTree().Valid() && HistoryFits(SenderTree(), h)
  {
    SenderTreeIsValid();
    SenderParts();
    hide SenderTree;
    assert 3 <= SenderState(history) <= 8;
  }

  /** A CAN byte and back: the sender returns to the state that it left. */
  lemma SenderDetour(h: History, history: S.Leaf, leaf: S.Leaf)
    requires SenderShows(h, history) && leaf != S.Final && leaf != S.Can
    ensures SenderTree().Valid() && HistoryFits(SenderTree(), h)
    ensures var t := SenderTree();
            && t.Has(SenderState(leaf)) && t.IsAbove(S_NON_CAN, SenderState(leaf))
            && var away := Expected(t, h, SenderState(leaf), S_NON_CAN, S_CAN);
               && away.active == [S_CAN] && SenderShows(away.history, leaf)
               && Expected(t, away.history, S_CAN, S_CAN, S_NON_CAN).active == [SenderState(leaf)]
               && Expected(t, away.history, S_CAN, S_CAN, S_NON_CAN).history == away.history
  {
    hide SenderTree, Expected, InitialLeaf, HistoryFits;
    SenderAncestry(h, history, leaf);
    SenderApart();
    var t := SenderTree();
    SuperLeaves(t, h, SenderState(leaf), S_NON_CAN, S_CAN);
    var h' := Remembered(t, h, SenderState(leaf));
    SenderReturns(h', leaf);
    LeafLeaves(t, h', S_CAN, S_NON_CAN);
  }

  /** CAN is not below NON_CAN. */
  lemma SenderApart()
    ensures SenderTree().Valid() && SenderTree().Has(S_CAN) && !SenderTree().IsAbove(S_NON_CAN, S_CAN)
  {
    SenderTreeIsValid();
    SenderParts();
    hide SenderTree;
    assert !SenderTree().IsParent(0, S_NON_CAN);
  }

  lemma SenderReturns(h: History, leaf: S.Leaf)
    requires SenderShows(h, leaf) && h[S_NON_CAN] == SenderState(leaf)
    ensures SenderTree().Valid() && HistoryFits(SenderTree(), h)
    ensures SenderTree().Has(S_NON_CAN) && InitialLeaf(SenderTree(), h, S_NON_CAN) == SenderState(leaf)
  {
    SenderAncestry(h, leaf, leaf);
    hide SenderTree, HistoryFits;
    assert FirstSub(SenderTree(), h, S_NON_CAN) == SenderState(leaf);
  }
}
