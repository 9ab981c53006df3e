/** The statechart engine (ss_api.cpp) over an arbitrary tree of super states and leaves. */
module StateTree {
  import opened Text

  /** A tree of states, numbered so that every state comes behind its parent; state 0 is the top. A state with
      substates is a super state, and the first of them is its initial one. */
  datatype Tree = Tree(parent: seq<int>, subs: seq<seq<nat>>, keepsHistory: seq<bool>)
  {
    ghost predicate Valid()
    {
      && 0 < |parent| == |subs| == |keepsHistory|
      && parent[0] == -1
      && (forall s :: 0 < s < |parent| ==> 0 <= parent[s] < s && s in subs[parent[s]])
      && (forall p, i :: 0 <= p < |parent| && 0 <= i < |subs[p]| ==>
            p < subs[p][i] < |parent| && parent[subs[p][i]] == p)
    }

    predicate Has(s: int)
    {
      0 <= s < |parent|
    }

    predicate IsSuper(s: nat)
      requires s < |subs|
    {
      subs[s] != []
    }

    /** `a` lies strictly above `s`. */
    predicate IsParent(s: nat, a: int)
      requires Valid() && Has(s)
      decreases s
    {
      parent[s] == a || (s != 0 && IsParent(parent[s], a))
    }

    predicate IsAbove(a: int, s: nat)
      requires Valid() && Has(s)
    {
      a == s || (a >= 0 && IsParent(s, a))
    }

    /** The states strictly below `root` on the way down to `s`, outermost first. */
    function Path(root: nat, s: nat): (p: seq<nat>)
      requires Valid() && Has(s) && IsAbove(root, s)
      ensures forall i :: 0 <= i < |p| ==> Has(p[i])
      decreases s
    {
      if s == root then [] else Path(root, parent[s]) + [s]
    }
  }

  /** For each super state the substate that it remembers, or -1. */
  type History = seq<int>

  ghost predicate HistoryFits(t: Tree, h: History)
    requires t.Valid()
  {
    |h| == |t.parent| && forall s :: 0 <= s < |h| ==> h[s] == -1 || (t.Has(h[s]) && t.parent[h[s]] == s)
  }

  /** The substate in which a super state starts. */
  function FirstSub(t: Tree, h: History, s: nat): (c: nat)
    requires t.Valid() && HistoryFits(t, h) && t.Has(s) && t.IsSuper(s)
    ensures s < c && t.Has(c) && t.parent[c] == s
  {
    if h[s] != -1 then h[s] else t.subs[s][0]
  }

  /** The leaf in which a state starts. */
  function InitialLeaf(t: Tree, h: History, s: nat): (l: nat)
    requires t.Valid() && HistoryFits(t, h) && t.Has(s)
    ensures t.Has(l) && !t.IsSuper(l)
    decreases |t.parent| - s
  {
    if !t.IsSuper(s) then s else InitialLeaf(t, h, FirstSub(t, h, s))
  }

  // ------------------------------------------------------------ ancestry

  lemma {:induction false} AboveIsSmaller(t: Tree, a: nat, s: nat)
    requires t.Valid() && t.Has(s) && t.IsParent(s, a)
    ensures a < s
    decreases s
  {
    if t.parent[s] != a {
      AboveIsSmaller(t, a, t.parent[s]);
    }
  }

  lemma {:induction false} AboveIsTransitive(t: Tree, a: nat, b: nat, s: nat)
    requires t.Valid() && t.Has(s) && t.Has(b) && t.IsAbove(a, b) && t.IsAbove(b, s)
    ensures t.IsAbove(a, s)
    decreases s
  {
    if b != s && t.parent[s] != b {
      AboveIsTransitive(t, a, b, t.parent[s]);
    }
  }

  /** Of two states above the same one, one lies above the other. */
  lemma {:induction false} OneIsAbove(t: Tree, a: nat, b: nat, s: nat)
    requires t.Valid() && t.Has(s) && t.Has(a) && t.Has(b) && t.IsAbove(a, s) && t.IsAbove(b, s)
    ensures t.IsAbove(a, b) || t.IsAbove(b, a)
    decreases s
  {
    if a != s && b != s {
      OneIsAbove(t, a, b, t.parent[s]);
    }
  }

  /** On the way down to the leaf in which a state starts, each super state is followed by the substate that it
      remembers, or else by its first one. */
  lemma {:induction false} StartFollowsHistory(t: Tree, h: History, s: nat, x: nat)
    requires t.Valid() && HistoryFits(t, h) && t.Has(s) && t.Has(x) && x != s
    requires t.IsAbove(s, x) && t.IsAbove(x, InitialLeaf(t, h, s))
    ensures t.Has(t.parent[x]) && t.IsSuper(t.parent[x])
    ensures x == if h[t.parent[x]] != -1 then h[t.parent[x]] else t.subs[t.parent[x]][0]
    decreases |t.parent| - s
  {
    AboveIsSmaller(t, s, x);
    var l := InitialLeaf(t, h, s);
    if !t.IsSuper(s) {
      if x != s {
        AboveIsSmaller(t, x, s);
      }
    } else {
      var c := FirstSub(t, h, s);
      if x != c {
        InitialLeafIsBelow(t, h, c);
        OneIsAbove(t, c, x, l);
        if !t.IsAbove(c, x) && t.parent[c] != x {
          AboveIsSmaller(t, x, s);
        }
        StartFollowsHistory(t, h, c, x);
      }
    }
  }

  lemma {:induction false} TopIsAbove(t: Tree, s: nat)
    requires t.Valid() && t.Has(s)
    ensures t.IsAbove(0, s)
    decreases s
  {
    if s != 0 {
      TopIsAbove(t, t.parent[s]);
    }
  }

  /** Two states above the same state lie one above the other. */
  lemma {:induction false} AboveIsLinear(t: Tree, a: nat, b: nat, s: nat)
    requires t.Valid() && t.Has(s) && t.IsAbove(a, s) && t.IsAbove(b, s)
    ensures t.Has(a) && t.Has(b)
    ensures t.IsAbove(a, b) || t.IsAbove(b, a)
    decreases s
  {
    AboveHas(t, a, s);
    AboveHas(t, b, s);
    if a != s && b != s {
      AboveIsLinear(t, a, b, t.parent[s]);
    }
  }

  lemma AboveHas(t: Tree, a: nat, s: nat)
    requires t.Valid() && t.Has(s) && t.IsAbove(a, s)
    ensures t.Has(a)
  {
    if a != s {
      AboveIsSmaller(t, a, s);
    }
  }

  lemma {:induction false} InitialLeafIsBelow(t: Tree, h: History, s: nat)
    requires t.Valid() && HistoryFits(t, h) && t.Has(s)
    ensures t.IsAbove(s, InitialLeaf(t, h, s))
    decreases |t.parent| - s
  {
    if t.IsSuper(s) {
      var c := FirstSub(t, h, s);
      InitialLeafIsBelow(t, h, c);
      assert t.IsAbove(s, c);
      AboveIsTransitive(t, s, c, InitialLeaf(t, h, s));
    }
  }

  lemma {:induction false} PathSplits(t: Tree, root: nat, s: nat, l: nat)
    requires t.Valid() && t.Has(l) && t.Has(s) && t.IsAbove(root, s) && t.IsAbove(s, l)
    ensures t.IsAbove(root, l)
    ensures t.Path(root, l) == t.Path(root, s) + t.Path(s, l)
    decreases l
  {
    AboveIsTransitive(t, root, s, l);
    if l != s {
      PathSplits(t, root, s, t.parent[l]);
      NotAbove(t, root, s, l);
    }
  }

  lemma NotAbove(t: Tree, root: nat, s: nat, l: nat)
    requires t.Valid() && t.Has(l) && t.Has(s) && t.IsAbove(root, s) && t.IsParent(l, s)
    ensures root != l
  {
    AboveIsSmaller(t, s, l);
    if root != s {
      AboveIsSmaller(t, root, s);
    }
  }

  lemma {:induction false} PathIsBetween(t: Tree, root: nat, s: nat, x: nat)
    requires t.Valid() && t.Has(s) && t.IsAbove(root, s)
    ensures x in t.Path(root, s) <==> x != root && t.Has(x) && t.IsAbove(root, x) && t.IsAbove(x, s)
    decreases s
  {
    if s != root {
      PathIsBetween(t, root, t.parent[s], x);
      if t.Has(x) && t.IsAbove(root, x) && t.IsAbove(x, s) && x != s {
        assert t.IsAbove(x, t.parent[s]);
      }
      if x == s {
        AboveIsTransitive(t, root, t.parent[s], s);
      }
    } else if t.Has(x) && x != s && t.IsAbove(root, x) && t.IsAbove(x, s) {
      AboveIsSmaller(t, root, x);
      AboveIsSmaller(t, x, s);
    }
  }

  /** Each state on a path is there once. */
  lemma {:induction false} PathIsIncreasing(t: Tree, root: nat, s: nat)
    requires t.Valid() && t.Has(s) && t.IsAbove(root, s)
    ensures forall i, j :: 0 <= i < j < |t.Path(root, s)| ==> t.Path(root, s)[i] < t.Path(root, s)[j]
    ensures forall i :: 0 <= i < |t.Path(root, s)| ==> t.Path(root, s)[i] <= s
    decreases s
  {
    if s != root {
      PathIsIncreasing(t, root, t.parent[s]);
    }
  }

  // ------------------------------------------------------------- specification

  /** The lowest state that lies above both. */
  function CommonRoot(t: Tree, a: nat, b: nat): (r: nat)
    requires t.Valid() && t.Has(a) && t.Has(b)
    ensures t.Has(r) && t.IsAbove(r, a) && t.IsAbove(r, b)
    decreases a
  {
    TopIsAbove(t, b);
    if t.IsAbove(a, b) then a
    else
      var r := CommonRoot(t, t.parent[a], b);
      AboveIsTransitive(t, r, t.parent[a], a);
      r
  }

  lemma {:induction false} CommonRootIsLowest(t: Tree, a: nat, b: nat, x: nat)
    requires t.Valid() && t.Has(a) && t.Has(b) && t.Has(x) && t.IsAbove(x, a) && t.IsAbove(x, b)
    ensures t.IsAbove(x, CommonRoot(t, a, b))
    decreases a
  {
    if !t.IsAbove(a, b) {
      TopIsAbove(t, b);
      assert x != a;
      CommonRootIsLowest(t, t.parent[a], b, x);
    }
  }

  /** The history once `leaf` has been taken off the list from above: only its direct parent remembers it, and
      only if it keeps a history. */
  function Remembered(t: Tree, h: History, leaf: nat): (h': History)
    requires t.Valid() && HistoryFits(t, h) && t.Has(leaf)
    ensures HistoryFits(t, h')
  {
    if t.parent[leaf] >= 0 && t.keepsHistory[t.parent[leaf]] then h[t.parent[leaf] := leaf] else h
  }

  /** What leaving `caller` for `target` does while `leaf` is the only active state: the active leaves, the
      history, and the states left and entered, in this order. */
  datatype Transition = Transition(active: seq<nat>, history: History, exited: seq<nat>, entered: seq<nat>)

  function Reversed(s: seq<nat>): (r: seq<nat>)
    ensures |r| == |s|
  {
    if s == [] then [] else [s[|s| - 1]] + Reversed(s[..|s| - 1])
  }

  function Expected(t: Tree, h: History, leaf: nat, caller: nat, target: nat): Transition
    requires t.Valid() && HistoryFits(t, h) && t.Has(leaf) && t.Has(caller) && t.Has(target)
    requires t.IsAbove(caller, leaf)
  {
    var root := CommonRoot(t, caller, target);
    var h' := if caller == leaf || caller == root then h else Remembered(t, h, leaf);
    var l := InitialLeaf(t, h', target);
    InitialLeafIsBelow(t, h', target);
    AboveIsTransitive(t, root, target, l);
    Transition(
      (if caller == root && caller != leaf then [leaf] else []) + [l],
      h',
      Reversed(t.Path(root, caller)),
      t.Path(root, l))
  }

  /** The transition theorem. Exactly one leaf is active afterwards if and only if the caller is the active leaf
      itself, or does not lie above the target. That leaf is below the target, and every state strictly below
      the lowest common state on the way to it is entered once, outermost first, after every state strictly below it on
      the way up from the caller has been left, innermost first. */
  lemma TransitionTheorem(t: Tree, h: History, leaf: nat, caller: nat, target: nat)
    requires t.Valid() && HistoryFits(t, h) && t.Has(leaf) && t.Has(caller) && t.Has(target)
    requires t.IsAbove(caller, leaf)
    ensures var e := Expected(t, h, leaf, caller, target);
            var root := CommonRoot(t, caller, target);
            var l := e.active[|e.active| - 1];
            && (|e.active| == 1 <==> caller == leaf || !t.IsAbove(caller, target))
            && t.Has(l) && !t.IsSuper(l) && t.IsAbove(target, l)
            && (forall x: nat :: x in e.entered <==> x != root && t.Has(x) && t.IsAbove(root, x) && t.IsAbove(x, l))
            && (forall i, j :: 0 <= i < j < |e.entered| ==> e.entered[i] < e.entered[j])
            && (forall x: nat :: x in e.exited <==> x != root && t.Has(x) && t.IsAbove(root, x) && t.IsAbove(x, caller))
            && (forall i, j :: 0 <= i < j < |e.exited| ==> e.exited[i] > e.exited[j])
            && (forall x: nat :: t.Has(x) && t.IsAbove(x, caller) && t.IsAbove(x, target) ==> t.IsAbove(x, root))
  {
    var e := Expected(t, h, leaf, caller, target);
    var root := CommonRoot(t, caller, target);
    var l := e.active[|e.active| - 1];
    PathIsIncreasing(t, root, caller);
    ReversedFalls(t.Path(root, caller));
    InitialLeafIsBelow(t, e.history, target);
    AboveIsTransitive(t, root, target, l);
    PathIsIncreasing(t, root, l);
    forall x: nat ensures x in e.entered <==> x != root && t.Has(x) && t.IsAbove(root, x) && t.IsAbove(x, l) {
      PathIsBetween(t, root, l, x);
    }
    forall x: nat ensures x in e.exited <==> x != root && t.Has(x) && t.IsAbove(root, x) && t.IsAbove(x, caller) {
      PathIsBetween(t, root, caller, x);
      InReversed(t.Path(root, caller), x);
    }
    forall x: nat | t.Has(x) && t.IsAbove(x, caller) && t.IsAbove(x, target) ensures t.IsAbove(x, root) {
      CommonRootIsLowest(t, caller, target, x);
    }
  }

  /** Only the parent of the active leaf remembers anything new, if it keeps a history at all, and only when the leaf is
      left from above, by a state that does not lie above the target. */
  lemma OnlyParentRemembers(t: Tree, h: History, leaf: nat, caller: nat, target: nat, x: nat)
    requires t.Valid() && HistoryFits(t, h) && t.Has(leaf) && t.Has(caller) && t.Has(target) && t.Has(x)
    requires t.IsAbove(caller, leaf) && !t.IsAbove(caller, target)
    ensures var e := Expected(t, h, leaf, caller, target);
            && |e.history| == |h|
            && e.history[x] == if caller != leaf && t.parent[leaf] == x && t.keepsHistory[x] then leaf else h[x]
  {
    hide InitialLeaf;
  }

  lemma {:induction false} ReversedFalls(s: seq<nat>)
    requires forall i, j :: 0 <= i < j < |s| ==> s[i] < s[j]
    ensures forall i :: 0 <= i < |s| ==> Reversed(s)[i] == s[|s| - 1 - i]
    ensures forall i, j :: 0 <= i < j < |s| ==> Reversed(s)[i] > Reversed(s)[j]
  {
    if s != [] {
      ReversedFalls(s[..|s| - 1]);
    }
  }

  lemma {:induction false} InReversed(s: seq<nat>, x: nat)
    ensures x in Reversed(s) <==> x in s
  {
    if s != [] {
      InReversed(s[..|s| - 1], x);
      assert s == s[..|s| - 1] + [s[|s| - 1]];
    }
  }

  /** A leaf that leaves itself is not remembered by anyone. */
  lemma LeafLeaves(t: Tree, h: History, leaf: nat, target: nat)
    requires t.Valid() && HistoryFits(t, h) && t.Has(leaf) && t.Has(target)
    ensures Expected(t, h, leaf, leaf, target).active == [InitialLeaf(t, h, target)]
    ensures Expected(t, h, leaf, leaf, target).history == h
  {
  }

  /** A super state that is left for a leaf outside lets the parent of the active leaf remember it. */
  lemma SuperLeaves(t: Tree, h: History, leaf: nat, caller: nat, target: nat)
    requires t.Valid() && HistoryFits(t, h) && t.Has(leaf) && t.Has(caller) && t.Has(target)
    requires t.IsAbove(caller, leaf) && caller != leaf && !t.IsAbove(caller, target) && !t.IsSuper(target)
    ensures Expected(t, h, leaf, caller, target).active == [target]
    ensures Expected(t, h, leaf, caller, target).history == Remembered(t, h, leaf)
  {
  }

  // ------------------------------------------------------------ the engine

  lemma NotYetListed(t: Tree, root: nat, s: nat, p: nat)
    requires t.Valid() && t.Has(s) && t.Has(p) && t.IsAbove(root, s) && t.IsAbove(s, p) && p != s
    ensures p !in t.Path(root, s)
  {
    PathIsIncreasing(t, root, s);
    AboveIsSmaller(t, s, p);
  }

  /** One step up from below `root`. */
  lemma OneUp(t: Tree, root: nat, p: nat)
    requires t.Valid() && t.Has(p) && t.IsAbove(root, p) && p != root
    ensures p > 0 && t.Has(t.parent[p]) && t.IsAbove(root, t.parent[p])
    ensures t.Path(root, p) == t.Path(root, t.parent[p]) + [p]
  {
  }

  /** The states left on the way up from `s`, in the order in which they are left. */
  function Exits(t: Tree, root: nat, s: nat): seq<nat>
    requires t.Valid() && t.Has(s) && t.IsAbove(root, s)
  {
    Reversed(t.Path(root, s))
  }

  lemma NoExits(t: Tree, root: nat)
    requires t.Valid() && t.Has(root)
    ensures Exits(t, root, root) == []
  {
  }

  lemma ExitStep(t: Tree, root: nat, p: nat, calls: seq<nat>)
    requires t.Valid() && t.Has(p) && t.IsAbove(root, p) && p != root
    ensures p > 0 && t.Has(t.parent[p]) && t.IsAbove(root, t.parent[p])
    ensures (calls + [p]) + Exits(t, root, t.parent[p]) == calls + Exits(t, root, p)
  {
    OneUp(t, root, p);
    var path := t.Path(root, p);
    assert path[..|path| - 1] == t.Path(root, t.parent[p]);
    assert Exits(t, root, p) == [p] + Exits(t, root, t.parent[p]);
  }

  /** The states from the top down to `s`. */
  function FromTop(t: Tree, s: nat): seq<nat>
    requires t.Valid() && t.Has(s)
    decreases s
  {
    (if s == 0 then [] else FromTop(t, t.parent[s])) + [s]
  }

  lemma FromTopStep(t: Tree, p: nat, list: seq<nat>)
    requires t.Valid() && t.Has(p)
    ensures p == 0 <==> t.parent[p] == -1
    ensures FromTop(t, p) + list == (if p == 0 then [] else FromTop(t, t.parent[p])) + ([p] + list)
  {
    assert ((if p == 0 then [] else FromTop(t, t.parent[p])) + [p]) + list
        == (if p == 0 then [] else FromTop(t, t.parent[p])) + ([p] + list);
  }

  /** They are the top and the path below it. */
  lemma {:induction false} FromTopIsPath(t: Tree, s: nat)
    requires t.Valid() && t.Has(s)
    ensures t.IsAbove(0, s) && FromTop(t, s) == [0] + t.Path(0, s)
    decreases s
  {
    TopIsAbove(t, s);
    if s != 0 {
      FromTopIsPath(t, t.parent[s]);
    }
  }

  class StateMgr {
    const tree: Tree
    var active: seq<nat>
    var history: History
    var running: bool
    // the calls of `onEntry` and `onExit` so far
    var entered: seq<nat>
    var exited: seq<nat>

    ghost predicate Valid()
      reads this
    {
      tree.Valid() && HistoryFits(tree, history) && forall i :: 0 <= i < |active| ==> tree.Has(active[i])
    }

    constructor (tree: Tree)
      requires tree.Valid()
      ensures Valid() && this.tree == tree && active == [] && !running && entered == [] && exited == []
      ensures history == seq(|tree.parent|, _ => -1)
    {
      this.tree := tree;
      active, running, entered, exited := [], false, [], [];
      history := seq(|tree.parent|, _ => -1);
    }

    /** The initial states of a state, behind those already in the list. */
    method GetInitialStates(s: nat, list: seq<nat>) returns (list': seq<nat>)
      requires Valid() && tree.Has(s)
      ensures list' == list + [InitialLeaf(tree, history, s)]
      decreases |tree.parent| - s
    {
      if tree.subs[s] != [] {
        list' := GetInitialStates(FirstSub(tree, history, s), list);
      } else {
        list' := list + [s];
      }
    }

    /** For each state from `leaf1` upwards, is it `leaf2` or above it? */
    method GetRoot(leaf1: nat, leaf2: nat) returns (root: nat)
      requires Valid() && tree.Has(leaf1) && tree.Has(leaf2)
      ensures root == CommonRoot(tree, leaf1, leaf2)
    {
      var p: int := leaf1;
      while p >= 0
        invariant tree.Has(p)
        invariant CommonRoot(tree, p, leaf2) == CommonRoot(tree, leaf1, leaf2)
      {
        var a: int := leaf2;
        while a >= 0
          invariant a == -1 || tree.Has(a)
          invariant tree.IsAbove(p, leaf2) <==> a >= 0 && tree.IsAbove(p, a)
        {
          if p == a {
            return p;
          }
          a := tree.parent[a];
        }
        TopIsAbove(tree, leaf2);
        p := tree.parent[p];
      }
      assert false;
    }

    /** Takes a state off the list of active ones, if it is there. */
    method Erase(s: nat, ghost leaf: nat)
      requires active == [leaf]
      modifies this`active
      ensures active == if s == leaf then [] else [leaf]
    {
      var i := 0;
      while i < |active|
        invariant i == 0 || (i == 1 && s != leaf)
        invariant active == [leaf]
      {
        if active[i] == s {
          active := active[..i] + active[i + 1..];
          return;
        }
        i := i + 1;
      }
    }

    /** Takes the states below `p` off the list, and lets their parents remember them. */
    method EraseBelow(p: nat, ghost leaf: nat)
      requires Valid() && tree.Has(leaf) && (active == [] || active == [leaf])
      modifies this`active, this`history
      ensures Valid()
      ensures if old(active) == [leaf] && tree.IsParent(leaf, p) then
                active == [] && history == Remembered(tree, old(history), leaf)
              else active == old(active) && history == old(history)
    {
      var j := 0;
      while j < |active|
        invariant Valid() && 0 <= j <= |active|
        invariant if old(active) == [leaf] && tree.IsParent(leaf, p) && (j > 0 || active == []) then
                    active == [] && history == Remembered(tree, old(history), leaf)
                  else active == old(active) && history == old(history)
        decreases |active| - j, |active|
      {
        if tree.IsParent(active[j], p) {
          var q := tree.parent[active[j]];
          if q >= 0 && tree.keepsHistory[q] {
            history := history[q := active[j]];
          }
          active := active[..j] + active[j + 1..];
        } else {
          j := j + 1;
        }
      }
    }

    /** Takes the caller and everything active below it off the list, from the caller up to the common root. */
    method RemoveActiveStates(caller: nat, root: nat, ghost leaf: nat)
      requires Valid() && active == [leaf] && tree.Has(leaf) && tree.Has(caller)
      requires tree.IsAbove(caller, leaf) && tree.IsAbove(root, caller)
      modifies this`active, this`history
      ensures Valid()
      ensures active == if caller == root && caller != leaf then [leaf] else []
      ensures history == if caller == leaf || caller == root then old(history) else Remembered(tree, old(history), leaf)
    {
      Erase(caller, leaf);
      var p: nat := caller;
      while p != root
        invariant tree.Has(p) && tree.IsAbove(root, p) && Valid()
        invariant active == if caller == leaf || p != caller then [] else [leaf]
        invariant history == if caller == leaf || p == caller then old(history) else Remembered(tree, old(history), leaf)
        decreases p
      {
        EraseBelow(p, leaf);
        OneUp(tree, root, p);
        p := tree.parent[p];
      }
    }

    /** Calls `onExit` from a state upwards. */
    method CallOnExit(caller: nat, root: nat)
      requires Valid() && tree.Has(caller) && tree.IsAbove(root, caller)
      modifies this`exited
      ensures exited == old(exited) + Exits(tree, root, caller)
    {
      hide Exits;
      var p: nat := caller;
      ghost var calls: seq<nat> := [];
      while p != root
        invariant tree.Has(p) && tree.IsAbove(root, p) && Valid()
        invariant exited == old(exited) + calls
        invariant calls + Exits(tree, root, p) == Exits(tree, root, caller)
        decreases p
      {
        ExitStep(tree, root, p, calls);
        exited := exited + [p];
        calls := calls + [p];
        p := tree.parent[p];
      }
      NoExits(tree, root);
    }

    /** The transition's first half; None stands for the final state. */
    method ExecuteExit(caller: nat, next: Option<nat>, ghost leaf: nat) returns (root: Option<nat>)
      requires Valid() && active == [leaf] && tree.Has(leaf) && tree.Has(caller) && tree.IsAbove(caller, leaf)
      requires next.Some? ==> tree.Has(next.value)
      modifies this`active, this`history, this`exited
      ensures Valid()
      ensures next.None? ==> root == None && active == [] && exited == old(exited) + [caller] && history == old(history)
      ensures next.Some? ==>
                var r := CommonRoot(tree, caller, next.value);
                && root == Some(r)
                && active == (if caller == r && caller != leaf then [leaf] else [])
                && history == (if caller == leaf || caller == r then old(history)
                               else Remembered(tree, old(history), leaf))
                && exited == old(exited) + Reversed(tree.Path(r, caller))
    {
      if next.None? {
        active := [];
        exited := exited + [caller];
        return None;
      }
      var r := GetRoot(caller, next.value);
      RemoveActiveStates(caller, r, leaf);
      CallOnExit(caller, r);
      root := Some(r);
    }

    /** The states from strictly below `root` down to `s`. */
    method LinksDown(root: nat, s: nat) returns (list: seq<nat>)
      requires Valid() && tree.Has(s) && tree.IsAbove(root, s)
      ensures list == tree.Path(root, s)
    {
      list := [];
      var p: nat := s;
      while p != root
        invariant tree.Has(p) && tree.IsAbove(root, p)
        invariant tree.Path(root, p) + list == tree.Path(root, s)
        decreases p
      {
        OneUp(tree, root, p);
        list := [p] + list;
        p := tree.parent[p];
      }
    }

    /** The states from strictly below `s` down to `l` that are not in the list yet. */
    method NewLinks(root: nat, s: nat, l: nat, list: seq<nat>) returns (aTree: seq<nat>)
      requires Valid() && tree.Has(s) && tree.Has(l) && tree.IsAbove(root, s) && tree.IsAbove(s, l)
      requires list == tree.Path(root, s)
      ensures aTree == tree.Path(s, l)
    {
      aTree := [];
      var p: nat := l;
      while p != s
        invariant tree.Has(p) && tree.IsAbove(s, p)
        invariant tree.Path(s, p) + aTree == tree.Path(s, l)
        decreases p
      {
        OneUp(tree, s, p);
        NotYetListed(tree, root, s, p);
        if p !in list {
          aTree := [p] + aTree;
        }
        p := tree.parent[p];
      }
    }

    /** The states strictly below `root` down to `s`, and from there down to where `s` starts. */
    method ConstructTree(root: nat, s: nat) returns (list: seq<nat>)
      requires Valid() && tree.Has(s) && tree.IsAbove(root, s)
      ensures tree.IsAbove(root, InitialLeaf(tree, history, s))
      ensures list == tree.Path(root, InitialLeaf(tree, history, s))
    {
      list := LinksDown(root, s);
      var initial := GetInitialStates(s, []);
      InitialLeafIsBelow(tree, history, s);
      PathSplits(tree, root, s, initial[0]);
      var aTree := NewLinks(root, s, initial[0], list);
      list := list + aTree;
    }

    method CallOnEntry(list: seq<nat>)
      modifies this`entered
      ensures entered == old(entered) + list
    {
      var i := 0;
      while i < |list|
        invariant 0 <= i <= |list| && entered == old(entered) + list[..i]
      {
        entered := entered + [list[i]];
        i := i + 1;
      }
      assert list[..|list|] == list;
    }

    /** The transition's second half. */
    method ExecuteEntry(root: Option<nat>, next: Option<nat>)
      requires Valid()
      requires root.Some? && next.Some? ==> tree.Has(next.value) && tree.IsAbove(root.value, next.value)
      modifies this`active, this`running, this`entered
      ensures Valid()
      ensures root.None? || next.None? ==> !running && active == old(active) && entered == old(entered)
      ensures root.Some? && next.Some? ==>
                var l := InitialLeaf(tree, history, next.value);
                && running == old(running) && active == old(active) + [l]
                && tree.IsAbove(root.value, l) && entered == old(entered) + tree.Path(root.value, l)
    {
      if root.None? || next.None? {
        running := false;
        return;
      }
      var list := ConstructTree(root.value, next.value);
      active := GetInitialStates(next.value, active);
      CallOnEntry(list);
    }

    /** A transition from `caller` to `target`, as the generated handlers make it. */
    method MakeTransition(caller: nat, target: nat, ghost leaf: nat)
      requires Valid() && active == [leaf] && tree.Has(leaf) && tree.Has(caller) && tree.Has(target)
      requires tree.IsAbove(caller, leaf)
      modifies this
      ensures Valid()
      ensures var e := Expected(tree, old(history), leaf, caller, target);
              && active == e.active && history == e.history
              && exited == old(exited) + e.exited && entered == old(entered) + e.entered
    {
      var root := ExecuteExit(caller, Some(target), leaf);
      ExecuteEntry(root, Some(target));
    }

    /** The states from the top down to a leaf. */
    method InitialTree(l: nat) returns (list: seq<nat>)
      requires Valid() && tree.Has(l)
      ensures list == FromTop(tree, l)
    {
      hide FromTop;
      list := [];
      var p: int := l;
      while p != -1
        invariant p == -1 || tree.Has(p)
        invariant (if p == -1 then [] else FromTop(tree, p)) + list == FromTop(tree, l)
        decreases p
      {
        FromTopStep(tree, p, list);
        list := [p] + list;
        p := tree.parent[p];
      }
    }

    /** The machine is put into the initial leaf of the top, and every state on the way to it is entered. */
    method EnterInitialStates()
      requires Valid()
      modifies this`active, this`entered
      ensures Valid()
      ensures var l := InitialLeaf(tree, history, 0);
              active == [l] && entered == old(entered) + FromTop(tree, l)
    {
      active := GetInitialStates(0, []);
      var list := InitialTree(active[0]);
      CallOnEntry(list);
    }
  }
}
