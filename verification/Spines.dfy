/** The tree of an array: perfect subtrees of three-entry nodes, hung off a right spine that counts the size. */
module Spines {
  import opened Nodes
  import opened Order
  import opened Trees
  import opened Routes
  import opened Zipper
  import opened Splits
  import opened Walk
  import opened Steps
  import opened Paths
  import opened Digits
  import opened Turns

  /** Three entries in every node. */
  ghost predicate Lean(t: Tree, h: nat)
    decreases h
  {
    && h >= 1 && |t.es| == KEYS_MIN
    && if h == 1 then t.cs == []
       else |t.cs| == |t.es| + 1 && forall i :: 0 <= i < |t.cs| ==> Lean(t.cs[i], h - 1)
  }

  /** All children of a node of level h but the last are lean. */
  ghost predicate LeanButLast(t: Tree, h: nat) {
    if h == 1 then t.cs == []
    else h > 1 && |t.cs| == |t.es| + 1 && forall i :: 0 <= i < |t.es| ==> Lean(t.cs[i], h - 1)
  }

  ghost predicate Spine(t: Tree, h: nat, n: nat)
    decreases h
  {
    && h >= 1 && |t.es| == Digit(h, n) && LeanButLast(t, h)
    && (h > 1 ==> Spine(t.cs[|t.es|], h - 1, n))
  }

  /** The tree of an array of n elements. */
  ghost predicate ArrayTree(t: Tree, h: nat, n: nat) {
    Spine(t, h, n) && TopLevel(h, n)
  }

  /** Nothing has been carried beyond the root, and something into it. */
  ghost predicate TopLevel(h: nat, n: nat) {
    h >= 1 && Carried(h, n) == 0 && (h == 1 || Carried(h - 1, n) >= 1)
  }

  lemma TopSplits(h: nat, n: nat)
    requires TopLevel(h, n) && Digit(h, n) == 7
    ensures TopLevel(h + 1, n + 1) && Digit(h + 1, n + 1) == 1
  {
    DigitStep(h, n);
    DigitStep(h + 1, n);
    assert Carried(h + 1, n) == 0;
    DigitNext(h + 1, n);
  }

  lemma TopKeeps(h: nat, n: nat)
    requires TopLevel(h, n) && Digit(h, n) != 7
    ensures TopLevel(h, n + 1)
  {
    DigitStep(h, n);
    if h > 1 { DigitStep(h - 1, n); }
  }

  lemma EmptyArray(ofs: nat)
    ensures ArrayTree(Node(ofs, [], []), 1, 0)
  {
  }

  // ----- the walk of an append

  ghost predicate AllBefore(s: seq<Entry>, k: Id) {
    forall i :: 0 <= i < |s| ==> s[i].id.hash < k.hash
  }

  /** A search for something beyond all entries comes to the end. */
  lemma {:induction false} SearchEnd(es: seq<Entry>, k: Id)
    requires AllBefore(es, k)
    ensures Search(es, k) == |es|
    decreases es
  {
    if es != [] {
      assert Less(es[0].id, k);
      SearchEnd(es[1..], k);
    }
  }

  lemma EntriesBefore(t: Tree, k: Id)
    requires AllBefore(InOrder(t), k) && (t.cs == [] || |t.cs| == |t.es| + 1)
    ensures AllBefore(t.es, k)
    ensures t.cs != [] ==> AllBefore(InOrder(t.cs[|t.es|]), k)
  {
    forall i | 0 <= i < |t.es| ensures t.es[i].id.hash < k.hash {
      Around(t.es, t.cs, i);
      assert InOrder(t)[|Weave(t.es[..i], Upto(t.cs, i + 1))|] == t.es[i];
    }
    if t.cs != [] {
      AroundChild(t.es, t.cs, |t.es|);
      var a, x := WeaveL(t.es, t.cs[..|t.es|]), InOrder(t.cs[|t.es|]);
      assert t.es[..|t.es|] == t.es;
      forall j | 0 <= j < |x| ensures x[j].id.hash < k.hash { assert InOrder(t)[|a| + j] == x[j]; }
    }
  }

  lemma HighBefore(t: Tree, k: Id, sib: nat)
    requires AllBefore(InOrder(t), k) && |t.es| == KEYS_MAX && (t.cs == [] || |t.cs| == KEYS_MAX + 1)
    ensures AllBefore(InOrder(HighHalf(t, sib)), k) && k.hash > t.es[KEYS_MIN].id.hash
  {
    Around(t.es, t.cs, KEYS_MIN);
    var l, x := Weave(t.es[..KEYS_MIN], Upto(t.cs, KEYS_MIN + 1)), InOrder(HighHalf(t, sib));
    assert InOrder(t)[|l|] == t.es[KEYS_MIN];
    forall j | 0 <= j < |x| ensures x[j].id.hash < k.hash { assert InOrder(t)[|l| + 1 + j] == x[j]; }
  }

  /** What an append takes of the path: a slot for each level, and one more for each digit at 7. */
  lemma {:induction false} SpinePushes(t: Tree, h: nat, n: nat, k: Id)
    requires Spine(t, h, n) && AllBefore(InOrder(t), k)
    ensures Pushes(t, k) == h + Sevens(h, n)
    decreases h
  {
    DigitStep(h, n);
    var x := if Full(t) then HighHalf(t, 0) else t;
    if Full(t) {
      HighBefore(t, k, 0);
      HalfPushes(t, k, 0);
    }
    EntriesBefore(x, k);
    SearchEnd(x.es, k);
    assert Pushes(x, k) == 1 + PushesIn(x.es, x.cs, k);
    if h > 1 {
      assert x.cs[|x.es|] == t.cs[|t.es|];
      SpinePushes(t.cs[|t.es|], h - 1, n, k);
    } else {
      assert Sevens(0, n) == 0;
    }
  }

  /** Below 2^26 elements an append takes at most 15 of the 16 slots. */
  lemma RoomForAppend(t: Tree, h: nat, n: nat, k: Id)
    requires ArrayTree(t, h, n) && n < SIZE_LIMIT && AllBefore(InOrder(t), k)
    ensures h <= 13 && Pushes(t, k) <= 15 && PathRoom(t, k)
  {
    LevelsFor(h, n);
    FewSevens(h, n);
    SpinePushes(t, h, n, k);
  }

  // ----- the loop of an append, from n elements to n + 1

  /** What lies around the node of level lvl: nodes that have their new count, but for the carry still to come. */
  ghost predicate SpineC(c: Ctx, lvl: nat, n: nat, pending: nat)
    decreases c
  {
    c.Down? ==>
      && c.rs == [] && |c.ls| == |c.es| && (forall i :: 0 <= i < |c.ls| ==> Lean(c.ls[i], lvl))
      && |c.es| + pending == Digit(lvl + 1, n + 1)
      && SpineC(c.up, lvl + 1, n, 0)
  }

  /** The visited node has its old count, or has been split off one that was found at 7. */
  ghost predicate TreeNow(t: Tree, h: nat, n: nat) {
    && h >= 1 && LeanButLast(t, h) && (h > 1 ==> Spine(t.cs[|t.es|], h - 1, n))
    && (|t.es| == Digit(h, n) || (Digit(h, n) == 7 && |t.es| == KEYS_MIN))
  }

  ghost predicate OnSpine(s: State, k: Id, n: nat) {
    && TreeNow(s.tree, s.height, n) && AllBefore(InOrder(s.tree), k)
    && SpineC(s.ctx, s.height, n, if Full(s.tree) then 1 else 0)
    && if s.ctx.Top? then TopLevel(s.height, n) && |s.tree.es| == Digit(s.height, n)
       else TopLevel(s.height + Depth(s.ctx), n + 1)
  }

  /** The call appends to an array. */
  ghost predicate Appends(a: Call, h0: nat) {
    ArrayTree(a.tree, h0, |InOrder(a.tree)|) && AllBefore(InOrder(a.tree), a.id)
  }

  ghost predicate Spun(a: Call, h0: nat, s: State) {
    Appends(a, h0) ==> OnSpine(s, a.id, |InOrder(a.tree)|)
  }

  lemma SpunStart(a: Call, h: nat)
    ensures Spun(a, h, Start(a, h))
  {
  }

  lemma SpunBump(a: Call, h0: nat, s: State, w: Words)
    requires Spun(a, h0, s)
    ensures Spun(a, h0, Bump(s, w))
  {
  }

  lemma SpunRootSplit(a: Call, h0: nat, s: State, moved: nat, w: Words)
    requires Spun(a, h0, s) && s.ctx.Top? && Full(s.tree)
    ensures Spun(a, h0, RootSplit(s, moved, w))
  {
    hide Digit, Carried, TopLevel, Appends;
    if Appends(a, h0) {
      DigitStep(s.height, |InOrder(a.tree)|);
      TopSplits(s.height, |InOrder(a.tree)|);
      assert InOrder(Node(moved, s.tree.es, s.tree.cs)) == InOrder(s.tree);
      var c, t := Down(Top, s.tree.ofs, [], [], []), Node(moved, s.tree.es, s.tree.cs);
      assert Depth(c) == 1;
      assert SpineC(c, s.height, |InOrder(a.tree)|, 1);
      assert TreeNow(t, s.height, |InOrder(a.tree)|);
    }
  }

  lemma SpunSplit(a: Call, h0: nat, s: State, n: NodeMap, sib: nat)
    requires Spun(a, h0, s) && s.ctx.Down? && Full(s.tree) && Splittable(s.ctx, s.tree)
    ensures if a.id.hash > s.tree.es[KEYS_MIN].id.hash then Spun(a, h0, GoneHigh(s, n, sib))
            else Spun(a, h0, GoneLow(s, n, sib))
  {
    hide Digit, Carried, TopLevel, Appends, Lean, Spine, AllBefore, InOrder;
    if Appends(a, h0) {
      var t, size := s.tree, |InOrder(a.tree)|;
      HighBefore(t, a.id, sib);
      HalvesLean(t, s.height, sib);
      assert WithMedian(s.ctx, t) == s.ctx.es + [t.es[KEYS_MIN]];
    }
  }

  lemma HalvesLean(t: Tree, h: nat, sib: nat)
    requires LeanButLast(t, h) && h >= 1 && |t.es| == KEYS_MAX && (t.cs == [] || |t.cs| == KEYS_MAX + 1)
    ensures Lean(LowHalf(t), h) && LeanButLast(HighHalf(t, sib), h)
    ensures h > 1 ==> HighHalf(t, sib).cs[KEYS_MIN] == t.cs[KEYS_MAX]
  {
  }

  lemma SpunDescend(a: Call, h0: nat, s: State)
    requires Spun(a, h0, s) && GoesDown(s.tree, a.id) && Search(s.tree.es, a.id) < |s.tree.cs| && s.height > 0
    ensures Spun(a, h0, Descended(s, Search(s.tree.es, a.id)))
  {
    hide Digit, Carried, TopLevel, Appends, Lean, AllBefore, InOrder;
    if Appends(a, h0) {
      var t, n, h := s.tree, |InOrder(a.tree)|, s.height;
      EntriesBefore(t, a.id);
      SearchEnd(t.es, a.id);
      DigitNext(h, n);
      DigitStep(h - 1, n);
      if s.ctx.Top? { TopKeeps(h, n); }
    }
  }

  /** What an append has made of the tree. */
  ghost predicate Appended(a: Call, h0: nat, out: Outcome) {
    Appends(a, h0) ==> ArrayTree(out.tree, out.height, |InOrder(a.tree)| + 1)
  }

  /** A call that hits an entry is no append. */
  lemma SpunHits(a: Call, h0: nat, s: State, out: Outcome)
    requires Spun(a, h0, s) && Search(s.tree.es, a.id) < |s.tree.es|
    ensures Appended(a, h0, out)
  {
    if Appends(a, h0) {
      EntriesBefore(s.tree, a.id);
      SearchEnd(s.tree.es, a.id);
    }
  }

  lemma {:induction false} PlugSpine(c: Ctx, t: Tree, lvl: nat, n: nat)
    requires SpineC(c, lvl, n, 0) && Spine(t, lvl, n + 1)
    ensures Spine(Plug(c, t), lvl + Depth(c), n + 1)
    decreases c
  {
    if c.Down? {
      var f := Fill(c, t);
      assert f.cs == c.ls + [t];
      PlugSpine(c.up, f, lvl + 1, n);
    }
  }

  lemma SpunEnd(a: Call, h0: nat, s: State, e: Entry)
    requires Spun(a, h0, s) && !Full(s.tree) && s.tree.cs == [] && Appends(a, h0)
    ensures var t := Plug(s.ctx, Inserted(s.tree, Search(s.tree.es, a.id), e));
            ArrayTree(t, s.height + Depth(s.ctx), |InOrder(a.tree)| + 1)
  {
    hide Digit, Carried, TopLevel, Appends, Lean, AllBefore, InOrder, Search;
    var n, t := |InOrder(a.tree)|, Inserted(s.tree, Search(s.tree.es, a.id), e);
    DigitNext(1, n);
    if s.ctx.Top? { TopKeeps(1, n); }
    PlugSpine(s.ctx, t, 1, n);
  }

  lemma SpunLands(a: Call, h0: nat, s: State, e: Entry, out: Outcome)
    requires Spun(a, h0, s) && !Full(s.tree) && s.tree.cs == []
    requires out.tree == Plug(s.ctx, Inserted(s.tree, Search(s.tree.es, a.id), e))
    requires out.height == s.height + Depth(s.ctx)
    ensures Appended(a, h0, out)
  {
    hide Spun, ArrayTree, Full, Appends, InOrder, Search;
    if Appends(a, h0) { SpunEnd(a, h0, s, e); }
  }
}
