/** The nodes of one tree in the buffer while set_impl walks down it, and what each step of the loop keeps. */
module Walk {
  import opened Nodes
  import opened Order
  import opened Trees
  import opened Zipper
  import opened Splits

  type NodeMap = map<nat, Words>

  /** The buffer holds the tree with its hole filled, and no node of it occurs twice. */
  ghost predicate Held(n: NodeMap, c: Ctx, t: Tree) {
    && RepC(n, c, t.ofs)
    && Rep(n, t)
    && forall o :: UsesC(c, o) + Uses(t, o) <= 1
  }

  lemma {:induction false} RepUses(n: NodeMap, t: Tree, o: nat)
    requires Rep(n, t) && Uses(t, o) > 0
    ensures o in n
    decreases t
  {
    if t.ofs != o { RepInUses(n, t.cs, o); }
  }

  lemma {:induction false} RepInUses(n: NodeMap, cs: seq<Tree>, o: nat)
    requires RepIn(n, cs) && UsesIn(cs, o) > 0
    ensures o in n
    decreases cs
  {
    if Uses(cs[0], o) > 0 { RepUses(n, cs[0], o); } else { RepInUses(n, cs[1..], o); }
  }

  lemma {:induction false} RepCUses(n: NodeMap, c: Ctx, hole: nat, o: nat)
    requires RepC(n, c, hole) && UsesC(c, o) > 0
    ensures o in n
  {
    if c.ofs != o {
      if UsesIn(c.ls, o) > 0 { RepInUses(n, c.ls, o); }
      else if UsesIn(c.rs, o) > 0 { RepInUses(n, c.rs, o); }
      else { RepCUses(n, c.up, c.ofs, o); }
    }
  }

  lemma HeldUses(n: NodeMap, c: Ctx, t: Tree, o: nat)
    requires Held(n, c, t) && UsesC(c, o) + Uses(t, o) > 0
    ensures o in n
  {
    if Uses(t, o) > 0 { RepUses(n, t, o); } else { RepCUses(n, c, t.ofs, o); }
  }

  lemma HeldWhole(n: NodeMap, c: Ctx, t: Tree)
    requires Held(n, c, t)
    ensures Held(n, Top, Plug(c, t))
  {
    PlugRep(n, c, t);
    forall o ensures UsesC(Top, o) + Uses(Plug(c, t), o) <= 1 { PlugUses(c, t, o); }
  }

  /** New words for the node in the hole, its children as they were. */
  lemma HeldRewrite(n: NodeMap, c: Ctx, t: Tree, es: seq<Entry>, w: Words)
    requires Held(n, c, t) && Holds(w, es, Slots(t.cs))
    ensures Held(n[t.ofs := w], c, Node(t.ofs, es, t.cs))
  {
    var n', t' := n[t.ofs := w], Node(t.ofs, es, t.cs);
    assert Uses(t, t.ofs) > 0;
    forall o | UsesC(c, o) > 0 ensures SameAt(n, n', o) {
      assert UsesC(c, o) + Uses(t, o) <= 1;
    }
    RepCFrame(n, n', c, t.ofs);
    forall o | UsesIn(t.cs, o) > 0 ensures SameAt(n, n', o) {
      assert UsesC(c, o) + Uses(t, o) <= 1;
    }
    RepInFrame(n, n', t.cs);
    forall o ensures UsesC(c, o) + Uses(t', o) <= 1 {
      assert UsesC(c, o) + Uses(t, o) <= 1;
    }
  }

  ghost function Descend(c: Ctx, t: Tree, i: nat): Ctx
    requires i < |t.cs|
  {
    Down(c, t.ofs, t.es, t.cs[..i], t.cs[i + 1..])
  }

  lemma DescendSlots(cs: seq<Tree>, i: nat)
    requires i < |cs|
    ensures Slots(cs) == Slots(cs[..i]) + [cs[i].ofs] + Slots(cs[i + 1..])
  {
  }

  lemma HeldDescend(n: NodeMap, c: Ctx, t: Tree, i: nat)
    requires Held(n, c, t) && i < |t.cs|
    ensures Held(n, Descend(c, t, i), t.cs[i])
    ensures Plug(Descend(c, t, i), t.cs[i]) == Plug(c, t)
  {
    var d, x := Descend(c, t, i), t.cs[i];
    assert t.cs == t.cs[..i] + [x] + t.cs[i + 1..];
    DescendSlots(t.cs, i);
    assert RepIn(n, t.cs);
    assert RepIn(n, d.ls) && RepIn(n, d.rs);
    hide Slots, Rep, RepIn, RepC, Holds, Plug;
    forall o ensures UsesC(d, o) + Uses(x, o) <= 1 {
      UsesInHole(t.cs[..i], x, t.cs[i + 1..], o);
      assert UsesC(c, o) + Uses(t, o) <= 1;
    }
  }

  /** The root of a split root: no entries, its one child the node that took over the old contents. */
  ghost predicate FreshRootWords(w: Words, moved: nat) {
    KeyCount(w) == 0 && ChildAt(w, 0) == moved
  }

  /** Nothing else is left in its slots. */
  ghost predicate OneChild(w: Words) {
    && (forall j :: 0 <= j < SLOTS ==> HashAt(w, j) == 0 && KvAt(w, j) == 0)
    && (forall j :: 1 <= j <= SLOTS ==> ChildAt(w, j) == 0)
  }

  lemma HeldRootSplit(n: NodeMap, t: Tree, moved: nat, w: Words)
    requires Held(n, Top, t) && moved !in n && moved > 0 && FreshRootWords(w, moved)
    ensures Held(n[moved := n[t.ofs]][t.ofs := w], Down(Top, t.ofs, [], [], []), Node(moved, t.es, t.cs))
  {
    var n', c, t' := n[moved := n[t.ofs]][t.ofs := w], Down(Top, t.ofs, [], [], []), Node(moved, t.es, t.cs);
    forall o | UsesIn(t.cs, o) > 0 ensures SameAt(n, n', o) {
      RepInUses(n, t.cs, o);
      assert UsesC(Top, o) + Uses(t, o) <= 1;
    }
    RepInFrame(n, n', t.cs);
    assert Slots(c.ls) + [moved] + Slots(c.rs) == [moved];
    forall o ensures UsesC(c, o) + Uses(t', o) <= 1 {
      assert UsesC(Top, o) + Uses(t, o) <= 1;
      if Uses(t', moved) > 1 { RepInUses(n, t.cs, moved); }
      if o == moved && UsesIn(t.cs, o) > 0 { RepInUses(n, t.cs, o); }
    }
  }

  // ----- child split

  ghost predicate SplitWords(n: NodeMap, c: Ctx, t: Tree, sib: nat, n': NodeMap)
    requires Splittable(c, t) && c.ofs in n && t.ofs in n
    requires KeyCount(n[c.ofs]) == |c.es|
  {
    && c.ofs in n' && t.ofs in n' && sib in n'
    && LowWords(n[t.ofs], n'[t.ofs])
    && HighWords(n[t.ofs], n'[sib])
    && ParentWords(n[c.ofs], n[t.ofs], sib, |c.ls|, n'[c.ofs])
    && forall o :: o in n && o != c.ofs && o != t.ofs && o != sib ==> o in n' && n'[o] == n[o]
  }

  lemma SplitFrame(n: NodeMap, c: Ctx, t: Tree, sib: nat, n': NodeMap)
    requires Held(n, c, t) && Splittable(c, t) && sib !in n && SplitWords(n, c, t, sib, n')
    ensures RepIn(n', t.cs) && RepIn(n', c.ls) && RepIn(n', c.rs) && RepC(n', c.up, c.ofs)
  {
    forall o | UsesIn(t.cs, o) + UsesIn(c.ls, o) + UsesIn(c.rs, o) + UsesC(c.up, o) > 0
      ensures SameAt(n, n', o)
    {
      HeldUses(n, c, t, o);
      assert UsesC(c, o) + Uses(t, o) <= 1;
    }
    RepInFrame(n, n', t.cs);
    RepInFrame(n, n', c.ls);
    RepInFrame(n, n', c.rs);
    RepCFrame(n, n', c.up, c.ofs);
  }

  lemma SplitHolds(n: NodeMap, c: Ctx, t: Tree, sib: nat, n': NodeMap)
    requires Held(n, c, t) && Splittable(c, t) && sib > 0 && SplitWords(n, c, t, sib, n')
    ensures Holds(n'[t.ofs], LowHalf(t).es, Slots(LowHalf(t).cs))
    ensures Holds(n'[sib], HighHalf(t, sib).es, Slots(HighHalf(t, sib).cs))
    ensures Holds(n'[c.ofs], WithMedian(c, t), Slots(c.ls) + [t.ofs] + ([sib] + Slots(c.rs)))
  {
    LowHolds(t, n[t.ofs], n'[t.ofs]);
    HighHolds(t, n[t.ofs], n'[sib], sib);
    ParentHolds(c, t, n[c.ofs], n[t.ofs], sib, n'[c.ofs]);
  }

  lemma HeldSplitUses(n: NodeMap, c: Ctx, t: Tree, sib: nat)
    requires Held(n, c, t) && Splittable(c, t) && sib !in n
    ensures forall o :: UsesC(GoLow(c, t, sib), o) + Uses(LowHalf(t), o) <= 1
    ensures forall o :: UsesC(GoHigh(c, t, sib), o) + Uses(HighHalf(t, sib), o) <= 1
  {
    forall o
      ensures UsesC(GoLow(c, t, sib), o) + Uses(LowHalf(t), o) <= 1
      ensures UsesC(GoHigh(c, t, sib), o) + Uses(HighHalf(t, sib), o) <= 1
    {
      SplitUses(c, t, sib, o);
      assert UsesC(c, o) + Uses(t, o) <= 1;
      if o == sib && UsesC(c, o) + Uses(t, o) > 0 { HeldUses(n, c, t, o); }
    }
  }

  lemma HeldSplit(n: NodeMap, c: Ctx, t: Tree, sib: nat, n': NodeMap)
    requires Held(n, c, t) && Splittable(c, t) && sib !in n && sib > 0 && SplitWords(n, c, t, sib, n')
    ensures Held(n', GoLow(c, t, sib), LowHalf(t))
    ensures Held(n', GoHigh(c, t, sib), HighHalf(t, sib))
  {
    SplitFrame(n, c, t, sib, n');
    SplitHolds(n, c, t, sib, n');
    HeldSplitUses(n, c, t, sib);
    var l, r := LowHalf(t), HighHalf(t, sib);
    assert Rep(n', l) && Rep(n', r);
    assert Slots([r] + c.rs) == [sib] + Slots(c.rs);
    assert Slots(c.ls + [l]) == Slots(c.ls) + [t.ofs];
    assert Slots(c.ls) + [t.ofs] + ([sib] + Slots(c.rs)) == Slots(c.ls) + [t.ofs] + [sib] + Slots(c.rs);
  }

  /** The parent lists the node in the hole at its own place and nowhere before. */
  lemma ChildOnce(n: NodeMap, c: Ctx, t: Tree)
    requires Held(n, c, t) && c.Down? && FormedC(c)
    ensures c.ofs in n && |c.ls| <= KeyCount(n[c.ofs]) && ChildAt(n[c.ofs], |c.ls|) == t.ofs
    ensures forall j :: 0 <= j < |c.ls| ==> ChildAt(n[c.ofs], j) != t.ofs
    ensures KeyCount(n[c.ofs]) == |c.es|
  {
    var co := Slots(c.ls) + [t.ofs] + Slots(c.rs);
    assert Holds(n[c.ofs], c.es, co);
    assert co[|c.ls|] == t.ofs;
    assert Uses(t, t.ofs) > 0;
    forall j | 0 <= j < |c.ls| ensures ChildAt(n[c.ofs], j) != t.ofs {
      assert co[j] == c.ls[j].ofs;
      UsesAt(c.ls, j, c.ls[j].ofs);
      assert UsesC(c, t.ofs) + Uses(t, t.ofs) <= 1;
    }
  }

  lemma NotSelf(n: NodeMap, c: Ctx, t: Tree)
    requires Held(n, c, t) && c.Down?
    ensures c.ofs != t.ofs && t.ofs in n && Holds(n[t.ofs], t.es, Slots(t.cs))
  {
    assert Uses(t, t.ofs) > 0 && UsesC(c, c.ofs) > 0;
    assert UsesC(c, t.ofs) + Uses(t, t.ofs) <= 1;
  }

  lemma SplitSteps(n: NodeMap, c: Ctx, t: Tree, sib: nat, n': NodeMap)
    requires Held(n, c, t) && Splittable(c, t) && sib !in n && sib > 0 && c.ofs in n && t.ofs in n
    requires n'.Keys == n.Keys + {sib} && KeyCount(n[c.ofs]) == |c.es|
    requires forall o :: o in n && o != t.ofs && o != c.ofs ==> n'[o] == n[o]
    requires LowWords(n[t.ofs], n'[t.ofs]) && HighWords(n[t.ofs], n'[sib])
    requires ParentWords(n[c.ofs], n[t.ofs], sib, |c.ls|, n'[c.ofs])
    ensures Held(n', GoLow(c, t, sib), LowHalf(t)) && Held(n', GoHigh(c, t, sib), HighHalf(t, sib))
    ensures HashAt(n'[c.ofs], |c.ls|) == t.es[KEYS_MIN].id.hash
  {
    assert Holds(n[t.ofs], t.es, Slots(t.cs));
    HeldSplit(n, c, t, sib, n');
  }
}
