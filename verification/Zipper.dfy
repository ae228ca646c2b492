/**
 A tree with a hole: the nodes set_impl has come through on its way down. Splits and the final insertion
 change the node in the hole and at most the last frame, so all that is proved here is proved one frame at a time.
 */
module Zipper {
  import opened Nodes
  import opened Order
  import opened Trees

  datatype Ctx = Top | Down(up: Ctx, ofs: nat, es: seq<Entry>, ls: seq<Tree>, rs: seq<Tree>)

  ghost function Fill(c: Ctx, t: Tree): Tree
    requires c.Down?
  {
    Node(c.ofs, c.es, c.ls + [t] + c.rs)
  }

  ghost function Plug(c: Ctx, t: Tree): Tree {
    if c.Top? then t else Plug(c.up, Fill(c, t))
  }

  ghost function Depth(c: Ctx): nat {
    if c.Top? then 0 else 1 + Depth(c.up)
  }

  // ----- in-order run

  ghost predicate FormedC(c: Ctx) {
    c.Down? ==> |c.es| == |c.ls| + |c.rs| && FormedC(c.up)
  }

  ghost function Pre(c: Ctx): seq<Entry>
    requires FormedC(c)
  {
    if c.Top? then [] else Pre(c.up) + WeaveL(c.es[..|c.ls|], c.ls)
  }

  ghost function Post(c: Ctx): seq<Entry>
    requires FormedC(c)
  {
    if c.Top? then [] else WeaveR(c.es[|c.ls|..], c.rs) + Post(c.up)
  }

  lemma Associate(a: seq<Entry>, l: seq<Entry>, x: seq<Entry>, r: seq<Entry>, b: seq<Entry>)
    ensures a + (l + x + r) + b == (a + l) + x + (r + b)
  {
  }

  lemma {:induction false} PlugRun(c: Ctx, t: Tree)
    requires FormedC(c)
    ensures InOrder(Plug(c, t)) == Pre(c) + InOrder(t) + Post(c)
  {
    if c.Down? {
      WeaveHole(c.es, c.ls, t, c.rs);
      PlugRun(c.up, Fill(c, t));
      Associate(Pre(c.up), WeaveL(c.es[..|c.ls|], c.ls), InOrder(t), WeaveR(c.es[|c.ls|..], c.rs), Post(c.up));
    }
  }

  // ----- shape

  /** A hole for a tree of height h; the root of the whole may have as few as lo entries. */
  ghost predicate ShapeC(c: Ctx, h: nat, lo: nat) {
    && FormedC(c)
    && h >= 1
    && (c.Down? ==>
        && LeastIn(c.up, lo) <= |c.es| <= KEYS_MAX
        && (forall i :: 0 <= i < |c.ls| ==> Shape(c.ls[i], h, KEYS_MIN))
        && (forall i :: 0 <= i < |c.rs| ==> Shape(c.rs[i], h, KEYS_MIN))
        && ShapeC(c.up, h + 1, lo))
  }

  /** Fewest entries allowed for the node in the hole. */
  ghost function LeastIn(c: Ctx, lo: nat): nat {
    if c.Top? then lo else KEYS_MIN
  }

  lemma {:induction false} PlugShape(c: Ctx, t: Tree, h: nat, lo: nat)
    requires ShapeC(c, h, lo) && Shape(t, h, LeastIn(c, lo))
    ensures Shape(Plug(c, t), h + Depth(c), lo)
  {
    if c.Down? {
      PlugShape(c.up, Fill(c, t), h + 1, lo);
    }
  }

  // ----- node offsets

  /** How often the node at offset o occurs in a tree. */
  ghost function Uses(t: Tree, o: nat): nat
    decreases t
  {
    (if t.ofs == o then 1 else 0) + UsesIn(t.cs, o)
  }

  ghost function UsesIn(cs: seq<Tree>, o: nat): nat
    decreases cs
  {
    if cs == [] then 0 else Uses(cs[0], o) + UsesIn(cs[1..], o)
  }

  ghost function UsesC(c: Ctx, o: nat): nat {
    if c.Top? then 0 else (if c.ofs == o then 1 else 0) + UsesIn(c.ls, o) + UsesIn(c.rs, o) + UsesC(c.up, o)
  }

  lemma {:induction false} UsesInConcat(a: seq<Tree>, b: seq<Tree>, o: nat)
    ensures UsesIn(a + b, o) == UsesIn(a, o) + UsesIn(b, o)
    decreases a
  {
    if a == [] {
      assert a + b == b;
    } else {
      UsesInConcat(a[1..], b, o);
      assert (a + b)[1..] == a[1..] + b;
    }
  }

  lemma UsesInHole(ls: seq<Tree>, t: Tree, rs: seq<Tree>, o: nat)
    ensures UsesIn(ls + [t] + rs, o) == UsesIn(ls, o) + Uses(t, o) + UsesIn(rs, o)
  {
    UsesInConcat(ls + [t], rs, o);
    UsesInConcat(ls, [t], o);
    assert [t][1..] == [];
  }

  lemma {:induction false} PlugUses(c: Ctx, t: Tree, o: nat)
    ensures Uses(Plug(c, t), o) == UsesC(c, o) + Uses(t, o)
  {
    if c.Down? {
      UsesInHole(c.ls, t, c.rs, o);
      PlugUses(c.up, Fill(c, t), o);
    }
  }

  lemma {:induction false} UsesAt(cs: seq<Tree>, i: nat, o: nat)
    requires i < |cs|
    ensures Uses(cs[i], o) <= UsesIn(cs, o)
    decreases cs
  {
    if i > 0 { UsesAt(cs[1..], i - 1, o); }
  }

  // ----- the words of the nodes

  function Slots(cs: seq<Tree>): (s: seq<nat>)
    ensures |s| == |cs|
    ensures forall i :: 0 <= i < |cs| ==> s[i] == cs[i].ofs
  {
    seq(|cs|, i requires 0 <= i < |cs| => cs[i].ofs)
  }

  /**
   The words hold these entries and these children. Child slots past the key count are stale in an inner node,
   but all eight are zero in a leaf, which is how a leaf is told.
   */
  ghost predicate HoldsEntries(w: Words, es: seq<Entry>) {
    && KeyCount(w) == |es|
    && forall i :: 0 <= i < |es| ==> HashAt(w, i) == es[i].id.hash && KvAt(w, i) == es[i].kv
  }

  ghost predicate Holds(w: Words, es: seq<Entry>, co: seq<nat>) {
    && HoldsEntries(w, es)
    && (if co == [] then forall i :: 0 <= i <= SLOTS ==> ChildAt(w, i) == 0
        else |co| == |es| + 1 && forall i :: 0 <= i < |co| ==> ChildAt(w, i) == co[i] != 0)
  }

  ghost predicate Rep(nodes: map<nat, Words>, t: Tree)
    decreases t
  {
    && t.ofs in nodes
    && Holds(nodes[t.ofs], t.es, Slots(t.cs))
    && RepIn(nodes, t.cs)
  }

  ghost predicate RepIn(nodes: map<nat, Words>, cs: seq<Tree>)
    decreases cs
  {
    forall i :: 0 <= i < |cs| ==> Rep(nodes, cs[i])
  }

  ghost predicate RepC(nodes: map<nat, Words>, c: Ctx, hole: nat) {
    c.Down? ==>
      && c.ofs in nodes
      && Holds(nodes[c.ofs], c.es, Slots(c.ls) + [hole] + Slots(c.rs))
      && RepIn(nodes, c.ls)
      && RepIn(nodes, c.rs)
      && RepC(nodes, c.up, c.ofs)
  }

  lemma {:induction false} PlugRep(nodes: map<nat, Words>, c: Ctx, t: Tree)
    requires RepC(nodes, c, t.ofs) && Rep(nodes, t)
    ensures Rep(nodes, Plug(c, t))
  {
    if c.Down? {
      assert Slots(c.ls + [t] + c.rs) == Slots(c.ls) + [t.ofs] + Slots(c.rs);
      PlugRep(nodes, c.up, Fill(c, t));
    }
  }

  ghost predicate SameAt(n: map<nat, Words>, n': map<nat, Words>, o: nat) {
    o in n ==> o in n' && n'[o] == n[o]
  }

  lemma {:induction false} RepFrame(n: map<nat, Words>, n': map<nat, Words>, t: Tree)
    requires Rep(n, t)
    requires forall o :: Uses(t, o) > 0 ==> SameAt(n, n', o)
    ensures Rep(n', t)
    decreases t
  {
    assert Uses(t, t.ofs) > 0;
    RepInFrame(n, n', t.cs);
  }

  lemma {:induction false} RepInFrame(n: map<nat, Words>, n': map<nat, Words>, cs: seq<Tree>)
    requires RepIn(n, cs)
    requires forall o :: UsesIn(cs, o) > 0 ==> SameAt(n, n', o)
    ensures RepIn(n', cs)
    decreases cs
  {
    forall i | 0 <= i < |cs| ensures Rep(n', cs[i]) {
      forall o | Uses(cs[i], o) > 0 ensures SameAt(n, n', o) { UsesAt(cs, i, o); }
      RepFrame(n, n', cs[i]);
    }
  }

  lemma {:induction false} RepCFrame(n: map<nat, Words>, n': map<nat, Words>, c: Ctx, hole: nat)
    requires RepC(n, c, hole)
    requires forall o :: UsesC(c, o) > 0 ==> SameAt(n, n', o)
    ensures RepC(n', c, hole)
  {
    if c.Down? {
      assert UsesC(c, c.ofs) > 0;
      RepInFrame(n, n', c.ls);
      RepInFrame(n, n', c.rs);
      RepCFrame(n, n', c.up, c.ofs);
    }
  }
}
