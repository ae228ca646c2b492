/**
 What set_obj and set_arr over a large enough object or array leave behind: the emptied root keeps a child of the old
 tree, and once it has six entries again that child is found.
 */
module Remains {
  import opened Wrappers
  import opened Bytes
  import opened Records
  import opened Nodes
  import opened Layout
  import opened Order
  import opened Trees
  import opened Routes
  import opened Zipper
  import opened Steps
  import opened Paths
  import opened Digits
  import opened Turns
  import opened Spines
  import opened Refinement
  import opened Crowds
  import opened Forests
  import opened Nestings
  import opened Generations
  import opened Readings
  import opened Buffers
  import opened Cases

  const OLD: nat := 28

  lemma CarriedThen()
    ensures Carried(0, OLD) == OLD && Carried(1, OLD) == 6 && Carried(2, OLD) == 0 && Pow4(2) == 16
  {
    assert Pow4(0) == 1 && Pow4(1) == 4 && Pow4(2) == 16;
    assert Beyond(29, 1) == 28 && Beyond(28, 4) == 6 && Beyond(27, 16) == 0;
  }

  lemma LevelsThen(h: nat)
    requires TopLevel(h, OLD)
    ensures h == 2
  {
    hide Carried;
    CarriedThen();
    if h > 2 { NoneCarried(h - 1); }
  }

  lemma NoneCarried(j: nat)
    requires j >= 2
    ensures Carried(j, OLD) == 0
  {
    hide Carried;
    PowTwo();
    hide Pow4;
    Pow4Monotone(2, j);
    TooFewToCarry(j, OLD);
  }

  lemma PowTwo()
    ensures Pow4(2) == 16
  {
  }

  lemma TooFewToCarry(j: nat, n: nat)
    requires n + 1 - j < 2 * Pow4(j)
    ensures Carried(j, n) == 0
  {
  }

  lemma DigitsThen()
    ensures Digit(1, OLD) == 4 && Digit(2, OLD) == 6
  {
    hide Carried;
    CarriedThen();
  }

  /** The tree of an array of 28 elements: a root of six entries, and the last four elements in its last leaf. */
  lemma TwentyEight(t: Tree, h: nat)
    requires ArrayTree(t, h, OLD) && TreeShape(t, h) && |InOrder(t)| == OLD
    ensures h == 2 && |t.es| == 6 && |t.cs| == 7 && t.cs[6].cs == [] && |t.cs[6].es| == 4
    ensures InOrder(t.cs[6]) == InOrder(t)[24..] && InOrder(t.cs[6]) == t.cs[6].es
  {
    hide Digit, InOrder, TopLevel, Weave, Lean;
    LevelsThen(h);
    DigitsThen();
    assert Below(t.es, t.cs, h);
    assert Spine(t.cs[6], 1, OLD);
    LeafRun(t.cs[6]);
    LastChild(t, 6);
  }

  lemma LastChild(t: Tree, i: nat)
    requires |t.es| == i && |t.cs| == i + 1
    ensures |InOrder(t.cs[i])| <= |InOrder(t)| && InOrder(t.cs[i]) == InOrder(t)[|InOrder(t)| - |InOrder(t.cs[i])|..]
  {
    AroundChild(t.es, t.cs, i);
    assert t.es[i..] == [] && WeaveR([], t.cs[i + 1..]) == [];
    var a := WeaveL(t.es[..i], t.cs[..i]);
    assert InOrder(t) == a + InOrder(t.cs[i]);
  }

  /** The record of a nested value in an object that has no other member. */
  lemma OnlyMember(t: Tree, k: Id, e: Entry)
    requires t.cs == [] && t.es == [e] && e.id == k && ValLen(e.val) == 1
    ensures Reuses(t, k) && EndOfRecord(t, k) == LinkOf(false, e)
    ensures forall o :: Uses(t, o) == if o == t.ofs then 1 else 0
  {
    CompareOrder(k, k, k);
    LeafRoute(t, k);
    SearchIs(t.es, k, 0);
  }

  // ----- the run

  /** An object with one member, an array of i elements. */
  ghost predicate Growing(b: Buffer, n: nat, e0: Entry, t0: Root, vs: seq<Value>, i: nat)
    reads b
  {
    && b.Coherent() && 0 in b.forest && b.forest[0] == t0 && n in b.forest && b.forest[n].isArr
    && n == LinkOf(false, e0) && n != 0 && i <= |vs|
    && |InOrder(b.forest[n].tree)| == i && forall j :: 0 <= j < i ==> InOrder(b.forest[n].tree)[j].val == vs[j]
  }

  ghost predicate Small(vs: seq<Value>) {
    forall i :: 0 <= i < |vs| ==> ValidValue(vs[i]) && !Nests(vs[i]) && ValLen(vs[i]) <= 0x10_0000
  }

  method NewArray(key: Key, vs: seq<Value>) returns (b: Buffer, n: nat, ghost e0: Entry)
    requires |key| <= KEY_MAX
    ensures fresh(b) && 0 in b.forest && Growing(b, n, e0, b.forest[0], vs, 0) && b.used <= 5000
    ensures !b.forest[0].isArr && OnlyEntry(b.forest[0].tree, IdOf(key), e0)
  {
    hide Holding, Image, Planted, Linked, Anchored, Dated, SetLands, SetMeans, All, ValidRecs, Reuses, EndOfRecord,
         HasPlace, HasRoom, Legible, PathRoom, TreeShape, Generation, LinkOf, InPlace, RoomyWalk, Refilled;
    b := new Buffer();
    var ofs := b.InitStructure(false);
    ghost var k, none := IdOf(key), b.forest[0].tree;
    EmptyTree(0);
    NoneReuses(none, k);
    PlaceUnlessReused(b.Here(), 0, k);
    RootFacts(b.nodes, b.recs, b.forest, 0);
    RoomForSet(none, b.forest[0].height, k);
    n, e0 := b.SetNested(0, key, true);
    RootFacts(b.nodes, b.recs, b.forest, 0);
    FirstTime(none, k, true, e0, b.forest[0].tree, b.forest[0].height);
    EmptyRun(n);
  }

  ghost predicate OnlyEntry(t: Tree, k: Id, e: Entry) {
    t.cs == [] && t.es == [e] && InOrder(t) == [e] && e.id == k && ValLen(e.val) == 1
  }

  method Append(b: Buffer, n: nat, ghost e0: Entry, ghost t0: Root, vs: seq<Value>, i: nat)
    requires Growing(b, n, e0, t0, vs, i) && i < |vs| <= OLD && Small(vs) && b.used + SET_MARGIN <= U32_LIMIT
    modifies b
    ensures Growing(b, n, e0, t0, vs, i + 1) && b.used <= old(b.used) + 2000 + 0x10_0000
  {
    hide Holding, Image, Planted, Linked, Anchored, Dated, All, ValidRecs, InOrder, LinkOf;
    ghost var e := b.AppendScalar(n, vs[i]);
  }

  /** The last leaf of the array, as it lies among nodes and records. */
  lemma LastLeaf(nodes: NodeMap, recs: RecMap, f: Forest, n: nat, last: Tree)
    requires Planted(nodes, recs, f) && 0 in f && n in f && n != 0 && f[n].isArr
    requires |f[n].tree.es| == 6 && |f[n].tree.cs| == 7 && f[n].tree.cs[6] == last && last.cs == []
    ensures n in nodes && ChildAt(nodes[n], 6) == last.ofs != 0 && last.ofs in nodes && last.ofs != n
    ensures Uses(f[0].tree, last.ofs) == 0 && Rep(nodes, last) && AllBacked(recs, true, InOrder(last))
    ensures f[n].height > 1 && Shape(last, f[n].height - 1, KEYS_MIN)
  {
    var t, h := f[n].tree, f[n].height;
    RootFacts(nodes, recs, f, n);
    RootFacts(nodes, recs, f, 0);
    assert Apart(f[0].tree, t);
    hide Planted, Rooted, Apart, ArrayTree;
    ChildOfRoot(nodes, recs, t, h, last);
    assert Uses(f[0].tree, last.ofs) == 0 by { ApartAt(f[0].tree, t, last.ofs); }
  }

  lemma ApartAt(t: Tree, t': Tree, o: nat)
    requires Apart(t, t') && Uses(t', o) > 0
    ensures Uses(t, o) == 0
  {
    assert Uses(t, o) == 0 || Uses(t', o) == 0;
  }

  lemma ChildOfRoot(nodes: NodeMap, recs: RecMap, t: Tree, h: nat, last: Tree)
    requires Owned(nodes, recs, true, t, h) && |t.es| == 6 && |t.cs| == 7 && t.cs[6] == last && last.cs == []
    ensures t.ofs in nodes && ChildAt(nodes[t.ofs], 6) == last.ofs != 0 && last.ofs in nodes && last.ofs != t.ofs
    ensures Uses(t, last.ofs) > 0 && Rep(nodes, last) && AllBacked(recs, true, InOrder(last))
    ensures h > 1 && Shape(last, h - 1, KEYS_MIN)
  {
    assert Below(t.es, t.cs, h) && Shape(last, h - 1, KEYS_MIN);
    assert RepIn(nodes, t.cs) && Slots(t.cs)[6] == last.ofs;
    UsesAt(t.cs, 6, last.ofs);
    assert Uses(last, last.ofs) > 0;
    assert UsesC(Top, last.ofs) + Uses(t, last.ofs) <= 1;
    ChildBacked(recs, true, t, 6);
  }

  /** No record of the array is that of the one member. */
  lemma OtherRecords(nodes: NodeMap, recs: RecMap, f: Forest, n: nat, e0: Entry, last: Tree)
    requires Planted(nodes, recs, f) && 0 in f && n in f && n != 0 && InOrder(f[0].tree) == [e0]
    requires |InOrder(f[n].tree)| == OLD && InOrder(last) == InOrder(f[n].tree)[24..]
    ensures forall i :: 0 <= i < |InOrder(last)| ==> InOrder(last)[i].kv != e0.kv
  {
    assert Apart(f[0].tree, f[n].tree);
    forall i | 0 <= i < |InOrder(last)| ensures InOrder(last)[i].kv != e0.kv {
      assert InOrder(last)[i] == InOrder(f[n].tree)[24 + i] && InOrder(f[0].tree)[0] == e0;
    }
  }

  /** It is there still when the array has been set anew. */
  lemma LeafRemains(data: seq<Byte>, used: nat, nodes: NodeMap, recs: RecMap, spare: RawMap, t0: Tree, n: nat, kv: nat,
                  nodes': NodeMap, recs': RecMap, last: Tree)
    requires ValidRecs(recs) && Image(data, used, nodes, All(recs, spare))
    requires n in nodes && last.ofs in nodes && last.ofs != n && Uses(t0, last.ofs) == 0 && last.cs == []
    requires Rep(nodes, last) && AllBacked(recs, true, InOrder(last)) && Shape(last, 1, KEYS_MIN)
    requires forall i :: 0 <= i < |InOrder(last)| ==> InOrder(last)[i].kv != kv
    requires Refilled(nodes, recs, t0, n, kv, true, nodes', recs')
    ensures SubTree(nodes', recs', true, last, 1)
  {
    RecsImage(data, used, nodes, recs, spare);
    hide Image, All;
    assert Misses(last.ofs, NODE_SIZE, n);
    assert Rep(nodes', last);
    var s := InOrder(last);
    forall i | 0 <= i < |s| ensures Backed(recs', true, s[i]) {
      assert Backed(recs, true, s[i]);
      assert |Raw(recs)[s[i].kv]| == RecLen(recs[s[i].kv]);
      assert Misses(s[i].kv, RecLen(recs[s[i].kv]), n);
    }
  }

  /** set_arr over the array: its root is emptied in its place, and keeps its last child. */
  method SetAgain(b: Buffer, key: Key, n: nat, ghost e0: Entry, ghost t0: Root, vs: seq<Value>)
    returns (ghost last: Tree)
    requires Growing(b, n, e0, t0, vs, OLD) && |vs| == OLD && !t0.isArr && OnlyEntry(t0.tree, IdOf(key), e0)
    requires |key| <= KEY_MAX && b.used + SET_MARGIN <= U32_LIMIT
    modifies b
    ensures Haunted(b.nodes, b.recs, true, n, [], 6, last, 1) && b.Valid() && Size(b.nodes[n]) == 0
    ensures TypeCode(b.nodes[n]) == Code(Array)
    ensures |last.es| == 4 && last.cs == []
    ensures forall j :: 0 <= j < 4 ==> last.es[j].id == Id(24 + j, []) && last.es[j].val == vs[24 + j]
    ensures !Legible(b.data, b.used, b.forest) && b.used <= old(b.used) + 2000
  {
    hide Holding, Image, Planted, Linked, Anchored, Dated, SetLands, SetMeans, All, ValidRecs, Reuses, EndOfRecord,
         HasPlace, HasRoom, Legible, PathRoom, TreeShape, Generation, LinkOf, InPlace, RoomyWalk, Refilled,
         Haunted, InOrder, Rep, AllBacked, Shape, ArrayTree, Rooted, Owned, LastChildrenUnset;
    ghost var k, f, t, nodes0, recs0 := IdOf(key), b.forest, b.forest[n].tree, b.nodes, b.recs;
    RootFacts(nodes0, recs0, f, n);
    RootFacts(nodes0, recs0, f, 0);
    ArrayFacts(nodes0, recs0, f, n);
    TwentyEight(t, f[n].height);
    last := t.cs[6];
    LastLeaf(nodes0, recs0, f, n, last);
    OtherRecords(nodes0, recs0, f, n, e0, last);
    OnlyMember(t0.tree, k, e0);
    PlaceOverTree(b.Here(), nodes0, recs0, b.spare, 0, k);
    ChildLeft(nodes0[n], last.ofs);
    RoomForSet(t0.tree, t0.height, k);
    ghost var data0, used0, spare0 := b.data, b.used, b.spare;
    var n2, e2 := b.SetNested(0, key, true);
    SameRecord(t0.tree, k, e0, e2, b.forest[0].tree);
    LeafRemains(data0, used0, nodes0, recs0, spare0, t0.tree, n, e2.kv, b.nodes, b.recs, last);
    HauntedNow(nodes0, recs0, t0.tree, n, e2.kv, b.nodes, b.recs, last);
    LastValues(t, vs, last);
  }

  lemma ChildLeft(w: Words, c: nat)
    requires ChildAt(w, SLOTS - 1) == c != 0
    ensures !LastChildrenUnset(w)
  {
  }

  lemma SameRecord(t: Tree, k: Id, e: Entry, e': Entry, t': Tree)
    requires OnlyEntry(t, k, e) && SetLands(t, k, Nested(true), e', t') && LinkOf(false, e') == LinkOf(false, e)
    ensures e'.kv == e.kv
  {
  }

  lemma LastValues(t: Tree, vs: seq<Value>, last: Tree)
    requires |InOrder(t)| == OLD == |vs| && ArrayRun(InOrder(t)) && |last.es| == 4 && last.es == InOrder(t)[24..]
    requires forall j :: 0 <= j < OLD ==> InOrder(t)[j].val == vs[j]
    ensures forall j :: 0 <= j < 4 ==> last.es[j].id == Id(24 + j, []) && last.es[j].val == vs[24 + j]
  {
    forall j | 0 <= j < 4 ensures last.es[j] == InOrder(t)[24 + j] {
    }
  }

  lemma HauntedNow(nodes: NodeMap, recs: RecMap, t0: Tree, n: nat, kv: nat, nodes': NodeMap, recs': RecMap, last: Tree)
    requires Refilled(nodes, recs, t0, n, kv, true, nodes', recs') && n in nodes
    requires ChildAt(nodes[n], 6) == last.ofs != 0 && SubTree(nodes', recs', true, last, 1)
    ensures Haunted(nodes', recs', true, n, [], 6, last, 1)
    ensures Size(nodes'[n]) == 0 && TypeCode(nodes'[n]) == Code(Array)
  {
    hide SubTree;
  }

  /** An element more in the array as it is now. */
  method AppendAgain(b: Buffer, n: nat, ghost es: seq<Entry>, v: Value, ghost last: Tree) returns (ghost e: Entry)
    requires Haunted(b.nodes, b.recs, true, n, es, 6, last, 1) && b.Valid() && Size(b.nodes[n]) == |es| < 6
    requires ValidValue(v) && b.used < U32_LIMIT && forall i :: 0 <= i < |es| ==> es[i].id == Id(i, [])
    modifies b
    ensures Haunted(b.nodes, b.recs, true, n, es + [e], 6, last, 1) && b.Valid() && Size(b.nodes[n]) == |es| + 1
    ensures e.id == Id(|es|, []) && e.val == v && b.used == old(b.used) + RecLen(Rec(false, [], v))
    ensures TypeCode(b.nodes[n]) == old(TypeCode(b.nodes[n]))
  {
    hide Holding, Image, All, ValidRecs;
    ghost var nodes0, recs0 := b.nodes, b.recs;
    e := b.AppendInLeaf(n, v, es);
    StillHaunted(nodes0, recs0, n, es, last, e, b.nodes, b.recs);
  }

  lemma StillHaunted(nodes: NodeMap, recs: RecMap, n: nat, es: seq<Entry>, last: Tree, e: Entry,
                     nodes': NodeMap, recs': RecMap)
    requires Haunted(nodes, recs, true, n, es, 6, last, 1) && |es| < 6 && last.ofs != n && last.cs == []
    requires n in nodes' && nodes' == nodes[n := nodes'[n]] && SameChildren(nodes[n], nodes'[n])
    requires HoldsEntries(nodes'[n], es + [e]) && AllBacked(recs', true, es + [e])
    requires e.kv !in recs && recs' == recs[e.kv := Rec(false, [], e.val)]
    ensures Haunted(nodes', recs', true, n, es + [e], 6, last, 1)
  {
    var s := InOrder(last);
    forall i | 0 <= i < |s| ensures Backed(recs', true, s[i]) { assert Backed(recs, true, s[i]); }
    var lo :| Shape(last, 1, lo);
    assert Rep(nodes', last);
    assert SubTree(nodes', recs', true, last, 1);
    hide SubTree, HoldsEntries, AllBacked;
  }

  const STEP: nat := 2000 + 0x10_0000

  method FillArray(b: Buffer, n: nat, ghost e0: Entry, ghost t0: Root, vs: seq<Value>)
    requires Growing(b, n, e0, t0, vs, 0) && |vs| == OLD && Small(vs) && b.used <= 5000
    modifies b
    ensures Growing(b, n, e0, t0, vs, OLD) && b.used <= 5000 + OLD * STEP
  {
    hide Growing, Small, STEP;
    StepSize();
    var i := 0;
    while i < OLD
      invariant i <= OLD && Growing(b, n, e0, t0, vs, i) && b.used <= 5000 + i * STEP
    {
      Append(b, n, e0, t0, vs, i);
      i := i + 1;
    }
  }

  lemma StepSize()
    ensures STEP == 1050576
  {
  }

  /** The array as it is now, with the elements es. */
  ghost predicate Again(b: Buffer, n: nat, es: seq<Entry>, last: Tree)
    reads b
  {
    && Haunted(b.nodes, b.recs, true, n, es, 6, last, 1) && b.Valid() && Size(b.nodes[n]) == |es|
    && TypeCode(b.nodes[n]) == Code(Array) && forall i :: 0 <= i < |es| ==> es[i].id == Id(i, [])
  }

  method FillAgain(b: Buffer, n: nat, ws: seq<Value>, ghost last: Tree) returns (ghost es: seq<Entry>)
    requires Again(b, n, [], last) && |ws| == 6 && Small(ws) && b.used <= 7000 + OLD * STEP
    modifies b
    ensures Again(b, n, es, last) && |es| == 6
  {
    hide Haunted, Holding, Image;
    StepSize();
    es := [];
    var i := 0;
    while i < 6
      invariant i <= 6 && |es| == i && Again(b, n, es, last) && b.used <= 7000 + (OLD + i) * STEP
    {
      ghost var e := AppendAgain(b, n, es, ws[i], last);
      es := es + [e];
      i := i + 1;
    }
  }

  /**
   A member is made an array of 28 elements, then an array again, of six: index 27 of the second array, which has size
   6, reads the last element of the first.
   */
  method ArrayOverArray(key: Key, vs: seq<Value>, ws: seq<Value>) returns (b: Buffer, n: nat, r: Option<nat>)
    requires |key| <= KEY_MAX && |vs| == OLD && |ws| == 6 && Small(vs) && Small(ws)
    ensures fresh(b) && b.Valid() && n in b.nodes && Size(b.nodes[n]) == 6 && TypeCode(b.nodes[n]) == Code(Array)
    ensures r.Some? && r.value in b.recs && b.recs[r.value] == Rec(false, [], vs[27])
  {
    hide Growing, Small, OnlyEntry, Holding, Image, Haunted, Legible, Walked, STEP, All, ValidRecs;
    StepSize();
    ghost var e0;
    b, n, e0 := NewArray(key, vs);
    ghost var t0 := b.forest[0];
    FillArray(b, n, e0, t0, vs);
    ghost var last := SetAgain(b, key, n, e0, t0, vs);
    ghost var es := FillAgain(b, n, ws, last);
    HauntedRoot(b.nodes, b.recs, n, es, last);
    ReadsOld(b.nodes, b.recs, n, es, last, Id(27, []));
    r := b.GetImpl(n, Id(27, []), true, 2);
  }

  lemma HauntedRoot(nodes: NodeMap, recs: RecMap, n: nat, es: seq<Entry>, last: Tree)
    requires Haunted(nodes, recs, true, n, es, 6, last, 1)
    ensures n in nodes
  {
  }

  lemma ReadsOld(nodes: NodeMap, recs: RecMap, n: nat, es: seq<Entry>, last: Tree, k: Id)
    requires Haunted(nodes, recs, true, n, es, 6, last, 1) && |es| == 6 && last.cs == [] && |last.es| == 4
    requires forall j :: 0 <= j < 6 ==> es[j].id == Id(j, [])
    requires forall j :: 0 <= j < 4 ==> last.es[j].id == Id(24 + j, [])
    requires k == Id(27, [])
    ensures Walked(nodes, recs, true, n, k, 2) == Some(Some(last.es[3]))
  {
    HauntedReads(nodes, recs, true, n, es, 6, last, 1, k);
    SearchIs(last.es, k, 3);
  }
}
