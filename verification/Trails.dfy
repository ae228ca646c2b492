/**
 Which words of which nodes one set touches. Nodes off its walk keep every word. On a walk that splits nothing
 the nodes gain a generation each, and the last one besides no more than the place of the one entry.
 */
module Trails {
  import opened Bytes
  import opened Records
  import opened Layout
  import opened Nodes
  import opened Order
  import opened Trees
  import opened Routes
  import opened Zipper
  import opened Splits
  import opened Walk
  import opened Steps
  import opened Turns
  import opened Refinement

  /** Offsets of the nodes that the walk for k visits, read off the tree before the call. */
  ghost function WalkSet(t: Tree, k: Id): set<nat>
    decreases t
  {
    {t.ofs} +
    if Full(t) && Formed(t.es, t.cs) then
      if k.hash > t.es[KEYS_MIN].id.hash then WalkSetIn(t.es[KEYS_MIN + 1..], From(t.cs, KEYS_MIN + 1), k)
      else WalkSetIn(t.es[..KEYS_MIN], Upto(t.cs, KEYS_MIN + 1), k)
    else WalkSetIn(t.es, t.cs, k)
  }

  ghost function WalkSetIn(es: seq<Entry>, cs: seq<Tree>, k: Id): set<nat>
    decreases cs
  {
    var i := Search(es, k);
    if !(i < |es| && es[i].id == k) && i < |cs| then WalkSet(cs[i], k) else {}
  }

  /** The node where a walk ends that splits nothing. */
  ghost function EndOf(t: Tree, k: Id): nat
    decreases t
  {
    var i := Search(t.es, k);
    if !(i < |t.es| && t.es[i].id == k) && i < |t.cs| then EndOf(t.cs[i], k) else t.ofs
  }

  lemma {:induction false} WalkUses(t: Tree, k: Id, o: nat)
    requires o in WalkSet(t, k)
    ensures Uses(t, o) > 0
    decreases t, 1
  {
    if o != t.ofs {
      if Full(t) && Formed(t.es, t.cs) {
        if k.hash > t.es[KEYS_MIN].id.hash {
          WalkInUses(t.es[KEYS_MIN + 1..], From(t.cs, KEYS_MIN + 1), k, o);
          if t.cs != [] { UsesInHalves(t.cs, KEYS_MIN + 1, o); }
        } else {
          WalkInUses(t.es[..KEYS_MIN], Upto(t.cs, KEYS_MIN + 1), k, o);
          if t.cs != [] { UsesInHalves(t.cs, KEYS_MIN + 1, o); }
        }
      } else {
        WalkInUses(t.es, t.cs, k, o);
      }
    }
  }

  lemma UsesInHalves(cs: seq<Tree>, n: nat, o: nat)
    requires n <= |cs|
    ensures UsesIn(cs, o) == UsesIn(cs[..n], o) + UsesIn(cs[n..], o)
  {
    assert cs == cs[..n] + cs[n..];
    UsesInConcat(cs[..n], cs[n..], o);
  }

  lemma {:induction false} WalkInUses(es: seq<Entry>, cs: seq<Tree>, k: Id, o: nat)
    requires o in WalkSetIn(es, cs, k)
    ensures UsesIn(cs, o) > 0
    decreases cs, 0
  {
    var i := Search(es, k);
    WalkUses(cs[i], k, o);
    UsesAt(cs, i, o);
  }

  // ----- nodes off the walk

  ghost predicate OffWalk(a: Call, s: State) {
    && (forall o :: o in a.nodes ==> o in s.nodes)
    && (forall o :: o in a.nodes && o !in WalkSet(a.tree, a.id) ==> s.nodes[o] == a.nodes[o])
    && (forall o :: o in WalkSet(s.tree, a.id) ==> o in WalkSet(a.tree, a.id) || o !in a.nodes)
    && (s.ctx.Down? ==> s.ctx.ofs in WalkSet(a.tree, a.id) || s.ctx.ofs !in a.nodes)
  }

  lemma OffStart(a: Call, h: nat)
    ensures OffWalk(a, Start(a, h))
  {
  }

  lemma OffBump(a: Call, s: State, w: Words)
    requires OffWalk(a, s)
    ensures OffWalk(a, Bump(s, w))
  {
    assert s.tree.ofs in WalkSet(s.tree, a.id);
  }

  lemma OffRootSplit(a: Call, s: State, moved: nat, w: Words)
    requires OffWalk(a, s) && moved !in s.nodes
    ensures OffWalk(a, RootSplit(s, moved, w))
  {
    assert s.tree.ofs in WalkSet(s.tree, a.id);
  }

  lemma OffSplit(a: Call, s: State, n: NodeMap, sib: nat)
    requires OffWalk(a, s) && s.ctx.Down? && Full(s.tree) && Splittable(s.ctx, s.tree) && SplitDone(s, n, sib)
    ensures if a.id.hash > s.tree.es[KEYS_MIN].id.hash then OffWalk(a, GoneHigh(s, n, sib))
            else OffWalk(a, GoneLow(s, n, sib))
  {
    hide Held;
    assert s.tree.ofs in WalkSet(s.tree, a.id);
  }

  lemma OffDescend(a: Call, s: State)
    requires OffWalk(a, s) && GoesDown(s.tree, a.id) && Search(s.tree.es, a.id) < |s.tree.cs| && s.height > 0
    ensures OffWalk(a, Descended(s, Search(s.tree.es, a.id)))
  {
    var t, i := s.tree, Search(s.tree.es, a.id);
    assert WalkSet(t, a.id) == {t.ofs} + WalkSet(t.cs[i], a.id);
  }

  // ----- walks that split nothing

  /** Nodes already left, and the one just visited, have one generation more; all others are as they were. */
  ghost predicate Trod(a: Call, s: State, bumped: bool) {
    RoomyWalk(a.tree, a.id) ==>
      && RoomyWalk(s.tree, a.id) && EndOf(s.tree, a.id) == EndOf(a.tree, a.id)
      && s.used == a.used && s.nodes.Keys == a.nodes.Keys
      && forall o :: o in a.nodes ==>
           if o in WalkSet(a.tree, a.id) && (o !in WalkSet(s.tree, a.id) || (bumped && o == s.tree.ofs))
           then Bumped(a.nodes[o], s.nodes[o])
           else s.nodes[o] == a.nodes[o]
  }

  lemma TrodStart(a: Call, h: nat)
    ensures Trod(a, Start(a, h), false)
  {
  }

  lemma TrodBump(a: Call, s: State, w: Words)
    requires Trod(a, s, false) && OffWalk(a, s) && s.tree.ofs in s.nodes && Bumped(s.nodes[s.tree.ofs], w)
    ensures Trod(a, Bump(s, w), true)
  {
    assert s.tree.ofs in WalkSet(s.tree, a.id);
  }

  lemma TrodFull(a: Call, s: State, s': State)
    requires Trod(a, s, true) && Full(s.tree)
    ensures Trod(a, s', false)
  {
  }

  lemma TrodDescend(a: Call, s: State)
    requires Trod(a, s, true) && GoesDown(s.tree, a.id) && Search(s.tree.es, a.id) < |s.tree.cs| && s.height > 0
    requires Held(s.nodes, s.ctx, s.tree)
    ensures Trod(a, Descended(s, Search(s.tree.es, a.id)), false)
  {
    var t, i := s.tree, Search(s.tree.es, a.id);
    assert UsesC(s.ctx, t.ofs) + Uses(t, t.ofs) <= 1;
    UsesAt(t.cs, i, t.ofs);
    if t.ofs in WalkSet(t.cs[i], a.id) { WalkUses(t.cs[i], a.id, t.ofs); }
    hide Held, Bumped;
    assert WalkSet(t, a.id) == {t.ofs} + WalkSet(t.cs[i], a.id);
  }

  // ----- the end

  /** What becomes of the words of the last node: the generation, and the slot of the entry. */
  ghost predicate EndWords(w: Words, p: Place, inPlace: bool, e: Entry, w': Words) {
    exists b: Words :: Bumped(w, b) && EndSlot(b, p, inPlace, e, w')
  }

  ghost predicate EndSlot(b: Words, p: Place, inPlace: bool, e: Entry, w': Words) {
    if inPlace then w' == b
    else if p.found then 0 <= e.kv < U32_LIMIT && exists i :: 0 <= i < SLOTS && KvPut(b, i, e.kv, w')
    else 0 <= e.kv < U32_LIMIT && exists i :: 0 <= i < SLOTS && EntryInserted(b, i, e.id.hash, e.kv, w')
  }

  /** Everything a set does to nodes and to the used size. */
  ghost predicate Trail(a: Call, v: Value, len: nat, n: NodeMap, used: nat, e: Entry) {
    var p := Route(a.tree, a.id);
    var inPlace := InPlace(InOrder(a.tree), p, v);
    && (forall o :: o in a.nodes && o !in WalkSet(a.tree, a.id) ==> o in n && n[o] == a.nodes[o])
    && (RoomyWalk(a.tree, a.id) ==>
         && n.Keys == a.nodes.Keys && used == a.used + (if inPlace then 0 else len)
         && (forall o :: o in a.nodes && o in WalkSet(a.tree, a.id) && o != EndOf(a.tree, a.id) ==>
               Bumped(a.nodes[o], n[o]))
         && EndOf(a.tree, a.id) in a.nodes
         && EndWords(a.nodes[EndOf(a.tree, a.id)], p, inPlace, e, n[EndOf(a.tree, a.id)]))
  }

  lemma PatchSlot(b: Words, p: Place, e: Entry)
    ensures EndSlot(b, p, true, e, b)
  {
  }

  lemma RelinkSlot(b: Words, p: Place, i: nat, e: Entry, w: Words)
    requires p.found && i < SLOTS && e.kv < U32_LIMIT && KvPut(b, i, e.kv, w)
    ensures EndSlot(b, p, false, e, w)
  {
  }

  lemma InsertSlot(b: Words, p: Place, i: nat, e: Entry, w: Words)
    requires !p.found && i < SLOTS && e.kv < U32_LIMIT && EntryInserted(b, i, e.id.hash, e.kv, w)
    ensures EndSlot(b, p, false, e, w)
  {
  }

  lemma TrailEnds(a: Call, s: State, v: Value, len: nat, n: NodeMap, used: nat, e: Entry)
    requires OffWalk(a, s) && Trod(a, s, true) && s.tree.ofs in s.nodes && s.tree.ofs in n
    requires !GoesDown(s.tree, a.id) && !Full(s.tree) && n == s.nodes[s.tree.ofs := n[s.tree.ofs]]
    requires var p := Route(a.tree, a.id); var inPlace := InPlace(InOrder(a.tree), p, v);
             && EndSlot(s.nodes[s.tree.ofs], p, inPlace, e, n[s.tree.ofs])
             && used == s.used + (if inPlace then 0 else len)
    ensures Trail(a, v, len, n, used, e)
  {
    hide Bumped, EndSlot;
    assert s.tree.ofs in WalkSet(s.tree, a.id);
    if RoomyWalk(a.tree, a.id) {
      assert WalkSet(s.tree, a.id) == {s.tree.ofs} && EndOf(s.tree, a.id) == s.tree.ofs;
    }
  }

  // ----- nodes a set adds

  /** The tree and its context, as the hole stands. */
  ghost function Seen(s: State, o: nat): nat {
    UsesC(s.ctx, o) + Uses(s.tree, o)
  }

  /** No node is given up, and the first split of a call puts a node at the next aligned offset. */
  ghost predicate Grown(a: Call, s: State) {
    && (forall o :: Uses(a.tree, o) > 0 ==> Seen(s, o) > 0)
    && if s.used == a.used then RoomyWalk(a.tree, a.id) == RoomyWalk(s.tree, a.id)
       else !RoomyWalk(a.tree, a.id) && Seen(s, AlignUp(a.used)) > 0
  }

  lemma GrownStart(a: Call, h: nat)
    ensures Grown(a, Start(a, h))
  {
  }

  lemma GrownBump(a: Call, s: State, w: Words)
    requires Grown(a, s)
    ensures Grown(a, Bump(s, w))
  {
    assert forall o :: Seen(Bump(s, w), o) == Seen(s, o);
  }

  lemma GrownRootSplit(a: Call, s: State, moved: nat, w: Words)
    requires Grown(a, s) && s.ctx.Top? && Full(s.tree) && moved == AlignUp(s.used) && a.used <= s.used
    ensures Grown(a, RootSplit(s, moved, w))
  {
    var s' := RootSplit(s, moved, w);
    assert forall o :: Seen(s', o) == Seen(s, o) + (if o == moved then 1 else 0);
  }

  lemma GrownSplit(a: Call, s: State, n: NodeMap, sib: nat)
    requires Grown(a, s) && s.ctx.Down? && Full(s.tree) && Splittable(s.ctx, s.tree) && sib == AlignUp(s.used)
             && a.used <= s.used
    ensures Grown(a, GoneLow(s, n, sib)) && Grown(a, GoneHigh(s, n, sib))
  {
    forall o
      ensures Seen(GoneLow(s, n, sib), o) == Seen(s, o) + (if o == sib then 1 else 0)
      ensures Seen(GoneHigh(s, n, sib), o) == Seen(s, o) + (if o == sib then 1 else 0)
    {
      SplitUses(s.ctx, s.tree, sib, o);
    }
  }

  lemma GrownDescend(a: Call, s: State)
    requires Grown(a, s) && GoesDown(s.tree, a.id) && !Full(s.tree) && Search(s.tree.es, a.id) < |s.tree.cs|
             && s.height > 0
    ensures Grown(a, Descended(s, Search(s.tree.es, a.id)))
  {
    var t, i := s.tree, Search(s.tree.es, a.id);
    forall o ensures Seen(Descended(s, i), o) == Seen(s, o) {
      assert t.cs == t.cs[..i] + [t.cs[i]] + t.cs[i + 1..];
      UsesInHole(t.cs[..i], t.cs[i], t.cs[i + 1..], o);
    }
    hide Seen, Search;
  }

  /** What a set adds to the nodes of its tree. */
  ghost predicate Sprawl(a: Call, t: Tree) {
    && (forall o :: Uses(a.tree, o) > 0 ==> Uses(t, o) > 0)
    && (!RoomyWalk(a.tree, a.id) ==> Uses(t, AlignUp(a.used)) > 0)
  }

  lemma GrownEnds(a: Call, s: State, x: Tree)
    requires Grown(a, s) && !GoesDown(s.tree, a.id) && !Full(s.tree) && x.ofs == s.tree.ofs && x.cs == s.tree.cs
    ensures Sprawl(a, Plug(s.ctx, x))
    ensures s.used == a.used <==> RoomyWalk(a.tree, a.id)
  {
    forall o ensures Uses(Plug(s.ctx, x), o) == Seen(s, o) { PlugUses(s.ctx, x, o); }
  }

  /** A leaf with room stays a leaf. */
  lemma LeafStays(a: Call, recs: RecMap, isArr: bool, v: Value, len: nat, out: Outcome, used: nat)
    requires Achieved(a, recs, isArr, v, out) && Trail(a, v, len, out.nodes, used, out.entry)
    requires a.tree.cs == [] && !Full(a.tree)
    ensures out.tree.cs == []
  {
    assert RoomyWalk(a.tree, a.id);
    assert forall o :: Uses(a.tree, o) == if o == a.tree.ofs then 1 else 0;
    if out.tree.cs != [] {
      var o := SecondNode(out.nodes, out.tree);
    }
  }

  lemma SecondNode(nodes: NodeMap, t: Tree) returns (o: nat)
    requires Held(nodes, Top, t) && t.cs != []
    ensures Uses(t, o) > 0 && o != t.ofs && o in nodes
  {
    o := t.cs[0].ofs;
    UsesAt(t.cs, 0, o);
    assert Uses(t.cs[0], o) > 0;
    HeldUses(nodes, Top, t, o);
    assert UsesC(Top, o) + Uses(t, o) <= 1;
  }

  /** Where the record of a set is: the old one, or the last one in the buffer. */
  ghost predicate RecordAt(t: Tree, k: Id, v: Value, used: nat, e: Entry, end: nat, used': nat) {
    var p := Route(t, k);
    if InPlace(InOrder(t), p, v) then e.kv == InOrder(t)[p.pos].kv
    else end == used' && (RoomyWalk(t, k) ==> e.kv == used)
  }

  lemma RecordStands(a: Call, recs: RecMap, isArr: bool, v: Value, len: nat, out: Outcome, used: nat)
    requires Achieved(a, recs, isArr, v, out) && Trail(a, v, len, out.nodes, used, out.entry)
    requires !InPlace(InOrder(a.tree), Route(a.tree, a.id), v) ==> out.entry.kv + len == used
    ensures RecordAt(a.tree, a.id, v, a.used, out.entry, out.entry.kv + len, used)
  {
  }
}
