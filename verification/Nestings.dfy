/**
 set_obj and set_arr put the root of the nested tree right behind its record, wherever that is. Where nothing that is
 still needed lies there, the tree is as good as a new one. Otherwise the bytes no longer hold all the trees.
 */
module Nestings {
  import opened Bytes
  import opened Records
  import opened Nodes
  import opened Layout
  import opened Order
  import opened Trees
  import opened Routes
  import opened Zipper
  import opened Steps
  import opened Turns
  import opened Refinement
  import opened Trails
  import opened Forests

  /** What a caller can look at before a call: the bytes and the trees in them. */
  datatype World = World(data: seq<Byte>, used: nat, forest: Forest)

  ghost predicate EntryClear(isArr: bool, e: Entry, n: nat) {
    LinkOf(isArr, e) <= n || n + NODE_SIZE <= e.kv
  }

  /** The tree has neither a node nor a record in the 96 bytes from n on. */
  ghost predicate TreeClear(r: Root, n: nat) {
    && (forall o :: Uses(r.tree, o) > 0 ==> Misses(o, NODE_SIZE, n))
    && (forall i :: 0 <= i < |InOrder(r.tree)| ==> EntryClear(r.isArr, InOrder(r.tree)[i], n))
  }

  /** No tree has, but for the one whose root is at n. */
  ghost predicate Vacant(f: Forest, n: nat) {
    forall r :: r in f && r != n ==> TreeClear(f[r], n)
  }

  /** What was in use of the 8 bytes that are not cleared is as it was. */
  ghost predicate SameBytes(w: World, n: nat, data: seq<Byte>) {
    forall i: nat :: n + NODE_SIZE - 8 <= i < n + NODE_SIZE && i < w.used ==> ByteAt(data, i) == ByteAt(w.data, i)
  }

  /** The nested value is patched over another value of one byte: a Null, an object or an array. */
  ghost predicate Reuses(t: Tree, k: Id) {
    InPlace(InOrder(t), Route(t, k), Nested(false))
  }

  /** Where the record of k ends. */
  ghost function EndOfRecord(t: Tree, k: Id): nat
    requires Reuses(t, k)
  {
    LinkOf(false, InOrder(t)[Route(t, k).pos])
  }

  /**
   Whether the root of a nested tree can be put behind the record of k without harm to what is there. A new record has
   the free bytes behind it. A patched one has not: what follows it must belong to no other tree, and no node that is
   split off during the call may come to lie there.
   */
  ghost predicate HasRoom(w: World, ofs: nat, k: Id)
    requires ofs in w.forest
  {
    var t := w.forest[ofs].tree;
    Reuses(t, k) ==>
      var n := EndOfRecord(t, k);
      Vacant(w.forest, n) && (RoomyWalk(t, k) || n + NODE_SIZE <= AlignUp(w.used))
  }

  /** And whether it is an empty root then: the last 8 of its 96 bytes must be zero, as they are not cleared. */
  ghost predicate HasPlace(w: World, ofs: nat, k: Id)
    requires ofs in w.forest
  {
    var t := w.forest[ofs].tree;
    HasRoom(w, ofs, k) && (Reuses(t, k) ==> TailUnset(w.data, EndOfRecord(t, k)))
  }

  /** A new record has the free bytes behind it. */
  lemma PlaceUnlessReused(w: World, ofs: nat, k: Id)
    requires ofs in w.forest && !Reuses(w.forest[ofs].tree, k)
    ensures HasPlace(w, ofs, k)
  {
  }

  lemma RoomWhereReused(w: World, ofs: nat, k: Id)
    requires ofs in w.forest && Reuses(w.forest[ofs].tree, k) && HasRoom(w, ofs, k)
    ensures var t, n := w.forest[ofs].tree, EndOfRecord(w.forest[ofs].tree, k);
            Vacant(w.forest, n) && (RoomyWalk(t, k) || n + NODE_SIZE <= AlignUp(w.used))
    ensures HasPlace(w, ofs, k) <==> TailUnset(w.data, EndOfRecord(w.forest[ofs].tree, k))
  {
  }

  lemma PlaceIsRoom(w: World, ofs: nat, k: Id)
    requires ofs in w.forest && HasPlace(w, ofs, k)
    ensures HasRoom(w, ofs, k)
  {
  }

  /** The bytes can be read so that all the trees are there. */
  ghost predicate Legible(data: seq<Byte>, used: nat, f: Forest) {
    exists nodes: NodeMap, recs: RecMap ::
      ValidRecs(recs) && Image(data, used, nodes, Raw(recs)) && Planted(nodes, recs, f)
  }

  // ----- giving up what lies there

  lemma VacateRooted(nodes: NodeMap, recs: RecMap, r: Root, n: nat)
    requires Rooted(nodes, recs, r) && TreeClear(r, n)
    ensures Rooted(NodesOff(nodes, n), RecsOff(recs, n), r)
  {
    var nodes', s := NodesOff(nodes, n), InOrder(r.tree);
    forall o | Uses(r.tree, o) > 0 ensures SameAt(nodes, nodes', o) {
      UsesNodes(nodes, recs, r, o);
    }
    RepFrame(nodes, nodes', r.tree);
    assert Uses(r.tree, r.tree.ofs) > 0;
    forall i | 0 <= i < |s| ensures Backed(RecsOff(recs, n), r.isArr, s[i]) {
      assert Backed(recs, r.isArr, s[i]) && EntryClear(r.isArr, s[i], n);
    }
  }

  lemma VacatePlanted(nodes: NodeMap, recs: RecMap, f: Forest, n: nat)
    requires Planted(nodes, recs, f) && Vacant(f, n)
    ensures Planted(NodesOff(nodes, n), RecsOff(recs, n), f - {n})
  {
    hide Rooted, Apart, TreeClear, NodesOff, RecsOff;
    forall r | r in f && r != n ensures Rooted(NodesOff(nodes, n), RecsOff(recs, n), f[r]) {
      VacateRooted(nodes, recs, f[r], n);
    }
  }

  /** What lay behind the record of k has been given up, if no other tree has anything there. */
  ghost predicate Freed(w: World, t: Tree, k: Id, nodes0: NodeMap, recs0: RecMap, spare0: RawMap,
                        nodes: NodeMap, recs: RecMap, spare: RawMap, f: Forest) {
    w.used <= |w.data| &&
    if Reuses(t, k) && Vacant(w.forest, EndOfRecord(t, k)) then
      var n := EndOfRecord(t, k);
      && nodes == NodesOff(nodes0, n) && recs == RecsOff(recs0, n)
      && spare == SpareAt(w.data, w.used, recs0, spare0, n) && f == w.forest - {n}
    else nodes == nodes0 && recs == recs0 && spare == spare0 && f == w.forest
  }

  lemma OffMisses(nodes: NodeMap, recs: RecMap, n: nat)
    ensures forall o :: o in NodesOff(nodes, n) ==> Misses(o, NODE_SIZE, n)
    ensures n !in RecsOff(recs, n)
    ensures forall o :: o in RecsOff(recs, n) ==> Misses(o, RecLen(RecsOff(recs, n)[o]), n)
  {
    assert n in recs ==> !Misses(n, RecLen(recs[n]), n);
  }

  // ----- room for the root

  lemma FreshRoom(data: seq<Byte>, used: nat, nodes: NodeMap, recs: RecMap, spare: RawMap)
    requires ValidRecs(recs) && Image(data, used, nodes, All(recs, spare))
    ensures RootRoom(nodes, recs, used) && TailUnset(data, used)
  {
    TailZero(data, used, nodes, All(recs, spare));
    forall o | o in recs ensures Misses(o, RecLen(recs[o]), used) {
      RecRange(data, used, nodes, recs, spare, o);
    }
  }

  /** The record lies in the used part and behind the root of its tree. */
  lemma RecordEnds(data: seq<Byte>, used: nat, nodes: NodeMap, recs: RecMap, spare: RawMap, f: Forest, ofs: nat, k: Id)
    requires ValidRecs(recs) && Image(data, used, nodes, All(recs, spare)) && Planted(nodes, recs, f)
    requires ofs in f && !f[ofs].isArr && Reuses(f[ofs].tree, k)
    ensures ofs < EndOfRecord(f[ofs].tree, k) <= used
  {
    var i := Route(f[ofs].tree, k).pos;
    RootFacts(nodes, recs, f, ofs);
    EntryBacked(nodes, recs, f, ofs, i);
    RecRange(data, used, nodes, recs, spare, InOrder(f[ofs].tree)[i].kv);
  }

  /** A set that patches a record: the record ends where it ended, and no record moves. */
  lemma PatchedEnd(a: Call, recs: RecMap, isArr: bool, out: Outcome)
    requires Achieved(a, recs, false, Nested(isArr), out) && Reuses(a.tree, a.id)
    requires AllBacked(recs, false, InOrder(a.tree))
    ensures LinkOf(false, out.entry) == EndOfRecord(a.tree, a.id)
    ensures out.recs.Keys == recs.Keys && forall o :: o in recs ==> RecLen(out.recs[o]) == RecLen(recs[o])
  {
    assert Backed(recs, false, InOrder(a.tree)[Route(a.tree, a.id).pos]);
  }

  lemma ReusesAny(t: Tree, k: Id, isArr: bool)
    ensures Reuses(t, k) <==> InPlace(InOrder(t), Route(t, k), Nested(isArr))
  {
  }

  lemma TailKept(w: World, recs: RecMap, spare: RawMap, n: nat, skipped: bool,
                 data: seq<Byte>, used: nat, nodes: NodeMap, recs': RecMap, spare': RawMap)
    requires w.used <= |w.data| && Watched(SpareAt(w.data, w.used, recs, spare, n), w.used, skipped, spare')
    requires ValidRecs(recs') && Image(data, used, nodes, All(recs', spare')) && n !in recs'
    ensures SameBytes(w, n, data)
  {
    var hi := if w.used < n + NODE_SIZE then w.used else n + NODE_SIZE;
    if n < hi {
      assert spare'[n] == w.data[n..hi];
      assert n in All(recs', spare') && All(recs', spare')[n] == w.data[n..hi];
      assert data[n..n + (hi - n)] == w.data[n..hi];
      forall i | n <= i < hi ensures data[i] == w.data[i] {
        assert data[n..hi][i - n] == w.data[n..hi][i - n];
      }
    }
  }

  lemma TailRooted(w: World, n: nat, data: seq<Byte>, word: U32, data': seq<Byte>)
    requires SameBytes(w, n, data) && RootBytes(data, n, word, data')
    ensures SameBytes(w, n, data')
  {
    forall i: nat | n + NODE_SIZE - 8 <= i < n + NODE_SIZE && i < w.used
      ensures ByteAt(data', i) == ByteAt(w.data, i)
    {
      assert ByteAt(data', i) == ByteAt(data, i);
    }
  }

  /** The bytes that were skipped for alignment are zero. */
  lemma SkippedZero(spare0: RawMap, used0: nat, data: seq<Byte>, used: nat, nodes: NodeMap, recs: RecMap, spare: RawMap)
    requires Watched(spare0, used0, true, spare) && used0 !in recs
    requires ValidRecs(recs) && Image(data, used, nodes, All(recs, spare))
    ensures forall i :: used0 <= i < AlignUp(used0) ==> i < |data| && data[i] == 0
  {
    if used0 < AlignUp(used0) {
      var z := Zeros(AlignUp(used0) - used0);
      assert All(recs, spare)[used0] == z;
      assert data[used0..used0 + |z|] == z;
      forall i | used0 <= i < AlignUp(used0) ensures data[i] == 0 {
        assert data[used0..used0 + |z|][i - used0] == z[i - used0];
      }
    }
  }

  /** Where a patched record leaves room for a root, it still does after the set. */
  lemma ReusedRoom(w: World, recs: RecMap, spare: RawMap, a: Call, c: RecMap, isArr: bool, out: Outcome, n: nat,
                   len: nat, data: seq<Byte>, used: nat, spare': RawMap)
    requires w.used <= |w.data| && a.used == w.used && w.used !in c && n !in c
    requires forall o :: o in a.nodes ==> Misses(o, NODE_SIZE, n)
    requires forall o :: o in c ==> Misses(o, RecLen(c[o]), n)
    requires AllBacked(c, false, InOrder(a.tree)) && Reuses(a.tree, a.id)
    requires Achieved(a, c, false, Nested(isArr), out)
    requires Trail(a, Nested(isArr), len, out.nodes, used, out.entry)
    requires Watched(SpareAt(w.data, w.used, recs, spare, n), w.used, !RoomyWalk(a.tree, a.id), spare')
    requires ValidRecs(out.recs) && Image(data, used, out.nodes, All(out.recs, spare'))
    requires RoomyWalk(a.tree, a.id) || n + NODE_SIZE <= AlignUp(w.used)
    ensures RootRoom(out.nodes, out.recs, n) && SameBytes(w, n, data) && (TailUnset(w.data, n) ==> TailUnset(data, n))
  {
    hide Achieved, Trail, Image, All, RoomyWalk, SpareAt, Nested, AllBacked, Reuses, Watched, ValidRecs, RecLen,
         InPlace, InOrder;
    PatchedEnd(a, c, isArr, out);
    ReusesAny(a.tree, a.id, isArr);
    NewNodes(a, c, Nested(isArr), len, out, used);
    TailKept(w, recs, spare, n, !RoomyWalk(a.tree, a.id), data, used, out.nodes, out.recs, spare');
    TailZero(data, used, out.nodes, All(out.recs, spare'));
    if !RoomyWalk(a.tree, a.id) {
      SkippedZero(SpareAt(w.data, w.used, recs, spare, n), w.used, data, used, out.nodes, out.recs, spare');
    }
    forall o | o in out.nodes ensures Misses(o, NODE_SIZE, n) {
    }
    forall o | o in out.recs ensures Misses(o, RecLen(out.recs[o]), n) {
      assert o in c;
    }
    if TailUnset(w.data, n) {
      forall i | n + NODE_SIZE - 8 <= i < n + NODE_SIZE && i < |data| ensures data[i] == 0 {
        if i < w.used { assert ByteAt(data, i) == ByteAt(w.data, i); }
      }
    }
  }

  /** A patch on a walk without a split leaves the nodes where they are; a split adds nodes past the aligned end. */
  lemma NewNodes(a: Call, recs: RecMap, v: Value, len: nat, out: Outcome, used: nat)
    requires Achieved(a, recs, false, v, out) && InPlace(InOrder(a.tree), Route(a.tree, a.id), v)
    requires Trail(a, v, len, out.nodes, used, out.entry)
    ensures forall o :: o in out.nodes && o !in a.nodes ==> !RoomyWalk(a.tree, a.id) && AlignUp(a.used) <= o
    ensures RoomyWalk(a.tree, a.id) ==> used == a.used
  {
  }

  /** What the set of the record leaves behind it, whether there is a place for the root or not. */
  lemma RoomBehind(w: World, nodes: NodeMap, recs: RecMap, spare: RawMap, a: Call, c: RecMap, spare1: RawMap,
                   f1: Forest, isArr: bool, out: Outcome, n: nat, len: nat, data: seq<Byte>, used: nat, spare': RawMap)
    requires Freed(w, a.tree, a.id, nodes, recs, spare, a.nodes, c, spare1, f1)
    requires a.tree.ofs in w.forest && w.forest[a.tree.ofs].tree == a.tree && a.used == w.used && w.used !in c
    requires AllBacked(c, false, InOrder(a.tree)) && Achieved(a, c, false, Nested(isArr), out)
    requires n == LinkOf(false, out.entry) && (!Reuses(a.tree, a.id) ==> n == used)
    requires Watched(spare1, w.used, !RoomyWalk(a.tree, a.id), spare')
    requires Trail(a, Nested(isArr), len, out.nodes, used, out.entry)
    requires ValidRecs(out.recs) && Image(data, used, out.nodes, All(out.recs, spare'))
    ensures HasRoom(w, a.tree.ofs, a.id) ==> f1 == if Reuses(a.tree, a.id) then w.forest - {n} else w.forest
    ensures HasRoom(w, a.tree.ofs, a.id) ==> RootRoom(out.nodes, out.recs, n)
    ensures HasPlace(w, a.tree.ofs, a.id) ==> HasRoom(w, a.tree.ofs, a.id) && TailUnset(data, n)
    ensures Reuses(a.tree, a.id) ==> n == EndOfRecord(a.tree, a.id) && (Vacant(w.forest, n) ==> SameBytes(w, n, data))
    ensures Reuses(a.tree, a.id) && HasRoom(w, a.tree.ofs, a.id) ==> Vacant(w.forest, n)
    ensures !HasPlace(w, a.tree.ofs, a.id) ==> Reuses(a.tree, a.id)
  {
    hide Achieved, Trail, Image, All, RoomyWalk, SpareAt, Nested, AllBacked, Reuses, Vacant, TailUnset,
         EndOfRecord, Watched, RootRoom, SameBytes, LinkOf, ValidRecs, HasPlace, HasRoom, NodesOff, RecsOff,
         Misses;
    if HasPlace(w, a.tree.ofs, a.id) { PlaceIsRoom(w, a.tree.ofs, a.id); }
    if Reuses(a.tree, a.id) {
      PatchedEnd(a, c, isArr, out);
      OffMisses(nodes, recs, n);
      if HasRoom(w, a.tree.ofs, a.id) {
        RoomWhereReused(w, a.tree.ofs, a.id);
        ReusedRoom(w, recs, spare, a, c, isArr, out, n, len, data, used, spare');
      } else if Vacant(w.forest, n) {
        TailKept(w, recs, spare, n, !RoomyWalk(a.tree, a.id), data, used, out.nodes, out.recs, spare');
      }
    } else {
      PlaceUnlessReused(w, a.tree.ofs, a.id);
      PlaceIsRoom(w, a.tree.ofs, a.id);
      FreshRoom(data, used, out.nodes, out.recs, spare');
    }
  }

  // ----- what is left where there was room

  /**
   What set_obj and set_arr make of nodes and records where there is room: the root they put there keeps the last two
   child slots of a root that was there before, and what is neither in its 96 bytes nor of the tree that was set is as
   it was.
   */
  ghost predicate Refilled(nodes: NodeMap, recs: RecMap, t: Tree, n: nat, kv: nat, isArr: bool,
                           nodes': NodeMap, recs': RecMap) {
    && n in nodes' && TypeCode(nodes'[n]) == Code(if isArr then Array else Object) && nodes'[n][SIZE_KC] == 0
    && (forall i :: 0 <= i < SLOTS - 1 ==> ChildAt(nodes'[n], i) == 0)
    && (n in nodes ==> forall i :: SLOTS - 1 <= i <= SLOTS ==> ChildAt(nodes'[n], i) == ChildAt(nodes[n], i))
    && (forall o :: o in nodes && Misses(o, NODE_SIZE, n) && Uses(t, o) == 0 ==> o in nodes' && nodes'[o] == nodes[o])
    && (forall o :: o in recs && Misses(o, RecLen(recs[o]), n) && o != kv ==> o in recs' && recs'[o] == recs[o])
  }

  lemma OffKeeps(nodes: NodeMap, recs: RecMap, n: nat)
    ensures forall o :: o in nodes && Misses(o, NODE_SIZE, n) ==>
              o in NodesOff(nodes, n) && NodesOff(nodes, n)[o] == nodes[o]
    ensures forall o :: o in recs && Misses(o, RecLen(recs[o]), n) ==>
              o in RecsOff(recs, n) && RecsOff(recs, n)[o] == recs[o]
  {
  }

  lemma RefilledBy(w: World, nodes: NodeMap, recs: RecMap, spare: RawMap, a: Call, c: RecMap, isArr: bool, out: Outcome,
                   n: nat, data: seq<Byte>)
    requires ValidRecs(recs) && Image(w.data, w.used, nodes, All(recs, spare))
    requires n in nodes ==> SameBytes(w, n, data)
    requires forall o :: o in nodes && Misses(o, NODE_SIZE, n) ==> o in a.nodes && a.nodes[o] == nodes[o]
    requires forall o :: o in recs && Misses(o, RecLen(recs[o]), n) ==> o in c && c[o] == recs[o]
    requires Achieved(a, c, false, Nested(isArr), out) && n !in out.nodes
    ensures var word := RootWord(isArr);
            Refilled(nodes, recs, a.tree, n, out.entry.kv, isArr, out.nodes[n := RootLeft(data, n, word)], out.recs)
  {
    AchievedKeeps(a, c, isArr, out);
    hide Achieved, Nested;
    if n in nodes { KeptChildren(w, nodes, recs, spare, n, data); }
  }

  lemma RefilledWhere(w: World, nodes: NodeMap, recs: RecMap, spare: RawMap, a: Call, c: RecMap, spare1: RawMap,
                      f1: Forest, isArr: bool, out: Outcome, n: nat, data: seq<Byte>)
    requires ValidRecs(recs) && Image(w.data, w.used, nodes, All(recs, spare))
    requires Freed(w, a.tree, a.id, nodes, recs, spare, a.nodes, c, spare1, f1)
    requires a.tree.ofs in w.forest && w.forest[a.tree.ofs].tree == a.tree && HasRoom(w, a.tree.ofs, a.id)
    requires if Reuses(a.tree, a.id) then
               n == EndOfRecord(a.tree, a.id) && (Vacant(w.forest, n) ==> SameBytes(w, n, data))
             else w.used <= n
    requires Achieved(a, c, false, Nested(isArr), out) && n !in out.nodes
    ensures var word := RootWord(isArr);
            Refilled(nodes, recs, a.tree, n, out.entry.kv, isArr, out.nodes[n := RootLeft(data, n, word)], out.recs)
  {
    hide All, Image, ValidRecs, Achieved, HasRoom, Reuses, EndOfRecord, Vacant, SameBytes, NodesOff, RecsOff,
         Refilled, RootLeft, Nested, Misses;
    if Reuses(a.tree, a.id) {
      RoomWhereReused(w, a.tree.ofs, a.id);
    } else {
      UnusedOffset(w.data, w.used, nodes, recs, spare, n);
    }
    OffKeeps(nodes, recs, n);
    RefilledBy(w, nodes, recs, spare, a, c, isArr, out, n, data);
  }

  lemma AchievedKeeps(a: Call, c: RecMap, isArr: bool, out: Outcome)
    requires Achieved(a, c, false, Nested(isArr), out)
    ensures forall o :: o in a.nodes && Uses(a.tree, o) == 0 ==> o in out.nodes && out.nodes[o] == a.nodes[o]
    ensures forall o :: o in c && o != out.entry.kv ==> o in out.recs && out.recs[o] == c[o]
  {
  }

  lemma KeptChildren(w: World, nodes: NodeMap, recs: RecMap, spare: RawMap, n: nat, data: seq<Byte>)
    requires ValidRecs(recs) && Image(w.data, w.used, nodes, All(recs, spare)) && n in nodes && SameBytes(w, n, data)
    ensures LooseWord(data, n + NODE_SIZE - 8) == ChildAt(nodes[n], SLOTS - 1)
    ensures LooseWord(data, n + NODE_SIZE - 4) == ChildAt(nodes[n], SLOTS)
  {
    assert n + NODE_SIZE <= w.used <= |w.data|;
    assert WordAt(w.data, n + 4 * (CHILD_OFS + SLOTS - 1)) == nodes[n][CHILD_OFS + SLOTS - 1];
    assert WordAt(w.data, n + 4 * (CHILD_OFS + SLOTS)) == nodes[n][CHILD_OFS + SLOTS];
    hide Image, All, ValidRecs;
    LooseSame(w, n, data, n + NODE_SIZE - 8);
    LooseSame(w, n, data, n + NODE_SIZE - 4);
  }

  lemma LooseSame(w: World, n: nat, data: seq<Byte>, at: nat)
    requires SameBytes(w, n, data) && n + NODE_SIZE - 8 <= at <= n + NODE_SIZE - 4
    requires n + NODE_SIZE <= w.used <= |w.data|
    ensures LooseWord(data, at) == WordAt(w.data, at)
  {
    LooseAt(w.data, at);
    assert forall i: nat :: at <= i < at + 4 ==> ByteAt(data, i) == ByteAt(w.data, i);
  }

  // ----- the trees once the root is there

  /** Records do not overlap, so only the entry itself names the new tree. */
  lemma NestedLinked(a: Call, recs: RecMap, f: Forest, f1: Forest, out: Outcome, n: nat, isArr: bool, inArr: bool,
                     data: seq<Byte>, used: nat, spare: RawMap)
    requires ValidRecs(out.recs) && Image(data, used, out.nodes, All(out.recs, spare))
    requires Linked(f) && a.tree.ofs in f && f[a.tree.ofs].tree == a.tree && f[a.tree.ofs].isArr == inArr
    requires f1 == f - {n} && n != a.tree.ofs
    requires Achieved(a, recs, inArr, Nested(isArr), out) && n == LinkOf(inArr, out.entry)
    requires Planted(out.nodes, out.recs, LandedForest(f1, a.tree.ofs, out))
    ensures Linked(LandedForest(f, a.tree.ofs, out)[n := EmptyRoot(n, isArr)])
  {
    hide Planted, Achieved, All, Image, Laid, Raw, LinkOf, InOrder, Nested, SetLands, ValidRecs, Linked, Route,
         Landed;
    var p, ofs := Route(a.tree, a.id), a.tree.ofs;
    var g1: Forest, g: Forest := LandedForest(f1, ofs, out), LandedForest(f, ofs, out)[n := EmptyRoot(n, isArr)];
    RecsImage(data, used, out.nodes, out.recs, spare);
    AchievedLands(a, recs, inArr, Nested(isArr), out);
    LandsAt(a.tree, a.id, Nested(isArr), out.entry, out.tree);
    NestedType(isArr);
    EmptyRun(n);
    LinkedAfter(f, g1, g, ofs, p, a.tree, out.entry, n, out.nodes, out.recs, used);
  }

  lemma EmptyRun(n: nat)
    ensures InOrder(Node(n, [], [])) == []
  {
  }

  lemma LinkedAfter(f: Forest, g1: Forest, g: Forest, ofs: nat, p: Place, t: Tree, e: Entry, n: nat,
                    nodes: NodeMap, recs: RecMap, used: nat)
    requires Linked(f) && ofs in f && f[ofs].tree == t && ofs != n
    requires g.Keys == f.Keys + {n} && g[ofs].isArr == f[ofs].isArr
    requires forall q :: q in f && q != ofs && q != n ==> g[q] == f[q]
    requires forall q :: q in g && q != n ==> q in g1 && g1[q] == g[q]
    requires ValidRecs(recs) && Laid(used, nodes, Raw(recs)) && Planted(nodes, recs, g1)
    requires p.pos <= |InOrder(t)| && (p.found ==> p.pos < |InOrder(t)|)
    requires InOrder(g[ofs].tree) == Landed(InOrder(t), p, e) && p.pos < |InOrder(g[ofs].tree)|
             && InOrder(g[ofs].tree)[p.pos] == e
    requires InOrder(g[n].tree) == [] && LinkOf(g[ofs].isArr, e) == n && g[n].isArr == (e.val.typ == Array)
    ensures Linked(g)
  {
    hide Planted, Laid, Raw, LinkOf, InOrder, ValidRecs, LinkedTo, Landed;
    forall r, i | r in g && 0 <= i < |InOrder(g[r].tree)|
      ensures LinkedTo(g, g[r].isArr, InOrder(g[r].tree)[i])
    {
      if LinkOf(g[r].isArr, InOrder(g[r].tree)[i]) == n {
        NamedAlone(nodes, recs, used, g1, ofs, p.pos, r, i);
        LinkHere(g, g[ofs].isArr, e, n);
      } else {
        EntryBefore(f, ofs, e, p, t, g, n, r, i);
      }
    }
  }

  lemma LinkHere(g: Forest, isArr: bool, e: Entry, n: nat)
    requires n in g && LinkOf(isArr, e) == n && g[n].isArr == (e.val.typ == Array)
    ensures LinkedTo(g, isArr, e)
  {
  }

  lemma LandsAt(t: Tree, k: Id, v: Value, e: Entry, t1: Tree)
    requires SetLands(t, k, v, e, t1)
    ensures var p := Route(t, k);
            && p.pos <= |InOrder(t)| && (p.found ==> p.pos < |InOrder(t)|)
            && InOrder(t1) == Landed(InOrder(t), p, e) && p.pos < |InOrder(t1)| && InOrder(t1)[p.pos] == e
  {
  }

  /** No two entries have records that end at the same offset. */
  lemma NamedAlone(nodes: NodeMap, recs: RecMap, used: nat, f: Forest, q: nat, j: nat, r: nat, i: nat)
    requires ValidRecs(recs) && Laid(used, nodes, Raw(recs)) && Planted(nodes, recs, f)
    requires q in f && j < |InOrder(f[q].tree)| && r in f && i < |InOrder(f[r].tree)|
    requires LinkOf(f[q].isArr, InOrder(f[q].tree)[j]) == LinkOf(f[r].isArr, InOrder(f[r].tree)[i])
    ensures q == r && i == j
  {
    hide LinkOf, Raw, Laid, InOrder, Planted;
    EntryBacked(nodes, recs, f, q, j);
    EntryBacked(nodes, recs, f, r, i);
    LinksApart(used, nodes, recs, f[q].isArr, InOrder(f[q].tree)[j], f[r].isArr, InOrder(f[r].tree)[i]);
    OwnKv(nodes, recs, f, q, j, r, i);
  }

  /** An entry that does not name n was linked before, and still is. */
  lemma EntryBefore(f: Forest, ofs: nat, e0: Entry, p: Place, t: Tree, g: Forest, n: nat, r: nat, i: nat)
    requires Linked(f) && ofs in f && f[ofs].tree == t && r in g && i < |InOrder(g[r].tree)| && r != n && ofs != n
    requires g.Keys == f.Keys + {n} && g[ofs].isArr == f[ofs].isArr
    requires forall q :: q in f && q != ofs && q != n ==> g[q] == f[q]
    requires p.pos <= |InOrder(t)| && (p.found ==> p.pos < |InOrder(t)|)
    requires InOrder(g[ofs].tree) == Landed(InOrder(t), p, e0)
    requires LinkOf(f[ofs].isArr, e0) == n && LinkOf(g[r].isArr, InOrder(g[r].tree)[i]) != n
    ensures LinkedTo(g, g[r].isArr, InOrder(g[r].tree)[i])
  {
    var e := InOrder(g[r].tree)[i];
    if r == ofs {
      LandedMember(InOrder(t), p, e0, i);
      var j :| 0 <= j < |InOrder(t)| && e == InOrder(t)[j];
      assert LinkedTo(f, f[ofs].isArr, InOrder(f[ofs].tree)[j]);
    } else {
      assert LinkedTo(f, f[r].isArr, InOrder(f[r].tree)[i]);
    }
  }

  lemma RecsImage(data: seq<Byte>, used: nat, nodes: NodeMap, recs: RecMap, spare: RawMap)
    requires ValidRecs(recs) && Image(data, used, nodes, All(recs, spare))
    ensures Image(data, used, nodes, Raw(recs)) && Laid(used, nodes, Raw(recs))
  {
    SubImage(data, used, nodes, All(recs, spare), nodes, Raw(recs));
  }

  lemma NestedType(isArr: bool)
    ensures Nested(isArr).typ == if isArr then Array else Object
  {
  }

  // ----- where there is no place

  /** A root in the bytes keeps all other trees away from its 96 bytes. */
  lemma RootAlone(data: seq<Byte>, used: nat, nodes: NodeMap, recs: RecMap, g: Forest, n: nat, r: nat)
    requires ValidRecs(recs) && Image(data, used, nodes, Raw(recs)) && Planted(nodes, recs, g)
    requires n in g && r in g && r != n
    ensures TreeClear(g[r], n)
  {
    var t, isArr := g[r].tree, g[r].isArr;
    RootFacts(nodes, recs, g, n);
    RootFacts(nodes, recs, g, r);
    assert Uses(g[n].tree, n) > 0;
    assert Apart(t, g[n].tree);
    hide Planted, Rooted, Owned, TreeShape;
    forall o | Uses(t, o) > 0 ensures Misses(o, NODE_SIZE, n) {
      UsesNodes(nodes, recs, g[r], o);
    }
    forall i | 0 <= i < |InOrder(t)| ensures EntryClear(isArr, InOrder(t)[i], n) {
      var e := InOrder(t)[i];
      EntryBacked(nodes, recs, g, r, i);
      assert |Raw(recs)[e.kv]| == RecLen(recs[e.kv]);
    }
  }

  /** The words of an empty root are zero from the second on. */
  lemma EmptyTail(data: seq<Byte>, used: nat, nodes: NodeMap, recs: RecMap, g: Forest, n: nat, isArr: bool)
    requires ValidRecs(recs) && Image(data, used, nodes, Raw(recs)) && Planted(nodes, recs, g)
    requires n in g && g[n] == EmptyRoot(n, isArr)
    ensures TailUnset(data, n)
  {
    RootFacts(nodes, recs, g, n);
    hide Planted, Rooted, Raw, ValidRecs;
    assert Holds(nodes[n], [], []);
    assert ChildAt(nodes[n], SLOTS - 1) == 0 && ChildAt(nodes[n], SLOTS) == 0;
    hide Owned;
    var at := n + NODE_SIZE - 8;
    assert WordAt(data, n + 4 * (CHILD_OFS + SLOTS - 1)) == 0 && WordAt(data, n + 4 * (CHILD_OFS + SLOTS)) == 0;
    ZeroWord(data, at);
    ZeroWord(data, at + 4);
  }

  lemma ZeroWord(data: seq<Byte>, at: nat)
    requires at + 4 <= |data| && WordAt(data, at) == 0
    ensures forall i :: at <= i < at + 4 ==> data[i] == 0
  {
    var b := data[at..at + 4];
    assert forall j :: 0 <= j < 4 ==> b[j] == data[at + j];
  }

  /** If the bytes after the call hold all the trees there was a place before it. */
  lemma PlaceNeeded(w: World, a: Call, v: Value, e: Entry, t1: Tree, h1: nat, n: nat, isArr: bool, data: seq<Byte>,
                    used: nat)
    requires a.tree.ofs in w.forest && w.forest[a.tree.ofs].tree == a.tree && !w.forest[a.tree.ofs].isArr
    requires a.used == w.used && n <= a.used && n != a.tree.ofs
             && (Reuses(a.tree, a.id) ==> n == EndOfRecord(a.tree, a.id))
    requires SetLands(a.tree, a.id, v, e, t1) && Sprawl(a, t1)
    requires Vacant(w.forest, n) ==> SameBytes(w, n, data)
    requires ZeroTail(w.data, w.used)
    requires Legible(data, used, w.forest[a.tree.ofs := Root(false, t1, h1)][n := EmptyRoot(n, isArr)])
    ensures HasPlace(w, a.tree.ofs, a.id)
  {
    hide Vacant, TailUnset, RoomyWalk, Sprawl, SetLands, ZeroTail, Legible, Reuses, EndOfRecord;
    if Reuses(a.tree, a.id) {
      WantedClear(w.forest, a, v, e, t1, h1, n, isArr, data, used);
      UnsetBefore(w, n, data);
      AlignedClear(a, t1, h1, n);
    }
  }

  lemma WantedClear(f: Forest, a: Call, v: Value, e: Entry, t1: Tree, h1: nat, n: nat, isArr: bool, data: seq<Byte>,
                    used: nat)
    requires a.tree.ofs in f && f[a.tree.ofs].tree == a.tree && !f[a.tree.ofs].isArr
    requires n != a.tree.ofs && Reuses(a.tree, a.id) && n == EndOfRecord(a.tree, a.id)
    requires SetLands(a.tree, a.id, v, e, t1) && Sprawl(a, t1)
    requires Legible(data, used, f[a.tree.ofs := Root(false, t1, h1)][n := EmptyRoot(n, isArr)])
    ensures Vacant(f, n) && TailUnset(data, n) && TreeClear(Root(false, t1, h1), n)
  {
    hide Vacant, TailUnset, RoomyWalk, Sprawl, SetLands, Legible, Reuses, EndOfRecord, TreeClear;
    var ofs := a.tree.ofs;
    var g: Forest := f[ofs := Root(false, t1, h1)][n := EmptyRoot(n, isArr)];
    LegibleClear(data, used, g, n, isArr);
    assert g[ofs] == Root(false, t1, h1);
    ClearBefore(a, v, e, t1, h1, f[ofs].height, n);
    VacantBefore(f, g, ofs, n);
  }

  lemma VacantBefore(f: Forest, g: Forest, ofs: nat, n: nat)
    requires f.Keys <= g.Keys && (forall r :: r in f && r != ofs && r != n ==> g[r] == f[r])
    requires forall r :: r in g && r != n ==> TreeClear(g[r], n)
    requires ofs in f && TreeClear(f[ofs], n)
    ensures Vacant(f, n)
  {
    hide TreeClear;
    forall r | r in f && r != n ensures TreeClear(f[r], n) {
      assert r != ofs ==> TreeClear(g[r], n);
    }
  }

  lemma LegibleClear(data: seq<Byte>, used: nat, g: Forest, n: nat, isArr: bool)
    requires Legible(data, used, g) && n in g && g[n] == EmptyRoot(n, isArr)
    ensures TailUnset(data, n) && forall r :: r in g && r != n ==> TreeClear(g[r], n)
  {
    var nodes: NodeMap, recs: RecMap :| ValidRecs(recs) && Image(data, used, nodes, Raw(recs)) && Planted(nodes, recs,
                                                  g);
    hide Planted, Image, ValidRecs, TreeClear, TailUnset;
    EmptyTail(data, used, nodes, recs, g, n, isArr);
    forall r | r in g && r != n ensures TreeClear(g[r], n) {
      RootAlone(data, used, nodes, recs, g, n, r);
    }
  }

  /** The tree that has been set has lost no node, and no record but the one it patched. */
  lemma ClearBefore(a: Call, v: Value, e: Entry, t1: Tree, h1: nat, h: nat, n: nat)
    requires Reuses(a.tree, a.id) && n == EndOfRecord(a.tree, a.id)
    requires SetLands(a.tree, a.id, v, e, t1) && Sprawl(a, t1) && TreeClear(Root(false, t1, h1), n)
    ensures TreeClear(Root(false, a.tree, h), n)
  {
    var io, p := InOrder(a.tree), Route(a.tree, a.id);
    forall i | 0 <= i < |io| ensures EntryClear(false, io[i], n) {
      if i != p.pos { assert InOrder(t1)[i] == io[i]; }
    }
  }

  lemma UnsetBefore(w: World, n: nat, data: seq<Byte>)
    requires TailUnset(data, n) && ZeroTail(w.data, w.used)
    requires SameBytes(w, n, data)
    ensures TailUnset(w.data, n)
  {
    forall i | n + NODE_SIZE - 8 <= i < n + NODE_SIZE && i < |w.data| ensures w.data[i] == 0 {
      assert i < w.used ==> ByteAt(data, i) == ByteAt(w.data, i);
    }
  }

  lemma AlignedClear(a: Call, t1: Tree, h1: nat, n: nat)
    requires Sprawl(a, t1) && TreeClear(Root(false, t1, h1), n) && n <= a.used
    ensures RoomyWalk(a.tree, a.id) || n + NODE_SIZE <= AlignUp(a.used)
  {
  }

  // ----- the cases that calls come across

  ghost predicate LastChildrenUnset(w: Words) {
    ChildAt(w, SLOTS - 1) == 0 && ChildAt(w, SLOTS) == 0
  }

  lemma TailIsChildren(data: seq<Byte>, used: nat, nodes: NodeMap, raws: RawMap, n: nat)
    requires Image(data, used, nodes, raws) && n in nodes
    ensures n + NODE_SIZE <= used
    ensures TailUnset(data, n) <==> LastChildrenUnset(nodes[n])
  {
    var at := n + NODE_SIZE - 8;
    assert WordAt(data, n + 4 * (CHILD_OFS + SLOTS - 1)) == nodes[n][CHILD_OFS + SLOTS - 1];
    assert WordAt(data, n + 4 * (CHILD_OFS + SLOTS)) == nodes[n][CHILD_OFS + SLOTS];
    if LastChildrenUnset(nodes[n]) {
      ZeroWord(data, at);
      ZeroWord(data, at + 4);
    }
    if TailUnset(data, n) {
      assert data[at..at + 4] == [0, 0, 0, 0] && data[at + 4..at + 8] == [0, 0, 0, 0];
    }
  }

  /**
   Over a record that has the root of a tree behind it already, in use or given up: the tree is emptied, and that goes
   well exactly if its root has never used its last two child slots.
   */
  lemma PlaceOverTree(w: World, nodes: NodeMap, recs: RecMap, spare: RawMap, ofs: nat, k: Id)
    requires ValidRecs(recs) && Image(w.data, w.used, nodes, All(recs, spare)) && Planted(nodes, recs, w.forest)
    requires ofs in w.forest && Reuses(w.forest[ofs].tree, k) && EndOfRecord(w.forest[ofs].tree, k) in w.forest
    ensures var n := EndOfRecord(w.forest[ofs].tree, k);
            n in nodes && HasRoom(w, ofs, k) && (HasPlace(w, ofs, k) <==> LastChildrenUnset(nodes[n]))
  {
    hide TreeClear, Image, Planted, All, ValidRecs, Rooted, Owned, Reuses, EndOfRecord, TailUnset,
         LastChildrenUnset, RoomyWalk, Raw, TreeShape;
    var n := EndOfRecord(w.forest[ofs].tree, k);
    RootFacts(nodes, recs, w.forest, n);
    TailIsChildren(w.data, w.used, nodes, All(recs, spare), n);
    RecsImage(w.data, w.used, nodes, recs, spare);
    forall r | r in w.forest && r != n ensures TreeClear(w.forest[r], n) {
      RootAlone(w.data, w.used, nodes, recs, w.forest, n, r);
    }
  }

  /** A record that another one follows at once has no place behind it. */
  lemma NoPlaceBefore(w: World, ofs: nat, k: Id, r: nat, i: nat)
    requires ofs in w.forest && Reuses(w.forest[ofs].tree, k)
    requires r in w.forest && i < |InOrder(w.forest[r].tree)| && r < EndOfRecord(w.forest[ofs].tree, k)
    requires InOrder(w.forest[r].tree)[i].kv == EndOfRecord(w.forest[ofs].tree, k)
    ensures !HasPlace(w, ofs, k)
  {
    var n, e := EndOfRecord(w.forest[ofs].tree, k), InOrder(w.forest[r].tree)[i];
    assert !EntryClear(w.forest[r].isArr, e, n);
    assert !TreeClear(w.forest[r], n);
  }
}
