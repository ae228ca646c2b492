/**
 All B-trees of one buffer: objects and arrays, nested ones reached through the records of their parents. Each
 tree has its own nodes and records, so a set in one leaves every other as it was.
 */
module Forests {
  import opened Bytes
  import opened Records
  import opened Nodes
  import opened Layout
  import opened Hash
  import opened Order
  import opened Trees
  import opened Routes
  import opened Zipper
  import opened Lookups
  import opened Wrappers
  import opened Walk
  import opened Steps
  import opened Turns
  import opened Refinement
  import opened Spines

  datatype Root = Root(isArr: bool, tree: Tree, height: nat)

  /** Trees by the offset of their root, which never moves. */
  type Forest = map<nat, Root>

  predicate Nests(v: Value) {
    v.typ == Object || v.typ == Array
  }

  /** What an object knows a key by. */
  function IdOf(k: Key): Id {
    Id(Djb2(k), k)
  }

  /** The root node of a nested tree lies right after the record that holds it. */
  function LinkOf(isArr: bool, e: Entry): nat {
    e.kv + RecLen(Rec(!isArr, e.id.key, e.val))
  }

  /** Entries of an object carry the hash of their key. */
  ghost predicate ObjectRun(s: seq<Entry>) {
    HashSorted(s) && forall i :: 0 <= i < |s| ==> s[i].id.hash == Djb2(s[i].id.key)
  }

  /** Entry i of an array has index i. */
  ghost predicate ArrayRun(s: seq<Entry>) {
    |s| < SIZE_LIMIT && forall i :: 0 <= i < |s| ==> s[i].id == Id(i, [])
  }

  ghost predicate After(s: seq<Entry>, ofs: nat) {
    forall i :: 0 <= i < |s| ==> ofs < s[i].kv
  }

  ghost predicate Rooted(nodes: NodeMap, recs: RecMap, r: Root) {
    var s := InOrder(r.tree);
    && Owned(nodes, recs, r.isArr, r.tree, r.height)
    && r.tree.ofs in nodes
    && TypeCode(nodes[r.tree.ofs]) == Code(if r.isArr then Array else Object)
    && (if r.isArr then ArrayRun(s) && Size(nodes[r.tree.ofs]) == |s|
       && ArrayTree(r.tree, r.height, |s|) else ObjectRun(s))
    && After(s, r.tree.ofs)
  }

  /** No node and no record belongs to both trees. */
  ghost predicate Apart(t: Tree, t': Tree) {
    && (forall o :: Uses(t, o) == 0 || Uses(t', o) == 0)
    && (forall i, j :: 0 <= i < |InOrder(t)| && 0 <= j < |InOrder(t')| ==> InOrder(t)[i].kv != InOrder(t')[j].kv)
  }

  ghost predicate Planted(nodes: NodeMap, recs: RecMap, f: Forest) {
    && (forall r :: r in f ==> f[r].tree.ofs == r && Rooted(nodes, recs, f[r]))
    && (forall r, q :: r in f && q in f && r != q ==> Apart(f[r].tree, f[q].tree))
  }

  ghost predicate LinkedTo(f: Forest, isArr: bool, e: Entry) {
    Nests(e.val) ==> LinkOf(isArr, e) in f && f[LinkOf(isArr, e)].isArr == (e.val.typ == Array)
  }

  /** The first tree of a buffer has its root at offset 0. */
  ghost predicate Anchored(f: Forest, used: nat) {
    if f == map[] then used == 0 else 0 in f
  }

  /** Every nested object or array that an entry names is a tree of the forest. */
  ghost predicate Linked(f: Forest) {
    forall r, i :: r in f && 0 <= i < |InOrder(f[r].tree)| ==> LinkedTo(f, f[r].isArr, InOrder(f[r].tree)[i])
  }

  // ----- one set, seen from the other trees

  lemma UsesNodes(nodes: NodeMap, recs: RecMap, r: Root, o: nat)
    requires Rooted(nodes, recs, r) && Uses(r.tree, o) > 0
    ensures o in nodes
  {
    RepUses(nodes, r.tree, o);
  }

  lemma OtherOwned(a: Call, recs: RecMap, isArr: bool, v: Value, out: Outcome, q: Root)
    requires Achieved(a, recs, isArr, v, out) && Rooted(a.nodes, recs, q) && Apart(a.tree, q.tree)
    ensures Rooted(out.nodes, out.recs, q)
  {
    var s := InOrder(q.tree);
    forall o | Uses(q.tree, o) > 0 ensures SameAt(a.nodes, out.nodes, o) {
      UsesNodes(a.nodes, recs, q, o);
      assert Uses(a.tree, o) == 0 || Uses(q.tree, o) == 0;
    }
    RepFrame(a.nodes, out.nodes, q.tree);
    assert Uses(q.tree, q.tree.ofs) > 0;
    forall i | 0 <= i < |s| ensures Backed(out.recs, q.isArr, s[i]) {
      assert Backed(recs, q.isArr, s[i]);
    }
  }

  lemma OtherApart(a: Call, recs: RecMap, isArr: bool, v: Value, out: Outcome, q: Root)
    requires Achieved(a, recs, isArr, v, out) && Rooted(a.nodes, recs, q) && Apart(a.tree, q.tree)
    ensures Apart(out.tree, q.tree) && Apart(q.tree, out.tree)
  {
    var s, s', io := InOrder(q.tree), InOrder(out.tree), InOrder(a.tree);
    forall o ensures Uses(out.tree, o) == 0 || Uses(q.tree, o) == 0 {
      assert Uses(a.tree, o) == 0 || Uses(q.tree, o) == 0;
      if Uses(q.tree, o) > 0 { UsesNodes(a.nodes, recs, q, o); }
    }
    forall i, j | 0 <= i < |s'| && 0 <= j < |s| ensures s'[i].kv != s[j].kv {
      LandedMember(io, Route(a.tree, a.id), out.entry, i);
      assert Backed(recs, q.isArr, s[j]);
    }
  }

  lemma LandedMember(s: seq<Entry>, p: Place, e: Entry, i: nat)
    requires p.pos <= |s| && (p.found ==> p.pos < |s|) && i < |Landed(s, p, e)|
    ensures Landed(s, p, e)[i] == e || exists j :: 0 <= j < |s| && Landed(s, p, e)[i] == s[j]
  {
    var r := Landed(s, p, e);
    if r[i] != e {
      if p.found || i < p.pos { assert r[i] == s[i]; } else { assert r[i] == s[i - 1]; }
    }
  }

  /** A set in one tree leaves the forest planted if it leaves that tree rooted. */
  lemma SetPlanted(a: Call, recs: RecMap, f: Forest, v: Value, out: Outcome)
    requires Planted(a.nodes, recs, f) && a.tree.ofs in f && f[a.tree.ofs].tree == a.tree
    requires Achieved(a, recs, f[a.tree.ofs].isArr, v, out)
    requires Rooted(out.nodes, out.recs, Root(f[a.tree.ofs].isArr, out.tree, out.height))
    ensures Planted(out.nodes, out.recs, f[a.tree.ofs := Root(f[a.tree.ofs].isArr, out.tree, out.height)])
  {
    hide Rooted, Achieved, Apart;
    var ofs := a.tree.ofs;
    forall q | q in f && q != ofs
      ensures Rooted(out.nodes, out.recs, f[q]) && Apart(out.tree, f[q].tree) && Apart(f[q].tree, out.tree)
    {
      OtherOwned(a, recs, f[ofs].isArr, v, out, f[q]);
      OtherApart(a, recs, f[ofs].isArr, v, out, f[q]);
    }
    AchievedOfs(a, recs, f[ofs].isArr, v, out);
  }

  lemma AchievedOfs(a: Call, recs: RecMap, isArr: bool, v: Value, out: Outcome)
    requires Achieved(a, recs, isArr, v, out)
    ensures out.tree.ofs == a.tree.ofs
  {
  }

  /** The tree that was set, if it is an object. */
  lemma SetRootedObject(a: Call, recs: RecMap, r: Root, v: Value, out: Outcome)
    requires Rooted(a.nodes, recs, r) && !r.isArr && r.tree == a.tree && Achieved(a, recs, false, v, out)
    requires a.id.hash == Djb2(a.id.key) && a.tree.ofs < a.used
    ensures Rooted(out.nodes, out.recs, Root(false, out.tree, out.height))
  {
    var io, p, s := InOrder(a.tree), Route(a.tree, a.id), InOrder(out.tree);
    SetKeepsHashOrder(a, r.height, recs, false, v, out);
    forall i | 0 <= i < |s| ensures s[i].id.hash == Djb2(s[i].id.key) && a.tree.ofs < s[i].kv {
      LandedMember(io, p, out.entry, i);
    }
  }

  /** An append lands at the end of an array. */
  lemma AppendPlace(t: Tree, h: nat)
    requires TreeShape(t, h) && ArrayRun(InOrder(t))
    ensures Route(t, Id(|InOrder(t)|, [])) == Place(false, |InOrder(t)|)
    ensures Sorted(InOrder(t)) && !Misroutes(t, Id(|InOrder(t)|, []))
  {
    var s := InOrder(t);
    var k := Id(|s|, []);
    FreshHashRoutes(t, h, RootLeast(h), k);
    RouteVerdict(t, h, RootLeast(h), k);
    var p := Route(t, k);
    if p.pos < |s| { assert Less(s[p.pos].id, k); CompareOrder(s[p.pos].id, k, k); }
  }

  lemma SetRootedArray(a: Call, recs: RecMap, r: Root, v: Value, out: Outcome, w: Words)
    requires Rooted(a.nodes, recs, r) && r.isArr && r.tree == a.tree && Achieved(a, recs, true, v, out)
    requires a.id == Id(|InOrder(a.tree)|, []) && |InOrder(a.tree)| + 1 < SIZE_LIMIT && a.tree.ofs < a.used
    requires Appended(a, r.height, out)
    requires SameSlots(out.nodes[a.tree.ofs], w) && w[GEN_TYPE] == out.nodes[a.tree.ofs][GEN_TYPE]
    requires w[SIZE_KC] == WithSize(out.nodes[a.tree.ofs][SIZE_KC], |InOrder(a.tree)| + 1)
    ensures InOrder(out.tree) == InOrder(a.tree) + [out.entry]
    ensures Rooted(out.nodes[a.tree.ofs := w], out.recs, Root(true, out.tree, out.height))
  {
    hide Achieved, ArrayTree, Appended, TreeShape, AllBacked, Held, KvDistinct, ArrayRun, After, InOrder,
         SameSlots;
    AppendRun(a, recs, r, v, out);
    ResizedOwned(out.nodes, out.recs, out.tree, out.height, w);
    hide Owned;
    assert Size(w) == |InOrder(a.tree)| + 1;
    assert TypeCode(w) == TypeCode(out.nodes[a.tree.ofs]);
  }

  lemma AppendRun(a: Call, recs: RecMap, r: Root, v: Value, out: Outcome)
    requires Rooted(a.nodes, recs, r) && r.isArr && r.tree == a.tree && Achieved(a, recs, true, v, out)
    requires a.id == Id(|InOrder(a.tree)|, []) && |InOrder(a.tree)| + 1 < SIZE_LIMIT && a.tree.ofs < a.used
    requires Appended(a, r.height, out)
    ensures InOrder(out.tree) == InOrder(a.tree) + [out.entry]
    ensures ArrayTree(out.tree, out.height, |InOrder(out.tree)|)
    ensures ArrayRun(InOrder(out.tree)) && After(InOrder(out.tree), a.tree.ofs)
    ensures Owned(out.nodes, out.recs, true, out.tree, out.height) && out.tree.ofs == a.tree.ofs
    ensures a.tree.ofs in out.nodes && TypeCode(out.nodes[a.tree.ofs]) == Code(Array)
  {
    hide Held, Answers, OthersKept, TreeShape, ArrayTree;
    ShapeOf(a, recs, r);
    AppendPlace(a.tree, r.height);
    assert InOrder(out.tree) == InOrder(a.tree) + [out.entry];
  }

  lemma ShapeOf(a: Call, recs: RecMap, r: Root)
    requires Rooted(a.nodes, recs, r) && r.tree == a.tree
    ensures TreeShape(a.tree, r.height)
  {
  }

  /** Writing the size field of a root changes nothing of its tree. */
  lemma ResizedOwned(nodes: NodeMap, recs: RecMap, t: Tree, h: nat, w: Words)
    requires Owned(nodes, recs, true, t, h) && t.ofs in nodes
    requires SameSlots(nodes[t.ofs], w) && w[SIZE_KC] % 8 == nodes[t.ofs][SIZE_KC] % 8
    ensures Owned(nodes[t.ofs := w], recs, true, t, h)
  {
    HeldRewrite(nodes, Top, t, t.es, w);
    assert Node(t.ofs, t.es, t.cs) == t;
  }

  ghost function LandedForest(f: Forest, ofs: nat, out: Outcome): Forest
    requires ofs in f
  {
    f[ofs := Root(f[ofs].isArr, out.tree, out.height)]
  }

  lemma SetLinked(a: Call, recs: RecMap, f: Forest, f': Forest, v: Value, out: Outcome)
    requires Linked(f) && a.tree.ofs in f && f[a.tree.ofs].tree == a.tree
    requires Achieved(a, recs, f[a.tree.ofs].isArr, v, out)
    requires f'.Keys >= f.Keys && (forall r :: r in f ==> f'[r].isArr == f[r].isArr)
    requires forall r :: r in f' && r != a.tree.ofs ==> if r in f then f'[r] == f[r] else InOrder(f'[r].tree) == []
    requires f'[a.tree.ofs].tree == out.tree
    requires LinkedTo(f', f[a.tree.ofs].isArr, out.entry)
    ensures Linked(f')
  {
    var io, p, ofs := InOrder(a.tree), Route(a.tree, a.id), a.tree.ofs;
    forall r, i | r in f' && 0 <= i < |InOrder(f'[r].tree)|
      ensures LinkedTo(f', f'[r].isArr, InOrder(f'[r].tree)[i])
    {
      if r == ofs {
        LandedMember(io, p, out.entry, i);
        var e := InOrder(out.tree)[i];
        if e != out.entry {
          var j :| 0 <= j < |io| && e == io[j];
          assert LinkedTo(f, f[ofs].isArr, io[j]);
        }
      } else {
        assert LinkedTo(f, f[r].isArr, InOrder(f[r].tree)[i]);
      }
    }
  }

  // ----- a new tree

  /** The first word of a new root. */
  function RootWord(isArr: bool): U32 {
    GenTypeWord(1, Code(if isArr then Array else Object))
  }

  ghost predicate EmptyRootWords(w: Words, isArr: bool) {
    && SameSlots(BlankNode(), w) && w[SIZE_KC] == 0
    && TypeCode(w) == Code(if isArr then Array else Object)
  }

  ghost function EmptyRoot(ofs: nat, isArr: bool): Root {
    Root(isArr, Node(ofs, [], []), 1)
  }

  lemma EmptyOwned(nodes: NodeMap, recs: RecMap, ofs: nat, isArr: bool)
    requires ofs in nodes && SameSlots(BlankNode(), nodes[ofs]) && KeyCount(nodes[ofs]) == 0
    ensures Owned(nodes, recs, isArr, Node(ofs, [], []), 1)
  {
    var w, t := nodes[ofs], Node(ofs, [], []);
    assert InOrder(t) == [];
    assert Shape(t, 1, 0);
    assert forall i :: 0 <= i <= SLOTS ==> ChildAt(w, i) == ChildAt(BlankNode(), i) == 0;
    assert Slots(t.cs) == [] && UsesIn([], ofs) == 0;
    assert Holds(w, [], []);
    assert Rep(nodes, t) && RepC(nodes, Top, ofs);
    assert forall o :: UsesC(Top, o) + Uses(t, o) <= 1;
  }

  lemma EmptyRooted(nodes: NodeMap, recs: RecMap, ofs: nat, isArr: bool)
    requires ofs in nodes && EmptyRootWords(nodes[ofs], isArr)
    ensures Rooted(nodes, recs, EmptyRoot(ofs, isArr))
  {
    hide Owned, ArrayTree, SameSlots;
    assert nodes[ofs][SIZE_KC] == 0;
    EmptyArray(ofs);
    EmptyOwned(nodes, recs, ofs, isArr);
    assert InOrder(Node(ofs, [], [])) == [];
  }

  lemma PlantRooted(nodes: NodeMap, recs: RecMap, q: Root, ofs: nat, w: Words)
    requires Rooted(nodes, recs, q) && ofs !in nodes
    ensures Rooted(nodes[ofs := w], recs, q)
    ensures Apart(q.tree, Node(ofs, [], [])) && Apart(Node(ofs, [], []), q.tree)
  {
    forall o | Uses(q.tree, o) > 0 ensures SameAt(nodes, nodes[ofs := w], o) && o != ofs {
      UsesNodes(nodes, recs, q, o);
    }
    RepFrame(nodes, nodes[ofs := w], q.tree);
    assert InOrder(Node(ofs, [], [])) == [];
  }

  lemma PlantNew(nodes: NodeMap, recs: RecMap, f: Forest, ofs: nat, w: Words, isArr: bool)
    requires Planted(nodes, recs, f) && ofs !in nodes && EmptyRootWords(w, isArr)
    ensures ofs !in f
    ensures Planted(nodes[ofs := w], recs, f[ofs := EmptyRoot(ofs, isArr)])
  {
    hide Apart, EmptyRootWords, Rooted, Owned, TreeShape;
    EmptyRooted(nodes[ofs := w], recs, ofs, isArr);
    forall q | q in f
      ensures q in nodes && Rooted(nodes[ofs := w], recs, f[q])
      ensures Apart(f[q].tree, Node(ofs, [], [])) && Apart(Node(ofs, [], []), f[q].tree)
    {
      RootFacts(nodes, recs, f, q);
      PlantRooted(nodes, recs, f[q], ofs, w);
    }
  }

  lemma PlantLinked(f: Forest, ofs: nat, isArr: bool)
    requires Linked(f) && ofs !in f
    ensures Linked(f[ofs := EmptyRoot(ofs, isArr)])
  {
    var f' := f[ofs := EmptyRoot(ofs, isArr)];
    assert InOrder(Node(ofs, [], [])) == [];
    forall r, i | r in f' && 0 <= i < |InOrder(f'[r].tree)| ensures LinkedTo(f', f'[r].isArr, InOrder(f'[r].tree)[i]) {
      assert r != ofs && LinkedTo(f, f[r].isArr, InOrder(f[r].tree)[i]);
    }
  }

  lemma RootFacts(nodes: NodeMap, recs: RecMap, f: Forest, ofs: nat)
    requires Planted(nodes, recs, f) && ofs in f
    ensures Owned(nodes, recs, f[ofs].isArr, f[ofs].tree, f[ofs].height) && TreeShape(f[ofs].tree, f[ofs].height)
    ensures f[ofs].tree.ofs == ofs && ofs in nodes
    ensures Rooted(nodes, recs, f[ofs])
  {
  }

  lemma RunOfObject(nodes: NodeMap, recs: RecMap, f: Forest, ofs: nat)
    requires Planted(nodes, recs, f) && ofs in f && !f[ofs].isArr
    ensures ObjectRun(InOrder(f[ofs].tree))
  {
  }

  /** The tree at ofs is another one, all other trees are as they were. */
  ghost predicate OnlyAt(f: Forest, ofs: nat, f': Forest) {
    && f'.Keys >= f.Keys
    && forall q :: q in f && q != ofs ==> f'[q] == f[q]
  }

  /** A set in an object of the forest, as far as the trees are concerned. */
  lemma SetObjectForest(a: Call, recs: RecMap, f: Forest, v: Value, out: Outcome)
    requires Planted(a.nodes, recs, f)
    requires a.tree.ofs in f && f[a.tree.ofs].tree == a.tree && !f[a.tree.ofs].isArr
    requires Achieved(a, recs, false, v, out)
    requires a.id.hash == Djb2(a.id.key) && a.tree.ofs < a.used
    ensures Planted(out.nodes, out.recs, LandedForest(f, a.tree.ofs, out))
    ensures SetMeans(a.tree, a.id, v, out.tree) && SetLands(a.tree, a.id, v, out.entry, out.tree)
    ensures |InOrder(out.tree)| <= |InOrder(a.tree)| + 1 && out.entry.id == a.id && out.entry.val == v
    ensures OthersKept(a, out.nodes, out.tree) && RootKept(a, out.nodes)
  {
    hide Planted, Owned, Rooted, SetMeans, TreeShape;
    RootFacts(a.nodes, recs, f, a.tree.ofs);
    AchievedMeans(a, f[a.tree.ofs].height, recs, false, v, out);
    AchievedLands(a, recs, false, v, out);
    SetRootedObject(a, recs, f[a.tree.ofs], v, out);
    SetPlanted(a, recs, f, v, out);
  }

  /** The entry names the tree that has been planted for it. */
  lemma NestLinked(a: Call, recs: RecMap, f: Forest, v: Value, out: Outcome, n: nat, isArr: bool)
    requires Linked(f) && a.tree.ofs in f && f[a.tree.ofs].tree == a.tree && n !in f
    requires Achieved(a, recs, f[a.tree.ofs].isArr, v, out)
    requires Nests(v) && isArr == (v.typ == Array) && n == LinkOf(f[a.tree.ofs].isArr, out.entry)
    ensures Linked(LandedForest(f, a.tree.ofs, out)[n := EmptyRoot(n, isArr)])
  {
    hide Linked;
    assert InOrder(Node(n, [], [])) == [];
    SetLinked(a, recs, f, LandedForest(f, a.tree.ofs, out)[n := EmptyRoot(n, isArr)], v, out);
  }

  lemma ScalarLinked(a: Call, recs: RecMap, f: Forest, v: Value, out: Outcome)
    requires Linked(f) && a.tree.ofs in f && f[a.tree.ofs].tree == a.tree
    requires Achieved(a, recs, f[a.tree.ofs].isArr, v, out) && !Nests(v)
    ensures Linked(LandedForest(f, a.tree.ofs, out))
  {
    hide Linked;
    SetLinked(a, recs, f, LandedForest(f, a.tree.ofs, out), v, out);
  }

  /** An append to an array of the forest; w is its root with the new size written. */
  lemma AppendForest(a: Call, recs: RecMap, f: Forest, v: Value, out: Outcome, w: Words)
    requires Planted(a.nodes, recs, f)
    requires a.tree.ofs in f && f[a.tree.ofs].tree == a.tree && f[a.tree.ofs].isArr
    requires Achieved(a, recs, true, v, out)
    requires a.id == Id(|InOrder(a.tree)|, []) && |InOrder(a.tree)| + 1 < SIZE_LIMIT && a.tree.ofs < a.used
    requires Appended(a, f[a.tree.ofs].height, out)
    requires SameSlots(out.nodes[a.tree.ofs], w) && w[GEN_TYPE] == out.nodes[a.tree.ofs][GEN_TYPE]
    requires w[SIZE_KC] == WithSize(out.nodes[a.tree.ofs][SIZE_KC], |InOrder(a.tree)| + 1)
    ensures Planted(out.nodes[a.tree.ofs := w], out.recs, LandedForest(f, a.tree.ofs, out))
    ensures InOrder(out.tree) == InOrder(a.tree) + [out.entry]
    ensures out.entry.id == a.id && out.entry.val == v
  {
    hide Owned, Rooted, Apart, Achieved, Appended;
    var ofs := a.tree.ofs;
    RootFacts(a.nodes, recs, f, ofs);
    SetRootedArray(a, recs, f[ofs], v, out, w);
    AchievedLands(a, recs, true, v, out);
    AchievedRoot(a, recs, true, v, out);
    forall q | q in f && q != ofs
      ensures Rooted(out.nodes[ofs := w], out.recs, f[q]) && Apart(out.tree, f[q].tree) && Apart(f[q].tree, out.tree)
    {
      OtherApart(a, recs, true, v, out, f[q]);
      OtherOwned(a, recs, true, v, out, f[q]);
      OtherResized(out.nodes, out.recs, f[q], out.tree, w);
    }
  }

  /** And the root of a nested tree planted for it. */
  lemma AppendedNested(a: Call, recs: RecMap, f: Forest, out: Outcome, w: Words, n: nat, u: Words, isArr: bool)
    requires a.tree.ofs in f && f[a.tree.ofs].tree == a.tree && f[a.tree.ofs].isArr && Linked(f)
    requires Achieved(a, recs, true, Nested(isArr), out) && n == LinkOf(true, out.entry)
    requires Planted(out.nodes[a.tree.ofs := w], out.recs, LandedForest(f, a.tree.ofs, out))
    requires a.tree.ofs in out.nodes && n !in out.nodes && EmptyRootWords(u, isArr)
    ensures n !in f
    ensures var g := LandedForest(f, a.tree.ofs, out)[n := EmptyRoot(n, isArr)];
            Planted(out.nodes[a.tree.ofs := w][n := u], out.recs, g) && Linked(g)
  {
    hide Planted, Linked, Achieved, EmptyRootWords;
    PlantNew(out.nodes[a.tree.ofs := w], out.recs, LandedForest(f, a.tree.ofs, out), n, u, isArr);
    NestLinked(a, recs, f, Nested(isArr), out, n, isArr);
  }

  lemma OtherResized(nodes: NodeMap, recs: RecMap, q: Root, t: Tree, w: Words)
    requires Rooted(nodes, recs, q) && Apart(t, q.tree) && t.ofs in nodes
    ensures Rooted(nodes[t.ofs := w], recs, q)
  {
    assert Uses(t, t.ofs) > 0 && Uses(q.tree, q.tree.ofs) > 0;
    assert Uses(t, q.tree.ofs) == 0 || Uses(q.tree, q.tree.ofs) == 0;
    forall o | Uses(q.tree, o) > 0 ensures SameAt(nodes, nodes[t.ofs := w], o) {
      assert Uses(t, o) == 0 || Uses(q.tree, o) == 0;
    }
    RepFrame(nodes, nodes[t.ofs := w], q.tree);
  }

  /** The value that stands for a nested object or array. */
  function Nested(isArr: bool): (v: Value)
    ensures ValidValue(v) && Nests(v) && ValLen(v) == 1
  {
    Value(if isArr then Array else Object, [])
  }

  lemma ArrayFacts(nodes: NodeMap, recs: RecMap, f: Forest, ofs: nat)
    requires Planted(nodes, recs, f) && ofs in f && f[ofs].isArr
    ensures ofs in nodes && Size(nodes[ofs]) == |InOrder(f[ofs].tree)| && ArrayRun(InOrder(f[ofs].tree))
    ensures ArrayTree(f[ofs].tree, f[ofs].height, |InOrder(f[ofs].tree)|)
  {
  }

  lemma AchievedRoot(a: Call, recs: RecMap, isArr: bool, v: Value, out: Outcome)
    requires Achieved(a, recs, isArr, v, out)
    ensures a.tree.ofs in out.nodes && out.tree.ofs == a.tree.ofs && RootKept(a, out.nodes)
  {
  }

  lemma AchievedEntry(a: Call, recs: RecMap, isArr: bool, v: Value, out: Outcome)
    requires Achieved(a, recs, isArr, v, out)
    ensures out.entry.id == a.id && out.entry.val == v
  {
  }

  lemma OwnedBacked(nodes: NodeMap, recs: RecMap, t: Tree, h: nat)
    requires Owned(nodes, recs, false, t, h)
    ensures AllBacked(recs, false, InOrder(t))
  {
  }

  /** An append never overwrites. */
  lemma AppendFresh(nodes: NodeMap, recs: RecMap, f: Forest, ofs: nat, v: Value)
    requires Planted(nodes, recs, f) && ofs in f && f[ofs].isArr
    ensures var t := f[ofs].tree; !InPlace(InOrder(t), Route(t, Id(|InOrder(t)|, [])), v)
  {
    RootFacts(nodes, recs, f, ofs);
    ArrayFacts(nodes, recs, f, ofs);
    AppendPlace(f[ofs].tree, f[ofs].height);
  }

  // ----- no tree has two parents

  /** Entry i of tree q names the tree at n. */
  ghost predicate Names(f: Forest, q: nat, i: nat, n: nat) {
    && q in f && i < |InOrder(f[q].tree)|
    && Nests(InOrder(f[q].tree)[i].val) && LinkOf(f[q].isArr, InOrder(f[q].tree)[i]) == n
  }

  ghost predicate OneParent(f: Forest) {
    forall q: nat, i: nat, q': nat, i': nat, n: nat :: Names(f, q, i, n) && Names(f, q', i', n) ==> q == q' && i == i'
  }

  lemma ForgetTrees(nodes: NodeMap, recs: RecMap, f: Forest, dead: set<nat>)
    requires Planted(nodes, recs, f) && Linked(f)
    requires forall r: nat, i: nat, n: nat :: Names(f, r, i, n) && r !in dead ==> n !in dead
    ensures Planted(nodes, recs, f - dead) && Linked(f - dead)
  {
    var f' := f - dead;
    hide Rooted, Apart, LinkOf;
    forall r, i | r in f' && 0 <= i < |InOrder(f'[r].tree)| ensures LinkedTo(f', f'[r].isArr, InOrder(f'[r].tree)[i]) {
      var e := InOrder(f[r].tree)[i];
      assert LinkedTo(f, f[r].isArr, e);
      assert Nests(e.val) ==> Names(f, r, i, LinkOf(f[r].isArr, e));
    }
  }

  /** Records do not overlap, so no two of them end at the same offset. */
  lemma LinksApart(used: nat, nodes: NodeMap, recs: RecMap, isArr: bool, e: Entry, isArr': bool, e': Entry)
    requires ValidRecs(recs) && Laid(used, nodes, Raw(recs)) && Backed(recs, isArr, e) && Backed(recs, isArr', e')
    ensures LinkOf(isArr, e) == LinkOf(isArr', e') ==> e.kv == e'.kv
  {
    var raws := Raw(recs);
    assert |raws[e.kv]| == RecLen(recs[e.kv]) && |raws[e'.kv]| == RecLen(recs[e'.kv]);
  }

  lemma EntryBacked(nodes: NodeMap, recs: RecMap, f: Forest, q: nat, i: nat)
    requires Planted(nodes, recs, f) && q in f && i < |InOrder(f[q].tree)|
    ensures Backed(recs, f[q].isArr, InOrder(f[q].tree)[i]) && KvDistinct(InOrder(f[q].tree))
  {
    RootFacts(nodes, recs, f, q);
    hide Planted;
  }

  lemma PlantedOneParent(data: seq<Byte>, used: nat, nodes: NodeMap, recs: RecMap, spare: RawMap, f: Forest)
    requires ValidRecs(recs) && Image(data, used, nodes, All(recs, spare)) && Planted(nodes, recs, f)
    ensures OneParent(f)
  {
    SubImage(data, used, nodes, All(recs, spare), nodes, Raw(recs));
    hide NodeBytes, RawBytes, ZeroTail, Laid, Raw, All;
    forall q: nat, i: nat, q': nat, i': nat, n: nat | Names(f, q, i, n) && Names(f, q', i', n)
      ensures q == q' && i == i' {
      EntryBacked(nodes, recs, f, q, i);
      EntryBacked(nodes, recs, f, q', i');
      LinksApart(used, nodes, recs, f[q].isArr, InOrder(f[q].tree)[i], f[q'].isArr, InOrder(f[q'].tree)[i']);
      OwnKv(nodes, recs, f, q, i, q', i');
    }
  }

  lemma OwnKv(nodes: NodeMap, recs: RecMap, f: Forest, q: nat, i: nat, q': nat, i': nat)
    requires Planted(nodes, recs, f) && q in f && q' in f && i < |InOrder(f[q].tree)| && i' < |InOrder(f[q'].tree)|
    requires KvDistinct(InOrder(f[q].tree))
    requires InOrder(f[q].tree)[i].kv == InOrder(f[q'].tree)[i'].kv
    ensures q == q' && i == i'
  {
    assert q != q' ==> Apart(f[q].tree, f[q'].tree);
  }

  // ----- reading

  /** A subtree that get_impl has come to. */
  ghost predicate SubTree(nodes: NodeMap, recs: RecMap, isArr: bool, t: Tree, h: nat) {
    (exists lo :: Shape(t, h, lo)) && Rep(nodes, t) && AllBacked(recs, isArr, InOrder(t))
  }

  lemma OwnedSub(nodes: NodeMap, recs: RecMap, isArr: bool, t: Tree, h: nat)
    requires Owned(nodes, recs, isArr, t, h)
    ensures SubTree(nodes, recs, isArr, t, h)
  {
    assert Shape(t, h, RootLeast(h));
  }

  lemma EntryOfRun(es: seq<Entry>, cs: seq<Tree>, i: nat)
    requires Formed(es, cs) && i < |es|
    ensures exists j :: 0 <= j < |Weave(es, cs)| && Weave(es, cs)[j] == es[i]
  {
    Around(es, cs, i);
    var j := |Weave(es[..i], Upto(cs, i + 1))|;
    assert Weave(es, cs)[j] == es[i];
  }

  lemma ChildBacked(recs: RecMap, isArr: bool, t: Tree, i: nat)
    requires AllBacked(recs, isArr, InOrder(t)) && |t.cs| == |t.es| + 1 && i < |t.cs|
    ensures AllBacked(recs, isArr, InOrder(t.cs[i]))
  {
    hide Backed, InOrder;
    forall j | 0 <= j < |InOrder(t.cs[i])| ensures Backed(recs, isArr, InOrder(t.cs[i])[j]) {
      var m := ChildInRun(t, i, j);
      assert Backed(recs, isArr, InOrder(t)[m]);
    }
  }

  /** Where an entry of a child is in the run of the node. */
  lemma ChildInRun(t: Tree, i: nat, j: nat) returns (m: nat)
    requires |t.cs| == |t.es| + 1 && i < |t.cs| && j < |InOrder(t.cs[i])|
    ensures m < |InOrder(t)| && InOrder(t)[m] == InOrder(t.cs[i])[j]
  {
    hide WeaveL, WeaveR;
    AroundChild(t.es, t.cs, i);
    var a, x, b := WeaveL(t.es[..i], t.cs[..i]), InOrder(t.cs[i]), WeaveR(t.es[i..], t.cs[i + 1..]);
    m := |a| + j;
    assert InOrder(t) == a + x + b;
  }

  /** The next step of get_impl from a subtree. */
  lemma SubFacts(nodes: NodeMap, recs: RecMap, isArr: bool, t: Tree, h: nat, k: Id)
    requires SubTree(nodes, recs, isArr, t, h)
    ensures t.ofs in nodes && Holds(nodes[t.ofs], t.es, Slots(t.cs)) && AllBacked(recs, isArr, t.es)
    ensures |t.es| <= SLOTS && h >= 1
    ensures var i := Search(t.es, k);
            if i < |t.es| && t.es[i].id == k then
              KvAt(nodes[t.ofs], i) == t.es[i].kv && Backed(recs, isArr, t.es[i]) && Find(t, k) == Some(t.es[i])
            else if ChildAt(nodes[t.ofs], i) == 0 then Find(t, k) == None
            else
              && i < |t.cs| && ChildAt(nodes[t.ofs], i) == t.cs[i].ofs && h > 1
              && SubTree(nodes, recs, isArr, t.cs[i], h - 1) && Find(t, k) == Find(t.cs[i], k)
  {
    var lo :| Shape(t, h, lo);
    var i := Search(t.es, k);
    assert Below(t.es, t.cs, h);
    forall j | 0 <= j < |t.es| ensures Backed(recs, isArr, t.es[j]) {
      EntryOfRun(t.es, t.cs, j);
    }
    if t.cs != [] {
      assert RepIn(nodes, t.cs);
      assert Shape(t.cs[i], h - 1, KEYS_MIN);
      ChildBacked(recs, isArr, t, i);
    }
  }

  lemma {:induction false} FoundMember(t: Tree, h: nat, lo: nat, k: Id)
    requires Shape(t, h, lo) && Find(t, k).Some?
    ensures Find(t, k).value.id == k
    ensures exists j :: 0 <= j < |InOrder(t)| && InOrder(t)[j] == Find(t, k).value
    decreases h
  {
    var i := Search(t.es, k);
    assert Below(t.es, t.cs, h);
    if i < |t.es| && t.es[i].id == k {
      EntryOfRun(t.es, t.cs, i);
      assert InOrder(t) == Weave(t.es, t.cs);
      var j :| 0 <= j < |Weave(t.es, t.cs)| && Weave(t.es, t.cs)[j] == t.es[i];
      assert InOrder(t)[j] == Find(t, k).value;
    } else {
      FoundMember(t.cs[i], h - 1, KEYS_MIN, k);
      hide InOrder, Search;
      var j :| 0 <= j < |InOrder(t.cs[i])| && InOrder(t.cs[i])[j] == Find(t, k).value;
      var m := ChildInRun(t, i, j);
    }
  }

  lemma FoundLinked(nodes: NodeMap, recs: RecMap, f: Forest, ofs: nat, k: Id)
    requires Planted(nodes, recs, f) && Linked(f) && ofs in f && Find(f[ofs].tree, k).Some?
    ensures LinkedTo(f, f[ofs].isArr, Find(f[ofs].tree, k).value)
  {
    RootFacts(nodes, recs, f, ofs);
    var t, h := f[ofs].tree, f[ofs].height;
    FoundMember(t, h, RootLeast(h), k);
  }

  /** Reading an array: index i gives the i-th appended entry, and nothing is found from the size on. */
  lemma ArrayReads(t: Tree, h: nat, i: U32)
    requires TreeShape(t, h) && ArrayRun(InOrder(t))
    ensures Find(t, Id(i, [])) == if i < |InOrder(t)| then Some(InOrder(t)[i]) else None
  {
    var s := InOrder(t);
    FindSorted(t, h, RootLeast(h), Id(i, []));
    if i < |s| { LookupUnique(s, i); }
  }
}
