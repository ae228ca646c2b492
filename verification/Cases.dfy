/** Runs of calls that show where the code does not keep what it promises, each followed step by step. */
module Cases {
  import opened Wrappers
  import opened Bytes
  import opened Records
  import opened Nodes
  import opened Layout
  import opened Hash
  import opened Order
  import opened Trees
  import opened Routes
  import opened Zipper
  import opened Lookups
  import opened Steps
  import opened Heights
  import opened Crowds
  import opened Paths
  import opened Digits
  import opened Turns
  import opened Trails
  import opened Refinement
  import opened Forests
  import opened Nestings
  import opened Generations
  import opened Buffers
  import opened Stacks
  import opened Iterators
  import opened Runs

  // ----- small trees

  lemma SmallLeaf(t: Tree, h: nat)
    requires TreeShape(t, h) && |InOrder(t)| < KEYS_MAX
    ensures t.cs == []
  {
    EntriesAtLeast(t, h, RootLeast(h));
  }

  lemma LeafRun(t: Tree)
    requires t.cs == [] && |t.es| <= KEYS_MAX
    ensures InOrder(t) == t.es
  {
  }

  /** A tree of eight entries has a root with room. */
  lemma EightEntries(t: Tree, h: nat)
    requires TreeShape(t, h) && |InOrder(t)| == KEYS_MAX + 1
    ensures !Full(t)
  {
    if Full(t) && t.cs != [] {
      assert Below(t.es, t.cs, h);
      forall i | 0 <= i < |t.cs| ensures |InOrder(t.cs[i])| + 1 >= 4 {
        EntriesAtLeast(t.cs[i], h - 1, KEYS_MIN);
        Pow4Monotone(0, h - 2);
      }
      WeaveAtLeast(t.es, t.cs, 4);
    }
  }

  // ----- an object with up to seven members

  /** The object at offset 0 has been made and its first n members have been set: they are all in the root. */
  ghost predicate Filled(b: Buffer, ms: seq<Setting>, n: nat)
    reads b
  {
    && n <= |ms| && b.Coherent() && 0 in b.forest && !b.forest[0].isArr
    && b.forest[0].tree.cs == [] && |b.forest[0].tree.es| == n
    && RunMeans(Node(0, [], []), ms[..n], b.forest[0].tree) && HashesFrom([], ms[..n], InOrder(b.forest[0].tree))
    && |b.log| == n && Counted(b.log) == n + 1
    && b.used <= NODE_SIZE + CostOfSets(ms[..n])
  }

  ghost predicate Affordable(ms: seq<Setting>) {
    Storable(ms) && AllAlone([], ms) && NODE_SIZE + CostOfSets(ms) + SET_MARGIN <= U32_LIMIT
  }

  lemma RootCount(nodes: NodeMap, recs: RecMap, f: Forest, ofs: nat)
    requires Planted(nodes, recs, f) && ofs in f
    ensures ofs in nodes && KeyCount(nodes[ofs]) == |f[ofs].tree.es| && |f[ofs].tree.es| <= SLOTS
  {
    RootFacts(nodes, recs, f, ofs);
    assert Rep(nodes, f[ofs].tree);
  }

  /** A member of a new hash is not found. */
  lemma NotYet(t: Tree, ms: seq<Setting>, n: nat)
    requires n < |ms| && AllAlone([], ms) && HashesFrom([], ms[..n], InOrder(t))
    ensures HashFresh(InOrder(t), Djb2(ms[n].key))
  {
    assert Alone([], ms, n);
    assert !Touches(ms[..n], Djb2(ms[n].key));
    FreshNow([], ms[..n], InOrder(t), Djb2(ms[n].key));
  }

  /** It makes the run longer by one, and in a leaf with room its record is the next one in the buffer. */
  lemma OneMore(t: Tree, k: Id, v: Value, e: Entry, t': Tree, used: nat, end: nat, used': nat)
    requires HashFresh(InOrder(t), k.hash) && SetLands(t, k, v, e, t')
    requires RecordAt(t, k, v, used, e, end, used') && t.cs == [] && !Full(t)
    ensures |InOrder(t')| == |InOrder(t)| + 1 && e.kv == used && end == used' && e.id == k && e.val == v
  {
    assert RoomyWalk(t, k);
  }

  lemma CountedNext(log: seq<Event>)
    requires Counted(log) < 9
    ensures Counted(log + [Event(0, false)]) == Counted(log) + 1
  {
    var next := log + [Event(0, false)];
    assert next[..|next| - 1] == log;
  }

  method NewObject(ms: seq<Setting>) returns (b: Buffer)
    ensures fresh(b) && Filled(b, ms, 0)
  {
    b := new Buffer();
    var ofs := b.InitStructure(false);
    RunNone(Node(0, [], []));
    assert ms[..0] == [];
  }

  method SetAnother(b: Buffer, ms: seq<Setting>, n: nat) returns (ghost e: Entry)
    requires Affordable(ms) && n < |ms| && n < KEYS_MAX && Filled(b, ms, n)
    modifies b
    ensures Filled(b, ms, n + 1)
    ensures e.id == IdOf(ms[n].key) && e.val == ms[n].val && e.kv == old(b.used) && b.used == LinkOf(false, e)
    ensures SetLands(old(b.forest[0]).tree, IdOf(ms[n].key), ms[n].val, e, b.forest[0].tree)
  {
    hide Holding, Image, Planted, Linked, Anchored, SetMeans, SetLands, RunMeans, HashesFrom, All, ValidRecs,
         Route, Dated, InOrder, RecordAt, TreeShape, HashSorted, HashFresh, AllAlone, PathRoom, Counted,
         Generation, Storable;
    ghost var t, h, k := b.forest[0].tree, b.forest[0].height, IdOf(ms[n].key);
    RootFacts(b.nodes, b.recs, b.forest, 0);
    RootCount(b.nodes, b.recs, b.forest, 0);
    RunOfObject(b.nodes, b.recs, b.forest, 0);
    Affords(ms, n);
    NotYet(t, ms, n);
    LeafRun(t);
    RoomForSet(t, h, k);
    CountedNext(b.log);
    e := b.SetScalar(0, ms[n].key, ms[n].val);
    OneMore(t, k, ms[n].val, e, b.forest[0].tree, old(b.used), LinkOf(false, e), b.used);
    RootFacts(b.nodes, b.recs, b.forest, 0);
    RootCount(b.nodes, b.recs, b.forest, 0);
    LeafRun(b.forest[0].tree);
    NoneShape();
    RunNext(Node(0, [], []), 1, ms[..n], t, h, ms[n], e, b.forest[0].tree);
    assert ms[..n + 1] == ms[..n] + [ms[n]];
  }

  lemma NoneShape()
    ensures TreeShape(Node(0, [], []), 1) && InOrder(Node(0, [], [])) == [] && HashSorted([])
  {
  }

  lemma Affords(ms: seq<Setting>, n: nat)
    requires Affordable(ms) && n < |ms|
    ensures ValidRec(Rec(true, ms[n].key, ms[n].val)) && !Nests(ms[n].val)
    ensures AllAlone([], ms) && NODE_SIZE + CostOfSets(ms[..n]) + SET_MARGIN <= U32_LIMIT
    ensures CostOfSets(ms[..n + 1]) == CostOfSets(ms[..n]) + CostOf(ms[n])
  {
    CostGrows(ms, n);
    assert ms[..n + 1][..n] == ms[..n];
  }

  /** As many as fit the root. */
  method FillRoot(ms: seq<Setting>) returns (b: Buffer)
    requires Affordable(ms) && |ms| == KEYS_MAX
    ensures fresh(b) && Filled(b, ms, KEYS_MAX)
  {
    b := NewObject(ms);
    var n := 0;
    while n < KEYS_MAX
      invariant n <= KEYS_MAX && Filled(b, ms, n) && fresh(b)
    {
      ghost var e := SetAnother(b, ms, n);
      n := n + 1;
    }
  }

  // ----- an iterator that does not notice

  lemma Eighth(t: Tree, k: Id, v: Value, e: Entry, t': Tree)
    requires HashFresh(InOrder(t), k.hash) && SetLands(t, k, v, e, t')
    ensures |InOrder(t')| == |InOrder(t)| + 1
  {
  }

  lemma CountedSplit(log: seq<Event>)
    ensures Counted(log + [Event(0, true)]) == 1
  {
    var next := log + [Event(0, true)];
    assert next[|next| - 1] == Event(0, true);
  }

  /** The eighth member splits the root. */
  method SetEighth(b: Buffer, ms: seq<Setting>)
    requires Affordable(ms) && |ms| > KEYS_MAX && Filled(b, ms, KEYS_MAX)
    modifies b
    ensures b.Coherent() && 0 in b.forest && !b.forest[0].isArr && |InOrder(b.forest[0].tree)| == KEYS_MAX + 1
    ensures |b.log| == KEYS_MAX + 1 && Counted(b.log) == 1 && b.used <= NODE_SIZE + CostOfSets(ms[..KEYS_MAX + 1])
  {
    hide Holding, Image, Planted, Linked, Anchored, SetMeans, SetLands, RunMeans, HashesFrom, All, ValidRecs,
         Route, Dated, InOrder, RecordAt, TreeShape, HashSorted, HashFresh, AllAlone, PathRoom, Counted,
         Generation, Storable;
    ghost var t, h, k := b.forest[0].tree, b.forest[0].height, IdOf(ms[KEYS_MAX].key);
    RootFacts(b.nodes, b.recs, b.forest, 0);
    RootCount(b.nodes, b.recs, b.forest, 0);
    Affords(ms, KEYS_MAX);
    NotYet(t, ms, KEYS_MAX);
    LeafRun(t);
    RoomForSet(t, h, k);
    CountedSplit(b.log);
    ghost var e := b.SetScalar(0, ms[KEYS_MAX].key, ms[KEYS_MAX].val);
    Eighth(t, k, ms[KEYS_MAX].val, e, b.forest[0].tree);
  }

  /** And the ninth finds it with room. */
  method SetNinth(b: Buffer, ms: seq<Setting>)
    requires Affordable(ms) && |ms| == 9 && b.Coherent() && 0 in b.forest && !b.forest[0].isArr
    requires |InOrder(b.forest[0].tree)| == KEYS_MAX + 1 && b.used <= NODE_SIZE + CostOfSets(ms[..KEYS_MAX + 1])
    modifies b
    ensures b.Coherent() && 0 in b.forest && |b.log| == old(|b.log|) + 1
    ensures old(Counted(b.log)) == 1 ==> Counted(b.log) == 2
  {
    hide Holding, Image, Planted, Linked, Anchored, SetMeans, SetLands, RunMeans, HashesFrom, All, ValidRecs,
         Route, Dated, InOrder, RecordAt, TreeShape, HashSorted, HashFresh, AllAlone, PathRoom, Counted,
         Generation, Storable;
    RootFacts(b.nodes, b.recs, b.forest, 0);
    RootCount(b.nodes, b.recs, b.forest, 0);
    EightEntries(b.forest[0].tree, b.forest[0].height);
    Affords(ms, KEYS_MAX + 1);
    RoomForSet(b.forest[0].tree, b.forest[0].height, IdOf(ms[KEYS_MAX + 1].key));
    if Counted(b.log) == 1 { CountedNext(b.log); }
    ghost var e := b.SetScalar(0, ms[KEYS_MAX + 1].key, ms[KEYS_MAX + 1].val);
  }

  /**
   Nine members are set in a new object and an iterator is taken after the first of them. It is dereferenced after the
   ninth as if nothing had happened: the split of the root at the eighth has set its generation back.
   */
  method IteratorPasses(ms: seq<Setting>) returns (b: Buffer, r: Result<Item>)
    requires Affordable(ms) && |ms| == 9
    ensures fresh(b) && b.Coherent() && |b.log| == 9
    ensures r.Ok? && r.value.key == ms[0].key
  {
    hide Holding, Image, Planted, Linked, Anchored, RunMeans, HashesFrom, Dated, SetLands, InOrder, Counted,
         StackFits, All, ValidRecs, Affordable, Pending, Generation;
    b := NewObject(ms);
    ghost var t0 := b.forest[0].tree;
    ghost var e := SetAnother(b, ms, 0);
    LeafRun(b.forest[0].tree);
    FirstEntry(t0, ms[0], e, b.forest[0].tree);
    var it := Begin(b, 0);
    var n := 1;
    while n < KEYS_MAX
      invariant 1 <= n <= KEYS_MAX && Filled(b, ms, n) && fresh(b)
      invariant fresh(it) && it.buffer == b && it.generation == 2 && it.current.key == ms[0].key
    {
      e := SetAnother(b, ms, n);
      n := n + 1;
    }
    SetEighth(b, ms);
    SetNinth(b, ms);
    RootFacts(b.nodes, b.recs, b.forest, 0);
    r := it.Deref();
  }

  /** A set in a nested object goes unseen by every iterator, also by one over that object. */
  method NestedUnseen(b: Buffer, over: nat, ofs: nat, key: Key, v: Value) returns (r: Result<Item>)
    requires b.Settable(ofs, key, v) && !Nests(v) && ofs != 0
    requires over in b.forest && !b.forest[over].isArr && 0 < |InOrder(b.forest[over].tree)| <= ITER_ENTRIES_MAX
    modifies b
    ensures b.Coherent() && |b.log| == |old(b.log)| + 1
    ensures r == Ok(ItemOf(InOrder(old(b.forest[over]).tree)[0]))
  {
    hide Holding, Image, Planted, Linked, Dated, SetLands, SetMeans, InOrder, Counted, StackFits, All, ValidRecs,
         Pending, PathRoom;
    var it := Begin(b, over);
    ghost var e := b.SetScalar(ofs, key, v);
    NestedUnnoticed(old(b.log), b.log[|old(b.log)|..]);
    assert b.log == old(b.log) + b.log[|old(b.log)|..];
    RootFacts(b.nodes, b.recs, b.forest, 0);
    r := it.Deref();
  }

  /** After a set in the root object that does not split the root, an iterator is refused, and ++ makes it the end. */
  method StaleEnds(b: Buffer, ofs: nat, key: Key, v: Value) returns (r: Result<Item>, it: Iterator)
    requires b.Settable(0, key, v) && !Nests(v) && !Full(b.forest[0].tree)
    requires ofs in b.forest && !b.forest[ofs].isArr && 0 < |InOrder(b.forest[ofs].tree)| <= ITER_ENTRIES_MAX
    modifies b
    ensures b.Coherent() && r.Err? && it.buffer == null
  {
    hide Holding, Image, Planted, Linked, Dated, SetLands, SetMeans, InOrder, Counted, StackFits, All, ValidRecs,
         Pending, PathRoom, Generation, Anchored, RecordAt, Iterator.Stands, AllUnder, TreeShape, Rooted, Owned,
         KeyCount, OnlyAt, Uses, Nests, Djb2, ValidRec, RecLen;
    RootCount(b.nodes, b.recs, b.forest, 0);
    it := Begin(b, ofs);
    it.Current(InOrder(b.forest[ofs].tree));
    ghost var e := b.SetScalar(0, key, v);
    OnceMore(old(b.log));
    RootFacts(b.nodes, b.recs, b.forest, 0);
    r := it.Deref();
    it.FindNext();
  }

  lemma OnceMore(log: seq<Event>)
    ensures Counted(log + [Event(0, false)]) != Counted(log)
  {
    var next := [Event(0, false)];
    assert next[..0] == [];
    assert AtRoot(next) == 1;
    StaleWithoutSplit(log, next);
  }

  lemma FirstEntry(t0: Tree, m: Setting, e: Entry, t: Tree)
    requires t0.es == [] && t0.cs == [] && SetLands(t0, IdOf(m.key), m.val, e, t) && |InOrder(t)| == 1
    ensures InOrder(t)[0] == e
  {
  }

  // ----- a set that is lost

  /**
   Seven members fill the root of a new object. The one that comes fourth in the order of the iterator is set once
   more, to any value: the lookup still gives the old one.
   */
  method MedianLost(ms: seq<Setting>, v: Value) returns (b: Buffer, key: Key, ghost i: nat)
    requires Affordable(ms) && |ms| == KEYS_MAX && NODE_SIZE + CostOfSets(ms) + SET_MARGIN <= U32_LIMIT
    requires ValidValue(v) && !Nests(v)
    ensures fresh(b) && b.Coherent() && 0 in b.forest && |b.log| == KEYS_MAX + 1
    ensures i < |ms| && key == ms[i].key && Read(b.forest[0].tree, IdOf(key)) == Some(ms[i].val)
  {
    hide Holding, Image, Planted, Linked, Anchored, RunMeans, HashesFrom, Dated, SetLands, SetMeans, Counted,
         Misroutes;
    b := FillRoot(ms);
    var items := VisitAll(b, 0);
    ghost var t, h := b.forest[0].tree, b.forest[0].height;
    RootFacts(b.nodes, b.recs, b.forest, 0);
    LeafRun(t);
    key := items[KEYS_MIN].key;
    i := Origin(ms, t, h, KEYS_MIN);
    MedianOfFullRoot(t);
    RoomForSet(t, h, IdOf(key));
    assert ms[..KEYS_MAX] == ms;
    ghost var e := b.SetScalar(0, key, v);
    LostRead(t, IdOf(key), v, b.forest[0].tree);
  }

  lemma LostRead(t: Tree, k: Id, v: Value, t': Tree)
    requires SetMeans(t, k, v, t') && Ordered(InOrder(t), k) && Misroutes(t, k)
    ensures Read(t', k) == Read(t, k)
  {
  }

  /** Which member an entry of the filled root comes from. */
  lemma Origin(ms: seq<Setting>, t: Tree, h: nat, j: nat) returns (i: nat)
    requires AllAlone([], ms) && |ms| == KEYS_MAX && TreeShape(t, h) && t.cs == [] && j < |t.es| && InOrder(t) == t.es
    requires RunMeans(Node(0, [], []), ms[..KEYS_MAX], t) && HashesFrom([], ms[..KEYS_MAX], InOrder(t))
    ensures i < |ms| && t.es[j].id == IdOf(ms[i].key)
    ensures Ordered(InOrder(t), t.es[j].id) && Read(t, t.es[j].id) == Some(ms[i].val)
  {
    assert ms[..KEYS_MAX] == ms && InOrder(Node(0, [], [])) == [];
    var e := t.es[j];
    assert Touches(ms, e.id.hash);
    i :| 0 <= i < |ms| && Djb2(ms[i].key) == e.id.hash;
    hide Touches, Ordered, HashesFrom;
    assert Alone([], ms, i);
    assert Gives(t, e.id, if e.id == IdOf(ms[i].key) then Some(ms[i].val) else None);
    FindOrdered(t, h, RootLeast(h), e.id);
    LookupUnique(InOrder(t), j);
  }

  // ----- an object put over a Null

  /**
   Two members are set, the first of them to Null, and then the first is made an object: its root is written over the
   record of the second, which does not even keep the tag of its key, and no reading of the bytes has both.
   */
  method NullThenObject(ms: seq<Setting>) returns (b: Buffer, ghost e1: Entry)
    requires Affordable(ms) && |ms| == 2 && ms[0].val == Value(Null, [])
    ensures fresh(b) && |b.log| == 3 && 0 in b.forest
    ensures e1 in InOrder(b.forest[0].tree) && e1.id == IdOf(ms[1].key) && e1.val == ms[1].val
    ensures e1.kv < |b.data| && b.data[e1.kv] != KeyTag(|ms[1].key|)
    ensures !Legible(b.data, b.used, b.forest)
  {
    hide Holding, Image, Planted, Linked, Anchored, RunMeans, HashesFrom, Dated, SetLands, SetMeans, Counted,
         Misroutes, All, ValidRecs, InOrder, Reuses, EndOfRecord, HasPlace, Legible, PathRoom, TreeShape,
         Generation, RoomyWalk, AllAlone;
    b := NewObject(ms);
    ghost var none := b.forest[0].tree;
    ghost var e0 := SetAnother(b, ms, 0);
    ghost var t0 := b.forest[0].tree;
    LeafRun(t0);
    FirstEntry(none, ms[0], e0, t0);
    e1 := SetAnother(b, ms, 1);
    ghost var t, h, k := b.forest[0].tree, b.forest[0].height, IdOf(ms[0].key);
    RootFacts(b.nodes, b.recs, b.forest, 0);
    LeafRun(t);
    RoomForSet(t, h, k);
    ghost var i := TwoEntries(ms, t0, e0, e1, t);
    NoPlaceBefore(b.Here(), 0, k, 0, i);
    var n, e := b.SetNested(0, ms[0].key, false);
    Stays(t, k, Nested(false), e, b.forest[0].tree, i);
    NoTag(|ms[1].key|);
  }

  lemma NoTag(len: nat)
    ensures KeyTag(len) != Code(Object)
  {
  }

  /** An entry of another key is still there. */
  lemma Stays(t: Tree, k: Id, v: Value, e: Entry, t': Tree, i: nat)
    requires SetLands(t, k, v, e, t') && i < |InOrder(t)| && InOrder(t)[i].id != k
    ensures InOrder(t)[i] in InOrder(t')
  {
    var p := Route(t, k);
    assert InOrder(t')[if p.found || i < p.pos then i else i + 1] == InOrder(t)[i];
  }

  // ----- an object put over an object

  /** A member is made an object, then Null, then an object again: that goes well, and the root is where it was. */
  method ObjectAgain(key: Key) returns (b: Buffer, n: nat)
    requires |key| <= KEY_MAX
    ensures fresh(b) && b.Coherent() && n in b.forest && b.forest[n] == EmptyRoot(n, false)
    ensures Read(b.forest[0].tree, IdOf(key)) == Some(Nested(false))
  {
    hide Holding, Image, Planted, Linked, Anchored, Dated, SetLands, SetMeans, Counted, All, ValidRecs, InOrder,
         Reuses, EndOfRecord, HasPlace, Legible, PathRoom, TreeShape, Generation, LinkOf, InPlace, RoomyWalk,
         LastChildrenUnset, EmptyRoot;
    b := new Buffer();
    var ofs := b.InitStructure(false);
    ghost var k, none := IdOf(key), b.forest[0].tree;
    ghost var e: Entry;
    EmptyTree(0);
    NoneReuses(none, k);
    PlaceUnlessReused(b.Here(), 0, k);
    RootFacts(b.nodes, b.recs, b.forest, 0);
    RoomForSet(none, b.forest[0].height, k);
    n, e := b.SetNested(0, key, false);
    ghost var t := b.forest[0].tree;
    RootFacts(b.nodes, b.recs, b.forest, 0);
    FirstTime(none, k, false, e, t, b.forest[0].height);
    RoomForSet(t, b.forest[0].height, k);
    ghost var e' := b.SetScalar(0, key, Value(Null, []));
    ghost var t' := b.forest[0].tree;
    RootFacts(b.nodes, b.recs, b.forest, 0);
    SecondTime(t, k, e, e', t', b.forest[0].height);
    RoomForSet(t', b.forest[0].height, k);
    PlaceOverTree(b.Here(), b.nodes, b.recs, b.spare, 0, k);
    EmptyUnset(b.nodes, b.recs, b.forest, n);
    n, e := b.SetNested(0, key, false);
    RootFacts(b.nodes, b.recs, b.forest, 0);
    ThirdTime(t', k, e', e, b.forest[0].tree, b.forest[0].height);
  }

  lemma NoneReuses(none: Tree, k: Id)
    requires none.es == [] && none.cs == []
    ensures !Reuses(none, k) && InOrder(none) == []
  {
    LeafRoute(none, k);
  }

  lemma EmptyTree(n: nat)
    ensures EmptyRoot(n, false) == Root(false, Node(n, [], []), 1)
  {
  }

  lemma FirstTime(none: Tree, k: Id, isArr: bool, e: Entry, t: Tree, h: nat)
    requires none.es == [] && none.cs == [] && SetLands(none, k, Nested(isArr), e, t) && TreeShape(t, h)
    ensures t.cs == [] && t.es == [e] && InOrder(t) == [e] && e.id == k && e.val == Nested(isArr)
  {
    LeafRoute(none, k);
    SmallLeaf(t, h);
    LeafRoute(t, k);
  }

  /** A Null over the object: the record is patched, and ends where it did. */
  lemma SecondTime(t: Tree, k: Id, e: Entry, e': Entry, t': Tree, h: nat)
    requires t.cs == [] && t.es == [e] && e.id == k && e.val == Nested(false)
    requires SetLands(t, k, Value(Null, []), e', t') && TreeShape(t', h)
    requires InPlace(InOrder(t), Route(t, k), Value(Null, [])) ==> e'.kv == InOrder(t)[Route(t, k).pos].kv
    ensures t'.cs == [] && t'.es == [e'] && InOrder(t') == [e'] && e'.id == k
    ensures Reuses(t', k) && EndOfRecord(t', k) == LinkOf(false, e)
  {
    CompareOrder(k, k, k);
    LeafRoute(t, k);
    SearchIs(t.es, k, 0);
    SmallLeaf(t', h);
    LeafRoute(t', k);
    assert t'.es == [e'];
    SearchIs(t'.es, k, 0);
  }

  lemma ThirdTime(t: Tree, k: Id, e: Entry, e': Entry, t': Tree, h: nat)
    requires t.cs == [] && t.es == [e] && e.id == k && SetLands(t, k, Nested(false), e', t') && TreeShape(t', h)
    ensures Read(t', k) == Some(Nested(false))
  {
    CompareOrder(k, k, k);
    LeafRoute(t, k);
    SearchIs(t.es, k, 0);
    SmallLeaf(t', h);
    LeafRoute(t', k);
    assert t'.es == [e'];
    SearchIs(t'.es, k, 0);
    assert Find(t', k) == Some(e');
  }

  lemma EmptyUnset(nodes: NodeMap, recs: RecMap, f: Forest, n: nat)
    requires Planted(nodes, recs, f) && n in f && f[n] == EmptyRoot(n, false)
    ensures n in nodes && LastChildrenUnset(nodes[n])
  {
    RootFacts(nodes, recs, f, n);
    assert Holds(nodes[n], [], []);
  }

  lemma TwoEntries(ms: seq<Setting>, t0: Tree, e0: Entry, e1: Entry, t: Tree) returns (i: nat)
    requires |ms| == 2 && AllAlone([], ms) && ms[0].val == Value(Null, [])
    requires t0.cs == [] && t0.es == [e0] && e0.id == IdOf(ms[0].key) && e0.val == ms[0].val
    requires t.cs == [] && |t.es| == 2 && SetLands(t0, IdOf(ms[1].key), ms[1].val, e1, t)
    requires e1.kv == LinkOf(false, e0)
    ensures e1.id != e0.id && Reuses(t, e0.id) && EndOfRecord(t, e0.id) == e1.kv && i < |InOrder(t)|
            && InOrder(t)[i] == e1 && 0 < e1.kv
  {
    assert Alone([], ms, 0);
    var k0, k1 := e0.id, IdOf(ms[1].key);
    assert k0 != k1;
    CompareOrder(k0, k1, k0);
    LeafRoute(t0, k1);
    LeafRoute(t, k0);
    i := Search(t0.es, k1);
    if i == 0 {
      assert t.es == [e1, e0];
      SearchIs(t.es, k0, 1);
    } else {
      assert t.es == [e0, e1];
      SearchIs(t.es, k0, 0);
    }
  }

  lemma LeafRoute(t: Tree, k: Id)
    requires t.cs == [] && !Full(t)
    ensures InOrder(t) == t.es && Route(t, k) == var i := Search(t.es, k); Place(i < |t.es| && t.es[i].id == k, i)
  {
  }
}
