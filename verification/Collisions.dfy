/**
 Two keys of one hash, one of them in the middle of a full root: whether the other can be set is decided by which of
 them comes first, byte by byte.
 */
module Collisions {
  import opened Wrappers
  import opened Records
  import opened Hash
  import opened Order
  import opened Trees
  import opened Routes
  import opened Lookups
  import opened Splits
  import opened Steps
  import opened Crowds
  import opened Refinement
  import opened Forests
  import opened Buffers
  import opened Runs
  import opened Cases

  /** A median of the key's hash is good for exactly the keys that come before it. */
  lemma BadMedianBytes(m: Entry, k: Id)
    requires m.id.hash == k.hash
    ensures BadMedian(m, k) <==> !Precedes(k.key, m.id.key)
  {
    CompareKeysBytes(k.key, m.id.key);
  }

  /** A full node whose median has the key's hash. */
  lemma MedianOfItsHash(t: Tree, k: Id)
    requires |t.es| == KEYS_MAX && Formed(t.es, t.cs) && t.es[KEYS_MIN].id.hash == k.hash
    ensures Misroutes(t, k) <==> !Precedes(k.key, t.es[KEYS_MIN].id.key) || Misroutes(LowHalf(t), k)
  {
    LowHalfRoute(t, k);
    BadMedianBytes(t.es[KEYS_MIN], k);
  }

  lemma RoomyLeaf(t: Tree, k: Id)
    requires t.cs == [] && !Full(t)
    ensures !Misroutes(t, k)
  {
    assert Misroutes(t, k) == MisroutesIn(t.es, t.cs, k);
  }

  /** In a full leaf root it is a map update for the keys before the median, and is lost for all others. */
  lemma TwinOfMedian(t: Tree, k: Id, v: Value, t': Tree)
    requires |t.es| == KEYS_MAX && t.cs == [] && t.es[KEYS_MIN].id.hash == k.hash
    requires Sorted(InOrder(t)) && SetMeans(t, k, v, t')
    ensures if Precedes(k.key, t.es[KEYS_MIN].id.key)
            then ReadsUpdated(t, k, v, t') && Sorted(InOrder(t'))
            else ReadsSame(t, t') && !Sorted(InOrder(t'))
  {
    hide Misroutes, SetMeans, Sorted, ReadsUpdated, ReadsSame;
    MedianOfItsHash(t, k);
    RoomyLeaf(LowHalf(t), k);
    SetRefines(t, k, v, t');
  }

  // ----- on a buffer

  /** Seven members, three of smaller and three of greater hashes than the fourth. */
  ghost predicate MiddleFourth(ms: seq<Setting>)
    requires |ms| == KEYS_MAX
  {
    && (forall i :: 0 <= i < KEYS_MIN ==> Djb2(ms[i].key) < Djb2(ms[KEYS_MIN].key))
    && (forall i :: KEYS_MIN < i < KEYS_MAX ==> Djb2(ms[i].key) > Djb2(ms[KEYS_MIN].key))
  }

  /** Where the members are in the filled root. */
  lemma EntryOf(ms: seq<Setting>, t: Tree, h: nat, i: nat) returns (j: nat)
    requires AllAlone([], ms) && i < |ms| == KEYS_MAX && TreeShape(t, h) && t.cs == [] && InOrder(t) == t.es
    requires RunMeans(Node(0, [], []), ms, t)
    ensures j < |t.es| && t.es[j].id == IdOf(ms[i].key) && Gives(t, IdOf(ms[i].key), Some(ms[i].val))
  {
    hide Ordered, Lookup;
    assert InOrder(Node(0, [], [])) == [];
    assert Alone([], ms, i);
    assert Gives(t, IdOf(ms[i].key), Some(ms[i].val));
    FindOrdered(t, h, RootLeast(h), IdOf(ms[i].key));
    var e := Lookup(t.es, IdOf(ms[i].key)).value;
    assert e in t.es && e.id == IdOf(ms[i].key);
    j :| 0 <= j < |t.es| && t.es[j] == e;
  }

  /** The fourth member is the fourth entry. */
  lemma InTheMiddle(ms: seq<Setting>, t: Tree, h: nat)
    requires |ms| == KEYS_MAX && MiddleFourth(ms) && AllAlone([], ms)
    requires TreeShape(t, h) && t.cs == [] && InOrder(t) == t.es
    requires RunMeans(Node(0, [], []), ms, t) && HashSorted(t.es) && |t.es| == KEYS_MAX
    ensures t.es[KEYS_MIN].id == IdOf(ms[KEYS_MIN].key)
  {
    hide RunMeans, TreeShape, Gives, InOrder;
    var a := EntryOf(ms, t, h, 0);
    var b := EntryOf(ms, t, h, 1);
    var c := EntryOf(ms, t, h, 2);
    var m := EntryOf(ms, t, h, 3);
    var x := EntryOf(ms, t, h, 4);
    var y := EntryOf(ms, t, h, 5);
    var z := EntryOf(ms, t, h, 6);
    DifferentHashes(ms);
    assert a != b && b != c && a != c && x != y && y != z && x != z;
    assert a < m && b < m && c < m && m < x && m < y && m < z;
  }

  lemma DifferentHashes(ms: seq<Setting>)
    requires AllAlone([], ms)
    ensures forall i, j :: 0 <= i < j < |ms| ==> Djb2(ms[i].key) != Djb2(ms[j].key)
  {
    forall i, j | 0 <= i < j < |ms| ensures Djb2(ms[i].key) != Djb2(ms[j].key) {
      assert Alone([], ms, i);
    }
  }

  /** Entries of different hashes, in the order of those, are sorted. */
  lemma SortedByHash(ms: seq<Setting>, t: Tree, h: nat)
    requires AllAlone([], ms) && |ms| == KEYS_MAX && TreeShape(t, h) && t.cs == [] && InOrder(t) == t.es
    requires RunMeans(Node(0, [], []), ms[..KEYS_MAX], t) && HashesFrom([], ms[..KEYS_MAX], InOrder(t))
    ensures forall j :: 0 <= j < |t.es| ==> Ordered(t.es, t.es[j].id)
    ensures Sorted(t.es)
  {
    hide RunMeans, TreeShape, InOrder, HashesFrom, Ordered;
    forall j | 0 <= j < |t.es| ensures Ordered(t.es, t.es[j].id) {
      var i := Origin(ms, t, h, j);
    }
    OrderedEach(t.es);
  }

  lemma OrderedEach(s: seq<Entry>)
    requires forall j :: 0 <= j < |s| ==> Ordered(s, s[j].id)
    ensures Sorted(s)
  {
    forall i, j | 0 <= i < j < |s| ensures Less(s[i].id, s[j].id) {
      assert Ordered(s, s[j].id);
      CompareOrder(s[j].id, s[j].id, s[j].id);
    }
  }

  lemma TwinReads(ms: seq<Setting>, t: Tree, h: nat, k: Id, v: Value, t': Tree)
    requires |ms| == KEYS_MAX && MiddleFourth(ms) && AllAlone([], ms)
    requires k.hash == Djb2(ms[KEYS_MIN].key) && k.key != ms[KEYS_MIN].key
    requires TreeShape(t, h) && t.cs == [] && |t.es| == KEYS_MAX && InOrder(t) == t.es
    requires RunMeans(Node(0, [], []), ms, t) && Sorted(t.es) && SetMeans(t, k, v, t')
    requires t.es[KEYS_MIN].id == IdOf(ms[KEYS_MIN].key)
    ensures Read(t', k) == if Precedes(k.key, ms[KEYS_MIN].key) then Some(v) else None
    ensures forall i :: 0 <= i < |ms| ==> Read(t', IdOf(ms[i].key)) == Some(ms[i].val)
  {
    TwinOfMedian(t, k, v, t');
    assert InOrder(Node(0, [], [])) == [] && Alone([], ms, KEYS_MIN);
    assert Gives(t, k, None);
    hide SetMeans, Sorted;
    forall i | 0 <= i < |ms| ensures Read(t', IdOf(ms[i].key)) == Some(ms[i].val) {
      assert Alone([], ms, i);
      assert Gives(t, IdOf(ms[i].key), Some(ms[i].val)) && IdOf(ms[i].key) != k;
    }
  }

  /**
   Seven members fill the root of a new object, and then a key of the hash of the fourth is set: it is found afterwards
   if it comes before the fourth, and not if it comes after. The seven are found in any case.
   */
  method SetTwin(ms: seq<Setting>, key: Key, v: Value) returns (b: Buffer)
    requires Affordable(ms) && |ms| == KEYS_MAX && MiddleFourth(ms)
    requires Djb2(key) == Djb2(ms[KEYS_MIN].key) && key != ms[KEYS_MIN].key
    requires |key| <= KEY_MAX && ValidValue(v) && !Nests(v)
    ensures fresh(b) && b.Coherent() && 0 in b.forest
    ensures Read(b.forest[0].tree, IdOf(key)) == if Precedes(key, ms[KEYS_MIN].key) then Some(v) else None
    ensures forall i :: 0 <= i < |ms| ==> Read(b.forest[0].tree, IdOf(ms[i].key)) == Some(ms[i].val)
  {
    hide Layout.Holding, Layout.Image, Planted, Linked, Anchored, RunMeans, HashesFrom, SetLands, SetMeans, Misroutes,
         MiddleFourth, AllAlone, Sorted, Ordered, HashSorted;
    b := FillRoot(ms);

    ghost var t, h := b.forest[0].tree, b.forest[0].height;
    RootFacts(b.nodes, b.recs, b.forest, 0);
    RunOfObject(b.nodes, b.recs, b.forest, 0);
    LeafRun(t);
    assert ms[..KEYS_MAX] == ms;
    SortedByHash(ms, t, h);
    InTheMiddle(ms, t, h);
    RoomForSet(t, h, IdOf(key));
    ghost var e := b.SetScalar(0, key, v);
    TwinReads(ms, t, h, IdOf(key), v, b.forest[0].tree);
  }

  /** "Ab" is kept when "BA" is in the middle, and "BA" is lost when "Ab" is. */
  method AbAndBA(ms: seq<Setting>, v: Value) returns (b: Buffer)
    requires Affordable(ms) && |ms| == KEYS_MAX && MiddleFourth(ms)
    requires ValidValue(v) && !Nests(v)
    requires ms[KEYS_MIN].key == [0x42, 0x41] || ms[KEYS_MIN].key == [0x41, 0x62]
    ensures fresh(b) && b.Coherent() && 0 in b.forest
    ensures ms[KEYS_MIN].key == [0x42, 0x41] ==> Read(b.forest[0].tree, IdOf([0x41, 0x62])) == Some(v)
    ensures ms[KEYS_MIN].key == [0x41, 0x62] ==> Read(b.forest[0].tree, IdOf([0x42, 0x41])) == None
  {
    hide Layout.Holding, Layout.Image, Planted, Linked, Anchored, Djb2, Affordable;
    TwoLetterCollision();
    b := SetTwin(ms, if ms[KEYS_MIN].key == [0x42, 0x41] then [0x41, 0x62] else [0x42, 0x41], v);
  }
}
