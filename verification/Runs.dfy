/** Many sets on one object, and what can be said of them before the first one is made. */
module Runs {
  import opened Wrappers
  import opened Bytes
  import opened Records
  import opened Layout
  import opened Hash
  import opened Order
  import opened Trees
  import opened Routes
  import opened Lookups
  import opened Steps
  import opened Heights
  import opened Crowds
  import opened Paths
  import opened Nodes
  import opened Turns
  import opened Refinement
  import opened Forests
  import opened Generations
  import opened Stacks
  import opened Buffers
  import opened Iterators

  /** A key and the value it is to be set to. */
  datatype Setting = Setting(key: Key, val: Value)

  predicate Storable(ms: seq<Setting>) {
    forall i :: 0 <= i < |ms| ==> ValidRec(Rec(true, ms[i].key, ms[i].val)) && !Nests(ms[i].val)
  }

  /** Bytes that setting a member takes at most. */
  function CostOf(m: Setting): nat {
    SPLITS_BYTES + RecLen(Rec(true, m.key, m.val))
  }

  function CostOfSets(ms: seq<Setting>): nat
    decreases |ms|
  {
    if ms == [] then 0 else CostOfSets(ms[..|ms| - 1]) + CostOf(ms[|ms| - 1])
  }

  lemma CostOpens(ms: seq<Setting>)
    ensures CostOfSets(ms[..0]) == 0 && CostOfSets(ms[..|ms|]) == CostOfSets(ms)
  {
    assert ms[..|ms|] == ms;
  }

  lemma CostNext(ms: seq<Setting>, i: nat)
    requires i < |ms|
    ensures CostOfSets(ms[..i + 1]) == CostOfSets(ms[..i]) + CostOf(ms[i]) <= CostOfSets(ms)
  {
    CostGrows(ms, i + 1);
    assert ms[..i + 1][..i] == ms[..i];
  }

  lemma {:induction false} CostGrows(ms: seq<Setting>, n: nat)
    requires n <= |ms|
    ensures CostOfSets(ms[..n]) <= CostOfSets(ms)
    decreases |ms|
  {
    if n < |ms| {
      CostGrows(ms[..|ms| - 1], n);
      assert ms[..|ms| - 1][..n] == ms[..n];
    } else {
      assert ms[..n] == ms;
    }
  }

  ghost predicate Touches(ms: seq<Setting>, hash: U32) {
    exists i :: 0 <= i < |ms| && Djb2(ms[i].key) == hash
  }

  /** Setting i is the only one of its hash, among the members and in the object. */
  ghost predicate Alone(s: seq<Entry>, ms: seq<Setting>, i: nat) {
    && i < |ms| && HashFresh(s, Djb2(ms[i].key))
    && forall j :: 0 <= j < |ms| && j != i ==> Djb2(ms[j].key) != Djb2(ms[i].key)
  }

  /** The lookup of q gives what v says, and will go on doing so as long as no set has the hash of q. */
  ghost predicate Gives(t: Tree, q: Id, v: Option<Value>) {
    Ordered(InOrder(t), q) && Read(t, q) == v
  }

  /** What the sets of the members, in their order, have made of the lookups in an object. */
  ghost predicate RunMeans(t: Tree, ms: seq<Setting>, t': Tree) {
    && (forall q: Id :: !Touches(ms, q.hash) && Ordered(InOrder(t), q) ==> Gives(t', q, Read(t, q)))
    && (forall i: nat, q: Id :: i < |ms| && Alone(InOrder(t), ms, i) && q.hash == Djb2(ms[i].key) ==>
          Gives(t', q, if q == IdOf(ms[i].key) then Some(ms[i].val) else None))
  }

  /** Hashes in the object come from it or from the members. */
  ghost predicate HashesFrom(s: seq<Entry>, ms: seq<Setting>, s': seq<Entry>) {
    forall i :: 0 <= i < |s'| ==> !HashFresh(s, s'[i].id.hash) || Touches(ms, s'[i].id.hash)
  }

  // ----- one set more

  lemma TouchesNext(ms: seq<Setting>, m: Setting, hash: U32)
    ensures Touches(ms + [m], hash) <==> Touches(ms, hash) || Djb2(m.key) == hash
  {
    var ms' := ms + [m];
    if Touches(ms, hash) {
      var i :| 0 <= i < |ms| && Djb2(ms[i].key) == hash;
      assert ms'[i] == ms[i];
    }
    assert ms'[|ms|] == m;
  }

  lemma AloneBefore(s: seq<Entry>, ms: seq<Setting>, m: Setting, i: nat)
    requires Alone(s, ms + [m], i)
    ensures if i < |ms| then Alone(s, ms, i) && Djb2(m.key) != Djb2(ms[i].key)
            else HashFresh(s, Djb2(m.key)) && !Touches(ms, Djb2(m.key))
  {
    var ms' := ms + [m];
    assert ms'[|ms|] == m && forall j :: 0 <= j < |ms| ==> ms'[j] == ms[j];
  }

  /** A key of a hash that is not there can be asked for in any object. */
  lemma FreshOrdered(s: seq<Entry>, q: Id)
    requires HashSorted(s) && HashFresh(s, q.hash)
    ensures Ordered(s, q)
  {
  }

  lemma FreshUnread(t: Tree, h: nat, q: Id)
    requires TreeShape(t, h) && HashSorted(InOrder(t)) && HashFresh(InOrder(t), q.hash)
    ensures Gives(t, q, None)
  {
    FreshOrdered(InOrder(t), q);
    FindOrdered(t, h, RootLeast(h), q);
    LookupFresh(InOrder(t), q);
  }

  lemma {:induction false} LookupFresh(s: seq<Entry>, q: Id)
    requires HashFresh(s, q.hash)
    ensures Lookup(s, q) == None
    decreases |s|
  {
    if s != [] { LookupFresh(s[1..], q); }
  }

  lemma FreshNow(s: seq<Entry>, ms: seq<Setting>, s': seq<Entry>, hash: U32)
    requires HashesFrom(s, ms, s') && HashFresh(s, hash) && !Touches(ms, hash)
    ensures HashFresh(s', hash)
  {
  }

  lemma RunNext(t: Tree, h: nat, ms: seq<Setting>, t1: Tree, h1: nat, m: Setting, e: Entry, t2: Tree)
    requires TreeShape(t, h) && HashSorted(InOrder(t)) && TreeShape(t1, h1) && HashSorted(InOrder(t1))
    requires RunMeans(t, ms, t1) && HashesFrom(InOrder(t), ms, InOrder(t1))
    requires SetMeans(t1, IdOf(m.key), m.val, t2) && SetLands(t1, IdOf(m.key), m.val, e, t2)
    ensures RunMeans(t, ms + [m], t2) && HashesFrom(InOrder(t), ms + [m], InOrder(t2))
  {
    hide Ordered, TreeShape, HashSorted, HashFresh, Touches, Alone, SetLands, Misroutes;
    forall q: Id | !Touches(ms + [m], q.hash) && Ordered(InOrder(t), q) ensures Gives(t2, q, Read(t, q)) {
      TouchesNext(ms, m, q.hash);
      assert Gives(t1, q, Read(t, q));
      KeepsOther(t1, m, t2, q);
    }
    var ms' := ms + [m];
    forall i: nat, q: Id | i < |ms'| && Alone(InOrder(t), ms', i) && q.hash == Djb2(ms'[i].key)
      ensures Gives(t2, q, if q == IdOf(ms'[i].key) then Some(ms'[i].val) else None)
    {
      AloneBefore(InOrder(t), ms, m, i);
      if i < |ms| {
        assert Gives(t1, q, if q == IdOf(ms[i].key) then Some(ms[i].val) else None);
        KeepsOther(t1, m, t2, q);
      } else {
        assert ms'[i] == m;
        FreshNow(InOrder(t), ms, InOrder(t1), q.hash);
        SetsFresh(t1, h1, m, t2, q);
      }
    }
    LandsFrom(InOrder(t), ms, t1, m, e, t2);
  }

  lemma KeepsOther(t1: Tree, m: Setting, t2: Tree, q: Id)
    requires HashSorted(InOrder(t1)) && SetMeans(t1, IdOf(m.key), m.val, t2) && q.hash != Djb2(m.key)
             && Ordered(InOrder(t1), q)
    ensures Gives(t2, q, Read(t1, q))
  {
    hide Ordered, HashSorted, Misroutes;
  }

  lemma SetsFresh(t1: Tree, h1: nat, m: Setting, t2: Tree, q: Id)
    requires TreeShape(t1, h1) && HashSorted(InOrder(t1)) && SetMeans(t1, IdOf(m.key), m.val, t2)
    requires HashFresh(InOrder(t1), q.hash) && q.hash == Djb2(m.key)
    ensures Gives(t2, q, if q == IdOf(m.key) then Some(m.val) else None)
  {
    FreshHashRoutes(t1, h1, RootLeast(h1), IdOf(m.key));
    hide TreeShape, HashFresh, HashSorted, Ordered, Misroutes;
    FreshUnread(t1, h1, q);
    FreshUnread(t1, h1, IdOf(m.key));
  }

  lemma LandsFrom(s: seq<Entry>, ms: seq<Setting>, t1: Tree, m: Setting, e: Entry, t2: Tree)
    requires HashesFrom(s, ms, InOrder(t1)) && SetLands(t1, IdOf(m.key), m.val, e, t2)
    ensures HashesFrom(s, ms + [m], InOrder(t2))
  {
    var s1, s2 := InOrder(t1), InOrder(t2);
    hide Touches, HashFresh;
    forall i | 0 <= i < |s2| ensures !HashFresh(s, s2[i].id.hash) || Touches(ms + [m], s2[i].id.hash) {
      TouchesNext(ms, m, s2[i].id.hash);
      LandedMember(s1, Route(t1, IdOf(m.key)), e, i);
    }
  }

  /** Nothing has been set yet. */
  lemma RunNone(t: Tree)
    ensures RunMeans(t, [], t) && HashesFrom(InOrder(t), [], InOrder(t))
  {
    var s := InOrder(t);
    forall i | 0 <= i < |s| ensures !HashFresh(s, s[i].id.hash) {
      assert s[i].id.hash == s[i].id.hash;
    }
    hide Ordered;
  }

  // ----- the whole run

  /** Members that have hashes of their own, none of them there before. */
  ghost predicate AllAlone(s: seq<Entry>, ms: seq<Setting>) {
    forall i :: 0 <= i < |ms| ==> Alone(s, ms, i)
  }

  /** The value that the last member of a key has, or else what was there. */
  ghost function AfterSets(t: Tree, ms: seq<Setting>, q: Id): Option<Value>
    decreases |ms|
  {
    if ms == [] then Read(t, q)
    else if q == IdOf(ms[|ms| - 1].key) then Some(ms[|ms| - 1].val)
    else AfterSets(t, ms[..|ms| - 1], q)
  }

  lemma {:induction false} AfterSetsAlone(t: Tree, ms: seq<Setting>, q: Id)
    ensures !Touches(ms, q.hash) ==> AfterSets(t, ms, q) == Read(t, q)
    ensures forall i :: 0 <= i < |ms| && Alone(InOrder(t), ms, i) && q.hash == Djb2(ms[i].key) ==>
              AfterSets(t, ms, q) == if q == IdOf(ms[i].key) then Some(ms[i].val) else Read(t, q)
    decreases |ms|
  {
    if ms != [] {
      var less, m := ms[..|ms| - 1], ms[|ms| - 1];
      assert ms == less + [m];
      AfterSetsAlone(t, less, q);
      TouchesNext(less, m, q.hash);
      forall i | 0 <= i < |ms| && Alone(InOrder(t), ms, i) && q.hash == Djb2(ms[i].key)
        ensures AfterSets(t, ms, q) == if q == IdOf(ms[i].key) then Some(ms[i].val) else Read(t, q)
      {
        AloneBefore(InOrder(t), less, m, i);
      }
    }
  }

  /** Sets of such members refine the updates of a map, one after the other, whatever splits they meet. */
  lemma RunRefines(t: Tree, h: nat, ms: seq<Setting>, t': Tree)
    requires TreeShape(t, h) && HashSorted(InOrder(t)) && Sorted(InOrder(t))
    requires AllAlone(InOrder(t), ms) && RunMeans(t, ms, t')
    ensures Sorted(InOrder(t'))
    ensures forall q :: Read(t', q) == AfterSets(t, ms, q)
  {
    hide Ordered, Sorted, Alone, TreeShape, HashSorted;
    SortedOrdered(InOrder(t));
    SortedOrdered(InOrder(t'));
    forall q: Id ensures Gives(t', q, AfterSets(t, ms, q)) {
      AfterSetsAlone(t, ms, q);
      if Touches(ms, q.hash) {
        var i :| 0 <= i < |ms| && Djb2(ms[i].key) == q.hash;
        AloneFresh(InOrder(t), ms, i);
        FreshUnread(t, h, q);
        assert Gives(t', q, if q == IdOf(ms[i].key) then Some(ms[i].val) else None);
      } else {
        assert Gives(t', q, Read(t, q));
      }
    }
    forall q: Id ensures Ordered(InOrder(t'), q) {
      assert Gives(t', q, AfterSets(t, ms, q));
    }
  }

  lemma AloneFresh(s: seq<Entry>, ms: seq<Setting>, i: nat)
    requires i < |ms| && AllAlone(s, ms)
    ensures Alone(s, ms, i) && HashFresh(s, Djb2(ms[i].key))
  {
  }

  /** The first i of the sets have been made in the object at ofs, and nothing else. */
  ghost predicate SetSoFar(f0: Forest, ofs: nat, ms: seq<Setting>, i: nat, f: Forest) {
    && i <= |ms| && OnlyAt(f0, ofs, f) && ofs in f0 && ofs in f && !f[ofs].isArr
    && RunMeans(f0[ofs].tree, ms[..i], f[ofs].tree)
    && HashesFrom(InOrder(f0[ofs].tree), ms[..i], InOrder(f[ofs].tree))
    && |InOrder(f[ofs].tree)| <= |InOrder(f0[ofs].tree)| + i
  }

  lemma SetNone(f0: Forest, ofs: nat, ms: seq<Setting>)
    requires ofs in f0 && !f0[ofs].isArr
    ensures SetSoFar(f0, ofs, ms, 0, f0)
  {
    hide RunMeans, HashesFrom;
    RunNone(f0[ofs].tree);
    assert ms[..0] == [];
  }

  lemma SetFacts(f0: Forest, ofs: nat, ms: seq<Setting>, i: nat, f: Forest)
    requires SetSoFar(f0, ofs, ms, i, f)
    ensures OnlyAt(f0, ofs, f) && ofs in f0 && ofs in f && !f[ofs].isArr
    ensures |InOrder(f[ofs].tree)| <= |InOrder(f0[ofs].tree)| + i
    ensures i == |ms| ==> RunMeans(f0[ofs].tree, ms, f[ofs].tree)
    ensures i == |ms| ==> HashesFrom(InOrder(f0[ofs].tree), ms, InOrder(f[ofs].tree))
  {
    hide RunMeans, HashesFrom;
    assert i == |ms| ==> ms[..i] == ms;
  }

  lemma SetNext(f0: Forest, ofs: nat, ms: seq<Setting>, i: nat, f: Forest, e: Entry, f': Forest)
    requires SetSoFar(f0, ofs, ms, i, f) && i < |ms| && OnlyAt(f, ofs, f') && ofs in f' && !f'[ofs].isArr
    requires TreeShape(f0[ofs].tree, f0[ofs].height) && HashSorted(InOrder(f0[ofs].tree))
    requires TreeShape(f[ofs].tree, f[ofs].height) && HashSorted(InOrder(f[ofs].tree))
    requires SetMeans(f[ofs].tree, IdOf(ms[i].key), ms[i].val, f'[ofs].tree)
    requires SetLands(f[ofs].tree, IdOf(ms[i].key), ms[i].val, e, f'[ofs].tree)
    requires |InOrder(f'[ofs].tree)| <= |InOrder(f[ofs].tree)| + 1
    ensures SetSoFar(f0, ofs, ms, i + 1, f')
  {
    hide RunMeans, HashesFrom, SetMeans, SetLands, TreeShape, HashSorted, InOrder;
    RunNext(f0[ofs].tree, f0[ofs].height, ms[..i], f[ofs].tree, f[ofs].height, ms[i], e, f'[ofs].tree);
    assert ms[..i + 1] == ms[..i] + [ms[i]];
  }

  /** The next set of a run. */
  method SetOne(b: Buffer, ofs: nat, ms: seq<Setting>, i: nat, ghost f0: Forest)
    requires b.Coherent() && SetSoFar(f0, ofs, ms, i, b.forest) && i < |ms| && Storable(ms)
    requires TreeShape(f0[ofs].tree, f0[ofs].height) && HashSorted(InOrder(f0[ofs].tree))
    requires |InOrder(f0[ofs].tree)| + |ms| <= SET_ENTRIES_MAX
    requires b.used + CostOf(ms[i]) + SET_MARGIN <= U32_LIMIT
    modifies b
    ensures b.Coherent() && SetSoFar(f0, ofs, ms, i + 1, b.forest) && b.used <= old(b.used) + CostOf(ms[i])
    ensures |b.log| == |old(b.log)| + 1 && old(b.log) <= b.log && b.log[|old(b.log)|].ofs == ofs
  {
    hide Holding, Image, Planted, Linked, Anchored, Dated, SetMeans, SetLands, RunMeans, HashesFrom, InOrder, All,
         ValidRecs, SetSoFar, TreeShape, HashSorted, PathRoom;
    ghost var f := b.forest;
    SetFacts(f0, ofs, ms, i, f);
    RootFacts(b.nodes, b.recs, f, ofs);
    RunOfObject(b.nodes, b.recs, f, ofs);
    RoomForSet(f[ofs].tree, f[ofs].height, IdOf(ms[i].key));
    ghost var e := b.SetScalar(ofs, ms[i].key, ms[i].val);
    SetNext(f0, ofs, ms, i, f, e, b.forest);
  }

  /** A loop of sets on the object at ofs. */
  method SetAll(b: Buffer, ofs: nat, ms: seq<Setting>)
    requires b.Coherent() && ofs in b.forest && !b.forest[ofs].isArr && Storable(ms)
    requires |InOrder(b.forest[ofs].tree)| + |ms| <= SET_ENTRIES_MAX
    requires b.used + CostOfSets(ms) + SET_MARGIN <= U32_LIMIT
    modifies b
    ensures b.Coherent() && OnlyAt(old(b.forest), ofs, b.forest) && ofs in b.forest && !b.forest[ofs].isArr
    ensures RunMeans(old(b.forest[ofs]).tree, ms, b.forest[ofs].tree)
    ensures HashesFrom(InOrder(old(b.forest[ofs]).tree), ms, InOrder(b.forest[ofs].tree))
    ensures b.used <= old(b.used) + CostOfSets(ms)
    ensures |b.log| == |old(b.log)| + |ms| && old(b.log) <= b.log
    ensures forall i :: |old(b.log)| <= i < |b.log| ==> b.log[i].ofs == ofs
  {
    hide Holding, Image, Planted, Linked, Anchored, Dated, RunMeans, HashesFrom, InOrder, All, ValidRecs, SetSoFar,
         TreeShape, HashSorted, CostOfSets;
    ghost var f0 := b.forest;
    RootFacts(b.nodes, b.recs, f0, ofs);
    RunOfObject(b.nodes, b.recs, f0, ofs);
    SetNone(f0, ofs, ms);
    CostOpens(ms);
    var i := 0;
    while i < |ms|
      invariant i <= |ms| && b.Coherent() && SetSoFar(f0, ofs, ms, i, b.forest)
      invariant b.used <= old(b.used) + CostOfSets(ms[..i])
      invariant |b.log| == |old(b.log)| + i && old(b.log) <= b.log
      invariant forall j :: |old(b.log)| <= j < |b.log| ==> b.log[j].ofs == ofs
    {
      CostNext(ms, i);
      SetOne(b, ofs, ms, i, f0);
      i := i + 1;
    }
    SetFacts(f0, ofs, ms, i, b.forest);
    CostOpens(ms);
  }

  // ----- sets during an enumeration

  /**
   A loop over the object at `over` that sets a member of another object, not at offset 0, after each entry it visits:
   it still visits every entry once, in order.
   */
  method VisitWhileSetting(b: Buffer, over: nat, ofs: nat, ms: seq<Setting>) returns (items: seq<Item>)
    requires b.Coherent() && over in b.forest && !b.forest[over].isArr && ofs in b.forest && !b.forest[ofs].isArr
    requires ofs != over && ofs != 0 && |InOrder(b.forest[over].tree)| <= ITER_ENTRIES_MAX
    requires Storable(ms) && |ms| == |InOrder(b.forest[over].tree)|
    requires |InOrder(b.forest[ofs].tree)| + |ms| <= SET_ENTRIES_MAX
    requires b.used + CostOfSets(ms) + SET_MARGIN <= U32_LIMIT
    modifies b
    ensures b.Coherent() && OnlyAt(old(b.forest), ofs, b.forest) && ofs in b.forest && !b.forest[ofs].isArr
    ensures RunMeans(old(b.forest[ofs]).tree, ms, b.forest[ofs].tree)
    ensures var run := InOrder(old(b.forest[over]).tree);
            |items| == |run| && forall i :: 0 <= i < |run| ==> items[i] == ItemOf(run[i])
  {
    hide Holding, Image, Planted, Linked, Anchored, Dated, RunMeans, HashesFrom, InOrder, All, ValidRecs, SetSoFar,
         Iterator.Stands, Counted, StackFits, AllUnder, Pending, CostOfSets, CostOf, TreeShape, HashSorted, Rooted,
         Owned;
    ghost var f0, run := b.forest, InOrder(b.forest[over].tree);
    RootFacts(b.nodes, b.recs, f0, ofs);
    RunOfObject(b.nodes, b.recs, f0, ofs);
    SetNone(f0, ofs, ms);
    CostOpens(ms);
    items := [];
    var it := Begin(b, over);
    assert run[0..] == run;
    while it.buffer != null
      invariant b.Coherent() && fresh(it) && fresh(it.stack) && it.home == f0[over].tree
      invariant it.buffer != null ==> it.buffer == b && it.generation == Counted(b.log)
      invariant |items| <= |run| && it.Stands(run[|items|..])
      invariant forall i :: 0 <= i < |items| ==> items[i] == ItemOf(run[i])
      invariant SetSoFar(f0, ofs, ms, |items|, b.forest) && b.used <= old(b.used) + CostOfSets(ms[..|items|])
      decreases |run| - |items|
    {
      it.Current(run[|items|..]);
      CostNext(ms, |items|);
      var item := VisitAndSet(b, it, over, ofs, ms, |items|, f0, run[|items|..]);
      items := items + [item];
    }
    it.Current(run[|items|..]);
    SetFacts(f0, ofs, ms, |items|, b.forest);
  }

  /** One entry, and the set after it. */
  method VisitAndSet(b: Buffer, it: Iterator, over: nat, ofs: nat, ms: seq<Setting>, i: nat, ghost f0: Forest,
                     ghost rest: seq<Entry>) returns (item: Item)
    requires b.Coherent() && it.buffer == b && it.generation == Counted(b.log) && it.Stands(rest)
    requires over in f0 && !f0[over].isArr && it.home == f0[over].tree && ofs != over && ofs != 0
    requires SetSoFar(f0, ofs, ms, i, b.forest) && i < |ms| && Storable(ms)
    requires TreeShape(f0[ofs].tree, f0[ofs].height) && HashSorted(InOrder(f0[ofs].tree))
    requires |InOrder(f0[ofs].tree)| + |ms| <= SET_ENTRIES_MAX && b.used + CostOf(ms[i]) + SET_MARGIN <= U32_LIMIT
    modifies b, it, it.stack
    ensures b.Coherent() && SetSoFar(f0, ofs, ms, i + 1, b.forest) && b.used <= old(b.used) + CostOf(ms[i])
    ensures it.stack == old(it.stack) && it.home == old(it.home) && it.generation == Counted(b.log)
    ensures rest != [] && item == ItemOf(rest[0]) && it.Stands(rest[1..]) && (it.buffer == null || it.buffer == b)
  {
    hide Holding, Image, Planted, Linked, Anchored, Dated, RunMeans, HashesFrom, InOrder, All, ValidRecs, SetSoFar,
         Iterator.Stands, Counted, StackFits, AllUnder, Pending, CostOf, TreeShape, HashSorted, Rooted, Owned;
    it.Current(rest);
    ghost var nodes0, recs0, log0 := b.nodes, b.recs, b.log;
    SetFacts(f0, ofs, ms, i, b.forest);
    GenerationHere(b);
    var got := it.Deref();
    item := got.value;
    SetOne(b, ofs, ms, i, f0);
    SetFacts(f0, ofs, ms, i + 1, b.forest);
    Unnoticed(b, log0);
    it.Undisturbed(nodes0, recs0, over);
    it.FindNext();
  }

  lemma GenerationHere(b: Buffer)
    requires b.Coherent() && b.forest != map[]
    ensures 0 in b.nodes && Generation(b.nodes[0]) == Counted(b.log)
  {
  }

  /** A call on another tree leaves the generation at offset 0. */
  lemma Unnoticed(b: Buffer, log0: seq<Event>)
    requires b.Coherent() && b.forest != map[] && |b.log| == |log0| + 1 && log0 <= b.log && b.log[|log0|].ofs != 0
    ensures 0 in b.nodes && Generation(b.nodes[0]) == Counted(b.log) == Counted(log0)
  {
    hide Holding, Image, Planted, Linked, Counted, All;
    assert b.log == log0 + b.log[|log0|..];
    NestedUnnoticed(log0, b.log[|log0|..]);
  }
}
