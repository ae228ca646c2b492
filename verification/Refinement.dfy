/**
 What one set means for lookups. A set refines the update of a map exactly when no full node on its walk hands
 up a bad median; otherwise it is lost, and every lookup answers as before.
 */
module Refinement {
  import opened Wrappers
  import opened Bytes
  import opened Records
  import opened Layout
  import opened Order
  import opened Trees
  import opened Routes
  import opened Lookups
  import opened Steps
  import opened Turns

  /** The value get_impl returns for k. */
  ghost function Read(t: Tree, k: Id): Option<Value> {
    match Find(t, k)
    case Some(e) => Some(e.val)
    case None => None
  }

  /** t1 reads as t with k set to v. */
  ghost predicate ReadsUpdated(t: Tree, k: Id, v: Value, t1: Tree) {
    forall q :: Read(t1, q) == if q == k then Some(v) else Read(t, q)
  }

  ghost predicate ReadsSame(t: Tree, t1: Tree) {
    forall q :: Read(t1, q) == Read(t, q)
  }

  /** Hashes stay in order over every set, also one that is lost. */
  lemma SetKeepsHashOrder(a: Call, h0: nat, recs: RecMap, isArr: bool, v: Value, r: Outcome)
    requires TreeShape(a.tree, h0) && HashSorted(InOrder(a.tree)) && Achieved(a, recs, isArr, v, r)
    ensures HashSorted(InOrder(r.tree))
  {
    var io, p := InOrder(a.tree), Route(a.tree, a.id);
    RouteHash(a.tree, h0, RootLeast(h0), a.id);
    var s := InOrder(r.tree);
    forall i, j | 0 <= i < j < |s| ensures s[i].id.hash <= s[j].id.hash {
      if p.found {
        assert s[i].id == io[i].id && s[j].id == io[j].id;
      } else {
        assert s[i] == if i < p.pos then io[i] else if i == p.pos then r.entry else io[i - 1];
        assert s[j] == if j < p.pos then io[j] else if j == p.pos then r.entry else io[j - 1];
      }
    }
  }

  /** An entry that lands in the right place leaves the run in order for every key it was in order for. */
  lemma LandedOrdered(s: seq<Entry>, p: Place, e: Entry, q: Id)
    requires Ordered(s, q) && Exact(s, e.id, p)
    ensures Ordered(Landed(s, p, e), q)
    ensures Landed(s, p, e)[p.pos] == e
  {
    var r := Landed(s, p, e);
    if p.found {
      assert forall i :: 0 <= i < |r| ==> r[i].id == s[i].id;
    } else {
      forall i, j | 0 <= i < j < |r| && !Less(r[i].id, q) ensures Less(q, r[j].id) {
        assert r[i] == if i < p.pos then s[i] else if i == p.pos then e else s[i - 1];
        assert r[j] == if j < p.pos then s[j] else if j == p.pos then e else s[j - 1];
        CompareOrder(q, r[i].id, r[j].id);
      }
    }
  }

  /** An entry of another hash does too, as long as it lands between the right hashes. */
  lemma LandedApart(s: seq<Entry>, p: Place, e: Entry, q: Id)
    requires Ordered(s, q) && e.id.hash != q.hash && Fits(s, e.id, p) && HashSorted(Landed(s, p, e))
    ensures Ordered(Landed(s, p, e), q)
  {
    var r := Landed(s, p, e);
    forall i, j | 0 <= i < j < |r| && !Less(r[i].id, q) ensures Less(q, r[j].id) {
      if p.found {
        assert r[i].id == s[i].id && r[j].id == s[j].id;
      } else {
        assert r[i] == if i < p.pos then s[i] else if i == p.pos then e else s[i - 1];
        assert r[j] == if j < p.pos then s[j] else if j == p.pos then e else s[j - 1];
      }
    }
  }

  lemma LookupUnique(s: seq<Entry>, i: nat)
    requires i < |s| && Ordered(s, s[i].id)
    ensures Lookup(s, s[i].id) == Some(s[i])
  {
    hide Less, Compare, Ordered;
    assert s == s[..i] + [s[i]] + s[i + 1..];
    FoundLookup(s[..i], s[i], s[i + 1..]);
  }

  /** A set whose walk meets no bad median is found, and the run stays in order for every key it was in order for. */
  lemma SetUpdates(a: Call, h0: nat, recs: RecMap, isArr: bool, v: Value, r: Outcome)
    requires TreeShape(a.tree, h0) && Ordered(InOrder(a.tree), a.id) && Achieved(a, recs, isArr, v, r)
    requires !Misroutes(a.tree, a.id)
    ensures forall q :: Ordered(InOrder(a.tree), q) ==> Ordered(InOrder(r.tree), q)
    ensures Read(r.tree, a.id) == Some(v)
  {
    var io, p := InOrder(a.tree), Route(a.tree, a.id);
    RouteVerdict(a.tree, h0, RootLeast(h0), a.id);
    forall q | Ordered(io, q) ensures Ordered(InOrder(r.tree), q) {
      LandedOrdered(io, p, r.entry, q);
    }
    LandedOrdered(io, p, r.entry, a.id);
    FindOrdered(r.tree, r.height, RootLeast(r.height), a.id);
    LookupUnique(InOrder(r.tree), p.pos);
  }

  /** A set led astray by a bad median is not found: its key reads as before, out of a run no longer in order for it. */
  lemma SetLost(a: Call, h0: nat, recs: RecMap, isArr: bool, v: Value, r: Outcome)
    requires TreeShape(a.tree, h0) && Ordered(InOrder(a.tree), a.id) && Achieved(a, recs, isArr, v, r)
    requires Misroutes(a.tree, a.id)
    ensures !Ordered(InOrder(r.tree), a.id)
    ensures Read(r.tree, a.id) == Read(a.tree, a.id)
  {
    var io, p := InOrder(a.tree), Route(a.tree, a.id);
    RouteVerdict(a.tree, h0, RootLeast(h0), a.id);
    var i :| p.pos <= i < |io| && !Less(a.id, io[i].id);
    CompareOrder(a.id, a.id, a.id);
    assert InOrder(r.tree)[p.pos] == r.entry && InOrder(r.tree)[i + 1] == io[i];
  }

  /** What one set makes of lookups: of its own key, of other keys, and which keys may still be asked for after it. */
  ghost predicate SetMeans(t: Tree, k: Id, v: Value, t1: Tree) {
    var s, s1 := InOrder(t), InOrder(t1);
    && (forall q :: q != k && Ordered(s, q) ==> Read(t1, q) == Read(t, q))
    && (Ordered(s, k) ==>
         && Read(t1, k) == (if Misroutes(t, k) then Read(t, k) else Some(v))
         && (Ordered(s1, k) <==> !Misroutes(t, k)))
    && (Ordered(s, k) && !Misroutes(t, k) ==> forall q :: Ordered(s, q) ==> Ordered(s1, q))
    && (HashSorted(s) ==> forall q: Id :: q.hash != k.hash && Ordered(s, q) ==> Ordered(s1, q))
  }

  lemma AchievedMeans(a: Call, h0: nat, recs: RecMap, isArr: bool, v: Value, r: Outcome)
    requires TreeShape(a.tree, h0) && Achieved(a, recs, isArr, v, r)
    ensures SetMeans(a.tree, a.id, v, r.tree)
  {
    hide Ordered, Misroutes, Route, Less;
    var io := InOrder(a.tree);
    if Ordered(io, a.id) {
      if Misroutes(a.tree, a.id) { SetLost(a, h0, recs, isArr, v, r); } else { SetUpdates(a, h0, recs, isArr, v, r); }
    }
    if HashSorted(io) {
      SetKeepsHashOrder(a, h0, recs, isArr, v, r);
      forall q: Id | q.hash != a.id.hash && Ordered(io, q) ensures Ordered(InOrder(r.tree), q) {
        LandedApart(io, Route(a.tree, a.id), r.entry, q);
      }
    }
  }

  /** Exactly when a set refines the update of the map that lookups in a sorted tree show. */
  lemma SetRefines(t: Tree, k: Id, v: Value, t1: Tree)
    requires Sorted(InOrder(t)) && SetMeans(t, k, v, t1)
    ensures ReadsUpdated(t, k, v, t1) <==> !Misroutes(t, k) || Read(t, k) == Some(v)
    ensures Misroutes(t, k) ==> ReadsSame(t, t1)
    ensures Sorted(InOrder(t1)) <==> !Misroutes(t, k)
  {
    hide Ordered, Sorted, Misroutes;
    SortedOrdered(InOrder(t));
    SortedOrdered(InOrder(t1));
  }

  /** The damage of a lost set stays within its hash: for keys of other hashes nothing has happened. */
  lemma DamageConfined(a: Call, h0: nat, recs: RecMap, isArr: bool, v: Value, r: Outcome, q: Id)
    requires TreeShape(a.tree, h0) && HashSorted(InOrder(a.tree)) && Achieved(a, recs, isArr, v, r)
    requires q.hash != a.id.hash && Ordered(InOrder(a.tree), q)
    ensures Read(r.tree, q) == Read(a.tree, q) && Ordered(InOrder(r.tree), q)
  {
    hide Ordered, HashSorted, Achieved, TreeShape, Misroutes;
    AchievedMeans(a, h0, recs, isArr, v, r);
  }

  // ----- when walks go astray

  /** Setting the fourth of the seven keys of a full root, whatever its value, is always led astray. */
  lemma MedianOfFullRoot(t: Tree)
    requires |t.es| == KEYS_MAX && Formed(t.es, t.cs)
    ensures Misroutes(t, t.es[KEYS_MIN].id)
  {
    var m := t.es[KEYS_MIN].id;
    CompareOrder(m, m, m);
  }

  ghost predicate HashFresh(s: seq<Entry>, hash: U32) {
    forall i :: 0 <= i < |s| ==> s[i].id.hash != hash
  }

  /** A key whose hash no entry of the tree has is never led astray. */
  lemma {:induction false} FreshHashRoutes(t: Tree, h: nat, lo: nat, k: Id)
    requires Shape(t, h, lo)
    requires HashFresh(InOrder(t), k.hash)
    ensures !Misroutes(t, k)
    decreases h, 1
  {
    if Full(t) {
      HalvesShape(t, h, lo);
      Around(t.es, t.cs, KEYS_MIN);
      var l, m, r := Weave(t.es[..KEYS_MIN], Upto(t.cs, KEYS_MIN + 1)), t.es[KEYS_MIN],
        Weave(t.es[KEYS_MIN + 1..], From(t.cs, KEYS_MIN + 1));
      assert InOrder(t)[|l|] == m;
      assert forall i :: 0 <= i < |l| ==> InOrder(t)[i] == l[i];
      assert forall i :: 0 <= i < |r| ==> InOrder(t)[|l| + 1 + i] == r[i];
      FreshHashRoutesIn(t.es[..KEYS_MIN], Upto(t.cs, KEYS_MIN + 1), h, k);
      FreshHashRoutesIn(t.es[KEYS_MIN + 1..], From(t.cs, KEYS_MIN + 1), h, k);
    } else {
      FreshHashRoutesIn(t.es, t.cs, h, k);
    }
  }

  lemma FreshMiddle(a: seq<Entry>, x: seq<Entry>, b: seq<Entry>, hash: U32)
    requires HashFresh(a + x + b, hash)
    ensures HashFresh(x, hash)
  {
    assert forall j :: 0 <= j < |x| ==> (a + x + b)[|a| + j] == x[j];
  }

  lemma {:induction false} FreshHashRoutesIn(es: seq<Entry>, cs: seq<Tree>, h: nat, k: Id)
    requires h >= 1 && Below(es, cs, h)
    requires HashFresh(Weave(es, cs), k.hash)
    ensures !MisroutesIn(es, cs, k)
    decreases h, 0
  {
    var i := Search(es, k);
    if i < |cs| {
      var a, x := WeaveL(es[..i], cs[..i]), InOrder(cs[i]);
      AroundChild(es, cs, i);
      FreshMiddle(a, x, WeaveR(es[i..], cs[i + 1..]), k.hash);
      FreshHashRoutes(cs[i], h - 1, KEYS_MIN, k);
    }
  }

  /** Nor is any key that a walk through nodes with room sets. */
  ghost predicate RoomyWalk(t: Tree, k: Id)
    decreases t
  {
    var i := Search(t.es, k);
    !Full(t) && (!(i < |t.es| && t.es[i].id == k) && i < |t.cs| ==> RoomyWalk(t.cs[i], k))
  }

  lemma {:induction false} RoomyWalkRoutes(t: Tree, k: Id)
    requires RoomyWalk(t, k)
    ensures !Misroutes(t, k)
    decreases t
  {
    var i := Search(t.es, k);
    if !(i < |t.es| && t.es[i].id == k) && i < |t.cs| {
      RoomyWalkRoutes(t.cs[i], k);
    }
    assert Misroutes(t, k) == MisroutesIn(t.es, t.cs, k);
  }

  /** Where a set has put its entry, and that lookups of other keys find what they found. */
  ghost predicate SetLands(t: Tree, k: Id, v: Value, e: Entry, t1: Tree) {
    var p := Route(t, k);
    && Fits(InOrder(t), k, p) && InOrder(t1) == Landed(InOrder(t), p, e)
    && e.id == k && e.val == v
    && Answers(t, k, t1)
  }

  lemma AchievedLands(a: Call, recs: RecMap, isArr: bool, v: Value, r: Outcome)
    requires Achieved(a, recs, isArr, v, r)
    ensures SetLands(a.tree, a.id, v, r.entry, r.tree)
  {
  }
}
