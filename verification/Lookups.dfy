/** What get_impl finds, as a function of the tree, and why a sorted tree answers like its run of entries. */
module Lookups {
  import opened Wrappers
  import opened Order
  import opened Trees
  import opened Routes
  import opened Zipper

  ghost function Find(t: Tree, k: Id): Option<Entry>
    decreases t
  {
    FindIn(t.es, t.cs, k)
  }

  ghost function FindIn(es: seq<Entry>, cs: seq<Tree>, k: Id): Option<Entry>
    decreases cs
  {
    var i := Search(es, k);
    if i < |es| && es[i].id == k then Some(es[i])
    else if i < |cs| then Find(cs[i], k)
    else None
  }

  /** First entry of a run with this id. */
  ghost function Lookup(s: seq<Entry>, k: Id): (r: Option<Entry>)
    ensures r.Some? ==> r.value in s && r.value.id == k
    ensures r.None? ==> forall e :: e in s ==> e.id != k
  {
    if s == [] then None else if s[0].id == k then Some(s[0]) else Lookup(s[1..], k)
  }

  lemma {:induction false} LookupConcat(a: seq<Entry>, b: seq<Entry>, k: Id)
    ensures Lookup(a + b, k) == if Lookup(a, k).Some? then Lookup(a, k) else Lookup(b, k)
  {
    if a == [] {
      assert a + b == b;
    } else {
      assert (a + b)[1..] == a[1..] + b;
      LookupConcat(a[1..], b, k);
    }
  }

  lemma {:induction false} LookupBelow(s: seq<Entry>, k: Id)
    requires AllBelow(s, k) || AllAbove(s, k)
    ensures Lookup(s, k) == None
  {
    if s != [] {
      CompareOrder(s[0].id, k, k);
      LookupBelow(s[1..], k);
    }
  }

  /** Only the middle part can hold k. */
  lemma LookupMiddle(a: seq<Entry>, x: seq<Entry>, b: seq<Entry>, k: Id)
    requires AllBelow(a, k) && AllAbove(b, k)
    ensures Lookup(a + x + b, k) == Lookup(x, k)
  {
    LookupConcat(a + x, b, k);
    LookupConcat(a, x, k);
    LookupBelow(a, k);
    LookupBelow(b, k);
  }

  /** The walk of get_impl answers the way the run does, if that is in order for the key. */
  lemma {:induction false} FindOrdered(t: Tree, h: nat, lo: nat, k: Id)
    requires Shape(t, h, lo) && Ordered(InOrder(t), k)
    ensures Find(t, k) == Lookup(InOrder(t), k)
    decreases h
  {
    hide Less, Compare, Ordered, AllBelow, AllAbove, Lookup, Search, WeaveL, WeaveR;
    var es, cs, i := t.es, t.cs, Search(t.es, k);
    NotHit(es, k);
    if i < |es| && es[i].id == k {
      Around(es, cs, i);
      FoundLookup(Weave(es[..i], Upto(cs, i + 1)), es[i], Weave(es[i + 1..], From(cs, i + 1)));
    } else if cs == [] {
      MissLookup(t, k);
    } else {
      var a, x, b := WeaveL(es[..i], cs[..i]), InOrder(cs[i]), WeaveR(es[i..], cs[i + 1..]);
      AroundChild(es, cs, i);
      OrderedSides(a, x, b, k);
      LookupMiddle(a, x, b, k);
      FindOrdered(cs[i], h - 1, KEYS_MIN, k);
    }
  }

  lemma MissLookup(t: Tree, k: Id)
    requires t.cs == [] && Ordered(t.es, k)
    requires var i := Search(t.es, k); !(i < |t.es| && t.es[i].id == k)
    ensures InOrder(t) == t.es && Lookup(t.es, k) == None
  {
    hide Less, Compare, Ordered, AllBelow, AllAbove, Lookup, Search;
    var es, i := t.es, Search(t.es, k);
    NotHit(es, k);
    assert es == es[..i] + [] + es[i..];
    OrderedSides(es[..i], [], es[i..], k);
    LookupMiddle(es[..i], [], es[i..], k);
    assert Lookup([], k) == None by { LookupNone(k); }
  }

  lemma LookupNone(k: Id)
    ensures Lookup([], k) == None
  {
  }

  /** In a sorted tree it answers every question that way. */
  lemma FindSorted(t: Tree, h: nat, lo: nat, k: Id)
    requires Shape(t, h, lo) && Sorted(InOrder(t))
    ensures Find(t, k) == Lookup(InOrder(t), k)
  {
    SortedOrdered(InOrder(t));
    FindOrdered(t, h, lo, k);
  }

  lemma FoundLookup(a: seq<Entry>, e: Entry, b: seq<Entry>)
    requires Ordered(a + [e] + b, e.id)
    ensures Lookup(a + [e] + b, e.id) == Some(e)
  {
    CompareOrder(e.id, e.id, e.id);
    OrderedMiddle(a, [e], b, e.id);
    assert [e][0] == e;
    LookupMiddle(a, [e], b, e.id);
  }

  // ----- lookups through a hole

  ghost function FindFrame(c: Ctx, k: Id, inner: Option<Entry>): Option<Entry>
    requires c.Down?
  {
    var i := Search(c.es, k);
    if i < |c.es| && c.es[i].id == k then Some(c.es[i])
    else if i < |c.ls| then Find(c.ls[i], k)
    else if i == |c.ls| then inner
    else if i - |c.ls| - 1 < |c.rs| then Find(c.rs[i - |c.ls| - 1], k)
    else None
  }

  ghost function FindC(c: Ctx, k: Id, inner: Option<Entry>): Option<Entry> {
    if c.Top? then inner else FindC(c.up, k, FindFrame(c, k, inner))
  }

  lemma {:induction false} PlugFind(c: Ctx, t: Tree, k: Id)
    ensures Find(Plug(c, t), k) == FindC(c, k, Find(t, k))
  {
    if c.Down? {
      PlugFind(c.up, Fill(c, t), k);
      var cs := c.ls + [t] + c.rs;
      assert forall i :: |c.ls| < i < |cs| ==> cs[i] == c.rs[i - |c.ls| - 1];
      assert Find(Fill(c, t), k) == FindFrame(c, k, Find(t, k));
    }
  }

  ghost predicate LeadsHere(c: Ctx, k: Id)
    requires c.Down?
  {
    var i := Search(c.es, k);
    i == |c.ls| && !(i < |c.es| && c.es[i].id == k)
  }

  /** The walk of get_impl for k comes into the hole. */
  ghost predicate Leads(c: Ctx, k: Id) {
    c.Down? ==> LeadsHere(c, k) && Leads(c.up, k)
  }

  /** A hole that the walk does not come into cannot change the answer. */
  lemma {:induction false} Deflected(c: Ctx, k: Id, r: Option<Entry>, r': Option<Entry>)
    requires !Leads(c, k)
    ensures FindC(c, k, r) == FindC(c, k, r')
  {
    if LeadsHere(c, k) {
      Deflected(c.up, k, FindFrame(c, k, r), FindFrame(c, k, r'));
    }
  }

  // ----- what changing one entry means for a search

  ghost function FindLeaf(es: seq<Entry>, q: Id): Option<Entry> {
    var i := Search(es, q);
    if i < |es| && es[i].id == q then Some(es[i]) else None
  }

  lemma SearchFront(es: seq<Entry>, e: Entry, q: Id)
    requires (es != [] ==> !Less(es[0].id, e.id)) && q != e.id
    ensures FindLeaf([e] + es, q) == FindLeaf(es, q)
  {
    var es' := [e] + es;
    assert es'[1..] == es;
    CompareOrder(e.id, q, e.id);
    if !Less(e.id, q) && es != [] {
      CompareOrder(es[0].id, e.id, q);
      CompareOrder(q, e.id, es[0].id);
      CompareOrder(es[0].id, q, q);
      assert Less(q, es[0].id);
    }
  }

  /** A new entry put where its search stops is invisible to the search for any other id. */
  lemma {:induction false} SearchInsert(es: seq<Entry>, i: nat, e: Entry, q: Id)
    requires i == Search(es, e.id) && q != e.id
    ensures FindLeaf(es[..i] + [e] + es[i..], q) == FindLeaf(es, q)
    decreases es
  {
    hide Less, Compare;
    var es' := es[..i] + [e] + es[i..];
    if i == 0 {
      assert es' == [e] + es;
      SearchFront(es, e, q);
    } else {
      assert es'[0] == es[0] && es'[1..] == es[1..][..i - 1] + [e] + es[1..][i - 1..];
      SearchInsert(es[1..], i - 1, e, q);
    }
  }

  lemma {:induction false} SearchUpdate(es: seq<Entry>, i: nat, e: Entry, q: Id)
    requires i < |es| && es[i].id == e.id
    ensures Search(es[i := e], q) == Search(es, q)
    decreases es
  {
    if i > 0 {
      assert es[i := e][1..] == es[1..][i - 1 := e];
      SearchUpdate(es[1..], i - 1, e, q);
    } else {
      assert es[0 := e][1..] == es[1..];
    }
  }
}
