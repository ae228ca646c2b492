/**
 What holds at every turn of the loop of set_impl, and that each way through its body keeps it: the tree with
 its hole still reads as the tree the call began with, and the walk still leads to the same place.
 */
module Steps {
  import opened Order
  import opened Trees
  import opened Routes
  import opened Zipper
  import opened Lookups
  import opened Splits
  import opened Walk
  import opened Paths

  /** The root alone may be empty, and only while it is a leaf. */
  function RootLeast(h: nat): nat {
    if h == 1 then 0 else 1
  }

  ghost predicate TreeShape(t: Tree, h: nat) {
    Shape(t, h, RootLeast(h))
  }

  ghost function Onward(c: Ctx, t: Tree, k: Id): Place
    requires FormedC(c)
  {
    Place(Route(t, k).found, |Pre(c)| + Route(t, k).pos)
  }

  ghost predicate Shaped(c: Ctx, t: Tree, h: nat, k: Id) {
    && ShapeC(c, h, if c.Down? && c.es == [] then 0 else 1)
    && Shape(t, h, if c.Top? then RootLeast(h) else KEYS_MIN)
    && (c.Down? && c.es == [] ==> c.up.Top? && Full(t))
    && (c.Down? && Full(t) ==> |c.es| < KEYS_MAX && LeadsHere(c, k))
  }

  ghost predicate On(t0: Tree, k: Id, c: Ctx, t: Tree, h: nat) {
    && Shaped(c, t, h, k)
    && InOrder(Plug(c, t)) == InOrder(t0)
    && Onward(c, t, k) == Route(t0, k)
    && (Misroutes(t0, k) ==> !Leads(c, k) || Misroutes(t, k))
  }

  // ----- root split

  lemma RootSplitStep(t0: Tree, k: Id, t: Tree, h: nat, moved: nat)
    requires On(t0, k, Top, t, h) && Full(t)
    ensures On(t0, k, Down(Top, t.ofs, [], [], []), Node(moved, t.es, t.cs), h)
  {
    var c, x := Down(Top, t.ofs, [], [], []), Node(moved, t.es, t.cs);
    PlugRun(c, x);
    assert Pre(c) == [] && Post(c) == [];
    assert InOrder(x) == InOrder(t);
    assert Search([], k) == 0;
  }

  // ----- child split

  lemma SplitShaped(c: Ctx, t: Tree, h: nat, k: Id, sib: nat)
    requires Shaped(c, t, h, k) && c.Down? && Full(t)
    ensures Splittable(c, t)
    ensures Shaped(GoLow(c, t, sib), LowHalf(t), h, k)
    ensures Shaped(GoHigh(c, t, sib), HighHalf(t, sib), h, k)
  {
    assert Below(t.es, t.cs, h);
    SplitShape(c, t, sib, h, if c.es == [] then 0 else 1);
  }

  lemma LowHalfRoute(t: Tree, k: Id)
    requires |t.es| == KEYS_MAX && Formed(t.es, t.cs) && k.hash <= t.es[KEYS_MIN].id.hash
    ensures Route(LowHalf(t), k) == Route(t, k)
    ensures Misroutes(t, k) <==> BadMedian(t.es[KEYS_MIN], k) || Misroutes(LowHalf(t), k)
  {
  }

  lemma HighHalfRoute(t: Tree, k: Id, sib: nat)
    requires |t.es| == KEYS_MAX && Formed(t.es, t.cs) && k.hash > t.es[KEYS_MIN].id.hash
    ensures var r := Route(HighHalf(t, sib), k);
            Route(t, k) == Place(r.found, |InOrder(LowHalf(t))| + 1 + r.pos)
    ensures Misroutes(t, k) <==> Misroutes(HighHalf(t, sib), k)
  {
  }

  lemma {:induction false} SearchPast(es: seq<Entry>, i: nat, m: Entry, k: Id)
    requires i <= |es| && (forall j :: 0 <= j < i ==> Less(es[j].id, k)) && !Less(k, m.id)
    ensures var s := es[..i] + [m] + es[i..];
            Search(s, k) > i || (Search(s, k) == i && s[i].id == k)
    decreases es
  {
    var s := es[..i] + [m] + es[i..];
    CompareOrder(k, m.id, k);
    if i > 0 {
      assert s[0] == es[0] && s[1..] == es[1..][..i - 1] + [m] + es[1..][i - 1..];
      SearchPast(es[1..], i - 1, m, k);
    }
  }

  /** Going left of a bad median leaves the walk of get_impl for good. */
  lemma BadMedianDeflects(c: Ctx, t: Tree, k: Id, sib: nat)
    requires Splittable(c, t) && LeadsHere(c, k) && BadMedian(t.es[KEYS_MIN], k)
    ensures !Leads(GoLow(c, t, sib), k)
  {
    SearchPast(c.es, |c.ls|, t.es[KEYS_MIN], k);
  }

  lemma GoLowStep(t0: Tree, k: Id, c: Ctx, t: Tree, h: nat, sib: nat)
    requires On(t0, k, c, t, h) && c.Down? && Full(t) && Splittable(c, t)
    requires k.hash <= t.es[KEYS_MIN].id.hash
    ensures On(t0, k, GoLow(c, t, sib), LowHalf(t), h)
  {
    SplitShaped(c, t, h, k, sib);
    SplitRun(c, t, sib);
    GoLowRun(c, t, sib);
    LowHalfRoute(t, k);
    if BadMedian(t.es[KEYS_MIN], k) { BadMedianDeflects(c, t, k, sib); }
  }

  lemma GoHighStep(t0: Tree, k: Id, c: Ctx, t: Tree, h: nat, sib: nat)
    requires On(t0, k, c, t, h) && c.Down? && Full(t) && Splittable(c, t)
    requires k.hash > t.es[KEYS_MIN].id.hash
    ensures On(t0, k, GoHigh(c, t, sib), HighHalf(t, sib), h)
  {
    SplitShaped(c, t, h, k, sib);
    SplitRun(c, t, sib);
    GoHighRun(c, t, sib);
    HighHalfRoute(t, k, sib);
  }

  // ----- descent

  /** The search at this node neither hits an entry nor ends at a leaf. */
  ghost predicate GoesDown(t: Tree, k: Id) {
    var i := Search(t.es, k);
    !Full(t) && t.cs != [] && !(i < |t.es| && t.es[i].id == k)
  }

  lemma DescendShaped(c: Ctx, t: Tree, h: nat, k: Id)
    requires Shaped(c, t, h, k) && GoesDown(t, k)
    ensures h > 1 && Search(t.es, k) < |t.cs| == |t.es| + 1
    ensures var i := Search(t.es, k); Shaped(Descend(c, t, i), t.cs[i], h - 1, k)
  {
    assert Below(t.es, t.cs, h);
  }

  lemma DescendRoute(c: Ctx, t: Tree, k: Id)
    requires FormedC(c) && GoesDown(t, k) && Search(t.es, k) < |t.cs| == |t.es| + 1
    ensures var i := Search(t.es, k); var d, x := Descend(c, t, i), t.cs[i];
            && FormedC(d) && Onward(d, x, k) == Onward(c, t, k)
            && Misroutes(x, k) == Misroutes(t, k)
            && Leads(d, k) == Leads(c, k)
            && Plug(d, x) == Plug(c, t)
  {
    var i := Search(t.es, k);
    var d, x := Descend(c, t, i), t.cs[i];
    assert t.cs == d.ls + [x] + d.rs;
    assert Route(t, k) == RouteIn(t.es, t.cs, k);
    assert Misroutes(t, k) == MisroutesIn(t.es, t.cs, k);
  }

  lemma DescendStep(t0: Tree, k: Id, c: Ctx, t: Tree, h: nat)
    requires On(t0, k, c, t, h) && GoesDown(t, k)
    ensures h > 1 && Search(t.es, k) < |t.cs|
    ensures var i := Search(t.es, k); On(t0, k, Descend(c, t, i), t.cs[i], h - 1)
  {
    DescendShaped(c, t, h, k);
    DescendRoute(c, t, k);
  }

  // ----- what each step takes of the path

  lemma MovedPushes(t: Tree, moved: nat, k: Id)
    ensures var x := Node(moved, t.es, t.cs); Pushes(x, k) == Pushes(t, k) && FullOnes(x, k) == FullOnes(t, k)
  {
  }

  lemma HalfPushes(t: Tree, k: Id, sib: nat)
    requires |t.es| == KEYS_MAX && (t.cs == [] || |t.cs| == KEYS_MAX + 1)
    ensures var x := if k.hash > t.es[KEYS_MIN].id.hash then HighHalf(t, sib) else LowHalf(t);
            Pushes(t, k) == 1 + Pushes(x, k) && FullOnes(t, k) == 1 + FullOnes(x, k)
  {
  }

  lemma ChildPushes(t: Tree, k: Id)
    requires GoesDown(t, k) && Search(t.es, k) < |t.cs|
    ensures var x := t.cs[Search(t.es, k)]; Pushes(t, k) == 1 + Pushes(x, k) && FullOnes(t, k) == FullOnes(x, k)
  {
  }

  // ----- the end of the walk

  ghost function Insert(s: seq<Entry>, p: nat, e: Entry): seq<Entry>
    requires p <= |s|
  {
    s[..p] + [e] + s[p..]
  }

  /** The in-order run after a set that lands at p. */
  ghost function Landed(s: seq<Entry>, p: Place, e: Entry): seq<Entry>
    requires p.pos <= |s| && (p.found ==> p.pos < |s|)
  {
    if p.found then s[p.pos := e] else Insert(s, p.pos, e)
  }

  ghost function Inserted(t: Tree, i: nat, e: Entry): Tree
    requires i <= |t.es|
  {
    Node(t.ofs, Insert(t.es, i, e), t.cs)
  }

  ghost function Updated(t: Tree, i: nat, e: Entry): Tree
    requires i < |t.es|
  {
    Node(t.ofs, t.es[i := e], t.cs)
  }

  lemma InsertBetween(a: seq<Entry>, x: seq<Entry>, b: seq<Entry>, i: nat, e: Entry)
    requires i <= |x|
    ensures a + Insert(x, i, e) + b == Insert(a + x + b, |a| + i, e)
  {
    var s := a + x + b;
    assert s[..|a| + i] == a + x[..i];
    assert s[|a| + i..] == x[i..] + b;
  }

  lemma UpdateBetween(a: seq<Entry>, x: seq<Entry>, b: seq<Entry>, i: nat, e: Entry)
    requires i < |x|
    ensures a + x[i := e] + b == (a + x + b)[|a| + i := e]
  {
  }

  /** Other entries in the node of the hole, no fewer than before and no more than fit. */
  lemma EndShape(c: Ctx, t: Tree, h: nat, k: Id, es: seq<Entry>)
    requires Shaped(c, t, h, k) && !Full(t) && |t.es| <= |es| <= KEYS_MAX
    requires |es| == |t.es| || t.cs == []
    ensures Formed(t.es, t.cs)
    ensures TreeShape(Plug(c, Node(t.ofs, es, t.cs)), h + Depth(c))
  {
    assert Below(t.es, t.cs, h);
    assert Below(es, t.cs, h);
    PlugShape(c, Node(t.ofs, es, t.cs), h, RootLeast(h + Depth(c)));
  }

  lemma InsertRun(c: Ctx, t: Tree, i: nat, e: Entry)
    requires FormedC(c) && t.cs == [] && i <= |t.es|
    ensures var s := InOrder(Plug(c, t));
            && |Pre(c)| + i <= |s|
            && InOrder(Plug(c, Inserted(t, i, e))) == Insert(s, |Pre(c)| + i, e)
  {
    PlugRun(c, t);
    PlugRun(c, Inserted(t, i, e));
    InsertBetween(Pre(c), t.es, Post(c), i, e);
  }

  lemma UpdateRun(c: Ctx, t: Tree, i: nat, e: Entry)
    requires FormedC(c) && Formed(t.es, t.cs) && i < |t.es|
    ensures var s, p := InOrder(Plug(c, t)), |Pre(c)| + |Weave(t.es[..i], Upto(t.cs, i + 1))|;
            p < |s| && s[p] == t.es[i] && InOrder(Plug(c, Updated(t, i, e))) == s[p := e]
  {
    PlugRun(c, t);
    PlugRun(c, Updated(t, i, e));
    WeaveUpdate(t.es, t.cs, i, e);
    UpdateBetween(Pre(c), InOrder(t), Post(c), |Weave(t.es[..i], Upto(t.cs, i + 1))|, e);
  }

  lemma InsertEnd(t0: Tree, k: Id, c: Ctx, t: Tree, h: nat, e: Entry)
    requires On(t0, k, c, t, h) && !Full(t) && t.cs == [] && e.id == k
    requires var i := Search(t.es, k); !(i < |t.es| && t.es[i].id == k)
    ensures var i, p := Search(t.es, k), Route(t0, k);
            && !p.found && p.pos <= |InOrder(t0)|
            && InOrder(Plug(c, Inserted(t, i, e))) == Insert(InOrder(t0), p.pos, e)
  {
    hide Search, Weave;
    var i := Search(t.es, k);
    assert Route(t, k) == RouteIn(t.es, t.cs, k) == Place(false, i);
    InsertRun(c, t, i, e);
  }

  lemma WeaveUpdate(es: seq<Entry>, cs: seq<Tree>, i: nat, e: Entry)
    requires Formed(es, cs) && i < |es|
    ensures var p := |Weave(es[..i], Upto(cs, i + 1))|;
            p < |Weave(es, cs)| && Weave(es[i := e], cs) == Weave(es, cs)[p := e] && Weave(es, cs)[p] == es[i]
  {
    var a, b := Weave(es[..i], Upto(cs, i + 1)), Weave(es[i + 1..], From(cs, i + 1));
    Around(es, cs, i);
    Around(es[i := e], cs, i);
    assert es[i := e][..i] == es[..i] && es[i := e][i + 1..] == es[i + 1..];
    UpdateBetween(a, [es[i]], b, 0, e);
    assert [es[i]][0 := e] == [e];
  }

  lemma UpdateEnd(t0: Tree, k: Id, c: Ctx, t: Tree, h: nat, e: Entry)
    requires On(t0, k, c, t, h) && !Full(t)
    requires var i := Search(t.es, k); i < |t.es| && t.es[i].id == k
    ensures var i, p := Search(t.es, k), Route(t0, k);
            && p.found && p.pos < |InOrder(t0)| && InOrder(t0)[p.pos] == t.es[i]
            && InOrder(Plug(c, Updated(t, i, e))) == InOrder(t0)[p.pos := e]
  {
    var i := Search(t.es, k);
    assert Below(t.es, t.cs, h);
    FoundPlace(t, k);
    UpdateRun(c, t, i, e);
  }

  lemma FoundPlace(t: Tree, k: Id)
    requires !Full(t) && Formed(t.es, t.cs)
    requires var i := Search(t.es, k); i < |t.es| && t.es[i].id == k
    ensures var i := Search(t.es, k); Route(t, k) == Place(true, |Weave(t.es[..i], Upto(t.cs, i + 1))|)
  {
    assert Route(t, k) == RouteIn(t.es, t.cs, k);
  }

  // ----- what lookups make of it

  lemma InsertFind(c: Ctx, t: Tree, e: Entry, q: Id)
    requires t.cs == [] && q != e.id
    ensures Find(Plug(c, Inserted(t, Search(t.es, e.id), e)), q) == Find(Plug(c, t), q)
  {
    var i := Search(t.es, e.id);
    SearchInsert(t.es, i, e, q);
    assert Find(t, q) == FindLeaf(t.es, q);
    assert Find(Inserted(t, i, e), q) == FindLeaf(Insert(t.es, i, e), q);
    PlugFind(c, t, q);
    PlugFind(c, Inserted(t, i, e), q);
  }

  lemma UpdateFind(c: Ctx, t: Tree, i: nat, e: Entry, q: Id)
    requires i < |t.es| && t.es[i].id == e.id && q != e.id
    ensures Find(Plug(c, Updated(t, i, e)), q) == Find(Plug(c, t), q)
  {
    SearchUpdate(t.es, i, e, q);
    PlugFind(c, t, q);
    PlugFind(c, Updated(t, i, e), q);
  }

  lemma LostFind(c: Ctx, t: Tree, t': Tree, k: Id)
    requires !Leads(c, k)
    ensures Find(Plug(c, t'), k) == Find(Plug(c, t), k)
  {
    PlugFind(c, t, k);
    PlugFind(c, t', k);
    Deflected(c, k, Find(t, k), Find(t', k));
  }

  /** Lookups in t1 answer as in t0, for k too if its walk was led astray; this for all keys that t0 is in order for. */
  ghost predicate Answers(t0: Tree, k: Id, t1: Tree) {
    && (forall q :: q != k && Ordered(InOrder(t0), q) ==> Find(t1, q) == Find(t0, q))
    && (Misroutes(t0, k) && Ordered(InOrder(t0), k) ==> Find(t1, k) == Find(t0, k))
  }

  lemma SameAnswer(t0: Tree, h0: nat, k: Id, c: Ctx, t: Tree, h: nat, q: Id)
    requires TreeShape(t0, h0) && On(t0, k, c, t, h) && !Full(t) && Ordered(InOrder(t0), q)
    ensures Find(Plug(c, t), q) == Find(t0, q)
  {
    EndShape(c, t, h, k, t.es);
    FindOrdered(t0, h0, RootLeast(h0), q);
    FindOrdered(Plug(c, t), h + Depth(c), RootLeast(h + Depth(c)), q);
  }

  lemma InsertAnswers(t0: Tree, h0: nat, k: Id, c: Ctx, t: Tree, h: nat, e: Entry)
    requires TreeShape(t0, h0) && On(t0, k, c, t, h) && !Full(t) && t.cs == [] && e.id == k
    ensures Answers(t0, k, Plug(c, Inserted(t, Search(t.es, k), e)))
  {
    hide Ordered;
    var t' := Inserted(t, Search(t.es, k), e);
    forall q | q != k && Ordered(InOrder(t0), q) ensures Find(Plug(c, t'), q) == Find(t0, q) {
      InsertFind(c, t, e, q);
      SameAnswer(t0, h0, k, c, t, h, q);
    }
    if Misroutes(t0, k) && Ordered(InOrder(t0), k) {
      assert !Misroutes(t, k) by { assert Misroutes(t, k) == MisroutesIn(t.es, t.cs, k); }
      LostFind(c, t, t', k);
      SameAnswer(t0, h0, k, c, t, h, k);
    }
  }

  lemma UpdateAnswers(t0: Tree, h0: nat, k: Id, c: Ctx, t: Tree, h: nat, e: Entry)
    requires TreeShape(t0, h0) && On(t0, k, c, t, h) && !Full(t) && e.id == k
    requires var i := Search(t.es, k); i < |t.es| && t.es[i].id == k
    ensures Answers(t0, k, Plug(c, Updated(t, Search(t.es, k), e)))
  {
    hide Ordered;
    var t' := Updated(t, Search(t.es, k), e);
    forall q | q != k && Ordered(InOrder(t0), q) ensures Find(Plug(c, t'), q) == Find(t0, q) {
      UpdateFind(c, t, Search(t.es, k), e, q);
      SameAnswer(t0, h0, k, c, t, h, q);
    }
    if Misroutes(t0, k) && Ordered(InOrder(t0), k) {
      assert !Misroutes(t, k) by { assert Misroutes(t, k) == MisroutesIn(t.es, t.cs, k); }
      LostFind(c, t, t', k);
      SameAnswer(t0, h0, k, c, t, h, k);
    }
  }
}
