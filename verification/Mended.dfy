/**
 set_impl with its one gap closed. After a split the median that has gone up is compared with the key as a whole, hash
 and key: where it is the key, its entry is set in the parent, and else the half is chosen that the key belongs to. What
 is known on the way is only where the key belongs: after all that lies before the node, and before all that lies after.
 */
module Mended {
  import opened Wrappers
  import opened Bytes
  import opened Records
  import opened Nodes
  import opened Layout
  import opened Order
  import opened Trees
  import opened Routes
  import opened Zipper
  import opened Lookups
  import opened Splits
  import opened Walk
  import opened Steps
  import opened Turns
  import opened Refinement
  import opened Repair
  import opened Buffers

  // ----- shape

  /** Shape of the hole and of the tree in it. */
  ghost predicate Suits(c: Ctx, t: Tree, h: nat) {
    && ShapeC(c, h, if c.Down? && c.es == [] then 0 else 1)
    && Shape(t, h, if c.Top? then RootLeast(h) else KEYS_MIN)
    && (c.Down? && c.es == [] ==> c.up.Top? && Full(t))
    && (c.Down? && Full(t) ==> |c.es| < KEYS_MAX)
  }

  lemma SuitsFormed(c: Ctx, t: Tree, h: nat)
    requires Suits(c, t, h)
    ensures FormedC(c) && Formed(t.es, t.cs) && |t.es| <= KEYS_MAX
  {
    assert Below(t.es, t.cs, h);
  }

  lemma SuitsRootSplit(t: Tree, h: nat, moved: nat)
    requires Suits(Top, t, h) && Full(t)
    ensures Suits(Down(Top, t.ofs, [], [], []), Node(moved, t.es, t.cs), h)
  {
  }

  lemma SuitsSplit(c: Ctx, t: Tree, h: nat, sib: nat)
    requires Suits(c, t, h) && c.Down? && Full(t)
    ensures Splittable(c, t) && Suits(GoLow(c, t, sib), LowHalf(t), h) && Suits(GoHigh(c, t, sib), HighHalf(t, sib), h)
  {
    assert Below(t.es, t.cs, h);
    SplitShape(c, t, sib, h, if c.es == [] then 0 else 1);
    ShapeRaise(GoLow(c, t, sib), h);
    ShapeRaise(GoHigh(c, t, sib), h);
  }

  lemma ShapeRaise(c: Ctx, h: nat)
    requires c.Down? && c.es != [] && (ShapeC(c, h, 1) || (ShapeC(c, h, 0) && c.up.Top?))
    ensures ShapeC(c, h, 1)
  {
  }

  lemma SuitsDescend(c: Ctx, t: Tree, h: nat, i: nat)
    requires Suits(c, t, h) && !Full(t) && t.cs != [] && i <= |t.es|
    ensures h > 1 && |t.cs| == |t.es| + 1 && Suits(Descend(c, t, i), t.cs[i], h - 1)
  {
    assert Below(t.es, t.cs, h);
  }

  lemma SuitsEnd(c: Ctx, t: Tree, h: nat, es: seq<Entry>)
    requires Suits(c, t, h) && !Full(t) && |t.es| <= |es| <= KEYS_MAX && (|es| == |t.es| || t.cs == [])
    ensures Formed(t.es, t.cs) && TreeShape(Plug(c, Node(t.ofs, es, t.cs)), h + Depth(c))
  {
    assert Below(t.es, t.cs, h);
    assert Below(es, t.cs, h);
    PlugShape(c, Node(t.ofs, es, t.cs), h, RootLeast(h + Depth(c)));
  }

  // ----- where the key belongs

  /** The tree with its hole reads s, and k belongs into the hole. */
  ghost predicate Aimed(s: seq<Entry>, k: Id, c: Ctx, t: Tree, h: nat) {
    Suits(c, t, h) && InOrder(Plug(c, t)) == s && AllBelow(Pre(c), k) && AllAbove(Post(c), k)
  }

  /** What is before a smaller entry is smaller, what is after a greater one is greater. */
  lemma OrderedAt(s: seq<Entry>, k: Id, j: nat)
    requires Ordered(s, k) && j < |s|
    ensures Less(s[j].id, k) ==> forall i :: 0 <= i <= j ==> Less(s[i].id, k)
    ensures Less(k, s[j].id) ==> forall i :: j <= i < |s| ==> Less(k, s[i].id)
  {
    CompareOrder(s[j].id, k, s[j].id);
  }

  lemma AimedRootSplit(s: seq<Entry>, k: Id, t: Tree, h: nat, moved: nat)
    requires Aimed(s, k, Top, t, h) && Full(t)
    ensures Aimed(s, k, Down(Top, t.ofs, [], [], []), Node(moved, t.es, t.cs), h)
  {
    SuitsRootSplit(t, h, moved);
    var c, x := Down(Top, t.ofs, [], [], []), Node(moved, t.es, t.cs);
    PlugRun(c, x);
    assert Pre(c) == [] && Post(c) == [] && InOrder(x) == InOrder(t);
  }

  lemma AimedLow(s: seq<Entry>, k: Id, c: Ctx, t: Tree, h: nat, sib: nat)
    requires Aimed(s, k, c, t, h) && Ordered(s, k) && c.Down? && Full(t)
    requires Less(k, t.es[KEYS_MIN].id)
    ensures Splittable(c, t) && Aimed(s, k, GoLow(c, t, sib), LowHalf(t), h)
  {
    hide Ordered, Less, Weave, WeaveR, WeaveL, ShapeC, Shape;
    SuitsSplit(c, t, h, sib);
    GoLowRun(c, t, sib);
    SplitRun(c, t, sib);
    var d, l := GoLow(c, t, sib), LowHalf(t);
    PlugRun(d, l);
    MedianAt(c, t, sib);
    var j := |Pre(d)| + |InOrder(l)|;
    assert s == Pre(d) + InOrder(l) + Post(d);
    assert s[j] == Post(d)[0];
    OrderedAt(s, k, j);
    forall i | 0 <= i < |Post(d)| ensures Less(k, Post(d)[i].id) { assert Post(d)[i] == s[j + i]; }
  }

  /** The median comes right after the lower half. */
  lemma MedianAt(c: Ctx, t: Tree, sib: nat)
    requires Splittable(c, t)
    ensures FormedC(GoLow(c, t, sib)) && |Post(GoLow(c, t, sib))| > 0 && Post(GoLow(c, t, sib))[0] == t.es[KEYS_MIN]
  {
    var d, n := GoLow(c, t, sib), |c.ls|;
    assert d.es[n..] == [t.es[KEYS_MIN]] + c.es[n..];
  }

  lemma AimedHigh(s: seq<Entry>, k: Id, c: Ctx, t: Tree, h: nat, sib: nat)
    requires Aimed(s, k, c, t, h) && Ordered(s, k) && c.Down? && Full(t)
    requires Less(t.es[KEYS_MIN].id, k)
    ensures Splittable(c, t) && Aimed(s, k, GoHigh(c, t, sib), HighHalf(t, sib), h)
  {
    hide Ordered, Less, Weave, WeaveR, WeaveL, ShapeC, Shape;
    SuitsSplit(c, t, h, sib);
    GoHighRun(c, t, sib);
    SplitRun(c, t, sib);
    var d, x := GoHigh(c, t, sib), HighHalf(t, sib);
    PlugRun(d, x);
    var j := |Pre(d)| - 1;
    assert s == Pre(d) + InOrder(x) + Post(d);
    assert s[j] == Pre(d)[j] == t.es[KEYS_MIN];
    OrderedAt(s, k, j);
    forall i | 0 <= i < |Pre(d)| ensures Less(Pre(d)[i].id, k) { assert Pre(d)[i] == s[i]; }
  }

  lemma AimedDescend(s: seq<Entry>, k: Id, c: Ctx, t: Tree, h: nat)
    requires Aimed(s, k, c, t, h) && Ordered(s, k) && GoesDown(t, k)
    ensures h > 1 && Search(t.es, k) < |t.cs| == |t.es| + 1
    ensures Aimed(s, k, Descend(c, t, Search(t.es, k)), t.cs[Search(t.es, k)], h - 1)
  {
    hide Ordered, Less, Weave, WeaveR, WeaveL, ShapeC, Shape, Search;
    var i := Search(t.es, k);
    SuitsFormed(c, t, h);
    SuitsDescend(c, t, h, i);
    var d, x := Descend(c, t, i), t.cs[i];
    assert t.cs == d.ls + [x] + d.rs;
    DescendEnds(c, t, i);
    PlugRun(d, x);
    NotHit(t.es, k);
    if i > 0 {
      var j := |Pre(d)| - 1;
      assert s[j] == Pre(d)[j] == t.es[i - 1];
      OrderedAt(s, k, j);
      forall m | 0 <= m < |Pre(d)| ensures Less(Pre(d)[m].id, k) { assert Pre(d)[m] == s[m]; }
    }
    if i < |t.es| {
      var j := |Pre(d)| + |InOrder(x)|;
      assert s[j] == Post(d)[0] == t.es[i];
      OrderedAt(s, k, j);
      forall m | 0 <= m < |Post(d)| ensures Less(k, Post(d)[m].id) { assert Post(d)[m] == s[j + m]; }
    }
  }

  lemma DescendEnds(c: Ctx, t: Tree, i: nat)
    requires FormedC(c) && |t.cs| == |t.es| + 1 && i <= |t.es|
    ensures var d := Descend(c, t, i);
            && FormedC(d)
            && (if i == 0 then Pre(d) == Pre(c) else |Pre(d)| > 0 && Pre(d)[|Pre(d)| - 1] == t.es[i - 1])
            && (if i == |t.es| then Post(d) == Post(c) else |Post(d)| > 0 && Post(d)[0] == t.es[i])
  {
    AroundChild(t.es, t.cs, i);
  }

  // ----- the place

  lemma AimedInsert(s: seq<Entry>, k: Id, c: Ctx, t: Tree, h: nat, e: Entry)
    requires Aimed(s, k, c, t, h) && Ordered(s, k) && !Full(t) && t.cs == []
    requires var i := Search(t.es, k); !(i < |t.es| && t.es[i].id == k)
    ensures var i := Search(t.es, k); var p := Place(false, |Pre(c)| + i);
            && Exact(s, k, p) && InOrder(Plug(c, Inserted(t, i, e))) == Landed(s, p, e)
            && TreeShape(Plug(c, Inserted(t, i, e)), h + Depth(c))
  {
    hide Ordered, Less, ShapeC, Shape, Search, Pre, Post, Plug, Insert, AllBelow, AllAbove, Depth;
    var i := Search(t.es, k);
    SuitsFormed(c, t, h);
    NotHit(t.es, k);
    InsertRun(c, t, i, e);
    InsertedLen(t.es, i, e);
    SuitsEnd(c, t, h, Insert(t.es, i, e));
    PlugRun(c, t);
    assert InOrder(t) == t.es;
    ExactBetween(Pre(c), t.es, Post(c), k, i);
  }

  lemma AimedRoom(s: seq<Entry>, k: Id, c: Ctx, t: Tree, h: nat)
    requires Aimed(s, k, c, t, h) && !Full(t)
    ensures |t.es| < KEYS_MAX
  {
    SuitsFormed(c, t, h);
  }

  lemma InsertedLen(es: seq<Entry>, i: nat, e: Entry)
    requires i <= |es|
    ensures |Insert(es, i, e)| == |es| + 1
  {
  }

  lemma ExactBetween(a: seq<Entry>, x: seq<Entry>, b: seq<Entry>, k: Id, i: nat)
    requires Ordered(a + x + b, k) && AllBelow(a, k) && AllAbove(b, k) && i <= |x|
    requires (i > 0 ==> Less(x[i - 1].id, k)) && (i < |x| ==> Less(k, x[i].id))
    ensures Exact(a + x + b, k, Place(false, |a| + i))
  {
    hide Ordered, Less;
    var s, p := a + x + b, |a| + i;
    if i < |x| {
      assert s[p] == x[i];
      OrderedAt(s, k, p);
    } else {
      forall m | p <= m < |s| ensures Less(k, s[m].id) { assert s[m] == b[m - p]; }
    }
    if i > 0 {
      assert s[p - 1] == x[i - 1];
      OrderedAt(s, k, p - 1);
    } else {
      forall m | 0 <= m < p ensures Less(s[m].id, k) { assert s[m] == a[m]; }
    }
  }

  /** Shape of a hole and of a tree in it that may be full. */
  ghost predicate Sits(c: Ctx, t: Tree, h: nat) {
    ShapeC(c, h, RootLeast(h + Depth(c))) && Shape(t, h, LeastIn(c, RootLeast(h + Depth(c))))
  }

  lemma SuitsSits(c: Ctx, t: Tree, h: nat)
    requires Suits(c, t, h) && (c.Down? ==> c.es != [])
    ensures Sits(c, t, h)
  {
  }

  /** The node above, with the tree in its place. */
  lemma SitsUp(c: Ctx, t: Tree, h: nat)
    requires Sits(c, t, h) && c.Down?
    ensures Sits(c.up, Fill(c, t), h + 1)
  {
    var cs := c.ls + [t] + c.rs;
    forall i | 0 <= i < |cs| ensures Shape(cs[i], h, KEYS_MIN) {
      assert cs[i] == if i < |c.ls| then c.ls[i] else if i == |c.ls| then t else c.rs[i - |c.ls| - 1];
    }
  }

  /** An entry of the tree with the sought key is the one the run has. */
  lemma SitsUpdate(s: seq<Entry>, k: Id, c: Ctx, t: Tree, h: nat, i: nat, e: Entry)
    requires Sits(c, t, h) && InOrder(Plug(c, t)) == s && Ordered(s, k) && i < |t.es| && t.es[i].id == k
    ensures FormedC(c) && Formed(t.es, t.cs)
    ensures var p := Place(true, |Pre(c)| + |Weave(t.es[..i], Upto(t.cs, i + 1))|);
            && p.pos < |s| && s[p.pos] == t.es[i] && Exact(s, k, p)
            && InOrder(Plug(c, Updated(t, i, e))) == Landed(s, p, e)
            && TreeShape(Plug(c, Updated(t, i, e)), h + Depth(c))
  {
    hide *;
    SitsShape(c, t, h, i, e);
    UpdateRun(c, t, i, e);
    var pos := |Pre(c)| + |Weave(t.es[..i], Upto(t.cs, i + 1))|;
    OrderedHit(s, k, pos);
    LandedThere(s, pos, e);
  }

  lemma LandedThere(s: seq<Entry>, pos: nat, e: Entry)
    requires pos < |s|
    ensures Landed(s, Place(true, pos), e) == s[pos := e]
  {
  }

  lemma SitsShape(c: Ctx, t: Tree, h: nat, i: nat, e: Entry)
    requires Sits(c, t, h) && i < |t.es|
    ensures FormedC(c) && Formed(t.es, t.cs) && (t.cs == [] || i < |t.cs|)
    ensures TreeShape(Plug(c, Updated(t, i, e)), h + Depth(c))
  {
    hide Plug;
    assert Below(t.es, t.cs, h) && Below(t.es[i := e], t.cs, h);
    PlugShape(c, Updated(t, i, e), h, RootLeast(h + Depth(c)));
  }

  lemma OrderedHit(s: seq<Entry>, k: Id, pos: nat)
    requires Ordered(s, k) && pos < |s| && s[pos].id == k
    ensures Exact(s, k, Place(true, pos))
  {
    CompareOrder(k, k, k);
    forall m | 0 <= m < pos ensures Less(s[m].id, k) { OrderedPair(s, k, m, pos); }
  }

  lemma OrderedPair(s: seq<Entry>, k: Id, i: nat, j: nat)
    requires Ordered(s, k) && i < j < |s|
    ensures Less(s[i].id, k) || Less(k, s[j].id)
  {
  }

  // ----- what is kept on the way

  ghost predicate Base(a: Call, s: State) {
    && Held(s.nodes, s.ctx, s.tree) && Kept(a, s) && RootOfs(s.ctx, s.tree) == a.tree.ofs
    && a.used <= s.used && InOrder(Plug(s.ctx, s.tree)) == InOrder(a.tree)
  }

  /** Splits that may still come. */
  ghost function Left(s: State): nat {
    if Full(s.tree) then s.height + (if s.ctx.Top? then 1 else 0) else if s.height > 0 then s.height - 1 else 0
  }

  ghost predicate Amid(a: Call, h0: nat, s: State, bumped: bool) {
    && Base(a, s) && Header(a, s, bumped) && Aimed(InOrder(a.tree), a.id, s.ctx, s.tree, s.height)
    && s.used + SPLIT_BYTES * Left(s) <= a.used + SPLIT_BYTES * (h0 + 1)
  }

  lemma AmidStart(a: Call, h0: nat, recs: RecMap, isArr: bool)
    requires Owned(a.nodes, recs, isArr, a.tree, h0)
    ensures Amid(a, h0, Start(a, h0), false)
  {
    assert Below(a.tree.es, a.tree.cs, h0);
  }

  lemma AmidBump(a: Call, h0: nat, s: State, w: Words)
    requires Amid(a, h0, s, false) && s.tree.ofs in s.nodes && Bumped(s.nodes[s.tree.ofs], w)
    ensures Amid(a, h0, Bump(s, w), true)
  {
    var c, t := s.ctx, s.tree;
    HoldsSame(s.nodes[t.ofs], w, t.es, Slots(t.cs));
    HeldRewrite(s.nodes, c, t, t.es, w);
    assert Node(t.ofs, t.es, t.cs) == t;
    assert Uses(t, t.ofs) > 0;
    HeaderBump(a, s, w);
    hide Aimed, Held, Header;
  }

  lemma AmidRootSplit(a: Call, h0: nat, s: State, moved: nat, w: Words)
    requires Amid(a, h0, s, true) && s.ctx.Top? && Full(s.tree)
    requires moved !in s.nodes && moved == AlignUp(s.used) > 0
    requires s.tree.ofs in s.nodes && FreshRootWords(w, moved) && Generation(w) == 1
    requires SameSizeType(s.nodes[s.tree.ofs], w)
    ensures Amid(a, h0, RootSplit(s, moved, w), false)
  {
    var t := s.tree;
    HeldRootSplit(s.nodes, t, moved, w);
    AlignLeast(a.used, moved);
    AimedRootSplit(InOrder(a.tree), a.id, t, s.height, moved);
    HeaderRootSplit(a, s, moved, w);
    hide Aimed, Held, Header;
    assert Uses(t, t.ofs) > 0;
    AimedRun(InOrder(a.tree), a.id, Down(Top, t.ofs, [], [], []), Node(moved, t.es, t.cs), s.height);
  }

  lemma AimedRun(s: seq<Entry>, k: Id, c: Ctx, t: Tree, h: nat)
    requires Aimed(s, k, c, t, h)
    ensures InOrder(Plug(c, t)) == s && h >= 1
  {
  }

  /** One of the halves of a split, as the key belongs. */
  ghost function Mid(s: State, k: Id, n: NodeMap, sib: nat): State
    requires Splittable(s.ctx, s.tree)
  {
    if Less(s.tree.es[KEYS_MIN].id, k) then GoneHigh(s, n, sib) else GoneLow(s, n, sib)
  }

  lemma AmidSplit(a: Call, h0: nat, s: State, n: NodeMap, sib: nat)
    requires Amid(a, h0, s, true) && Ordered(InOrder(a.tree), a.id)
    requires s.ctx.Down? && Full(s.tree) && Splittable(s.ctx, s.tree)
    requires SplitDone(s, n, sib) && s.tree.es[KEYS_MIN].id != a.id
    ensures Amid(a, h0, Mid(s, a.id, n, sib), false) && !Full(Mid(s, a.id, n, sib).tree)
  {
    SplitBase(a, s, n, sib);
    SplitHeader(a, s, n, sib, true);
    hide Base, Held, SplitDone, Ordered, Header;
    CompareOrder(s.tree.es[KEYS_MIN].id, a.id, a.id);
    if Less(s.tree.es[KEYS_MIN].id, a.id) {
      AimedHigh(InOrder(a.tree), a.id, s.ctx, s.tree, s.height, sib);
    } else {
      AimedLow(InOrder(a.tree), a.id, s.ctx, s.tree, s.height, sib);
    }
    hide Aimed;
  }

  lemma SplitBase(a: Call, s: State, n: NodeMap, sib: nat)
    requires Base(a, s) && s.ctx.Down? && Splittable(s.ctx, s.tree) && SplitDone(s, n, sib)
    ensures Base(a, GoneLow(s, n, sib)) && Base(a, GoneHigh(s, n, sib))
    ensures sib + NODE_SIZE <= s.used + SPLIT_BYTES
  {
    SplitKept(a, s, n, sib);
    SplitRun(s.ctx, s.tree, sib);
    hide Held, Kept;
  }

  lemma AmidDescend(a: Call, h0: nat, s: State)
    requires Amid(a, h0, s, true) && Ordered(InOrder(a.tree), a.id) && GoesDown(s.tree, a.id)
    ensures s.height > 1 && Search(s.tree.es, a.id) < |s.tree.cs|
    ensures Amid(a, h0, Descended(s, Search(s.tree.es, a.id)), false)
  {
    var i := Search(s.tree.es, a.id);
    AimedDescend(InOrder(a.tree), a.id, s.ctx, s.tree, s.height);
    HeldDescend(s.nodes, s.ctx, s.tree, i);
    DescendKept(a, s, i);
    DescendHeader(a, s, i);
    hide Aimed, Held, Kept, Ordered, Search, Header;
  }

  /** The median that has gone up, in the parent. */
  ghost function Up(s: State): State
    requires s.ctx.Down?
  {
    State(s.nodes, s.used, s.ctx.up, Fill(s.ctx, s.tree), s.height + 1)
  }

  lemma BaseUp(a: Call, s: State)
    requires Base(a, s) && s.ctx.Down?
    ensures Base(a, Up(s))
  {
    var c, t := s.ctx, s.tree;
    assert Slots(c.ls + [t] + c.rs) == Slots(c.ls) + [t.ofs] + Slots(c.rs);
    forall o ensures UsesC(c.up, o) + Uses(Fill(c, t), o) == UsesC(c, o) + Uses(t, o) {
      UsesInHole(c.ls, t, c.rs, o);
    }
    var cs := c.ls + [t] + c.rs;
    forall i | 0 <= i < |cs| ensures Rep(s.nodes, cs[i]) {
      assert cs[i] == if i < |c.ls| then c.ls[i] else if i == |c.ls| then t else c.rs[i - |c.ls| - 1];
    }
    assert Rep(s.nodes, Fill(c, t));
    assert forall o :: UsesC(c, o) + Uses(t, o) <= 1;
    RootOfsUp(c.up, Fill(c, t), Node(c.ofs, [], []));
  }

  lemma AmidFacts(a: Call, h0: nat, s: State, bumped: bool)
    requires Amid(a, h0, s, bumped)
    ensures s.height >= 1 && a.used <= s.used <= a.used + SPLIT_BYTES * (h0 + 1)
    ensures s.tree.ofs in s.nodes && Holds(s.nodes[s.tree.ofs], s.tree.es, Slots(s.tree.cs))
    ensures KeyCount(s.nodes[s.tree.ofs]) == |s.tree.es| <= KEYS_MAX
    ensures Formed(s.tree.es, s.tree.cs) && FormedC(s.ctx) && Held(s.nodes, s.ctx, s.tree)
    ensures s.ctx.Down? && Full(s.tree) ==> Splittable(s.ctx, s.tree)
  {
    SuitsFormed(s.ctx, s.tree, s.height);
    if s.ctx.Down? && Full(s.tree) { SuitsSplit(s.ctx, s.tree, s.height, 0); }
  }

  lemma AmidBacked(a: Call, h0: nat, recs: RecMap, isArr: bool, s: State)
    requires Owned(a.nodes, recs, isArr, a.tree, h0) && Amid(a, h0, s, true)
    ensures AllBacked(recs, isArr, s.tree.es)
    ensures |s.tree.es| > KEYS_MIN ==> Backed(recs, isArr, s.tree.es[KEYS_MIN])
  {
    SuitsFormed(s.ctx, s.tree, s.height);
    hide Owned, Base;
    BaseBacked(a, h0, recs, isArr, s);
  }

  lemma AmidInsert(a: Call, h0: nat, s: State, e: Entry)
    requires Amid(a, h0, s, true) && Ordered(InOrder(a.tree), a.id) && !Full(s.tree) && s.tree.cs == []
    requires var i := Search(s.tree.es, a.id); !(i < |s.tree.es| && s.tree.es[i].id == a.id)
    ensures FormedC(s.ctx) && Base(a, s) && RootKept(a, s.nodes) && |s.tree.es| < KEYS_MAX
    ensures var i := Search(s.tree.es, a.id); var p := Place(false, |Pre(s.ctx)| + i);
            && Exact(InOrder(a.tree), a.id, p)
            && InOrder(Plug(s.ctx, Inserted(s.tree, i, e))) == Landed(InOrder(a.tree), p, e)
            && TreeShape(Plug(s.ctx, Inserted(s.tree, i, e)), s.height + Depth(s.ctx))
  {
    hide Amid, Base, Aimed, Ordered, Exact, Landed, TreeShape, Search, Plug, RootKept;
    AmidParts(a, h0, s);
    AimedRoom(InOrder(a.tree), a.id, s.ctx, s.tree, s.height);
    AimedInsert(InOrder(a.tree), a.id, s.ctx, s.tree, s.height, e);
  }

  /** The parent holds the median after a split. */
  lemma SplitMedian(s: State, n: NodeMap, sib: nat)
    requires s.ctx.Down? && Splittable(s.ctx, s.tree) && SplitDone(s, n, sib)
    ensures var i, m := |s.ctx.ls|, s.tree.es[KEYS_MIN];
            && s.ctx.ofs in n && i < SLOTS && HashAt(n[s.ctx.ofs], i) == m.id.hash && KvAt(n[s.ctx.ofs], i) == m.kv
  {
    var d := GoLow(s.ctx, s.tree, sib);
    assert Holds(n[d.ofs], d.es, Slots(d.ls) + [s.tree.ofs] + Slots(d.rs));
    assert d.es[|s.ctx.ls|] == s.tree.es[KEYS_MIN];
  }

  lemma MedianFound(a: Call, h0: nat, s: State, n: NodeMap, sib: nat)
    requires Amid(a, h0, s, true)
    requires s.ctx.Down? && Full(s.tree) && Splittable(s.ctx, s.tree) && SplitDone(s, n, sib)
    ensures RootKept(a, n)
    ensures var u := Up(GoneLow(s, n, sib));
            && Base(a, u) && Sits(u.ctx, u.tree, u.height) && |s.ctx.ls| < |u.tree.es|
            && u.tree.es[|s.ctx.ls|] == s.tree.es[KEYS_MIN]
  {
    hide Amid, Base, Suits, SplitDone, Sits, Held, RootKept, Header;
    AmidParts(a, h0, s);
    SplitBase(a, s, n, sib);
    SplitEnds(a, s, n, sib);
    BaseUp(a, GoneLow(s, n, sib));
    SitsMedian(s.ctx, s.tree, s.height, sib);
  }

  lemma SplitEnds(a: Call, s: State, n: NodeMap, sib: nat)
    requires Base(a, s) && Header(a, s, true)
    requires s.ctx.Down? && Splittable(s.ctx, s.tree) && SplitDone(s, n, sib)
    ensures RootKept(a, n)
  {
    SplitHeader(a, s, n, sib, true);
    HeaderEnds(a, GoneLow(s, n, sib), false);
  }

  lemma AmidParts(a: Call, h0: nat, s: State)
    requires Amid(a, h0, s, true)
    ensures Base(a, s) && Aimed(InOrder(a.tree), a.id, s.ctx, s.tree, s.height) && Suits(s.ctx, s.tree, s.height)
    ensures FormedC(s.ctx) && Header(a, s, true)
    ensures !Full(s.tree) ==> RootKept(a, s.nodes)
  {
    SuitsFormed(s.ctx, s.tree, s.height);
    if !Full(s.tree) { HeaderEnds(a, s, true); }
  }

  lemma SitsMedian(c: Ctx, t: Tree, h: nat, sib: nat)
    requires Suits(c, t, h) && c.Down? && Full(t)
    ensures Splittable(c, t)
    ensures var d, l := GoLow(c, t, sib), LowHalf(t);
            && Sits(d.up, Fill(d, l), h + 1) && |c.ls| < |Fill(d, l).es| && Fill(d, l).es[|c.ls|] == t.es[KEYS_MIN]
  {
    SuitsSplit(c, t, h, sib);
    SuitsSits(GoLow(c, t, sib), LowHalf(t), h);
    SitsUp(GoLow(c, t, sib), LowHalf(t), h);
  }

  lemma MidIs(s: State, k: Id, n: NodeMap, sib: nat)
    requires s.ctx.Down? && Splittable(s.ctx, s.tree)
    ensures var m := Mid(s, k, n, sib);
            && m.nodes == n && m.used == sib + NODE_SIZE && m.ctx.Down? && m.ctx.ofs == s.ctx.ofs
            && m.height == s.height
            && m.tree.ofs == if Compare(s.tree.es[KEYS_MIN].id, k) < 0 then sib else s.tree.ofs
  {
  }

  lemma LeafInserted(w: Words, t: Tree, i: nat, e: Entry, w': Words)
    requires Holds(w, t.es, Slots(t.cs)) && t.cs == [] && i <= |t.es| && |t.es| < SLOTS
    requires e.kv < U32_LIMIT && EntryInserted(w, i, e.id.hash, e.kv, w')
    ensures Holds(w', Inserted(t, i, e).es, Slots(Inserted(t, i, e).cs))
    ensures w'[GEN_TYPE] == w[GEN_TYPE] && Size(w') == Size(w)
  {
    assert Slots(t.cs) == [];
    InsertedHolds(w, t.es, i, e, w');
  }

  // ----- the end

  /** What a mended set of value v has made of the tree of call a: the entry is where it belongs. */
  ghost predicate Mends(a: Call, recs: RecMap, isArr: bool, v: Value, p: Place, r: Outcome) {
    var io := InOrder(a.tree);
    && Owned(r.nodes, r.recs, isArr, r.tree, r.height) && r.tree.ofs == a.tree.ofs
    && r.entry.id == a.id && r.entry.val == v
    && Exact(io, a.id, p) && InOrder(r.tree) == Landed(io, p, r.entry)
    && RecordPlaced(io, p, recs, a.used, r.entry) && r.recs == recs[r.entry.kv := Rec(!isArr, a.id.key, v)]
    && OthersKept(a, r.nodes, r.tree) && RootKept(a, r.nodes)
  }

  lemma MendsEnd(a: Call, h0: nat, recs: RecMap, isArr: bool, s: State, x: Tree, w: Words, e: Entry, p: Place)
    requires Owned(a.nodes, recs, isArr, a.tree, h0) && Base(a, s) && e.id == a.id
    requires x.ofs == s.tree.ofs && x.cs == s.tree.cs && s.tree.ofs in s.nodes && Holds(w, x.es, Slots(x.cs))
    requires TreeShape(Plug(s.ctx, x), s.height + Depth(s.ctx))
    requires Exact(InOrder(a.tree), a.id, p) && InOrder(Plug(s.ctx, x)) == Landed(InOrder(a.tree), p, e)
    requires RecordPlaced(InOrder(a.tree), p, recs, a.used, e) && RootKept(a, s.nodes)
    requires w[GEN_TYPE] == s.nodes[s.tree.ofs][GEN_TYPE] && Size(w) == Size(s.nodes[s.tree.ofs])
    ensures Mends(a, recs, isArr, e.val, p,
                  Outcome(s.nodes[s.tree.ofs := w], recs[e.kv := Rec(!isArr, a.id.key, e.val)], Plug(s.ctx, x),
                          s.height + Depth(s.ctx), e))
  {
    hide TreeShape, Exact, Landed, RecordPlaced, Holds, AllBacked, KvDistinct, Held, Kept, Plug, OthersKept, Size;
    ExactFits(InOrder(a.tree), a.id, p);
    LandedBacked(InOrder(a.tree), p, e, recs, a.used, isArr);
    EndHeld(s, x, w);
    EndKeeps(a, s, x, w);
  }

  lemma EndHeld(s: State, x: Tree, w: Words)
    requires Held(s.nodes, s.ctx, s.tree) && x.ofs == s.tree.ofs && x.cs == s.tree.cs && Holds(w, x.es, Slots(x.cs))
    ensures Held(s.nodes[s.tree.ofs := w], Top, Plug(s.ctx, x))
  {
    HeldRewrite(s.nodes, s.ctx, s.tree, x.es, w);
    assert x == Node(s.tree.ofs, x.es, s.tree.cs);
    HeldWhole(s.nodes[s.tree.ofs := w], s.ctx, x);
  }

  lemma EndKeeps(a: Call, s: State, x: Tree, w: Words)
    requires Base(a, s) && x.ofs == s.tree.ofs && x.cs == s.tree.cs && s.tree.ofs in s.nodes
    ensures Plug(s.ctx, x).ofs == a.tree.ofs
    ensures OthersKept(a, s.nodes[s.tree.ofs := w], Plug(s.ctx, x))
  {
    RootOfsIn(s.ctx, x);
    RootOfsUp(s.ctx, x, s.tree);
    hide Held;
    assert Uses(s.tree, s.tree.ofs) > 0;
    forall o ensures Uses(Plug(s.ctx, x), o) == UsesC(s.ctx, o) + Uses(s.tree, o) { PlugUses(s.ctx, x, o); }
  }

  lemma ExactFits(s: seq<Entry>, k: Id, p: Place)
    requires Exact(s, k, p)
    ensures Fits(s, k, p)
  {
  }

  /** Entries of the visited node have their records. */
  lemma BaseBacked(a: Call, h0: nat, recs: RecMap, isArr: bool, s: State)
    requires Owned(a.nodes, recs, isArr, a.tree, h0) && Base(a, s) && FormedC(s.ctx) && Formed(s.tree.es, s.tree.cs)
    ensures AllBacked(recs, isArr, s.tree.es) && s.tree.ofs in s.nodes
    ensures Holds(s.nodes[s.tree.ofs], s.tree.es, Slots(s.tree.cs))
  {
    var io := InOrder(Plug(s.ctx, s.tree));
    forall i | 0 <= i < |s.tree.es| ensures Backed(recs, isArr, s.tree.es[i]) {
      UpdateRun(s.ctx, s.tree, i, s.tree.es[i]);
      var p := |Pre(s.ctx)| + |Weave(s.tree.es[..i], Upto(s.tree.cs, i + 1))|;
      assert io[p] == s.tree.es[i];
    }
  }

  /** An entry that is there already, patched or with a new record, in a node that may be full. */
  method MendUpdate(b: Buffer, node: nat, i: nat, key: Key, v: Value, isArr: bool,
                    ghost a: Call, ghost h0: nat, ghost s: State) returns (ghost out: Outcome, ghost p: Place)
    requires b.Valid() && s.nodes == b.nodes && s.used == b.used && node == s.tree.ofs
    requires Owned(a.nodes, b.recs, isArr, a.tree, h0) && Base(a, s) && Sits(s.ctx, s.tree, s.height)
    requires RootKept(a, s.nodes)
    requires Ordered(InOrder(a.tree), a.id) && i < |s.tree.es| && s.tree.es[i].id == a.id
    requires a.id.key == key && ValidRec(Rec(!isArr, key, v)) && b.used < U32_LIMIT
    modifies b
    ensures b.Valid() && out.nodes == b.nodes && out.recs == b.recs && Mends(a, old(b.recs), isArr, v, p, out)
  {
    hide Layout.Holding, Owned, Base, Sits, Mends, All, ValidRecs, Ordered, Holds, AllBacked, Weave, Exact, Landed,
         TreeShape, InOrder, Pre;
    ghost var recs, n, was := b.recs, b.nodes, s.tree.es[i];
    BaseRun(a, s);
    ghost var e := Entry(a.id, v, was.kv);
    SitsUpdate(InOrder(a.tree), a.id, s.ctx, s.tree, s.height, i, e);
    BaseBacked(a, h0, recs, isArr, s);
    HeldSlot(n[node], s.tree.es, Slots(s.tree.cs), i, recs, isArr);
    p := Place(true, |Pre(s.ctx)| + |Weave(s.tree.es[..i], Upto(s.tree.cs, i + 1))|);
    var kv := b.GetKv(node, i);
    if b.ExistingLen(kv, !isArr) == ValLen(v) {
      b.OverwriteValue(kv, !isArr, v);
      PatchHolds(n[node], s.tree.es, Slots(s.tree.cs), i, e);
    } else {
      UnusedOffset(b.data, b.used, b.nodes, b.recs, b.spare, b.used);
      e := Entry(a.id, v, b.used);
      SitsUpdate(InOrder(a.tree), a.id, s.ctx, s.tree, s.height, i, e);
      b.SetKv(node, i, b.used);
      KvPutHolds(n[node], s.tree.es, Slots(s.tree.cs), i, e, b.nodes[node]);
      var start := b.AppendRecord(!isArr, key, v);
    }
    RecordIs(InOrder(a.tree), p, recs, a.used, was, e);
    MendsEnd(a, h0, recs, isArr, s, Updated(s.tree, i, e), b.nodes[node], e, p);
    assert b.nodes == s.nodes[node := b.nodes[node]];
    out := Outcome(b.nodes, b.recs, Plug(s.ctx, Updated(s.tree, i, e)), s.height + Depth(s.ctx), e);
  }

  lemma HeldSlot(w: Words, es: seq<Entry>, co: seq<nat>, i: nat, recs: RecMap, isArr: bool)
    requires Holds(w, es, co) && AllBacked(recs, isArr, es) && i < |es|
    ensures i < SLOTS && KvAt(w, i) == es[i].kv && Backed(recs, isArr, es[i])
  {
  }

  lemma RecordIs(io: seq<Entry>, p: Place, recs: RecMap, used: nat, was: Entry, e: Entry)
    requires p.found && p.pos < |io| && io[p.pos] == was
    requires if ValLen(was.val) == ValLen(e.val) then e.kv == was.kv else e.kv !in recs && e.kv >= used
    ensures RecordPlaced(io, p, recs, used, e)
  {
  }

  lemma BaseRun(a: Call, s: State)
    requires Base(a, s)
    ensures InOrder(Plug(s.ctx, s.tree)) == InOrder(a.tree) && a.used <= s.used
  {
  }

  /** A new entry in a leaf with room. */
  method MendInsert(b: Buffer, node: nat, i: nat, key: Key, hash: U32, v: Value, isArr: bool,
                    ghost a: Call, ghost h0: nat, ghost s: State) returns (ghost out: Outcome, ghost p: Place)
    requires b.Valid() && s.nodes == b.nodes && s.used == b.used && node == s.tree.ofs
    requires Owned(a.nodes, b.recs, isArr, a.tree, h0) && Amid(a, h0, s, true)
    requires Ordered(InOrder(a.tree), a.id) && !Full(s.tree) && s.tree.cs == []
    requires i == Search(s.tree.es, a.id) && !(i < |s.tree.es| && s.tree.es[i].id == a.id)
    requires a.id == Id(hash, key) && ValidRec(Rec(!isArr, key, v)) && b.used < U32_LIMIT
    modifies b
    ensures b.Valid() && out.nodes == b.nodes && out.recs == b.recs && Mends(a, old(b.recs), isArr, v, p, out)
  {
    hide Layout.Holding, Owned, Base, Amid, Mends, All, ValidRecs, Ordered, Holds, AllBacked, Exact, Landed, TreeShape,
         InOrder, Pre, Search, EntryInserted;
    ghost var recs, n := b.recs, b.nodes;
    AmidFacts(a, h0, s, true);
    UnusedOffset(b.data, b.used, b.nodes, b.recs, b.spare, b.used);
    ghost var e := Entry(a.id, v, b.used);
    AmidInsert(a, h0, s, e);
    p := Place(false, |Pre(s.ctx)| + i);
    var start := b.AppendRecord(!isArr, key, v);
    b.PutEntry(node, i, hash, start);
    assert b.nodes == n[node := b.nodes[node]];
    LeafInserted(n[node], s.tree, i, e, b.nodes[node]);
    MendsEnd(a, h0, recs, isArr, s, Inserted(s.tree, i, e), b.nodes[node], e, p);
    out := Outcome(b.nodes, b.recs, Plug(s.ctx, Inserted(s.tree, i, e)), s.height + Depth(s.ctx), e);
  }

  // ----- the walk

  /** The turn at a full node that is not the root: the walk ends at the median handed up or goes on in a half. */
  method MendSplit(b: Buffer, node: nat, parent: nat, k: Id, v: Value, isArr: bool,
                   ghost a: Call, ghost h0: nat, ghost s: State)
    returns (next: Option<nat>, ghost s': State, ghost out: Outcome, ghost p: Place)
    requires b.Valid() && s.nodes == b.nodes && s.used == b.used && node == s.tree.ofs
    requires Owned(a.nodes, b.recs, isArr, a.tree, h0) && Amid(a, h0, s, true) && Ordered(InOrder(a.tree), a.id)
    requires Full(s.tree) && s.ctx.Down? && parent == s.ctx.ofs && k == a.id
    requires ValidRec(Rec(!isArr, k.key, v)) && b.used + 2 * NODE_SIZE < U32_LIMIT
    modifies b
    ensures b.Valid()
    ensures next.Some? ==> b.recs == old(b.recs) && Amid(a, h0, s', false) && s'.nodes == b.nodes && s'.used == b.used
                           && s'.tree.ofs == next.value && s'.ctx.Down? && s'.ctx.ofs == parent
                           && s'.height == s.height && !Full(s'.tree)
    ensures next.None? ==> out.nodes == b.nodes && out.recs == b.recs && Mends(a, old(b.recs), isArr, v, p, out)
  {
    hide Layout.Holding, Owned, Base, Amid, Mends, All, ValidRecs, Ordered, AllBacked, InOrder, Held, SplitDone, Full,
         Less, Compare, Splittable;
    AmidFacts(a, h0, s, true);
    AmidBacked(a, h0, b.recs, isArr, s);
    ghost var m := s.tree.es[KEYS_MIN];
    var i, sib := b.SplitChild(node, parent, s);
    SplitMedian(s, b.nodes, sib);
    out, p, s' := Outcome(b.nodes, b.recs, s.tree, 0, m), Place(false, 0), s;
    var c := b.CompareNodeKey(parent, i, k, isArr, m);
    if c == 0 {
      next := None;
      MedianFound(a, h0, s, b.nodes, sib);
      out, p := MendUpdate(b, parent, i, k.key, v, isArr, a, h0, Up(GoneLow(s, b.nodes, sib)));
    } else {
      AmidSplit(a, h0, s, b.nodes, sib);
      MidIs(s, k, b.nodes, sib);
      next, s' := Some(if c < 0 then sib else node), Mid(s, k, b.nodes, sib);
    }
  }

  /** The turn at a node with room. */
  method MendSearch(b: Buffer, node: nat, key: Key, hash: U32, v: Value, isArr: bool,
                    ghost a: Call, ghost h0: nat, ghost s: State)
    returns (next: Option<nat>, ghost out: Outcome, ghost p: Place)
    requires b.Valid() && s.nodes == b.nodes && s.used == b.used && node == s.tree.ofs
    requires Owned(a.nodes, b.recs, isArr, a.tree, h0) && Amid(a, h0, s, true)
    requires Ordered(InOrder(a.tree), a.id) && !Full(s.tree)
    requires a.id == Id(hash, key) && ValidRec(Rec(!isArr, key, v)) && b.used < U32_LIMIT
    modifies b
    ensures b.Valid()
    ensures next.Some? ==>
              && b.nodes == old(b.nodes) && b.used == old(b.used) && b.recs == old(b.recs) && GoesDown(s.tree, a.id)
              && Search(s.tree.es, a.id) < |s.tree.cs| && next.value == s.tree.cs[Search(s.tree.es, a.id)].ofs
    ensures next.None? ==> out.nodes == b.nodes && out.recs == b.recs && Mends(a, old(b.recs), isArr, v, p, out)
  {
    hide Layout.Holding, Owned, Base, Amid, Mends, All, ValidRecs, Ordered, AllBacked, InOrder, Held, Search;
    AmidFacts(a, h0, s, true);
    AmidBacked(a, h0, b.recs, isArr, s);
    out, p := Outcome(b.nodes, b.recs, s.tree, 0, Entry(a.id, v, 0)), Place(false, 0);
    var i, hit := b.FindSlot(node, Id(hash, key), isArr, s.tree.es);
    if hit {
      next := None;
      AmidSits(a, h0, s);
      out, p := MendUpdate(b, node, i, key, v, isArr, a, h0, s);
    } else if b.GetChild(node, i) != 0 {
      next := Some(b.GetChild(node, i));
    } else {
      next := None;
      out, p := MendInsert(b, node, i, key, hash, v, isArr, a, h0, s);
    }
  }

  lemma AmidSits(a: Call, h0: nat, s: State)
    requires Amid(a, h0, s, true) && !Full(s.tree)
    ensures Base(a, s) && Sits(s.ctx, s.tree, s.height) && RootKept(a, s.nodes)
  {
    AmidParts(a, h0, s);
    SuitsSits(s.ctx, s.tree, s.height);
  }

  /** set_impl, mended. The entry is found afterwards, whatever medians the walk has met. */
  method MendedSet(b: Buffer, ofs: nat, key: Key, hash: U32, v: Value, isArr: bool, ghost t0: Tree, ghost h0: nat)
    returns (ghost out: Outcome, ghost p: Place)
    requires b.Valid() && Owned(b.nodes, b.recs, isArr, t0, h0) && t0.ofs == ofs
    requires Ordered(InOrder(t0), Id(hash, key)) && ValidRec(Rec(!isArr, key, v))
    requires b.used + SPLIT_BYTES * (h0 + 3) <= U32_LIMIT
    modifies b
    ensures b.Valid() && out.nodes == b.nodes && out.recs == b.recs
    ensures Mends(Call(old(b.nodes), old(b.used), t0, Id(hash, key)), old(b.recs), isArr, v, p, out)
  {
    hide Layout.Holding, Owned, Amid, Mends, All, ValidRecs, Ordered, InOrder, Held, Search, Holds, Formed, Splittable,
         FreshRootWords, KeyCount, Generation, Bumped, TypeCode, Size, OneChild;
    ghost var k := Id(hash, key);
    ghost var a := Call(b.nodes, b.used, t0, k);
    ghost var s := Start(a, h0);
    AmidStart(a, h0, b.recs, isArr);
    var parent: Option<nat> := None;
    var node := ofs;
    while true
      invariant b.Valid() && b.recs == old(b.recs) && Owned(a.nodes, b.recs, isArr, a.tree, h0)
      invariant s.nodes == b.nodes && s.used == b.used && s.tree.ofs == node
      invariant Amid(a, h0, s, false) && Placed(s, parent)
      decreases s.height, if !Full(s.tree) then 0 else if s.ctx.Top? then 2 else 1
    {
      AmidFacts(a, h0, s, false);
      b.BumpGeneration(node);
      AmidBump(a, h0, s, b.nodes[node]);
      s := Bump(s, b.nodes[node]);
      AmidFacts(a, h0, s, true);
      var next: Option<nat>;
      if b.GetKeyCount(node) < KEYS_MAX {
        next, out, p := MendSearch(b, node, key, hash, v, isArr, a, h0, s);
        if next.None? {
          return;
        }
        AmidDescend(a, h0, s);
        parent, node := Some(node), next.value;
        s := Descended(s, Search(s.tree.es, a.id));
      } else if parent.None? {
        var moved := b.SplitRoot(node);
        AmidRootSplit(a, h0, s, moved, b.nodes[node]);
        s := RootSplit(s, moved, b.nodes[node]);
        parent, node := Some(node), moved;
      } else {
        ghost var s';
        next, s', out, p := MendSplit(b, node, parent.value, Id(hash, key), v, isArr, a, h0, s);
        if next.None? {
          return;
        }
        node, s := next.value, s';
      }
    }
  }

  // ----- what it means

  lemma LandedLookup(s: seq<Entry>, p: Place, e: Entry, q: Id)
    requires Fits(s, e.id, p) && q != e.id
    ensures Lookup(Landed(s, p, e), q) == Lookup(s, q)
  {
    hide Lookup;
    var a, b := s[..p.pos], if p.found then s[p.pos + 1..] else s[p.pos..];
    var mid := if p.found then [s[p.pos]] else [];
    assert s == a + mid + b && Landed(s, p, e) == a + [e] + b;
    LookupConcat(a + mid, b, q);
    LookupConcat(a, mid, q);
    LookupConcat(a + [e], b, q);
    LookupConcat(a, [e], q);
    LookupOther(e, q);
    LookupNone(q);
    if p.found { LookupOther(s[p.pos], q); }
  }

  lemma LookupOther(e: Entry, q: Id)
    requires e.id != q
    ensures Lookup([e], q) == None
  {
  }

  /** A mended set updates the map that lookups show, with no condition on medians, and keeps every order. */
  lemma MendsMeans(a: Call, h0: nat, recs: RecMap, isArr: bool, v: Value, p: Place, r: Outcome)
    requires TreeShape(a.tree, h0) && Mends(a, recs, isArr, v, p, r)
    ensures Ordered(InOrder(a.tree), a.id) ==> Read(r.tree, a.id) == Some(v)
    ensures forall q :: q != a.id && Ordered(InOrder(a.tree), q) ==> Read(r.tree, q) == Read(a.tree, q)
    ensures forall q :: Ordered(InOrder(a.tree), q) ==> Ordered(InOrder(r.tree), q)
    ensures Sorted(InOrder(a.tree)) ==> Sorted(InOrder(r.tree)) && ReadsUpdated(a.tree, a.id, v, r.tree)
  {
    hide Ordered, Sorted, Less;
    var io := InOrder(a.tree);
    forall q | Ordered(io, q) ensures Ordered(InOrder(r.tree), q) {
      LandedOrdered(io, p, r.entry, q);
    }
    forall q | q != a.id && Ordered(io, q) ensures Read(r.tree, q) == Read(a.tree, q) {
      LandedLookup(io, p, r.entry, q);
      FindOrdered(a.tree, h0, RootLeast(h0), q);
      FindOrdered(r.tree, r.height, RootLeast(r.height), q);
    }
    if Ordered(io, a.id) {
      LandedOrdered(io, p, r.entry, a.id);
      FindOrdered(r.tree, r.height, RootLeast(r.height), a.id);
      LookupUnique(InOrder(r.tree), p.pos);
    }
    SortedOrdered(io);
    SortedOrdered(InOrder(r.tree));
  }

  /** It lands where the route of the mended walk says, and where set_impl does exactly if that meets no bad median. */
  lemma MendsRoute(a: Call, h0: nat, recs: RecMap, isArr: bool, v: Value, p: Place, r: Outcome)
    requires TreeShape(a.tree, h0) && Ordered(InOrder(a.tree), a.id) && Mends(a, recs, isArr, v, p, r)
    ensures p == RepairedRoute(a.tree, a.id)
    ensures p == Route(a.tree, a.id) <==> !Misroutes(a.tree, a.id)
  {
    hide Ordered, Exact;
    RepairedExact(a.tree, h0, RootLeast(h0), a.id);
    ExactUnique(InOrder(a.tree), a.id, p, RepairedRoute(a.tree, a.id));
    RepairOnlyWhereNeeded(a.tree, h0, RootLeast(h0), a.id);
  }
}
