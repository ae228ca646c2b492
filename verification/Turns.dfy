/** One turn of the loop of set_impl, on the tree and on the nodes of the buffer together. */
module Turns {
  import opened Wrappers
  import opened Bytes
  import opened Records
  import opened Layout
  import opened Nodes
  import opened Order
  import opened Trees
  import opened Routes
  import opened Zipper
  import opened Splits
  import opened Walk
  import opened Steps
  import opened Paths

  /** Bytes that one split takes at most, alignment included, and all splits of one call. */
  const SPLIT_BYTES: nat := 99
  const SPLITS_BYTES: nat := 891

  /** What a call has to find and what it has moved on to. */
  datatype Call = Call(nodes: NodeMap, used: nat, tree: Tree, id: Id)
  datatype State = State(nodes: NodeMap, used: nat, ctx: Ctx, tree: Tree, height: nat)

  ghost function RootOfs(c: Ctx, t: Tree): nat {
    if c.Top? then t.ofs else if c.up.Top? then c.ofs else RootOfs(c.up, Node(c.ofs, [], []))
  }

  lemma {:induction false} RootOfsIn(c: Ctx, t: Tree)
    ensures RootOfs(c, t) == Plug(c, t).ofs
    ensures c.Down? ==> UsesC(c, RootOfs(c, t)) > 0
  {
    if c.Down? {
      RootOfsIn(c.up, Fill(c, t));
      RootOfsUp(c.up, Fill(c, t), Node(c.ofs, [], []));
    }
  }

  lemma {:induction false} RootOfsUp(c: Ctx, t: Tree, t': Tree)
    requires t.ofs == t'.ofs
    ensures RootOfs(c, t) == RootOfs(c, t')
  {
  }

  /** Splits that may still come. */
  ghost function SplitsLeft(c: Ctx, t: Tree, k: Id): nat {
    FullOnes(t, k) + (if Full(t) && c.Top? then 1 else 0)
  }

  /** Nodes outside the tree are untouched, and nodes new to it are new to the buffer. */
  ghost predicate Kept(a: Call, s: State) {
    && (forall o :: o in a.nodes ==> o in s.nodes)
    && (forall o :: o in a.nodes && Uses(a.tree, o) == 0 ==> s.nodes[o] == a.nodes[o])
    && (forall o :: o in s.nodes && o !in a.nodes ==> o >= AlignUp(a.used))
    && (forall o :: UsesC(s.ctx, o) + Uses(s.tree, o) > 0 ==> Uses(a.tree, o) > 0 || o !in a.nodes)
  }

  ghost predicate SameSizeType(w: Words, w': Words) {
    Size(w') == Size(w) && TypeCode(w') == TypeCode(w)
  }

  /** Generation of the root after a call: one up, or 1 if the root was split. */
  ghost function NextGeneration(w: Words): nat {
    if KeyCount(w) == SLOTS then 1 else (Generation(w) + 1) % GEN_LIMIT
  }

  ghost predicate Header(a: Call, s: State, bumped: bool) {
    var ofs := a.tree.ofs;
    && ofs in a.nodes && ofs in s.nodes
    && SameSizeType(a.nodes[ofs], s.nodes[ofs])
    && (if s.ctx.Down? then Generation(s.nodes[ofs]) == NextGeneration(a.nodes[ofs])
        else
          && KeyCount(s.nodes[ofs]) == KeyCount(a.nodes[ofs])
          && Generation(s.nodes[ofs]) == (Generation(a.nodes[ofs]) + (if bumped then 1 else 0)) % GEN_LIMIT)
  }

  ghost predicate Turn(a: Call, s: State, bumped: bool) {
    && On(a.tree, a.id, s.ctx, s.tree, s.height)
    && Held(s.nodes, s.ctx, s.tree)
    && Kept(a, s)
    && Header(a, s, bumped)
    && RootOfs(s.ctx, s.tree) == a.tree.ofs
    && a.used <= s.used
    && s.used + SPLIT_BYTES * SplitsLeft(s.ctx, s.tree, a.id) <= a.used + SPLITS_BYTES
  }

  ghost function Start(a: Call, h: nat): State {
    State(a.nodes, a.used, Top, a.tree, h)
  }

  lemma TurnStart(a: Call, h: nat)
    requires TreeShape(a.tree, h) && PathRoom(a.tree, a.id)
    requires Held(a.nodes, Top, a.tree)
    ensures Turn(a, Start(a, h), false)
  {
    TwoForEachFull(a.tree, a.id);
    var w := a.nodes[a.tree.ofs];
    assert Generation(w) < GEN_LIMIT;
    assert Full(a.tree) <==> |a.tree.es| == KEYS_MAX;
  }

  // ----- the generation of the visited node goes up

  ghost predicate Bumped(w: Words, w': Words) {
    && SameSlots(w, w') && w'[SIZE_KC] == w[SIZE_KC]
    && w'[GEN_TYPE] == GenTypeWord(Generation(w) + 1, TypeCode(w))
  }

  ghost function Bump(s: State, w: Words): State {
    s.(nodes := s.nodes[s.tree.ofs := w])
  }

  lemma TurnBump(a: Call, s: State, w: Words)
    requires Turn(a, s, false) && s.tree.ofs in s.nodes && Bumped(s.nodes[s.tree.ofs], w)
    ensures Turn(a, Bump(s, w), true)
  {
    var c, t := s.ctx, s.tree;
    HoldsSame(s.nodes[t.ofs], w, t.es, Slots(t.cs));
    HeldRewrite(s.nodes, c, t, t.es, w);
    assert Node(t.ofs, t.es, t.cs) == t;
    assert Uses(t, t.ofs) > 0;
    hide On;
    HeaderBump(a, s, w);
  }

  lemma HeaderBump(a: Call, s: State, w: Words)
    requires Header(a, s, false) && Held(s.nodes, s.ctx, s.tree) && RootOfs(s.ctx, s.tree) == a.tree.ofs
    requires s.tree.ofs in s.nodes && Bumped(s.nodes[s.tree.ofs], w)
    ensures Header(a, Bump(s, w), true)
  {
    var c, t := s.ctx, s.tree;
    assert Uses(t, t.ofs) > 0;
    if c.Down? {
      RootOfsIn(c, t);
      assert UsesC(c, a.tree.ofs) + Uses(t, a.tree.ofs) <= 1;
    } else {
      BumpHeader(s.nodes[t.ofs], w);
    }
  }

  lemma HoldsSame(w: Words, w': Words, es: seq<Entry>, co: seq<nat>)
    requires Holds(w, es, co) && SameSlots(w, w') && w'[SIZE_KC] == w[SIZE_KC]
    ensures Holds(w', es, co)
  {
  }

  lemma BumpHeader(w: Words, w': Words)
    requires Bumped(w, w')
    ensures SameSizeType(w, w') && KeyCount(w') == KeyCount(w) && Generation(w') == (Generation(w) + 1) % GEN_LIMIT
  {
  }

  // ----- root split

  ghost function RootSplit(s: State, moved: nat, w: Words): State {
    State(s.nodes[moved := if s.tree.ofs in s.nodes then s.nodes[s.tree.ofs] else w][s.tree.ofs := w],
          moved + NODE_SIZE,
          Down(Top, s.tree.ofs, [], [], []), Node(moved, s.tree.es, s.tree.cs), s.height)
  }

  lemma TurnRootSplit(a: Call, s: State, moved: nat, w: Words)
    requires Turn(a, s, true) && s.ctx.Top? && Full(s.tree)
    requires moved !in s.nodes && s.used <= moved < s.used + NODE_ALIGNMENT && moved % NODE_ALIGNMENT == 0 && 0 < moved
    requires s.tree.ofs in s.nodes && FreshRootWords(w, moved) && Generation(w) == 1
    requires SameSizeType(s.nodes[s.tree.ofs], w)
    ensures Turn(a, RootSplit(s, moved, w), false)
  {
    var t := s.tree;
    HeldRootSplit(s.nodes, t, moved, w);
    AlignLeast(a.used, moved);
    RootSplitStep(a.tree, a.id, t, s.height, moved);
    MovedPushes(t, moved, a.id);
    HeaderRootSplit(a, s, moved, w);
    hide On, Held, Header;
    assert Uses(t, t.ofs) > 0;
  }

  lemma HeaderRootSplit(a: Call, s: State, moved: nat, w: Words)
    requires Header(a, s, true) && Held(s.nodes, s.ctx, s.tree) && RootOfs(s.ctx, s.tree) == a.tree.ofs
    requires s.ctx.Top? && Full(s.tree) && s.tree.ofs in s.nodes && moved !in s.nodes
    requires Generation(w) == 1 && SameSizeType(s.nodes[s.tree.ofs], w)
    ensures Header(a, RootSplit(s, moved, w), false)
  {
    assert Holds(s.nodes[s.tree.ofs], s.tree.es, Slots(s.tree.cs));
  }

  // ----- child split

  ghost function GoneLow(s: State, n: NodeMap, sib: nat): State
    requires Splittable(s.ctx, s.tree)
  {
    State(n, sib + NODE_SIZE, GoLow(s.ctx, s.tree, sib), LowHalf(s.tree), s.height)
  }

  ghost function GoneHigh(s: State, n: NodeMap, sib: nat): State
    requires Splittable(s.ctx, s.tree)
  {
    State(n, sib + NODE_SIZE, GoHigh(s.ctx, s.tree, sib), HighHalf(s.tree, sib), s.height)
  }

  /** What split leaves of the buffer, as far as the rest of the walk is concerned. */
  ghost predicate SplitDone(s: State, n: NodeMap, sib: nat)
    requires Splittable(s.ctx, s.tree)
  {
    var c, t := s.ctx, s.tree;
    && sib !in s.nodes && s.used <= sib < s.used + NODE_ALIGNMENT && sib % NODE_ALIGNMENT == 0
    && n.Keys == s.nodes.Keys + {sib}
    && (forall o :: o in s.nodes && o != t.ofs && o != c.ofs ==> n[o] == s.nodes[o])
    && Held(n, GoLow(c, t, sib), LowHalf(t)) && Held(n, GoHigh(c, t, sib), HighHalf(t, sib))
    && c.ofs in n && c.ofs in s.nodes
    && n[c.ofs][GEN_TYPE] == s.nodes[c.ofs][GEN_TYPE] && Size(n[c.ofs]) == Size(s.nodes[c.ofs])
  }

  lemma SplitFinish(s: State, sib: nat, n: NodeMap)
    requires Held(s.nodes, s.ctx, s.tree) && Splittable(s.ctx, s.tree) && sib !in s.nodes && sib > 0
    requires s.used <= sib < s.used + NODE_ALIGNMENT && sib % NODE_ALIGNMENT == 0
    requires s.ctx.ofs in s.nodes && s.tree.ofs in s.nodes && KeyCount(s.nodes[s.ctx.ofs]) == |s.ctx.es|
    requires n.Keys == s.nodes.Keys + {sib}
    requires forall o :: o in s.nodes && o != s.tree.ofs && o != s.ctx.ofs ==> n[o] == s.nodes[o]
    requires LowWords(s.nodes[s.tree.ofs], n[s.tree.ofs]) && HighWords(s.nodes[s.tree.ofs], n[sib])
    requires ParentWords(s.nodes[s.ctx.ofs], s.nodes[s.tree.ofs], sib, |s.ctx.ls|, n[s.ctx.ofs])
    requires n[s.ctx.ofs][GEN_TYPE] == s.nodes[s.ctx.ofs][GEN_TYPE]
    requires Size(n[s.ctx.ofs]) == Size(s.nodes[s.ctx.ofs])
    ensures SplitDone(s, n, sib)
    ensures HashAt(n[s.ctx.ofs], |s.ctx.ls|) == s.tree.es[KEYS_MIN].id.hash
  {
    SplitSteps(s.nodes, s.ctx, s.tree, sib, n);
  }

  lemma SplitKept(a: Call, s: State, n: NodeMap, sib: nat)
    requires Kept(a, s) && Splittable(s.ctx, s.tree) && SplitDone(s, n, sib) && a.used <= s.used
    ensures Kept(a, GoneLow(s, n, sib)) && Kept(a, GoneHigh(s, n, sib))
  {
    var c, t := s.ctx, s.tree;
    assert Uses(t, t.ofs) > 0 && UsesC(c, c.ofs) > 0;
    AlignLeast(a.used, sib);
    forall o
      ensures UsesC(GoLow(c, t, sib), o) + Uses(LowHalf(t), o)
              == UsesC(c, o) + Uses(t, o) + (if o == sib then 1 else 0)
      ensures UsesC(GoHigh(c, t, sib), o) + Uses(HighHalf(t, sib), o)
              == UsesC(c, o) + Uses(t, o) + (if o == sib then 1 else 0)
    {
      SplitUses(c, t, sib, o);
    }
  }

  lemma SplitHeader(a: Call, s: State, n: NodeMap, sib: nat, bumped: bool)
    requires Header(a, s, bumped) && Held(s.nodes, s.ctx, s.tree) && RootOfs(s.ctx, s.tree) == a.tree.ofs
    requires s.ctx.Down? && Splittable(s.ctx, s.tree) && SplitDone(s, n, sib)
    ensures Header(a, GoneLow(s, n, sib), false) && Header(a, GoneHigh(s, n, sib), false)
    ensures RootOfs(GoLow(s.ctx, s.tree, sib), LowHalf(s.tree)) == a.tree.ofs
    ensures RootOfs(GoHigh(s.ctx, s.tree, sib), HighHalf(s.tree, sib)) == a.tree.ofs
  {
    var ofs := a.tree.ofs;
    RootOfsIn(s.ctx, s.tree);
    assert Uses(s.tree, s.tree.ofs) > 0;
    assert UsesC(s.ctx, ofs) + Uses(s.tree, ofs) <= 1;
    assert ofs != s.tree.ofs;
  }

  lemma TurnSplit(a: Call, s: State, n: NodeMap, sib: nat, bumped: bool)
    requires Turn(a, s, bumped) && s.ctx.Down? && Full(s.tree) && Splittable(s.ctx, s.tree) && SplitDone(s, n, sib)
    ensures if a.id.hash > s.tree.es[KEYS_MIN].id.hash then Turn(a, GoneHigh(s, n, sib), false)
            else Turn(a, GoneLow(s, n, sib), false)
  {
    SplitKept(a, s, n, sib);
    SplitHeader(a, s, n, sib, bumped);
    HalfPushes(s.tree, a.id, sib);
    hide On, Kept, Header, Held;
    if a.id.hash > s.tree.es[KEYS_MIN].id.hash {
      GoHighStep(a.tree, a.id, s.ctx, s.tree, s.height, sib);
    } else {
      GoLowStep(a.tree, a.id, s.ctx, s.tree, s.height, sib);
    }
  }

  // ----- descent

  ghost function Descended(s: State, i: nat): State
    requires i < |s.tree.cs| && s.height > 0
  {
    State(s.nodes, s.used, Descend(s.ctx, s.tree, i), s.tree.cs[i], s.height - 1)
  }

  lemma DescendKept(a: Call, s: State, i: nat)
    requires Kept(a, s) && i < |s.tree.cs| && s.height > 0
    ensures Kept(a, Descended(s, i))
  {
    var t := s.tree;
    var d := Descend(s.ctx, t, i);
    forall o ensures UsesC(d, o) + Uses(t.cs[i], o) == UsesC(s.ctx, o) + Uses(t, o) {
      assert t.cs == t.cs[..i] + [t.cs[i]] + t.cs[i + 1..];
      UsesInHole(t.cs[..i], t.cs[i], t.cs[i + 1..], o);
    }
  }

  lemma TurnDescend(a: Call, s: State)
    requires Turn(a, s, true) && GoesDown(s.tree, a.id)
    ensures s.height > 1 && Search(s.tree.es, a.id) < |s.tree.cs|
    ensures Turn(a, Descended(s, Search(s.tree.es, a.id)), false)
  {
    var i := Search(s.tree.es, a.id);
    DescendStep(a.tree, a.id, s.ctx, s.tree, s.height);
    HeldDescend(s.nodes, s.ctx, s.tree, i);
    DescendKept(a, s, i);
    DescendHeader(a, s, i);
    ChildPushes(s.tree, a.id);
  }

  lemma DescendHeader(a: Call, s: State, i: nat)
    requires Header(a, s, true) && Held(s.nodes, s.ctx, s.tree) && RootOfs(s.ctx, s.tree) == a.tree.ofs
    requires i < |s.tree.cs| && s.height > 0 && !Full(s.tree)
    ensures Header(a, Descended(s, i), false)
    ensures RootOfs(Descend(s.ctx, s.tree, i), s.tree.cs[i]) == a.tree.ofs
  {
    RootOfsUp(s.ctx, s.tree, Node(s.tree.ofs, [], []));
    if s.ctx.Top? {
      assert Holds(s.nodes[s.tree.ofs], s.tree.es, Slots(s.tree.cs));
    }
  }

  /** Where a call may end, the root's generation, type and size are as the call is to leave them. */
  lemma HeaderEnds(a: Call, s: State, bumped: bool)
    requires Header(a, s, bumped) && Held(s.nodes, s.ctx, s.tree) && RootOfs(s.ctx, s.tree) == a.tree.ofs
    requires s.ctx.Down? || (bumped && !Full(s.tree))
    ensures RootKept(a, s.nodes)
  {
    assert Holds(s.nodes[s.tree.ofs], s.tree.es, Slots(s.tree.cs));
  }

  // ----- a tree and its records

  /** The record an entry points to holds its key and value. */
  ghost predicate Backed(recs: RecMap, isArr: bool, e: Entry) {
    e.kv in recs && recs[e.kv] == Rec(!isArr, e.id.key, e.val)
  }

  ghost predicate AllBacked(recs: RecMap, isArr: bool, es: seq<Entry>) {
    forall i :: 0 <= i < |es| ==> Backed(recs, isArr, es[i])
  }

  ghost predicate KvDistinct(es: seq<Entry>) {
    forall i, j :: 0 <= i < j < |es| ==> es[i].kv != es[j].kv
  }

  /** A whole B-tree in the buffer. */
  ghost predicate Owned(nodes: NodeMap, recs: RecMap, isArr: bool, t: Tree, h: nat) {
    && TreeShape(t, h)
    && Held(nodes, Top, t)
    && AllBacked(recs, isArr, InOrder(t))
    && KvDistinct(InOrder(t))
  }

  // ----- the end of a call

  /** What a set of value v has made of the tree of call a. */
  datatype Outcome = Outcome(nodes: NodeMap, recs: RecMap, tree: Tree, height: nat, entry: Entry)

  ghost predicate InPlace(io: seq<Entry>, p: Place, v: Value) {
    p.found && p.pos < |io| && ValLen(io[p.pos].val) == ValLen(v)
  }

  /** The new entry is the old one patched, or its record is new to the buffer. */
  ghost predicate RecordPlaced(io: seq<Entry>, p: Place, recs: RecMap, used: nat, e: Entry) {
    if InPlace(io, p, e.val) then e.kv == io[p.pos].kv else e.kv !in recs && e.kv >= used
  }

  ghost predicate OthersKept(a: Call, n: NodeMap, t: Tree) {
    && (forall o :: o in a.nodes ==> o in n)
    && (forall o :: o in a.nodes && Uses(a.tree, o) == 0 ==> n[o] == a.nodes[o])
    && (forall o :: o in n && o !in a.nodes ==> o >= AlignUp(a.used))
    && (forall o :: Uses(t, o) > 0 ==> Uses(a.tree, o) > 0 || o !in a.nodes)
  }

  ghost predicate RootKept(a: Call, n: NodeMap) {
    && a.tree.ofs in a.nodes && a.tree.ofs in n
    && SameSizeType(a.nodes[a.tree.ofs], n[a.tree.ofs])
    && Generation(n[a.tree.ofs]) == NextGeneration(a.nodes[a.tree.ofs])
  }

  ghost predicate Achieved(a: Call, recs: RecMap, isArr: bool, v: Value, r: Outcome) {
    var io, p := InOrder(a.tree), Route(a.tree, a.id);
    && Owned(r.nodes, r.recs, isArr, r.tree, r.height)
    && r.tree.ofs == a.tree.ofs
    && r.entry.id == a.id && r.entry.val == v
    && Fits(io, a.id, p) && InOrder(r.tree) == Landed(io, p, r.entry)
    && RecordPlaced(io, p, recs, a.used, r.entry)
    && r.recs == recs[r.entry.kv := Rec(!isArr, a.id.key, v)]
    && Answers(a.tree, a.id, r.tree)
    && OthersKept(a, r.nodes, r.tree)
    && RootKept(a, r.nodes)
  }

  lemma LandedBacked(io: seq<Entry>, p: Place, e: Entry, recs: RecMap, used: nat, isArr: bool)
    requires AllBacked(recs, isArr, io) && KvDistinct(io) && Fits(io, e.id, p)
    requires RecordPlaced(io, p, recs, used, e)
    ensures AllBacked(recs[e.kv := Rec(!isArr, e.id.key, e.val)], isArr, Landed(io, p, e))
    ensures KvDistinct(Landed(io, p, e))
  {
    forall i | 0 <= i < |io| ensures io[i].kv in recs && (io[i].kv == e.kv ==> p.found && i == p.pos) {
      assert Backed(recs, isArr, io[i]);
    }
  }

  lemma EndKept(a: Call, s: State, w: Words, t: Tree)
    requires Turn(a, s, true) && !Full(s.tree)
    requires s.tree.ofs in s.nodes
    requires t.ofs == s.tree.ofs && t.cs == s.tree.cs
    requires w[GEN_TYPE] == s.nodes[s.tree.ofs][GEN_TYPE]
    requires Size(w) == Size(s.nodes[s.tree.ofs])
    ensures OthersKept(a, s.nodes[s.tree.ofs := w], Plug(s.ctx, t)) && RootKept(a, s.nodes[s.tree.ofs := w])
    ensures Plug(s.ctx, t).ofs == a.tree.ofs
  {
    assert Uses(s.tree, s.tree.ofs) > 0;
    forall o ensures Uses(Plug(s.ctx, t), o) == UsesC(s.ctx, o) + Uses(s.tree, o) { PlugUses(s.ctx, t, o); }
    RootOfsIn(s.ctx, t);
    RootOfsUp(s.ctx, t, s.tree);
    if s.ctx.Down? {
      RootOfsIn(s.ctx, s.tree);
    } else {
      assert Holds(s.nodes[s.tree.ofs], s.tree.es, Slots(s.tree.cs));
    }
  }

  /** The part of an outcome that is about the tree alone. */
  ghost predicate LandedTree(a: Call, s: State, recs: RecMap, e: Entry, x: Tree) {
    var io, p, t := InOrder(a.tree), Route(a.tree, a.id), Plug(s.ctx, x);
    && Fits(io, a.id, p) && InOrder(t) == Landed(io, p, e)
    && RecordPlaced(io, p, recs, a.used, e)
    && TreeShape(t, s.height + Depth(s.ctx))
    && Answers(a.tree, a.id, t)
  }

  /** All of an outcome but its tree is settled by the node in the hole. */
  lemma EndCommon(a: Call, h0: nat, s: State, recs: RecMap, isArr: bool, e: Entry, w: Words, x: Tree)
    requires Owned(a.nodes, recs, isArr, a.tree, h0) && Turn(a, s, true) && !Full(s.tree) && e.id == a.id
    requires s.tree.ofs in s.nodes && x.ofs == s.tree.ofs && x.cs == s.tree.cs
    requires w[GEN_TYPE] == s.nodes[s.tree.ofs][GEN_TYPE] && Size(w) == Size(s.nodes[s.tree.ofs])
    requires Holds(w, x.es, Slots(x.cs))
    requires LandedTree(a, s, recs, e, x)
    ensures Achieved(a, recs, isArr, e.val,
                     Outcome(s.nodes[s.tree.ofs := w], recs[e.kv := Rec(!isArr, a.id.key, e.val)],
                             Plug(s.ctx, x), s.height + Depth(s.ctx), e))
  {
    hide Answers, TreeShape, RecordPlaced, On;
    HeldRewrite(s.nodes, s.ctx, s.tree, x.es, w);
    HeldWhole(s.nodes[s.tree.ofs := w], s.ctx, x);
    LandedBacked(InOrder(a.tree), Route(a.tree, a.id), e, recs, a.used, isArr);
    EndKept(a, s, w, x);
  }

  lemma InsertLands(a: Call, h0: nat, s: State, recs: RecMap, e: Entry)
    requires TreeShape(a.tree, h0) && On(a.tree, a.id, s.ctx, s.tree, s.height)
    requires !Full(s.tree) && s.tree.cs == [] && e.id == a.id && e.kv !in recs && e.kv >= a.used
    requires var i := Search(s.tree.es, a.id); !(i < |s.tree.es| && s.tree.es[i].id == a.id)
    ensures LandedTree(a, s, recs, e, Inserted(s.tree, Search(s.tree.es, a.id), e))
  {
    var i := Search(s.tree.es, a.id);
    RouteFits(a.tree, h0, RootLeast(h0), a.id);
    InsertEnd(a.tree, a.id, s.ctx, s.tree, s.height, e);
    EndShape(s.ctx, s.tree, s.height, a.id, Insert(s.tree.es, i, e));
    InsertAnswers(a.tree, h0, a.id, s.ctx, s.tree, s.height, e);
    hide TreeShape, Answers, On;
  }

  lemma UpdateLands(a: Call, h0: nat, s: State, recs: RecMap, e: Entry)
    requires TreeShape(a.tree, h0) && On(a.tree, a.id, s.ctx, s.tree, s.height)
    requires !Full(s.tree) && e.id == a.id
    requires var i := Search(s.tree.es, a.id); i < |s.tree.es| && s.tree.es[i].id == a.id
    requires var was := s.tree.es[Search(s.tree.es, a.id)];
             if ValLen(was.val) == ValLen(e.val) then e.kv == was.kv else e.kv !in recs && e.kv >= a.used
    ensures LandedTree(a, s, recs, e, Updated(s.tree, Search(s.tree.es, a.id), e))
  {
    var i := Search(s.tree.es, a.id);
    RouteFits(a.tree, h0, RootLeast(h0), a.id);
    UpdateEnd(a.tree, a.id, s.ctx, s.tree, s.height, e);
    EndShape(s.ctx, s.tree, s.height, a.id, s.tree.es[i := e]);
    UpdateAnswers(a.tree, h0, a.id, s.ctx, s.tree, s.height, e);
    hide TreeShape, Answers, On;
  }

  lemma Unfold(a: Call, h0: nat, s: State, recs: RecMap, isArr: bool)
    requires Owned(a.nodes, recs, isArr, a.tree, h0) && Turn(a, s, true)
    ensures TreeShape(a.tree, h0) && On(a.tree, a.id, s.ctx, s.tree, s.height)
  {
  }

  /** A new entry in a leaf. */
  lemma EndInsert(a: Call, h0: nat, s: State, recs: RecMap, isArr: bool, e: Entry, w: Words)
    requires Owned(a.nodes, recs, isArr, a.tree, h0) && Turn(a, s, true) && !Full(s.tree) && s.tree.cs == []
             && e.id == a.id
    requires var i := Search(s.tree.es, a.id); !(i < |s.tree.es| && s.tree.es[i].id == a.id)
    requires e.kv !in recs && e.kv >= a.used
    requires s.tree.ofs in s.nodes
    requires w[GEN_TYPE] == s.nodes[s.tree.ofs][GEN_TYPE]
    requires Size(w) == Size(s.nodes[s.tree.ofs])
    requires Holds(w, Insert(s.tree.es, Search(s.tree.es, a.id), e), [])
    ensures var t := Plug(s.ctx, Inserted(s.tree, Search(s.tree.es, a.id), e));
            Achieved(a, recs, isArr, e.val,
                     Outcome(s.nodes[s.tree.ofs := w], recs[e.kv := Rec(!isArr, a.id.key, e.val)],
                             t, s.height + Depth(s.ctx), e))
  {
    Unfold(a, h0, s, recs, isArr);
    hide Turn, Owned, On, TreeShape, Achieved, LandedTree, Holds, Size;
    InsertLands(a, h0, s, recs, e);
    EndCommon(a, h0, s, recs, isArr, e, w, Inserted(s.tree, Search(s.tree.es, a.id), e));
  }

  /** An entry that is there already, patched or with a new record. */
  lemma EndUpdate(a: Call, h0: nat, s: State, recs: RecMap, isArr: bool, e: Entry, w: Words)
    requires Owned(a.nodes, recs, isArr, a.tree, h0) && Turn(a, s, true) && !Full(s.tree) && e.id == a.id
    requires var i := Search(s.tree.es, a.id); i < |s.tree.es| && s.tree.es[i].id == a.id
    requires var was := s.tree.es[Search(s.tree.es, a.id)];
             if ValLen(was.val) == ValLen(e.val) then e.kv == was.kv else e.kv !in recs && e.kv >= a.used
    requires s.tree.ofs in s.nodes
    requires w[GEN_TYPE] == s.nodes[s.tree.ofs][GEN_TYPE]
    requires Size(w) == Size(s.nodes[s.tree.ofs])
    requires Holds(w, s.tree.es[Search(s.tree.es, a.id) := e], Slots(s.tree.cs))
    ensures var t := Plug(s.ctx, Updated(s.tree, Search(s.tree.es, a.id), e));
            Achieved(a, recs, isArr, e.val,
                     Outcome(s.nodes[s.tree.ofs := w], recs[e.kv := Rec(!isArr, a.id.key, e.val)],
                             t, s.height + Depth(s.ctx), e))
  {
    Unfold(a, h0, s, recs, isArr);
    hide Turn, Owned, On, TreeShape, Achieved, LandedTree, Holds, Size;
    UpdateLands(a, h0, s, recs, e);
    EndCommon(a, h0, s, recs, isArr, e, w, Updated(s.tree, Search(s.tree.es, a.id), e));
  }

  // ----- what a turn can rely on

  lemma TurnFacts(a: Call, s: State, bumped: bool)
    requires Turn(a, s, bumped)
    ensures s.height >= 1
    ensures a.used <= s.used && s.used + SPLIT_BYTES * SplitsLeft(s.ctx, s.tree, a.id) <= a.used + SPLITS_BYTES
    ensures s.tree.ofs in s.nodes && Holds(s.nodes[s.tree.ofs], s.tree.es, Slots(s.tree.cs))
    ensures KeyCount(s.nodes[s.tree.ofs]) == |s.tree.es| <= KEYS_MAX
    ensures Formed(s.tree.es, s.tree.cs)
    ensures Held(s.nodes, s.ctx, s.tree)
    ensures s.ctx.Down? && Full(s.tree) ==> Splittable(s.ctx, s.tree)
  {
    assert Below(s.tree.es, s.tree.cs, s.height);
  }

  lemma TurnNode(a: Call, s: State, bumped: bool)
    requires Turn(a, s, bumped)
    ensures s.tree.ofs in s.nodes && a.used <= s.used && |s.tree.es| <= SLOTS
  {
    TurnFacts(a, s, bumped);
  }

  lemma TurnBacked(a: Call, s: State, bumped: bool, recs: RecMap, isArr: bool)
    requires Turn(a, s, bumped) && AllBacked(recs, isArr, InOrder(a.tree))
    ensures AllBacked(recs, isArr, s.tree.es)
  {
    TurnFacts(a, s, bumped);
    var io := InOrder(Plug(s.ctx, s.tree));
    forall i | 0 <= i < |s.tree.es| ensures Backed(recs, isArr, s.tree.es[i]) {
      UpdateRun(s.ctx, s.tree, i, s.tree.es[i]);
      var p := |Pre(s.ctx)| + |Weave(s.tree.es[..i], Upto(s.tree.cs, i + 1))|;
      assert io[p] == s.tree.es[i];
    }
  }

  /** The run knows the entry that the search has hit. */
  lemma FoundInRun(a: Call, s: State)
    requires Turn(a, s, true) && !Full(s.tree)
    requires var i := Search(s.tree.es, a.id); i < |s.tree.es| && s.tree.es[i].id == a.id
    ensures var i, io, p := Search(s.tree.es, a.id), InOrder(a.tree), Route(a.tree, a.id);
            p.found && p.pos < |io| && io[p.pos] == s.tree.es[i]
  {
    UpdateEnd(a.tree, a.id, s.ctx, s.tree, s.height, s.tree.es[Search(s.tree.es, a.id)]);
  }

  /** Nor does it know one if the search has missed in a leaf. */
  lemma MissedInRun(a: Call, s: State)
    requires Turn(a, s, true) && !Full(s.tree) && s.tree.cs == []
    requires var i := Search(s.tree.es, a.id); !(i < |s.tree.es| && s.tree.es[i].id == a.id)
    ensures !Route(a.tree, a.id).found
  {
    InsertEnd(a.tree, a.id, s.ctx, s.tree, s.height, Entry(a.id, Value(Null, []), 0));
  }

  lemma PatchHolds(w: Words, es: seq<Entry>, co: seq<nat>, i: nat, e: Entry)
    requires Holds(w, es, co) && i < |es| && es[i].id == e.id && es[i].kv == e.kv
    ensures Holds(w, es[i := e], co)
  {
  }

  // ----- the three ways to end

  lemma PatchOutcome(a: Call, h0: nat, s: State, recs: RecMap, isArr: bool, e: Entry)
    requires Owned(a.nodes, recs, isArr, a.tree, h0) && Turn(a, s, true) && !Full(s.tree) && e.id == a.id
    requires var i := Search(s.tree.es, a.id);
             && i < |s.tree.es| && s.tree.es[i].id == a.id && s.tree.es[i].kv == e.kv
             && ValLen(s.tree.es[i].val) == ValLen(e.val)
    ensures var t := Plug(s.ctx, Updated(s.tree, Search(s.tree.es, a.id), e));
            Achieved(a, recs, isArr, e.val, Outcome(s.nodes, recs[e.kv := Rec(!isArr, a.id.key, e.val)],
                                                    t, s.height + Depth(s.ctx), e))
  {
    TurnFacts(a, s, true);
    hide Turn, Owned, Achieved, Held, Formed, Splittable, Answers;
    PatchHolds(s.nodes[s.tree.ofs], s.tree.es, Slots(s.tree.cs), Search(s.tree.es, a.id), e);
    EndUpdate(a, h0, s, recs, isArr, e, s.nodes[s.tree.ofs]);
    assert s.nodes[s.tree.ofs := s.nodes[s.tree.ofs]] == s.nodes;
  }

  lemma RelinkOutcome(a: Call, h0: nat, s: State, recs: RecMap, isArr: bool, e: Entry, w: Words)
    requires Owned(a.nodes, recs, isArr, a.tree, h0) && Turn(a, s, true) && !Full(s.tree) && e.id == a.id
    requires var i := Search(s.tree.es, a.id);
             && i < |s.tree.es| && s.tree.es[i].id == a.id
             && ValLen(s.tree.es[i].val) != ValLen(e.val)
    requires e.kv !in recs && a.used <= e.kv < U32_LIMIT
    requires s.tree.ofs in s.nodes && KvPut(s.nodes[s.tree.ofs], Search(s.tree.es, a.id), e.kv, w)
    ensures var t := Plug(s.ctx, Updated(s.tree, Search(s.tree.es, a.id), e));
            Achieved(a, recs, isArr, e.val,
                     Outcome(s.nodes[s.tree.ofs := w], recs[e.kv := Rec(!isArr, a.id.key, e.val)],
                             t, s.height + Depth(s.ctx), e))
  {
    TurnFacts(a, s, true);
    hide Turn, Owned, Achieved, Held, Formed, Splittable, Answers;
    KvPutHolds(s.nodes[s.tree.ofs], s.tree.es, Slots(s.tree.cs), Search(s.tree.es, a.id), e, w);
    EndUpdate(a, h0, s, recs, isArr, e, w);
  }

  lemma InsertOutcome(a: Call, h0: nat, s: State, recs: RecMap, isArr: bool, e: Entry, w: Words)
    requires Owned(a.nodes, recs, isArr, a.tree, h0) && Turn(a, s, true) && !Full(s.tree) && e.id == a.id
    requires s.tree.cs == []
    requires var i := Search(s.tree.es, a.id); !(i < |s.tree.es| && s.tree.es[i].id == a.id)
    requires e.kv !in recs && a.used <= e.kv < U32_LIMIT
    requires s.tree.ofs in s.nodes && EntryInserted(s.nodes[s.tree.ofs], Search(s.tree.es, a.id), a.id.hash, e.kv, w)
    ensures var t := Plug(s.ctx, Inserted(s.tree, Search(s.tree.es, a.id), e));
            Achieved(a, recs, isArr, e.val,
                     Outcome(s.nodes[s.tree.ofs := w], recs[e.kv := Rec(!isArr, a.id.key, e.val)],
                             t, s.height + Depth(s.ctx), e))
  {
    TurnFacts(a, s, true);
    hide Turn, Owned, Achieved, Held, Formed, Splittable, Answers;
    assert Slots(s.tree.cs) == [];
    InsertedHolds(s.nodes[s.tree.ofs], s.tree.es, Search(s.tree.es, a.id), e, w);
    EndInsert(a, h0, s, recs, isArr, e, w);
  }

  lemma LeafRoom(a: Call, s: State)
    requires Turn(a, s, true) && !Full(s.tree)
    ensures s.tree.ofs in s.nodes && KeyCount(s.nodes[s.tree.ofs]) == |s.tree.es| < SLOTS
  {
    TurnFacts(a, s, true);
  }

  lemma EntrySlot(a: Call, s: State, recs: RecMap, isArr: bool, h0: nat)
    requires Owned(a.nodes, recs, isArr, a.tree, h0) && Turn(a, s, true) && !Full(s.tree)
    requires var i := Search(s.tree.es, a.id); i < |s.tree.es| && s.tree.es[i].id == a.id
    ensures var i, io, p := Search(s.tree.es, a.id), InOrder(a.tree), Route(a.tree, a.id);
            && s.tree.ofs in s.nodes && i < SLOTS && KvAt(s.nodes[s.tree.ofs], i) == s.tree.es[i].kv
            && Backed(recs, isArr, s.tree.es[i])
            && p.found && p.pos < |io| && io[p.pos] == s.tree.es[i]
  {
    TurnFacts(a, s, true);
    TurnBacked(a, s, true, recs, isArr);
    FoundInRun(a, s);
  }

  lemma StartFacts(a: Call, h: nat, recs: RecMap, isArr: bool)
    requires Owned(a.nodes, recs, isArr, a.tree, h) && PathRoom(a.tree, a.id)
    ensures Turn(a, Start(a, h), false)
    ensures AllBacked(recs, isArr, InOrder(a.tree))
  {
    TurnStart(a, h);
  }

  /** Pushes so far and pushes to come. */
  ghost predicate PathFits(a: Call, s: State, depth: nat) {
    depth + Pushes(s.tree, a.id) <= PATH_SLOTS
  }

  /** The parent that the loop remembers is the last node of the hole's context. */
  ghost predicate Placed(s: State, parent: Option<nat>) {
    match parent
    case Some(p) => s.ctx.Down? && s.ctx.ofs == p
    case None => s.ctx.Top?
  }
}
