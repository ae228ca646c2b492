/**
 One split, as the loop of set_impl does it: the upper entries of a full node move to a new sibling and the
 median goes up into the parent. Nothing of the in-order run moves.
 */
module Splits {
  import opened Bytes
  import opened Nodes
  import opened Order
  import opened Trees
  import opened Routes
  import opened Zipper

  ghost predicate Splittable(c: Ctx, t: Tree) {
    && c.Down? && |c.es| < KEYS_MAX && FormedC(c)
    && |t.es| == KEYS_MAX && (t.cs == [] || |t.cs| == KEYS_MAX + 1)
  }

  ghost function LowHalf(t: Tree): Tree
    requires |t.es| == KEYS_MAX && (t.cs == [] || |t.cs| == KEYS_MAX + 1)
  {
    Node(t.ofs, t.es[..KEYS_MIN], Upto(t.cs, KEYS_MIN + 1))
  }

  ghost function HighHalf(t: Tree, sib: nat): Tree
    requires |t.es| == KEYS_MAX && (t.cs == [] || |t.cs| == KEYS_MAX + 1)
  {
    Node(sib, t.es[KEYS_MIN + 1..], From(t.cs, KEYS_MIN + 1))
  }

  /** Entries of the parent with the median put in at the place of the child that is split. */
  ghost function WithMedian(c: Ctx, t: Tree): seq<Entry>
    requires Splittable(c, t)
  {
    c.es[..|c.ls|] + [t.es[KEYS_MIN]] + c.es[|c.ls|..]
  }

  ghost function GoLow(c: Ctx, t: Tree, sib: nat): Ctx
    requires Splittable(c, t)
  {
    Down(c.up, c.ofs, WithMedian(c, t), c.ls, [HighHalf(t, sib)] + c.rs)
  }

  ghost function GoHigh(c: Ctx, t: Tree, sib: nat): Ctx
    requires Splittable(c, t)
  {
    Down(c.up, c.ofs, WithMedian(c, t), c.ls + [LowHalf(t)], c.rs)
  }

  /** The two ways to go on look at the same tree. */
  lemma SameWhole(c: Ctx, t: Tree, sib: nat)
    requires Splittable(c, t)
    ensures Plug(GoLow(c, t, sib), LowHalf(t)) == Plug(GoHigh(c, t, sib), HighHalf(t, sib))
  {
    var l, r := LowHalf(t), HighHalf(t, sib);
    assert c.ls + [l] + ([r] + c.rs) == (c.ls + [l]) + [r] + c.rs;
  }

  lemma AssociateLow(l: seq<Entry>, m: seq<Entry>, r: seq<Entry>, w: seq<Entry>, b: seq<Entry>)
    ensures l + ((m + (r + w)) + b) == (l + m + r) + (w + b)
  {
  }

  lemma GoLowRun(c: Ctx, t: Tree, sib: nat)
    requires Splittable(c, t)
    ensures var d := GoLow(c, t, sib);
            && FormedC(d)
            && Pre(d) == Pre(c)
            && InOrder(LowHalf(t)) + Post(d) == InOrder(t) + Post(c)
  {
    var d := GoLow(c, t, sib);
    var l, m, r := InOrder(LowHalf(t)), t.es[KEYS_MIN], InOrder(HighHalf(t, sib));
    var n := |c.ls|;
    Around(t.es, t.cs, KEYS_MIN);
    assert d.es[..n] == c.es[..n];
    assert d.es[n..] == [m] + c.es[n..];
    assert d.es[n..][1..] == c.es[n..];
    WeaveHole(c.es[n..], [], HighHalf(t, sib), c.rs);
    assert [] + [HighHalf(t, sib)] + c.rs == d.rs;
    assert c.es[n..][..0] == [] && c.es[n..][0..] == c.es[n..];
    assert WeaveR(d.es[n..], d.rs) == [m] + (r + WeaveR(c.es[n..], c.rs));
    AssociateLow(l, [m], r, WeaveR(c.es[n..], c.rs), Post(c.up));
  }

  lemma {:induction false} WeaveLSnoc(es: seq<Entry>, ls: seq<Tree>, e: Entry, t: Tree)
    requires |es| == |ls|
    ensures WeaveL(es + [e], ls + [t]) == WeaveL(es, ls) + InOrder(t) + [e]
    decreases ls
  {
    if ls == [] {
      assert es + [e] == [e] && ls + [t] == [t];
      assert [t][1..] == [] && [e][1..] == [];
    } else {
      assert (es + [e])[1..] == es[1..] + [e] && (ls + [t])[1..] == ls[1..] + [t];
      WeaveLSnoc(es[1..], ls[1..], e, t);
    }
  }

  lemma GoHighRun(c: Ctx, t: Tree, sib: nat)
    requires Splittable(c, t)
    ensures var d := GoHigh(c, t, sib);
            && FormedC(d)
            && Pre(d) == Pre(c) + (InOrder(LowHalf(t)) + [t.es[KEYS_MIN]])
            && Post(d) == Post(c)
  {
    var d := GoHigh(c, t, sib);
    var m, n := t.es[KEYS_MIN], |c.ls|;
    assert d.es[..n + 1] == c.es[..n] + [m];
    assert d.es[n + 1..] == c.es[n..];
    WeaveLSnoc(c.es[..n], c.ls, m, LowHalf(t));
  }

  lemma Regroup(a: seq<Entry>, x: seq<Entry>, b: seq<Entry>, y: seq<Entry>, d: seq<Entry>)
    requires x + b == y + d
    ensures a + x + b == a + y + d
  {
    assert a + x + b == a + (x + b);
    assert a + y + d == a + (y + d);
  }

  /** A split leaves the in-order run exactly as it was. */
  lemma SplitRun(c: Ctx, t: Tree, sib: nat)
    requires Splittable(c, t)
    ensures InOrder(Plug(GoLow(c, t, sib), LowHalf(t))) == InOrder(Plug(c, t))
    ensures InOrder(Plug(GoHigh(c, t, sib), HighHalf(t, sib))) == InOrder(Plug(c, t))
  {
    var d, l := GoLow(c, t, sib), LowHalf(t);
    GoLowRun(c, t, sib);
    Regroup(Pre(c), InOrder(l), Post(d), InOrder(t), Post(c));
    PlugRun(d, l);
    PlugRun(c, t);
    SameWhole(c, t, sib);
  }

  lemma SplitShape(c: Ctx, t: Tree, sib: nat, h: nat, lo: nat)
    requires Splittable(c, t) && ShapeC(c, h, lo) && Shape(t, h, KEYS_MIN) && lo <= 1
    ensures Shape(LowHalf(t), h, KEYS_MIN) && Shape(HighHalf(t, sib), h, KEYS_MIN)
    ensures ShapeC(GoLow(c, t, sib), h, lo) && ShapeC(GoHigh(c, t, sib), h, lo)
  {
  }

  lemma SplitUses(c: Ctx, t: Tree, sib: nat, o: nat)
    requires Splittable(c, t)
    ensures UsesC(GoLow(c, t, sib), o) + Uses(LowHalf(t), o)
            == UsesC(c, o) + Uses(t, o) + (if o == sib then 1 else 0)
    ensures UsesC(GoHigh(c, t, sib), o) + Uses(HighHalf(t, sib), o)
            == UsesC(c, o) + Uses(t, o) + (if o == sib then 1 else 0)
  {
    var l, r := LowHalf(t), HighHalf(t, sib);
    UsesInConcat([r], c.rs, o);
    UsesInConcat(c.ls, [l], o);
    assert [r][1..] == [] && [l][1..] == [];
    if t.cs != [] {
      UsesInConcat(t.cs[..KEYS_MIN + 1], t.cs[KEYS_MIN + 1..], o);
      assert t.cs == t.cs[..KEYS_MIN + 1] + t.cs[KEYS_MIN + 1..];
    }
  }

  // ----- the words of the three nodes

  ghost predicate LowWords(w: Words, w': Words) {
    w' == w[SIZE_KC := WithKeyCount(w[SIZE_KC], KEYS_MIN)]
  }

  ghost predicate HighWords(w: Words, s: Words) {
    && KeyCount(s) == SLOTS - KEYS_MIN - 1 && Size(s) == 0
    && s[GEN_TYPE] == GenTypeWord(Generation(w), TypeCode(w))
    && (forall j :: 0 <= j < SLOTS - KEYS_MIN - 1 ==>
         HashAt(s, j) == HashAt(w, KEYS_MIN + 1 + j) && KvAt(s, j) == KvAt(w, KEYS_MIN + 1 + j))
    && (forall j :: 0 <= j < SLOTS - KEYS_MIN ==> ChildAt(s, j) == ChildAt(w, KEYS_MIN + 1 + j))
    && (forall j :: SLOTS - KEYS_MIN <= j <= SLOTS ==> ChildAt(s, j) == 0)
  }

  /** The first j entries above the median, and the children around them, have been copied. */
  ghost predicate UpperMoved(w: Words, s: Words, j: nat) {
    && j <= SLOTS - KEYS_MIN - 1
    && (forall i :: 0 <= i < j ==>
         HashAt(s, i) == HashAt(w, KEYS_MIN + 1 + i) && KvAt(s, i) == KvAt(w, KEYS_MIN + 1 + i))
    && (forall i :: 0 <= i <= j ==> ChildAt(s, i) == ChildAt(w, KEYS_MIN + 1 + i))
    && (forall i :: j < i <= SLOTS ==> ChildAt(s, i) == 0)
  }

  /** Slots at and after i moved up by one, the median and the sibling put in. */
  ghost predicate ParentWords(p: Words, w: Words, sib: nat, i: nat, p': Words)
    requires i <= KeyCount(p) < SLOTS
  {
    && KeyCount(p') == KeyCount(p) + 1
    && (forall j :: 0 <= j < i ==> HashAt(p', j) == HashAt(p, j) && KvAt(p', j) == KvAt(p, j))
    && HashAt(p', i) == HashAt(w, KEYS_MIN) && KvAt(p', i) == KvAt(w, KEYS_MIN)
    && (forall j :: i < j <= KeyCount(p) ==> HashAt(p', j) == HashAt(p, j - 1) && KvAt(p', j) == KvAt(p, j - 1))
    && (forall j :: 0 <= j <= i ==> ChildAt(p', j) == ChildAt(p, j))
    && ChildAt(p', i + 1) == sib
    && (forall j :: i + 1 < j <= KeyCount(p) + 1 ==> ChildAt(p', j) == ChildAt(p, j - 1))
  }

  /** The slots after j have been moved up by one, those from i up to j not yet. */
  ghost predicate Shifted(p: Words, i: nat, j: nat, p': Words) {
    && i <= j <= KeyCount(p) < SLOTS
    && SameHeader(p, p')
    && (forall k :: 0 <= k < j ==> HashAt(p', k) == HashAt(p, k) && KvAt(p', k) == KvAt(p, k))
    && (forall k :: j < k <= KeyCount(p) ==> HashAt(p', k) == HashAt(p, k - 1) && KvAt(p', k) == KvAt(p, k - 1))
    && (forall k :: 0 <= k <= j ==> ChildAt(p', k) == ChildAt(p, k))
    && (forall k :: j + 1 < k <= KeyCount(p) + 1 ==> ChildAt(p', k) == ChildAt(p, k - 1))
  }

  lemma LowHolds(t: Tree, w: Words, w': Words)
    requires |t.es| == KEYS_MAX && (t.cs == [] || |t.cs| == KEYS_MAX + 1)
    requires Holds(w, t.es, Slots(t.cs)) && LowWords(w, w')
    ensures Holds(w', LowHalf(t).es, Slots(LowHalf(t).cs))
  {
    assert forall i :: 0 <= i <= SLOTS ==> ChildAt(w', i) == ChildAt(w, i);
    if t.cs == [] {
      assert Slots(t.cs) == [] && Slots(LowHalf(t).cs) == [];
    }
  }

  lemma HighHolds(t: Tree, w: Words, s: Words, sib: nat)
    requires |t.es| == KEYS_MAX && (t.cs == [] || |t.cs| == KEYS_MAX + 1)
    requires Holds(w, t.es, Slots(t.cs)) && HighWords(w, s)
    ensures Holds(s, HighHalf(t, sib).es, Slots(HighHalf(t, sib).cs))
  {
    var es, cs := HighHalf(t, sib).es, HighHalf(t, sib).cs;
    assert forall i :: 0 <= i < |es| ==> es[i] == t.es[KEYS_MIN + 1 + i];
    assert forall i :: 0 <= i < |cs| ==> Slots(cs)[i] == Slots(t.cs)[KEYS_MIN + 1 + i];
  }

  lemma ParentHolds(c: Ctx, t: Tree, p: Words, w: Words, sib: nat, p': Words)
    requires Splittable(c, t) && sib > 0
    requires Holds(p, c.es, Slots(c.ls) + [t.ofs] + Slots(c.rs))
    requires Holds(w, t.es, Slots(t.cs))
    requires ParentWords(p, w, sib, |c.ls|, p')
    ensures Holds(p', WithMedian(c, t), Slots(c.ls) + [t.ofs] + ([sib] + Slots(c.rs)))
  {
    var co, co' := Slots(c.ls) + [t.ofs] + Slots(c.rs), Slots(c.ls) + [t.ofs] + ([sib] + Slots(c.rs));
    var es, es', n := c.es, WithMedian(c, t), |c.ls|;
    assert forall j :: 0 <= j < n ==> es'[j] == es[j];
    assert forall j :: n < j <= |es| ==> es'[j] == es[j - 1];
    assert forall j :: 0 <= j <= n ==> co'[j] == co[j];
    assert co'[n + 1] == sib;
    assert forall j :: n + 1 < j <= |es| + 1 ==> co'[j] == co[j - 1];
  }

  // ----- a new entry in a leaf

  /** Entries after j have been moved up by one, those from i up to j not yet. */
  ghost predicate EntriesShifted(p: Words, i: nat, j: nat, p': Words) {
    && i <= j <= KeyCount(p) < SLOTS
    && SameHeader(p, p') && SameChildren(p, p')
    && (forall k :: 0 <= k < j ==> HashAt(p', k) == HashAt(p, k) && KvAt(p', k) == KvAt(p, k))
    && (forall k :: j < k <= KeyCount(p) ==> HashAt(p', k) == HashAt(p, k - 1) && KvAt(p', k) == KvAt(p, k - 1))
  }

  ghost predicate EntryInserted(p: Words, i: nat, hash: U32, kv: U32, p': Words) {
    && i <= KeyCount(p) < SLOTS
    && p'[GEN_TYPE] == p[GEN_TYPE] && Size(p') == Size(p) && KeyCount(p') == KeyCount(p) + 1
    && SameChildren(p, p')
    && (forall k :: 0 <= k < i ==> HashAt(p', k) == HashAt(p, k) && KvAt(p', k) == KvAt(p, k))
    && HashAt(p', i) == hash && KvAt(p', i) == kv
    && (forall k :: i < k <= KeyCount(p) ==> HashAt(p', k) == HashAt(p, k - 1) && KvAt(p', k) == KvAt(p, k - 1))
  }

  lemma InsertedHolds(p: Words, es: seq<Entry>, i: nat, e: Entry, p': Words)
    requires Holds(p, es, []) && i <= |es| < SLOTS
    requires 0 <= e.kv < U32_LIMIT && EntryInserted(p, i, e.id.hash, e.kv, p')
    ensures Holds(p', es[..i] + [e] + es[i..], [])
  {
    var es' := es[..i] + [e] + es[i..];
    assert forall k :: 0 <= k < i ==> es'[k] == es[k];
    assert forall k :: i < k <= |es| ==> es'[k] == es[k - 1];
  }

  lemma KvPutHolds(p: Words, es: seq<Entry>, co: seq<nat>, i: nat, e: Entry, p': Words)
    requires Holds(p, es, co) && i < |es| && es[i].id == e.id
    requires 0 <= e.kv < U32_LIMIT && KvPut(p, i, e.kv, p')
    ensures Holds(p', es[i := e], co)
  {
  }
}
