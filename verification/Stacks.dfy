/** The in-order walk of a tree with an explicit stack, as the iterator keeps it. */
module Stacks {
  import opened Nodes
  import opened Layout
  import opened Order
  import opened Trees
  import opened Routes
  import opened Zipper
  import opened Turns
  import opened Heights
  import opened Steps
  import opened Forests

  /** A node on the stack and the index of the next key to visit in it. */
  datatype Slot = Slot(offset: nat, keyIndex: nat)

  /** What is left of a node from key i on, when its children up to i are done. */
  ghost function RestOf(t: Tree, i: nat): seq<Entry>
    requires i <= |t.es| && Formed(t.es, t.cs)
  {
    WeaveR(t.es[i..], From(t.cs, i + 1))
  }

  ghost predicate SlotsFit(ts: seq<Tree>, st: seq<Slot>) {
    |ts| == |st| && forall d :: 0 <= d < |ts| ==>
      st[d].offset == ts[d].ofs && st[d].keyIndex <= |ts[d].es| && Formed(ts[d].es, ts[d].cs)
  }

  /** Everything still to be visited: the top of the stack first. */
  ghost function Pending(ts: seq<Tree>, st: seq<Slot>): seq<Entry>
    requires SlotsFit(ts, st)
    decreases |ts|
  {
    if ts == [] then []
    else
      var n := |ts| - 1;
      RestOf(ts[n], st[n].keyIndex) + Pending(ts[..n], st[..n])
  }

  /** A subtree at depth d of a tree of at most ten levels, with its nodes and records in the buffer. */
  ghost predicate OnLevel(nodes: NodeMap, recs: RecMap, t: Tree, d: nat) {
    exists h: nat, lo: nat :: Shape(t, h, lo) && h + d <= ITER_HEIGHT_MAX && Rep(nodes, t) && AllBacked(recs, false,
                                    InOrder(t))
  }

  ghost predicate StackFits(nodes: NodeMap, recs: RecMap, ts: seq<Tree>, st: seq<Slot>) {
    && SlotsFit(ts, st)
    && |ts| <= ITER_HEIGHT_MAX
    && forall d :: 0 <= d < |ts| ==> OnLevel(nodes, recs, ts[d], d)
  }

  /** Child slot i of a node, as the walk finds it. */
  ghost predicate ChildFits(nodes: NodeMap, recs: RecMap, t: Tree, d: nat, i: nat)
    requires t.ofs in nodes && i <= |t.es| <= SLOTS && Formed(t.es, t.cs)
  {
    if t.cs == [] then ChildAt(nodes[t.ofs], i) == 0
    else
      && ChildAt(nodes[t.ofs], i) == t.cs[i].ofs != 0
      && d + 1 < ITER_HEIGHT_MAX && OnLevel(nodes, recs, t.cs[i], d + 1)
      && Formed(t.cs[i].es, t.cs[i].cs)
  }

  lemma LevelFacts(nodes: NodeMap, recs: RecMap, t: Tree, d: nat)
    requires OnLevel(nodes, recs, t, d)
    ensures d < ITER_HEIGHT_MAX && t.ofs in nodes && Holds(nodes[t.ofs], t.es, Slots(t.cs))
    ensures KeyCount(nodes[t.ofs]) == |t.es| <= SLOTS && Formed(t.es, t.cs)
    ensures AllBacked(recs, false, t.es)
    ensures forall i :: 0 <= i <= |t.es| ==> ChildFits(nodes, recs, t, d, i)
  {
    var h: nat, lo: nat :| Shape(t, h, lo) && h + d <= ITER_HEIGHT_MAX && Rep(nodes, t) && AllBacked(recs, false,
                                 InOrder(t));
    assert Below(t.es, t.cs, h);
    forall i | 0 <= i < |t.es| ensures Backed(recs, false, t.es[i]) { EntryOfRun(t.es, t.cs, i); }
    if t.cs != [] {
      assert RepIn(nodes, t.cs);
      forall i | 0 <= i <= |t.es| ensures ChildFits(nodes, recs, t, d, i) {
        assert Shape(t.cs[i], h - 1, KEYS_MIN) && Rep(nodes, t.cs[i]);
        assert Below(t.cs[i].es, t.cs[i].cs, h - 1);
        ChildBacked(recs, false, t, i);
      }
    }
  }

  lemma RootLevel(nodes: NodeMap, recs: RecMap, t: Tree, h: nat)
    requires Owned(nodes, recs, false, t, h) && |InOrder(t)| <= ITER_ENTRIES_MAX
    ensures OnLevel(nodes, recs, t, 0)
  {
    HeightForIterator(t, h);
    assert Shape(t, h, RootLeast(h));
  }

  /** A whole node is its first child and what is left after it. */
  lemma RunAtFirst(t: Tree)
    requires Formed(t.es, t.cs)
    ensures InOrder(t) == (if t.cs == [] then [] else InOrder(t.cs[0])) + RestOf(t, 0)
  {
    assert t.es[0..] == t.es;
    if t.cs != [] {
      WeaveHole(t.es, [], t.cs[0], t.cs[1..]);
      assert [] + [t.cs[0]] + t.cs[1..] == t.cs;
      assert t.es[..0] == [];
    }
  }

  /** One key on: that key, then its right child if there is one, then the rest. */
  lemma RestAtKey(t: Tree, i: nat)
    requires Formed(t.es, t.cs) && i < |t.es|
    ensures RestOf(t, i) == [t.es[i]] + (if t.cs == [] then [] else InOrder(t.cs[i + 1])) + RestOf(t, i + 1)
  {
    var es, cs := t.es[i..], From(t.cs, i + 1);
    assert es[0] == t.es[i] && es[1..] == t.es[i + 1..];
    if t.cs == [] {
      assert RestOf(t, i) == [es[0]] + es[1..];
      assert RestOf(t, i + 1) == es[1..];
    } else {
      WeaveHole(es[1..], [], cs[0], cs[1..]);
      assert [] + [cs[0]] + cs[1..] == cs;
      assert es[1..][..0] == [] && es[1..][0..] == es[1..];
      assert cs[1..] == From(t.cs, i + 2);
    }
  }

  /** The whole of the top node, then what is pending below it. */
  ghost function TopRun(ts: seq<Tree>, st: seq<Slot>): seq<Entry>
    requires SlotsFit(ts, st) && ts != []
  {
    InOrder(ts[|ts| - 1]) + Pending(ts[..|ts| - 1], st[..|ts| - 1])
  }

  lemma TopAtLeaf(ts: seq<Tree>, st: seq<Slot>)
    requires SlotsFit(ts, st) && ts != [] && ts[|ts| - 1].cs == [] && st[|ts| - 1].keyIndex == 0
    ensures TopRun(ts, st) == Pending(ts, st)
  {
    RunAtFirst(ts[|ts| - 1]);
  }

  lemma TopGoesDown(ts: seq<Tree>, st: seq<Slot>)
    requires SlotsFit(ts, st) && ts != [] && ts[|ts| - 1].cs != [] && st[|ts| - 1].keyIndex == 0
    requires Formed(ts[|ts| - 1].cs[0].es, ts[|ts| - 1].cs[0].cs)
    ensures var t := ts[|ts| - 1].cs[0];
            SlotsFit(ts + [t], st + [Slot(t.ofs, 0)]) && TopRun(ts + [t], st + [Slot(t.ofs, 0)]) == TopRun(ts, st)
  {
    var n := |ts| - 1;
    var t, x := ts[n].cs[0], RestOf(ts[n], 0);
    var ts', st' := ts + [t], st + [Slot(t.ofs, 0)];
    RunAtFirst(ts[n]);
    assert ts'[..|ts|] == ts && st'[..|ts|] == st;
    assert Pending(ts, st) == x + Pending(ts[..n], st[..n]);
    assert InOrder(t) + (x + Pending(ts[..n], st[..n])) == (InOrder(t) + x) + Pending(ts[..n], st[..n]);
  }

  lemma StackPush(nodes: NodeMap, recs: RecMap, ts: seq<Tree>, st: seq<Slot>, t: Tree)
    requires StackFits(nodes, recs, ts, st) && |ts| < ITER_HEIGHT_MAX && OnLevel(nodes, recs, t, |ts|)
    ensures StackFits(nodes, recs, ts + [t], st + [Slot(t.ofs, 0)])
  {
    LevelFacts(nodes, recs, t, |ts|);
  }

  lemma StackTop(nodes: NodeMap, recs: RecMap, ts: seq<Tree>, st: seq<Slot>)
    requires StackFits(nodes, recs, ts, st) && ts != []
    ensures SlotsFit(ts, st)
    ensures var n := |ts| - 1;
            OnLevel(nodes, recs, ts[n], n) && st[n].offset == ts[n].ofs && st[n].keyIndex <= |ts[n].es|
    ensures var n := |ts| - 1; SlotsFit(ts[..n], st[..n]) && StackFits(nodes, recs, ts[..n], st[..n])
  {
  }

  /** The top node is done: it is taken off. */
  lemma PopPending(ts: seq<Tree>, st: seq<Slot>)
    requires SlotsFit(ts, st) && ts != [] && st[|ts| - 1].keyIndex == |ts[|ts| - 1].es|
    ensures var n := |ts| - 1; Pending(ts[..n], st[..n]) == Pending(ts, st)
  {
  }

  lemma Reassociate(a: seq<Entry>, b: seq<Entry>, c: seq<Entry>)
    ensures a + b + c == a + (b + c)
  {
  }

  /** The next key of the top node is visited: its index moves on and its right child comes next. */
  lemma VisitPending(ts: seq<Tree>, st: seq<Slot>)
    requires SlotsFit(ts, st) && ts != [] && st[|ts| - 1].keyIndex < |ts[|ts| - 1].es|
    ensures var n := |ts| - 1;
            var t, i := ts[n], st[n].keyIndex;
            var st' := st[..n] + [Slot(t.ofs, i + 1)];
            && SlotsFit(ts, st')
            && Pending(ts, st) == [t.es[i]] + (if t.cs == [] then [] else InOrder(t.cs[i + 1])) + Pending(ts, st')
  {
    var n := |ts| - 1;
    var t, i := ts[n], st[n].keyIndex;
    var st' := st[..n] + [Slot(t.ofs, i + 1)];
    RestAtKey(t, i);
    assert st'[..n] == st[..n];
    var child := if t.cs == [] then [] else InOrder(t.cs[i + 1]);
    Reassociate([t.es[i]] + child, RestOf(t, i + 1), Pending(ts[..n], st[..n]));
  }

  lemma PushedRun(ts: seq<Tree>, st: seq<Slot>, t: Tree)
    requires SlotsFit(ts, st) && SlotsFit(ts + [t], st + [Slot(t.ofs, 0)])
    ensures TopRun(ts + [t], st + [Slot(t.ofs, 0)]) == InOrder(t) + Pending(ts, st)
  {
    assert (ts + [t])[..|ts|] == ts && (st + [Slot(t.ofs, 0)])[..|st|] == st;
  }

  lemma TopBacked(nodes: NodeMap, recs: RecMap, ts: seq<Tree>, st: seq<Slot>, i: nat)
    requires StackFits(nodes, recs, ts, st) && ts != [] && i < |ts[|ts| - 1].es|
    ensures var t := ts[|ts| - 1];
            t.ofs in nodes && i < SLOTS && KvAt(nodes[t.ofs], i) == t.es[i].kv && Backed(recs, false, t.es[i])
  {
    LevelFacts(nodes, recs, ts[|ts| - 1], |ts| - 1);
  }

  // ----- subtrees, while the rest of the buffer changes

  /** x is t or a subtree of it. */
  ghost predicate Under(t: Tree, x: Tree)
    decreases t
  {
    x == t || exists i :: 0 <= i < |t.cs| && Under(t.cs[i], x)
  }

  ghost predicate AllUnder(t: Tree, ts: seq<Tree>) {
    forall d :: 0 <= d < |ts| ==> Under(t, ts[d])
  }

  lemma {:induction false} UnderChild(t: Tree, x: Tree, i: nat)
    requires Under(t, x) && i < |x.cs|
    ensures Under(t, x.cs[i])
    decreases t
  {
    if x == t {
      assert Under(t.cs[i], x.cs[i]);
    } else {
      var j :| 0 <= j < |t.cs| && Under(t.cs[j], x);
      UnderChild(t.cs[j], x, i);
    }
  }

  /** A subtree of a tree that is there is there. */
  lemma {:induction false} UnderThere(nodes: NodeMap, recs: RecMap, t: Tree, h: nat, lo: nat, x: Tree)
    requires Under(t, x) && Shape(t, h, lo) && Rep(nodes, t) && AllBacked(recs, false, InOrder(t))
    ensures Rep(nodes, x) && AllBacked(recs, false, InOrder(x))
    decreases t
  {
    if x != t {
      var i :| 0 <= i < |t.cs| && Under(t.cs[i], x);
      assert Below(t.es, t.cs, h) && RepIn(nodes, t.cs);
      ChildBacked(recs, false, t, i);
      UnderThere(nodes, recs, t.cs[i], h - 1, KEYS_MIN, x);
    }
  }

  /** A stack over a tree fits as long as that tree is there, whatever becomes of the rest of the buffer. */
  lemma StackAgain(nodes: NodeMap, recs: RecMap, ts: seq<Tree>, st: seq<Slot>, nodes': NodeMap, recs': RecMap,
                   t: Tree, h: nat)
    requires StackFits(nodes, recs, ts, st) && AllUnder(t, ts) && Owned(nodes', recs', false, t, h)
    ensures StackFits(nodes', recs', ts, st)
  {
    forall d | 0 <= d < |ts| ensures OnLevel(nodes', recs', ts[d], d) {
      var h': nat, lo': nat :| Shape(ts[d], h', lo') && h' + d <= ITER_HEIGHT_MAX;
      UnderThere(nodes', recs', t, h, RootLeast(h), ts[d]);
    }
  }
}
