/**
 What get_impl reads, off the words of the nodes and the records alone. In a tree that is whole it is what the tree
 holds; in a root that has been emptied over another it can be what is left of the old tree.
 */
module Readings {
  import opened Wrappers
  import opened Bytes
  import opened Records
  import opened Nodes
  import opened Layout
  import opened Order
  import opened Trees
  import opened Routes
  import opened Zipper
  import opened Lookups
  import opened Splits
  import opened Steps
  import opened Turns
  import opened Forests

  /** Every key of the node has a record of the kind that the tree has. */
  ghost predicate Recorded(nodes: NodeMap, recs: RecMap, isArr: bool, o: nat) {
    o in nodes && forall i :: 0 <= i < KeyCount(nodes[o]) ==>
      KvAt(nodes[o], i) in recs && recs[KvAt(nodes[o], i)].keyed == !isArr
  }

  ghost function EntriesOf(w: Words, recs: RecMap): (es: seq<Entry>)
    requires forall i :: 0 <= i < KeyCount(w) ==> KvAt(w, i) in recs
    ensures |es| == KeyCount(w)
  {
    seq(KeyCount(w), i requires 0 <= i < KeyCount(w) =>
      Entry(Id(HashAt(w, i), recs[KvAt(w, i)].key), recs[KvAt(w, i)].val, KvAt(w, i)))
  }

  /** What the walk from the node at o comes to within h levels: an entry, or that there is none. */
  ghost function Walked(nodes: NodeMap, recs: RecMap, isArr: bool, o: nat, k: Id, h: nat): Option<Option<Entry>>
    decreases h
  {
    if h == 0 || !Recorded(nodes, recs, isArr, o) then None
    else
      var es := EntriesOf(nodes[o], recs);
      var i := Search(es, k);
      if i < |es| && es[i].id == k then Some(Some(es[i]))
      else if ChildAt(nodes[o], i) == 0 then Some(None)
      else Walked(nodes, recs, isArr, ChildAt(nodes[o], i), k, h - 1)
  }

  lemma RecordedEntries(nodes: NodeMap, recs: RecMap, isArr: bool, o: nat, es: seq<Entry>)
    requires o in nodes && HoldsEntries(nodes[o], es) && AllBacked(recs, isArr, es)
    ensures Recorded(nodes, recs, isArr, o) && EntriesOf(nodes[o], recs) == es
  {
    forall i | 0 <= i < |es|
      ensures KvAt(nodes[o], i) in recs && recs[KvAt(nodes[o], i)] == Rec(!isArr, es[i].id.key, es[i].val)
    {
      assert Backed(recs, isArr, es[i]);
    }
    assert forall i :: 0 <= i < |es| ==> EntriesOf(nodes[o], recs)[i] == es[i];
  }

  lemma ReadEntries(nodes: NodeMap, recs: RecMap, isArr: bool, o: nat)
    requires Recorded(nodes, recs, isArr, o) && ValidRecs(recs)
    ensures HoldsEntries(nodes[o], EntriesOf(nodes[o], recs)) && AllBacked(recs, isArr, EntriesOf(nodes[o], recs))
  {
  }

  /** In a whole tree that is what the tree holds. */
  lemma {:induction false} WalkedTree(nodes: NodeMap, recs: RecMap, isArr: bool, t: Tree, h: nat, k: Id)
    requires SubTree(nodes, recs, isArr, t, h)
    ensures Walked(nodes, recs, isArr, t.ofs, k, h) == Some(Find(t, k))
    decreases h
  {
    SubFacts(nodes, recs, isArr, t, h, k);
    RecordedEntries(nodes, recs, isArr, t.ofs, t.es);
    hide SubTree, Recorded, EntriesOf, Find, Search, AllBacked;
    var i := Search(t.es, k);
    if !(i < |t.es| && t.es[i].id == k) && ChildAt(nodes[t.ofs], i) != 0 {
      WalkedTree(nodes, recs, isArr, t.cs[i], h - 1, k);
    }
  }

  // ----- an entry more in a node

  lemma BumpedEntries(w: Words, w': Words, es: seq<Entry>)
    requires HoldsEntries(w, es) && Bumped(w, w')
    ensures HoldsEntries(w', es) && SameChildren(w, w') && SameSizeType(w, w')
  {
  }

  lemma SlotCounts(w: Words, es: seq<Entry>)
    requires HoldsEntries(w, es)
    ensures KeyCount(w) == |es|
  {
  }

  lemma InsertedEntries(w: Words, es: seq<Entry>, i: nat, e: Entry, w': Words)
    requires HoldsEntries(w, es) && i <= |es| < SLOTS
    requires 0 <= e.kv < U32_LIMIT && EntryInserted(w, i, e.id.hash, e.kv, w')
    ensures HoldsEntries(w', Insert(es, i, e)) && SameChildren(w, w') && SameSizeType(w, w')
  {
    var es' := Insert(es, i, e);
    assert forall k :: 0 <= k < i ==> es'[k] == es[k];
    assert forall k :: i < k <= |es| ==> es'[k] == es[k - 1];
  }

  /** The next index of an array goes to the end. */
  lemma NextIndex(es: seq<Entry>)
    requires |es| < U32_LIMIT && forall i :: 0 <= i < |es| ==> es[i].id == Id(i, [])
    ensures Search(es, Id(|es|, [])) == |es| && forall e :: Insert(es, |es|, e) == es + [e]
  {
    hide Search;
    SearchIs(es, Id(|es|, []), |es|);
    assert es[..|es|] == es && es[|es|..] == [];
    forall e ensures Insert(es, |es|, e) == es + [e] {
      assert es + [e] + [] == es + [e];
    }
  }

  lemma ResizedEntries(w: Words, es: seq<Entry>, size: nat, w': Words)
    requires HoldsEntries(w, es) && SameSlots(w, w') && w'[SIZE_KC] == WithSize(w[SIZE_KC], size) && size < SIZE_LIMIT
    ensures HoldsEntries(w', es) && Size(w') == size && SameChildren(w, w')
  {
  }

  lemma AppendedBacked(recs: RecMap, es: seq<Entry>, e: Entry)
    requires AllBacked(recs, true, es) && e.kv !in recs && e.id.key == []
    ensures AllBacked(recs[e.kv := Rec(false, [], e.val)], true, es + [e])
  {
    forall i | 0 <= i < |es| ensures Backed(recs[e.kv := Rec(false, [], e.val)], true, (es + [e])[i]) {
      assert Backed(recs, true, es[i]);
    }
  }

  // ----- a root with an old child in one of its slots

  /** The root at n has the entries es and no children at slots up to their number, but an old one at slot c. */
  ghost predicate Haunted(nodes: NodeMap, recs: RecMap, isArr: bool, n: nat, es: seq<Entry>, c: nat,
                          was: Tree, h: nat) {
    && n in nodes && HoldsEntries(nodes[n], es) && AllBacked(recs, isArr, es)
    && |es| <= c <= SLOTS && (forall i :: 0 <= i < c ==> ChildAt(nodes[n], i) == 0)
    && ChildAt(nodes[n], c) == was.ofs != 0 && SubTree(nodes, recs, isArr, was, h)
  }

  /** As long as it has fewer than c entries it reads as a leaf. */
  lemma HauntedQuiet(nodes: NodeMap, recs: RecMap, isArr: bool, n: nat, es: seq<Entry>, c: nat,
                     was: Tree, h: nat, k: Id)
    requires Haunted(nodes, recs, isArr, n, es, c, was, h) && |es| < c
    ensures var i := Search(es, k);
            Walked(nodes, recs, isArr, n, k, 1) == Some(if i < |es| && es[i].id == k then Some(es[i]) else None)
  {
    RecordedEntries(nodes, recs, isArr, n, es);
  }

  /** Once it has c, every key greater than all of them is looked up in the old child. */
  lemma HauntedReads(nodes: NodeMap, recs: RecMap, isArr: bool, n: nat, es: seq<Entry>, c: nat,
                     was: Tree, h: nat, k: Id)
    requires Haunted(nodes, recs, isArr, n, es, c, was, h) && |es| == c && AllBelow(es, k)
    ensures Walked(nodes, recs, isArr, n, k, h + 1) == Some(Find(was, k))
  {
    RecordedEntries(nodes, recs, isArr, n, es);
    SearchIs(es, k, |es|);
    WalkedTree(nodes, recs, isArr, was, h, k);
  }
}
