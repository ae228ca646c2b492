/**
 What a tree of the buffer says as a document: objects as maps, arrays as sequences, nested ones followed through
 their links. Layout, order of insertion and offsets are gone; two buffers with the same document answer alike.
 */
module Documents {
  import opened Records
  import opened Layout
  import opened Hash
  import opened Order
  import opened Trees
  import opened Routes
  import opened Lookups
  import opened Steps
  import opened Refinement
  import opened Forests

  datatype Doc = Atom(v: Value) | Dict(m: map<Key, Doc>) | List(s: seq<Doc>)

  /** Entries of a tree at r: they lie behind its root and their links lead to trees. */
  ghost predicate Hangs(f: Forest, isArr: bool, r: nat, s: seq<Entry>) {
    forall i :: 0 <= i < |s| ==> r < s[i].kv && LinkedTo(f, isArr, s[i])
  }

  /** Links only lead to higher offsets, so following them comes to an end. */
  ghost predicate Deep(f: Forest) {
    forall r :: r in f ==> Hangs(f, f[r].isArr, r, InOrder(f[r].tree))
  }

  ghost function Above(f: Forest, r: nat): nat {
    |set q | q in f && q > r|
  }

  lemma AboveLess(f: Forest, r: nat, n: nat)
    requires r < n && n in f
    ensures Above(f, n) < Above(f, r)
  {
    var a, b := set q | q in f && q > r, set q | q in f && q > n;
    assert n in a - b;
    assert a == b + (a - b);
  }

  ghost function DocAt(f: Forest, r: nat): Doc
    requires Deep(f) && r in f
    decreases Above(f, r), 2, 0
  {
    if f[r].isArr then List(ListOf(f, r, InOrder(f[r].tree))) else Dict(DictOf(f, r, InOrder(f[r].tree)))
  }

  ghost function DictOf(f: Forest, r: nat, s: seq<Entry>): map<Key, Doc>
    requires Deep(f) && Hangs(f, false, r, s)
    decreases Above(f, r), 1, |s|
  {
    if s == [] then map[]
    else
      var n := |s| - 1;
      DictOf(f, r, s[..n])[s[n].id.key := EntryDoc(f, false, r, s[n])]
  }

  ghost function ListOf(f: Forest, r: nat, s: seq<Entry>): (d: seq<Doc>)
    requires Deep(f) && Hangs(f, true, r, s)
    ensures |d| == |s| && forall i :: 0 <= i < |s| ==> d[i] == EntryDoc(f, true, r, s[i])
    decreases Above(f, r), 1, |s|
  {
    if s == [] then []
    else
      var n := |s| - 1;
      ListOf(f, r, s[..n]) + [EntryDoc(f, true, r, s[n])]
  }

  ghost function EntryDoc(f: Forest, isArr: bool, r: nat, e: Entry): Doc
    requires Deep(f) && r < e.kv && LinkedTo(f, isArr, e)
    decreases Above(f, r), 0, 0
  {
    if Nests(e.val) then
      var n := LinkOf(isArr, e);
      AboveLess(f, r, n);
      DocAt(f, n)
    else Atom(e.val)
  }

  lemma PlantedDeep(nodes: NodeMap, recs: RecMap, f: Forest)
    requires Planted(nodes, recs, f) && Linked(f)
    ensures Deep(f)
  {
    forall r, i | r in f && 0 <= i < |InOrder(f[r].tree)|
      ensures r < InOrder(f[r].tree)[i].kv && LinkedTo(f, f[r].isArr, InOrder(f[r].tree)[i])
    {
      RootFacts(nodes, recs, f, r);
    }
  }

  lemma HangsAt(f: Forest, r: nat)
    requires Deep(f) && r in f
    ensures Hangs(f, f[r].isArr, r, InOrder(f[r].tree))
  {
  }

  // ----- what a change elsewhere leaves as it was

  /** Trees whose links stay among them. */
  ghost predicate Closed(f: Forest, kept: set<nat>) {
    && kept <= f.Keys
    && forall r, i :: r in kept && 0 <= i < |InOrder(f[r].tree)| ==> LinksInto(f[r].isArr, InOrder(f[r].tree)[i], kept)
  }

  ghost predicate LinksInto(isArr: bool, e: Entry, kept: set<nat>) {
    Nests(e.val) ==> LinkOf(isArr, e) in kept
  }

  ghost predicate Agree(f: Forest, f': Forest, kept: set<nat>) {
    kept <= f.Keys && forall q :: q in kept ==> q in f' && f'[q] == f[q]
  }

  /** Trees that are the same, and whose links are, have the same document. */
  lemma {:induction false} DocFrame(f: Forest, f': Forest, kept: set<nat>, r: nat)
    requires Deep(f) && Deep(f') && Closed(f, kept) && Agree(f, f', kept) && r in kept
    ensures DocAt(f', r) == DocAt(f, r)
    decreases Above(f, r), 2, 0
  {
    RunFrame(f, f', kept, f[r].isArr, r, InOrder(f[r].tree));
  }

  lemma {:induction false} RunFrame(f: Forest, f': Forest, kept: set<nat>, isArr: bool, r: nat, s: seq<Entry>)
    requires Deep(f) && Deep(f') && Closed(f, kept) && Agree(f, f', kept)
    requires Hangs(f, isArr, r, s) && forall i :: 0 <= i < |s| ==> LinksInto(isArr, s[i], kept)
    ensures Hangs(f', isArr, r, s)
    ensures if isArr then ListOf(f', r, s) == ListOf(f, r, s) else DictOf(f', r, s) == DictOf(f, r, s)
    decreases Above(f, r), 1, |s|
  {
    if s != [] {
      var n := |s| - 1;
      RunFrame(f, f', kept, isArr, r, s[..n]);
      EntryFrame(f, f', kept, isArr, r, s[n]);
      assert Hangs(f', isArr, r, s) by {
        forall i | 0 <= i < |s| ensures LinkedTo(f', isArr, s[i]) {
          if i < n { assert s[i] == s[..n][i]; }
        }
      }
    }
  }

  lemma {:induction false} EntryFrame(f: Forest, f': Forest, kept: set<nat>, isArr: bool, r: nat, e: Entry)
    requires Deep(f) && Deep(f') && Closed(f, kept) && Agree(f, f', kept)
    requires r < e.kv && LinkedTo(f, isArr, e) && LinksInto(isArr, e, kept)
    ensures LinkedTo(f', isArr, e) && EntryDoc(f', isArr, r, e) == EntryDoc(f, isArr, r, e)
    decreases Above(f, r), 0, 0
  {
    if Nests(e.val) {
      AboveLess(f, r, LinkOf(isArr, e));
      DocFrame(f, f', kept, LinkOf(isArr, e));
    }
  }

  /** What lies above a root keeps its document when only that root changes. */
  lemma AboveFrame(f: Forest, f': Forest, r: nat, isArr: bool, s: seq<Entry>)
    requires Deep(f) && Deep(f') && OnlyAt(f, r, f') && Hangs(f, isArr, r, s)
    ensures Hangs(f', isArr, r, s)
    ensures if isArr then ListOf(f', r, s) == ListOf(f, r, s)
            else forall i :: 0 <= i < |s| ==> EntryDoc(f', false, r, s[i]) == EntryDoc(f, false, r, s[i])
  {
    var kept := set q | q in f && q > r;
    AboveClosed(f, r);
    forall i | 0 <= i < |s| ensures LinksInto(isArr, s[i], kept) { assert LinkedTo(f, isArr, s[i]); }
    RunFrame(f, f', kept, isArr, r, s);
    if !isArr {
      forall i | 0 <= i < |s| ensures EntryDoc(f', false, r, s[i]) == EntryDoc(f, false, r, s[i]) {
        EntryFrame(f, f', kept, false, r, s[i]);
      }
    }
  }

  lemma AboveClosed(f: Forest, r: nat)
    requires Deep(f)
    ensures Closed(f, set q | q in f && q > r)
  {
    var kept := set q | q in f && q > r;
    forall q, i | q in kept && 0 <= i < |InOrder(f[q].tree)| ensures LinksInto(f[q].isArr, InOrder(f[q].tree)[i],
                                                 kept) {
      assert LinkedTo(f, f[q].isArr, InOrder(f[q].tree)[i]);
    }
  }

  // ----- objects by key

  ghost predicate KeysUnique(s: seq<Entry>) {
    forall i, j :: 0 <= i < j < |s| ==> s[i].id.key != s[j].id.key
  }

  lemma SortedUnique(s: seq<Entry>)
    requires Sorted(s) && ObjectRun(s)
    ensures KeysUnique(s)
  {
    forall i, j | 0 <= i < j < |s| ensures s[i].id.key != s[j].id.key {
      assert Less(s[i].id, s[j].id) && Compare(s[i].id, s[j].id) != 0;
    }
  }

  lemma {:induction false} DictByKey(f: Forest, r: nat, s: seq<Entry>)
    requires Deep(f) && Hangs(f, false, r, s) && KeysUnique(s)
    ensures forall i :: 0 <= i < |s| ==>
              s[i].id.key in DictOf(f, r, s) && DictOf(f, r, s)[s[i].id.key] == EntryDoc(f, false, r, s[i])
    ensures forall k :: k in DictOf(f, r, s) ==> exists i :: 0 <= i < |s| && s[i].id.key == k
    decreases |s|
  {
    if s != [] {
      var n := |s| - 1;
      var t := s[..n];
      DictByKey(f, r, t);
      forall k | k in DictOf(f, r, s) ensures exists i :: 0 <= i < |s| && s[i].id.key == k {
        if k in DictOf(f, r, t) {
          var i :| 0 <= i < |t| && t[i].id.key == k;
          assert s[i].id.key == k;
        } else {
          assert s[n].id.key == k;
        }
      }
      forall i | 0 <= i < |s|
        ensures s[i].id.key in DictOf(f, r, s) && DictOf(f, r, s)[s[i].id.key] == EntryDoc(f, false, r, s[i])
      {
        if i < n { assert t[i] == s[i]; }
      }
    }
  }

  /** The place stands for the key of e: its entry, or none has that key. */
  ghost predicate KeyPlace(s: seq<Entry>, p: Place, e: Entry) {
    && p.pos <= |s|
    && (p.found ==> p.pos < |s|)
    && forall i :: 0 <= i < |s| ==> (s[i].id.key == e.id.key <==> p.found && i == p.pos)
  }

  lemma LandedUnique(s: seq<Entry>, p: Place, e: Entry)
    requires KeysUnique(s) && KeyPlace(s, p, e)
    ensures KeysUnique(Landed(s, p, e))
  {
    var s' := Landed(s, p, e);
    forall i, j | 0 <= i < j < |s'| ensures s'[i].id.key != s'[j].id.key {
      if p.found {
        assert s'[i].id.key == s[i].id.key && s'[j].id.key == s[j].id.key;
      } else {
        assert s'[i] == if i < p.pos then s[i] else if i == p.pos then e else s[i - 1];
        assert s'[j] == if j < p.pos then s[j] else if j == p.pos then e else s[j - 1];
      }
    }
  }

  /** Landing an entry updates the map at its key, if the documents of the other keys stay. */
  lemma DictLanded(f: Forest, f': Forest, r: nat, s: seq<Entry>, p: Place, e: Entry)
    requires Deep(f) && Deep(f') && Hangs(f, false, r, s) && KeysUnique(s) && KeyPlace(s, p, e)
    requires Hangs(f', false, r, Landed(s, p, e))
    requires forall i :: 0 <= i < |s| && s[i].id.key != e.id.key ==>
               LinkedTo(f', false, s[i]) && EntryDoc(f', false, r, s[i]) == EntryDoc(f, false, r, s[i])
    ensures LinkedTo(f', false, e) && r < e.kv
    ensures DictOf(f', r, Landed(s, p, e)) == DictOf(f, r, s)[e.id.key := EntryDoc(f', false, r, e)]
  {
    hide Hangs, Deep, Landed, DictOf, EntryDoc;
    var m, m' := DictOf(f, r, s), DictOf(f', r, Landed(s, p, e));
    LandedAt(f', r, s, p, e);
    forall k ensures k in m' <==> k in m || k == e.id.key
    ensures k in m' && k != e.id.key ==> m'[k] == m[k] {
      if k != e.id.key { DictLandedAt(f, f', r, s, p, e, k); }
    }
  }

  lemma LandedAt(f: Forest, r: nat, s: seq<Entry>, p: Place, e: Entry)
    requires Deep(f) && KeysUnique(s) && KeyPlace(s, p, e) && Hangs(f, false, r, Landed(s, p, e))
    ensures LinkedTo(f, false, e) && r < e.kv
    ensures var m := DictOf(f, r, Landed(s, p, e)); e.id.key in m && m[e.id.key] == EntryDoc(f, false, r, e)
  {
    LandedUnique(s, p, e);
    DictByKey(f, r, Landed(s, p, e));
    assert Landed(s, p, e)[p.pos] == e;
  }

  lemma DictLandedAt(f: Forest, f': Forest, r: nat, s: seq<Entry>, p: Place, e: Entry, k: Key)
    requires Deep(f) && Deep(f') && Hangs(f, false, r, s) && KeysUnique(s) && KeyPlace(s, p, e)
    requires Hangs(f', false, r, Landed(s, p, e)) && k != e.id.key
    requires forall i :: 0 <= i < |s| && s[i].id.key == k ==>
               LinkedTo(f', false, s[i]) && EntryDoc(f', false, r, s[i]) == EntryDoc(f, false, r, s[i])
    ensures var m, m' := DictOf(f, r, s), DictOf(f', r, Landed(s, p, e));
            (k in m' <==> k in m) && (k in m ==> m'[k] == m[k])
  {
    hide Deep;
    var s' := Landed(s, p, e);
    LandedUnique(s, p, e);
    DictByKey(f, r, s);
    DictByKey(f', r, s');
    if k in DictOf(f', r, s') {
      var i :| 0 <= i < |s'| && s'[i].id.key == k;
      LandedMember(s, p, e, i);
    }
    if k in DictOf(f, r, s) {
      var i :| 0 <= i < |s| && s[i].id.key == k;
      LandedKeeps(s, p, e, i);
    }
  }

  lemma LandedKeeps(s: seq<Entry>, p: Place, e: Entry, i: nat)
    requires KeyPlace(s, p, e) && i < |s|
    ensures if s[i].id.key == e.id.key then Landed(s, p, e)[p.pos] == e
            else exists j :: 0 <= j < |Landed(s, p, e)| && Landed(s, p, e)[j] == s[i]
  {
    var s' := Landed(s, p, e);
    if s[i].id.key != e.id.key {
      var j := if p.found || i < p.pos then i else i + 1;
      assert s'[j] == s[i];
    }
  }

  /** What get_impl finds under a key is the document's member of that name. */
  lemma DictReads(f: Forest, r: nat, t: Tree, h: nat, k: Key)
    requires Deep(f) && TreeShape(t, h) && Sorted(InOrder(t)) && ObjectRun(InOrder(t)) && Hangs(f, false, r, InOrder(t))
    ensures var m := DictOf(f, r, InOrder(t));
            match Find(t, Id(Djb2(k), k))
            case Some(e) => e in InOrder(t) && k in m && r < e.kv && LinkedTo(f, false, e) && m[k] == EntryDoc(f,
                      false, r, e)
            case None => k !in m
  {
    var s, id := InOrder(t), Id(Djb2(k), k);
    SortedUnique(s);
    DictByKey(f, r, s);
    FindSorted(t, h, RootLeast(h), id);
    if k in DictOf(f, r, s) {
      var i :| 0 <= i < |s| && s[i].id.key == k;
      assert s[i].id == id;
      LookupUnique(s, i);
    }
  }
}
