/** The path syntax root[k1]...[kn]: proxies that find or make one object per key, and what an assignment does. */
module Proxies {
  import opened Wrappers
  import opened Bytes
  import opened Records
  import opened Layout
  import opened Hash
  import opened Order
  import opened Trees
  import opened Routes
  import opened Lookups
  import opened Steps
  import opened Paths
  import opened Turns
  import opened Refinement
  import opened Forests
  import opened Nestings
  import opened Generations
  import opened Buffers
  import opened Documents

  /** A value that is not looked up yet: its object and its key. The proxy of the root has no key. */
  datatype Proxy = Proxy(parent: nat, key: Key)

  // ----- paths in documents

  /** A document with the value at a path replaced; what is no object on the way is replaced by one. */
  function Put(d: Doc, ks: seq<Key>, v: Value): Doc
    requires ks != []
    decreases |ks|
  {
    var m := if d.Dict? then d.m else map[];
    Dict(m[ks[0] := if |ks| == 1 then Atom(v) else Put(Sub(m, ks[0]), ks[1..], v)])
  }

  function Sub(m: map<Key, Doc>, k: Key): Doc {
    if k in m && m[k].Dict? then m[k] else Dict(map[])
  }

  function Get(d: Doc, ks: seq<Key>): Option<Doc>
    decreases |ks|
  {
    if ks == [] then Some(d)
    else if d.Dict? && ks[0] in d.m then Get(d.m[ks[0]], ks[1..])
    else None
  }

  lemma {:induction false} GetPut(d: Doc, ks: seq<Key>, v: Value)
    requires ks != []
    ensures Get(Put(d, ks, v), ks) == Some(Atom(v))
    decreases |ks|
  {
    if |ks| > 1 {
      GetPut(Sub(if d.Dict? then d.m else map[], ks[0]), ks[1..], v);
    } else {
      assert ks[1..] == [];
    }
  }

  /** A path that parts from the assigned one reads as before. */
  lemma {:induction false} PutElsewhere(d: Doc, ks: seq<Key>, v: Value, qs: seq<Key>)
    requires ks != [] && !(ks <= qs) && !(qs <= ks)
    ensures Get(Put(d, ks, v), qs) == Get(d, qs)
    decreases |ks|
  {
    var m := if d.Dict? then d.m else map[];
    if qs[0] == ks[0] {
      Parting(ks, qs);
      var sub := Sub(m, ks[0]);
      PutElsewhere(sub, ks[1..], v, qs[1..]);
      if !(ks[0] in m && m[ks[0]].Dict?) {
        assert qs[1..] != [];
      }
    }
  }

  lemma Parting(ks: seq<Key>, qs: seq<Key>)
    requires ks != [] && qs != [] && ks[0] == qs[0] && !(ks <= qs) && !(qs <= ks)
    ensures !(ks[1..] <= qs[1..]) && !(qs[1..] <= ks[1..]) && qs[1..] != []
  {
    assert ks == [ks[0]] + ks[1..] && qs == [qs[0]] + qs[1..];
  }

  // ----- what an assignment changes

  /** Only the trees in c differ, and a tree in c other than r has its parent there too. */
  ghost predicate Changed(f: Forest, r: nat, c: set<nat>, f': Forest) {
    && r in c && (forall q :: q in c ==> r <= q)
    && (forall q :: q in f && q !in c ==> q in f' && f'[q] == f[q])
    && (forall q: nat, i: nat, n: nat :: Names(f, q, i, n) && n in c && n != r ==> q in c)
  }

  /** The object at r has got an entry e under its key, which names the object at n. */
  ghost predicate Stepped(f: Forest, r: nat, p: Place, e: Entry, n: nat, f1: Forest) {
    && r in f && r in f1 && n in f1 && !f[r].isArr && !f1[r].isArr && OnlyAt(f[n := f1[n]], r, f1)
    && KeyPlace(InOrder(f[r].tree), p, e) && InOrder(f1[r].tree) == Landed(InOrder(f[r].tree), p, e)
    && e.val.typ == Object && n == LinkOf(false, e)
  }

  /** Trees above r that an assignment below n leaves as they were. */
  ghost function Spared(f: Forest, r: nat, c: set<nat>): set<nat> {
    set q | q in f && q > r && q !in c
  }

  lemma SparedClosed(f: Forest, r: nat, p: Place, e: Entry, n: nat, f1: Forest, c: set<nat>, f2: Forest)
    requires Deep(f) && Stepped(f, r, p, e, n, f1) && OneParent(f1) && r < n && Changed(f1, n, c, f2)
    ensures Closed(f, Spared(f, r, c)) && Agree(f, f2, Spared(f, r, c))
  {
    var kept, s1 := Spared(f, r, c), InOrder(f1[r].tree);
    assert s1[p.pos] == e && Names(f1, r, p.pos, n);
    forall q, i | q in kept && 0 <= i < |InOrder(f[q].tree)|
      ensures LinksInto(f[q].isArr, InOrder(f[q].tree)[i], kept)
    {
      var x := InOrder(f[q].tree)[i];
      assert LinkedTo(f, f[q].isArr, x) && q < x.kv;
      if Nests(x.val) {
        assert Names(f1, q, i, LinkOf(f[q].isArr, x));
      }
    }
  }

  /** The other members of the object lead to spared trees. */
  lemma SparedOthers(f: Forest, r: nat, p: Place, e: Entry, n: nat, f1: Forest, c: set<nat>, f2: Forest, i: nat)
    requires Deep(f) && Stepped(f, r, p, e, n, f1) && OneParent(f1) && r < n && Changed(f1, n, c, f2)
    requires i < |InOrder(f[r].tree)| && InOrder(f[r].tree)[i].id.key != e.id.key
    ensures LinksInto(false, InOrder(f[r].tree)[i], Spared(f, r, c))
  {
    var s, s1 := InOrder(f[r].tree), InOrder(f1[r].tree);
    var x := s[i];
    assert s1[p.pos] == e && Names(f1, r, p.pos, n);
    assert LinkedTo(f, f[r].isArr, x) && r < x.kv;
    if Nests(x.val) {
      LandedKeeps(s, p, e, i);
      var j :| 0 <= j < |s1| && s1[j] == x;
      assert Names(f1, r, j, LinkOf(false, x));
    }
  }

  lemma ChangedUp(f: Forest, r: nat, p: Place, e: Entry, n: nat, f1: Forest, c: set<nat>, f2: Forest)
    requires Stepped(f, r, p, e, n, f1) && OneParent(f1) && r < n && Changed(f1, n, c, f2)
    ensures Changed(f, r, c + {r}, f2)
  {
    assert InOrder(f1[r].tree)[p.pos] == e && Names(f1, r, p.pos, n);
    forall q: nat, i: nat, m: nat | Names(f, q, i, m) && m in c + {r} && m != r ensures q in c + {r} {
      if q != r && q != n { assert Names(f1, q, i, m); }
    }
  }

  /** One step of the path with all that comes after it, in the document of the object at r. */
  lemma SteppedDoc(f: Forest, r: nat, p: Place, e: Entry, n: nat, f1: Forest, c: set<nat>, f2: Forest)
    requires Deep(f) && Deep(f2) && Stepped(f, r, p, e, n, f1) && OneParent(f1) && r < n && Changed(f1, n, c, f2)
    requires KeysUnique(InOrder(f[r].tree)) && n in f2
    ensures r in f2 && f2[r] == f1[r]
    ensures DictOf(f2, r, InOrder(f2[r].tree)) == DictOf(f, r, InOrder(f[r].tree))[e.id.key := DocAt(f2, n)]
  {
    hide Changed, OneParent, Stepped, Deep, KeyPlace, Landed, Closed, Agree, OnlyAt, DictOf;
    ChangedRoot(f, r, p, e, n, f1, c, f2);
    var s, kept := InOrder(f[r].tree), Spared(f, r, c);
    HangsAt(f, r);
    HangsAt(f2, r);
    SparedClosed(f, r, p, e, n, f1, c, f2);
    forall i | 0 <= i < |s| && s[i].id.key != e.id.key
      ensures LinkedTo(f2, false, s[i]) && EntryDoc(f2, false, r, s[i]) == EntryDoc(f, false, r, s[i])
    {
      SparedOthers(f, r, p, e, n, f1, c, f2, i);
      EntryFrame(f, f2, kept, false, r, s[i]);
    }
    DictLanded(f, f2, r, s, p, e);
  }

  lemma ChangedRoot(f: Forest, r: nat, p: Place, e: Entry, n: nat, f1: Forest, c: set<nat>, f2: Forest)
    requires Stepped(f, r, p, e, n, f1) && r < n && Changed(f1, n, c, f2)
    ensures r in f && r in f2 && f2[r] == f1[r] && !f[r].isArr && !f1[r].isArr
    ensures KeyPlace(InOrder(f[r].tree), p, e) && InOrder(f1[r].tree) == Landed(InOrder(f[r].tree), p, e)
    ensures e.val.typ == Object && n == LinkOf(false, e)
  {
  }

  // ----- which paths can be assigned and read

  ghost predicate Keyed(ks: seq<Key>) {
    ks != [] && forall i :: 0 <= i < |ks| ==> 0 < |ks[i]| <= KEY_MAX
  }

  /** An object whose lookups are sound. */
  ghost predicate Sound(f: Forest, r: nat) {
    r in f && !f[r].isArr && Sorted(InOrder(f[r].tree))
  }

  ghost predicate Takes(t: Tree, k: Key) {
    PathRoom(t, IdOf(k)) && !Misroutes(t, IdOf(k))
  }

  /** The member is an object, or one can be put there: no bad median, and a place for its root. */
  ghost predicate Enterable(w: World, r: nat, k: Key)
    requires r in w.forest
  {
    match Find(w.forest[r].tree, IdOf(k))
    case Some(e) => e.val.typ == Object || (Takes(w.forest[r].tree, k) && HasPlace(w, r, IdOf(k)))
    case None => Takes(w.forest[r].tree, k) && HasPlace(w, r, IdOf(k))
  }

  ghost predicate Assignable(w: World, r: nat, ks: seq<Key>)
    requires ks != []
    decreases |ks|
  {
    && Sound(w.forest, r)
    && if |ks| == 1 then Takes(w.forest[r].tree, ks[0])
       else
         && Enterable(w, r, ks[0])
         && match Find(w.forest[r].tree, IdOf(ks[0]))
            case Some(e) => e.val.typ == Object ==> Assignable(w, LinkOf(false, e), ks[1..])
            case None => true
  }

  /** All objects on the path are there. */
  ghost predicate Known(f: Forest, r: nat, ks: seq<Key>)
    requires ks != []
    decreases |ks|
  {
    && Sound(f, r)
    && (|ks| > 1 ==>
         match Find(f[r].tree, IdOf(ks[0]))
         case Some(e) => e.val.typ == Object && Known(f, LinkOf(false, e), ks[1..])
         case None => false)
  }

  /** The paths part: neither leads on from the other. */
  predicate Parts(ks: seq<Key>, qs: seq<Key>) {
    !(ks <= qs) && !(qs <= ks)
  }

  /** What can be read along a path that parts from ks still can. */
  ghost predicate KnownKept(f: Forest, r: nat, ks: seq<Key>, f': Forest) {
    forall qs: seq<Key> :: qs != [] && Parts(ks, qs) && Known(f, r, qs) ==> Known(f', r, qs)
  }

  /** Other keys of the object at r lead where they led. */
  ghost predicate KeepsFinds(f: Forest, r: nat, k: Key, f': Forest) {
    && r in f && r in f'
    && forall j: Key :: j != k ==> Find(f'[r].tree, IdOf(j)) == Find(f[r].tree, IdOf(j))
  }

  ghost predicate AllShaped(f: Forest) {
    forall r :: r in f ==> TreeShape(f[r].tree, f[r].height)
  }

  ghost predicate Untouched(w: World, b: Buffer)
    reads b
  {
    b.Here() == w
  }

  // ----- paths that stay known

  lemma PlantedShaped(nodes: NodeMap, recs: RecMap, f: Forest)
    requires Planted(nodes, recs, f)
    ensures AllShaped(f)
  {
    hide TreeShape;
    forall r | r in f ensures TreeShape(f[r].tree, f[r].height) { RootFacts(nodes, recs, f, r); }
  }

  lemma AnswersKeep(f: Forest, r: nat, k: Key, v: Value, e: Entry, f': Forest)
    requires Sound(f, r) && r in f' && SetLands(f[r].tree, IdOf(k), v, e, f'[r].tree)
    ensures KeepsFinds(f, r, k, f')
  {
    SortedOrdered(InOrder(f[r].tree));
    hide Ordered, Sorted;
  }

  lemma KeepsItself(f: Forest, r: nat, k: Key)
    requires r in f
    ensures KeepsFinds(f, r, k, f)
  {
  }

  /** The entry that a lookup finds is one of the object's. */
  lemma FoundAt(f: Forest, r: nat, k: Key) returns (i: nat)
    requires AllShaped(f) && r in f && Find(f[r].tree, IdOf(k)).Some?
    ensures i < |InOrder(f[r].tree)| && InOrder(f[r].tree)[i] == Find(f[r].tree, IdOf(k)).value
    ensures Find(f[r].tree, IdOf(k)).value.id == IdOf(k)
  {
    var t, h := f[r].tree, f[r].height;
    FoundMember(t, h, RootLeast(h), IdOf(k));
    i :| 0 <= i < |InOrder(t)| && InOrder(t)[i] == Find(t, IdOf(k)).value;
  }

  lemma {:induction false} KnownFrame(f: Forest, f': Forest, kept: set<nat>, r: nat, qs: seq<Key>)
    requires AllShaped(f) && Closed(f, kept) && Agree(f, f', kept) && r in kept && qs != [] && Known(f, r, qs)
    ensures Known(f', r, qs)
    decreases |qs|
  {
    hide AllShaped, Find, Sorted, TreeShape;
    if |qs| > 1 {
      var i := FoundAt(f, r, qs[0]);
      assert LinksInto(f[r].isArr, InOrder(f[r].tree)[i], kept);
      KnownFrame(f, f', kept, LinkOf(false, InOrder(f[r].tree)[i]), qs[1..]);
    }
  }

  /** A path that leaves the object at r by another key. */
  lemma KnownBeside(f: Forest, f': Forest, kept: set<nat>, r: nat, k: Key, qs: seq<Key>)
    requires AllShaped(f) && Closed(f, kept) && Agree(f, f', kept) && KeepsFinds(f, r, k, f') && Sound(f', r)
    requires qs != [] && qs[0] != k && Known(f, r, qs)
    requires forall i :: 0 <= i < |InOrder(f[r].tree)| && InOrder(f[r].tree)[i].id.key != k ==>
               LinksInto(false, InOrder(f[r].tree)[i], kept)
    ensures Known(f', r, qs)
  {
    hide AllShaped, Find, Sorted, TreeShape, Closed, Agree;
    if |qs| > 1 {
      var i := FoundAt(f, r, qs[0]);
      KnownFrame(f, f', kept, LinkOf(false, InOrder(f[r].tree)[i]), qs[1..]);
    }
  }

  lemma KeptHere(f: Forest, q: Proxy, f1: Forest)
    requires Deep(f) && AllShaped(f) && OnlyAt(f, q.parent, f1) && Sound(f, q.parent) && Sound(f1, q.parent)
    requires KeepsFinds(f, q.parent, q.key, f1)
    ensures KnownKept(f, q.parent, [q.key], f1)
  {
    hide AllShaped, Find, Sorted, TreeShape, Known;
    var r := q.parent;
    var kept := set n | n in f && n > r;
    AboveClosed(f, r);
    forall qs: seq<Key> | qs != [] && Parts([q.key], qs) && Known(f, r, qs) ensures Known(f1, r, qs) {
      assert qs[0] != q.key;
      forall i | 0 <= i < |InOrder(f[r].tree)| ensures LinksInto(false, InOrder(f[r].tree)[i], kept) {
        assert LinkedTo(f, false, InOrder(f[r].tree)[i]);
      }
      KnownBeside(f, f1, kept, r, q.key, qs);
    }
  }

  lemma KeptUp(f: Forest, q: Proxy, p: Place, e: Entry, n: nat, f1: Forest, c: set<nat>, f2: Forest, ks: seq<Key>)
    requires Deep(f) && AllShaped(f) && ks != [] && Stepped(f, q.parent, p, e, n, f1) && OneParent(f1) && q.parent < n
    requires Changed(f1, n, c, f2) && Sound(f1, q.parent) && Find(f1[q.parent].tree, IdOf(q.key)) == Some(e)
    requires e.id == IdOf(q.key) && KeepsFinds(f, q.parent, q.key, f1) && KnownKept(f1, n, ks, f2)
    requires var found := Find(f[q.parent].tree, IdOf(q.key));
             found.Some? && found.value.val.typ == Object ==> f1 == f && found == Some(e)
    ensures KnownKept(f, q.parent, [q.key] + ks, f2)
  {
    hide Deep, AllShaped, Stepped, OneParent, Changed, Find, Sorted, Closed, Agree;
    var r, full := q.parent, [q.key] + ks;
    assert full[0] == q.key && full[1..] == ks;
    ChangedRoot(f, r, p, e, n, f1, c, f2);
    SparedClosed(f, r, p, e, n, f1, c, f2);
    forall qs: seq<Key> | qs != [] && Parts(full, qs) && Known(f, r, qs) ensures Known(f2, r, qs) {
      if qs[0] == q.key {
        Parting(full, qs);
        assert Known(f1, n, qs[1..]);
      } else {
        forall i | 0 <= i < |InOrder(f[r].tree)| && InOrder(f[r].tree)[i].id.key != q.key
          ensures LinksInto(false, InOrder(f[r].tree)[i], Spared(f, r, c)) {
          SparedOthers(f, r, p, e, n, f1, c, f2, i);
        }
        KnownBeside(f, f2, Spared(f, r, c), r, q.key, qs);
      }
    }
  }

  // ----- one step

  lemma ExactKeyPlace(s: seq<Entry>, k: Key, p: Place, e: Entry)
    requires ObjectRun(s) && Exact(s, IdOf(k), p) && e.id == IdOf(k)
    ensures KeyPlace(s, p, e)
  {
    CompareOrder(IdOf(k), IdOf(k), IdOf(k));
    forall i | 0 <= i < |s| ensures s[i].id.key == k <==> p.found && i == p.pos {
      if s[i].id.key == k { assert s[i].id == IdOf(k); }
    }
  }

  /** What a tree of the forest is known to be. */
  lemma SoundFacts(nodes: NodeMap, recs: RecMap, f: Forest, r: nat)
    requires Planted(nodes, recs, f) && Linked(f) && Sound(f, r)
    ensures Deep(f) && TreeShape(f[r].tree, f[r].height) && ObjectRun(InOrder(f[r].tree))
            && KeysUnique(InOrder(f[r].tree))
    ensures Hangs(f, false, r, InOrder(f[r].tree))
  {
    PlantedDeep(nodes, recs, f);
    RootFacts(nodes, recs, f, r);
    HangsAt(f, r);
    assert ObjectRun(InOrder(f[r].tree));
    SortedUnique(InOrder(f[r].tree));
  }

  /** A set under a key that is taken lands at the place of that key. */
  lemma TakenPlace(t: Tree, h: nat, k: Key, v: Value, e: Entry, t': Tree, h': nat)
    requires TreeShape(t, h) && TreeShape(t', h') && Sorted(InOrder(t)) && ObjectRun(InOrder(t))
             && !Misroutes(t, IdOf(k))
    requires SetMeans(t, IdOf(k), v, t') && SetLands(t, IdOf(k), v, e, t')
    ensures var p := Route(t, IdOf(k)); KeyPlace(InOrder(t), p, e) && InOrder(t') == Landed(InOrder(t), p, e)
    ensures e.id == IdOf(k) && e.val == v && Sorted(InOrder(t')) && Find(t', IdOf(k)) == Some(e)
  {
    hide SetMeans, Sorted, Ordered, Misroutes, ReadsUpdated, ReadsSame, Answers, ObjectRun, Shape, Find;
    var p := Route(t, IdOf(k));
    SetRefines(t, IdOf(k), v, t');
    SortedOrdered(InOrder(t));
    SortedOrdered(InOrder(t'));
    RouteVerdict(t, h, RootLeast(h), IdOf(k));
    ExactKeyPlace(InOrder(t), k, p, e);
    assert InOrder(t')[p.pos] == e;
    LookupUnique(InOrder(t'), p.pos);
    FindSorted(t', h', RootLeast(h'), IdOf(k));
  }

  lemma ChildThere(nodes: NodeMap, recs: RecMap, f: Forest, r: nat, k: Key, e: Entry) returns (p: Place)
    requires Planted(nodes, recs, f) && Linked(f) && Sound(f, r)
    requires Find(f[r].tree, IdOf(k)) == Some(e) && e.val.typ == Object && LinkOf(false, e) in f
             && !f[LinkOf(false, e)].isArr
    ensures Deep(f) && r < LinkOf(false, e) && e.id == IdOf(k) && Stepped(f, r, p, e, LinkOf(false, e), f)
    ensures DocAt(f, LinkOf(false, e)) == Sub(DocAt(f, r).m, k)
  {
    SoundFacts(nodes, recs, f, r);
    hide Planted, Linked, ObjectRun, Sorted, Deep, TreeShape, Anchored, Rooted, Forests.After;
    var t, h := f[r].tree, f[r].height;
    FoundMember(t, h, RootLeast(h), IdOf(k));
    p := PlaceOf(InOrder(t), e);
    DictReads(f, r, t, h, k);
  }

  lemma PlaceOf(s: seq<Entry>, e: Entry) returns (p: Place)
    requires KeysUnique(s) && e in s
    ensures KeyPlace(s, p, e) && Landed(s, p, e) == s
  {
    var i :| 0 <= i < |s| && s[i] == e;
    p := Place(true, i);
  }

  lemma ChildMade(nodes: NodeMap, recs: RecMap, f: Forest, nodes': NodeMap, recs': RecMap, f1: Forest,
                  r: nat, k: Key, e: Entry, n: nat)
    requires Planted(nodes, recs, f) && Linked(f) && Planted(nodes', recs', f1) && Linked(f1)
    requires Sound(f, r) && !Misroutes(f[r].tree, IdOf(k))
    requires Find(f[r].tree, IdOf(k)).Some? ==> Find(f[r].tree, IdOf(k)).value.val.typ != Object
    requires r in f1 && !f1[r].isArr && n in f1 && f1[n] == EmptyRoot(n, false) && n == LinkOf(false, e)
    requires OnlyAt(f[n := EmptyRoot(n, false)], r, f1)
    requires SetMeans(f[r].tree, IdOf(k), Nested(false), f1[r].tree)
    requires SetLands(f[r].tree, IdOf(k), Nested(false), e, f1[r].tree)
    ensures Deep(f) && Deep(f1) && r < n && e.id == IdOf(k) && Stepped(f, r, Route(f[r].tree, IdOf(k)), e, n, f1)
    ensures Sound(f1, r) && Find(f1[r].tree, IdOf(k)) == Some(e)
    ensures DocAt(f1, n) == Sub(DocAt(f, r).m, k)
  {
    SoundFacts(nodes, recs, f, r);
    RootFacts(nodes', recs', f1, r);
    PlantedDeep(nodes', recs', f1);
    hide Planted, Linked, ObjectRun, Sorted, Deep, SetMeans, SetLands, Misroutes, DocAt, Find, Route, Hangs, Sub,
         Anchored, Rooted, OnlyAt, TreeShape, KeysUnique, Forests.After;
    var t, t' := f[r].tree, f1[r].tree;
    TakenPlace(t, f[r].height, k, Nested(false), e, t', f1[r].height);
    HangsAt(f1, r);
    LandedHangs(f1, r, InOrder(t), Route(t, IdOf(k)), e);
    NoSub(f, r, f[r].height, k);
    EmptyDoc(f1, n);
  }

  lemma LandedHangs(f: Forest, r: nat, s: seq<Entry>, p: Place, e: Entry)
    requires KeyPlace(s, p, e) && Hangs(f, false, r, Landed(s, p, e))
    ensures r < e.kv && r < LinkOf(false, e)
  {
    assert Landed(s, p, e)[p.pos] == e;
  }

  lemma EmptyDoc(f: Forest, n: nat)
    requires Deep(f) && n in f && f[n] == EmptyRoot(n, false)
    ensures DocAt(f, n) == Dict(map[])
  {
    assert InOrder(f[n].tree) == [];
  }

  lemma NoSub(f: Forest, r: nat, h: nat, k: Key)
    requires Deep(f) && Sound(f, r) && TreeShape(f[r].tree, h) && ObjectRun(InOrder(f[r].tree))
    requires Hangs(f, false, r, InOrder(f[r].tree))
    requires Find(f[r].tree, IdOf(k)).Some? ==> Find(f[r].tree, IdOf(k)).value.val.typ != Object
    ensures Sub(DocAt(f, r).m, k) == Dict(map[])
  {
    DictReads(f, r, f[r].tree, h, k);
  }

  /** One key down: get_obj, and set_obj where that throws. */
  method Child(b: Buffer, r: nat, k: Key) returns (n: nat, ghost e: Entry, ghost p: Place)
    requires b.Coherent() && Sound(b.forest, r) && 0 < |k| <= KEY_MAX && Enterable(b.Here(), r, k)
    requires b.used + SET_MARGIN <= U32_LIMIT
    modifies b
    ensures b.Coherent() && OneParent(b.forest) && Deep(old(b.forest)) && Deep(b.forest)
    ensures Stepped(old(b.forest), r, p, e, n, b.forest) && r < n && e.id == IdOf(k)
    ensures Sound(b.forest, r) && Find(b.forest[r].tree, IdOf(k)) == Some(e)
    ensures DocAt(b.forest, n) == Sub(DocAt(old(b.forest), r).m, k) && KeepsFinds(old(b.forest), r, k, b.forest)
    ensures var found := old(Find(b.forest[r].tree, IdOf(k)));
            if found.Some? && found.value.val.typ == Object
            then Untouched(old(b.Here()), b) && found == Some(e)
            else b.forest[n] == EmptyRoot(n, false)
    ensures old(b.used) <= b.used <= old(b.used) + SET_MARGIN
  {
    hide Holding, Image, Planted, Linked, Anchored, Dated, Deep, SetMeans, SetLands, Misroutes, Stepped, DocAt,
         InPlace, OneParent, Route;
    ghost var f, nodes, recs := b.forest, b.nodes, b.recs;
    var hash := Djb2Hash(k);
    var got := b.GetNested(r, Id(hash, k), false, false);
    if got.Ok? {
      n := got.value;
      e := Find(f[r].tree, IdOf(k)).value;
      p := ChildThere(nodes, recs, f, r, k, e);
      KeepsItself(f, r, k);
    } else {
      RootFacts(nodes, recs, f, r);
      n, e := b.SetNested(r, k, false);
      p := Route(f[r].tree, IdOf(k));
      ChildMade(nodes, recs, f, b.nodes, b.recs, b.forest, r, k, e, n);
      AnswersKeep(f, r, k, Nested(false), e, b.forest);
    }
    PlantedOneParent(b.data, b.used, b.nodes, b.recs, b.spare, b.forest);
  }

  // ----- proxies

  /** operator[] with a key: it resolves the proxy it is called on, not the new one. */
  method At(b: Buffer, v: Proxy, key: Key) returns (q: Proxy, ghost e: Entry, ghost p: Place)
    requires b.Coherent() && b.used + SET_MARGIN <= U32_LIMIT
    requires v.key != [] ==> Sound(b.forest, v.parent) && |v.key| <= KEY_MAX && Enterable(b.Here(), v.parent, v.key)
    modifies b
    ensures b.Coherent() && q.key == key
    ensures v.key == [] ==> q.parent == 0 && Untouched(old(b.Here()), b)
    ensures v.key != [] ==>
      && OneParent(b.forest) && Deep(old(b.forest)) && Deep(b.forest)
      && Stepped(old(b.forest), v.parent, p, e, q.parent, b.forest) && v.parent < q.parent && e.id == IdOf(v.key)
      && Sound(b.forest, v.parent) && Find(b.forest[v.parent].tree, IdOf(v.key)) == Some(e)
      && DocAt(b.forest, q.parent) == Sub(DocAt(old(b.forest), v.parent).m, v.key)
      && KeepsFinds(old(b.forest), v.parent, v.key, b.forest)
      && var found := old(Find(b.forest[v.parent].tree, IdOf(v.key)));
         if found.Some? && found.value.val.typ == Object
         then Untouched(old(b.Here()), b) && found == Some(e)
         else b.forest[q.parent] == EmptyRoot(q.parent, false)
    ensures old(b.used) <= b.used <= old(b.used) + SET_MARGIN
  {
    hide Holding, Image, Planted, Linked, Anchored, Dated, Deep, Stepped, DocAt, OneParent, Sound, Enterable, Find,
         Sub;
    var current := 0;
    e, p := Entry(Id(0, []), Value(Null, []), 0), Place(false, 0);
    if v.key != [] {
      current, e, p := Child(b, v.parent, v.key);
    }
    q := Proxy(current, key);
  }

  /** operator= with a value. */
  method Store(b: Buffer, q: Proxy, v: Value)
    requires b.Coherent() && q.key != [] && Sound(b.forest, q.parent) && |q.key| <= KEY_MAX
    requires Takes(b.forest[q.parent].tree, q.key) && ValidValue(v) && !Nests(v) && b.used + SET_MARGIN <= U32_LIMIT
    modifies b
    ensures b.Coherent() && Deep(old(b.forest)) && Deep(b.forest) && Sound(b.forest, q.parent)
    ensures Changed(old(b.forest), q.parent, {q.parent}, b.forest)
    ensures OnlyAt(old(b.forest), q.parent, b.forest) && KeepsFinds(old(b.forest), q.parent, q.key, b.forest)
    ensures DocAt(b.forest, q.parent) == Dict(DocAt(old(b.forest), q.parent).m[q.key := Atom(v)])
  {
    hide Holding, Image, Planted, Linked, Anchored, Dated, Deep, SetMeans, SetLands, Misroutes, DocAt, Changed,
         Sorted;
    ghost var f, nodes, recs := b.forest, b.nodes, b.recs;
    ghost var e := b.SetScalar(q.parent, q.key, v);
    StoredDoc(nodes, recs, f, b.nodes, b.recs, b.forest, q.parent, q.key, v, e);
    AnswersKeep(f, q.parent, q.key, v, e, b.forest);
  }

  lemma StoredDoc(nodes: NodeMap, recs: RecMap, f: Forest, nodes': NodeMap, recs': RecMap, f1: Forest,
                  r: nat, k: Key, v: Value, e: Entry)
    requires Planted(nodes, recs, f) && Linked(f) && Planted(nodes', recs', f1) && Linked(f1)
    requires Sound(f, r) && !Misroutes(f[r].tree, IdOf(k)) && !Nests(v)
    requires OnlyAt(f, r, f1) && r in f1 && !f1[r].isArr
    requires SetMeans(f[r].tree, IdOf(k), v, f1[r].tree) && SetLands(f[r].tree, IdOf(k), v, e, f1[r].tree)
    ensures Deep(f) && Deep(f1) && Sound(f1, r) && Changed(f, r, {r}, f1)
    ensures DocAt(f1, r) == Dict(DocAt(f, r).m[k := Atom(v)])
  {
    SoundFacts(nodes, recs, f, r);
    RootFacts(nodes', recs', f1, r);
    PlantedDeep(nodes', recs', f1);
    hide Planted, Linked, ObjectRun, Sorted, Deep, SetMeans, SetLands, Misroutes, Find, Route, Hangs, Sub, Rooted,
         OnlyAt, TreeShape, KeysUnique, KeyPlace, Landed, DictOf;
    var s, p := InOrder(f[r].tree), Route(f[r].tree, IdOf(k));
    TakenPlace(f[r].tree, f[r].height, k, v, e, f1[r].tree, f1[r].height);
    HangsAt(f1, r);
    AboveFrame(f, f1, r, false, s);
    KeyInside(s, p, e);
    DictLanded(f, f1, r, s, p, e);
    ChangedHere(f, r, f1);
  }

  lemma KeyInside(s: seq<Entry>, p: Place, e: Entry)
    requires KeyPlace(s, p, e)
    ensures p.pos <= |s| && (p.found ==> p.pos < |s|)
  {
  }

  lemma ChangedHere(f: Forest, r: nat, f1: Forest)
    requires OnlyAt(f, r, f1)
    ensures Changed(f, r, {r}, f1)
  {
  }

  /** proxy[k2]...[kn] = v, for a proxy that stands for [k1]; ks are the keys from k2 on. */
  method AssignFrom(b: Buffer, q: Proxy, ks: seq<Key>, v: Value) returns (ghost c: set<nat>)
    requires b.Coherent() && Keyed([q.key] + ks) && Assignable(b.Here(), q.parent, [q.key] + ks)
    requires ValidValue(v) && !Nests(v) && b.used + SET_MARGIN * (|ks| + 1) <= U32_LIMIT
    modifies b
    ensures b.Coherent() && Deep(old(b.forest)) && Deep(b.forest) && q.parent in b.forest
    ensures DocAt(b.forest, q.parent) == Put(DocAt(old(b.forest), q.parent), [q.key] + ks, v)
    ensures Changed(old(b.forest), q.parent, c, b.forest)
    ensures Known(b.forest, q.parent, [q.key] + ks) && KnownKept(old(b.forest), q.parent, [q.key] + ks, b.forest)
    decreases |ks|
  {
    hide Holding, Image, Planted, Linked, Anchored, Dated, Deep, DocAt, Changed, Stepped, OneParent, Known,
         Assignable, Find, KeepsFinds, AllShaped, OnlyAt, KnownKept;
    PlantedShaped(b.nodes, b.recs, b.forest);
    ghost var f, w := b.forest, b.Here();
    AssignableHere(w, q, ks);
    SoundFacts(b.nodes, b.recs, f, q.parent);
    if ks == [] {
      Store(b, q, v);
      c := {q.parent};
      AssignedHere(f, q, b.forest, v);
      KeptHere(f, q, b.forest);
      assert [q.key] + ks == [q.key];
      return;
    }
    var next, e, p := At(b, q, ks[0]);
    ghost var f1 := b.forest;
    SteppedFacts(f, q.parent, p, e, next.parent, f1);
    AssignableNext(w, q, ks, e, next.parent, b.Here());
    c := AssignFrom(b, next, ks[1..], v);
    AssignedUp(f, q, p, e, next, f1, c, b.forest, ks, v);
    assert [ks[0]] + ks[1..] == ks;
    KeptUp(f, q, p, e, next.parent, f1, c, b.forest, ks);
    c := c + {q.parent};
  }

  lemma AssignableHere(w: World, q: Proxy, ks: seq<Key>)
    requires Keyed([q.key] + ks) && Assignable(w, q.parent, [q.key] + ks)
    ensures Sound(w.forest, q.parent) && 0 < |q.key| <= KEY_MAX
    ensures if ks == [] then Takes(w.forest[q.parent].tree, q.key) else Enterable(w, q.parent, q.key)
    ensures ks != [] ==> Keyed([ks[0]] + ks[1..])
  {
    var full := [q.key] + ks;
    assert full[0] == q.key && full[1..] == ks;
    assert forall i :: 0 <= i < |ks| ==> ks[i] == full[i + 1];
    if ks != [] { assert [ks[0]] + ks[1..] == ks; }
  }

  lemma SteppedFacts(f: Forest, r: nat, p: Place, e: Entry, n: nat, f1: Forest)
    requires Stepped(f, r, p, e, n, f1)
    ensures r in f && n == LinkOf(false, e) && n in f1
  {
  }

  lemma AssignedHere(f: Forest, q: Proxy, f1: Forest, v: Value)
    requires Deep(f) && Deep(f1) && q.parent in f && !f[q.parent].isArr && Sound(f1, q.parent)
    requires DocAt(f1, q.parent) == Dict(DocAt(f, q.parent).m[q.key := Atom(v)])
    ensures DocAt(f1, q.parent) == Put(DocAt(f, q.parent), [q.key], v) && Known(f1, q.parent, [q.key])
  {
  }

  lemma AssignableNext(w: World, q: Proxy, ks: seq<Key>, e: Entry, n: nat, w1: World)
    requires ks != [] && Assignable(w, q.parent, [q.key] + ks) && q.parent in w.forest
    requires n == LinkOf(false, e) && n in w1.forest
    requires var found := Find(w.forest[q.parent].tree, IdOf(q.key));
             if found.Some? && found.value.val.typ == Object then w1 == w && found == Some(e)
             else w1.forest[n] == EmptyRoot(n, false)
    ensures Assignable(w1, n, [ks[0]] + ks[1..])
  {
    var full := [q.key] + ks;
    assert full[0] == q.key && full[1..] == ks && [ks[0]] + ks[1..] == ks;
    var found := Find(w.forest[q.parent].tree, IdOf(q.key));
    if !(found.Some? && found.value.val.typ == Object) { EmptyTakes(w1, n, ks[0]); }
  }

  lemma EmptyTakes(w: World, n: nat, k: Key)
    requires n in w.forest && w.forest[n] == EmptyRoot(n, false)
    ensures Sound(w.forest, n) && Takes(w.forest[n].tree, k) && Enterable(w, n, k)
    ensures Find(w.forest[n].tree, IdOf(k)) == None
  {
    EmptyRun(n);
    assert PushesIn([], [], IdOf(k)) == 0;
  }

  /** What an assignment below n means for the object at r that names n. */
  lemma AssignedUp(f: Forest, q: Proxy, p: Place, e: Entry, next: Proxy, f1: Forest,
                   c: set<nat>, f2: Forest, ks: seq<Key>, v: Value)
    requires Deep(f) && Deep(f1) && Deep(f2) && ks != [] && next.key == ks[0]
    requires Stepped(f, q.parent, p, e, next.parent, f1) && OneParent(f1) && q.parent < next.parent
    requires KeysUnique(InOrder(f[q.parent].tree))
    requires Sound(f1, q.parent) && Find(f1[q.parent].tree, IdOf(q.key)) == Some(e) && e.id == IdOf(q.key)
    requires DocAt(f1, next.parent) == Sub(DocAt(f, q.parent).m, q.key)
    requires Changed(f1, next.parent, c, f2) && next.parent in f2
    requires DocAt(f2, next.parent) == Put(DocAt(f1, next.parent), [next.key] + ks[1..], v)
    requires Known(f2, next.parent, [next.key] + ks[1..])
    ensures q.parent in f2 && DocAt(f2, q.parent) == Put(DocAt(f, q.parent), [q.key] + ks, v)
    ensures Changed(f, q.parent, c + {q.parent}, f2) && Known(f2, q.parent, [q.key] + ks)
  {
    hide Deep, Changed, OneParent, Stepped, Find, Sub, DictOf;
    var r, full := q.parent, [q.key] + ks;
    assert full[0] == q.key && full[1..] == ks && [ks[0]] + ks[1..] == ks;
    SteppedDoc(f, r, p, e, next.parent, f1, c, f2);
    ChangedUp(f, r, p, e, next.parent, f1, c, f2);
    ChangedRoot(f, r, p, e, next.parent, f1, c, f2);
  }

  // ----- whole paths

  predicate Readable(typ: Type) {
    typ != Null && typ != Object && typ != Array
  }

  /** false, 0, 0.0, "" and no bytes. */
  function Default(typ: Type): seq<Byte> {
    match typ
    case Bool => [0]
    case Int64 => [0, 0, 0, 0, 0, 0, 0, 0]
    case Float64 => [0, 0, 0, 0, 0, 0, 0, 0]
    case _ => []
  }

  /** What a conversion of the proxy at the end of a path gives; where there is no such value its default. */
  ghost function Converted(d: Doc, ks: seq<Key>, typ: Type): seq<Byte> {
    match Get(d, ks)
    case Some(x) => if x.Atom? && x.v.typ == typ then x.v.payload else Default(typ)
    case None => Default(typ)
  }

  /** The conversion operators. */
  method Convert(b: Buffer, q: Proxy, typ: Type) returns (r: seq<Byte>)
    requires b.Coherent() && Sound(b.forest, q.parent) && Readable(typ)
    ensures Deep(b.forest) && r == Converted(DocAt(b.forest, q.parent), [q.key], typ)
  {
    hide Holding, Image, Planted, Linked, Anchored, Dated, Deep, DocAt, Find;
    SoundFacts(b.nodes, b.recs, b.forest, q.parent);
    ReadHere(b.forest, q.parent, b.forest[q.parent].height, q.key, typ);
    var hash := Djb2Hash(q.key);
    var got := b.GetTyped(q.parent, Id(hash, q.key), false, typ);
    r := if got.Ok? then got.value else Default(typ);
  }

  lemma ReadHere(f: Forest, r: nat, h: nat, k: Key, typ: Type)
    requires Deep(f) && Sound(f, r) && TreeShape(f[r].tree, h) && ObjectRun(InOrder(f[r].tree)) && Readable(typ)
    ensures Converted(DocAt(f, r), [k], typ)
         == match Read(f[r].tree, IdOf(k))
            case Some(v) => (if v.typ == typ then v.payload else Default(typ))
            case None => Default(typ)
  {
    HangsAt(f, r);
    DictReads(f, r, f[r].tree, h, k);
    var m := DocAt(f, r).m;
    assert Get(DocAt(f, r), [k]) == if k in m then Some(m[k]) else None by {
      assert [k][1..] == [];
    }
  }

  /** A conversion at the end of a path of objects that are there: it reads the document and changes nothing. */
  method ConvertFrom(b: Buffer, q: Proxy, ks: seq<Key>, typ: Type) returns (r: seq<Byte>)
    requires b.Coherent() && Keyed([q.key] + ks) && Known(b.forest, q.parent, [q.key] + ks) && Readable(typ)
    requires b.used + SET_MARGIN <= U32_LIMIT
    modifies b
    ensures b.Coherent() && Untouched(old(b.Here()), b)
    ensures Deep(b.forest) && q.parent in b.forest
    ensures r == Converted(DocAt(b.forest, q.parent), [q.key] + ks, typ)
    decreases |ks|
  {
    hide Holding, Image, Planted, Linked, Anchored, Dated, Deep, DocAt, Stepped, OneParent, Known, Find, Converted,
         Sub;
    ghost var f := b.forest;
    KnownHere(f, q, ks);
    SoundFacts(b.nodes, b.recs, f, q.parent);
    if ks == [] {
      assert [q.key] + ks == [q.key];
      r := Convert(b, q, typ);
      return;
    }
    var next, e, p := At(b, q, ks[0]);
    SteppedFacts(f, q.parent, p, e, next.parent, b.forest);
    r := ConvertFrom(b, next, ks[1..], typ);
    ConvertedUp(f, q, next, f[q.parent].height, e, ks, typ);
  }

  lemma KnownHere(f: Forest, q: Proxy, ks: seq<Key>)
    requires Keyed([q.key] + ks) && Known(f, q.parent, [q.key] + ks)
    ensures Sound(f, q.parent) && 0 < |q.key| <= KEY_MAX
    ensures ks != [] ==>
              && Keyed([ks[0]] + ks[1..])
              && Find(f[q.parent].tree, IdOf(q.key)).Some?
              && var e := Find(f[q.parent].tree, IdOf(q.key)).value;
                 e.val.typ == Object && Known(f, LinkOf(false, e), [ks[0]] + ks[1..]) && Sound(f, LinkOf(false, e))
  {
    var full := [q.key] + ks;
    assert full[0] == q.key && full[1..] == ks;
    assert forall i :: 0 <= i < |ks| ==> ks[i] == full[i + 1];
    if ks != [] { assert [ks[0]] + ks[1..] == ks; }
  }

  lemma ConvertedUp(f: Forest, q: Proxy, next: Proxy, h: nat, e: Entry, ks: seq<Key>, typ: Type)
    requires Deep(f) && Sound(f, q.parent) && Sound(f, next.parent) && ks != []
    requires TreeShape(f[q.parent].tree, h) && ObjectRun(InOrder(f[q.parent].tree))
    requires Find(f[q.parent].tree, IdOf(q.key)) == Some(e) && e.val.typ == Object && next.parent == LinkOf(false, e)
    ensures Converted(DocAt(f, q.parent), [q.key] + ks, typ) == Converted(DocAt(f, next.parent), [ks[0]] + ks[1..], typ)
  {
    hide Deep, TreeShape, Find, ObjectRun, Sorted, Hangs;
    HangsAt(f, q.parent);
    DictReads(f, q.parent, f[q.parent].tree, h, q.key);
    assert ([q.key] + ks)[1..] == ks && [ks[0]] + ks[1..] == ks;
  }

  /** root[k1]...[kn] = v */
  method AssignPath(b: Buffer, ks: seq<Key>, v: Value)
    requires b.Coherent() && Keyed(ks) && Assignable(b.Here(), 0, ks)
    requires ValidValue(v) && !Nests(v) && b.used + SET_MARGIN * (|ks| + 1) <= U32_LIMIT
    modifies b
    ensures b.Coherent() && Deep(old(b.forest)) && Deep(b.forest) && 0 in b.forest && Known(b.forest, 0, ks)
    ensures forall qs: seq<Key> :: qs != [] && Parts(ks, qs) && old(Known(b.forest, 0, qs)) ==> Known(b.forest, 0, qs)
    ensures DocAt(b.forest, 0) == Put(DocAt(old(b.forest), 0), ks, v)
  {
    hide Holding, Image, Planted, Linked, Anchored, Dated, Deep, DocAt, Known, Assignable, Changed, Put;
    var first, e, p := At(b, Proxy(0, []), ks[0]);
    assert [ks[0]] + ks[1..] == ks;
    var c := AssignFrom(b, first, ks[1..], v);
  }

  /** Reading root[k1]...[kn] as a value of some type. */
  method ConvertPath(b: Buffer, ks: seq<Key>, typ: Type) returns (r: seq<Byte>)
    requires b.Coherent() && Keyed(ks) && Known(b.forest, 0, ks) && Readable(typ) && b.used + SET_MARGIN <= U32_LIMIT
    modifies b
    ensures b.Coherent() && Untouched(old(b.Here()), b)
    ensures Deep(b.forest) && 0 in b.forest && r == Converted(DocAt(b.forest, 0), ks, typ)
  {
    hide Holding, Image, Planted, Linked, Anchored, Dated, Deep, DocAt, Known, Converted;
    var first, e, p := At(b, Proxy(0, []), ks[0]);
    assert [ks[0]] + ks[1..] == ks;
    r := ConvertFrom(b, first, ks[1..], typ);
  }

  /** What was assigned is read back, and a path that parts from it reads as before. */
  lemma AssignedReads(d: Doc, ks: seq<Key>, v: Value, qs: seq<Key>, typ: Type)
    requires ks != []
    ensures v.typ == typ ==> Converted(Put(d, ks, v), ks, typ) == v.payload
    ensures v.typ != typ ==>
              Converted(Put(d, ks, v), ks, typ) == match typ
                                                   case Bool => [0]
                                                   case Int64 => [0, 0, 0, 0, 0, 0, 0, 0]
                                                   case Float64 => [0, 0, 0, 0, 0, 0, 0, 0]
                                                   case _ => []
    ensures !(ks <= qs) && !(qs <= ks) ==> Converted(Put(d, ks, v), qs, typ) == Converted(d, qs, typ)
  {
    GetPut(d, ks, v);
    if !(ks <= qs) && !(qs <= ks) { PutElsewhere(d, ks, v, qs); }
  }
}
