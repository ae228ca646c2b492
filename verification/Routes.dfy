/**
 Where a set lands: the walk of set_impl from a root, read off the tree as it was before the call. A full
 node is walked as the half that the split will hand on; that half is chosen by the hash alone.
 */
module Routes {
  import opened Order
  import opened Trees

  /** An entry with the sought id, or the place in the in-order run where the new entry goes. */
  datatype Place = Place(found: bool, pos: nat)

  /** First entry that is not smaller than k. */
  function Search(es: seq<Entry>, k: Id): (i: nat)
    ensures i <= |es|
    ensures forall j :: 0 <= j < i ==> Less(es[j].id, k)
    ensures i < |es| ==> !Less(es[i].id, k)
  {
    if es == [] || !Less(es[0].id, k) then 0 else 1 + Search(es[1..], k)
  }

  lemma {:induction false} SearchIs(es: seq<Entry>, k: Id, i: nat)
    requires i <= |es| && (forall j :: 0 <= j < i ==> Less(es[j].id, k))
    requires i < |es| ==> !Less(es[i].id, k)
    ensures Search(es, k) == i
  {
  }

  ghost predicate Full(t: Tree) {
    |t.es| >= KEYS_MAX
  }

  ghost predicate Formed(es: seq<Entry>, cs: seq<Tree>) {
    cs == [] || |cs| == |es| + 1
  }

  ghost function Route(t: Tree, k: Id): Place
    decreases t
  {
    if Full(t) && Formed(t.es, t.cs) then
      if k.hash > t.es[KEYS_MIN].id.hash then
        var r := RouteIn(t.es[KEYS_MIN + 1..], From(t.cs, KEYS_MIN + 1), k);
        Place(r.found, |Weave(t.es[..KEYS_MIN], Upto(t.cs, KEYS_MIN + 1))| + 1 + r.pos)
      else
        RouteIn(t.es[..KEYS_MIN], Upto(t.cs, KEYS_MIN + 1), k)
    else
      RouteIn(t.es, t.cs, k)
  }

  ghost function RouteIn(es: seq<Entry>, cs: seq<Tree>, k: Id): Place
    decreases cs
  {
    var i := Search(es, k);
    if i < |es| && es[i].id == k then
      Place(true, if cs == [] || |cs| <= i then i else |Weave(es[..i], cs[..i + 1])|)
    else if cs == [] || |cs| <= i then
      Place(false, i)
    else
      var r := Route(cs[i], k);
      Place(r.found, |WeaveL(es[..i], cs[..i])| + r.pos)
  }

  /** k has the hash of the promoted median but does not belong before it. */
  predicate BadMedian(m: Entry, k: Id) {
    m.id.hash == k.hash && !Less(k, m.id)
  }

  /** Some full node on the walk hands a bad median up to its parent, which the walk never looks at again. */
  ghost predicate Misroutes(t: Tree, k: Id)
    decreases t
  {
    if Full(t) && Formed(t.es, t.cs) then
      if k.hash > t.es[KEYS_MIN].id.hash then
        MisroutesIn(t.es[KEYS_MIN + 1..], From(t.cs, KEYS_MIN + 1), k)
      else
        BadMedian(t.es[KEYS_MIN], k) || MisroutesIn(t.es[..KEYS_MIN], Upto(t.cs, KEYS_MIN + 1), k)
    else
      MisroutesIn(t.es, t.cs, k)
  }

  ghost predicate MisroutesIn(es: seq<Entry>, cs: seq<Tree>, k: Id)
    decreases cs
  {
    var i := Search(es, k);
    !(i < |es| && es[i].id == k) && i < |cs| && Misroutes(cs[i], k)
  }

  /** The run of a node around its entry i. */
  lemma Around(es: seq<Entry>, cs: seq<Tree>, i: nat)
    requires Formed(es, cs) && i < |es|
    ensures Weave(es, cs) == Weave(es[..i], Upto(cs, i + 1)) + [es[i]] + Weave(es[i + 1..], From(cs, i + 1))
  {
    WeaveCut(es, cs, i);
    assert es[i..][1..] == es[i + 1..];
  }

  /** The run of a node around its child i, and what stands next to that child. */
  lemma AroundChild(es: seq<Entry>, cs: seq<Tree>, i: nat)
    requires |cs| == |es| + 1 && i < |cs|
    ensures Weave(es, cs) == WeaveL(es[..i], cs[..i]) + InOrder(cs[i]) + WeaveR(es[i..], cs[i + 1..])
    ensures var a := WeaveL(es[..i], cs[..i]); (a == [] <==> i == 0) && (i > 0 ==> a[|a| - 1] == es[i - 1])
    ensures var b := WeaveR(es[i..], cs[i + 1..]); (b == [] <==> i == |es|) && (i < |es| ==> b[0] == es[i])
  {
    assert cs == cs[..i] + [cs[i]] + cs[i + 1..];
    WeaveHole(es, cs[..i], cs[i], cs[i + 1..]);
    if i > 0 { WeaveLLast(es[..i], cs[..i]); }
  }

  // ----- the place is always a place of the run

  ghost predicate Fits(s: seq<Entry>, k: Id, p: Place) {
    p.pos <= |s| && (p.found ==> p.pos < |s| && s[p.pos].id == k)
  }

  lemma {:induction false} RouteFits(t: Tree, h: nat, lo: nat, k: Id)
    requires Shape(t, h, lo)
    ensures Fits(InOrder(t), k, Route(t, k))
    decreases h, 1
  {
    if Full(t) {
      HalvesShape(t, h, lo);
      WeaveCut(t.es, t.cs, KEYS_MIN);
      RouteInFits(t.es[..KEYS_MIN], Upto(t.cs, KEYS_MIN + 1), h, k);
      RouteInFits(t.es[KEYS_MIN + 1..], From(t.cs, KEYS_MIN + 1), h, k);
      assert t.es[KEYS_MIN..][1..] == t.es[KEYS_MIN + 1..];
    } else {
      RouteInFits(t.es, t.cs, h, k);
    }
  }

  lemma {:induction false} RouteInFits(es: seq<Entry>, cs: seq<Tree>, h: nat, k: Id)
    requires h >= 1 && Below(es, cs, h)
    ensures Fits(Weave(es, cs), k, RouteIn(es, cs, k))
    decreases h, 0
  {
    var i := Search(es, k);
    if i < |es| && es[i].id == k {
      WeaveCut(es, cs, i);
    } else if cs != [] {
      RouteFits(cs[i], h - 1, KEYS_MIN, k);
      assert cs == cs[..i] + [cs[i]] + cs[i + 1..];
      WeaveHole(es, cs[..i], cs[i], cs[i + 1..]);
    }
  }

  lemma HalvesShape(t: Tree, h: nat, lo: nat)
    requires Shape(t, h, lo) && Full(t)
    ensures Formed(t.es, t.cs)
    ensures Below(t.es[..KEYS_MIN], Upto(t.cs, KEYS_MIN + 1), h)
    ensures Below(t.es[KEYS_MIN + 1..], From(t.cs, KEYS_MIN + 1), h)
  {
  }

  // ----- hashes stay in order, whatever the keys

  ghost predicate HashFits(s: seq<Entry>, k: Id, p: Place) {
    && p.pos <= |s|
    && (forall i :: 0 <= i < p.pos ==> s[i].id.hash <= k.hash)
    && (forall i :: p.pos <= i < |s| ==> k.hash <= s[i].id.hash)
  }

  lemma HashAround(a: seq<Entry>, x: seq<Entry>, b: seq<Entry>, k: Id, p: Place)
    requires HashFits(x, k, p)
    requires forall i :: 0 <= i < |a| ==> a[i].id.hash <= k.hash
    requires forall i :: 0 <= i < |b| ==> k.hash <= b[i].id.hash
    ensures HashFits(a + x + b, k, Place(p.found, |a| + p.pos))
  {
  }

  lemma HashHigh(left: seq<Entry>, m: Entry, right: seq<Entry>, k: Id, p: Place)
    requires HashSorted(left + [m] + right) && k.hash > m.id.hash && HashFits(right, k, p)
    ensures HashFits(left + [m] + right, k, Place(p.found, |left| + 1 + p.pos))
  {
    HashMiddle(left, [m], right);
    assert [m][0] == m;
    assert left + [m] + right == (left + [m]) + right + [];
    HashAround(left + [m], right, [], k, p);
  }

  lemma HashLow(left: seq<Entry>, m: Entry, right: seq<Entry>, k: Id, p: Place)
    requires HashSorted(left + [m] + right) && k.hash <= m.id.hash && HashFits(left, k, p)
    ensures HashFits(left + [m] + right, k, p)
  {
    HashMiddle(left, [m], right);
    assert [m][0] == m;
    assert left + [m] + right == [] + left + ([m] + right);
    HashAround([], left, [m] + right, k, p);
  }

  lemma {:induction false} RouteHash(t: Tree, h: nat, lo: nat, k: Id)
    requires Shape(t, h, lo) && HashSorted(InOrder(t))
    ensures HashFits(InOrder(t), k, Route(t, k))
    decreases h, 1
  {
    if Full(t) {
      var les, lcs := t.es[..KEYS_MIN], Upto(t.cs, KEYS_MIN + 1);
      var res, rcs := t.es[KEYS_MIN + 1..], From(t.cs, KEYS_MIN + 1);
      HalvesShape(t, h, lo);
      Around(t.es, t.cs, KEYS_MIN);
      HashMiddle(Weave(les, lcs), [t.es[KEYS_MIN]], Weave(res, rcs));
      if k.hash > t.es[KEYS_MIN].id.hash {
        RouteInHash(res, rcs, h, k);
        HashHigh(Weave(les, lcs), t.es[KEYS_MIN], Weave(res, rcs), k, RouteIn(res, rcs, k));
      } else {
        RouteInHash(les, lcs, h, k);
        HashLow(Weave(les, lcs), t.es[KEYS_MIN], Weave(res, rcs), k, RouteIn(les, lcs, k));
      }
    } else {
      RouteInHash(t.es, t.cs, h, k);
    }
  }

  /** What the search at one node says of everything left and right of the child it picks. */
  lemma HashSides(a: seq<Entry>, x: seq<Entry>, b: seq<Entry>, k: Id)
    requires HashSorted(a + x + b)
    requires a != [] ==> a[|a| - 1].id.hash <= k.hash
    requires b != [] ==> k.hash <= b[0].id.hash
    ensures HashSorted(x)
    ensures forall i :: 0 <= i < |a| ==> a[i].id.hash <= k.hash
    ensures forall i :: 0 <= i < |b| ==> k.hash <= b[i].id.hash
  {
    HashMiddle(a, x, b);
  }

  lemma HashFound(a: seq<Entry>, e: Entry, b: seq<Entry>)
    requires HashSorted(a + [e] + b)
    ensures HashFits(a + [e] + b, e.id, Place(true, |a|))
  {
    HashMiddle(a, [e], b);
    assert [e][0] == e;
  }

  lemma HashLeaf(es: seq<Entry>, k: Id)
    requires HashSorted(es)
    ensures HashFits(es, k, Place(false, Search(es, k)))
  {
    var i := Search(es, k);
    assert es == es[..i] + [] + es[i..];
    HashSides(es[..i], [], es[i..], k);
  }

  lemma {:induction false} RouteInHash(es: seq<Entry>, cs: seq<Tree>, h: nat, k: Id)
    requires h >= 1 && Below(es, cs, h) && HashSorted(Weave(es, cs))
    ensures HashFits(Weave(es, cs), k, RouteIn(es, cs, k))
    decreases h, 0
  {
    var i := Search(es, k);
    if i < |es| && es[i].id == k {
      Around(es, cs, i);
      HashFound(Weave(es[..i], Upto(cs, i + 1)), es[i], Weave(es[i + 1..], From(cs, i + 1)));
    } else if cs == [] {
      HashLeaf(es, k);
    } else {
      var a, x, b := WeaveL(es[..i], cs[..i]), InOrder(cs[i]), WeaveR(es[i..], cs[i + 1..]);
      AroundChild(es, cs, i);
      HashSides(a, x, b, k);
      RouteHash(cs[i], h - 1, KEYS_MIN, k);
      HashAround(a, x, b, k, Route(cs[i], k));
    }
  }

  // ----- in a tree that is in order for the key

  /** The place is where the order wants k. */
  ghost predicate Exact(s: seq<Entry>, k: Id, p: Place) {
    && p.pos <= |s|
    && (forall i :: 0 <= i < p.pos ==> Less(s[i].id, k))
    && (forall i :: p.pos < i < |s| ==> Less(k, s[i].id))
    && (p.pos < |s| ==> if p.found then s[p.pos].id == k else Less(k, s[p.pos].id))
    && (p.found ==> p.pos < |s|)
  }

  /** A new entry is put in front of one that is not greater. */
  ghost predicate Lost(s: seq<Entry>, k: Id, p: Place) {
    && !p.found
    && p.pos < |s|
    && (forall i :: 0 <= i < p.pos ==> Less(s[i].id, k))
    && exists i :: p.pos <= i < |s| && !Less(k, s[i].id)
  }

  lemma OrderedSides(a: seq<Entry>, x: seq<Entry>, b: seq<Entry>, k: Id)
    requires Ordered(a + x + b, k)
    requires a != [] ==> Less(a[|a| - 1].id, k)
    requires b != [] ==> Less(k, b[0].id)
    ensures Ordered(x, k) && AllBelow(a, k) && AllAbove(b, k)
  {
    OrderedMiddle(a, x, b, k);
    forall i | 0 <= i < |a| ensures Less(a[i].id, k) {
      CompareOrder(a[|a| - 1].id, k, k);
    }
    forall i | 0 <= i < |b| ensures Less(k, b[i].id) {
      CompareOrder(k, b[0].id, b[i].id);
    }
  }

  lemma ExactAround(a: seq<Entry>, x: seq<Entry>, b: seq<Entry>, k: Id, p: Place)
    requires AllBelow(a, k) && AllAbove(b, k)
    ensures Exact(x, k, p) ==> Exact(a + x + b, k, Place(p.found, |a| + p.pos))
  {
  }

  /** A lost place stays lost whatever follows; what precedes has to be smaller. */
  lemma LostAround(a: seq<Entry>, x: seq<Entry>, b: seq<Entry>, k: Id, p: Place)
    requires AllBelow(a, k) && Lost(x, k, p)
    ensures Lost(a + x + b, k, Place(p.found, |a| + p.pos))
  {
    var i :| p.pos <= i < |x| && !Less(k, x[i].id);
    assert (a + x + b)[|a| + i] == x[i];
  }

  /** The place is the right one exactly when no bad median was handed up. */
  ghost predicate Verdict(s: seq<Entry>, k: Id, p: Place, misrouted: bool) {
    if misrouted then Lost(s, k, p) else Exact(s, k, p)
  }

  lemma VerdictAround(a: seq<Entry>, x: seq<Entry>, b: seq<Entry>, k: Id, p: Place, bad: bool)
    requires AllBelow(a, k) && AllAbove(b, k) && Verdict(x, k, p, bad)
    ensures Verdict(a + x + b, k, Place(p.found, |a| + p.pos), bad)
  {
    if bad { LostAround(a, x, b, k, p); } else { ExactAround(a, x, b, k, p); }
  }

  lemma {:induction false} RouteVerdict(t: Tree, h: nat, lo: nat, k: Id)
    requires Shape(t, h, lo) && Ordered(InOrder(t), k)
    ensures Verdict(InOrder(t), k, Route(t, k), Misroutes(t, k))
    decreases h, 2
  {
    if Full(t) {
      RouteVerdictFull(t, h, lo, k);
    } else {
      RouteInVerdict(t.es, t.cs, h, k);
    }
  }

  lemma {:induction false} RouteVerdictFull(t: Tree, h: nat, lo: nat, k: Id)
    requires Shape(t, h, lo) && Ordered(InOrder(t), k) && Full(t)
    ensures Verdict(InOrder(t), k, Route(t, k), Misroutes(t, k))
    decreases h, 1
  {
    hide Ordered, Verdict, Less;
    var m := t.es[KEYS_MIN];
    var les, lcs := t.es[..KEYS_MIN], Upto(t.cs, KEYS_MIN + 1);
    var res, rcs := t.es[KEYS_MIN + 1..], From(t.cs, KEYS_MIN + 1);
    HalvesShape(t, h, lo);
    Around(t.es, t.cs, KEYS_MIN);
    OrderedMiddle(Weave(les, lcs), [m], Weave(res, rcs), k);
    if k.hash > m.id.hash {
      RouteInVerdict(res, rcs, h, k);
      assert Less(m.id, k) by { HigherHash(m.id, k); }
      VerdictRight(Weave(les, lcs), m, Weave(res, rcs), k, RouteIn(res, rcs, k), MisroutesIn(res, rcs, k));
    } else {
      RouteInVerdict(les, lcs, h, k);
      VerdictLeft(Weave(les, lcs), m, Weave(res, rcs), k, RouteIn(les, lcs, k), MisroutesIn(les, lcs, k));
    }
  }

  lemma HigherHash(a: Id, b: Id)
    requires a.hash < b.hash
    ensures Less(a, b)
  {
  }

  lemma VerdictRight(left: seq<Entry>, m: Entry, right: seq<Entry>, k: Id, p: Place, bad: bool)
    requires Ordered(left + [m] + right, k) && Less(m.id, k) && Verdict(right, k, p, bad)
    ensures Verdict(left + [m] + right, k, Place(p.found, |left| + 1 + p.pos), bad)
  {
    var a := left + [m];
    assert left + [m] + right == a + right + [];
    OrderedMiddle(left, [m], right, k);
    forall i | 0 <= i < |a| ensures Less(a[i].id, k) {
      assert [m][0] == m;
      CompareOrder(m.id, k, k);
    }
    VerdictAround(a, right, [], k, p, bad);
  }

  lemma VerdictLeft(left: seq<Entry>, m: Entry, right: seq<Entry>, k: Id, p: Place, bad: bool)
    requires Ordered(left + [m] + right, k) && k.hash <= m.id.hash && Verdict(left, k, p, bad)
    ensures Verdict(left + [m] + right, k, p, BadMedian(m, k) || bad)
  {
    if BadMedian(m, k) {
      BadMedianLoses(left, m, right, k, p, bad);
    } else {
      var b := [m] + right;
      assert left + [m] + right == [] + left + b;
      assert b[0] == m;
      OrderedSides([], left, b, k);
      VerdictAround([], left, b, k, p, bad);
    }
  }

  /** Left of a median that is not greater than k there is nothing but smaller entries, and k goes there. */
  lemma BadMedianLoses(left: seq<Entry>, m: Entry, right: seq<Entry>, k: Id, p: Place, bad: bool)
    requires Ordered(left + [m] + right, k) && !Less(k, m.id) && Verdict(left, k, p, bad)
    ensures Lost(left + [m] + right, k, p)
  {
    OrderedMiddle(left, [m], right, k);
    forall i | 0 <= i < |left| ensures Less(left[i].id, k) && !Less(k, left[i].id) {
      assert [m][0] == m;
      CompareOrder(left[i].id, m.id, k);
      CompareOrder(m.id, k, k);
      CompareOrder(left[i].id, k, k);
    }
    assert (left + [m] + right)[|left|] == m;
  }

  lemma OrderedFound(a: seq<Entry>, e: Entry, b: seq<Entry>)
    requires Ordered(a + [e] + b, e.id)
    ensures Exact(a + [e] + b, e.id, Place(true, |a|))
  {
    OrderedMiddle(a, [e], b, e.id);
    assert [e][0] == e;
  }

  lemma OrderedLeaf(es: seq<Entry>, k: Id)
    requires Ordered(es, k) && !(Search(es, k) < |es| && es[Search(es, k)].id == k)
    ensures Exact(es, k, Place(false, Search(es, k)))
  {
    var i := Search(es, k);
    if i < |es| { CompareOrder(es[i].id, k, k); }
    assert es == es[..i] + [] + es[i..];
    OrderedSides(es[..i], [], es[i..], k);
  }

  lemma NotHit(es: seq<Entry>, k: Id)
    ensures var i := Search(es, k); i < |es| && es[i].id != k ==> Less(k, es[i].id)
  {
    var i := Search(es, k);
    if i < |es| { CompareOrder(es[i].id, k, k); }
  }

  lemma {:induction false} RouteInVerdict(es: seq<Entry>, cs: seq<Tree>, h: nat, k: Id)
    requires h >= 1 && Below(es, cs, h) && Ordered(Weave(es, cs), k)
    ensures Verdict(Weave(es, cs), k, RouteIn(es, cs, k), MisroutesIn(es, cs, k))
    decreases h, 0
  {
    hide Less, Compare, Ordered, AllBelow, AllAbove, Exact, Lost;
    var i := Search(es, k);
    NotHit(es, k);
    if i < |es| && es[i].id == k {
      Around(es, cs, i);
      OrderedFound(Weave(es[..i], Upto(cs, i + 1)), es[i], Weave(es[i + 1..], From(cs, i + 1)));
    } else if cs == [] {
      OrderedLeaf(es, k);
    } else {
      var a, x, b := WeaveL(es[..i], cs[..i]), InOrder(cs[i]), WeaveR(es[i..], cs[i + 1..]);
      AroundChild(es, cs, i);
      OrderedSides(a, x, b, k);
      RouteVerdict(cs[i], h - 1, KEYS_MIN, k);
      VerdictAround(a, x, b, k, Route(cs[i], k), Misroutes(cs[i], k));
    }
  }
}
