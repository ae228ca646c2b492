/**
 The walk of set_impl with its one gap closed: a split looks at the median it hands up and chooses a half by the
 whole (hash, key) order. That walk is right in every sorted tree, so bad medians are all that is wrong with it.
 */
module Repair {
  import opened Order
  import opened Trees
  import opened Routes

  ghost function RepairedRoute(t: Tree, k: Id): Place
    decreases t
  {
    if Full(t) && Formed(t.es, t.cs) then
      var m, left := t.es[KEYS_MIN], |Weave(t.es[..KEYS_MIN], Upto(t.cs, KEYS_MIN + 1))|;
      if m.id == k then
        Place(true, left)
      else if Less(m.id, k) then
        var r := RepairedIn(t.es[KEYS_MIN + 1..], From(t.cs, KEYS_MIN + 1), k);
        Place(r.found, left + 1 + r.pos)
      else
        RepairedIn(t.es[..KEYS_MIN], Upto(t.cs, KEYS_MIN + 1), k)
    else
      RepairedIn(t.es, t.cs, k)
  }

  ghost function RepairedIn(es: seq<Entry>, cs: seq<Tree>, k: Id): Place
    decreases cs
  {
    var i := Search(es, k);
    if i < |es| && es[i].id == k then
      Place(true, if cs == [] || |cs| <= i then i else |Weave(es[..i], cs[..i + 1])|)
    else if cs == [] || |cs| <= i then
      Place(false, i)
    else
      var r := RepairedRoute(cs[i], k);
      Place(r.found, |WeaveL(es[..i], cs[..i])| + r.pos)
  }

  /** No condition on medians. */
  lemma {:induction false} RepairedExact(t: Tree, h: nat, lo: nat, k: Id)
    requires Shape(t, h, lo) && Ordered(InOrder(t), k)
    ensures Exact(InOrder(t), k, RepairedRoute(t, k))
    decreases h, 1
  {
    hide Ordered, Exact, Less;
    if Full(t) {
      var m := t.es[KEYS_MIN];
      var les, lcs := t.es[..KEYS_MIN], Upto(t.cs, KEYS_MIN + 1);
      var res, rcs := t.es[KEYS_MIN + 1..], From(t.cs, KEYS_MIN + 1);
      HalvesShape(t, h, lo);
      Around(t.es, t.cs, KEYS_MIN);
      OrderedMiddle(Weave(les, lcs), [m], Weave(res, rcs), k);
      if m.id == k {
        OrderedFound(Weave(les, lcs), m, Weave(res, rcs));
      } else if Less(m.id, k) {
        RepairedInExact(res, rcs, h, k);
        VerdictRight(Weave(les, lcs), m, Weave(res, rcs), k, RepairedIn(res, rcs, k), false);
      } else {
        RepairedInExact(les, lcs, h, k);
        NotBad(m, k);
        VerdictLeft(Weave(les, lcs), m, Weave(res, rcs), k, RepairedIn(les, lcs, k), false);
      }
    } else {
      RepairedInExact(t.es, t.cs, h, k);
    }
  }

  lemma NotBad(m: Entry, k: Id)
    requires m.id != k && !Less(m.id, k)
    ensures k.hash <= m.id.hash && !BadMedian(m, k)
  {
    CompareOrder(m.id, k, k);
  }

  lemma {:induction false} RepairedInExact(es: seq<Entry>, cs: seq<Tree>, h: nat, k: Id)
    requires h >= 1 && Below(es, cs, h) && Ordered(Weave(es, cs), k)
    ensures Exact(Weave(es, cs), k, RepairedIn(es, cs, k))
    decreases h, 0
  {
    hide Less, Compare, Ordered, AllBelow, AllAbove, Exact, Lost;
    var i := Search(es, k);
    NotHit(es, k);
    if i < |es| && es[i].id == k {
      Around(es, cs, i);
      OrderedFound(Weave(es[..i], Upto(cs, i + 1)), es[i], Weave(es[i + 1..], From(cs, i + 1)));
    } else if cs == [] {
      OrderedLeaf(es, k);
    } else {
      var a, x, b := WeaveL(es[..i], cs[..i]), InOrder(cs[i]), WeaveR(es[i..], cs[i + 1..]);
      AroundChild(es, cs, i);
      OrderedSides(a, x, b, k);
      RepairedExact(cs[i], h - 1, KEYS_MIN, k);
      ExactAround(a, x, b, k, RepairedRoute(cs[i], k));
    }
  }

  /** Where no bad median is met, the repair changes nothing. */
  lemma RepairOnlyWhereNeeded(t: Tree, h: nat, lo: nat, k: Id)
    requires Shape(t, h, lo) && Ordered(InOrder(t), k)
    ensures RepairedRoute(t, k) == Route(t, k) <==> !Misroutes(t, k)
  {
    RepairedExact(t, h, lo, k);
    RouteVerdict(t, h, lo, k);
    if Misroutes(t, k) {
      ExactNotLost(InOrder(t), k, Route(t, k));
    } else {
      ExactUnique(InOrder(t), k, RepairedRoute(t, k), Route(t, k));
    }
  }

  lemma ExactNotLost(s: seq<Entry>, k: Id, p: Place)
    requires Lost(s, k, p)
    ensures !Exact(s, k, p)
  {
  }

  lemma ExactUnique(s: seq<Entry>, k: Id, p: Place, q: Place)
    requires Exact(s, k, p) && Exact(s, k, q)
    ensures p == q
  {
    CompareOrder(k, k, k);
    if p.pos < q.pos {
      CompareOrder(s[p.pos].id, k, s[p.pos].id);
    } else if q.pos < p.pos {
      CompareOrder(s[q.pos].id, k, s[q.pos].id);
    }
  }
}
