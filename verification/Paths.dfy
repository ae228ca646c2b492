/** How many slots of the path array a walk of set_impl takes: one for each node, and one more for each full one. */
module Paths {
  import opened Order
  import opened Trees
  import opened Routes

  const PATH_SLOTS: nat := 16

  /** A full node is pushed, split, and pushed again as the half that the walk goes on with. */
  ghost function Pushes(t: Tree, k: Id): (n: nat)
    ensures n >= 1
    decreases t
  {
    if Full(t) && Formed(t.es, t.cs) then
      2 + if k.hash > t.es[KEYS_MIN].id.hash then PushesIn(t.es[KEYS_MIN + 1..], From(t.cs, KEYS_MIN + 1), k)
          else PushesIn(t.es[..KEYS_MIN], Upto(t.cs, KEYS_MIN + 1), k)
    else 1 + PushesIn(t.es, t.cs, k)
  }

  ghost function PushesIn(es: seq<Entry>, cs: seq<Tree>, k: Id): nat
    decreases cs
  {
    var i := Search(es, k);
    if !(i < |es| && es[i].id == k) && i < |cs| then Pushes(cs[i], k) else 0
  }

  /** Full nodes on the walk. */
  ghost function FullOnes(t: Tree, k: Id): nat
    decreases t
  {
    if Full(t) && Formed(t.es, t.cs) then
      1 + if k.hash > t.es[KEYS_MIN].id.hash then FullOnesIn(t.es[KEYS_MIN + 1..], From(t.cs, KEYS_MIN + 1), k)
          else FullOnesIn(t.es[..KEYS_MIN], Upto(t.cs, KEYS_MIN + 1), k)
    else FullOnesIn(t.es, t.cs, k)
  }

  ghost function FullOnesIn(es: seq<Entry>, cs: seq<Tree>, k: Id): nat
    decreases cs
  {
    var i := Search(es, k);
    if !(i < |es| && es[i].id == k) && i < |cs| then FullOnes(cs[i], k) else 0
  }

  ghost predicate PathRoom(t: Tree, k: Id) {
    Pushes(t, k) <= PATH_SLOTS
  }

  lemma {:induction false} TwoForEachFull(t: Tree, k: Id)
    ensures 2 * FullOnes(t, k) <= Pushes(t, k)
    decreases t, 1
  {
    if Full(t) && Formed(t.es, t.cs) {
      if k.hash > t.es[KEYS_MIN].id.hash {
        TwoForEachFullIn(t.es[KEYS_MIN + 1..], From(t.cs, KEYS_MIN + 1), k);
      } else {
        TwoForEachFullIn(t.es[..KEYS_MIN], Upto(t.cs, KEYS_MIN + 1), k);
      }
    } else {
      TwoForEachFullIn(t.es, t.cs, k);
    }
  }

  lemma {:induction false} TwoForEachFullIn(es: seq<Entry>, cs: seq<Tree>, k: Id)
    ensures 2 * FullOnesIn(es, cs, k) <= PushesIn(es, cs, k)
    decreases cs, 0
  {
    var i := Search(es, k);
    if !(i < |es| && es[i].id == k) && i < |cs| { TwoForEachFull(cs[i], k); }
  }

  /** At most two for each level. */
  lemma {:induction false} PushesByHeight(t: Tree, h: nat, lo: nat, k: Id)
    requires Shape(t, h, lo)
    ensures Pushes(t, k) <= 2 * h
    decreases h, 1
  {
    if Full(t) {
      HalvesShape(t, h, lo);
      PushesInByHeight(t.es[KEYS_MIN + 1..], From(t.cs, KEYS_MIN + 1), h, k);
      PushesInByHeight(t.es[..KEYS_MIN], Upto(t.cs, KEYS_MIN + 1), h, k);
    } else {
      PushesInByHeight(t.es, t.cs, h, k);
    }
  }

  lemma {:induction false} PushesInByHeight(es: seq<Entry>, cs: seq<Tree>, h: nat, k: Id)
    requires h >= 1 && Below(es, cs, h)
    ensures PushesIn(es, cs, k) <= 2 * (h - 1)
    decreases h, 0
  {
    var i := Search(es, k);
    if !(i < |es| && es[i].id == k) && i < |cs| { PushesByHeight(cs[i], h - 1, KEYS_MIN, k); }
  }
}
