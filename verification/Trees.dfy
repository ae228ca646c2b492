/**
 The shape of the B-tree that lies in the buffer, as a value: every node with its offset, its entries and
 its children. All that is said about lookups, order and splits is said about the in-order run of entries.
 */
module Trees {
  import opened Order

  const KEYS_MAX: nat := 7
  const KEYS_MIN: nat := 3

  datatype Tree = Node(ofs: nat, es: seq<Entry>, cs: seq<Tree>)

  /** Entries of a tree from the smallest to the largest place. */
  ghost function InOrder(t: Tree): seq<Entry>
    decreases t
  {
    Weave(t.es, t.cs)
  }

  /** Entries `es` with the children `cs` between them; a leaf has no children. */
  ghost function Weave(es: seq<Entry>, cs: seq<Tree>): seq<Entry>
    decreases cs
  {
    if cs == [] then es
    else if es == [] then InOrder(cs[0])
    else InOrder(cs[0]) + [es[0]] + Weave(es[1..], cs[1..])
  }

  /** The part of a node before child `|ls|`: each child followed by its separator. */
  ghost function WeaveL(es: seq<Entry>, ls: seq<Tree>): seq<Entry>
    requires |es| == |ls|
  {
    if ls == [] then [] else InOrder(ls[0]) + [es[0]] + WeaveL(es[1..], ls[1..])
  }

  /** The part of a node from a separator on: each separator followed by its child, if it has one. */
  ghost function WeaveR(es: seq<Entry>, rs: seq<Tree>): seq<Entry> {
    if es == [] then [] else [es[0]] + Weave(es[1..], rs)
  }

  function Upto(cs: seq<Tree>, n: nat): seq<Tree>
    requires cs == [] || n <= |cs|
  {
    if cs == [] then [] else cs[..n]
  }

  function From(cs: seq<Tree>, n: nat): seq<Tree>
    requires cs == [] || n <= |cs|
  {
    if cs == [] then [] else cs[n..]
  }

  /** A node seen around its child number |ls|. */
  lemma {:induction false} WeaveHole(es: seq<Entry>, ls: seq<Tree>, t: Tree, rs: seq<Tree>)
    requires |es| == |ls| + |rs|
    ensures Weave(es, ls + [t] + rs) == WeaveL(es[..|ls|], ls) + InOrder(t) + WeaveR(es[|ls|..], rs)
    decreases ls
  {
    var cs := ls + [t] + rs;
    if ls == [] {
      assert cs == [t] + rs && cs[1..] == rs;
      assert es[|ls|..] == es;
    } else {
      WeaveHole(es[1..], ls[1..], t, rs);
      assert cs[1..] == ls[1..] + [t] + rs;
      assert es[..|ls|][1..] == es[1..][..|ls| - 1];
      assert es[|ls|..] == es[1..][|ls| - 1..];
    }
  }

  /** A node seen around its entry number m. */
  lemma WeaveCut(es: seq<Entry>, cs: seq<Tree>, m: nat)
    requires cs == [] || |cs| == |es| + 1
    requires m < |es|
    ensures Weave(es, cs) == Weave(es[..m], Upto(cs, m + 1)) + WeaveR(es[m..], From(cs, m + 1))
  {
    if cs == [] {
      assert es == es[..m] + es[m..];
    } else {
      var ls, t, rs := cs[..m], cs[m], cs[m + 1..];
      assert cs == ls + [t] + rs;
      WeaveHole(es, ls, t, rs);
      assert cs[..m + 1] == ls + [t] + [];
      assert es[..m][..m] == es[..m];
      WeaveHole(es[..m], ls, t, []);
    }
  }

  lemma {:induction false} WeaveLLast(es: seq<Entry>, ls: seq<Tree>)
    requires |es| == |ls| > 0
    ensures WeaveL(es, ls) != [] && WeaveL(es, ls)[|WeaveL(es, ls)| - 1] == es[|es| - 1]
    decreases ls
  {
    if |ls| > 1 {
      WeaveLLast(es[1..], ls[1..]);
    }
  }

  // ----- shape

  /** Uniform depth h, at most 7 entries in a node, at least lo in this one and 3 in all below it. */
  ghost predicate Shape(t: Tree, h: nat, lo: nat)
    decreases h
  {
    && h >= 1
    && lo <= |t.es| <= KEYS_MAX
    && Below(t.es, t.cs, h)
  }

  ghost predicate Below(es: seq<Entry>, cs: seq<Tree>, h: nat)
    requires h >= 1
    decreases h, 0
  {
    if h == 1 then cs == []
    else |cs| == |es| + 1 && forall i :: 0 <= i < |cs| ==> Shape(cs[i], h - 1, KEYS_MIN)
  }
}
