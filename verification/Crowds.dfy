/**
 How few entries a tree can have and still need more of the path array than there is. A full node takes two slots, so
 the cheapest way to seventeen is nine levels of which all but the root are full.
 */
module Crowds {
  import opened Records
  import opened Order
  import opened Trees
  import opened Routes
  import opened Steps
  import opened Paths
  import opened Digits
  import opened Heights
  import opened Spines

  /** Entries up to which the 16 slots of the path are enough, whatever the tree and the key. */
  const SET_ENTRIES_MAX: nat := 218450

  /** Entries that f full nodes on a walk take at least beyond those of the height. */
  function Extra(f: nat): nat {
    if f == 0 then 0 else Extra(f - 1) + Pow4(f)
  }

  lemma ExtraEight()
    ensures Extra(8) == 87380 && Pow4(8) == 65536 && Pow4(9) == 262144
  {
    assert Extra(2) == 20;
    assert Extra(4) == 340 && Pow4(4) == 256;
    assert Extra(6) == 5460 && Pow4(6) == 4096;
  }

  /** Where the walk goes on below t: a child, or nowhere. */
  lemma WalkOn(t: Tree, h: nat, lo: nat, k: Id) returns (c: int)
    requires Shape(t, h, lo)
    ensures c == -1 || 0 <= c < |t.cs|
    ensures var own := if Full(t) then 1 else 0;
            && FullOnes(t, k) == own + (if c == -1 then 0 else FullOnes(t.cs[c], k))
            && Pushes(t, k) == 1 + own + (if c == -1 then 0 else Pushes(t.cs[c], k))
  {
    assert Below(t.es, t.cs, h);
    if Full(t) {
      if k.hash > t.es[KEYS_MIN].id.hash {
        c := WalkOnIn(t.es[KEYS_MIN + 1..], From(t.cs, KEYS_MIN + 1), k);
        if c >= 0 { c := c + KEYS_MIN + 1; }
      } else {
        c := WalkOnIn(t.es[..KEYS_MIN], Upto(t.cs, KEYS_MIN + 1), k);
      }
    } else {
      c := WalkOnIn(t.es, t.cs, k);
    }
  }

  lemma WalkOnIn(es: seq<Entry>, cs: seq<Tree>, k: Id) returns (c: int)
    ensures c == -1 || 0 <= c < |cs|
    ensures FullOnesIn(es, cs, k) == if c == -1 then 0 else FullOnes(cs[c], k)
    ensures PushesIn(es, cs, k) == if c == -1 then 0 else Pushes(cs[c], k)
  {
    var i := Search(es, k);
    c := if !(i < |es| && es[i].id == k) && i < |cs| then i else -1;
  }

  /** A walk pushes one node for each level at most, and each full one once more. */
  lemma {:induction false} LevelsAndFull(t: Tree, h: nat, lo: nat, k: Id)
    requires Shape(t, h, lo)
    ensures FullOnes(t, k) <= h && Pushes(t, k) <= h + FullOnes(t, k)
    decreases h
  {
    var c := WalkOn(t, h, lo, k);
    assert Below(t.es, t.cs, h);
    if c >= 0 { LevelsAndFull(t.cs[c], h - 1, KEYS_MIN, k); }
  }

  lemma {:induction false} WeaveOne(es: seq<Entry>, cs: seq<Tree>, b: nat, c: nat)
    requires |cs| == |es| + 1 && c < |cs|
    requires forall i :: 0 <= i < |cs| ==> |InOrder(cs[i])| + 1 >= b
    ensures |Weave(es, cs)| + 1 >= |InOrder(cs[c])| + 1 + (|cs| - 1) * b
    decreases cs
  {
    if es != [] {
      if c == 0 {
        WeaveAtLeast(es[1..], cs[1..], b);
      } else {
        WeaveOne(es[1..], cs[1..], b, c - 1);
        assert (|cs| - 1) * b == b + (|cs| - 2) * b;
      }
    }
  }

  /** The node t with a child c that holds at least x entries, less one, and all others at least what they must. */
  lemma NodeAtLeast(t: Tree, h: nat, lo: nat, c: nat, x: nat)
    requires Shape(t, h, lo) && h > 1 && c < |t.cs| && |InOrder(t.cs[c])| + 1 >= x
    ensures |InOrder(t)| + 1 >= x + |t.es| * Pow4(h - 1)
  {
    var b := Pow4(h - 1);
    assert Below(t.es, t.cs, h);
    forall i | 0 <= i < |t.cs| ensures |InOrder(t.cs[i])| + 1 >= b { EntriesAtLeast(t.cs[i], h - 1, KEYS_MIN); }
    WeaveOne(t.es, t.cs, b, c);
  }

  /** A subtree with f full nodes on the walk holds at least 4^h + 4 + ... + 4^f entries, less one. */
  lemma {:induction false} CrowdAtLeast(t: Tree, h: nat, k: Id)
    requires Shape(t, h, KEYS_MIN)
    ensures |InOrder(t)| + 1 >= Pow4(h) + Extra(FullOnes(t, k))
    decreases h
  {
    var c := WalkOn(t, h, KEYS_MIN, k);
    var p := Pow4(h - 1);
    LevelsAndFull(t, h, KEYS_MIN, k);
    EntriesAtLeast(t, h, |t.es|);
    if c == -1 {
      TimesMonotone(if Full(t) then 8 else 4, |t.es| + 1, p);
      assert Extra(1) == 4;
      Pow4Monotone(1, h);
    } else {
      assert Below(t.es, t.cs, h);
      var x := Pow4(h - 1) + Extra(FullOnes(t.cs[c], k));
      CrowdAtLeast(t.cs[c], h - 1, k);
      NodeAtLeast(t, h, KEYS_MIN, c, x);
      TimesMonotone(if Full(t) then 7 else 3, |t.es|, p);
      Pow4Monotone(FullOnes(t, k), h);
    }
  }

  /** Whoever needs a seventeenth slot holds at least 218451 entries. */
  lemma SeventeenSlots(t: Tree, h: nat, k: Id)
    requires TreeShape(t, h) && Pushes(t, k) > PATH_SLOTS
    ensures |InOrder(t)| > SET_ENTRIES_MAX
  {
    LevelsAndFull(t, h, RootLeast(h), k);
    ExtraEight();
    Pow4Monotone(9, h);
    if |t.es| >= KEYS_MIN {
      CrowdAtLeast(t, h, k);
    } else {
      var c := WalkOn(t, h, RootLeast(h), k);
      assert Below(t.es, t.cs, h);
      LevelsAndFull(t.cs[c], h - 1, KEYS_MIN, k);
      CrowdAtLeast(t.cs[c], h - 1, k);
      NodeAtLeast(t, h, RootLeast(h), c, Pow4(h - 1) + Extra(FullOnes(t.cs[c], k)));
      TimesMonotone(1, |t.es|, Pow4(h - 1));
      if h > 9 { Pow4Monotone(9, h - 1); }
    }
  }

  /** Up to there every walk has room. */
  lemma RoomForSet(t: Tree, h: nat, k: Id)
    requires TreeShape(t, h) && |InOrder(t)| <= SET_ENTRIES_MAX
    ensures PathRoom(t, k)
  {
    if !PathRoom(t, k) { SeventeenSlots(t, h, k); }
  }

  // ----- and one that needs it

  /** Entry i of a sorted run. */
  ghost function Numbered(i: nat): Entry {
    Entry(Id(if i < 0x1_0000_0000 then i else 0, []), Value(Null, []), 0)
  }

  ghost function Run(base: nat, n: nat): (s: seq<Entry>)
    ensures |s| == n
  {
    seq(n, i requires 0 <= i < n => Numbered(base + i))
  }

  /** The n entries of a node whose children span p entries each with the separator after them. */
  ghost function FanEntries(n: nat, p: nat, base: nat): (es: seq<Entry>)
    requires p >= 1
    ensures |es| == n
  {
    seq(n, i requires 0 <= i < n => Numbered(base + i * p + p - 1))
  }

  lemma FanTail(n: nat, p: nat, base: nat)
    requires n >= 1 && p >= 1
    ensures FanEntries(n, p, base)[0] == Numbered(base + p - 1)
    ensures FanEntries(n, p, base)[1..] == FanEntries(n - 1, p, base + p)
  {
    var es, rest := FanEntries(n, p, base), FanEntries(n - 1, p, base + p);
    forall i | 0 <= i < n - 1 ensures es[1..][i] == rest[i] {
      assert (i + 1) * p == i * p + p;
    }
  }

  /** Its children: n lean ones of height h, then the last. */
  ghost function FanChildren(n: nat, h: nat, base: nat, last: Tree): (cs: seq<Tree>)
    requires h >= 1
    ensures |cs| == n + 1 && cs[n] == last
    decreases h, n + 1
  {
    if n == 0 then [last] else [LeanTree(h, base)] + FanChildren(n - 1, h, base + Pow4(h), last)
  }

  /** A tree with three entries in every node. */
  ghost function LeanTree(h: nat, base: nat): Tree
    requires h >= 1
    decreases h, 0
  {
    if h == 1 then Node(0, FanEntries(3, 1, base), [])
    else
      var p := Pow4(h - 1);
      Node(0, FanEntries(3, p, base), FanChildren(3, h - 1, base, LeanTree(h - 1, base + 3 * p)))
  }

  /** A tree with full nodes down its right side. */
  ghost function FullTree(h: nat, base: nat): Tree
    requires h >= 1
    decreases h
  {
    if h == 1 then Node(0, FanEntries(7, 1, base), [])
    else
      var p := Pow4(h - 1);
      Node(0, FanEntries(7, p, base), FanChildren(7, h - 1, base, FullTree(h - 1, base + 7 * p)))
  }

  lemma RunParts(base: nat, m: nat, n: nat)
    ensures Run(base, m) + Run(base + m, n) == Run(base, m + n)
  {
  }

  lemma {:induction false} FanRun(n: nat, h: nat, base: nat, last: Tree, m: nat)
    requires h >= 1 && InOrder(last) == Run(base + n * Pow4(h), m)
    ensures Weave(FanEntries(n, Pow4(h), base), FanChildren(n, h, base, last)) == Run(base, n * Pow4(h) + m)
    decreases h, n + 1
  {
    if n > 0 {
      var p := Pow4(h);
      var es, cs, less := FanEntries(n, p, base), FanChildren(n, h, base, last), (n - 1) * p;
      assert n * p == less + p;
      LeanRun(h, base);
      FanTail(n, p, base);
      FanRun(n - 1, h, base + p, last, m);
      assert cs[1..] == FanChildren(n - 1, h, base + p, last);
      hide InOrder, FanEntries, FanChildren, LeanTree, Run, Pow4;
      OneMoreRun(base, p, es[0]);
      RunParts(base, p, less + m);
    }
  }

  lemma OneMoreRun(base: nat, p: nat, e: Entry)
    requires p >= 1 && e == Numbered(base + p - 1)
    ensures Run(base, p - 1) + [e] == Run(base, p)
  {
  }

  lemma {:induction false} LeanRun(h: nat, base: nat)
    requires h >= 1
    ensures InOrder(LeanTree(h, base)) == Run(base, Pow4(h) - 1)
    decreases h, 0
  {
    if h == 1 {
      assert FanEntries(3, 1, base) == Run(base, 3);
    } else {
      var p := Pow4(h - 1);
      LeanRun(h - 1, base + 3 * p);
      FanRun(3, h - 1, base, LeanTree(h - 1, base + 3 * p), p - 1);
    }
  }

  /** Entries of a full tree. */
  function Crowd(h: nat): nat {
    if h == 0 then 0 else Crowd(h - 1) + 7 * Pow4(h - 1)
  }

  lemma {:induction false} FullRun(h: nat, base: nat)
    requires h >= 1
    ensures InOrder(FullTree(h, base)) == Run(base, Crowd(h))
    decreases h
  {
    if h == 1 {
      assert FanEntries(7, 1, base) == Run(base, 7) && Crowd(1) == 7;
    } else {
      var p := Pow4(h - 1);
      FullRun(h - 1, base + 7 * p);
      FanRun(7, h - 1, base, FullTree(h - 1, base + 7 * p), Crowd(h - 1));
    }
  }

  lemma {:induction false} FanShape(n: nat, h: nat, base: nat, last: Tree)
    requires h >= 1 && Shape(last, h, KEYS_MIN)
    ensures forall i :: 0 <= i <= n ==> Shape(FanChildren(n, h, base, last)[i], h, KEYS_MIN)
    decreases h, n + 1
  {
    if n > 0 {
      LeanShape(h, base);
      FanShape(n - 1, h, base + Pow4(h), last);
    }
  }

  lemma {:induction false} LeanShape(h: nat, base: nat)
    requires h >= 1
    ensures Shape(LeanTree(h, base), h, KEYS_MIN)
    decreases h, 0
  {
    if h > 1 {
      var p := Pow4(h - 1);
      LeanShape(h - 1, base + 3 * p);
      FanShape(3, h - 1, base, LeanTree(h - 1, base + 3 * p));
    }
  }

  lemma {:induction false} FullShape(h: nat, base: nat)
    requires h >= 1
    ensures Shape(FullTree(h, base), h, KEYS_MIN)
    decreases h
  {
    if h > 1 {
      var p := Pow4(h - 1);
      FullShape(h - 1, base + 7 * p);
      FanShape(7, h - 1, base, FullTree(h - 1, base + 7 * p));
    }
  }

  /** A walk beyond all entries goes down the right side. */
  lemma {:induction false} FullPushes(h: nat, base: nat, k: Id)
    requires h >= 1 && AllBefore(InOrder(FullTree(h, base)), k)
    ensures Pushes(FullTree(h, base), k) == 2 * h
    decreases h
  {
    var t := FullTree(h, base);
    EntriesBefore(t, k);
    var es := t.es[KEYS_MIN + 1..];
    SearchEnd(es, k);
    if h > 1 {
      assert From(t.cs, KEYS_MIN + 1)[3] == t.cs[7];
      FullPushes(h - 1, base + 7 * Pow4(h - 1), k);
    }
  }

  lemma CrowdEight()
    ensures Crowd(8) == 152915
  {
    ExtraEight();
    assert Crowd(2) == 35 && Pow4(2) == 16;
    assert Crowd(4) == 595 && Pow4(4) == 256;
    assert Crowd(6) == 9555 && Pow4(6) == 4096;
  }

  lemma RunSorted(n: nat, k: Id)
    requires n < 0x1000_0000 && k.hash == 0x1000_0000
    ensures Sorted(Run(0, n)) && AllBefore(Run(0, n), k)
  {
    var s := Run(0, n);
    forall i | 0 <= i < n ensures s[i].id.hash == i < k.hash {
      assert s[i] == Numbered(0 + i);
    }
  }

  /** A root with one entry, a lean tree before it and a full one after it. */
  ghost function Lopsided(h: nat): Tree
    requires h >= 1
  {
    Node(0, FanEntries(1, Pow4(h), 0), FanChildren(1, h, 0, FullTree(h, Pow4(h))))
  }

  lemma LopsidedShape(h: nat)
    requires h >= 1
    ensures TreeShape(Lopsided(h), h + 1)
    ensures |Lopsided(h).es| == 1 && |Lopsided(h).cs| == 2 && Lopsided(h).cs[1] == FullTree(h, Pow4(h))
  {
    hide FanEntries, FullTree, Pow4;
    FullShape(h, Pow4(h));
    FanShape(1, h, 0, FullTree(h, Pow4(h)));
    var t := Lopsided(h);
    assert t.cs == FanChildren(1, h, 0, FullTree(h, Pow4(h)));
    assert Below(t.es, t.cs, h + 1);
  }

  lemma LopsidedRun(h: nat)
    requires h >= 1
    ensures InOrder(Lopsided(h)) == Run(0, Pow4(h) + Crowd(h))
  {
    hide FanEntries, FullTree, Pow4, Run, FanChildren, Weave, Crowd;
    FullRun(h, Pow4(h));
    assert 0 + 1 * Pow4(h) == Pow4(h);
    FanRun(1, h, 0, FullTree(h, Pow4(h)), Crowd(h));
  }

  lemma LopsidedPushes(h: nat, k: Id)
    requires h >= 1 && AllBefore(InOrder(Lopsided(h)), k)
    ensures Pushes(Lopsided(h), k) == 1 + 2 * h
  {
    LopsidedShape(h);
    hide Lopsided, FullTree, Pow4, InOrder, AllBefore;
    FirstPushes(Lopsided(h), k, FullTree(h, Pow4(h)));
    FullPushes(h, Pow4(h), k);
  }

  lemma LeanAndFull(h: nat, k: Id) returns (t: Tree)
    requires h >= 1 && Pow4(h) + Crowd(h) < k.hash == 0x1000_0000
    ensures TreeShape(t, h + 1) && Sorted(InOrder(t)) && |InOrder(t)| == Pow4(h) + Crowd(h)
    ensures Pushes(t, k) == 1 + 2 * h
  {
    hide Lopsided, Run, Pow4, Crowd, AllBefore, Sorted, Pushes, InOrder, Shape;
    t := Lopsided(h);
    LopsidedShape(h);
    LopsidedRun(h);
    RunSorted(Pow4(h) + Crowd(h), k);
    LopsidedPushes(h, k);
  }

  /** A sorted tree of 218451 entries, and a key for which its walk needs seventeen slots. */
  lemma OneTooMany() returns (t: Tree, k: Id)
    ensures TreeShape(t, 9) && Sorted(InOrder(t)) && |InOrder(t)| == SET_ENTRIES_MAX + 1
    ensures Pushes(t, k) == PATH_SLOTS + 1
  {
    CrowdEight();
    ExtraEight();
    hide TreeShape, Shape, Sorted, InOrder, Pushes;
    k := Id(0x1000_0000, []);
    t := LeanAndFull(8, k);
  }

  lemma FirstPushes(t: Tree, k: Id, last: Tree)
    requires |t.es| == 1 && |t.cs| == 2 && t.cs[1] == last && AllBefore(InOrder(t), k)
    ensures Pushes(t, k) == 1 + Pushes(last, k) && AllBefore(InOrder(last), k)
  {
    EntriesBefore(t, k);
    SearchEnd(t.es, k);
  }
}
