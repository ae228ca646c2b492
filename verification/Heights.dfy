/** How many entries a tree of some height holds at least, and so how deep a tree of few entries can be. */
module Heights {
  import opened Order
  import opened Trees
  import opened Steps
  import opened Digits

  /** Entries for which the 10-slot stack of the iterator is deep enough. */
  const ITER_ENTRIES_MAX: nat := 2097150
  const ITER_HEIGHT_MAX: nat := 10

  lemma {:induction false} WeaveAtLeast(es: seq<Entry>, cs: seq<Tree>, b: nat)
    requires |cs| == |es| + 1
    requires forall i :: 0 <= i < |cs| ==> |InOrder(cs[i])| + 1 >= b
    ensures |Weave(es, cs)| + 1 >= |cs| * b
    decreases cs
  {
    if es != [] {
      WeaveAtLeast(es[1..], cs[1..], b);
      assert |Weave(es, cs)| + 1 >= b + (|cs| - 1) * b;
    }
  }

  /** A tree of h levels holds at least (lo + 1) * 4^(h - 1) - 1 entries. */
  lemma {:induction false} EntriesAtLeast(t: Tree, h: nat, lo: nat)
    requires Shape(t, h, lo)
    ensures |InOrder(t)| + 1 >= (lo + 1) * Pow4(h - 1)
    decreases h
  {
    if h > 1 {
      var b := Pow4(h - 1);
      assert Below(t.es, t.cs, h);
      forall i | 0 <= i < |t.cs| ensures |InOrder(t.cs[i])| + 1 >= b {
        EntriesAtLeast(t.cs[i], h - 1, KEYS_MIN);
      }
      WeaveAtLeast(t.es, t.cs, b);
      TimesMonotone(lo + 1, |t.cs|, b);
    }
  }

  lemma TimesMonotone(m: nat, n: nat, b: nat)
    requires m <= n
    ensures m * b <= n * b
  {
  }

  lemma Pow4Values()
    ensures Pow4(7) == 16384 && Pow4(8) == 65536 && Pow4(10) == 1048576
  {
    assert Pow4(2) == 16;
    assert Pow4(4) == 256;
    assert Pow4(6) == 4096;
    assert Pow4(8) == 65536;
  }

  /** Within 2097150 entries there are at most 10 levels. */
  lemma HeightForIterator(t: Tree, h: nat)
    requires TreeShape(t, h) && |InOrder(t)| <= ITER_ENTRIES_MAX
    ensures h <= ITER_HEIGHT_MAX
  {
    Pow4Values();
    EntriesAtLeast(t, h, RootLeast(h));
    if h > ITER_HEIGHT_MAX { Pow4Monotone(10, h - 1); }
  }
}
