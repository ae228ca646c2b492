/** Keys, the (hash, key) order of the tree and what a sorted run of entries means as a map. */
module Order {
  import opened Bytes
  import opened Records

  type Key = seq<Byte>

  /** What an entry is looked up by. Array elements have the empty key and their index as hash. */
  datatype Id = Id(hash: U32, key: Key)

  /** One (hash, kv offset) slot of a node, together with what its record holds. */
  datatype Entry = Entry(id: Id, val: Value, kv: nat)

  /** std::string_view::compare on unsigned bytes. */
  function CompareKeys(a: Key, b: Key): (c: int)
    ensures -1 <= c <= 1
    ensures c == 0 <==> a == b
  {
    if a == [] then (if b == [] then 0 else -1)
    else if b == [] then 1
    else if a[0] != b[0] then (if a[0] < b[0] then -1 else 1)
    else
      assert a == [a[0]] + a[1..] && b == [b[0]] + b[1..];
      CompareKeys(a[1..], b[1..])
  }

  /** Unsigned bytes from the front: a proper prefix comes first, and else the first byte that differs decides. */
  ghost predicate Precedes(a: Key, b: Key) {
    || (|a| < |b| && a == b[..|a|])
    || exists i :: 0 <= i < |a| && i < |b| && a[..i] == b[..i] && a[i] < b[i]
  }

  lemma {:induction false} CompareKeysBytes(a: Key, b: Key)
    ensures CompareKeys(a, b) < 0 <==> Precedes(a, b)
    decreases a
  {
    if a != [] && b != [] {
      PrecedesFront(a, b);
      if a[0] == b[0] { CompareKeysBytes(a[1..], b[1..]); }
    }
  }

  lemma PrecedesFront(a: Key, b: Key)
    requires a != [] && b != []
    ensures Precedes(a, b) <==> a[0] < b[0] || (a[0] == b[0] && Precedes(a[1..], b[1..]))
  {
    if a[0] == b[0] {
      if Precedes(a[1..], b[1..]) { PrecedesMore(a, b); }
      if Precedes(a, b) { PrecedesLess(a, b); }
    } else {
      assert a[..0] == b[..0];
      if i :| 0 <= i < |a| && i < |b| && a[..i] == b[..i] && a[i] < b[i] {
        if i > 0 { assert a[..i][0] == b[..i][0]; }
      }
    }
  }

  lemma PrecedesMore(a: Key, b: Key)
    requires a != [] && b != [] && a[0] == b[0] && Precedes(a[1..], b[1..])
    ensures Precedes(a, b)
  {
    var x, y := a[1..], b[1..];
    if |x| < |y| && x == y[..|x|] {
      assert a == [a[0]] + x && b[..|a|] == [b[0]] + y[..|x|];
    } else {
      var i :| 0 <= i < |x| && i < |y| && x[..i] == y[..i] && x[i] < y[i];
      assert a[..i + 1] == [a[0]] + x[..i] && b[..i + 1] == [b[0]] + y[..i];
      assert a[i + 1] < b[i + 1];
    }
  }

  lemma PrecedesLess(a: Key, b: Key)
    requires a != [] && b != [] && a[0] == b[0] && Precedes(a, b)
    ensures Precedes(a[1..], b[1..])
  {
    var x, y := a[1..], b[1..];
    if |a| < |b| && a == b[..|a|] {
      assert x == b[..|a|][1..] == y[..|x|];
    } else {
      var i :| 0 <= i < |a| && i < |b| && a[..i] == b[..i] && a[i] < b[i];
      assert x[..i - 1] == a[..i][1..] && y[..i - 1] == b[..i][1..];
      assert x[i - 1] < y[i - 1];
    }
  }

  function Compare(a: Id, b: Id): (c: int)
    ensures -1 <= c <= 1
    ensures c == 0 <==> a == b
  {
    if a.hash < b.hash then -1
    else if a.hash > b.hash then 1
    else CompareKeys(a.key, b.key)
  }

  predicate Less(a: Id, b: Id) {
    Compare(a, b) < 0
  }

  lemma {:induction false} CompareKeysOrder(a: Key, b: Key, c: Key)
    ensures CompareKeys(a, b) == -CompareKeys(b, a)
    ensures CompareKeys(a, b) <= 0 && CompareKeys(b, c) <= 0 ==> CompareKeys(a, c) <= 0
    ensures CompareKeys(a, b) < 0 && CompareKeys(b, c) <= 0 ==> CompareKeys(a, c) < 0
    ensures CompareKeys(a, b) <= 0 && CompareKeys(b, c) < 0 ==> CompareKeys(a, c) < 0
    decreases |a|
  {
    if a != [] && b != [] {
      CompareKeysOrder(a[1..], b[1..], if c == [] then [] else c[1..]);
    }
  }

  /** The order is total, antisymmetric and transitive. */
  lemma CompareOrder(a: Id, b: Id, c: Id)
    ensures Compare(a, b) == -Compare(b, a)
    ensures Less(a, b) && Compare(b, c) <= 0 ==> Less(a, c)
    ensures Compare(a, b) <= 0 && Less(b, c) ==> Less(a, c)
  {
    CompareKeysOrder(a.key, b.key, c.key);
  }

  ghost predicate Sorted(s: seq<Entry>) {
    forall i, j :: 0 <= i < j < |s| ==> Less(s[i].id, s[j].id)
  }

  /** Hashes ascend, and among entries of one hash the keys do, byte by byte. */
  lemma SortedBytes(s: seq<Entry>)
    ensures Sorted(s)
       <==> forall i, j :: 0 <= i < j < |s| ==>
              || s[i].id.hash < s[j].id.hash
              || (s[i].id.hash == s[j].id.hash && Precedes(s[i].id.key, s[j].id.key))
  {
    hide Precedes;
    forall i, j | 0 <= i < j < |s|
      ensures Less(s[i].id, s[j].id)
         <==> || s[i].id.hash < s[j].id.hash
              || (s[i].id.hash == s[j].id.hash && Precedes(s[i].id.key, s[j].id.key))
    {
      CompareKeysBytes(s[i].id.key, s[j].id.key);
    }
  }

  /** The run is in order as far as k can tell: what comes after an entry that is not smaller than k is greater. */
  ghost predicate Ordered(s: seq<Entry>, k: Id) {
    forall i, j :: 0 <= i < j < |s| && !Less(s[i].id, k) ==> Less(k, s[j].id)
  }

  /** A run is sorted exactly if it is in order for every key. */
  lemma SortedOrdered(s: seq<Entry>)
    ensures Sorted(s) <==> forall k :: Ordered(s, k)
  {
    forall k, i, j | Sorted(s) && 0 <= i < j < |s| && !Less(s[i].id, k) ensures Less(k, s[j].id) {
      CompareOrder(k, s[i].id, s[j].id);
    }
    if forall k :: Ordered(s, k) {
      forall i, j | 0 <= i < j < |s| ensures Less(s[i].id, s[j].id) {
        assert Ordered(s, s[j].id);
        CompareOrder(s[j].id, s[j].id, s[j].id);
      }
    }
  }

  ghost predicate HashSorted(s: seq<Entry>) {
    forall i, j :: 0 <= i < j < |s| ==> s[i].id.hash <= s[j].id.hash
  }

  ghost predicate AllBelow(s: seq<Entry>, k: Id) {
    forall i :: 0 <= i < |s| ==> Less(s[i].id, k)
  }

  ghost predicate AllAbove(s: seq<Entry>, k: Id) {
    forall i :: 0 <= i < |s| ==> Less(k, s[i].id)
  }

  // ----- runs cut in three

  lemma HashMiddle(a: seq<Entry>, x: seq<Entry>, b: seq<Entry>)
    requires HashSorted(a + x + b)
    ensures HashSorted(a) && HashSorted(x) && HashSorted(b)
    ensures forall i, j :: 0 <= i < |a| && 0 <= j < |x| ==> a[i].id.hash <= x[j].id.hash
    ensures forall i, j :: 0 <= i < |x| && 0 <= j < |b| ==> x[i].id.hash <= b[j].id.hash
  {
    var s := a + x + b;
    assert forall i :: 0 <= i < |a| ==> s[i] == a[i];
    assert forall i :: 0 <= i < |x| ==> s[|a| + i] == x[i];
    assert forall i :: 0 <= i < |b| ==> s[|a| + |x| + i] == b[i];
  }

  lemma OrderedMiddle(a: seq<Entry>, x: seq<Entry>, b: seq<Entry>, k: Id)
    requires Ordered(a + x + b, k)
    ensures Ordered(a, k) && Ordered(x, k) && Ordered(b, k)
    ensures forall i, j :: 0 <= i < |a| && 0 <= j < |x| && !Less(a[i].id, k) ==> Less(k, x[j].id)
    ensures forall i, j :: 0 <= i < |x| && 0 <= j < |b| && !Less(x[i].id, k) ==> Less(k, b[j].id)
  {
    var s := a + x + b;
    assert forall i :: 0 <= i < |a| ==> s[i] == a[i];
    assert forall i :: 0 <= i < |x| ==> s[|a| + i] == x[i];
    assert forall i :: 0 <= i < |b| ==> s[|a| + |x| + i] == b[i];
  }
}
