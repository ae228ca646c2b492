/** Bytes, 32-bit words and the in-place writes (memcpy, memset) of the buffer. */
module Bytes {

  type Byte = x: int | 0 <= x < 0x100
  type U32 = x: int | 0 <= x < 0x1_0000_0000

  const U32_LIMIT := 0x1_0000_0000

  /** A uint32_t as it lies in memory on a little-endian machine. */
  function Le32(x: U32): (s: seq<Byte>)
    ensures |s| == 4
    ensures FromLe32(s) == x
  {
    var x1: int := x / 0x100;
    var x2: int := x1 / 0x100;
    var x3: int := x2 / 0x100;
    [x % 0x100, x1 % 0x100, x2 % 0x100, x3]
  }

  function FromLe32(s: seq<Byte>): U32
    requires |s| == 4
  {
    var b0: int, b1: int, b2: int, b3: int := s[0], s[1], s[2], s[3];
    b0 + 0x100 * (b1 + 0x100 * (b2 + 0x100 * b3))
  }

  /** The four bytes from a on hold x, the lowest first. */
  ghost predicate LittleAt(d: seq<Byte>, a: nat, x: int) {
    && a + 4 <= |d|
    && var b0: int, b1: int, b2: int, b3: int := d[a], d[a + 1], d[a + 2], d[a + 3];
       x == b0 + 0x100 * b1 + 0x1_0000 * b2 + 0x100_0000 * b3
  }

  lemma WordLittle(d: seq<Byte>, a: nat)
    requires a + 4 <= |d|
    ensures LittleAt(d, a, FromLe32(d[a..a + 4]))
  {
  }

  /** `d` after the bytes `s` have been copied over it from index `at` on. */
  function Splice(d: seq<Byte>, at: nat, s: seq<Byte>): (r: seq<Byte>)
    requires at + |s| <= |d|
    ensures |r| == |d|
  {
    seq(|d|, i requires 0 <= i < |d| => if at <= i < at + |s| then s[i - at] else d[i])
  }

  lemma SpliceInto(d: seq<Byte>, at: nat, s: seq<Byte>)
    requires at + |s| <= |d|
    ensures Splice(d, at, s)[at..at + |s|] == s
  {
  }

  /** A copy leaves every stretch it does not touch as it was. */
  lemma SpliceOutside(d: seq<Byte>, at: nat, s: seq<Byte>, lo: nat, hi: nat)
    requires at + |s| <= |d|
    requires lo <= hi <= |d|
    requires hi <= at || at + |s| <= lo
    ensures Splice(d, at, s)[lo..hi] == d[lo..hi]
  {
    var r := Splice(d, at, s);
    assert forall i :: lo <= i < hi ==> r[i] == d[i];
    assert forall i :: 0 <= i < hi - lo ==> r[lo..hi][i] == r[lo + i] && d[lo..hi][i] == d[lo + i];
  }

  lemma SliceOfSlice(s: seq<Byte>, lo: nat, hi: nat, a: nat, b: nat)
    requires lo <= hi <= |s| && a <= b <= hi - lo
    ensures s[lo..hi][a..b] == s[lo + a..lo + b]
  {
    assert forall i :: 0 <= i < b - a ==> s[lo..hi][a..b][i] == s[lo + a..lo + b][i];
  }

  lemma SpliceWithin(d: seq<Byte>, o: nat, n: nat, at: nat, s: seq<Byte>)
    requires at + |s| <= n && o + n <= |d|
    ensures Splice(d, o + at, s)[o..o + n] == Splice(d[o..o + n], at, s)
  {
    var r, q := Splice(d, o + at, s)[o..o + n], Splice(d[o..o + n], at, s);
    forall i | 0 <= i < n ensures r[i] == q[i] {
      assert r[i] == Splice(d, o + at, s)[o + i];
    }
  }

  /** Two copies end to end are one copy. */
  lemma SpliceTwice(d: seq<Byte>, at: nat, a: seq<Byte>, b: seq<Byte>)
    requires at + |a| + |b| <= |d|
    ensures Splice(Splice(d, at, a), at + |a|, b) == Splice(d, at, a + b)
  {
    var r, q := Splice(Splice(d, at, a), at + |a|, b), Splice(d, at, a + b);
    forall i | 0 <= i < |d| ensures r[i] == q[i] {
      if at <= i < at + |a| {
        assert q[i] == (a + b)[i - at];
      }
    }
  }

  function Zeros(n: nat): (s: seq<Byte>)
    ensures |s| == n
    ensures forall i :: 0 <= i < n ==> s[i] == 0
  {
    seq(n, i => 0)
  }
}
