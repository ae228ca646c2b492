/** djb2, the hash that orders the keys of an object. */
module Hash {
  import opened Bytes

  /** A char added to a uint32_t; char is signed, as on the usual x86-64 targets. */
  function CharTerm(c: Byte): U32 {
    if c < 0x80 then c else U32_LIMIT - 0x100 + c
  }

  function Djb2From(h: U32, key: seq<Byte>): U32
    decreases key
  {
    if key == [] then h else Djb2From((h * 33 + CharTerm(key[0])) % U32_LIMIT, key[1..])
  }

  function Djb2(key: seq<Byte>): U32 {
    Djb2From(5381, key)
  }

  function Power(x: int, n: nat): int {
    if n == 0 then 1 else x * Power(x, n - 1)
  }

  /** A char is signed. */
  function SignedChar(c: Byte): int {
    if c < 128 then c else c - 256
  }

  /** The first n chars, each times the power of 33 that goes with the number of chars after it, added up. */
  function Terms(key: seq<Byte>, n: nat): int
    requires n <= |key|
  {
    if n == 0 then 0 else Terms(key, n - 1) + SignedChar(key[n - 1]) * Power(33, |key| - n)
  }

  /** The closed form: no loop, and no wrap-around but one. */
  lemma Djb2Closed(key: seq<Byte>)
    ensures Djb2(key) == (5381 * Power(33, |key|) + Terms(key, |key|)) % 0x1_0000_0000
  {
    Djb2FromClosed(5381, key);
  }

  lemma {:induction false} Djb2FromClosed(h: U32, key: seq<Byte>)
    ensures Djb2From(h, key) == (h * Power(33, |key|) + Terms(key, |key|)) % 0x1_0000_0000
    decreases key
  {
    if key == [] {
      assert h * 1 == h;
    } else {
      Djb2FromClosed((h * 33 + CharTerm(key[0])) % U32_LIMIT, key[1..]);
      FirstChar(h, key);
      hide Power, Terms;
      Carry(h * 33 + CharTerm(key[0]), h * 33 + SignedChar(key[0]), Power(33, |key| - 1), Terms(key[1..], |key| - 1));
    }
  }

  /** The first char goes with the highest power. */
  lemma FirstChar(h: int, key: seq<Byte>)
    requires key != []
    ensures h * Power(33, |key|) + Terms(key, |key|)
         == (h * 33 + SignedChar(key[0])) * Power(33, |key| - 1) + Terms(key[1..], |key| - 1)
  {
    hide Terms, SignedChar;
    TermsFront(key, |key|);
    Distribute(h, SignedChar(key[0]), Power(33, |key| - 1));
  }

  lemma {:induction false} TermsFront(key: seq<Byte>, n: nat)
    requires 0 < n <= |key|
    ensures Terms(key, n) == SignedChar(key[0]) * Power(33, |key| - 1) + Terms(key[1..], n - 1)
  {
    hide Power, SignedChar;
    if n > 1 { TermsFront(key, n - 1); }
  }

  lemma Distribute(h: int, c: int, p: int)
    ensures (h * 33 + c) * p == h * (33 * p) + c * p
  {
  }

  lemma Carry(x: int, y: int, p: int, s: int)
    requires (x - y) % U32_LIMIT == 0
    ensures (x % U32_LIMIT * p + s) % U32_LIMIT == (y * p + s) % U32_LIMIT
  {
    SameResidue(x % U32_LIMIT, x, p, s);
    SameResidue(x, y, p, s);
  }

  lemma SameResidue(x: int, y: int, p: int, s: int)
    requires (x - y) % U32_LIMIT == 0
    ensures (x * p + s) % U32_LIMIT == (y * p + s) % U32_LIMIT
  {
    var q := (x - y) / U32_LIMIT;
    assert x == y + q * U32_LIMIT;
    assert x * p + s == (y * p + s) + (q * p) * U32_LIMIT;
    Residue(y * p + s, q * p);
  }

  lemma Residue(x: int, q: int)
    ensures (x + q * U32_LIMIT) % U32_LIMIT == x % U32_LIMIT
  {
    var d, r := x / U32_LIMIT, x % U32_LIMIT;
    assert x + q * U32_LIMIT == (d + q) * U32_LIMIT + r;
  }

  method Djb2Hash(key: seq<Byte>) returns (hash: U32)
    ensures hash == Djb2(key) == (5381 * Power(33, |key|) + Terms(key, |key|)) % 0x1_0000_0000
  {
    Djb2Closed(key);
    hide Power, Terms;
    hash := 5381;
    var i := 0;
    while i < |key|
      invariant 0 <= i <= |key|
      invariant Djb2From(hash, key[i..]) == Djb2(key)
    {
      assert key[i..][1..] == key[i + 1..];
      // (hash << 5) + hash, both on 32 bits
      var shifted := hash * 32 % U32_LIMIT;
      ShiftAdd(hash, CharTerm(key[i]));
      hash := (shifted + hash + CharTerm(key[i])) % U32_LIMIT;
      i := i + 1;
    }
    assert key[|key|..] == [];
  }

  lemma ShiftAdd(h: U32, c: U32)
    ensures (h * 32 % U32_LIMIT + h + c) % U32_LIMIT == (h * 33 + c) % U32_LIMIT
  {
    var q, m := h * 32 / U32_LIMIT, h * 32 % U32_LIMIT;
    assert h * 33 + c == m + h + c + q * U32_LIMIT;
    Residue(m + h + c, q);
  }

  /** Different two-letter keys collide: "Ab" and "BA". */
  lemma TwoLetterCollision()
    ensures Djb2([0x41, 0x62]) == Djb2([0x42, 0x41])
  {
    hide Djb2From;
    TwoLetters(0x41, 0x62);
    TwoLetters(0x42, 0x41);
  }

  /** Two letters do not wrap around. */
  lemma TwoLetters(c: Byte, d: Byte)
    requires c < 0x80 && d < 0x80
    ensures Djb2From(5381, [c, d]) == (5381 * 33 + c) * 33 + d
  {
    assert Djb2From(5381, [c, d]) == Djb2From(5381 * 33 + c, [d]);
  }
}
