/** The 96-byte node record as its 24 words, with the packed generation/type and size/key-count words. */
module Nodes {
  import opened Bytes

  const NODE_SIZE: nat := 96
  const NODE_WORDS: nat := 24
  const NODE_ALIGNMENT: nat := 4
  const SLOTS: nat := 7

  const GEN_TYPE: nat := 0
  const HASHES: nat := 1
  const SIZE_KC: nat := 8
  const KV_OFS: nat := 9
  const CHILD_OFS: nat := 16

  const GEN_LIMIT := 0x100_0000
  const SIZE_LIMIT := 0x400_0000

  type Words = s: seq<U32> | |s| == NODE_WORDS witness BlankNode()

  function BlankNode(): (s: seq<U32>)
    ensures |s| == NODE_WORDS
    ensures forall i :: 0 <= i < NODE_WORDS ==> s[i] == 0
  {
    seq(NODE_WORDS, i => 0)
  }

  // ----- getters

  function Generation(w: Words): nat { w[GEN_TYPE] / 0x100 }

  function TypeCode(w: Words): Byte { w[GEN_TYPE] % 0x100 }

  function Size(w: Words): nat { w[SIZE_KC] / 0x40 }

  function KeyCount(w: Words): (n: nat)
    ensures n <= SLOTS
  {
    w[SIZE_KC] % 8
  }

  function HashAt(w: Words, i: nat): U32
    requires i < SLOTS
  {
    w[HASHES + i]
  }

  function KvAt(w: Words, i: nat): U32
    requires i < SLOTS
  {
    w[KV_OFS + i]
  }

  function ChildAt(w: Words, i: nat): U32
    requires i <= SLOTS
  {
    w[CHILD_OFS + i]
  }

  // ----- packed words; a generation keeps its low 24 bits, a size its low 26, a key count its low 3

  lemma GenTypeBytes(x: U32, a: Byte, b: Byte, c: Byte, d: Byte)
    requires x == a + 0x100 * b + 0x1_0000 * c + 0x100_0000 * d
    ensures x % 0x100 == a && x / 0x100 == b + 0x100 * c + 0x1_0000 * d
  {
  }

  lemma SizeKcBytes(x: U32, a: Byte, b: Byte, c: Byte, d: Byte)
    requires x == a + 0x100 * b + 0x1_0000 * c + 0x100_0000 * d
    ensures x % 8 == a % 8 && x / 0x40 == a / 0x40 + 4 * b + 0x400 * c + 0x4_0000 * d
  {
  }

  function GenTypeWord(gen: nat, typ: Byte): (x: U32)
    ensures x / 0x100 == gen % GEN_LIMIT && x % 0x100 == typ
  {
    gen % GEN_LIMIT * 0x100 + typ
  }

  function SizeKcWord(size: nat, kc: nat): (x: U32)
    ensures x / 0x40 == size % SIZE_LIMIT && x % 8 == kc % 8
  {
    size % SIZE_LIMIT * 0x40 + kc % 8
  }

  function WithSize(x: U32, size: nat): (y: U32)
    ensures y / 0x40 == size % SIZE_LIMIT && y % 0x40 == x % 0x40 && y % 8 == x % 8
  {
    var low: int, high: int := x % 0x40, size % SIZE_LIMIT;
    assert low % 8 == x % 8;
    low + high * 0x40
  }

  function WithKeyCount(x: U32, kc: nat): (y: U32)
    ensures y % 8 == kc % 8 && y / 0x40 == x / 0x40
  {
    var high: int := x / 8;
    high * 8 + kc % 8
  }

  // ----- one field written, the others as they were

  ghost predicate SameHashes(w: Words, w': Words) {
    forall j :: 0 <= j < SLOTS ==> HashAt(w', j) == HashAt(w, j)
  }

  ghost predicate SameKvs(w: Words, w': Words) {
    forall j :: 0 <= j < SLOTS ==> KvAt(w', j) == KvAt(w, j)
  }

  ghost predicate SameChildren(w: Words, w': Words) {
    forall j :: 0 <= j <= SLOTS ==> ChildAt(w', j) == ChildAt(w, j)
  }

  ghost predicate SameHeader(w: Words, w': Words) {
    w'[GEN_TYPE] == w[GEN_TYPE] && w'[SIZE_KC] == w[SIZE_KC]
  }

  ghost predicate SameSlots(w: Words, w': Words) {
    SameHashes(w, w') && SameKvs(w, w') && SameChildren(w, w')
  }

  ghost predicate HashPut(w: Words, i: nat, x: U32, w': Words) {
    && SameKvs(w, w') && SameChildren(w, w') && SameHeader(w, w')
    && forall j :: 0 <= j < SLOTS ==> HashAt(w', j) == if j == i then x else HashAt(w, j)
  }

  ghost predicate KvPut(w: Words, i: nat, x: U32, w': Words) {
    && SameHashes(w, w') && SameChildren(w, w') && SameHeader(w, w')
    && forall j :: 0 <= j < SLOTS ==> KvAt(w', j) == if j == i then x else KvAt(w, j)
  }

  ghost predicate ChildPut(w: Words, i: nat, x: U32, w': Words) {
    && SameHashes(w, w') && SameKvs(w, w') && SameHeader(w, w')
    && forall j :: 0 <= j <= SLOTS ==> ChildAt(w', j) == if j == i then x else ChildAt(w, j)
  }

  /** A separator and the child after it. */
  ghost predicate SlotPut(w: Words, i: nat, hash: U32, kv: U32, child: U32, w': Words) {
    && SameHeader(w, w')
    && (forall j :: 0 <= j < SLOTS ==> HashAt(w', j) == if j == i then hash else HashAt(w, j))
    && (forall j :: 0 <= j < SLOTS ==> KvAt(w', j) == if j == i then kv else KvAt(w, j))
    && (forall j :: 0 <= j <= SLOTS ==> ChildAt(w', j) == if j == i + 1 then child else ChildAt(w, j))
  }
}
