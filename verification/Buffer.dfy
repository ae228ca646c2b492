/** The growable byte array with its node views, and set_impl and get_impl over it. */
module Buffers {
  import opened Wrappers
  import opened Bytes
  import opened Records
  import opened Nodes
  import opened Layout
  import opened Order
  import opened Trees
  import opened Routes
  import opened Zipper
  import opened Lookups
  import opened Splits
  import opened Walk
  import opened Steps
  import opened Paths
  import opened Turns
  import opened Hash
  import opened Refinement
  import opened Trails
  import opened Spines
  import opened Courses
  import opened Forests
  import opened Nestings
  import opened Generations
  import opened Readings
  import opened Capacity

  const SPLIT_SLACK: nat := 128
  /** Bytes below 2^32 that a call needs so that every offset it stores fits in 32 bits. */
  const SET_MARGIN: nat := 1152

  class Buffer {
    var data: seq<Byte>
    var used: nat
    /** Which offsets hold a node and which a record. */
    ghost var nodes: NodeMap
    ghost var recs: RecMap
    /** Stretches of bytes that are in no node and no record. */
    ghost var spare: RawMap
    /** The objects and arrays, by the offset of their root node. */
    ghost var forest: Forest
    /** The sets and appends so far. */
    ghost var log: seq<Event>

    ghost predicate Valid()
      reads this
    {
      ValidRecs(recs) && Image(data, used, nodes, All(recs, spare))
    }

    /** Valid, and made up of whole trees that name each other. */
    ghost predicate Coherent()
      reads this
    {
      Valid() && Planted(nodes, recs, forest) && Linked(forest) && Anchored(forest, used) && Dated(nodes, forest, log)
    }

    constructor ()
      ensures Coherent() && data == [] && used == 0 && nodes == map[] && recs == map[] && forest == map[] && log == []
    {
      data, used, nodes, recs, spare, forest, log := [], 0, map[], map[], map[], map[], [];
    }

    // ----- capacity

    method EnsureCapacity(required: nat)
      requires Valid()
      modifies `data
      ensures Valid()
      ensures |data| == NewSize(old(|data|), used + required) && old(data) <= data
    {
      hide Holding;
      if used + required > |data| {
        var newSize := if 2 * |data| > used + required then 2 * |data| else used + required;
        if newSize < MIN_CAPACITY { newSize := MIN_CAPACITY; }
        GrowImage(data, used, nodes, All(recs, spare), newSize - |data|);
        data := data + Zeros(newSize - |data|);
      }
    }

    // ----- node views

    function Word(o: nat, k: nat): (x: U32)
      requires Valid() && o in nodes && k < NODE_WORDS
      reads this
      ensures x == nodes[o][k]
    {
      WordAt(data, o + 4 * k)
    }

    method PutWord(o: nat, k: nat, x: U32)
      requires Valid() && o in nodes && k < NODE_WORDS
      modifies `data, `nodes
      ensures Valid() && nodes == old(nodes)[o := old(nodes[o])[k := x]] && |data| == old(|data|)
    {
      PutWordImage(data, used, nodes, All(recs, spare), o, k, x);
      data := Splice(data, o + 4 * k, Le32(x));
      nodes := nodes[o := nodes[o][k := x]];
    }

    lemma NodeRange(o: nat)
      requires Valid() && o in nodes
      ensures o + NODE_SIZE <= used <= |data|
    {
    }

    function GetGeneration(o: nat): (n: nat)
      requires Valid() && o in nodes
      reads this
      ensures n == Generation(nodes[o])
    {
      Word(o, GEN_TYPE) / 0x100
    }

    function GetType(o: nat): (c: Byte)
      requires Valid() && o in nodes
      reads this
      ensures c == TypeCode(nodes[o])
    {
      Word(o, GEN_TYPE) % 0x100
    }

    function GetSize(o: nat): (n: nat)
      requires Valid() && o in nodes
      reads this
      ensures n == Size(nodes[o])
    {
      Word(o, SIZE_KC) / 0x40
    }

    function GetKeyCount(o: nat): (n: nat)
      requires Valid() && o in nodes
      reads this
      ensures n == KeyCount(nodes[o])
    {
      Word(o, SIZE_KC) % 8
    }

    function GetHash(o: nat, i: nat): (x: U32)
      requires Valid() && o in nodes && i < SLOTS
      reads this
      ensures x == HashAt(nodes[o], i)
    {
      Word(o, HASHES + i)
    }

    function GetKv(o: nat, i: nat): (x: U32)
      requires Valid() && o in nodes && i < SLOTS
      reads this
      ensures x == KvAt(nodes[o], i)
    {
      Word(o, KV_OFS + i)
    }

    function GetChild(o: nat, i: nat): (x: U32)
      requires Valid() && o in nodes && i <= SLOTS
      reads this
      ensures x == ChildAt(nodes[o], i)
    {
      Word(o, CHILD_OFS + i)
    }

    method SetGenType(o: nat, gen: nat, typ: Byte)
      requires Valid() && o in nodes
      modifies `data, `nodes
      ensures Valid() && |data| == old(|data|)
      ensures o in nodes && nodes == old(nodes)[o := nodes[o]] && SameSlots(old(nodes[o]), nodes[o])
      ensures nodes[o][GEN_TYPE] == GenTypeWord(gen, typ) && nodes[o][SIZE_KC] == old(nodes[o][SIZE_KC])
    {
      PutWord(o, GEN_TYPE, GenTypeWord(gen, typ));
    }

    method SetSize(o: nat, size: nat)
      requires Valid() && o in nodes
      modifies `data, `nodes
      ensures Valid() && |data| == old(|data|)
      ensures o in nodes && nodes == old(nodes)[o := nodes[o]] && SameSlots(old(nodes[o]), nodes[o])
      ensures nodes[o][SIZE_KC] == WithSize(old(nodes[o][SIZE_KC]), size)
              && nodes[o][GEN_TYPE] == old(nodes[o][GEN_TYPE])
    {
      PutWord(o, SIZE_KC, WithSize(Word(o, SIZE_KC), size));
    }

    method SetSizeKc(o: nat, size: nat, kc: nat)
      requires Valid() && o in nodes
      modifies `data, `nodes
      ensures Valid() && |data| == old(|data|)
      ensures o in nodes && nodes == old(nodes)[o := nodes[o]] && SameSlots(old(nodes[o]), nodes[o])
      ensures nodes[o][SIZE_KC] == SizeKcWord(size, kc) && nodes[o][GEN_TYPE] == old(nodes[o][GEN_TYPE])
    {
      PutWord(o, SIZE_KC, SizeKcWord(size, kc));
    }

    method SetKeyCount(o: nat, kc: nat)
      requires Valid() && o in nodes
      modifies `data, `nodes
      ensures Valid() && |data| == old(|data|)
      ensures o in nodes && nodes == old(nodes)[o := old(nodes[o])[SIZE_KC := WithKeyCount(old(nodes[o][SIZE_KC]), kc)]]
      ensures SameSlots(old(nodes[o]), nodes[o]) && nodes[o][GEN_TYPE] == old(nodes[o][GEN_TYPE])
    {
      PutWord(o, SIZE_KC, WithKeyCount(Word(o, SIZE_KC), kc));
    }

    method SetHash(o: nat, i: nat, x: U32)
      requires Valid() && o in nodes && i < SLOTS
      modifies `data, `nodes
      ensures Valid() && |data| == old(|data|)
      ensures o in nodes && nodes == old(nodes)[o := nodes[o]] && HashPut(old(nodes[o]), i, x, nodes[o])
    {
      PutWord(o, HASHES + i, x);
    }

    method SetKv(o: nat, i: nat, x: U32)
      requires Valid() && o in nodes && i < SLOTS
      modifies `data, `nodes
      ensures Valid() && |data| == old(|data|)
      ensures o in nodes && nodes == old(nodes)[o := nodes[o]] && KvPut(old(nodes[o]), i, x, nodes[o])
    {
      PutWord(o, KV_OFS + i, x);
    }

    method SetChild(o: nat, i: nat, x: U32)
      requires Valid() && o in nodes && i <= SLOTS
      modifies `data, `nodes
      ensures Valid() && |data| == old(|data|)
      ensures o in nodes && nodes == old(nodes)[o := nodes[o]] && ChildPut(old(nodes[o]), i, x, nodes[o])
    {
      PutWord(o, CHILD_OFS + i, x);
    }

    /** One separator with the child to its right. */
    method PutSlot(o: nat, i: nat, hash: U32, kv: U32, child: U32)
      requires Valid() && o in nodes && i < SLOTS
      modifies `data, `nodes
      ensures Valid() && |data| == old(|data|)
      ensures o in nodes && nodes == old(nodes)[o := nodes[o]] && SlotPut(old(nodes[o]), i, hash, kv, child, nodes[o])
    {
      hide Holding;
      SetHash(o, i, hash);
      SetKv(o, i, kv);
      SetChild(o, i + 1, child);
    }

    /** memset of a node that is there. */
    method ZeroNode(o: nat)
      requires Valid() && o in nodes
      modifies `data, `nodes
      ensures Valid() && |data| == old(|data|)
      ensures nodes == old(nodes)[o := BlankNode()]
    {
      ZeroWords();
      PutNodeImage(data, used, nodes, All(recs, spare), o, Zeros(NODE_SIZE), BlankNode());
      data := Splice(data, o, Zeros(NODE_SIZE));
      nodes := nodes[o := BlankNode()];
    }

    /** The next node of the arena, filled with the bytes of another node or with zeros. */
    method AllocNode(from: Option<nat>) returns (o: nat)
      requires Valid() && used + NODE_SIZE <= |data|
      requires from.Some? ==> from.value in nodes
      modifies `data, `nodes, `used
      ensures Valid() && |data| == old(|data|)
      ensures o == old(used) && used == o + NODE_SIZE && o !in old(nodes)
      ensures nodes == old(nodes)[o := if from.Some? then old(nodes[from.value]) else BlankNode()]
    {
      o := used;
      SkipImage(data, used, used + NODE_SIZE, nodes, All(recs, spare));
      used := used + NODE_SIZE;
      var bytes := Zeros(NODE_SIZE);
      ghost var w: Words := BlankNode();
      ZeroWords();
      if from.Some? {
        NodeWords(data, nodes, from.value);
        bytes := data[from.value..from.value + NODE_SIZE];
        w := nodes[from.value];
      }
      PutNodeImage(data, used, nodes, All(recs, spare), o, bytes, w);
      data := Splice(data, o, bytes);
      nodes := nodes[o := w];
    }

    // ----- records

    /** [tag][key][0] */
    method WriteKey(at: nat, key: Key)
      requires at + |key| + 2 <= |data|
      modifies `data
      ensures data == Splice(old(data), at, EncodeKey(key))
    {
      SpliceTwice(data, at, [KeyTag(|key|)], key);
      SpliceTwice(data, at, [KeyTag(|key|)] + key, [0]);
      data := Splice(data, at, [KeyTag(|key|)]);
      data := Splice(data, at + 1, key);
      data := Splice(data, at + 1 + |key|, [0]);
    }

    /** [type][size][payload][0], the last two parts as the type has them. */
    method WriteValue(at: nat, v: Value)
      requires ValidValue(v) && at + ValLen(v) <= |data|
      modifies `data
      ensures data == Splice(old(data), at, EncodeVal(v))
    {
      var vstart := at + 1;
      data := Splice(data, at, [Code(v.typ)]);
      if Sized(v.typ) {
        SpliceTwice(old(data), at, [Code(v.typ)], Le32(|v.payload|));
        data := Splice(data, vstart, Le32(|v.payload|));
        vstart := vstart + 4;
        SpliceTwice(old(data), at, [Code(v.typ)] + Le32(|v.payload|), v.payload);
        data := Splice(data, vstart, v.payload);
        if v.typ == String {
          SpliceTwice(old(data), at, [Code(v.typ)] + Le32(|v.payload|) + v.payload, [0]);
          data := Splice(data, vstart + |v.payload|, [0]);
          assert EncodeVal(v) == [Code(v.typ)] + Le32(|v.payload|) + v.payload + [0];
        } else {
          assert EncodeVal(v) == [Code(v.typ)] + Le32(|v.payload|) + v.payload;
        }
      } else {
        SpliceTwice(old(data), at, [Code(v.typ)], v.payload);
        data := Splice(data, vstart, v.payload);
        assert EncodeVal(v) == [Code(v.typ)] + v.payload;
      }
    }

    method WriteRecord(at: nat, keyed: bool, key: Key, v: Value)
      requires ValidRec(Rec(keyed, key, v)) && at + RecLen(Rec(keyed, key, v)) <= |data|
      modifies `data
      ensures data == Splice(old(data), at, EncodeRec(Rec(keyed, key, v))) && RecAt(data, at, Rec(keyed, key, v))
    {
      hide RecAt;
      SpliceInto(data, at, EncodeRec(Rec(keyed, key, v)));
      EncodedRec(Splice(data, at, EncodeRec(Rec(keyed, key, v))), at, Rec(keyed, key, v));
      if keyed {
        SpliceTwice(data, at, EncodeKey(key), EncodeVal(v));
        WriteKey(at, key);
        WriteValue(at + |key| + 2, v);
      } else {
        assert EncodeRec(Rec(keyed, key, v)) == EncodeVal(v);
        WriteValue(at, v);
      }
    }

    /** Appends a record at the end of the used part. */
    method AppendRecord(keyed: bool, key: Key, v: Value) returns (start: nat)
      requires Valid() && ValidRec(Rec(keyed, key, v))
      modifies `data, `used, `recs
      ensures Valid() && start == old(used) && used == start + RecLen(Rec(keyed, key, v))
      ensures |data| == NewSize(old(|data|), used)
      ensures recs == old(recs)[start := Rec(keyed, key, v)]
    {
      hide Holding;
      var klen := if keyed then |key| + 2 else 0;
      EnsureCapacity(klen + ValLen(v));
      start := used;
      AppendRecImage(data, used, nodes, recs, spare, Rec(keyed, key, v));
      WriteRecord(start, keyed, key, v);
      used := used + klen + ValLen(v);
      recs := recs[start := Rec(keyed, key, v)];
    }

    /** Overwrites the value of the record at o by one of the same length. */
    method OverwriteValue(o: nat, keyed: bool, v: Value)
      requires Valid() && o in recs && keyed == recs[o].keyed && ValidValue(v) && ValLen(v) == ValLen(recs[o].val)
      modifies `data, `recs
      ensures Valid() && |data| == old(|data|)
      ensures recs == old(recs)[o := old(recs[o]).(val := v)]
    {
      hide All, ValidRecs, Holding;
      var at := ValueStart(o, keyed);
      PatchRecImage(data, used, nodes, recs, spare, o, v);
      WriteValue(at, v);
      recs := recs[o := recs[o].(val := v)];
    }

    lemma UnwatchedEnd()
      requires Valid()
      ensures used !in spare
    {
      assert used !in All(recs, spare);
    }

    lemma RecordBytes(o: nat)
      requires Valid() && o in recs
      ensures ValidRec(recs[o]) && o + RecLen(recs[o]) <= used <= |data|
      ensures data[o..o + RecLen(recs[o])] == EncodeRec(recs[o])
    {
      hide Holding;
      RecRange(data, used, nodes, recs, spare, o);
    }

    /** Every byte of every record. */
    lemma RecordLayout(o: nat)
      requires Valid() && o in recs
      ensures RecAt(data, o, recs[o])
    {
      hide Holding, RecAt;
      RecordBytes(o);
      EncodedRec(data, o, recs[o]);
    }

    /** Where in its 96 bytes a node has what. */
    lemma NodeLayout(o: nat)
      requires Valid() && o in nodes
      ensures o + 96 <= |data|
      ensures TypeCode(nodes[o]) == data[o]
      ensures var a: int, b: int, c: int := data[o + 1], data[o + 2], data[o + 3];
              Generation(nodes[o]) == a + 0x100 * b + 0x1_0000 * c
      ensures forall i :: 0 <= i < 7 ==> LittleAt(data, o + 4 + 4 * i, HashAt(nodes[o], i))
      ensures KeyCount(nodes[o]) == data[o + 32] % 8
      ensures var a: int, b: int, c: int, d: int := data[o + 32], data[o + 33], data[o + 34], data[o + 35];
              Size(nodes[o]) == a / 0x40 + 4 * b + 0x400 * c + 0x4_0000 * d
      ensures forall i :: 0 <= i < 7 ==> LittleAt(data, o + 36 + 4 * i, KvAt(nodes[o], i))
      ensures forall i :: 0 <= i < 8 ==> LittleAt(data, o + 64 + 4 * i, ChildAt(nodes[o], i))
    {
      NodeRange(o);
      WordPlaces(o);
      hide Valid, Holding;
      GenTypeBytes(nodes[o][GEN_TYPE], data[o], data[o + 1], data[o + 2], data[o + 3]);
      SizeKcBytes(nodes[o][SIZE_KC], data[o + 32], data[o + 33], data[o + 34], data[o + 35]);
    }

    /** Word k lies at 4 * k. */
    lemma WordPlaces(o: nat)
      requires Valid() && o in nodes
      ensures o + 4 * NODE_WORDS <= |data|
      ensures forall k :: 0 <= k < NODE_WORDS ==> LittleAt(data, o + 4 * k, nodes[o][k])
    {
      NodeRange(o);
      forall k | 0 <= k < NODE_WORDS ensures LittleAt(data, o + 4 * k, nodes[o][k]) {
        assert WordAt(data, o + 4 * k) == nodes[o][k];
        WordLittle(data, o + 4 * k);
      }
    }

    /** Start of the value in the record at o: the tag says how much key to skip. */
    function ValueStart(o: nat, keyed: bool): (vo: nat)
      requires Valid() && o in recs && keyed == recs[o].keyed
      reads this
      ensures vo == o + KeyLen(recs[o])
    {
      RecordBytes(o);
      RecParts(data, o, recs[o]);
      if keyed then o + 1 + TagLen(data[o]) else o
    }

    // ----- splits

    /** Room for the nodes of a split at the next aligned offset. */
    method PrepareSplit(space: nat)
      requires Valid()
      modifies `data, `used, `spare
      ensures Valid() && used == AlignUp(old(used)) && used + space <= |data|
      ensures |data| == NewSize(old(|data|), used + space + 128)
      ensures old(used) !in old(spare) && spare == Padding(old(spare), old(used), used)
    {
      hide All, ValidRecs, Holding;
      var next := AlignUp(used);
      EnsureCapacity(space + (next - used) + SPLIT_SLACK);
      PadImage(data, used, next, nodes, recs, spare);
      spare := Padding(spare, used, next);
      used := next;
    }

    /** A full root keeps its offset: its contents move out and become its only child. */
    method SplitRoot(ofs: nat) returns (moved: nat)
      requires Valid() && ofs in nodes && used + 2 * NODE_SIZE < U32_LIMIT
      modifies `data, `used, `nodes, `spare
      ensures old(used) !in old(spare) && spare == Padding(old(spare), old(used), AlignUp(old(used)))
      ensures Valid() && moved == AlignUp(old(used)) && used == moved + NODE_SIZE && moved !in old(nodes) && moved > 0
      ensures |data| == NewSize(old(|data|), moved + 2 * 96 + 128)
      ensures ofs in nodes && nodes == old(nodes)[moved := old(nodes[ofs])][ofs := nodes[ofs]]
      ensures FreshRootWords(nodes[ofs], moved) && Generation(nodes[ofs]) == 1 && OneChild(nodes[ofs])
      ensures TypeCode(nodes[ofs]) == old(TypeCode(nodes[ofs])) && Size(nodes[ofs]) == old(Size(nodes[ofs]))
    {
      NodeRange(ofs);
      hide Holding;
      PrepareSplit(2 * NODE_SIZE);
      moved := AllocNode(Some(ofs));
      ResetRoot(ofs, moved);
    }

    method ResetRoot(ofs: nat, moved: nat)
      requires Valid() && ofs in nodes && moved in nodes && moved != ofs && 0 < moved < U32_LIMIT
      modifies `data, `nodes
      ensures Valid() && |data| == old(|data|)
      ensures ofs in nodes && nodes == old(nodes)[ofs := nodes[ofs]]
      ensures FreshRootWords(nodes[ofs], moved) && Generation(nodes[ofs]) == 1 && OneChild(nodes[ofs])
      ensures TypeCode(nodes[ofs]) == old(TypeCode(nodes[ofs])) && Size(nodes[ofs]) == old(Size(nodes[moved]))
    {
      hide Holding;
      var rootType := GetType(ofs);
      ZeroNode(ofs);
      SetGenType(ofs, 1, rootType);
      SetKeyCount(ofs, 0);
      SetChild(ofs, 0, moved);
      SetSizeKc(ofs, GetSize(moved), 0);
    }

    /** Moves the entries and children above the median into the empty sibling. */
    method FillSibling(node: nat, sib: nat)
      requires Valid() && node in nodes && sib in nodes && node != sib
      requires nodes[sib] == BlankNode()
      modifies `data, `nodes
      ensures Valid() && |data| == old(|data|)
      ensures sib in nodes && nodes == old(nodes)[sib := nodes[sib]] && HighWords(nodes[node], nodes[sib])
    {
      hide Holding;
      SetGenType(sib, GetGeneration(node), GetType(node));
      var moveCount := MoveUpper(node, sib);
      SetSizeKc(sib, 0, moveCount);
    }

    method MoveUpper(node: nat, sib: nat) returns (moveCount: nat)
      requires Valid() && node in nodes && sib in nodes && node != sib
      requires forall j :: 0 <= j <= SLOTS ==> ChildAt(nodes[sib], j) == 0
      modifies `data, `nodes
      ensures Valid() && |data| == old(|data|)
      ensures moveCount == SLOTS - KEYS_MIN - 1
      ensures sib in nodes && nodes[sib][GEN_TYPE] == old(nodes[sib][GEN_TYPE])
      ensures sib in nodes && nodes == old(nodes)[sib := nodes[sib]] && UpperMoved(nodes[node], nodes[sib], moveCount)
    {
      hide Holding;
      var mid := KEYS_MIN;
      moveCount := SLOTS - (mid + 1);
      SetChild(sib, 0, GetChild(node, mid + 1));
      ghost var w := nodes[node];
      var j := 0;
      while j < moveCount
        invariant 0 <= j <= moveCount && Valid() && |data| == old(|data|)
        invariant sib in nodes && nodes == old(nodes)[sib := nodes[sib]]
        invariant UpperMoved(w, nodes[sib], j) && nodes[sib][GEN_TYPE] == old(nodes[sib][GEN_TYPE])
      {
        PutSlot(sib, j, GetHash(node, mid + 1 + j), GetKv(node, mid + 1 + j), GetChild(node, mid + 2 + j));
        j := j + 1;
      }
    }

    /** Moves the slots from i on up by one. */
    method ShiftSlots(o: nat, i: nat)
      requires Valid() && o in nodes && i <= KeyCount(nodes[o]) < SLOTS
      modifies `data, `nodes
      ensures Valid() && |data| == old(|data|)
      ensures o in nodes && nodes == old(nodes)[o := nodes[o]] && Shifted(old(nodes[o]), i, i, nodes[o])
    {
      hide Holding;
      ghost var p := nodes[o];
      var j := GetKeyCount(o);
      while j > i
        invariant i <= j <= KeyCount(p) && Valid() && |data| == old(|data|)
        invariant o in nodes && nodes == old(nodes)[o := nodes[o]]
        invariant Shifted(p, i, j, nodes[o])
      {
        PutSlot(o, j, GetHash(o, j - 1), GetKv(o, j - 1), GetChild(o, j));
        j := j - 1;
      }
    }

    /** Shifts the parent's slots from i on and puts the median of the node and the sibling there. */
    method InsertMedian(parent: nat, i: nat, node: nat, sib: nat)
      requires Valid() && parent in nodes && node in nodes && parent != node && 0 < sib < U32_LIMIT
      requires i <= KeyCount(nodes[parent]) < SLOTS
      modifies `data, `nodes
      ensures Valid() && |data| == old(|data|)
      ensures parent in nodes && nodes == old(nodes)[parent := nodes[parent]]
      ensures ParentWords(old(nodes[parent]), old(nodes[node]), sib, i, nodes[parent])
      ensures nodes[parent][GEN_TYPE] == old(nodes[parent][GEN_TYPE])
      ensures Size(nodes[parent]) == old(Size(nodes[parent]))
    {
      hide Holding;
      ShiftSlots(parent, i);
      PutSlot(parent, i, GetHash(node, KEYS_MIN), GetKv(node, KEYS_MIN), sib);
      SetSizeKc(parent, GetSize(parent), GetKeyCount(parent) + 1);
    }

    lemma KeyBytes(o: nat)
      requires Valid() && o in recs && recs[o].keyed
      ensures o + 1 + |recs[o].key| <= |data| && TagLen(data[o]) == |recs[o].key| + 1
      ensures data[o + 1..o + 1 + |recs[o].key|] == recs[o].key
    {
      hide Holding, EncodeRec, ValLen, ValidValue, ValidRecs, All;
      RecordBytes(o);
      RecParts(data, o, recs[o]);
    }

    /** The key in the record at o, without its terminator. */
    function ExistingKey(o: nat): (key: Key)
      requires Valid() && o in recs && recs[o].keyed
      reads this
      ensures key == recs[o].key
    {
      KeyBytes(o);
      data[o + 1..o + 1 + (TagLen(data[o]) - 1)]
    }

    /** compare_node_key: hash first, then in objects the key. */
    function CompareNodeKey(o: nat, i: nat, k: Id, isArr: bool, ghost e: Entry): (c: int)
      requires Valid() && o in nodes && i < SLOTS
      requires HashAt(nodes[o], i) == e.id.hash && KvAt(nodes[o], i) == e.kv && Backed(recs, isArr, e)
      requires isArr ==> k.key == []
      reads this
      ensures c == Compare(e.id, k)
    {
      var nh := GetHash(o, i);
      if nh < k.hash then -1
      else if nh > k.hash then 1
      else if isArr then
        assert recs[e.kv].key == [] by { RecordBytes(e.kv); }
        0
      else CompareKeys(ExistingKey(GetKv(o, i)), k.key)
    }

    /** The node at o holds the entries es, and their records are there. */
    ghost predicate Lists(o: nat, es: seq<Entry>, isArr: bool)
      reads this
    {
      Valid() && o in nodes && HoldsEntries(nodes[o], es) && AllBacked(recs, isArr, es)
    }

    function SlotCount(o: nat, ghost es: seq<Entry>, ghost isArr: bool): (n: nat)
      requires Lists(o, es, isArr)
      reads this
      ensures n == |es|
    {
      GetKeyCount(o)
    }

    function CompareSlot(o: nat, i: nat, k: Id, isArr: bool, ghost es: seq<Entry>): (c: int)
      requires Lists(o, es, isArr) && i < |es| && (isArr ==> k.key == [])
      reads this
      ensures c == Compare(es[i].id, k)
    {
      CompareNodeKey(o, i, k, isArr, es[i])
    }

    /** The linear search of one node. */
    method FindSlot(o: nat, k: Id, isArr: bool, ghost es: seq<Entry>) returns (i: nat, hit: bool)
      requires Lists(o, es, isArr) && (isArr ==> k.key == [])
      ensures i == Search(es, k)
      ensures hit <==> i < |es| && es[i].id == k
    {
      hide Lists, CompareSlot, SlotCount, Compare, Search;
      i := 0;
      var count := SlotCount(o, es, isArr);
      while i < count && CompareSlot(o, i, k, isArr, es) < 0
        invariant 0 <= i <= count && forall j :: 0 <= j < i ==> Less(es[j].id, k)
      {
        i := i + 1;
      }
      SearchIs(es, k, i);
      hit := i < count && CompareSlot(o, i, k, isArr, es) == 0;
    }

    /** The three nodes of a split, given the node's place among the parent's children. */
    method SplitNodes(node: nat, parent: nat, i: nat) returns (sib: nat)
      requires Valid() && node in nodes && parent in nodes && node != parent
      requires used + NODE_SIZE <= |data| && 0 < used < U32_LIMIT
      requires i <= KeyCount(nodes[parent]) < SLOTS
      modifies `data, `used, `nodes
      ensures Valid() && sib == old(used) && used == sib + NODE_SIZE && sib !in old(nodes) && |data| == old(|data|)
      ensures nodes.Keys == old(nodes.Keys) + {sib}
      ensures forall o :: o in old(nodes) && o != node && o != parent ==> nodes[o] == old(nodes)[o]
      ensures LowWords(old(nodes[node]), nodes[node]) && HighWords(old(nodes[node]), nodes[sib])
      ensures ParentWords(old(nodes[parent]), old(nodes[node]), sib, i, nodes[parent])
      ensures nodes[parent][GEN_TYPE] == old(nodes[parent][GEN_TYPE])
      ensures Size(nodes[parent]) == old(Size(nodes[parent]))
    {
      hide Holding, HighWords, ParentWords, WithKeyCount, Size;
      sib := AllocNode(None);
      FillSibling(node, sib);
      InsertMedian(parent, i, node, sib);
      SetKeyCount(node, KEYS_MIN);
    }

    /** Splits a full node that is not the root, next to its parent. */
    method SplitChild(node: nat, parent: nat, ghost s: State) returns (i: nat, sib: nat)
      requires Valid() && s.nodes == nodes && s.used == used && node == s.tree.ofs
      requires Held(nodes, s.ctx, s.tree) && Splittable(s.ctx, s.tree) && parent == s.ctx.ofs
      requires used + 2 * NODE_SIZE < U32_LIMIT
      modifies `data, `used, `nodes, `spare
      ensures old(used) !in old(spare) && spare == Padding(old(spare), old(used), AlignUp(old(used)))
      ensures Valid() && sib == AlignUp(old(used)) && used == sib + NODE_SIZE && SplitDone(s, nodes, sib)
      ensures |data| == NewSize(old(|data|), sib + 96 + 128)
      ensures i == |s.ctx.ls| && parent in nodes && i < SLOTS && HashAt(nodes[parent], i) == s.tree.es[KEYS_MIN].id.hash
    {
      ghost var c, t, n := s.ctx, s.tree, nodes;
      NodeRange(node);
      ChildOnce(nodes, c, t);
      NotSelf(nodes, c, t);
      hide Holding, LowWords, HighWords, ParentWords, Held, SplitDone;
      PrepareSplit(NODE_SIZE);
      i := FindChild(parent, node, c, t);
      sib := SplitNodes(node, parent, i);
      SplitFinish(s, sib, nodes);
    }

    /** Which child of the parent the node is. */
    method FindChild(parent: nat, node: nat, ghost c: Ctx, ghost t: Tree) returns (i: nat)
      requires Valid() && Held(nodes, c, t) && c.Down? && FormedC(c) && node == t.ofs && parent == c.ofs
      ensures i == |c.ls|
    {
      hide Holding;
      ChildOnce(nodes, c, t);
      i := 0;
      while i <= GetKeyCount(parent) && GetChild(parent, i) != node
        invariant i <= |c.ls|
      {
        i := i + 1;
      }
    }

    // ----- set_impl

    method BumpGeneration(node: nat)
      requires Valid() && node in nodes
      modifies `data, `nodes
      ensures Valid() && node in nodes && nodes == old(nodes)[node := nodes[node]]
      ensures Bumped(old(nodes[node]), nodes[node])
    {
      hide Holding;
      SetGenType(node, GetGeneration(node) + 1, GetType(node));
    }

    /** Length of the value that a record holds, from its type byte and size field. */
    function ExistingLen(o: nat, keyed: bool): (n: nat)
      requires Valid() && o in recs && keyed == recs[o].keyed
      reads this
      ensures n == ValLen(recs[o].val)
    {
      hide Holding, StoredLen, ValLen, KeyLen, Code;
      LenBytes(o);
      StoredLen(data, ValueStart(o, keyed))
    }

    lemma LenBytes(o: nat)
      requires Valid() && o in recs
      ensures var vo := o + KeyLen(recs[o]);
              && vo < |data| && (data[vo] == Code(String) || data[vo] == Code(Type.Bytes) ==> vo + 5 <= |data|)
              && StoredLen(data, vo) == ValLen(recs[o].val)
    {
      hide Holding, EncodeVal, StoredLen, KeyLen, ValidValue, ValidRecs, All, Code;
      ValueSlice(o);
      StoredLenExact(data, o + KeyLen(recs[o]), recs[o].val);
    }

    /** The bytes of the value in the record at o. */
    lemma ValueSlice(o: nat)
      requires Valid() && o in recs
      ensures var vo, v := o + KeyLen(recs[o]), recs[o].val;
              ValidValue(v) && vo + ValLen(v) <= |data| && data[vo..vo + ValLen(v)] == EncodeVal(v)
    {
      hide Holding, EncodeRec, EncodeVal;
      RecordBytes(o);
      RecParts(data, o, recs[o]);
    }

    /** Overwrites the value of an entry by one of the same length. */
    method PatchEntry(kv: nat, v: Value, isArr: bool,
                      ghost a: Call, ghost h0: nat, ghost s: State, ghost i: nat) returns (r: nat, ghost out: Outcome)
      requires Valid() && s.nodes == nodes
      requires Owned(a.nodes, recs, isArr, a.tree, h0) && Turn(a, s, true) && !Full(s.tree)
      requires i == Search(s.tree.es, a.id) && i < |s.tree.es| && s.tree.es[i].id == a.id && s.tree.es[i].kv == kv
      requires Backed(recs, isArr, s.tree.es[i]) && ValidValue(v) && ValLen(v) == ValLen(s.tree.es[i].val)
      modifies `data, `recs
      ensures Valid() && out.nodes == nodes && out.recs == recs
      ensures Achieved(a, old(recs), isArr, v, out) && out.tree == Plug(s.ctx, Updated(s.tree, i, out.entry))
      ensures out.height == s.height + Depth(s.ctx)
      ensures r == out.entry.kv + KeyLen(Rec(!isArr, a.id.key, v)) && out.entry.kv == kv
    {
      ghost var e := Entry(a.id, v, kv);
      hide All, ValidRecs, Holding, Turn, Owned, Achieved;
      PatchOutcome(a, h0, s, recs, isArr, e);
      r := ValueStart(kv, !isArr);
      OverwriteValue(kv, !isArr, v);
      out := Outcome(nodes, recs, Plug(s.ctx, Updated(s.tree, i, e)), s.height + Depth(s.ctx), e);
    }

    /** Writes a new record for an entry and points the entry to it. */
    method RelinkEntry(node: nat, i: nat, key: Key, v: Value, isArr: bool,
                       ghost a: Call, ghost h0: nat, ghost s: State) returns (r: nat, ghost out: Outcome)
      requires Valid() && s.nodes == nodes && s.used == used && node == s.tree.ofs
      requires Owned(a.nodes, recs, isArr, a.tree, h0) && Turn(a, s, true) && !Full(s.tree)
      requires a.id.key == key && ValidRec(Rec(!isArr, key, v)) && used < U32_LIMIT
      requires i == Search(s.tree.es, a.id) && i < |s.tree.es| && s.tree.es[i].id == a.id
      requires ValLen(v) != ValLen(s.tree.es[i].val) && Route(a.tree, a.id).found
      modifies `data, `used, `nodes, `recs
      ensures Valid() && out.nodes == nodes && out.recs == recs
      ensures Achieved(a, old(recs), isArr, v, out) && out.tree == Plug(s.ctx, Updated(s.tree, i, out.entry))
      ensures out.height == s.height + Depth(s.ctx)
      ensures r == out.entry.kv + KeyLen(Rec(!isArr, key, v)) && r + ValLen(v) == used
      ensures used == old(used) + RecLen(Rec(!isArr, key, v))
      ensures node in old(nodes) && node in nodes && nodes == old(nodes)[node := nodes[node]]
      ensures EndSlot(old(nodes[node]), Route(a.tree, a.id), false, out.entry, nodes[node])
    {
      hide All, ValidRecs, Holding, Turn, Owned, Achieved, KvPut, Search, Full, EndSlot;
      TurnNode(a, s, true);
      UnusedOffset(data, used, nodes, recs, spare, used);
      ghost var e, n := Entry(a.id, v, used), nodes;
      SetKv(node, i, used);
      assert nodes == n[node := nodes[node]];
      RelinkOutcome(a, h0, s, recs, isArr, e, nodes[node]);
      RelinkSlot(n[node], Route(a.tree, a.id), i, e, nodes[node]);
      var start := AppendRecord(!isArr, key, v);
      r := used - ValLen(v);
      out := Outcome(nodes, recs, Plug(s.ctx, Updated(s.tree, i, e)), s.height + Depth(s.ctx), e);
    }

    method ShiftEntries(o: nat, i: nat)
      requires Valid() && o in nodes && i <= KeyCount(nodes[o]) < SLOTS
      modifies `data, `nodes
      ensures Valid() && |data| == old(|data|)
      ensures o in nodes && nodes == old(nodes)[o := nodes[o]] && EntriesShifted(old(nodes[o]), i, i, nodes[o])
    {
      hide Holding;
      ghost var p := nodes[o];
      var j := GetKeyCount(o);
      while j > i
        invariant i <= j <= KeyCount(p) && Valid() && |data| == old(|data|)
        invariant o in nodes && nodes == old(nodes)[o := nodes[o]]
        invariant EntriesShifted(p, i, j, nodes[o])
      {
        SetHash(o, j, GetHash(o, j - 1));
        SetKv(o, j, GetKv(o, j - 1));
        j := j - 1;
      }
    }

    /** Moves the entries of a leaf from i on up by one and puts the new one there. */
    method PutEntry(o: nat, i: nat, hash: U32, kv: U32)
      requires Valid() && o in nodes && i <= KeyCount(nodes[o]) < SLOTS
      modifies `data, `nodes
      ensures Valid() && |data| == old(|data|)
      ensures o in nodes && nodes == old(nodes)[o := nodes[o]] && EntryInserted(old(nodes[o]), i, hash, kv, nodes[o])
    {
      hide Holding;
      var count := GetKeyCount(o);
      ShiftEntries(o, i);
      SetHash(o, i, hash);
      SetKv(o, i, kv);
      SetKeyCount(o, count + 1);
    }

    /** A new entry in a leaf with room. */
    method InsertEntry(node: nat, i: nat, key: Key, hash: U32, v: Value, isArr: bool,
                       ghost a: Call, ghost h0: nat, ghost s: State) returns (r: nat, ghost out: Outcome)
      requires Valid() && s.nodes == nodes && s.used == used && node == s.tree.ofs
      requires Owned(a.nodes, recs, isArr, a.tree, h0) && Course(a, h0, s, true) && !Full(s.tree) && s.tree.cs == []
      requires a.id == Id(hash, key) && ValidRec(Rec(!isArr, key, v)) && used < U32_LIMIT
      requires i == Search(s.tree.es, a.id) && !(i < |s.tree.es| && s.tree.es[i].id == a.id)
      modifies `data, `used, `nodes, `recs
      ensures Valid() && out.nodes == nodes && out.recs == recs
      ensures Achieved(a, old(recs), isArr, v, out)
      ensures r == out.entry.kv + KeyLen(Rec(!isArr, key, v)) && r + ValLen(v) == used
      ensures used == old(used) + RecLen(Rec(!isArr, key, v))
      ensures Accounted(a, h0, s, v, RecLen(Rec(!isArr, key, v)), used, out)
    {
      hide Holding, Turn, Owned, Achieved, EntryInserted, Search, EndSlot, Course, Accounted, All, ValidRecs,
           InPlace, InOrder, Route;
      CourseTurn(a, h0, s, true);
      TurnNode(a, s, true);
      UnusedOffset(data, used, nodes, recs, spare, used);
      ghost var e, n := Entry(a.id, v, used), nodes;
      var start := AppendRecord(!isArr, key, v);
      LeafRoom(a, s);
      PutEntry(node, i, hash, start);
      assert nodes == n[node := nodes[node]];
      InsertOutcome(a, h0, s, old(recs), isArr, e, nodes[node]);
      MissedInRun(a, s);
      InsertSlot(n[node], Route(a.tree, a.id), i, e, nodes[node]);
      r := used - ValLen(v);
      out := Outcome(nodes, recs, Plug(s.ctx, Inserted(s.tree, i, e)), s.height + Depth(s.ctx), e);
      NotInPlace(InOrder(a.tree), Route(a.tree, a.id), v);
      CourseEnds(a, h0, s, Inserted(s.tree, i, e), v, RecLen(Rec(!isArr, key, v)), used, out);
    }

    /** The turn at a full node: a root is pushed down a level, any other node is split and one half chosen. */
    method SplitTurn(parent: Option<nat>, node: nat, hash: U32, ghost a: Call, ghost h0: nat, ghost s: State)
      returns (parent': Option<nat>, node': nat, ghost s': State)
      requires Valid() && s.nodes == nodes && s.used == used && s.tree.ofs == node
      requires Course(a, h0, s, true) && Full(s.tree) && a.id.hash == hash && Placed(s, parent)
      requires used + 2 * NODE_SIZE < U32_LIMIT
      modifies `data, `used, `nodes, `spare
      ensures old(used) !in old(spare) && spare == Padding(old(spare), old(used), AlignUp(old(used)))
      ensures used != a.used
      ensures Valid() && s'.nodes == nodes && s'.used == used && s'.tree.ofs == node'
      ensures Course(a, h0, s', false) && Placed(s', parent') && s'.height == s.height
      ensures s'.ctx.Down? && (parent.Some? ==> !Full(s'.tree))
      ensures Pushes(s'.tree, a.id) == Pushes(s.tree, a.id) - (if parent.Some? then 1 else 0)
    {
      hide Holding, Turn, Holds, Held, Splittable, FreshRootWords, SplitDone, Course, Pushes, SplitsLeft, All,
           ValidRecs, Formed, Generation, TypeCode, Size;
      CourseTurn(a, h0, s, true);
      TurnFacts(a, s, true);
      if parent.None? {
        var moved := SplitRoot(node);
        CourseRootSplit(a, h0, s, moved, nodes[node]);
        s' := RootSplit(s, moved, nodes[node]);
        parent', node' := Some(node), moved;
      } else {
        parent' := parent;
        var i, sib := SplitChild(node, parent.value, s);
        CourseSplit(a, h0, s, nodes, sib);
        s' := GoneOn(a, s, nodes, sib);
        node' := if hash > GetHash(parent.value, i) then sib else node;
      }
    }

    /** set_impl: walks down from the root, splitting every full node it meets, and sets the value of the key. */
    method SetImpl(ofs: nat, key: Key, hash: U32, v: Value, isArr: bool, ghost t0: Tree, ghost h0: nat)
      returns (r: nat, ghost out: Outcome)
      requires Valid() && Owned(nodes, recs, isArr, t0, h0) && t0.ofs == ofs
      requires ValidRec(Rec(!isArr, key, v))
      requires PathRoom(t0, Id(hash, key)) && used + SET_MARGIN <= U32_LIMIT
      modifies `data, `used, `nodes, `recs, `spare
      ensures Valid() && out.nodes == nodes && out.recs == recs
      ensures Watched(old(spare), old(used), !RoomyWalk(t0, Id(hash, key)), spare)
      ensures Sprawl(Call(old(nodes), old(used), t0, Id(hash, key)), out.tree)
      ensures Achieved(Call(old(nodes), old(used), t0, Id(hash, key)), old(recs), isArr, v, out)
      ensures r == out.entry.kv + KeyLen(Rec(!isArr, key, v))
      ensures !InPlace(InOrder(t0), Route(t0, Id(hash, key)), v) ==> r + ValLen(v) == used
      ensures old(used) <= used <= old(used) + SPLITS_BYTES + RecLen(Rec(!isArr, key, v))
      ensures Trail(Call(old(nodes), old(used), t0, Id(hash, key)), v, RecLen(Rec(!isArr, key, v)), nodes, used,
                    out.entry)
      ensures Appended(Call(old(nodes), old(used), t0, Id(hash, key)), h0, out)
    {
      hide Holding, Turn, Owned, Achieved, AllBacked, Holds, Held, Search, Splittable, FreshRootWords, Bumped,
           SplitDone, Course, Accounted, Watched, All, ValidRecs, RoomyWalk, InPlace, Route, InOrder, KeyLen,
           Pushes, KeyCount, ChildAt, Generation, ValLen, SplitsLeft, Formed, Trail, Appended, Sprawl;
      ghost var k := Id(hash, key);
      ghost var a := Call(nodes, used, t0, k);
      ghost var s := Start(a, h0);
      CourseStart(a, h0, recs, isArr);
      WatchedStart(spare, used);
      var parent: Option<nat> := None;
      var node := ofs;
      var path := new nat[PATH_SLOTS];
      var depth := 0;
      while true
        invariant Valid() && recs == old(recs) && Owned(a.nodes, recs, isArr, t0, h0)
        invariant s.nodes == nodes && s.used == used && s.tree.ofs == node
        invariant Course(a, h0, s, false) && Placed(s, parent)
        invariant Watched(old(spare), old(used), used != old(used), spare)
        invariant PathFits(a, s, depth)
        decreases s.height, if !Full(s.tree) then 0 else if s.ctx.Top? then 2 else 1
      {
        CourseTurn(a, h0, s, false);
        TurnFacts(a, s, false);
        path[depth] := node;
        depth := depth + 1;
        BumpGeneration(node);
        CourseBump(a, h0, s, nodes[node]);
        s := Bump(s, nodes[node]);
        CourseTurn(a, h0, s, true);
        TurnFacts(a, s, true);
        if GetKeyCount(node) >= KEYS_MAX {
          if parent.None? {
            // the path entry of this turn is taken back: the moved node is pushed in its place
            path[depth - 1] := node;
            depth := depth - 1;
          }
          UnwatchedEnd();
          WatchedPad(old(spare), old(used), used, spare);
          parent, node, s := SplitTurn(parent, node, hash, a, h0, s);
          continue;
        }
        var next: Option<nat>;
        next, r, out := SearchTurn(node, key, hash, v, isArr, a, h0, s);
        if next.None? {
          return;
        }
        CourseDescend(a, h0, s);
        parent, node := Some(node), next.value;
        s := Descended(s, Search(s.tree.es, a.id));
      }
    }

    /** The turn at a node with room: an entry is set there and the walk is over, or it goes on with a child. */
    method SearchTurn(node: nat, key: Key, hash: U32, v: Value, isArr: bool,
                      ghost a: Call, ghost h0: nat, ghost s: State)
      returns (next: Option<nat>, r: nat, ghost out: Outcome)
      requires Valid() && s.nodes == nodes && s.used == used && node == s.tree.ofs
      requires Owned(a.nodes, recs, isArr, a.tree, h0) && Course(a, h0, s, true) && !Full(s.tree)
      requires a.id == Id(hash, key) && ValidRec(Rec(!isArr, key, v)) && used < U32_LIMIT
      modifies `data, `used, `nodes, `recs
      ensures Valid()
      ensures next.Some? ==>
                && nodes == old(nodes) && used == old(used) && recs == old(recs) && GoesDown(s.tree, a.id)
                && Search(s.tree.es, a.id) < |s.tree.cs| && next.value == s.tree.cs[Search(s.tree.es, a.id)].ofs
      ensures next.None? ==>
                && out.nodes == nodes && out.recs == recs && Achieved(a, old(recs), isArr, v, out)
                && Trail(a, v, RecLen(Rec(!isArr, key, v)), nodes, used, out.entry) && Appended(a, h0, out)
                && Sprawl(a, out.tree) && (s.used == a.used <==> RoomyWalk(a.tree, a.id))
                && r == out.entry.kv + KeyLen(Rec(!isArr, key, v))
                && (!InPlace(InOrder(a.tree), Route(a.tree, a.id), v) ==> r + ValLen(v) == used)
                && old(used) <= used <= old(used) + RecLen(Rec(!isArr, key, v))
    {
      hide Holding, Turn, Owned, Achieved, AllBacked, Held, Search, Course, Accounted, All, ValidRecs, RoomyWalk,
           InPlace, Route, InOrder, KeyLen, ValLen, Trail, Appended, Sprawl;
      out := Outcome(nodes, recs, a.tree, h0, Entry(a.id, v, used));
      CourseTurn(a, h0, s, true);
      TurnFacts(a, s, true);
      StartBacked(a, h0, recs, isArr);
      TurnBacked(a, s, true, recs, isArr);
      var i, hit := FindSlot(node, Id(hash, key), isArr, s.tree.es);
      if hit {
        next := None;
        r, out := UpdateEntry(node, i, key, v, isArr, a, h0, s);
        Settled(a, h0, s, v, RecLen(Rec(!isArr, key, v)), used, out);
      } else if GetChild(node, i) != 0 {
        next, r := Some(GetChild(node, i)), 0;
      } else {
        next := None;
        r, out := InsertEntry(node, i, key, hash, v, isArr, a, h0, s);
        Settled(a, h0, s, v, RecLen(Rec(!isArr, key, v)), used, out);
      }
    }

    /** Overwrites in place or writes a new record, as the lengths say. */
    method UpdateEntry(node: nat, i: nat, key: Key, v: Value, isArr: bool,
                       ghost a: Call, ghost h0: nat, ghost s: State) returns (r: nat, ghost out: Outcome)
      requires Valid() && s.nodes == nodes && s.used == used && node == s.tree.ofs
      requires Owned(a.nodes, recs, isArr, a.tree, h0) && Course(a, h0, s, true) && !Full(s.tree)
      requires a.id.key == key && ValidRec(Rec(!isArr, key, v)) && used < U32_LIMIT
      requires i == Search(s.tree.es, a.id) && i < |s.tree.es| && s.tree.es[i].id == a.id
      modifies `data, `used, `nodes, `recs
      ensures Valid() && out.nodes == nodes && out.recs == recs
      ensures Achieved(a, old(recs), isArr, v, out)
      ensures Accounted(a, h0, s, v, RecLen(Rec(!isArr, key, v)), used, out)
      ensures r == out.entry.kv + KeyLen(Rec(!isArr, key, v))
      ensures !InPlace(InOrder(a.tree), Route(a.tree, a.id), v) ==> r + ValLen(v) == used
      ensures old(used) <= used <= old(used) + RecLen(Rec(!isArr, key, v))
    {
      hide Holding, Turn, Owned, Achieved, Search, EndSlot, Course, Accounted, All, ValidRecs, InOrder, Route;
      CourseTurn(a, h0, s, true);
      EntrySlot(a, s, recs, isArr, h0);
      var kv := GetKv(node, i);
      if ExistingLen(kv, !isArr) == ValLen(v) {
        r, out := PatchEntry(kv, v, isArr, a, h0, s, i);
        PatchSlot(nodes[node], Route(a.tree, a.id), out.entry);
      } else {
        r, out := RelinkEntry(node, i, key, v, isArr, a, h0, s);
      }
      CourseEnds(a, h0, s, Updated(s.tree, i, out.entry), v, RecLen(Rec(!isArr, key, v)), used, out);
    }

    // ----- objects and arrays

    /**
     The root node of a nested tree behind its record: 88 bytes cleared, the type written, and the used part made 96
     bytes longer. The root need not lie in those 96 bytes: whatever was at n is overwritten.
     */
    method PlaceRoot(n: nat, isArr: bool)
      requires Valid() && n <= used
      modifies `data, `used, `nodes, `spare
      ensures old(used) <= old(|data|) && used == old(used) + NODE_SIZE
      ensures RootBytes(old(data), n, RootWord(isArr), data)
      ensures n + 96 <= |data| && data[n] == (if isArr then 7 else 6)
      ensures data[n + 1] == 1 && forall i :: n + 2 <= i < n + 88 ==> data[i] == 0
      ensures forall i :: 0 <= i < old(|data|) && !(n <= i < n + 88) ==> i < |data| && data[i] == old(data)[i]
      ensures old(RootRoom(nodes, recs, n)) ==>
                && Valid() && n !in old(nodes)
                && nodes == old(nodes)[n := RootLeft(old(data), n, RootWord(isArr))]
                && (old(TailUnset(data, n)) ==> EmptyRootWords(nodes[n], isArr) && Generation(nodes[n]) == 1)
    {
      hide All, ValidRecs, Holding, RootBytes, Splice, RootLeft, TailUnset, RootRoom;
      var word := RootWord(isArr);
      TailZero(data, used, nodes, All(recs, spare));
      EnsureCapacity(NODE_SIZE);
      TailZero(data, used, nodes, All(recs, spare));
      RootPut(old(data), used, data, n, word);
      if old(RootRoom(nodes, recs, n)) {
        RoomApart(nodes, recs, n);
        ghost var d := Splice(Splice(data, n, Zeros(NODE_SIZE - 8)), n, Le32(word));
        RootImage(old(data), used, nodes, recs, spare, n, word, d);
        nodes := nodes[n := RootLeft(old(data), n, word)];
        spare := map[];
        if old(TailUnset(data, n)) { UnsetLeft(old(data), n, word); }
      }
      data := Splice(data, n, Zeros(NODE_SIZE - 8));
      data := Splice(data, n, Le32(word));
      used := used + NODE_SIZE;
      RootStart(old(data), n, Code(if isArr then Array else Object), data);
    }

    /** init_structure: a root node at the end of the used part. */
    method InitNode(isArr: bool) returns (ofs: nat)
      requires Valid()
      modifies `data, `used, `nodes
      ensures Valid() && ofs == old(used) && used == ofs + NODE_SIZE && ofs !in old(nodes)
      ensures ofs in nodes && nodes == old(nodes)[ofs := nodes[ofs]]
      ensures EmptyRootWords(nodes[ofs], isArr) && Generation(nodes[ofs]) == 1
    {
      hide Holding;
      UnusedOffset(data, used, nodes, recs, spare, used);
      EnsureCapacity(NODE_SIZE);
      ofs := used;
      BlankNodeImage(data, used, nodes, All(recs, spare), NODE_SIZE);
      data := Splice(data, ofs, Zeros(NODE_SIZE));
      used := used + NODE_SIZE;
      nodes := nodes[ofs := BlankNode()];
      SetGenType(ofs, 1, Code(if isArr then Array else Object));
    }

    /** init_object and init_array. */
    method InitStructure(isArr: bool) returns (ofs: nat)
      requires Coherent()
      modifies this
      ensures Coherent() && ofs == old(used) && used == ofs + NODE_SIZE && ofs !in old(forest)
      ensures forest == old(forest)[ofs := EmptyRoot(ofs, isArr)] && log == old(log)
      ensures ofs in nodes && Generation(nodes[ofs]) == 1
    {
      hide Holding, Planted, Linked, LinkedTo, Image;
      ghost var n, f := nodes, forest;
      FirstDated(nodes, forest, log);
      ofs := InitNode(isArr);
      PlantNew(n, recs, f, ofs, nodes[ofs], isArr);
      PlantLinked(f, ofs, isArr);
      forest := f[ofs := EmptyRoot(ofs, isArr)];
    }

    /** What a caller of a set has to see to: a known object, a key the tag can hold, room on the path, enough bytes. */
    ghost predicate Settable(ofs: nat, key: Key, v: Value)
      reads this
    {
      && Coherent() && ofs in forest && !forest[ofs].isArr
      && ValidRec(Rec(true, key, v))
      && PathRoom(forest[ofs].tree, Id(Djb2(key), key)) && used + SET_MARGIN <= U32_LIMIT
    }

    /** And of an append: a known array whose size field can still count the new element. */
    ghost predicate Appendable(ofs: nat, v: Value)
      reads this
    {
      && Coherent() && ofs in forest && forest[ofs].isArr
      && ValidValue(v)
      && |InOrder(forest[ofs].tree)| + 1 < SIZE_LIMIT && used + SET_MARGIN <= U32_LIMIT
    }

    /** Trees that nothing names any more can be put out of mind. */
    ghost method Forget(dead: set<nat>)
      requires Coherent() && 0 !in dead
      requires forall r: nat, i: nat, n: nat :: Names(forest, r, i, n) && r !in dead ==> n !in dead
      modifies `forest
      ensures Coherent() && forest == old(forest) - dead
    {
      hide Planted, Linked, Holding;
      ForgetTrees(nodes, recs, forest, dead);
      if forest == map[] { assert forest - dead == forest; } else { assert 0 in forest - dead; }
      forest := forest - dead;
    }

    /** set_null, set_bool, set_i64, set_f64, set_str and set_bytes. */
    method SetScalar(ofs: nat, key: Key, v: Value) returns (ghost e: Entry)
      requires Settable(ofs, key, v) && !Nests(v)
      modifies this
      ensures Coherent() && forest.Keys == old(forest.Keys) && OnlyAt(old(forest), ofs, forest) && !forest[ofs].isArr
      ensures SetMeans(old(forest[ofs]).tree, Id(Djb2(key), key), v, forest[ofs].tree)
      ensures SetLands(old(forest[ofs]).tree, Id(Djb2(key), key), v, e, forest[ofs].tree)
      ensures forall o :: o in old(nodes) && Uses(old(forest[ofs]).tree, o) == 0 ==>
                o in nodes && nodes[o] == old(nodes)[o]
      ensures ofs in old(nodes) && ofs in nodes && Generation(nodes[ofs]) == NextGeneration(old(nodes[ofs]))
      ensures RecordAt(old(forest[ofs]).tree, Id(Djb2(key), key), v, old(used), e, LinkOf(false, e), used)
      ensures old(forest[ofs]).tree.cs == [] && !Full(old(forest[ofs]).tree) ==> forest[ofs].tree.cs == []
      ensures |InOrder(forest[ofs].tree)| <= |InOrder(old(forest[ofs]).tree)| + 1
      ensures log == old(log) + [Called(old(nodes), ofs)]
      ensures old(used) <= used <= old(used) + SPLITS_BYTES + RecLen(Rec(true, key, v))
    {
      hide Dated, Trail, Holding, Image, Planted, Linked, Achieved, SetMeans, SetLands, Rooted, Owned, All,
           ValidRecs, Sprawl, Watched, RoomyWalk, RecordAt, Appended, TreeShape, InPlace, InOrder, Route, Nests;
      RootFacts(nodes, recs, forest, ofs);
      NodeRange(ofs);
      var hash := Djb2Hash(key);
      ghost var f, r0, c0 := forest, forest[ofs], recs;
      ghost var a := Call(nodes, used, r0.tree, Id(hash, key));
      var r, out := SetImpl(ofs, key, hash, v, false, r0.tree, r0.height);
      ScalarDone(a, c0, f, v, out, log, RecLen(Rec(true, key, v)), used);
      forest := LandedForest(f, ofs, out);
      log := log + [Called(a.nodes, ofs)];
      e := out.entry;
    }

    ghost function Here(): World
      reads this
    {
      World(data, used, forest)
    }

    /** Gives up whatever lies behind the record of k, if no other tree has anything there. */
    ghost method Vacate(ofs: nat, k: Id)
      requires Coherent() && ofs in forest && !forest[ofs].isArr
      modifies `nodes, `recs, `spare, `forest
      ensures Freed(old(Here()), old(forest[ofs]).tree, k, old(nodes), old(recs), old(spare),
                    nodes, recs, spare, forest)
      ensures Valid() && Planted(nodes, recs, forest) && Dated(nodes, forest, log) && 0 in forest
      ensures ofs in forest && forest[ofs] == old(forest)[ofs]
      ensures ofs in old(nodes) && ofs in nodes && nodes[ofs] == old(nodes)[ofs]
      ensures var t := old(forest[ofs]).tree; Reuses(t, k) ==> ofs < EndOfRecord(t, k) <= used
    {
      hide Holding, Planted, Vacant, All, ValidRecs, SpareAt, Dated, Linked, Reuses, EndOfRecord, Rooted, Owned;
      ghost var t := forest[ofs].tree;
      TailZero(data, used, nodes, All(recs, spare));
      RootFacts(nodes, recs, forest, ofs);
      if Reuses(t, k) {
        var n := EndOfRecord(t, k);
        RecordEnds(data, used, nodes, recs, spare, forest, ofs, k);
        if Vacant(forest, n) {
          VacateImage(data, used, nodes, recs, spare, n);
          VacatePlanted(nodes, recs, forest, n);
          RootFacts(NodesOff(nodes, n), RecsOff(recs, n), forest - {n}, 0);
          RootFacts(NodesOff(nodes, n), RecsOff(recs, n), forest - {n}, ofs);
          DatedKept(nodes, forest, log, NodesOff(nodes, n), forest - {n});
          spare := SpareAt(data, used, recs, spare, n);
          nodes, recs, forest := NodesOff(nodes, n), RecsOff(recs, n), forest - {n};
        }
      }
    }

    /**
     set_obj and set_arr: the value is an empty tree, its root right behind the record. Where there is no place for it
     the call goes through all the same, and leaves bytes that do not hold the trees any more.
     */
    method SetNested(ofs: nat, key: Key, isArr: bool) returns (n: nat, ghost e: Entry)
      requires Settable(ofs, key, Nested(isArr))
      modifies this
      ensures ofs in forest && !forest[ofs].isArr && n != ofs
      ensures forest == old(forest)[ofs := forest[ofs]][n := EmptyRoot(n, isArr)]
      ensures SetMeans(old(forest[ofs]).tree, Id(Djb2(key), key), Nested(isArr), forest[ofs].tree)
      ensures SetLands(old(forest[ofs]).tree, Id(Djb2(key), key), Nested(isArr), e, forest[ofs].tree)
              && n == LinkOf(false, e)
      ensures if Reuses(old(forest[ofs]).tree, Id(Djb2(key), key)) then
                n == EndOfRecord(old(forest[ofs]).tree, Id(Djb2(key), key))
              else n !in old(forest)
      ensures n < |data| && data[n] == Code(if isArr then Array else Object)
      ensures |InOrder(forest[ofs].tree)| <= |InOrder(old(forest[ofs]).tree)| + 1
      ensures log == old(log) + [Called(old(nodes), ofs)]
      ensures old(used) <= used <= old(used) + SPLITS_BYTES + RecLen(Rec(true, key, Nested(isArr))) + NODE_SIZE
      ensures old(HasPlace(Here(), ofs, Id(Djb2(key), key))) ==>
                && Coherent() && ofs in old(nodes) && ofs in nodes
                && Generation(nodes[ofs]) == NextGeneration(old(nodes[ofs]))
      ensures !old(HasPlace(Here(), ofs, Id(Djb2(key), key))) ==> !Legible(data, used, forest)
      ensures old(HasRoom(Here(), ofs, Id(Djb2(key), key))) ==>
                Valid() && Refilled(old(nodes), old(recs), old(forest[ofs]).tree, n, e.kv, isArr, nodes, recs)
    {
      hide All, ValidRecs, Trail, Holding, Image, Planted, Linked, Achieved, SetMeans, SetLands, Rooted, Owned,
           InPlace, InOrder, Route, TreeShape, KeyLen, Nests, EmptyRoot, Generation, RoomyWalk, HasPlace,
           RootBytes, Reuses, EndOfRecord, Vacant, RootRoom, SpareAt, Watched, Sprawl, Appended, Legible,
           SameBytes, ZeroTail, Dated, HasRoom, TailUnset, RootLeft, Refilled, Freed;
      RootFacts(nodes, recs, forest, ofs);
      NodeRange(ofs);
      var hash := Djb2Hash(key);
      ghost var w, k, r0, c0, spare0, nodes0 := Here(), Id(hash, key), forest[ofs], recs, spare, nodes;
      ReusesAny(r0.tree, k, isArr);
      TailZero(data, used, nodes, All(recs, spare));
      Vacate(ofs, k);
      UnusedOffset(data, used, nodes, recs, spare, used);
      ghost var f1, c1, spare1, a := forest, recs, spare, Call(nodes, used, r0.tree, k);
      RootFacts(nodes, recs, forest, ofs);
      OwnedBacked(nodes, recs, r0.tree, r0.height);
      var o, out := SetImpl(ofs, key, hash, Nested(isArr), false, r0.tree, r0.height);
      SetObjectForest(a, c1, f1, Nested(isArr), out);
      e := out.entry;
      n := o + 1;
      ghost var len, data1 := RecLen(Rec(true, key, Nested(isArr))), data;
      RoomBehind(w, nodes0, c0, spare0, a, c1, spare1, f1, isArr, out, n, len, data, used, spare);
      NestRoot(n, isArr, w, a, c1, f1, out);
      if HasRoom(w, ofs, k) { RefilledWhere(w, nodes0, c0, spare0, a, c1, spare1, f1, isArr, out, n, data1); }
    }

    /** The second half of set_obj and set_arr, once the record is there. */
    method NestRoot(n: nat, isArr: bool, ghost w: World, ghost a: Call, ghost c: RecMap, ghost f1: Forest,
                    ghost out: Outcome)
      requires Valid() && nodes == out.nodes && recs == out.recs && n <= used
      requires a.tree.ofs in w.forest && w.forest[a.tree.ofs].tree == a.tree && !w.forest[a.tree.ofs].isArr
      requires Linked(w.forest) && ZeroTail(w.data, w.used) && a.used == w.used
      requires n != a.tree.ofs && a.tree.ofs in f1 && !f1[a.tree.ofs].isArr
      requires Achieved(a, c, false, Nested(isArr), out) && Planted(nodes, recs, LandedForest(f1, a.tree.ofs, out))
      requires SetLands(a.tree, a.id, Nested(isArr), out.entry, out.tree) && Sprawl(a, out.tree)
      requires n == LinkOf(false, out.entry) && n != 0 && 0 in f1 && Planted(a.nodes, c, f1) && Dated(a.nodes, f1, log)
      requires f1[a.tree.ofs].tree == a.tree
      requires HasRoom(w, a.tree.ofs, a.id) ==>
                 RootRoom(nodes, recs, n) && f1 == if Reuses(a.tree, a.id) then w.forest - {n} else w.forest
      requires HasPlace(w, a.tree.ofs, a.id) ==> HasRoom(w, a.tree.ofs, a.id) && TailUnset(data, n)
      requires !HasPlace(w, a.tree.ofs, a.id) ==>
                 && Reuses(a.tree, a.id) && n == EndOfRecord(a.tree, a.id) && n <= a.used
                 && (Vacant(w.forest, n) ==> SameBytes(w, n, data))
      modifies `data, `used, `nodes, `spare, `forest, `log
      ensures used == old(used) + NODE_SIZE && n < |data| && data[n] == Code(if isArr then Array else Object)
      ensures log == old(log) + [Called(a.nodes, a.tree.ofs)]
      ensures forest == w.forest[a.tree.ofs := Root(false, out.tree, out.height)][n := EmptyRoot(n, isArr)]
      ensures if HasPlace(w, a.tree.ofs, a.id) then
                && Valid() && Planted(nodes, recs, forest) && Linked(forest) && Dated(nodes, forest, log) && n !in f1
                && n in nodes && nodes == out.nodes[n := nodes[n]]
              else !Legible(data, used, forest)
      ensures HasRoom(w, a.tree.ofs, a.id) ==>
                && Valid() && n !in out.nodes && recs == out.recs
                && nodes == out.nodes[n := RootLeft(old(data), n, RootWord(isArr))]
    {
      hide All, ValidRecs, Holding, Image, Planted, Linked, Achieved, SetLands, EmptyRootWords, HasPlace,
           RootBytes, RootLeft, TailUnset, HasRoom, InOrder, Reuses, EndOfRecord, Vacant, RootRoom, Sprawl,
           Legible, SameBytes, ZeroTail, LinkOf, Nested, Generation, EmptyRoot, Dated;
      ghost var data1, used1, sp1, ofs := data, used, spare, a.tree.ofs;
      PlaceRoot(n, isArr);
      forest := w.forest[ofs := Root(false, out.tree, out.height)][n := EmptyRoot(n, isArr)];
      if HasPlace(w, ofs, a.id) {
        PlantNew(out.nodes, recs, LandedForest(f1, ofs, out), n, nodes[n], isArr);
        assert forest == LandedForest(f1, ofs, out)[n := EmptyRoot(n, isArr)];
        NestedLinked(a, c, w.forest, f1, out, n, isArr, false, data1, used1, sp1);
        DatedNext(a, c, f1, Nested(isArr), out, log, nodes, forest);
      } else {
        if Vacant(w.forest, n) { TailRooted(w, n, data1, RootWord(isArr), data); }
        if Legible(data, used, forest) {
          PlaceNeeded(w, a, Nested(isArr), out.entry, out.tree, out.height, n, isArr, data, used);
        }
      }
      log := log + [Called(a.nodes, ofs)];
    }

    /** arr_append_null, _bool, _i64, _f64, _str and _bytes: the size of the array is the next index. */
    method AppendScalar(ofs: nat, v: Value) returns (ghost e: Entry)
      requires Appendable(ofs, v) && !Nests(v)
      modifies this
      ensures Coherent() && forest.Keys == old(forest.Keys) && OnlyAt(old(forest), ofs, forest) && forest[ofs].isArr
      ensures InOrder(forest[ofs].tree) == InOrder(old(forest[ofs]).tree) + [e] && e.val == v
      ensures ofs in old(nodes) && ofs in nodes && Generation(nodes[ofs]) == NextGeneration(old(nodes[ofs]))
      ensures log == old(log) + [Called(old(nodes), ofs)]
      ensures old(used) <= used <= old(used) + SPLITS_BYTES + RecLen(Rec(false, [], v))
    {
      hide Dated, All, ValidRecs, InOrder, Route, SameSlots, WithSize, ArrayRun, SameSizeType, NextGeneration,
           RoomyWalk, Watched, Sprawl, ArrayTree, Appended, Pushes, Trail, Holding, Image, Planted, Linked,
           Achieved, SetMeans, SetLands, Rooted, Owned;
      RootFacts(nodes, recs, forest, ofs);
      ArrayFacts(nodes, recs, forest, ofs);
      NodeRange(ofs);
      RoomForAppend(forest[ofs].tree, forest[ofs].height, |InOrder(forest[ofs].tree)|, Id(|InOrder(forest[ofs].tree)|,
                    []));
      var size := GetSize(ofs);
      ghost var f, r0, c0 := forest, forest[ofs], recs;
      ghost var a := Call(nodes, used, r0.tree, Id(size, []));
      var r, out := SetImpl(ofs, [], size, v, true, r0.tree, r0.height);
      AchievedRoot(a, c0, true, v, out);
      SetSize(ofs, size + 1);
      AppendForest(a, c0, f, v, out, nodes[ofs]);
      assert nodes == out.nodes[ofs := nodes[ofs]];
      ScalarLinked(a, c0, f, v, out);
      forest := LandedForest(f, ofs, out);
      DatedNext(a, c0, f, v, out, log, nodes, forest);
      log := log + [Called(a.nodes, ofs)];
      e := out.entry;
    }

    /** arr_append_obj and arr_append_arr. */
    method AppendNested(ofs: nat, isArr: bool) returns (n: nat, ghost e: Entry)
      requires Appendable(ofs, Nested(isArr))
      modifies this
      ensures Coherent() && forest.Keys == old(forest.Keys) + {n} && n !in old(forest)
      ensures OnlyAt(old(forest), ofs, forest) && forest[ofs].isArr && forest[n] == EmptyRoot(n, isArr)
      ensures InOrder(forest[ofs].tree) == InOrder(old(forest[ofs]).tree) + [e]
      ensures e.val == Nested(isArr) && n == LinkOf(true, e)
      ensures ofs in old(nodes) && ofs in nodes && Generation(nodes[ofs]) == NextGeneration(old(nodes[ofs]))
      ensures log == old(log) + [Called(old(nodes), ofs)]
      ensures old(used) <= used <= old(used) + SPLITS_BYTES + RecLen(Rec(false, [], Nested(isArr))) + NODE_SIZE
    {
      hide Dated, ArrayTree, Appended, Pushes, Trail, Holding, Image, Planted, Linked, Achieved, SetMeans,
           SetLands, Rooted, Owned, EmptyRootWords, InPlace, OthersKept, RecordPlaced, Nests, All, ValidRecs,
           RootRoom, RootBytes, Watched, Sprawl, RoomyWalk, PathRoom, TreeShape, EmptyRoot, InOrder, Route,
           SameSlots, WithSize, ArrayRun, SameSizeType, NextGeneration, Code;
      RootFacts(nodes, recs, forest, ofs);
      ArrayFacts(nodes, recs, forest, ofs);
      NodeRange(ofs);
      RoomForAppend(forest[ofs].tree, forest[ofs].height, |InOrder(forest[ofs].tree)|, Id(|InOrder(forest[ofs].tree)|,
                    []));
      var size := GetSize(ofs);
      ghost var f, r0, c0 := forest, forest[ofs], recs;
      ghost var a := Call(nodes, used, r0.tree, Id(size, []));
      AppendFresh(nodes, recs, f, ofs, Nested(isArr));
      var o, out := SetImpl(ofs, [], size, Nested(isArr), true, r0.tree, r0.height);
      AchievedRoot(a, c0, true, Nested(isArr), out);
      e := out.entry;
      n := o + 1;
      AchievedEntry(a, c0, true, Nested(isArr), out);
      FinishAppend(ofs, n, size, isArr, a, c0, f, out);
    }

    /** The root behind the record of a new element, and the new size of the array. */
    method FinishAppend(ofs: nat, n: nat, size: nat, isArr: bool, ghost a: Call, ghost c: RecMap, ghost f: Forest,
                        ghost out: Outcome)
      requires Valid() && nodes == out.nodes && recs == out.recs && n == used && ofs in nodes && ofs != n
      requires Planted(a.nodes, c, f) && Linked(f) && Dated(a.nodes, f, log) && 0 in f
      requires ofs == a.tree.ofs && ofs in f && f[ofs].tree == a.tree && f[ofs].isArr && a.tree.ofs < a.used
      requires Achieved(a, c, true, Nested(isArr), out) && Appended(a, f[ofs].height, out)
               && n == LinkOf(true, out.entry)
      requires size == |InOrder(a.tree)| && a.id == Id(size, []) && size + 1 < SIZE_LIMIT
      modifies `data, `used, `nodes, `spare, `forest, `log
      ensures Valid() && Planted(nodes, recs, forest) && Linked(forest) && Dated(nodes, forest, log)
      ensures n !in f && forest == LandedForest(f, ofs, out)[n := EmptyRoot(n, isArr)]
      ensures InOrder(out.tree) == InOrder(a.tree) + [out.entry] && out.entry.val == Nested(isArr)
      ensures used == old(used) + NODE_SIZE && ofs in nodes && Generation(nodes[ofs]) == old(Generation(nodes[ofs]))
      ensures log == old(log) + [Called(a.nodes, ofs)]
    {
      hide Dated, ArrayTree, Appended, Holding, Image, Planted, Linked, Achieved, Rooted, Owned, EmptyRootWords,
           All, ValidRecs, RootRoom, RootBytes, EmptyRoot, InOrder, Route, SameSlots, WithSize, ArrayRun,
           SameSizeType, Code, LinkOf;
      AchievedRoot(a, c, true, Nested(isArr), out);
      FreshRoom(data, used, nodes, recs, spare);
      PlaceRoot(n, isArr);
      ghost var w := nodes[n];
      assert nodes == out.nodes[n := w];
      SetSize(ofs, size + 1);
      AppendForest(a, c, f, Nested(isArr), out, nodes[ofs]);
      AppendedNested(a, c, f, out, nodes[ofs], n, w, isArr);
      assert nodes == out.nodes[ofs := nodes[ofs]][n := w];
      forest := LandedForest(f, ofs, out)[n := EmptyRoot(n, isArr)];
      DatedNext(a, c, f, Nested(isArr), out, log, nodes, forest);
      log := log + [Called(a.nodes, ofs)];
    }

    // ----- reading

    /**
     get_impl: the start of the value of k, if k is found on the walk from the node at ofs. It follows the words of the
     nodes, whether they make up a tree or not.
     */
    method GetImpl(ofs: nat, k: Id, isArr: bool, ghost h: nat) returns (r: Option<nat>)
      requires Valid() && Walked(nodes, recs, isArr, ofs, k, h).Some? && (isArr ==> k.key == [])
      ensures match Walked(nodes, recs, isArr, ofs, k, h).value
              case None => r == None
              case Some(e) => Backed(recs, isArr, e) && r == Some(e.kv + KeyLen(Rec(!isArr, e.id.key, e.val)))
    {
      hide Holding, Image, AllBacked, Search, EntriesOf, All, ValidRecs, HoldsEntries;
      ghost var left := h;
      var node: nat := ofs;
      while true
        invariant Walked(nodes, recs, isArr, node, k, left) == Walked(nodes, recs, isArr, ofs, k, h)
        decreases left
      {
        ghost var es := EntriesOf(nodes[node], recs);
        ReadEntries(nodes, recs, isArr, node);
        var i, hit := FindSlot(node, k, isArr, es);
        SlotBound(node, es, i);
        if hit {
          var kv := GetKv(node, i);
          SlotBacked(node, es, i, isArr);
          r := Some(ValueStart(kv, !isArr));
          return;
        }
        if GetChild(node, i) == 0 {
          r := None;
          return;
        }
        node, left := GetChild(node, i), left - 1;
      }
    }

    lemma SlotBound(o: nat, es: seq<Entry>, i: nat)
      requires Valid() && o in nodes && HoldsEntries(nodes[o], es) && i <= |es|
      ensures i <= SLOTS && (i < |es| ==> i < SLOTS)
    {
    }

    lemma SlotBacked(o: nat, es: seq<Entry>, i: nat, isArr: bool)
      requires Lists(o, es, isArr) && i < |es|
      ensures i < SLOTS && KvAt(nodes[o], i) == es[i].kv && Backed(recs, isArr, es[i])
    {
    }

    /** In a tree of the forest the words lead to what the tree holds. */
    lemma Finds(ofs: nat, k: Id)
      requires Coherent() && ofs in forest
      ensures Walked(nodes, recs, forest[ofs].isArr, ofs, k, forest[ofs].height) == Some(Find(forest[ofs].tree, k))
    {
      hide Holding, Image, Planted, Linked, Find, Owned, Rooted, Walked, SubTree;
      RootFacts(nodes, recs, forest, ofs);
      OwnedSub(nodes, recs, forest[ofs].isArr, forest[ofs].tree, forest[ofs].height);
      WalkedTree(nodes, recs, forest[ofs].isArr, forest[ofs].tree, forest[ofs].height, k);
    }

    // ----- a root that is no part of a tree

    /**
     A set at a leaf with room and with no child where the key goes, whatever its other child slots hold: the one turn
     of the loop of set_impl that it takes, which raises the generation, searches, finds no child to go on with, and
     writes the record and the entry.
     */
    method SetInLeaf(node: nat, key: Key, hash: U32, v: Value, isArr: bool, ghost es: seq<Entry>)
      returns (r: nat, ghost e: Entry)
      requires Lists(node, es, isArr) && |es| < KEYS_MAX && ValidRec(Rec(!isArr, key, v)) && used < U32_LIMIT
      requires var i := Search(es, Id(hash, key));
               !(i < |es| && es[i].id == Id(hash, key)) && ChildAt(nodes[node], i) == 0
      modifies `data, `used, `nodes, `recs
      ensures Valid() && e == Entry(Id(hash, key), v, old(used)) && recs == old(recs)[e.kv := Rec(!isArr, key, v)]
      ensures used == old(used) + RecLen(Rec(!isArr, key, v)) && r == e.kv + KeyLen(Rec(!isArr, key, v))
      ensures e.kv !in old(recs) && node in nodes && nodes == old(nodes)[node := nodes[node]]
      ensures HoldsEntries(nodes[node], Insert(es, Search(es, e.id), e)) && SameChildren(old(nodes[node]), nodes[node])
      ensures SameSizeType(old(nodes[node]), nodes[node])
    {
      hide Holding, Image, All, ValidRecs, Search, AllBacked, HoldsEntries, EntryInserted, SameSlots, GenTypeWord,
           Insert;
      ghost var w0 := nodes[node];
      SlotBound(node, es, |es|);
      BumpGeneration(node);
      ghost var w1 := nodes[node];
      BumpedEntries(w0, w1, es);
      assert GetKeyCount(node) < KEYS_MAX by { SlotCounts(w1, es); }
      var i, hit := FindSlot(node, Id(hash, key), isArr, es);
      SlotBound(node, es, i);
      assert !hit && GetChild(node, i) == 0;
      UnusedOffset(data, used, nodes, recs, spare, used);
      e := Entry(Id(hash, key), v, used);
      var start := AppendRecord(!isArr, key, v);
      SlotCounts(w1, es);
      PutEntry(node, i, hash, start);
      InsertedEntries(w1, es, i, e, nodes[node]);
      r := start + (if isArr then 0 else |key| + 2);
    }

    /** arr_append_null and the others at such a leaf. */
    method AppendInLeaf(ofs: nat, v: Value, ghost es: seq<Entry>) returns (ghost e: Entry)
      requires Lists(ofs, es, true) && |es| < KEYS_MAX && ValidValue(v) && used < U32_LIMIT
      requires Size(nodes[ofs]) == |es| && (forall i :: 0 <= i < |es| ==> es[i].id == Id(i, []))
      requires ChildAt(nodes[ofs], |es|) == 0
      modifies `data, `used, `nodes, `recs
      ensures Lists(ofs, es + [e], true) && e == Entry(Id(|es|, []), v, old(used))
      ensures used == old(used) + RecLen(Rec(false, [], v)) && recs == old(recs)[e.kv := Rec(false, [], v)]
      ensures e.kv !in old(recs) && nodes == old(nodes)[ofs := nodes[ofs]]
      ensures Size(nodes[ofs]) == |es| + 1 && SameChildren(old(nodes[ofs]), nodes[ofs])
      ensures TypeCode(nodes[ofs]) == old(TypeCode(nodes[ofs]))
    {
      hide Holding, Image, All, ValidRecs, AllBacked, HoldsEntries, SameSlots, Search, KeyCount;
      NextIndex(es);
      var size := GetSize(ofs);
      ghost var w0 := nodes[ofs];
      SlotCounts(w0, es);
      var r; r, e := SetInLeaf(ofs, [], size, v, true, es);
      ghost var w1 := nodes[ofs];
      SetSize(ofs, size + 1);
      ResizedEntries(w1, es + [e], size + 1, nodes[ofs]);
      AppendedBacked(old(recs), es, e);
    }

    /** Key, start of the value and its type, as the iterator reads them from a record. */
    method ReadRecord(o: nat) returns (key: Key, vo: nat, typ: Type)
      requires Valid() && o in recs && recs[o].keyed
      ensures key == recs[o].key && vo == o + |key| + 2 && typ == recs[o].val.typ
    {
      hide Holding, EncodeRec, EncodeVal, ValLen, ValidValue, ValidRecs, All, Code;
      RecordBytes(o);
      RecParts(data, o, recs[o]);
      ValueSlice(o);
      ValueParts(data, o + KeyLen(recs[o]), recs[o].val);
      // the guards of the source against offsets outside the buffer and empty tags cannot fire
      var tag := data[o];
      assert TagLen(tag) > 0;
      key := ExistingKey(o);
      vo := o + 1 + TagLen(tag);
      TypeOfCode(recs[o].val.typ);
      typ := TypeOf(data[vo]).value;
    }

    /** What a reader that expects a certain type finds at a stored value. */
    lemma StoredParts(o: nat, typ: Type)
      requires Valid() && o in recs
      ensures var vo, v := o + KeyLen(recs[o]), recs[o].val;
              && vo < |data| && (data[vo] == Code(typ) <==> v.typ == typ)
              && (v.typ == typ ==>
                   if Sized(typ) then
                     && vo + 5 + |v.payload| <= |data| && FromLe32(data[vo + 1..vo + 5]) == |v.payload|
                     && data[vo + 5..vo + 5 + |v.payload|] == v.payload
                   else
                     && |v.payload| == FixedLen(typ)
                     && vo + 1 + |v.payload| <= |data| && data[vo + 1..vo + 1 + |v.payload|] == v.payload)
    {
      hide Holding, EncodeVal, Image, ValidRecs, All, Records.KeyLen, FromLe32;
      ValueSlice(o);
      ValueParts(data, o + KeyLen(recs[o]), recs[o].val);
      CodesDiffer(recs[o].val.typ, typ);
    }

    /** The typed getters: the payload of the value, or an error if there is none of that type. */
    method GetTyped(ofs: nat, k: Id, isArr: bool, typ: Type) returns (r: Result<seq<Byte>>)
      requires Coherent() && ofs in forest && forest[ofs].isArr == isArr && (isArr ==> k.key == [])
      ensures match Read(forest[ofs].tree, k)
              case Some(v) => r == if v.typ == typ then Ok(v.payload) else Err("Type mismatch")
              case None => r == Err("Key not found")
    {
      hide Walked, All, ValidRecs, Holding, Image, Planted, Linked, Find, KeyLen, ValLen, Code, FixedLen, Sized;
      Finds(ofs, k);
      var p := GetImpl(ofs, k, isArr, forest[ofs].height);
      if p == None {
        return Err("Key not found");
      }
      var vo := p.value;
      ghost var e := Find(forest[ofs].tree, k).value;
      StoredParts(e.kv, typ);
      if data[vo] != Code(typ) {
        return Err("Type mismatch");
      }
      if Sized(typ) {
        var size := FromLe32(data[vo + 1..vo + 5]);
        r := Ok(data[vo + 5..vo + 5 + size]);
      } else {
        r := Ok(data[vo + 1..vo + 1 + FixedLen(typ)]);
      }
    }

    /** get_obj, get_arr, arr_get_obj and arr_get_arr: the root node of a nested tree lies after its record. */
    method GetNested(ofs: nat, k: Id, isArr: bool, wantArr: bool) returns (r: Result<nat>)
      requires Coherent() && ofs in forest && forest[ofs].isArr == isArr && (isArr ==> k.key == [])
      ensures match Find(forest[ofs].tree, k)
              case Some(e) =>
                if e.val.typ == (if wantArr then Array else Object)
                then r == Ok(LinkOf(isArr, e)) && LinkOf(isArr, e) in forest && forest[LinkOf(isArr,
                             e)].isArr == wantArr
                else r == Err("Type mismatch")
              case None => r == Err("Type mismatch")
    {
      hide Walked, Holding, Image, Planted, Linked, Anchored, Find, Code, ValidRecs, All;
      Finds(ofs, k);
      var p := GetImpl(ofs, k, isArr, forest[ofs].height);
      if p == None {
        return Err("Type mismatch");
      }
      ghost var e := Find(forest[ofs].tree, k).value;
      StoredParts(e.kv, if wantArr then Array else Object);
      FoundLinked(nodes, recs, forest, ofs, k);
      if data[p.value] != Code(if wantArr then Array else Object) {
        return Err("Type mismatch");
      }
      r := Ok(p.value + 1);
    }
  }
}
