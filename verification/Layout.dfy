/**
 What the byte array holds: which offsets carry a node and which a record. Every write of the buffer is a copy
 of some bytes, and each lemma here says what one such copy does to nodes and records.
 */
module Layout {
  import opened Bytes
  import opened Nodes
  import opened Records

  type NodeMap = map<nat, Words>
  type RecMap = map<nat, Rec>

  /** Records as bytes. */
  type RawMap = map<nat, seq<Byte>>

  ghost predicate ValidRecs(recs: RecMap) {
    forall o :: o in recs ==> ValidRec(recs[o])
  }

  ghost function Raw(recs: RecMap): (raws: RawMap)
    requires ValidRecs(recs)
    ensures raws.Keys == recs.Keys
  {
    map o | o in recs :: EncodeRec(recs[o])
  }

  /** Records, and stretches of bytes that belong to nothing any more but are kept an eye on. */
  ghost function All(recs: RecMap, spare: RawMap): RawMap
    requires ValidRecs(recs)
  {
    map o | o in recs.Keys + spare.Keys :: if o in recs then EncodeRec(recs[o]) else spare[o]
  }

  lemma AllUpdate(recs: RecMap, spare: RawMap, o: nat, r: Rec)
    requires ValidRecs(recs) && ValidRec(r)
    ensures ValidRecs(recs[o := r]) && All(recs[o := r], spare) == All(recs, spare)[o := EncodeRec(r)]
  {
  }

  /** Nodes and records lie inside the used part and do not overlap. */
  ghost predicate Laid(used: nat, nodes: NodeMap, raws: RawMap) {
    && (forall o :: o in nodes ==> o + NODE_SIZE <= used)
    && (forall o :: o in raws ==> 0 < |raws[o]| <= used - o)
    && (forall o, p :: o in nodes && p in nodes && o < p ==> o + NODE_SIZE <= p)
    && (forall o, p :: o in raws && p in raws && o < p ==> o + |raws[o]| <= p)
    && (forall o, p :: o in nodes && p in raws ==> o + NODE_SIZE <= p || p + |raws[p]| <= o)
  }

  function WordAt(data: seq<Byte>, a: nat): U32
    requires a + 4 <= |data|
  {
    FromLe32(data[a..a + 4])
  }

  ghost predicate NodeBytes(data: seq<Byte>, nodes: NodeMap) {
    && (forall o :: o in nodes ==> o + NODE_SIZE <= |data|)
    && (forall o, k :: o in nodes && 0 <= k < NODE_WORDS ==> WordAt(data, o + 4 * k) == nodes[o][k])
  }

  ghost predicate RawBytes(data: seq<Byte>, raws: RawMap) {
    forall o :: o in raws ==> o + |raws[o]| <= |data| && data[o..o + |raws[o]|] == raws[o]
  }

  ghost predicate ZeroTail(data: seq<Byte>, used: nat) {
    used <= |data| && forall i :: used <= i < |data| ==> data[i] == 0
  }

  /** The invariant of the buffer. It is passed on whole, as one fact, wherever nothing looks inside. */
  ghost predicate Image(data: seq<Byte>, used: nat, nodes: NodeMap, raws: RawMap) {
    var whole := Holding(data, used, nodes, raws);
    whole
  }

  ghost predicate Holding(data: seq<Byte>, used: nat, nodes: NodeMap, raws: RawMap) {
    && Laid(used, nodes, raws)
    && NodeBytes(data, nodes)
    && RawBytes(data, raws)
    && ZeroTail(data, used)
  }

  /** A layout that names less is a layout as well. */
  lemma SubImage(data: seq<Byte>, used: nat, nodes: NodeMap, raws: RawMap, nodes': NodeMap, raws': RawMap)
    requires Image(data, used, nodes, raws)
    requires forall o :: o in nodes' ==> o in nodes && nodes'[o] == nodes[o]
    requires forall o :: o in raws' ==> o in raws && raws'[o] == raws[o]
    ensures Image(data, used, nodes', raws')
  {
  }

  // ----- growing

  lemma GrowImage(data: seq<Byte>, used: nat, nodes: NodeMap, raws: RawMap, n: nat)
    requires Image(data, used, nodes, raws)
    ensures Image(data + Zeros(n), used, nodes, raws)
  {
    var d := data + Zeros(n);
    forall o, k | o in nodes && 0 <= k < NODE_WORDS
      ensures WordAt(d, o + 4 * k) == nodes[o][k]
    {
      assert d[o + 4 * k..o + 4 * k + 4] == data[o + 4 * k..o + 4 * k + 4];
    }
    forall o | o in raws ensures d[o..o + |raws[o]|] == raws[o] {
      assert d[o..o + |raws[o]|] == data[o..o + |raws[o]|];
    }
  }

  /** Skipping to a later end of the used part, as the alignment before a split does. */
  lemma SkipImage(data: seq<Byte>, used: nat, used': nat, nodes: NodeMap, raws: RawMap)
    requires Image(data, used, nodes, raws) && used <= used' <= |data|
    ensures Image(data, used', nodes, raws)
  {
  }

  /** The next offset that a node of a split may have. */
  function AlignUp(used: nat): (a: nat)
    ensures used <= a < used + NODE_ALIGNMENT && a % NODE_ALIGNMENT == 0
  {
    (used + NODE_ALIGNMENT - 1) / NODE_ALIGNMENT * NODE_ALIGNMENT
  }

  lemma AlignLeast(used: nat, x: nat)
    requires used <= x && x % NODE_ALIGNMENT == 0
    ensures AlignUp(used) <= x
  {
  }

  function Padding(spare: RawMap, lo: nat, hi: nat): RawMap
    requires lo <= hi
  {
    if lo < hi then spare[lo := Zeros(hi - lo)] else spare
  }

  /** Skipping to an aligned end, and keeping an eye on the bytes that are skipped. */
  lemma PadImage(data: seq<Byte>, used: nat, used': nat, nodes: NodeMap, recs: RecMap, spare: RawMap)
    requires ValidRecs(recs) && Image(data, used, nodes, All(recs, spare)) && used <= used' <= |data|
    ensures Image(data, used', nodes, All(recs, Padding(spare, used, used')))
    ensures used !in spare
  {
    hide Holding;
    UnusedRaw(data, used, nodes, recs, spare);
    if used < used' {
      hide All;
      var z := Zeros(used' - used);
      AllSpare(recs, spare, used, z);
      AppendRawImage(data, used, nodes, All(recs, spare), z);
      TailZero(data, used, nodes, All(recs, spare));
      ClearTail(data, used, used' - used);
    }
  }

  lemma UnusedRaw(data: seq<Byte>, used: nat, nodes: NodeMap, recs: RecMap, spare: RawMap)
    requires ValidRecs(recs) && Image(data, used, nodes, All(recs, spare))
    ensures used !in recs && used !in spare
  {
    assert used !in All(recs, spare);
  }

  lemma TailZero(data: seq<Byte>, used: nat, nodes: NodeMap, raws: RawMap)
    requires Image(data, used, nodes, raws)
    ensures ZeroTail(data, used)
  {
  }

  lemma AllSpare(recs: RecMap, spare: RawMap, o: nat, z: seq<Byte>)
    requires ValidRecs(recs) && o !in recs
    ensures All(recs, spare[o := z]) == All(recs, spare)[o := z]
  {
  }

  /** Nothing that was kept an eye on is lost, and what was skipped for alignment has been added. */
  ghost predicate Watched(spare0: RawMap, used0: nat, skipped: bool, spare: RawMap) {
    && (forall o :: o in spare0 ==> o in spare && spare[o] == spare0[o])
    && (skipped && used0 < AlignUp(used0) ==> used0 in spare && spare[used0] == Zeros(AlignUp(used0) - used0))
  }

  lemma WatchedStart(spare: RawMap, used: nat)
    ensures Watched(spare, used, false, spare)
  {
  }

  lemma WatchedPad(spare0: RawMap, used0: nat, used: nat, spare: RawMap)
    requires Watched(spare0, used0, used != used0, spare) && used !in spare
    ensures Watched(spare0, used0, true, Padding(spare, used, AlignUp(used)))
  {
  }

  // ----- one word of a node

  /** One word copied into a node, seen from any word of any node. */
  lemma PutWordAt(data: seq<Byte>, a: nat, x: U32, b: nat)
    requires a + 4 <= |data| && b + 4 <= |data| && (a == b || a + 4 <= b || b + 4 <= a)
    ensures WordAt(Splice(data, a, Le32(x)), b) == if a == b then x else WordAt(data, b)
  {
    if a == b {
      SpliceInto(data, a, Le32(x));
    } else {
      SpliceOutside(data, a, Le32(x), b, b + 4);
    }
  }

  lemma PutWordNodes(data: seq<Byte>, used: nat, nodes: NodeMap, o: nat, k: nat, x: U32)
    requires NodeBytes(data, nodes) && o in nodes && k < NODE_WORDS && o + NODE_SIZE <= |data|
    requires forall p, q :: p in nodes && q in nodes && p < q ==> p + NODE_SIZE <= q
    ensures NodeBytes(Splice(data, o + 4 * k, Le32(x)), nodes[o := nodes[o][k := x]])
  {
    var d := Splice(data, o + 4 * k, Le32(x));
    var n := nodes[o := nodes[o][k := x]];
    forall p, j | p in n && 0 <= j < NODE_WORDS
      ensures WordAt(d, p + 4 * j) == n[p][j]
    {
      assert p + NODE_SIZE <= |data|;
      PutWordAt(data, o + 4 * k, x, p + 4 * j);
      if p in nodes && !(p == o && j == k) {
        assert WordAt(data, p + 4 * j) == nodes[p][j];
      }
    }
  }

  /** A copy that stays away from the records leaves them as they were. */
  lemma SpliceRaws(data: seq<Byte>, at: nat, s: seq<Byte>, raws: RawMap)
    requires RawBytes(data, raws) && at + |s| <= |data|
    requires forall o :: o in raws ==> at + |s| <= o || o + |raws[o]| <= at
    ensures RawBytes(Splice(data, at, s), raws)
  {
    forall o | o in raws ensures Splice(data, at, s)[o..o + |raws[o]|] == raws[o] {
      SpliceOutside(data, at, s, o, o + |raws[o]|);
    }
  }

  lemma SpliceNodes(data: seq<Byte>, at: nat, s: seq<Byte>, nodes: NodeMap)
    requires NodeBytes(data, nodes) && at + |s| <= |data|
    requires forall o :: o in nodes ==> at + |s| <= o || o + NODE_SIZE <= at
    ensures NodeBytes(Splice(data, at, s), nodes)
  {
    forall o, k | o in nodes && 0 <= k < NODE_WORDS
      ensures WordAt(Splice(data, at, s), o + 4 * k) == nodes[o][k]
    {
      SpliceOutside(data, at, s, o + 4 * k, o + 4 * k + 4);
    }
  }

  lemma SpliceTail(data: seq<Byte>, at: nat, s: seq<Byte>, used: nat)
    requires ZeroTail(data, used) && at + |s| <= used
    ensures ZeroTail(Splice(data, at, s), used)
  {
  }

  lemma PutWordImage(data: seq<Byte>, used: nat, nodes: NodeMap, raws: RawMap, o: nat, k: nat, x: U32)
    requires Image(data, used, nodes, raws) && o in nodes && k < NODE_WORDS
    ensures Image(Splice(data, o + 4 * k, Le32(x)), used, nodes[o := nodes[o][k := x]], raws)
  {
    PutWordNodes(data, used, nodes, o, k, x);
    SpliceRaws(data, o + 4 * k, Le32(x), raws);
    SpliceTail(data, o + 4 * k, Le32(x), used);
  }

  // ----- a whole node

  ghost predicate WordsOf(bytes: seq<Byte>, w: Words) {
    |bytes| == NODE_SIZE && forall k :: 0 <= k < NODE_WORDS ==> WordAt(bytes, 4 * k) == w[k]
  }

  lemma ZeroWords()
    ensures WordsOf(Zeros(NODE_SIZE), BlankNode())
  {
    forall k | 0 <= k < NODE_WORDS ensures WordAt(Zeros(NODE_SIZE), 4 * k) == 0 {
      assert Zeros(NODE_SIZE)[4 * k..4 * k + 4] == [0, 0, 0, 0];
    }
  }

  lemma NodeWords(data: seq<Byte>, nodes: NodeMap, o: nat)
    requires NodeBytes(data, nodes) && o in nodes && o + NODE_SIZE <= |data|
    ensures WordsOf(data[o..o + NODE_SIZE], nodes[o])
  {
    var b := data[o..o + NODE_SIZE];
    forall k | 0 <= k < NODE_WORDS ensures WordAt(b, 4 * k) == nodes[o][k] {
      SliceOfSlice(data, o, o + NODE_SIZE, 4 * k, 4 * k + 4);
      assert WordAt(data, o + 4 * k) == nodes[o][k];
    }
  }

  /** The range of a node that is there already, or one of free bytes. */
  ghost predicate NodeRoom(used: nat, nodes: NodeMap, raws: RawMap, o: nat) {
    && o + NODE_SIZE <= used
    && (forall p :: p in nodes && p != o ==> p + NODE_SIZE <= o || o + NODE_SIZE <= p)
    && (forall p :: p in raws ==> p + |raws[p]| <= o || o + NODE_SIZE <= p)
  }

  lemma PutNodeBytes(data: seq<Byte>, nodes: NodeMap, o: nat, bytes: seq<Byte>, w: Words)
    requires NodeBytes(data, nodes) && WordsOf(bytes, w) && o + NODE_SIZE <= |data|
    requires forall p :: p in nodes && p != o ==> p + NODE_SIZE <= o || o + NODE_SIZE <= p
    ensures NodeBytes(Splice(data, o, bytes), nodes[o := w])
  {
    var d := Splice(data, o, bytes);
    var n := nodes[o := w];
    forall p, k | p in n && 0 <= k < NODE_WORDS
      ensures WordAt(d, p + 4 * k) == n[p][k]
    {
      if p == o {
        SpliceInto(data, o, bytes);
        SliceOfSlice(d, o, o + NODE_SIZE, 4 * k, 4 * k + 4);
        assert d[o + 4 * k..o + 4 * k + 4] == bytes[4 * k..4 * k + 4];
        assert WordAt(bytes, 4 * k) == w[k];
      } else {
        assert WordAt(data, p + 4 * k) == nodes[p][k];
        SpliceOutside(data, o, bytes, p + 4 * k, p + 4 * k + 4);
      }
    }
  }

  lemma PutNodeImage(data: seq<Byte>, used: nat, nodes: NodeMap, raws: RawMap,
                     o: nat, bytes: seq<Byte>, w: Words)
    requires Image(data, used, nodes, raws) && NodeRoom(used, nodes, raws, o) && WordsOf(bytes, w)
    ensures Image(Splice(data, o, bytes), used, nodes[o := w], raws)
  {
    PutNodeBytes(data, nodes, o, bytes, w);
    SpliceRaws(data, o, bytes, raws);
    SpliceTail(data, o, bytes, used);
  }

  // ----- records

  lemma AppendRawImage(data: seq<Byte>, used: nat, nodes: NodeMap, raws: RawMap, s: seq<Byte>)
    requires Image(data, used, nodes, raws) && 0 < |s| && used + |s| <= |data|
    ensures Image(Splice(data, used, s), used + |s|, nodes, raws[used := s])
  {
    SpliceNodes(data, used, s, nodes);
    SpliceRaws(data, used, s, raws);
    assert ZeroTail(Splice(data, used, s), used + |s|);
    assert Splice(data, used, s)[used..used + |s|] == s by { SpliceInto(data, used, s); }
    AppendLaid(used, nodes, raws, s);
    hide Laid, NodeBytes, ZeroTail, Splice;
  }

  lemma AppendLaid(used: nat, nodes: NodeMap, raws: RawMap, s: seq<Byte>)
    requires Laid(used, nodes, raws) && 0 < |s|
    ensures Laid(used + |s|, nodes, raws[used := s])
  {
  }

  /** A copy into the record at o, seen from the other records. */
  lemma SpliceInside(data: seq<Byte>, at: nat, s: seq<Byte>, raws: RawMap, o: nat, r: seq<Byte>)
    requires RawBytes(data, raws) && o in raws
    requires forall p, q :: p in raws && q in raws && p < q ==> p + |raws[p]| <= q
    requires o <= at && at + |s| <= o + |raws[o]|
    requires |r| == |raws[o]| && Splice(data, at, s)[o..o + |r|] == r
    ensures RawBytes(Splice(data, at, s), raws[o := r])
  {
    forall p | p in raws && p != o ensures Splice(data, at, s)[p..p + |raws[p]|] == raws[p] {
      SpliceOutside(data, at, s, p, p + |raws[p]|);
    }
  }

  lemma PatchRawBytes(data: seq<Byte>, raws: RawMap, o: nat, at: nat, s: seq<Byte>, r: seq<Byte>)
    requires RawBytes(data, raws) && o in raws && at + |s| <= |raws[o]| && r == Splice(raws[o], at, s)
    requires forall p, q :: p in raws && q in raws && p < q ==> p + |raws[p]| <= q
    ensures RawBytes(Splice(data, o + at, s), raws[o := r])
  {
    assert data[o..o + |r|] == raws[o];
    SpliceWithin(data, o, |r|, at, s);
    SpliceInside(data, o + at, s, raws, o, r);
  }

  lemma PatchRawImage(data: seq<Byte>, used: nat, nodes: NodeMap, raws: RawMap,
                      o: nat, at: nat, s: seq<Byte>, raws': RawMap)
    requires Image(data, used, nodes, raws) && o in raws
    requires at + |s| <= |raws[o]| && raws' == raws[o := Splice(raws[o], at, s)]
    ensures Image(Splice(data, o + at, s), used, nodes, raws')
  {
    hide Laid, NodeBytes, RawBytes, ZeroTail, Splice;
    var r := Splice(raws[o], at, s);
    RawAlone(data, used, nodes, raws, o);
    SpliceNodes(data, o + at, s, nodes);
    SpliceTail(data, o + at, s, used);
    PatchRawBytes(data, raws, o, at, s, r);
    LaidSameLen(used, nodes, raws, o, r);
  }

  lemma RawAlone(data: seq<Byte>, used: nat, nodes: NodeMap, raws: RawMap, o: nat)
    requires Laid(used, nodes, raws) && ZeroTail(data, used) && o in raws
    ensures o + |raws[o]| <= used <= |data|
    ensures forall p :: p in nodes ==> o + |raws[o]| <= p || p + NODE_SIZE <= o
    ensures forall p, q :: p in raws && q in raws && p < q ==> p + |raws[p]| <= q
  {
  }

  lemma LaidSameLen(used: nat, nodes: NodeMap, raws: RawMap, o: nat, r: seq<Byte>)
    requires Laid(used, nodes, raws) && o in raws && |r| == |raws[o]|
    ensures Laid(used, nodes, raws[o := r])
  {
  }

  /** Overwriting the value of a record by one of the same length. */
  lemma PatchRec(r: Rec, v: Value)
    requires ValidRec(r) && ValidValue(v) && ValLen(v) == ValLen(r.val)
    ensures ValidRec(r.(val := v))
    ensures EncodeRec(r.(val := v)) == Splice(EncodeRec(r), KeyLen(r), EncodeVal(v))
  {
  }

  // ----- the same for records as values

  lemma AppendRecImage(data: seq<Byte>, used: nat, nodes: NodeMap, recs: RecMap, spare: RawMap, r: Rec)
    requires ValidRecs(recs) && Image(data, used, nodes, All(recs, spare))
    requires ValidRec(r) && used + RecLen(r) <= |data|
    ensures ValidRecs(recs[used := r])
    ensures Image(Splice(data, used, EncodeRec(r)), used + RecLen(r), nodes, All(recs[used := r], spare))
  {
    AppendRawImage(data, used, nodes, All(recs, spare), EncodeRec(r));
    AllUpdate(recs, spare, used, r);
  }

  lemma RecRange(data: seq<Byte>, used: nat, nodes: NodeMap, recs: RecMap, spare: RawMap, o: nat)
    requires ValidRecs(recs) && Image(data, used, nodes, All(recs, spare)) && o in recs
    ensures ValidRec(recs[o]) && o + RecLen(recs[o]) <= used <= |data|
    ensures data[o..o + RecLen(recs[o])] == EncodeRec(recs[o])
  {
    hide All, ValidRec, ValidRecs, EncodeRec, Splice;
    AllAt(recs, spare, o);
    RawThere(data, used, nodes, All(recs, spare), o);
  }

  lemma RawThere(data: seq<Byte>, used: nat, nodes: NodeMap, raws: RawMap, o: nat)
    requires Image(data, used, nodes, raws) && o in raws
    ensures o + |raws[o]| <= used <= |data| && data[o..o + |raws[o]|] == raws[o]
  {
  }

  lemma UnusedOffset(data: seq<Byte>, used: nat, nodes: NodeMap, recs: RecMap, spare: RawMap, o: nat)
    requires ValidRecs(recs) && Image(data, used, nodes, All(recs, spare)) && o >= used
    ensures o !in recs && o !in nodes
  {
    assert o !in All(recs, spare);
  }

  lemma PatchRecImage(data: seq<Byte>, used: nat, nodes: NodeMap, recs: RecMap, spare: RawMap, o: nat, v: Value)
    requires ValidRecs(recs) && Image(data, used, nodes, All(recs, spare)) && o in recs
    requires ValidValue(v) && ValLen(v) == ValLen(recs[o].val)
    ensures ValidRecs(recs[o := recs[o].(val := v)])
    ensures o + KeyLen(recs[o]) + ValLen(v) <= |data|
    ensures Image(Splice(data, o + KeyLen(recs[o]), EncodeVal(v)), used, nodes,
                  All(recs[o := recs[o].(val := v)], spare))
  {
    hide Image, All, ValidRecs, EncodeRec, EncodeVal, Splice, KeyLen, ValLen;
    var r, raws := recs[o], All(recs, spare);
    var r' := r.(val := v);
    RecRange(data, used, nodes, recs, spare, o);
    PatchRec(r, v);
    PatchedLens(r, v);
    AllUpdate(recs, spare, o, r');
    AllAt(recs, spare, o);
    PatchRawImage(data, used, nodes, raws, o, KeyLen(r), EncodeVal(v), All(recs[o := r'], spare));
  }

  lemma PatchedLens(r: Rec, v: Value)
    requires ValidRec(r) && ValidValue(v) && ValLen(v) == ValLen(r.val)
    ensures ValidRec(r.(val := v)) && |EncodeVal(v)| == ValLen(v) && RecLen(r) == KeyLen(r) + ValLen(v)
    ensures |EncodeRec(r)| == RecLen(r)
  {
  }

  lemma AllAt(recs: RecMap, spare: RawMap, o: nat)
    requires ValidRecs(recs) && o in recs
    ensures ValidRec(recs[o]) && o in All(recs, spare) && All(recs, spare)[o] == EncodeRec(recs[o])
  {
  }

  // ----- a node in the free bytes

  /** Clearing free bytes changes nothing: they are zero already. */
  lemma ClearTail(data: seq<Byte>, used: nat, n: nat)
    requires ZeroTail(data, used) && used + n <= |data|
    ensures Splice(data, used, Zeros(n)) == data
  {
  }

  /** Taking the next 96 free bytes, of which any part may be cleared first, gives a node of zeros. */
  lemma BlankNodeImage(data: seq<Byte>, used: nat, nodes: NodeMap, raws: RawMap, cleared: nat)
    requires Image(data, used, nodes, raws) && used + NODE_SIZE <= |data| && cleared <= NODE_SIZE
    ensures Image(Splice(data, used, Zeros(cleared)), used + NODE_SIZE, nodes[used := BlankNode()], raws)
  {
    ClearTail(data, used, cleared);
    ClearTail(data, used, NODE_SIZE);
    ZeroWords();
    PutNodeImage(data, used + NODE_SIZE, nodes, raws, used, Zeros(NODE_SIZE), BlankNode());
  }

  // ----- a root node in bytes that are free or given up

  /** A stretch of len bytes at o that has none of the 96 bytes from n on. */
  ghost predicate Misses(o: nat, len: nat, n: nat) {
    o + len <= n || n + NODE_SIZE <= o
  }

  ghost function NodesOff(nodes: NodeMap, n: nat): NodeMap {
    map o | o in nodes && Misses(o, NODE_SIZE, n) :: nodes[o]
  }

  ghost function RecsOff(recs: RecMap, n: nat): RecMap {
    map o | o in recs && Misses(o, RecLen(recs[o]), n) :: recs[o]
  }

  /** The spare stretches away from n, and what is in use of the 96 bytes from n on. */
  ghost function SpareAt(data: seq<Byte>, used: nat, recs: RecMap, spare: RawMap, n: nat): RawMap
    requires used <= |data|
  {
    var off := map o | o in spare && o !in recs && o != n && Misses(o, |spare[o]|, n) :: spare[o];
    var hi := if used < n + NODE_SIZE then used else n + NODE_SIZE;
    if n < hi then off[n := data[n..hi]] else off
  }

  /** Whatever lies in the 96 bytes from n on can be given up. */
  lemma VacateImage(data: seq<Byte>, used: nat, nodes: NodeMap, recs: RecMap, spare: RawMap, n: nat)
    requires ValidRecs(recs) && Image(data, used, nodes, All(recs, spare)) && used <= |data|
    ensures ValidRecs(RecsOff(recs, n))
    ensures Image(data, used, NodesOff(nodes, n), All(RecsOff(recs, n), SpareAt(data, used, recs, spare, n)))
  {
    var nodes', recs', spare' := NodesOff(nodes, n), RecsOff(recs, n), SpareAt(data, used, recs, spare, n);
    var raws, raws' := All(recs, spare), All(recs', spare');
    var hi := if used < n + NODE_SIZE then used else n + NODE_SIZE;
    VacateRaws(data, used, recs, spare, n);
    hide All, RecsOff, SpareAt, ValidRecs, Image;
    StretchInstead(data, used, nodes, raws, nodes', raws', n, hi);
  }

  /** What is left of a layout that misses a stretch, and maybe that stretch. */
  lemma StretchInstead(data: seq<Byte>, used: nat, nodes: NodeMap, raws: RawMap, nodes': NodeMap, raws': RawMap,
                       n: nat, hi: nat)
    requires Image(data, used, nodes, raws)
    requires forall o :: o in nodes' ==> o in nodes && nodes'[o] == nodes[o] && Misses(o, NODE_SIZE, n)
    requires forall o :: o in raws' && o != n ==> o in raws && raws'[o] == raws[o] && Misses(o, |raws[o]|, n)
    requires hi <= used <= |data| && hi <= n + NODE_SIZE && (n in raws' ==> n < hi && raws'[n] == data[n..hi])
    ensures Image(data, used, nodes', raws')
  {
    var rest := raws' - {n};
    hide Holding, Misses;
    SubImage(data, used, nodes, raws, nodes', rest);
    if n in raws' {
      StretchImage(data, used, nodes', rest, n, hi);
      assert rest[n := data[n..hi]] == raws';
    } else {
      assert rest == raws';
    }
  }

  lemma VacateRaws(data: seq<Byte>, used: nat, recs: RecMap, spare: RawMap, n: nat)
    requires ValidRecs(recs) && used <= |data|
    ensures ValidRecs(RecsOff(recs, n))
    ensures var raws, raws' := All(recs, spare), All(RecsOff(recs, n), SpareAt(data, used, recs, spare, n));
            var hi := if used < n + NODE_SIZE then used else n + NODE_SIZE;
            && (forall o :: o in raws' && o != n ==> o in raws && raws'[o] == raws[o] && Misses(o, |raws[o]|, n))
            && (n in raws' ==> n < hi && raws'[n] == data[n..hi])
  {
    var recs', spare' := RecsOff(recs, n), SpareAt(data, used, recs, spare, n);
    assert n !in recs' by { assert n in recs ==> !Misses(n, RecLen(recs[n]), n); }
    assert forall o :: o in spare' && o !in recs' && o != n ==> o in spare && o !in recs && spare'[o] == spare[o];
  }

  /** A stretch of bytes that nothing overlaps can be kept an eye on. */
  lemma StretchImage(data: seq<Byte>, used: nat, nodes: NodeMap, raws: RawMap, n: nat, hi: nat)
    requires Image(data, used, nodes, raws) && n < hi <= used && hi <= n + NODE_SIZE && n !in raws
    requires forall o :: o in nodes ==> Misses(o, NODE_SIZE, n)
    requires forall o :: o in raws ==> Misses(o, |raws[o]|, n)
    ensures used <= |data| && Image(data, used, nodes, raws[n := data[n..hi]])
  {
    StretchLaid(used, nodes, raws, n, data[n..hi]);
    hide Laid, NodeBytes;
  }

  lemma StretchLaid(used: nat, nodes: NodeMap, raws: RawMap, n: nat, s: seq<Byte>)
    requires Laid(used, nodes, raws) && 0 < |s| && n + |s| <= used && |s| <= NODE_SIZE
    requires forall o :: o in nodes ==> Misses(o, NODE_SIZE, n)
    requires forall o :: o in raws ==> Misses(o, |raws[o]|, n)
    ensures Laid(used, nodes, raws[n := s])
  {
    var raws' := raws[n := s];
    forall o, p | o in nodes && p in raws' ensures o + NODE_SIZE <= p || p + |raws'[p]| <= o {
      if p == n { assert Misses(o, NODE_SIZE, n); }
    }
    forall o, p | o in raws' && p in raws' && o < p ensures o + |raws'[o]| <= p {
      if o == n { assert Misses(p, |raws[p]|, n); }
      if p == n { assert Misses(o, |raws[o]|, n); }
    }
  }

  /** The bytes once 88 of them have been cleared from n on, a word has been written at n, and some have been added. */
  ghost predicate RootBytes(data: seq<Byte>, n: nat, word: U32, data': seq<Byte>) {
    && |data| <= |data'| && n + NODE_SIZE <= |data'|
    && forall i :: 0 <= i < |data'| ==>
         data'[i] == if n <= i < n + 4 then Le32(word)[i - n]
                     else if n <= i < n + NODE_SIZE - 8 then 0
                     else if i < |data| then data[i]
                     else 0
  }

  /** None of the 96 bytes from n on belongs to anything. */
  ghost predicate RootRoom(nodes: NodeMap, recs: RecMap, n: nat) {
    && (forall o :: o in nodes ==> Misses(o, NODE_SIZE, n))
    && (forall o :: o in recs ==> Misses(o, RecLen(recs[o]), n))
  }

  /** Past its end a buffer is as good as zero. */
  function ByteAt(data: seq<Byte>, i: nat): Byte {
    if i < |data| then data[i] else 0
  }

  function LooseWord(data: seq<Byte>, a: nat): U32 {
    FromLe32([ByteAt(data, a), ByteAt(data, a + 1), ByteAt(data, a + 2), ByteAt(data, a + 3)])
  }

  /** The 8 bytes that the clearing of a root leaves out. */
  ghost predicate TailUnset(data: seq<Byte>, n: nat) {
    forall i :: n + NODE_SIZE - 8 <= i < n + NODE_SIZE && i < |data| ==> data[i] == 0
  }

  /** The words of a root once it has been cleared and its type written: the last two are what they were. */
  ghost function RootLeft(data: seq<Byte>, n: nat, word: U32): Words {
    BlankNode()[GEN_TYPE := word]
      [CHILD_OFS + SLOTS - 1 := LooseWord(data, n + NODE_SIZE - 8)]
      [CHILD_OFS + SLOTS := LooseWord(data, n + NODE_SIZE - 4)]
  }

  lemma UnsetLeft(data: seq<Byte>, n: nat, word: U32)
    requires TailUnset(data, n)
    ensures RootLeft(data, n, word) == BlankNode()[GEN_TYPE := word]
  {
    assert forall i: nat :: n + NODE_SIZE - 8 <= i < n + NODE_SIZE ==> ByteAt(data, i) == 0;
  }

  lemma LooseAt(data: seq<Byte>, a: nat)
    requires a + 4 <= |data|
    ensures LooseWord(data, a) == WordAt(data, a)
  {
    assert data[a..a + 4] == [data[a], data[a + 1], data[a + 2], data[a + 3]];
  }

  lemma RoomApart(nodes: NodeMap, recs: RecMap, n: nat)
    requires RootRoom(nodes, recs, n)
    ensures n !in nodes
  {
    assert !Misses(n, NODE_SIZE, n);
  }

  lemma RootImage(data: seq<Byte>, used: nat, nodes: NodeMap, recs: RecMap, spare: RawMap, n: nat, word: U32,
                  data': seq<Byte>)
    requires ValidRecs(recs) && Image(data, used, nodes, All(recs, spare)) && n <= used <= |data|
    requires RootRoom(nodes, recs, n) && RootBytes(data, n, word, data') && used + NODE_SIZE <= |data'|
    ensures Image(data', used + NODE_SIZE, nodes[n := RootLeft(data, n, word)], All(recs, map[]))
  {
    AllLens(recs, spare);
    RoomThere(used, nodes, recs, n);
    RootWords(data, n, word, data');
    hide All, ValidRecs, Image, NodeRoom, RootRoom, WordsOf, RootLeft;
    SubImage(data, used, nodes, All(recs, spare), nodes, All(recs, map[]));
    RawRootImage(data, used, nodes, All(recs, map[]), n, word, data', RootLeft(data, n, word));
  }

  /** How those bytes come about. */
  lemma RootPut(data: seq<Byte>, used: nat, grown: seq<Byte>, n: nat, word: U32)
    requires data <= grown && ZeroTail(grown, used) && used <= |data| && n + NODE_SIZE <= |grown|
    ensures RootBytes(data, n, word, Splice(Splice(grown, n, Zeros(NODE_SIZE - 8)), n, Le32(word)))
  {
    var d1 := Splice(grown, n, Zeros(NODE_SIZE - 8));
    var d2 := Splice(d1, n, Le32(word));
    assert |d2| == |grown|;
    forall i | 0 <= i < |d2|
      ensures d2[i] == if n <= i < n + 4 then Le32(word)[i - n]
                       else if n <= i < n + NODE_SIZE - 8 then 0
                       else if i < |data| then data[i]
                       else 0
    {
      assert grown[i] == if i < |data| then data[i] else 0;
    }
  }

  /** A root begins with its type and generation 1; behind that 88 bytes are clear, and nothing else has changed. */
  lemma RootStart(data: seq<Byte>, n: nat, typ: Byte, data': seq<Byte>)
    requires RootBytes(data, n, GenTypeWord(1, typ), data')
    ensures n + 96 <= |data'| && data'[n] == typ && data'[n + 1] == 1
    ensures forall i :: n + 2 <= i < n + 88 ==> data'[i] == 0
    ensures forall i :: 0 <= i < |data| && !(n <= i < n + 88) ==> i < |data'| && data'[i] == data[i]
  {
    var w := Le32(GenTypeWord(1, typ));
    assert GenTypeWord(1, typ) == 0x100 + typ && w == [typ, 1, 0, 0];
    forall i | n <= i < n + 4 ensures data'[i] == w[i - n] {
    }
  }

  lemma RawRootImage(data: seq<Byte>, used: nat, nodes: NodeMap, raws: RawMap, n: nat, word: U32, data': seq<Byte>,
                     w: Words)
    requires Image(data, used, nodes, raws) && n <= used <= |data|
    requires RootBytes(data, n, word, data') && used + NODE_SIZE <= |data'|
    requires NodeRoom(used + NODE_SIZE, nodes, raws, n)
    requires WordsOf(data'[n..n + NODE_SIZE], w)
    ensures Image(data', used + NODE_SIZE, nodes[n := w], raws)
  {
    var grown, bytes := data + Zeros(|data'| - |data|), data'[n..n + NODE_SIZE];
    assert Splice(grown, n, bytes) == data' by { hide WordsOf, NodeRoom, Image; RootSplice(data, n, word, data'); }
    hide Holding, NodeRoom, WordsOf, RootBytes, Splice;
    GrowImage(data, used, nodes, raws, |data'| - |data|);
    SkipImage(grown, used, used + NODE_SIZE, nodes, raws);
    PutNodeImage(grown, used + NODE_SIZE, nodes, raws, n, bytes, w);
  }

  lemma RootSplice(data: seq<Byte>, n: nat, word: U32, data': seq<Byte>)
    requires RootBytes(data, n, word, data')
    ensures Splice(data + Zeros(|data'| - |data|), n, data'[n..n + NODE_SIZE]) == data'
  {
  }

  lemma RoomThere(used: nat, nodes: NodeMap, recs: RecMap, n: nat)
    requires ValidRecs(recs) && n <= used && RootRoom(nodes, recs, n)
    ensures NodeRoom(used + NODE_SIZE, nodes, All(recs, map[]), n)
  {
  }

  lemma AllLens(recs: RecMap, spare: RawMap)
    requires ValidRecs(recs)
    ensures var raws, less := All(recs, spare), All(recs, map[]);
            forall o :: o in less ==> o in raws && less[o] == raws[o]
  {
  }

  lemma RootWords(data: seq<Byte>, n: nat, word: U32, data': seq<Byte>)
    requires RootBytes(data, n, word, data')
    ensures WordsOf(data'[n..n + NODE_SIZE], RootLeft(data, n, word))
  {
    var b, w := data'[n..n + NODE_SIZE], RootLeft(data, n, word);
    assert b[0..4] == Le32(word);
    forall k | 0 <= k < NODE_WORDS ensures WordAt(b, 4 * k) == w[k] {
      if 1 <= k < CHILD_OFS + SLOTS - 1 {
        assert forall j :: 4 * k <= j < 4 * k + 4 ==> b[j] == data'[n + j] == 0;
        assert b[4 * k..4 * k + 4] == [0, 0, 0, 0];
      } else if k > 0 {
        RootTail(data, n, word, data', 4 * k);
      }
    }
  }

  lemma RootTail(data: seq<Byte>, n: nat, word: U32, data': seq<Byte>, at: nat)
    requires RootBytes(data, n, word, data') && NODE_SIZE - 8 <= at <= NODE_SIZE - 4
    ensures WordAt(data'[n..n + NODE_SIZE], at) == LooseWord(data, n + at)
  {
    var b := data'[n..n + NODE_SIZE];
    assert forall j :: at <= j < at + 4 ==> b[j] == data'[n + j] == ByteAt(data, n + j);
    assert b[at..at + 4] == [b[at], b[at + 1], b[at + 2], b[at + 3]];
  }
}
