/** JSON in and out of a buffer, and why a document comes back as it went in. */
module JsonIO {
  import opened Bytes
  import opened Records
  import opened Nodes
  import opened Layout
  import opened Hash
  import opened Order
  import opened Trees
  import opened Routes
  import opened Zipper
  import opened Steps
  import opened Heights
  import opened Crowds
  import opened Paths
  import opened Turns
  import opened Refinement
  import opened Forests
  import opened Nestings
  import opened Generations
  import opened Stacks
  import opened Buffers
  import opened Iterators
  import opened Documents
  import Hex

  type Bits64 = s: seq<Byte> | |s| == 8 witness [0, 0, 0, 0, 0, 0, 0, 0]

  /** JSON as the parser hands it over. Numbers are the eight bytes they are stored as. */
  datatype Json =
    | Nil
    | Truth(b: bool)
    | Whole(bits: Bits64)
    | Fraction(bits: Bits64)
    | Text(s: seq<Byte>)
    | Arr(items: seq<Json>)
    | Obj(members: seq<Member>)
  datatype Member = Member(key: seq<Byte>, value: Json)

  /** A string read through a pointer without its length: all of it before the first NUL. */
  function UpToNul(s: seq<Byte>): (u: seq<Byte>)
    ensures u <= s && 0 !in u && (u == s <==> 0 !in s)
    ensures |u| < |s| ==> s[|u|] == 0
  {
    if s == [] || s[0] == 0 then []
    else
      assert s == [s[0]] + s[1..];
      [s[0]] + UpToNul(s[1..])
  }

  /** The string that a pointer into the buffer stands for. */
  function CString(d: seq<Byte>, at: nat): (u: seq<Byte>)
    decreases |d| - at
  {
    if at >= |d| || d[at] == 0 then [] else [d[at]] + CString(d, at + 1)
  }

  /** A key with its terminator, as it lies in the buffer. */
  lemma {:induction false} CStringOfKey(d: seq<Byte>, at: nat, key: Key)
    requires at + |key| < |d| && d[at..at + |key|] == key && d[at + |key|] == 0
    ensures CString(d, at) == UpToNul(key)
    decreases key
  {
    if key != [] {
      assert d[at] == d[at..at + |key|][0];
      assert d[at + 1..at + 1 + |key[1..]|] == d[at..at + |key|][1..];
      CStringOfKey(d, at + 1, key[1..]);
    }
  }

  function BoolValue(b: bool): Value {
    Value(Bool, [if b then 1 else 0])
  }

  /** What a JSON text says: objects without the order of their members, the last of equal keys winning. */
  function Meaning(j: Json): Doc
    decreases j, 0
  {
    match j
    case Nil => Atom(Value(Null, []))
    case Truth(b) => Atom(BoolValue(b))
    case Whole(bits) => Atom(Value(Int64, bits))
    case Fraction(bits) => Atom(Value(Float64, bits))
    case Text(s) => Atom(Value(String, s))
    case Arr(items) => List(seq(|items|, i requires 0 <= i < |items| => Meaning(items[i])))
    case Obj(members) => Dict(MembersMeaning(members))
  }

  function MembersMeaning(ms: seq<Member>): map<Key, Doc>
    decreases ms, 0
  {
    if ms == [] then map[]
    else
      var n := |ms| - 1;
      MembersMeaning(ms[..n])[UpToNul(ms[n].key) := Meaning(ms[n].value)]
  }

  // ----- leaves

  function OnLeaves(d: Doc, g: Value -> Value): Doc
    decreases d
  {
    match d
    case Atom(v) => Atom(g(v))
    case Dict(m) => Dict(map k | k in m :: OnLeaves(m[k], g))
    case List(s) => List(seq(|s|, i requires 0 <= i < |s| => OnLeaves(s[i], g)))
  }

  function OnMembers(m: map<Key, Doc>, g: Value -> Value): map<Key, Doc> {
    map k | k in m :: OnLeaves(m[k], g)
  }

  lemma {:induction false} OnLeavesTwice(d: Doc, g: Value -> Value, h: Value -> Value, gh: Value -> Value)
    requires forall v :: h(g(v)) == gh(v)
    ensures OnLeaves(OnLeaves(d, g), h) == OnLeaves(d, gh)
    decreases d
  {
    match d
    case Atom(v) =>
    case Dict(m) =>
      forall k | k in m ensures OnLeaves(OnLeaves(m[k], g), h) == OnLeaves(m[k], gh) { OnLeavesTwice(m[k], g, h, gh); }
      assert OnLeaves(OnLeaves(d, g), h).m == OnLeaves(d, gh).m;
    case List(s) =>
      forall i | 0 <= i < |s| ensures OnLeaves(OnLeaves(s[i], g), h) == OnLeaves(s[i], gh) { OnLeavesTwice(s[i], g, h,
                                               gh); }
      assert OnLeaves(OnLeaves(d, g), h).s == OnLeaves(d, gh).s;
  }

  /** A 64-bit integer, in two's complement, low byte first. */
  function IntegerOf(bits: Bits64): int {
    var low, high := FromLe32(bits[..4]), FromLe32(bits[4..]);
    low + 0x1_0000_0000 * (if high < 0x8000_0000 then high else high - 0x1_0000_0000)
  }

  /** What is left of it after it has been an int of 32 bits: the low four bytes, with their sign carried on. */
  function Narrowed(bits: Bits64): Bits64 {
    bits[..4] + if bits[3] < 0x80 then [0, 0, 0, 0] else [0xff, 0xff, 0xff, 0xff]
  }

  lemma IntegerSum(bits: Bits64)
    ensures var low, high := FromLe32(bits[..4]), FromLe32(bits[4..]);
            && LittleAt(bits, 0, low) && LittleAt(bits, 4, high)
            && IntegerOf(bits)
            == low + 0x1_0000_0000 * high - if bits[7] >= 0x80 then 0x1_0000_0000_0000_0000 else 0
  {
    assert bits[0..4] == bits[..4] && bits[4..8] == bits[4..];
    WordLittle(bits, 0);
    WordLittle(bits, 4);
  }

  /** The integer of 32 bits that differs from it by a multiple of 2^32. */
  lemma NarrowedWraps(bits: Bits64)
    ensures (IntegerOf(Narrowed(bits)) - IntegerOf(bits)) % 0x1_0000_0000 == 0
    ensures -0x8000_0000 <= IntegerOf(Narrowed(bits)) < 0x8000_0000
  {
    var n := Narrowed(bits);
    assert n[..4] == bits[..4];
    IntegerLow(bits);
    IntegerLow(n);
    NarrowedKeeps(n);
    assert n[3] == bits[3] && Narrowed(n) == n;
  }

  lemma IntegerLow(bits: Bits64)
    ensures (IntegerOf(bits) - FromLe32(bits[..4])) % 0x1_0000_0000 == 0
  {
  }

  /** Exactly the integers of 32 bits come through. */
  lemma NarrowedKeeps(bits: Bits64)
    ensures Narrowed(bits) == bits <==> -0x8000_0000 <= IntegerOf(bits) < 0x8000_0000
  {
    var low, high := bits[..4], bits[4..];
    assert bits == low + high && bits[3] == low[3];
    var top: int := low[3];
    assert 0 <= FromLe32(low) - 0x100_0000 * top < 0x100_0000;
    assert FromLe32(high) == 0 <==> high == [0, 0, 0, 0];
    assert FromLe32(high) == 0xffff_ffff <==> high == [0xff, 0xff, 0xff, 0xff];
    assert Narrowed(bits)[4..] == high <==> Narrowed(bits) == bits;
  }

  /** What a value is stored as: integers lose their upper half, and strings that read as hex become bytes. */
  function Recognised(v: Value): Value {
    if v.typ == Int64 && |v.payload| == 8 then Value(Int64, Narrowed(v.payload))
    else if v.typ == String then
      var u := UpToNul(v.payload);
      match Hex.Decode(u)
      case Some(bytes) => Value(Type.Bytes, bytes)
      case None => Value(String, u)
    else v
  }

  /** What a stored value is written as: bytes as hex text. */
  function Shown(v: Value): Value {
    if v.typ == Type.Bytes then Value(String, Hex.Encode(v.payload))
    else if v.typ == Bool && |v.payload| == 1 then BoolValue(v.payload[0] != 0)
    else v
  }

  /** A JSON value after the round trip: integers are those of 32 bits, and hex text comes back in lower case. */
  function Returned(v: Value): Value {
    if v.typ == Int64 && |v.payload| == 8 then Value(Int64, Narrowed(v.payload))
    else if v.typ == String then
      var u := UpToNul(v.payload);
      Value(String, if Hex.Decode(u).Some? then Hex.Lower(u) else u)
    else Shown(v)
  }

  lemma ShownRecognised(v: Value)
    ensures Shown(Recognised(v)) == Returned(v)
  {
    if v.typ == String && Hex.Decode(UpToNul(v.payload)).Some? {
      Hex.EncodeDecode(UpToNul(v.payload));
    }
  }

  /** Exactly which texts come back as they were. */
  lemma TextReturned(s: seq<Byte>)
    ensures Returned(Value(String, s)) == Value(String, s)
       <==> 0 !in s && (|s| % 2 == 0 && (forall i :: 0 <= i < |s| ==> Hex.IsHexChar(s[i])) ==> Hex.Lower(s) == s)
  {
    Hex.DecodeDefined(s);
  }

  /** Exactly which integers do. */
  lemma IntegerReturned(bits: Bits64)
    ensures Returned(Value(Int64, bits)) == Value(Int64, bits) <==> -0x8000_0000 <= IntegerOf(bits) < 0x8000_0000
  {
    NarrowedKeeps(bits);
  }

  /** "AB" comes back as "ab". */
  lemma TextLost()
    ensures Returned(Value(String, [0x41, 0x42])) == Value(String, [0x61, 0x62]) != Value(String, [0x41, 0x42])
  {
    var s: seq<Byte> := [0x41, 0x42];
    Hex.DecodeDefined(s);
    assert UpToNul(s) == s && Hex.Lower(s) == [0x61, 0x62];
  }

  /** And 2^31 as -2^31. */
  lemma IntegerLost()
    ensures var bits: Bits64, back: Bits64 := [0, 0, 0, 0x80, 0, 0, 0, 0], [0, 0, 0, 0x80, 0xff, 0xff, 0xff, 0xff];
            && IntegerOf(bits) == 0x8000_0000 && IntegerOf(back) == -0x8000_0000
            && Returned(Value(Int64, bits)) == Value(Int64, back)
  {
  }

  // ----- what can be imported

  ghost predicate DistinctKeys(ms: seq<Member>) {
    forall i, j :: 0 <= i < j < |ms| ==> UpToNul(ms[i].key) != UpToNul(ms[j].key)
  }

  ghost predicate DistinctHashes(ms: seq<Member>) {
    forall i, j :: 0 <= i < j < |ms| ==> Djb2(UpToNul(ms[i].key)) != Djb2(UpToNul(ms[j].key))
  }

  /** Keys fit their tag, those of one object are different, and nothing is too long. */
  ghost predicate Importable(j: Json) {
    match j
    case Arr(items) => |items| < SIZE_LIMIT && forall i :: 0 <= i < |items| ==> Importable(items[i])
    case Obj(members) =>
      && |members| <= SET_ENTRIES_MAX && DistinctKeys(members)
      && forall i :: 0 <= i < |members| ==> |UpToNul(members[i].key)| <= KEY_MAX && Importable(members[i].value)
    case _ => true
  }

  predicate NoArrays(j: Json) {
    match j
    case Arr(_) => false
    case Obj(members) => forall i :: 0 <= i < |members| ==> NoArrays(members[i].value)
    case _ => true
  }

  /** No two keys of one object have the same hash. */
  ghost predicate Uncollided(j: Json) {
    match j
    case Arr(items) => forall i :: 0 <= i < |items| ==> Uncollided(items[i])
    case Obj(members) => DistinctHashes(members) && forall i :: 0 <= i < |members| ==> Uncollided(members[i].value)
    case _ => true
  }

  /** Every object is sorted, so that every lookup finds what is there. */
  ghost predicate AllSorted(f: Forest) {
    forall q :: q in f && !f[q].isArr ==> Sorted(InOrder(f[q].tree))
  }

  const MEMBER_BYTES: nat := 1152

  /** A bound for the bytes a value takes in the buffer. */
  ghost function Cost(j: Json): nat
    decreases j, 0
  {
    match j
    case Text(s) => |s|
    case Arr(items) => CostOfItems(items)
    case Obj(members) => CostOfMembers(members)
    case _ => 0
  }

  ghost function CostOfItems(items: seq<Json>): nat
    decreases items, 0
  {
    if items == [] then 0
    else
      var n := |items| - 1;
      CostOfItems(items[..n]) + MEMBER_BYTES + Cost(items[n])
  }

  ghost function CostOfMembers(ms: seq<Member>): nat
    decreases ms, 0
  {
    if ms == [] then 0
    else
      var n := |ms| - 1;
      CostOfMembers(ms[..n]) + MEMBER_BYTES + Cost(ms[n].value)
  }

  lemma {:induction false} ItemsCost(items: seq<Json>, i: nat)
    requires i < |items|
    ensures CostOfItems(items[..i]) + MEMBER_BYTES + Cost(items[i]) == CostOfItems(items[..i + 1]) <= CostOfItems(items)
    decreases |items|
  {
    assert items[..i + 1][..i] == items[..i];
    if i + 1 == |items| {
      assert items[..i + 1] == items;
    } else {
      var n := |items| - 1;
      ItemsCost(items[..n], i);
      assert items[..n][..i] == items[..i] && items[..n][..i + 1] == items[..i + 1];
    }
  }

  lemma {:induction false} MembersCost(ms: seq<Member>, i: nat)
    requires i < |ms|
    ensures CostOfMembers(ms[..i]) + MEMBER_BYTES + Cost(ms[i].value) == CostOfMembers(ms[..i + 1]) <= CostOfMembers(ms)
    decreases |ms|
  {
    assert ms[..i + 1][..i] == ms[..i];
    if i + 1 == |ms| {
      assert ms[..i + 1] == ms;
    } else {
      var n := |ms| - 1;
      MembersCost(ms[..n], i);
      assert ms[..n][..i] == ms[..i] && ms[..n][..i + 1] == ms[..i + 1];
    }
  }

  // ----- one member more

  ghost function KeySet(s: seq<Entry>): set<Key> {
    set i | 0 <= i < |s| :: s[i].id.key
  }

  ghost predicate GrownBy(s: seq<Entry>, k: Key, s': seq<Entry>) {
    |s'| <= |s| + 1 && KeySet(s') <= KeySet(s) + {k}
  }

  lemma LandedGrown(s: seq<Entry>, p: Place, e: Entry)
    requires Fits(s, e.id, p)
    ensures GrownBy(s, e.id.key, Landed(s, p, e))
  {
    var s' := Landed(s, p, e);
    forall k | k in KeySet(s') ensures k in KeySet(s) || k == e.id.key {
      var i :| 0 <= i < |s'| && s'[i].id.key == k;
      LandedMember(s, p, e, i);
    }
  }

  /** A key that is new to a run has a place of its own there, even if its hash is not new. */
  lemma FreshPlace(s: seq<Entry>, k: Key, p: Place, e: Entry)
    requires k !in KeySet(s) && e.id == Id(Djb2(k), k) && Fits(s, e.id, p)
    ensures KeyPlace(s, p, e) && !p.found
  {
    forall i | 0 <= i < |s| ensures s[i].id.key != k { assert s[i].id.key in KeySet(s); }
  }

  /** A fresh member is one more key of the document. */
  lemma MemberLanded(f: Forest, f': Forest, r: nat, k: Key, v: Value, e: Entry)
    requires Deep(f) && Deep(f') && r in f && r in f' && OnlyAt(f, r, f') && !f[r].isArr && !f'[r].isArr
    requires KeysUnique(InOrder(f[r].tree)) && k !in KeySet(InOrder(f[r].tree))
    requires SetLands(f[r].tree, Id(Djb2(k), k), v, e, f'[r].tree)
    ensures GrownBy(InOrder(f[r].tree), k, InOrder(f'[r].tree)) && KeysUnique(InOrder(f'[r].tree))
    ensures LinkedTo(f', false, e) && r < e.kv
    ensures DictOf(f', r, InOrder(f'[r].tree)) == DictOf(f, r, InOrder(f[r].tree))[k := EntryDoc(f', false, r, e)]
  {
    hide KeysUnique, SetLands, Answers, Deep, DictOf, EntryDoc, OnlyAt, KeySet, KeyPlace, GrownBy;
    var s := InOrder(f[r].tree);
    LandsUnder(f, f', r, k, v, e);
    var p := Route(f[r].tree, Id(Djb2(k), k));
    FreshPlace(s, k, p, e);
    LandedGrown(s, p, e);
    LandedUnique(s, p, e);
    HangsAt(f, r);
    HangsAt(f', r);
    AboveFrame(f, f', r, false, s);
    DictLanded(f, f', r, s, p, e);
  }

  lemma LandsUnder(f: Forest, f': Forest, r: nat, k: Key, v: Value, e: Entry)
    requires r in f && r in f' && SetLands(f[r].tree, Id(Djb2(k), k), v, e, f'[r].tree)
    ensures var s, p := InOrder(f[r].tree), Route(f[r].tree, Id(Djb2(k), k));
            Fits(s, e.id, p) && InOrder(f'[r].tree) == Landed(s, p, e) && e.id == Id(Djb2(k), k) && e.val == v
  {
  }

  lemma ObjectFacts(nodes: NodeMap, recs: RecMap, f: Forest, r: nat)
    requires Planted(nodes, recs, f) && r in f && !f[r].isArr
    ensures ObjectRun(InOrder(f[r].tree))
  {
    RootFacts(nodes, recs, f, r);
  }

  // ----- import

  /** The object at r has the member k with document d more than before; no other old tree has changed. */
  ghost predicate MemberSet(f: Forest, r: nat, k: Key, d: Doc, f': Forest) {
    && Deep(f) && Deep(f') && OnlyAt(f, r, f')
    && r in f && r in f' && !f[r].isArr && !f'[r].isArr
    && KeysUnique(InOrder(f'[r].tree))
    && GrownBy(InOrder(f[r].tree), k, InOrder(f'[r].tree))
    && DictOf(f', r, InOrder(f'[r].tree)) == DictOf(f, r, InOrder(f[r].tree))[k := d]
  }

  /** Likewise for an array that has one element more. */
  ghost predicate ItemAdded(f: Forest, r: nat, d: Doc, f': Forest) {
    && Deep(f) && Deep(f') && OnlyAt(f, r, f')
    && r in f && r in f' && f[r].isArr && f'[r].isArr
    && |InOrder(f'[r].tree)| == |InOrder(f[r].tree)| + 1
    && ListOf(f', r, InOrder(f'[r].tree)) == ListOf(f, r, InOrder(f[r].tree)) + [d]
  }

  /** An object that can be written out: small enough for the stack of the iterator, its keys without NUL. */
  ghost predicate Writable(r: Root) {
    && !r.isArr && |InOrder(r.tree)| <= ITER_ENTRIES_MAX
    && forall i :: 0 <= i < |InOrder(r.tree)| ==> 0 !in InOrder(r.tree)[i].id.key
  }

  ghost predicate Exportable(f: Forest) {
    forall q :: q in f ==> Writable(f[q])
  }

  /** As an import leaves it: its keys differ. */
  ghost predicate Clean(r: Root) {
    Writable(r) && KeysUnique(InOrder(r.tree))
  }

  ghost predicate AllClean(f: Forest) {
    forall q :: q in f ==> Clean(f[q])
  }

  ghost predicate Loaded(d: Doc, j: Json) {
    d == OnLeaves(Meaning(j), Recognised)
  }

  predicate IsLeaf(j: Json) {
    !j.Arr? && !j.Obj?
  }

  /** The value a leaf is stored as; strings are tried as hex first. */
  method LeafValue(j: Json) returns (v: Value)
    requires IsLeaf(j) && Cost(j) < U32_LIMIT
    ensures ValidValue(v) && !Nests(v) && ValLen(v) <= Cost(j) + 9
    ensures Loaded(Atom(v), j) && StoredAs(j, v)
  {
    hide StoredAs, IntegerOf, Hex.HexText, Hex.Reads;
    match j {
      case Nil => v := Value(Null, []);
      case Truth(b) => v := BoolValue(b);
      case Whole(bits) => v := Value(Int64, Narrowed(bits));
      case Fraction(bits) => v := Value(Float64, bits);
      case Text(s) =>
        var u := UpToNul(s);
        var decoded := Hex.HexDecode(u);
        if decoded.Ok? {
          v := Value(Type.Bytes, decoded.value);
          DecodedLen(u);
        } else {
          v := Value(String, u);
        }
    }
    StoredForm(j, v);
  }

  /** What a leaf is stored as, without the functions that compute it. */
  ghost predicate StoredAs(j: Json, v: Value) {
    match j
    case Nil => v == Value(Null, [])
    case Truth(b) => v == Value(Bool, [if b then 1 else 0])
    case Whole(bits) =>
      && v.typ == Int64 && |v.payload| == 8 && (IntegerOf(v.payload) - IntegerOf(bits)) % 0x1_0000_0000 == 0
      && -0x8000_0000 <= IntegerOf(v.payload) < 0x8000_0000
    case Fraction(bits) => v == Value(Float64, bits)
    case Text(s) =>
      var u := UpToNul(s);
      if Hex.HexText(u) then v.typ == Type.Bytes && Hex.Reads(u, v.payload) else v == Value(String, u)
    case _ => false
  }

  lemma StoredForm(j: Json, v: Value)
    requires IsLeaf(j) && Loaded(Atom(v), j)
    ensures StoredAs(j, v)
  {
    hide Narrowed, IntegerOf, Hex.Decode, Hex.HexText, Hex.Reads, UpToNul;
    match j
    case Whole(bits) => NarrowedWraps(bits);
    case Text(s) => Hex.DecodeText(UpToNul(s));
    case _ =>
  }

  lemma {:induction false} DecodedLen(s: seq<Byte>)
    ensures Hex.Decode(s).Some? ==> 2 * |Hex.Decode(s).value| == |s|
    decreases s
  {
    if |s| >= 2 { DecodedLen(s[2..]); }
  }

  /** from_yyjson_val under a key. */
  method FromMember(b: Buffer, r: nat, key: seq<Byte>, j: Json)
    requires b.Coherent() && r in b.forest && !b.forest[r].isArr
    requires |UpToNul(key)| <= KEY_MAX && Importable(j) && b.used + MEMBER_BYTES + Cost(j) + SET_MARGIN <= U32_LIMIT
    requires var s := InOrder(b.forest[r].tree); KeysUnique(s) && |s| < SET_ENTRIES_MAX && UpToNul(key) !in KeySet(s)
    modifies b
    ensures b.Coherent()
    ensures MemberSet(old(b.forest), r, UpToNul(key), OnLeaves(Meaning(j), Recognised), b.forest)
    ensures NoArrays(j) && AllClean(old(b.forest)) ==> AllClean(b.forest)
    ensures Uncollided(j) && HashFresh(InOrder(old(b.forest[r]).tree), Djb2(UpToNul(key))) ==>
              AllSorted(old(b.forest)) ==> AllSorted(b.forest)
    ensures old(b.used) <= b.used <= old(b.used) + MEMBER_BYTES + Cost(j)
    decreases j, 3
  {
    hide Holding, Image, Planted, Linked, OnLeaves, Meaning, MemberSet, Sorted, AllClean, KeySet, KeysUnique,
         AllSorted, HashFresh, Uncollided, Importable, NoArrays, Cost, InOrder, Djb2, Dated;
    if IsLeaf(j) { FromLeaf(b, r, UpToNul(key), j); } else { FromNested(b, r, UpToNul(key), j); }
  }

  method FromLeaf(b: Buffer, r: nat, k: Key, j: Json)
    requires IsLeaf(j)
    requires b.Coherent() && r in b.forest && !b.forest[r].isArr
    requires |k| <= KEY_MAX && 0 !in k && Importable(j) && b.used + MEMBER_BYTES + Cost(j) + SET_MARGIN <= U32_LIMIT
    requires var s := InOrder(b.forest[r].tree); KeysUnique(s) && |s| < SET_ENTRIES_MAX && k !in KeySet(s)
    modifies b
    ensures b.Coherent()
    ensures MemberSet(old(b.forest), r, k, OnLeaves(Meaning(j), Recognised), b.forest)
    ensures NoArrays(j) && AllClean(old(b.forest)) ==> AllClean(b.forest)
    ensures Uncollided(j) && HashFresh(InOrder(old(b.forest[r]).tree), Djb2(k)) && AllSorted(old(b.forest)) ==>
              AllSorted(b.forest)
    ensures old(b.used) <= b.used <= old(b.used) + MEMBER_BYTES + Cost(j)
  {
    hide Holding, Image, Planted, Linked, SetMeans, SetLands, OnLeaves, Meaning, MemberSet, InPlace, Deep, Dated,
         Sorted, OnlyAt, AllClean, Clean, KeySet, KeysUnique, AllSorted, HashFresh, Uncollided, InOrder, Djb2;
    ghost var f := b.forest;
    BeforeMember(b.nodes, b.recs, f, r, k);
    var v := LeafValue(j);
    ghost var e := b.SetScalar(r, k, v);
    PlantedDeep(b.nodes, b.recs, b.forest);
    ScalarStored(f, b.forest, r, k, v, e);
    LandedClean(f[r], k, v, e, b.forest[r]);
    ScalarClean(f, b.forest, r);
    if AllSorted(f) && HashFresh(InOrder(f[r].tree), Djb2(k)) { StaysSorted(f, b.forest, r, k, v); }
  }

  method FromNested(b: Buffer, r: nat, k: Key, j: Json)
    requires !IsLeaf(j)
    requires b.Coherent() && r in b.forest && !b.forest[r].isArr
    requires |k| <= KEY_MAX && 0 !in k && Importable(j) && b.used + MEMBER_BYTES + Cost(j) + SET_MARGIN <= U32_LIMIT
    requires var s := InOrder(b.forest[r].tree); KeysUnique(s) && |s| < SET_ENTRIES_MAX && k !in KeySet(s)
    modifies b
    ensures b.Coherent()
    ensures MemberSet(old(b.forest), r, k, OnLeaves(Meaning(j), Recognised), b.forest)
    ensures NoArrays(j) && AllClean(old(b.forest)) ==> AllClean(b.forest)
    ensures Uncollided(j) && HashFresh(InOrder(old(b.forest[r]).tree), Djb2(k)) && AllSorted(old(b.forest)) ==>
              AllSorted(b.forest)
    ensures old(b.used) <= b.used <= old(b.used) + MEMBER_BYTES + Cost(j)
    decreases j, 2
  {
    hide Holding, Image, Planted, Linked, SetMeans, SetLands, OnLeaves, Meaning, MemberSet, InPlace, Deep, Dated,
         Sorted, OnlyAt, AllClean, Clean, KeySet, KeysUnique, AllSorted, HashFresh, Uncollided, InOrder, Djb2,
         HasPlace, Reuses, Legible;
    ghost var f := b.forest;
    BeforeMember(b.nodes, b.recs, f, r, k);
    FreshPlaced(b.Here(), r, Id(Djb2(k), k));
    var n; ghost var e;
    n, e := b.SetNested(r, k, j.Arr?);
    ghost var f1 := b.forest;
    EmptyRun(n);
    NestedOnly(f, r, n, j.Arr?, f1);
    LandedClean(f[r], k, Nested(j.Arr?), e, f1[r]);
    NestedClean(f, f1, r, n, j.Arr?);
    if AllSorted(f) && HashFresh(InOrder(f[r].tree), Djb2(k)) { StaysSorted(f, f1, r, k, Nested(j.Arr?)); }
    FromContainer(b, n, j);
    PlantedDeep(b.nodes, b.recs, b.forest);
    NestedStored(f, f1, b.forest, r, k, j.Arr?, n, e);
  }

  lemma FreshPlaced(w: World, r: nat, k: Id)
    requires r in w.forest && forall v :: !InPlace(InOrder(w.forest[r].tree), Route(w.forest[r].tree, k), v)
    ensures !Reuses(w.forest[r].tree, k) && HasPlace(w, r, k)
  {
  }

  lemma NestedOnly(f: Forest, r: nat, n: nat, isArr: bool, f1: Forest)
    requires r in f && r in f1 && n !in f && n != r && f1 == f[r := f1[r]][n := EmptyRoot(n, isArr)]
    ensures OnlyAt(f, r, f1) && f1.Keys == f.Keys + {n}
    ensures forall q :: q in f1 && q !in f ==> f1[q] == EmptyRoot(n, isArr)
  {
  }

  lemma BeforeMember(nodes: NodeMap, recs: RecMap, f: Forest, r: nat, k: Key)
    requires Planted(nodes, recs, f) && Linked(f) && r in f && !f[r].isArr
    requires k !in KeySet(InOrder(f[r].tree))
    ensures Deep(f)
    ensures |InOrder(f[r].tree)| <= SET_ENTRIES_MAX ==> PathRoom(f[r].tree, Id(Djb2(k), k))
    ensures forall v :: !InPlace(InOrder(f[r].tree), Route(f[r].tree, Id(Djb2(k), k)), v)
    ensures HashFresh(InOrder(f[r].tree), Djb2(k)) ==> !Misroutes(f[r].tree, Id(Djb2(k), k))
  {
    var t, h := f[r].tree, f[r].height;
    PlantedDeep(nodes, recs, f);
    RootFacts(nodes, recs, f, r);
    if HashFresh(InOrder(t), Djb2(k)) { FreshHashRoutes(t, h, RootLeast(h), Id(Djb2(k), k)); }
    if |InOrder(t)| <= SET_ENTRIES_MAX { RoomForSet(t, h, Id(Djb2(k), k)); }
    RouteFits(t, h, RootLeast(h), Id(Djb2(k), k));
    forall i | 0 <= i < |InOrder(t)| ensures InOrder(t)[i].id.key != k {
      assert InOrder(t)[i].id.key in KeySet(InOrder(t));
    }
  }

  /** A set that meets no bad median leaves all objects sorted. */
  lemma StaysSorted(f: Forest, f': Forest, r: nat, k: Key, v: Value)
    requires AllSorted(f) && r in f && r in f' && !f[r].isArr && OnlyAt(f, r, f')
    requires !Misroutes(f[r].tree, Id(Djb2(k), k))
    requires SetMeans(f[r].tree, Id(Djb2(k), k), v, f'[r].tree)
    requires forall q :: q in f' && q !in f ==> InOrder(f'[q].tree) == []
    ensures AllSorted(f')
  {
    SetRefines(f[r].tree, Id(Djb2(k), k), v, f'[r].tree);
    hide SetMeans, Misroutes;
    assert Sorted([]);
  }

  lemma ScalarStored(f: Forest, f': Forest, r: nat, k: Key, v: Value, e: Entry)
    requires Deep(f) && Deep(f') && r in f && r in f' && OnlyAt(f, r, f') && !f[r].isArr && !f'[r].isArr
    requires KeysUnique(InOrder(f[r].tree)) && k !in KeySet(InOrder(f[r].tree))
    requires SetLands(f[r].tree, Id(Djb2(k), k), v, e, f'[r].tree)
    ensures r < e.kv && LinkedTo(f', false, e) && e.val == v && MemberSet(f, r, k, EntryDoc(f', false, r, e), f')
  {
    hide SetLands, KeysUnique, KeySet, OnlyAt, Deep, DictOf, GrownBy;
    MemberLanded(f, f', r, k, v, e);
    LandsUnder(f, f', r, k, v, e);
  }

  lemma NestedStored(f: Forest, f1: Forest, f2: Forest, r: nat, k: Key, isArr: bool, n: nat, e: Entry)
    requires Deep(f) && Deep(f2) && r in f && r in f1 && OnlyAt(f, r, f1) && OnlyAt(f1, n, f2)
    requires !f[r].isArr && !f1[r].isArr && n !in f && n in f2 && n == LinkOf(false, e)
    requires KeysUnique(InOrder(f[r].tree)) && k !in KeySet(InOrder(f[r].tree))
    requires SetLands(f[r].tree, Id(Djb2(k), k), Nested(isArr), e, f1[r].tree)
    ensures MemberSet(f, r, k, DocAt(f2, n), f2)
  {
    assert f2[r] == f1[r];
    assert OnlyAt(f, r, f2);
    ScalarStored(f, f2, r, k, Nested(isArr), e);
  }

  lemma LandedClean(r: Root, k: Key, v: Value, e: Entry, r': Root)
    requires SetLands(r.tree, Id(Djb2(k), k), v, e, r'.tree) && 0 !in k
    requires KeysUnique(InOrder(r.tree)) && k !in KeySet(InOrder(r.tree))
    requires !r'.isArr && |InOrder(r'.tree)| <= ITER_ENTRIES_MAX
    ensures Clean(r) ==> Clean(r')
  {
    if Clean(r) {
      var s, s', p := InOrder(r.tree), InOrder(r'.tree), Route(r.tree, Id(Djb2(k), k));
      forall i | 0 <= i < |s'| ensures 0 !in s'[i].id.key {
        LandedMember(s, p, e, i);
      }
      hide KeySet, KeysUnique, KeyPlace, Djb2;
      FreshPlace(s, k, p, e);
      LandedUnique(s, p, e);
    }
  }

  lemma ScalarClean(f: Forest, f': Forest, r: nat)
    requires r in f && OnlyAt(f, r, f') && f'.Keys == f.Keys && (Clean(f[r]) ==> Clean(f'[r]))
    ensures AllClean(f) ==> AllClean(f')
  {
  }

  lemma NestedClean(f: Forest, f': Forest, r: nat, n: nat, isArr: bool)
    requires r in f && OnlyAt(f, r, f') && f'.Keys == f.Keys + {n} && n !in f && f'[n] == EmptyRoot(n, isArr)
    requires Clean(f[r]) ==> Clean(f'[r])
    ensures !isArr && AllClean(f) ==> AllClean(f')
  {
    assert InOrder(Node(n, [], [])) == [];
  }

  /** from_yyjson_val for one element of an array. */
  method FromItem(b: Buffer, r: nat, j: Json)
    requires b.Coherent() && r in b.forest && b.forest[r].isArr
    requires Importable(j) && b.used + MEMBER_BYTES + Cost(j) + SET_MARGIN <= U32_LIMIT
    requires |InOrder(b.forest[r].tree)| + 1 < SIZE_LIMIT
    modifies b
    ensures b.Coherent()
    ensures ItemAdded(old(b.forest), r, OnLeaves(Meaning(j), Recognised), b.forest)
    ensures Uncollided(j) && AllSorted(old(b.forest)) ==> AllSorted(b.forest)
    ensures old(b.used) <= b.used <= old(b.used) + MEMBER_BYTES + Cost(j)
    decreases j, 2
  {
    hide Holding, Image, Planted, Linked, OnLeaves, Meaning, InPlace, ListOf, Deep, ItemAdded, Sorted, Uncollided;
    ghost var f := b.forest;
    PlantedDeep(b.nodes, b.recs, f);
    if IsLeaf(j) {
      var v := LeafValue(j);
      ghost var e := b.AppendScalar(r, v);
      PlantedDeep(b.nodes, b.recs, b.forest);
      ItemStored(f, b.forest, r, e);
      ItemSorted(f, b.forest, r);
    } else {
      var n; ghost var e;
      n, e := b.AppendNested(r, j.Arr?);
      ghost var f1 := b.forest;
      assert InOrder(Node(n, [], [])) == [];
      ItemSorted(f, f1, r);
      FromContainer(b, n, j);
      PlantedDeep(b.nodes, b.recs, b.forest);
      NestedItemStored(f, f1, b.forest, r, n, e);
    }
  }

  lemma ItemSorted(f: Forest, f': Forest, r: nat)
    requires r in f && r in f' && OnlyAt(f, r, f') && f'[r].isArr
    requires forall q :: q in f' && q !in f ==> InOrder(f'[q].tree) == []
    ensures AllSorted(f) ==> AllSorted(f')
  {
    assert Sorted([]);
  }

  lemma ItemStored(f: Forest, f': Forest, r: nat, e: Entry)
    requires Deep(f) && Deep(f') && r in f && r in f' && OnlyAt(f, r, f') && f[r].isArr && f'[r].isArr
    requires InOrder(f'[r].tree) == InOrder(f[r].tree) + [e]
    ensures r < e.kv && LinkedTo(f', true, e) && ItemAdded(f, r, EntryDoc(f', true, r, e), f')
  {
    var s := InOrder(f[r].tree);
    HangsAt(f, r);
    HangsAt(f', r);
    AboveFrame(f, f', r, true, s);
    assert (s + [e])[..|s|] == s && (s + [e])[|s|] == e;
  }

  lemma NestedItemStored(f: Forest, f1: Forest, f2: Forest, r: nat, n: nat, e: Entry)
    requires Deep(f) && Deep(f2) && r in f && r in f1 && OnlyAt(f, r, f1) && OnlyAt(f1, n, f2)
    requires f[r].isArr && f1[r].isArr && n !in f && n in f2 && n == LinkOf(true, e) && Nests(e.val)
    requires InOrder(f1[r].tree) == InOrder(f[r].tree) + [e]
    ensures ItemAdded(f, r, DocAt(f2, n), f2)
  {
    assert f2[r] == f1[r];
    assert OnlyAt(f, r, f2);
    ItemStored(f, f2, r, e);
  }

  /** from_yyjson_val into an object or array that is there and empty. */
  method FromContainer(b: Buffer, r: nat, j: Json)
    requires b.Coherent() && r in b.forest && !IsLeaf(j) && b.forest[r] == EmptyRoot(r, j.Arr?)
    requires Importable(j) && b.used + Cost(j) + SET_MARGIN <= U32_LIMIT
    modifies b
    ensures b.Coherent() && OnlyAt(old(b.forest), r, b.forest) && r in b.forest
    ensures Deep(b.forest) && DocAt(b.forest, r) == OnLeaves(Meaning(j), Recognised)
    ensures NoArrays(j) && AllClean(old(b.forest)) ==> AllClean(b.forest)
    ensures Uncollided(j) && AllSorted(old(b.forest)) ==> AllSorted(b.forest)
    ensures old(b.used) <= b.used <= old(b.used) + Cost(j)
    decreases j, 1
  {
    hide Holding, Image, Planted, Linked, Deep, OnLeaves;
    if j.Arr? { FromItems(b, r, j); } else { FromMembers(b, r, j); }
  }

  ghost function KeysTo(ms: seq<Member>, i: nat): set<Key>
    requires i <= |ms|
  {
    set m | 0 <= m < i :: UpToNul(ms[m].key)
  }

  /** The first i members are in the object at r. */
  ghost predicate MembersDone(f0: Forest, r: nat, ms: seq<Member>, i: nat, f: Forest)
    requires i <= |ms|
  {
    && Deep(f) && OnlyAt(f0, r, f) && r in f && !f[r].isArr
    && KeysUnique(InOrder(f[r].tree)) && |InOrder(f[r].tree)| <= i
    && KeySet(InOrder(f[r].tree)) <= KeysTo(ms, i)
    && DictOf(f, r, InOrder(f[r].tree)) == OnMembers(MembersMeaning(ms[..i]), Recognised)
  }

  lemma MembersBegin(f: Forest, r: nat, ms: seq<Member>)
    requires Deep(f) && r in f && f[r] == EmptyRoot(r, false)
    ensures MembersDone(f, r, ms, 0, f)
  {
    assert InOrder(f[r].tree) == [] && ms[..0] == [];
  }

  lemma MembersNext(f0: Forest, r: nat, ms: seq<Member>, i: nat, f: Forest, f': Forest)
    requires i < |ms| && MembersDone(f0, r, ms, i, f)
    requires MemberSet(f, r, UpToNul(ms[i].key), OnLeaves(Meaning(ms[i].value), Recognised), f')
    ensures MembersDone(f0, r, ms, i + 1, f')
  {
    hide Deep, KeysUnique, Recognised, OnMembers, MembersMeaning, OnLeaves, Meaning, KeySet, DictOf, InOrder,
         UpToNul, KeysTo, OnlyAt, Hangs;
    MeaningNext(ms, i);
    KeysNext(ms, i);
    OnlyAtTwice(f0, r, f, f');
  }

  lemma KeysNext(ms: seq<Member>, i: nat)
    requires i < |ms|
    ensures KeysTo(ms, i + 1) == KeysTo(ms, i) + {UpToNul(ms[i].key)}
  {
  }

  lemma OnlyAtTwice(f: Forest, r: nat, f1: Forest, f2: Forest)
    requires OnlyAt(f, r, f1) && OnlyAt(f1, r, f2)
    ensures OnlyAt(f, r, f2)
  {
  }

  lemma MeaningNext(ms: seq<Member>, i: nat)
    requires i < |ms|
    ensures OnMembers(MembersMeaning(ms[..i + 1]), Recognised)
         == OnMembers(MembersMeaning(ms[..i]), Recognised)[UpToNul(ms[i].key) := OnLeaves(Meaning(ms[i].value),
                      Recognised)]
  {
    hide OnLeaves, Meaning, Recognised;
    var k := UpToNul(ms[i].key);
    assert ms[..i + 1][..i] == ms[..i] && ms[..i + 1][i] == ms[i];
    assert MembersMeaning(ms[..i + 1]) == MembersMeaning(ms[..i])[k := Meaning(ms[i].value)];
  }

  lemma MemberOf(j: Json, i: nat)
    requires Importable(j) && j.Obj? && i < |j.members|
    ensures |j.members| <= SET_ENTRIES_MAX && DistinctKeys(j.members)
    ensures Uncollided(j) ==> DistinctHashes(j.members) && Uncollided(j.members[i].value)
    ensures var m := j.members[i]; |UpToNul(m.key)| <= KEY_MAX && Importable(m.value) && m.value < j
    ensures NoArrays(j) ==> NoArrays(j.members[i].value)
    ensures Cost(j) == CostOfMembers(j.members)
  {
  }

  lemma MembersFresh(f0: Forest, r: nat, ms: seq<Member>, i: nat, f: Forest)
    requires i < |ms| && MembersDone(f0, r, ms, i, f) && DistinctKeys(ms)
    ensures UpToNul(ms[i].key) !in KeySet(InOrder(f[r].tree))
  {
  }

  lemma HashesFresh(f0: Forest, r: nat, ms: seq<Member>, i: nat, f: Forest)
    requires i < |ms| && MembersDone(f0, r, ms, i, f) && DistinctHashes(ms) && ObjectRun(InOrder(f[r].tree))
    ensures HashFresh(InOrder(f[r].tree), Djb2(UpToNul(ms[i].key)))
  {
    var s := InOrder(f[r].tree);
    hide UpToNul, Djb2, Deep, OnlyAt, DictOf;
    forall j | 0 <= j < |s| ensures s[j].id.hash != Djb2(UpToNul(ms[i].key)) {
      assert s[j].id.key in KeySet(s) && s[j].id.hash == Djb2(s[j].id.key);
    }
  }

  lemma MembersEnd(f0: Forest, r: nat, ms: seq<Member>, f: Forest)
    requires MembersDone(f0, r, ms, |ms|, f)
    ensures DocAt(f, r) == OnLeaves(Meaning(Obj(ms)), Recognised)
  {
    assert ms[..|ms|] == ms;
  }

  method FromMembers(b: Buffer, r: nat, j: Json)
    requires b.Coherent() && r in b.forest && j.Obj? && b.forest[r] == EmptyRoot(r, false)
    requires Importable(j) && b.used + Cost(j) + SET_MARGIN <= U32_LIMIT
    modifies b
    ensures b.Coherent() && OnlyAt(old(b.forest), r, b.forest) && r in b.forest
    ensures Deep(b.forest) && DocAt(b.forest, r) == OnLeaves(Meaning(j), Recognised)
    ensures NoArrays(j) && AllClean(old(b.forest)) ==> AllClean(b.forest)
    ensures Uncollided(j) && AllSorted(old(b.forest)) ==> AllSorted(b.forest)
    ensures old(b.used) <= b.used <= old(b.used) + Cost(j)
    decreases j, 0
  {
    hide Holding, Image, Planted, Linked, Deep, OnLeaves, Meaning, AllClean, KeysUnique, KeySet, DictOf,
         OnMembers, MembersMeaning, DistinctHashes, DistinctKeys, AllSorted, Uncollided, HashFresh, ObjectRun,
         CostOfMembers, DocAt, MembersDone, MemberSet, OnlyAt, Importable, NoArrays, InOrder, Anchored, Djb2From,
         UpToNul, Cost;
    ghost var f0 := b.forest;
    PlantedDeep(b.nodes, b.recs, f0);
    MembersBegin(f0, r, j.members);
    CostBegins(j.members);
    var i := 0;
    while i < |j.members|
      invariant 0 <= i <= |j.members|
      invariant b.Coherent() && MembersDone(f0, r, j.members, i, b.forest)
      invariant NoArrays(j) && AllClean(f0) ==> AllClean(b.forest)
      invariant Uncollided(j) && AllSorted(f0) ==> AllSorted(b.forest)
      invariant old(b.used) <= b.used <= old(b.used) + CostOfMembers(j.members[..i])
    {
      MemberOf(j, i);
      MembersFresh(f0, r, j.members, i, b.forest);
      MembersCost(j.members, i);
      DoneFacts(f0, r, j.members, i, b.forest);
      ObjectFacts(b.nodes, b.recs, b.forest, r);
      if Uncollided(j) { HashesFresh(f0, r, j.members, i, b.forest); }
      ghost var f := b.forest;
      FromMember(b, r, j.members[i].key, j.members[i].value);
      MembersNext(f0, r, j.members, i, f, b.forest);
      i := i + 1;
    }
    DoneFacts(f0, r, j.members, i, b.forest);
    MembersEnd(f0, r, j.members, b.forest);
    assert j.members[..i] == j.members;
  }

  lemma CostBegins(ms: seq<Member>)
    ensures CostOfMembers(ms[..0]) == 0 && Cost(Obj(ms)) == CostOfMembers(ms)
  {
  }

  lemma DoneFacts(f0: Forest, r: nat, ms: seq<Member>, i: nat, f: Forest)
    requires i <= |ms| && MembersDone(f0, r, ms, i, f)
    ensures r in f && !f[r].isArr && KeysUnique(InOrder(f[r].tree)) && |InOrder(f[r].tree)| <= i
    ensures OnlyAt(f0, r, f) && Deep(f)
  {
  }

  /** The first i elements are in the array at r. */
  ghost predicate ItemsDone(f0: Forest, r: nat, xs: seq<Json>, i: nat, f: Forest)
    requires i <= |xs|
  {
    && Deep(f) && OnlyAt(f0, r, f) && r in f && f[r].isArr
    && |InOrder(f[r].tree)| == i
    && forall m :: 0 <= m < i ==> ListOf(f, r, InOrder(f[r].tree))[m] == OnLeaves(Meaning(xs[m]), Recognised)
  }

  lemma ItemsBegin(f: Forest, r: nat, xs: seq<Json>)
    requires Deep(f) && r in f && f[r] == EmptyRoot(r, true)
    ensures ItemsDone(f, r, xs, 0, f)
  {
    assert InOrder(f[r].tree) == [];
  }

  lemma ItemsNext(f0: Forest, r: nat, xs: seq<Json>, i: nat, f: Forest, f': Forest)
    requires i < |xs| && ItemsDone(f0, r, xs, i, f)
    requires ItemAdded(f, r, OnLeaves(Meaning(xs[i]), Recognised), f')
    ensures ItemsDone(f0, r, xs, i + 1, f')
  {
  }

  lemma ItemsEnd(f0: Forest, r: nat, xs: seq<Json>, f: Forest)
    requires ItemsDone(f0, r, xs, |xs|, f)
    ensures DocAt(f, r) == OnLeaves(Meaning(Arr(xs)), Recognised)
  {
    assert DocAt(f, r).s == OnLeaves(Meaning(Arr(xs)), Recognised).s;
  }

  lemma ItemsFacts(f0: Forest, r: nat, xs: seq<Json>, i: nat, f: Forest)
    requires i <= |xs| && ItemsDone(f0, r, xs, i, f)
    ensures r in f && f[r].isArr && |InOrder(f[r].tree)| == i && OnlyAt(f0, r, f) && Deep(f)
  {
  }

  method FromItems(b: Buffer, r: nat, j: Json)
    requires b.Coherent() && r in b.forest && j.Arr? && b.forest[r] == EmptyRoot(r, true)
    requires Importable(j) && b.used + Cost(j) + SET_MARGIN <= U32_LIMIT
    modifies b
    ensures b.Coherent() && OnlyAt(old(b.forest), r, b.forest) && r in b.forest
    ensures Deep(b.forest) && DocAt(b.forest, r) == OnLeaves(Meaning(j), Recognised)
    ensures Uncollided(j) && AllSorted(old(b.forest)) ==> AllSorted(b.forest)
    ensures old(b.used) <= b.used <= old(b.used) + Cost(j)
    decreases j, 0
  {
    hide Holding, Image, Planted, Linked, Deep, OnLeaves, Meaning, ListOf, CostOfItems, DocAt, ItemsDone,
         ItemAdded, OnlyAt, Sorted;
    ghost var f0 := b.forest;
    PlantedDeep(b.nodes, b.recs, f0);
    ItemsBegin(f0, r, j.items);
    ItemsCostBegins(j.items);
    var i := 0;
    while i < |j.items|
      invariant 0 <= i <= |j.items|
      invariant b.Coherent() && ItemsDone(f0, r, j.items, i, b.forest)
      invariant Uncollided(j) && AllSorted(f0) ==> AllSorted(b.forest)
      invariant old(b.used) <= b.used <= old(b.used) + CostOfItems(j.items[..i])
    {
      ItemsCost(j.items, i);
      ItemsFacts(f0, r, j.items, i, b.forest);
      ghost var f := b.forest;
      FromItem(b, r, j.items[i]);
      ItemsNext(f0, r, j.items, i, f, b.forest);
      i := i + 1;
    }
    ItemsFacts(f0, r, j.items, i, b.forest);
    ItemsEnd(f0, r, j.items, b.forest);
    assert j.items[..i] == j.items;
  }

  lemma ItemsCostBegins(xs: seq<Json>)
    ensures CostOfItems(xs[..0]) == 0
  {
  }

  lemma NoneSorted()
    ensures Sorted([])
  {
  }

  /** from_json_string, past the parser. A root that is neither object nor array leaves the buffer empty. */
  method FromJson(j: Json) returns (b: Buffer)
    requires Importable(j) && Cost(j) + NODE_SIZE + SET_MARGIN <= U32_LIMIT
    ensures fresh(b) && b.Coherent()
    ensures if IsLeaf(j) then b.forest == map[] && b.used == 0
            else 0 in b.forest && Deep(b.forest) && DocAt(b.forest, 0) == OnLeaves(Meaning(j), Recognised)
    ensures NoArrays(j) ==> AllClean(b.forest) && Exportable(b.forest)
    ensures Uncollided(j) ==> AllSorted(b.forest)
  {
    hide Holding, Image, Planted, Linked, Deep, OnLeaves, Sorted;
    b := new Buffer();
    if !IsLeaf(j) {
      var r := b.InitStructure(j.Arr?);
      assert InOrder(Node(r, [], [])) == [];
      NoneSorted();
      FromContainer(b, r, j);
    }
  }

  // ----- export

  /** Trees that can be written out, together with all that their entries name. */
  ghost predicate Exporting(f: Forest, live: set<nat>) {
    Closed(f, live) && forall q :: q in live ==> Writable(f[q])
  }

  ghost predicate Written(j: Json, d: Doc) {
    Meaning(j) == OnLeaves(d, Shown)
  }

  /** Its members are the entries of the object in the order of the iterator, its key and what it holds. */
  ghost predicate Shows(f: Forest, r: nat, j: Json)
    decreases j
  {
    && j.Obj? && r in f && |j.members| == |InOrder(f[r].tree)|
    && forall i :: 0 <= i < |j.members| ==> ShowsEntry(f, InOrder(f[r].tree)[i], j.members[i])
  }

  ghost predicate ShowsEntry(f: Forest, e: Entry, m: Member)
    decreases m
  {
    && m.key == e.id.key
    && if e.val.typ == Object then Shows(f, LinkOf(false, e), m.value) else ShownAs(e.val, m.value)
  }

  /** What a value that is neither object nor array is written as. */
  ghost predicate ShownAs(v: Value, j: Json) {
    match v.typ
    case Null => v.payload == [] && j == Nil
    case Bool => |v.payload| == 1 && j == Truth(v.payload[0] != 0)
    case Int64 => |v.payload| == 8 && j == Whole(v.payload)
    case Float64 => |v.payload| == 8 && j == Fraction(v.payload)
    case String => j == Text(v.payload)
    case Bytes => j.Text? && Hex.Spells(j.s, v.payload)
    case _ => false
  }

  /** An entry of an object with the record it stands for. */
  ghost predicate Stored(b: Buffer, r: nat, live: set<nat>, e: Entry)
    reads b
  {
    Backed(b.recs, false, e) && r < e.kv && LinkedTo(b.forest, false, e) && LinksInto(false, e, live)
  }

  /** The payload of a value that is neither object nor array. */
  method ToLeaf(b: Buffer, vo: nat, typ: Type, ghost o: nat) returns (j: Json)
    requires b.Valid() && o in b.recs && vo == o + KeyLen(b.recs[o]) && typ == b.recs[o].val.typ
             && !Nests(b.recs[o].val)
    ensures ShownAs(b.recs[o].val, j)
    ensures Written(j, Atom(b.recs[o].val))
  {
    hide All, Holding, Image, Meaning, OnLeaves, Shown, KeyLen, Hex.Encode, Hex.Spells, ValidRecs, Written;
    b.StoredParts(o, typ);
    ghost var v := b.recs[o].val;
    match typ
    case Null => j := Nil; LeafWritten(j, v);
    case Bool => j := Truth(b.data[vo + 1] != 0); assert v.payload[0] == b.data[vo + 1]; LeafWritten(j, v);
    case Int64 => j := Whole(b.data[vo + 1..vo + 9]); LeafWritten(j, v);
    case Float64 => j := Fraction(b.data[vo + 1..vo + 9]); LeafWritten(j, v);
    case String =>
      var size := FromLe32(b.data[vo + 1..vo + 5]);
      j := Text(b.data[vo + 5..vo + 5 + size]);
      LeafWritten(j, v);
    case Bytes =>
      var size := FromLe32(b.data[vo + 1..vo + 5]);
      var hex := Hex.HexEncode(b.data[vo + 5..vo + 5 + size]);
      j := Text(hex);
      LeafWritten(j, v);
  }

  /** to_yyjson_val of the value at vo. */
  method ToValue(b: Buffer, vo: nat, ghost r: nat, ghost e: Entry, ghost live: set<nat>) returns (j: Json)
    requires b.Coherent() && Deep(b.forest) && Exporting(b.forest, live) && Stored(b, r, live, e)
    requires vo == e.kv + |e.id.key| + 2
    ensures ValueShown(b.forest, r, e, j)
    decreases Above(b.forest, r), 0
  {
    hide All, Holding, Image, Planted, Linked, Anchored, Written, DocAt, Deep, Above, Exporting, Stored, EntryDoc,
         LinkedTo, LinkOf, KeyLen, FixedLen, Sized, ValidRecs, Shows;
    StoredFacts(b, r, live, e);
    b.StoredParts(e.kv, e.val.typ);
    TypeOfCode(e.val.typ);
    var typ := TypeOf(b.data[vo]).value;
    if typ == Object {
      j := ToObject(b, vo + 1, live);
    } else {
      j := ToLeaf(b, vo, typ, e.kv);
    }
  }

  lemma StoredFacts(b: Buffer, r: nat, live: set<nat>, e: Entry)
    requires ValidRecs(b.recs) && Deep(b.forest) && Exporting(b.forest, live) && Stored(b, r, live, e)
    ensures e.kv in b.recs && b.recs[e.kv].val == e.val && KeyLen(b.recs[e.kv]) == |e.id.key| + 2
    ensures r < e.kv && LinkedTo(b.forest, false, e) && e.val.typ != Array
    ensures if e.val.typ == Object then
              var n := e.kv + |e.id.key| + 2 + 1;
              && n == LinkOf(false, e) && n in live && n in b.forest && Above(b.forest, n) < Above(b.forest, r)
              && EntryDoc(b.forest, false, r, e) == DocAt(b.forest, n)
            else EntryDoc(b.forest, false, r, e) == Atom(e.val)
  {
    hide Deep, DocAt, Above, Closed;
    if e.val.typ == Object {
      assert ValidValue(b.recs[e.kv].val) && LinkOf(false, e) == e.kv + |e.id.key| + 2 + 1;
      AboveLess(b.forest, r, e.kv + |e.id.key| + 2 + 1);
    }
  }

  lemma LeafWritten(j: Json, v: Value)
    requires ShownAs(v, j)
    ensures Written(j, Atom(v))
  {
    if v.typ == Type.Bytes {
      Hex.EncodeSpells(v.payload);
      Hex.SpelledOnce(j.s, Hex.Encode(v.payload), v.payload);
    }
  }

  lemma LiveObject(f: Forest, live: set<nat>, q: nat)
    requires Exporting(f, live) && q in live
    ensures q in f && !f[q].isArr && |InOrder(f[q].tree)| <= ITER_ENTRIES_MAX
  {
  }

  /** The first entries of the object are written as these members. */
  ghost predicate WrittenTo(f: Forest, r: nat, run: seq<Entry>, ms: seq<Member>)
    requires Deep(f) && Hangs(f, false, r, run)
  {
    && |ms| <= |run| && MembersMeaning(ms) == OnMembers(DictOf(f, r, run[..|ms|]), Shown)
    && forall i :: 0 <= i < |ms| ==> ShowsEntry(f, run[i], ms[i])
  }

  lemma WrittenBegin(f: Forest, r: nat, run: seq<Entry>)
    requires Deep(f) && Hangs(f, false, r, run)
    ensures WrittenTo(f, r, run, [])
  {
  }

  /** What has been made of an entry's value. */
  ghost predicate ValueShown(f: Forest, r: nat, e: Entry, j: Json)
    requires Deep(f) && r < e.kv && LinkedTo(f, false, e)
  {
    && Written(j, EntryDoc(f, false, r, e))
    && if e.val.typ == Object then Shows(f, LinkOf(false, e), j) else ShownAs(e.val, j)
  }

  lemma WrittenNext(f: Forest, r: nat, run: seq<Entry>, ms: seq<Member>, j: Json)
    requires Deep(f) && Hangs(f, false, r, run) && WrittenTo(f, r, run, ms) && |ms| < |run|
    requires 0 !in run[|ms|].id.key && ValueShown(f, r, run[|ms|], j)
    ensures WrittenTo(f, r, run, ms + [Member(UpToNul(run[|ms|].id.key), j)])
  {
    hide OnLeaves, Meaning, Shown, EntryDoc, Shows, UpToNul, DictOf, Deep, LinkOf, ShownAs;
    var n, m := |ms|, Member(UpToNul(run[|ms|].id.key), j);
    assert (ms + [m])[..n] == ms && UpToNul(m.key) == m.key == run[n].id.key;
    DictNext(f, r, run, n);
  }

  lemma DictNext(f: Forest, r: nat, run: seq<Entry>, n: nat)
    requires Deep(f) && Hangs(f, false, r, run) && n < |run|
    ensures DictOf(f, r, run[..n + 1]) == DictOf(f, r, run[..n])[run[n].id.key := EntryDoc(f, false, r, run[n])]
  {
    assert run[..n + 1][..n] == run[..n];
  }

  lemma WrittenEnd(f: Forest, r: nat, ms: seq<Member>)
    requires Deep(f) && r in f && !f[r].isArr && Hangs(f, false, r, InOrder(f[r].tree))
    requires WrittenTo(f, r, InOrder(f[r].tree), ms) && |ms| == |InOrder(f[r].tree)|
    ensures Written(Obj(ms), DocAt(f, r)) && Shows(f, r, Obj(ms))
  {
    assert InOrder(f[r].tree)[..|ms|] == InOrder(f[r].tree);
  }

  lemma EntryStored(b: Buffer, r: nat, live: set<nat>, i: nat)
    requires b.Coherent() && Deep(b.forest) && Exporting(b.forest, live) && r in live
    requires i < |InOrder(b.forest[r].tree)|
    ensures Stored(b, r, live, InOrder(b.forest[r].tree)[i]) && 0 !in InOrder(b.forest[r].tree)[i].id.key
  {
    hide Holding, Image;
    HangsAt(b.forest, r);
    RootFacts(b.nodes, b.recs, b.forest, r);
    hide Planted, Linked;
  }

  lemma StoredRec(b: Buffer, r: nat, live: set<nat>, e: Entry)
    requires Stored(b, r, live, e)
    ensures e.kv in b.recs && b.recs[e.kv] == Rec(true, e.id.key, e.val)
  {
  }

  lemma KeyThere(d: seq<Byte>, o: nat, r: Rec)
    requires RecAt(d, o, r) && r.keyed
    ensures CString(d, o + 1) == UpToNul(r.key)
  {
    CStringOfKey(d, o + 1, r.key);
  }

  /** The pointer that the iterator gives leads to the key. */
  lemma KeyHere(b: Buffer, r: nat, live: set<nat>, e: Entry)
    requires b.Valid() && Stored(b, r, live, e)
    ensures CString(b.data, e.kv + 1) == UpToNul(e.id.key)
  {
    hide *;
    StoredRec(b, r, live, e);
    b.RecordLayout(e.kv);
    KeyThere(b.data, e.kv, Rec(true, e.id.key, e.val));
  }

  /** The loop over an object, from begin to end. */
  method ToObject(b: Buffer, r: nat, ghost live: set<nat>) returns (j: Json)
    requires b.Coherent() && Deep(b.forest) && Exporting(b.forest, live) && r in live
    ensures r in b.forest && Written(j, DocAt(b.forest, r)) && Shows(b.forest, r, j)
    decreases Above(b.forest, r), 1
  {
    hide Holding, Image, Planted, Linked, Anchored, StackFits, Pending, OnLevel, Holds, InOrder, AllBacked,
         Exporting, Deep, DocAt, DictOf, EntryDoc, WrittenTo, Written, Stored, Hangs, Iterator.Stands, All,
         ValidRecs, LinkedTo, UpToNul, Above, CString, Shows, ValueShown;
    LiveObject(b.forest, live, r);
    ghost var f, run := b.forest, InOrder(b.forest[r].tree);
    HangsAt(f, r);
    WrittenBegin(f, r, run);
    var ms: seq<Member> := [];
    var it := Begin(b, r);
    assert run[0..] == run;
    while it.buffer != null
      invariant fresh(it) && fresh(it.stack) && (it.buffer != null ==> it.buffer == b && it.SameGeneration())
      invariant |ms| <= |run| && it.Stands(run[|ms|..]) && WrittenTo(f, r, run, ms)
      decreases |run| - |ms|
    {
      it.Current(run[|ms|..]);
      var item := it.Deref();
      EntryStored(b, r, live, |ms|);
      var v := ToValue(b, item.value.valueOffset, r, run[|ms|], live);
      WrittenNext(f, r, run, ms, v);
      KeyHere(b, r, live, run[|ms|]);
      ms := ms + [Member(CString(b.data, item.value.keyOffset), v)];
      it.FindNext();
    }
    it.Current(run[|ms|..]);
    WrittenEnd(f, r, ms);
    j := Obj(ms);
  }

  /** Links of the forest stay in it. */
  lemma LinksHere(f: Forest)
    requires Linked(f) && Exportable(f)
    ensures Exporting(f, f.Keys)
  {
    forall r, i | r in f && 0 <= i < |InOrder(f[r].tree)|
      ensures LinksInto(f[r].isArr, InOrder(f[r].tree)[i], f.Keys)
    {
      assert LinkedTo(f, f[r].isArr, InOrder(f[r].tree)[i]);
    }
  }

  /** to_json_string of a document whose root is an object, before the text is printed. */
  method ToJson(b: Buffer) returns (j: Json)
    requires b.Coherent() && 0 in b.forest && Exportable(b.forest)
    ensures Deep(b.forest) && Written(j, DocAt(b.forest, 0)) && Shows(b.forest, 0, j)
  {
    hide Holding, Image, Planted, Anchored, Deep, DocAt, Written, Writable;
    PlantedDeep(b.nodes, b.recs, b.forest);
    ghost var live := b.forest.Keys;
    LinksHere(b.forest);
    j := ToObject(b, 0, live);
  }
}
