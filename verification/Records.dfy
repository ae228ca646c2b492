/** Key and value records as bytes: [tag][key][0][type][value], the key part only in objects. */
module Records {
  import opened Bytes
  import opened Wrappers

  datatype Type = Null | Bool | Int64 | Float64 | Bytes | String | Object | Array

  /** A value as its type and its payload bytes; objects and arrays have none, their node follows the record. */
  datatype Value = Value(typ: Type, payload: seq<Byte>)

  datatype Rec = Rec(keyed: bool, key: seq<Byte>, val: Value)

  const KEY_MAX: nat := 62

  function Code(t: Type): Byte {
    match t
    case Null => 0
    case Bool => 1
    case Int64 => 2
    case Float64 => 3
    case Bytes => 4
    case String => 5
    case Object => 6
    case Array => 7
  }

  function TypeOf(code: Byte): (t: Option<Type>)
    ensures t.Some? ==> Code(t.value) == code
    ensures t.None? <==> code > 7
  {
    match code
    case 0 => Some(Null)
    case 1 => Some(Bool)
    case 2 => Some(Int64)
    case 3 => Some(Float64)
    case 4 => Some(Bytes)
    case 5 => Some(String)
    case 6 => Some(Object)
    case 7 => Some(Array)
    case _ => None
  }

  lemma TypeOfCode(t: Type)
    ensures TypeOf(Code(t)) == Some(t)
  {
  }

  lemma CodesDiffer(t: Type, t': Type)
    ensures Code(t) == Code(t') ==> t == t'
  {
  }

  predicate Sized(t: Type) {
    t == String || t == Bytes
  }

  /** Payload length of the types that have a fixed one. */
  function FixedLen(t: Type): nat {
    match t
    case Bool => 1
    case Int64 => 8
    case Float64 => 8
    case _ => 0
  }

  predicate ValidValue(v: Value) {
    if Sized(v.typ) then |v.payload| < U32_LIMIT else |v.payload| == FixedLen(v.typ)
  }

  /** Bytes a value takes: type, then size, payload and terminator where the type has them. */
  function ValLen(v: Value): (n: nat)
    ensures n >= 1
  {
    1 + |v.payload| + (if Sized(v.typ) then 4 else 0) + (if v.typ == String then 1 else 0)
  }

  function EncodeVal(v: Value): (s: seq<Byte>)
    requires ValidValue(v)
    ensures |s| == ValLen(v)
  {
    [Code(v.typ)] + (if Sized(v.typ) then Le32(|v.payload|) else []) + v.payload
    + (if v.typ == String then [0] else [])
  }

  /** The tag is one byte: the length with its terminator, shifted left by two and truncated. */
  function KeyTag(n: nat): Byte {
    (n + 1) * 4 % 0x100
  }

  function KeyLen(r: Rec): nat {
    if r.keyed then |r.key| + 2 else 0
  }

  function EncodeKey(key: seq<Byte>): (s: seq<Byte>)
    ensures |s| == |key| + 2
  {
    [KeyTag(|key|)] + key + [0]
  }

  function RecLen(r: Rec): (n: nat)
    ensures n >= 1
  {
    KeyLen(r) + ValLen(r.val)
  }

  predicate ValidRec(r: Rec) {
    ValidValue(r.val) && |r.key| <= KEY_MAX && (!r.keyed ==> r.key == [])
  }

  function EncodeRec(r: Rec): (s: seq<Byte>)
    requires ValidRec(r)
    ensures |s| == RecLen(r)
  {
    (if r.keyed then EncodeKey(r.key) else []) + EncodeVal(r.val)
  }

  // ----- reading

  /** Length that a tag stands for, terminator included. */
  function TagLen(tag: Byte): nat {
    tag / 4
  }

  /** The tag of a key reads back as that key's length exactly for keys of at most 62 bytes. */
  lemma TagExact(n: nat)
    ensures TagLen(KeyTag(n)) == n + 1 <==> n <= KEY_MAX
  {
    if n <= KEY_MAX {
      assert (n + 1) * 4 < 0x100;
    } else {
      assert TagLen(KeyTag(n)) < 64;
    }
  }

  /** Reads one value from the front of s. */
  function DecodeVal(s: seq<Byte>): Option<Value> {
    if s == [] || TypeOf(s[0]).None? then None
    else
      var typ := TypeOf(s[0]).value;
      if Sized(typ) then
        if |s| < 5 then None
        else
          var n := FromLe32(s[1..5]);
          if |s| < 5 + n then None else Some(Value(typ, s[5..5 + n]))
      else
        var n := FixedLen(typ);
        if |s| < 1 + n then None else Some(Value(typ, s[1..1 + n]))
  }

  /** Reads key and value from the front of s. */
  function DecodeRec(keyed: bool, s: seq<Byte>): Option<Rec> {
    if keyed then
      if s == [] || TagLen(s[0]) == 0 || |s| < 1 + TagLen(s[0]) then None
      else
        var n := TagLen(s[0]);
        var v := DecodeVal(s[1 + n..]);
        if v.None? then None else Some(Rec(true, s[1..n], v.value))
    else
      var v := DecodeVal(s);
      if v.None? then None else Some(Rec(false, [], v.value))
  }

  lemma DecodeEncodeVal(v: Value, rest: seq<Byte>)
    requires ValidValue(v)
    ensures DecodeVal(EncodeVal(v) + rest) == Some(v)
  {
    var s := EncodeVal(v) + rest;
    var tail := (if v.typ == String then [0] else []) + rest;
    if Sized(v.typ) {
      assert s == [Code(v.typ)] + Le32(|v.payload|) + v.payload + tail;
      assert s[1..5] == Le32(|v.payload|);
      assert s[5..5 + |v.payload|] == v.payload;
    } else {
      assert s == [Code(v.typ)] + v.payload + tail;
      assert s[1..1 + |v.payload|] == v.payload;
    }
    assert s[0] == Code(v.typ);
  }

  /** What either writer leaves in the buffer reads back as the record, whatever follows it. */
  lemma DecodeEncodeRec(r: Rec, rest: seq<Byte>)
    requires ValidRec(r)
    ensures DecodeRec(r.keyed, EncodeRec(r) + rest) == Some(r)
  {
    hide EncodeVal, DecodeVal;
    var s := EncodeRec(r) + rest;
    DecodeEncodeVal(r.val, rest);
    if r.keyed {
      var n := |r.key| + 1;
      TagExact(|r.key|);
      assert s == EncodeKey(r.key) + (EncodeVal(r.val) + rest);
      assert s[0] == KeyTag(|r.key|);
      assert s[1..n] == r.key;
      assert s[1 + n..] == EncodeVal(r.val) + rest;
    } else {
      assert s == EncodeVal(r.val) + rest;
    }
  }

  /** The parts of an encoded value, wherever it lies. */
  lemma ValueParts(d: seq<Byte>, vo: nat, v: Value)
    requires ValidValue(v) && vo + ValLen(v) <= |d| && d[vo..vo + ValLen(v)] == EncodeVal(v)
    ensures d[vo] == Code(v.typ)
    ensures Sized(v.typ) ==> FromLe32(d[vo + 1..vo + 5]) == |v.payload|
    ensures var at := vo + (if Sized(v.typ) then 5 else 1); d[at..at + |v.payload|] == v.payload
  {
    var x := EncodeVal(v);
    assert d[vo] == x[0];
    if Sized(v.typ) {
      SliceOfSlice(d, vo, vo + ValLen(v), 1, 5);
      SliceOfSlice(d, vo, vo + ValLen(v), 5, 5 + |v.payload|);
      assert x[1..5] == Le32(|v.payload|);
      assert x[5..5 + |v.payload|] == v.payload;
    } else {
      SliceOfSlice(d, vo, vo + ValLen(v), 1, 1 + |v.payload|);
      assert x[1..1 + |v.payload|] == v.payload;
    }
  }

  /** Key and value of an encoded record, wherever it lies. */
  lemma RecParts(d: seq<Byte>, o: nat, r: Rec)
    requires ValidRec(r) && o + RecLen(r) <= |d| && d[o..o + RecLen(r)] == EncodeRec(r)
    ensures var vo := o + KeyLen(r); d[vo..vo + ValLen(r.val)] == EncodeVal(r.val)
    ensures r.keyed ==> TagLen(d[o]) == |r.key| + 1 && d[o + 1..o + 1 + |r.key|] == r.key
  {
    hide EncodeRec, EncodeVal, EncodeKey, KeyTag, TagLen, ValidValue, ValLen;
    RecSlices(r);
    SliceOfSlice(d, o, o + RecLen(r), KeyLen(r), RecLen(r));
    if r.keyed {
      SliceOfSlice(d, o, o + RecLen(r), 1, 1 + |r.key|);
      assert d[o] == d[o..o + RecLen(r)][0];
    }
  }

  // ----- every byte of a record, without the encoder

  /** A value from vo on, byte by byte. */
  ghost predicate ValueAt(d: seq<Byte>, vo: nat, v: Value) {
    var n := |v.payload|;
    match v.typ
    case Null => vo + 1 <= |d| && d[vo] == 0 && n == 0
    case Bool => vo + 2 <= |d| && d[vo] == 1 && n == 1 && d[vo + 1..vo + 2] == v.payload
    case Int64 => vo + 9 <= |d| && d[vo] == 2 && n == 8 && d[vo + 1..vo + 9] == v.payload
    case Float64 => vo + 9 <= |d| && d[vo] == 3 && n == 8 && d[vo + 1..vo + 9] == v.payload
    case Bytes =>
      vo + 5 + n <= |d| && d[vo] == 4 && LittleAt(d, vo + 1, n) && d[vo + 5..vo + 5 + n] == v.payload
    case String =>
      && vo + 5 + n + 1 <= |d| && d[vo] == 5 && LittleAt(d, vo + 1, n) && d[vo + 5..vo + 5 + n] == v.payload
      && d[vo + 5 + n] == 0
    case Object => vo + 1 <= |d| && d[vo] == 6 && n == 0
    case Array => vo + 1 <= |d| && d[vo] == 7 && n == 0
  }

  /** A record from o on: in objects four times the length of key and NUL, the key and a NUL come first. */
  ghost predicate RecAt(d: seq<Byte>, o: nat, r: Rec) {
    var n := |r.key|;
    if r.keyed then
      && o + n + 2 <= |d| && d[o] == 4 * (n + 1) && d[o + 1..o + 1 + n] == r.key && d[o + 1 + n] == 0
      && ValueAt(d, o + n + 2, r.val)
    else
      ValueAt(d, o, r.val)
  }

  /** Wherever an encoded value lies, that is what lies there. */
  lemma EncodedValue(d: seq<Byte>, vo: nat, v: Value)
    requires ValidValue(v) && vo + ValLen(v) <= |d| && d[vo..vo + ValLen(v)] == EncodeVal(v)
    ensures ValueAt(d, vo, v)
  {
    ValueParts(d, vo, v);
    if Sized(v.typ) { WordLittle(d, vo + 1); }
    if v.typ == String {
      var n := ValLen(v);
      assert d[vo..vo + n][n - 1] == d[vo + n - 1];
    }
  }

  lemma EncodedRec(d: seq<Byte>, o: nat, r: Rec)
    requires ValidRec(r) && o + RecLen(r) <= |d| && d[o..o + RecLen(r)] == EncodeRec(r)
    ensures RecAt(d, o, r)
  {
    hide ValueAt, EncodeVal;
    RecParts(d, o, r);
    EncodedValue(d, o + KeyLen(r), r.val);
    if r.keyed {
      var n, x := |r.key|, d[o..o + RecLen(r)];
      assert x[0] == d[o] && x[n + 1] == d[o + n + 1];
      assert x == EncodeKey(r.key) + EncodeVal(r.val);
    }
  }

  lemma RecSlices(r: Rec)
    requires ValidRec(r)
    ensures EncodeRec(r)[KeyLen(r)..RecLen(r)] == EncodeVal(r.val)
    ensures r.keyed ==> TagLen(EncodeRec(r)[0]) == |r.key| + 1 && EncodeRec(r)[1..1 + |r.key|] == r.key
  {
    hide EncodeVal;
    if r.keyed {
      TagExact(|r.key|);
      assert EncodeRec(r)[..KeyLen(r)] == EncodeKey(r.key);
      assert EncodeRec(r)[1..1 + |r.key|] == EncodeKey(r.key)[1..1 + |r.key|];
    }
  }

  /** Length of the value stored at vo, as set_impl computes it from the type byte and the size field. */
  function StoredLen(d: seq<Byte>, vo: nat): nat
    requires vo < |d| && (d[vo] == Code(String) || d[vo] == Code(Type.Bytes) ==> vo + 5 <= |d|)
  {
    var code := d[vo];
    if code == Code(String) || code == Code(Type.Bytes) then
      1 + (4 + FromLe32(d[vo + 1..vo + 5])) + (if code == Code(String) then 1 else 0)
    else if code == Code(Bool) then 1 + 1
    else if code == Code(Int64) || code == Code(Float64) then 1 + 8
    else 1
  }

  lemma StoredLenExact(d: seq<Byte>, vo: nat, v: Value)
    requires ValidValue(v) && vo + ValLen(v) <= |d| && d[vo..vo + ValLen(v)] == EncodeVal(v)
    ensures d[vo] == Code(String) || d[vo] == Code(Type.Bytes) ==> vo + 5 <= |d|
    ensures StoredLen(d, vo) == ValLen(v)
  {
    ValueParts(d, vo, v);
  }
}
