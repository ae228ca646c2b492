/** What comes out when a JSON object is imported and exported again, member by member. */
module RoundTrips {
  import opened Bytes
  import opened Records
  import opened Layout
  import opened Order
  import opened Trees
  import opened Nodes
  import opened Forests
  import opened Documents
  import opened Buffers
  import opened JsonIO

  /** A text comes back up to its first NUL, and in lower case if all of that is hex text. */
  ghost predicate TextBack(u: seq<Byte>, t: seq<Byte>) {
    && |t| == |u|
    && forall i :: 0 <= i < |u| ==> t[i] == if Hex.HexText(u) && 0x41 <= u[i] <= 0x46 then u[i] + 0x20 else u[i]
  }

  /** No function of the import or the export is used to say it. */
  ghost predicate ComesBack(j: Json, out: Json) {
    match j
    case Nil => out == Nil
    case Truth(b) => out == Truth(b)
    case Whole(bits) =>
      && out.Whole? && (IntegerOf(out.bits) - IntegerOf(bits)) % 0x1_0000_0000 == 0
      && -0x8000_0000 <= IntegerOf(out.bits) < 0x8000_0000
    case Fraction(bits) => out == Fraction(bits)
    case Text(s) => out.Text? && TextBack(UpToNul(s), out.s)
    case Arr(_) => false
    case Obj(ms) =>
      && out.Obj? && |out.members| == |ms|
      && forall i :: 0 <= i < |ms| ==>
           exists k :: 0 <= k < |ms| && out.members[k].key == UpToNul(ms[i].key)
                       && ComesBack(ms[i].value, out.members[k].value)
  }

  // ----- leaves

  lemma LeafBack(j: Json, out: Json)
    requires IsLeaf(j) && Meaning(out) == OnLeaves(Meaning(j), Returned)
    ensures ComesBack(j, out)
  {
    hide Narrowed, IntegerOf, Hex.HexText, Hex.Decode, UpToNul;
    match j
    case Whole(bits) => NarrowedWraps(bits);
    case Text(s) => LoweredBack(UpToNul(s));
    case _ =>
  }

  lemma LoweredBack(u: seq<Byte>)
    ensures TextBack(u, if Hex.Decode(u).Some? then Hex.Lower(u) else u)
  {
    hide Hex.Decode;
    Hex.DecodeText(u);
    if Hex.HexText(u) {
      forall i | 0 <= i < |u| ensures Hex.Lower(u)[i] == if 0x41 <= u[i] <= 0x46 then u[i] + 0x20 else u[i] {
        Hex.HexChars(u[i]);
      }
    }
  }

  // ----- members

  lemma {:induction false} MembersAt(ms: seq<Member>, i: nat)
    requires DistinctKeys(ms) && i < |ms|
    ensures UpToNul(ms[i].key) in MembersMeaning(ms)
    ensures MembersMeaning(ms)[UpToNul(ms[i].key)] == Meaning(ms[i].value)
    decreases |ms|
  {
    hide UpToNul, Meaning;
    var n := |ms| - 1;
    if i < n {
      assert ms[..n][i] == ms[i];
      MembersAt(ms[..n], i);
    }
  }

  lemma {:induction false} MemberKeys(ms: seq<Member>, k: Key) returns (i: nat)
    requires k in MembersMeaning(ms)
    ensures i < |ms| && UpToNul(ms[i].key) == k
    decreases |ms|
  {
    hide UpToNul, Meaning;
    i := |ms| - 1;
    if UpToNul(ms[i].key) != k {
      var n := i;
      i := MemberKeys(ms[..n], k);
      assert ms[i] == ms[..n][i];
    }
  }

  lemma {:induction false} MemberCount(ms: seq<Member>)
    requires DistinctKeys(ms)
    ensures |MembersMeaning(ms)| == |ms|
    decreases |ms|
  {
    hide UpToNul, Meaning;
    if ms != [] {
      var n := |ms| - 1;
      var m, last := MembersMeaning(ms[..n]), UpToNul(ms[n].key);
      MemberCount(ms[..n]);
      if last in m {
        var i := MemberKeys(ms[..n], last);
        assert false;
      }
      OneKeyMore(m, last, Meaning(ms[n].value));
    }
  }

  lemma OneKeyMore(m: map<Key, Doc>, k: Key, d: Doc)
    requires k !in m
    ensures |m[k := d]| == |m| + 1
  {
    assert m[k := d].Keys == m.Keys + {k};
    assert |m[k := d]| == |m[k := d].Keys| && |m| == |m.Keys|;
  }

  /** Keys of one object differ and have no NUL in them. */
  ghost predicate Tidy(j: Json) {
    match j
    case Obj(ms) =>
      && (forall i, k :: 0 <= i < k < |ms| ==> ms[i].key != ms[k].key)
      && forall i :: 0 <= i < |ms| ==> 0 !in ms[i].key && Tidy(ms[i].value)
    case _ => true
  }

  /** What has been exported from clean objects is tidy. */
  lemma {:induction false} TidyOf(f: Forest, live: set<nat>, r: nat, j: Json)
    requires Exporting(f, live) && r in live && Shows(f, r, j) && forall q :: q in live ==> Clean(f[q])
    ensures Tidy(j)
    decreases j
  {
    hide LinkOf, InOrder, ShownAs;
    var ms, run := j.members, InOrder(f[r].tree);
    assert Clean(f[r]);
    forall i | 0 <= i < |ms| ensures 0 !in ms[i].key && Tidy(ms[i].value) {
      assert ShowsEntry(f, run[i], ms[i]);
      if run[i].val.typ == Object {
        assert LinksInto(f[r].isArr, run[i], live);
        TidyOf(f, live, LinkOf(false, run[i]), ms[i].value);
      } else {
        LeafTidy(run[i].val, ms[i].value);
      }
    }
    forall i, k | 0 <= i < k < |ms| ensures ms[i].key != ms[k].key {
      assert ShowsEntry(f, run[i], ms[i]) && ShowsEntry(f, run[k], ms[k]);
    }
  }

  lemma LeafTidy(v: Value, j: Json)
    requires ShownAs(v, j)
    ensures Tidy(j)
  {
  }

  lemma TidyKeys(ms: seq<Member>)
    requires Tidy(Obj(ms))
    ensures DistinctKeys(ms) && forall i :: 0 <= i < |ms| ==> UpToNul(ms[i].key) == ms[i].key && Tidy(ms[i].value)
  {
  }

  /** A document that is the same up to its leaves comes from a text that is. */
  lemma {:induction false} Back(j: Json, out: Json)
    requires NoArrays(j) && Importable(j) && Tidy(out) && Meaning(out) == OnLeaves(Meaning(j), Returned)
    ensures ComesBack(j, out)
    decreases j
  {
    if j.Obj? {
      assert out.Obj?;
      TidyKeys(out.members);
      hide Meaning, OnLeaves, Returned, UpToNul, Tidy, MembersMeaning;
      MembersBack(j.members, out.members);
      forall i | 0 <= i < |j.members|
        ensures exists k :: 0 <= k < |j.members| && out.members[k].key == UpToNul(j.members[i].key)
                            && ComesBack(j.members[i].value, out.members[k].value)
      {
        var k :| 0 <= k < |out.members| && out.members[k].key == UpToNul(j.members[i].key)
                 && Meaning(out.members[k].value) == OnLeaves(Meaning(j.members[i].value), Returned);
        Back(j.members[i].value, out.members[k].value);
      }
    } else {
      LeafBack(j, out);
    }
  }

  lemma MembersBack(ms: seq<Member>, ms': seq<Member>)
    requires DistinctKeys(ms) && DistinctKeys(ms')
    requires Meaning(Obj(ms')) == OnLeaves(Meaning(Obj(ms)), Returned)
    requires forall i :: 0 <= i < |ms'| ==> UpToNul(ms'[i].key) == ms'[i].key
    ensures |ms'| == |ms|
    ensures forall i :: 0 <= i < |ms| ==>
              exists k :: 0 <= k < |ms'| && ms'[k].key == UpToNul(ms[i].key)
                          && Meaning(ms'[k].value) == OnLeaves(Meaning(ms[i].value), Returned)
  {
    var m, m' := MembersMeaning(ms), MembersMeaning(ms');
    MemberCount(ms);
    MemberCount(ms');
    SameKeys(ms, ms');
    hide Returned, UpToNul, MembersMeaning, Meaning, OnLeaves;
    forall i | 0 <= i < |ms|
      ensures exists k :: 0 <= k < |ms'| && ms'[k].key == UpToNul(ms[i].key)
                          && Meaning(ms'[k].value) == OnLeaves(Meaning(ms[i].value), Returned)
    {
      MembersAt(ms, i);
      var k := MemberKeys(ms', UpToNul(ms[i].key));
      MembersAt(ms', k);
    }
  }

  lemma SameKeys(ms: seq<Member>, ms': seq<Member>)
    requires Meaning(Obj(ms')) == OnLeaves(Meaning(Obj(ms)), Returned)
    ensures var m, m' := MembersMeaning(ms), MembersMeaning(ms');
            |m'| == |m| && m'.Keys == m.Keys && forall k :: k in m ==> m'[k] == OnLeaves(m[k], Returned)
  {
    hide Returned, MembersMeaning;
    var m, m' := MembersMeaning(ms), MembersMeaning(ms');
    assert Meaning(Obj(ms')).m == m' && Meaning(Obj(ms)).m == m;
    assert |m| == |m.Keys| && |m'| == |m'.Keys| && m'.Keys == m.Keys;
  }

  // ----- what is in the buffer after an import

  /** The tree at r has what the JSON has: elements in their order, or members under their keys and no others. */
  ghost predicate Imported(f: Forest, r: nat, j: Json)
    decreases j, 0
  {
    match j
    case Arr(items) =>
      && r in f && f[r].isArr && |InOrder(f[r].tree)| == |items|
      && forall i :: 0 <= i < |items| ==> EntryImported(f, true, InOrder(f[r].tree)[i], items[i])
    case Obj(ms) =>
      && r in f && !f[r].isArr
      && (forall i :: 0 <= i < |ms| ==> MemberImported(f, InOrder(f[r].tree), ms[i]))
      && forall n :: 0 <= n < |InOrder(f[r].tree)| ==> OneOf(ms, InOrder(f[r].tree)[n].id.key)
    case _ => false
  }

  /** Some entry has the key of the member and what it holds. */
  ghost predicate MemberImported(f: Forest, run: seq<Entry>, m: Member)
    decreases m, 3
  {
    exists n :: 0 <= n < |run| && run[n].id.key == UpToNul(m.key) && EntryImported(f, false, run[n], m.value)
  }

  ghost predicate OneOf(ms: seq<Member>, k: Key) {
    exists i :: 0 <= i < |ms| && UpToNul(ms[i].key) == k
  }

  ghost predicate EntryImported(f: Forest, isArr: bool, e: Entry, j: Json)
    decreases j, 1
  {
    if IsLeaf(j) then StoredAs(j, e.val)
    else e.val.typ == (if j.Arr? then Array else Object) && Imported(f, LinkOf(isArr, e), j)
  }

  /** The entry that a key of the document comes from. */
  lemma {:induction false} DictFrom(f: Forest, r: nat, s: seq<Entry>, k: Key) returns (i: nat)
    requires Deep(f) && Hangs(f, false, r, s) && k in DictOf(f, r, s)
    ensures i < |s| && s[i].id.key == k && EntryDoc(f, false, r, s[i]) == DictOf(f, r, s)[k]
    decreases |s|
  {
    hide EntryDoc, LinkOf;
    i := |s| - 1;
    if s[i].id.key != k {
      var n := i;
      i := DictFrom(f, r, s[..n], k);
      assert s[i] == s[..n][i];
    }
  }

  lemma {:induction false} DictHas(f: Forest, r: nat, s: seq<Entry>, i: nat)
    requires Deep(f) && Hangs(f, false, r, s) && i < |s|
    ensures s[i].id.key in DictOf(f, r, s)
    decreases |s|
  {
    hide EntryDoc, LinkOf;
    var n := |s| - 1;
    if i < n {
      assert s[..n][i] == s[i];
      DictHas(f, r, s[..n], i);
    }
  }

  /** A tree whose document is that of the JSON, leaves as they are stored, has what it has. */
  lemma {:induction false} HasImported(f: Forest, r: nat, j: Json)
    requires Deep(f) && r in f && Importable(j) && !IsLeaf(j)
    requires DocAt(f, r) == OnLeaves(Meaning(j), Recognised)
    ensures Imported(f, r, j)
    decreases j, 1
  {
    if j.Arr? { ItemsImported(f, r, j); } else { MembersImported(f, r, j); }
  }

  lemma {:induction false} ItemsImported(f: Forest, r: nat, j: Json)
    requires Deep(f) && r in f && Importable(j) && j.Arr? && DocAt(f, r) == OnLeaves(Meaning(j), Recognised)
    ensures Imported(f, r, j)
    decreases j, 0
  {
    HangsAt(f, r);
    var run := InOrder(f[r].tree);
    assert f[r].isArr && ListOf(f, r, run) == OnLeaves(Meaning(j), Recognised).s;
    hide EntryDoc, LinkOf, InOrder, Deep, EntryImported;
    forall i | 0 <= i < |j.items| ensures EntryImported(f, true, run[i], j.items[i]) {
      EntryHas(f, true, r, run[i], j.items[i]);
    }
  }

  lemma {:induction false} MembersImported(f: Forest, r: nat, j: Json)
    requires Deep(f) && r in f && Importable(j) && j.Obj? && DocAt(f, r) == OnLeaves(Meaning(j), Recognised)
    ensures Imported(f, r, j)
    decreases j, 0
  {
    HangsAt(f, r);
    var ms, run := j.members, InOrder(f[r].tree);
    assert !f[r].isArr && DictOf(f, r, run) == OnMembers(MembersMeaning(ms), Recognised);
    hide *;
    forall i | 0 <= i < |ms| ensures MemberImported(f, run, ms[i]) { MemberHas(f, r, run, j, i); }
    forall n | 0 <= n < |run| ensures OneOf(ms, run[n].id.key) { KeyOf(f, r, run, ms, n); }
    ObjectImported(f, r, ms);
  }

  lemma ObjectImported(f: Forest, r: nat, ms: seq<Member>)
    requires r in f && !f[r].isArr
    requires forall i :: 0 <= i < |ms| ==> MemberImported(f, InOrder(f[r].tree), ms[i])
    requires forall n :: 0 <= n < |InOrder(f[r].tree)| ==> OneOf(ms, InOrder(f[r].tree)[n].id.key)
    ensures Imported(f, r, Obj(ms))
  {
    hide MemberImported, OneOf, InOrder;
  }

  lemma {:induction false} MemberHas(f: Forest, r: nat, run: seq<Entry>, j: Json, i: nat)
    requires Deep(f) && Hangs(f, false, r, run) && Importable(j) && j.Obj? && i < |j.members|
    requires DictOf(f, r, run) == OnMembers(MembersMeaning(j.members), Recognised)
    ensures MemberImported(f, run, j.members[i])
    decreases j.members[i], 3
  {
    hide EntryDoc, LinkOf, Deep, EntryImported, MembersMeaning, DictOf, UpToNul, Meaning;
    var m := j.members[i];
    MembersAt(j.members, i);
    var n := DictFrom(f, r, run, UpToNul(m.key));
    EntryHas(f, false, r, run[n], m.value);
  }

  lemma KeyOf(f: Forest, r: nat, run: seq<Entry>, ms: seq<Member>, n: nat)
    requires Deep(f) && Hangs(f, false, r, run) && n < |run|
    requires DictOf(f, r, run) == OnMembers(MembersMeaning(ms), Recognised)
    ensures OneOf(ms, run[n].id.key)
  {
    hide Deep, Hangs, MembersMeaning, DictOf, UpToNul;
    DictHas(f, r, run, n);
    var i := MemberKeys(ms, run[n].id.key);
  }

  lemma {:induction false} EntryHas(f: Forest, isArr: bool, r: nat, e: Entry, j: Json)
    requires Deep(f) && r < e.kv && LinkedTo(f, isArr, e) && Importable(j)
    requires EntryDoc(f, isArr, r, e) == OnLeaves(Meaning(j), Recognised)
    ensures EntryImported(f, isArr, e, j)
    decreases j, 2
  {
    hide LinkOf, Deep, StoredAs, Imported;
    if IsLeaf(j) { StoredForm(j, e.val); } else { HasImported(f, LinkOf(isArr, e), j); }
  }

  /** from_json_string: what is in the buffer, without the functions that put it there. */
  method Import(j: Json) returns (b: Buffer)
    requires Importable(j) && Cost(j) + NODE_SIZE + SET_MARGIN <= U32_LIMIT
    ensures fresh(b) && b.Coherent()
    ensures if IsLeaf(j) then b.forest == map[] && b.used == 0 else Imported(b.forest, 0, j)
  {
    hide Holding, Image, Planted, Linked, Deep, DocAt, OnLeaves, Meaning, Importable, Imported;
    b := FromJson(j);
    if !IsLeaf(j) { HasImported(b.forest, 0, j); }
  }

  // ----- the round trip

  lemma ExportsAll(f: Forest)
    requires Linked(f) && AllClean(f)
    ensures Exporting(f, f.Keys) && forall q :: q in f ==> Clean(f[q])
  {
    LinksHere(f);
  }

  /** Out comes what went in, integers narrowed to 32 bits and hex text in lower case. */
  method RoundTrip(j: Json) returns (out: Json)
    requires j.Obj? && NoArrays(j) && Importable(j) && Cost(j) + NODE_SIZE + SET_MARGIN <= U32_LIMIT
    ensures ComesBack(j, out) && Meaning(out) == OnLeaves(Meaning(j), Returned)
  {
    hide OnLeaves, Meaning, Importable, Cost, NoArrays, Holding, Image, Planted, Linked, Deep, DocAt, Exportable,
         Shows, Tidy, ComesBack, AllClean;
    var b := FromJson(j);
    out := ToJson(b);
    forall v ensures Shown(Recognised(v)) == Returned(v) { ShownRecognised(v); }
    OnLeavesTwice(Meaning(j), Recognised, Shown, Returned);
    ExportsAll(b.forest);
    TidyOf(b.forest, b.forest.Keys, 0, out);
    Back(j, out);
  }
}
