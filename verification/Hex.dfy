/** The hex encoder of the JSON export and hex_decode, the two ends of how byte strings travel through JSON. */
module Hex {
  import opened Wrappers
  import opened Bytes

  predicate IsHexChar(c: Byte) {
    0x30 <= c <= 0x39 || 0x61 <= c <= 0x66 || 0x41 <= c <= 0x46
  }

  /** hex_char_to_int; None where it throws. */
  function HexValue(c: Byte): (v: Option<Byte>)
    ensures v.Some? <==> IsHexChar(c)
    ensures v.Some? ==> v.value < 16
  {
    if 0x30 <= c <= 0x39 then Some(c - 0x30)
    else if 0x61 <= c <= 0x66 then Some(c - 0x61 + 10)
    else if 0x41 <= c <= 0x46 then Some(c - 0x41 + 10)
    else None
  }

  /** One digit of "%02x". */
  function HexDigit(n: nat): (c: Byte)
    requires n < 16
    ensures HexValue(c) == Some(n)
  {
    if n < 10 then 0x30 + n else 0x61 + n - 10
  }

  lemma HexChars(c: Byte)
    ensures IsHexChar(c) <==> c as char in "0123456789abcdefABCDEF"
  {
    var all := "0123456789abcdefABCDEF";
    if IsHexChar(c) {
      assert all[if c <= 0x39 then c - 0x30 else if c >= 0x61 then c - 0x61 + 10 else c - 0x41 + 16] == c as char;
    }
  }

  /** The character at a position of the sixteen. */
  lemma DigitChar(n: nat)
    requires n < 16
    ensures HexDigit(n) as char == "0123456789abcdef"[n]
  {
  }

  function Encode(bytes: seq<Byte>): (s: seq<Byte>)
    ensures |s| == 2 * |bytes|
    decreases bytes
  {
    if bytes == [] then [] else [HexDigit(bytes[0] / 16), HexDigit(bytes[0] % 16)] + Encode(bytes[1..])
  }

  function Decode(s: seq<Byte>): (r: Option<seq<Byte>>)
    decreases s
  {
    if s == [] then Some([])
    else if |s| == 1 then None
    else
      match (HexValue(s[0]), HexValue(s[1]), Decode(s[2..]))
      case (Some(hi), Some(lo), Some(rest)) => Some([hi * 16 + lo] + rest)
      case _ => None
  }

  /** The text has two of the sixteen characters for each byte, the upper four bits first. */
  ghost predicate Spells(s: seq<Byte>, bytes: seq<Byte>) {
    && |s| == 2 * |bytes|
    && forall i :: 0 <= i < |bytes| ==>
         && s[2 * i] as char == "0123456789abcdef"[bytes[i] / 16]
         && s[2 * i + 1] as char == "0123456789abcdef"[bytes[i] % 16]
  }

  lemma {:induction false} EncodeSpells(bytes: seq<Byte>)
    ensures Spells(Encode(bytes), bytes)
    decreases bytes
  {
    if bytes != [] {
      var e, e', rest := Encode(bytes), Encode(bytes[1..]), bytes[1..];
      EncodeSpells(rest);
      DigitChar(bytes[0] / 16);
      DigitChar(bytes[0] % 16);
      forall i | 0 <= i < |bytes|
        ensures e[2 * i] as char == "0123456789abcdef"[bytes[i] / 16]
        ensures e[2 * i + 1] as char == "0123456789abcdef"[bytes[i] % 16]
      {
        if i > 0 {
          assert bytes[i] == rest[i - 1];
          assert e[2 * i] == e'[2 * (i - 1)] && e[2 * i + 1] == e'[2 * (i - 1) + 1];
        }
      }
    }
  }

  lemma SpelledOnce(s: seq<Byte>, t: seq<Byte>, bytes: seq<Byte>)
    requires Spells(s, bytes) && Spells(t, bytes)
    ensures s == t
  {
    forall k | 0 <= k < |s| ensures s[k] == t[k] {
      var i := k / 2;
      assert s[2 * i] as char == t[2 * i] as char && s[2 * i + 1] as char == t[2 * i + 1] as char;
      assert k == 2 * i || k == 2 * i + 1;
    }
  }

  /** Bytes already decoded in front of the rest of the answer. */
  function Behind(bytes: seq<Byte>, rest: Option<seq<Byte>>): Option<seq<Byte>> {
    match rest
    case Some(r) => Some(bytes + r)
    case None => None
  }

  lemma BehindBoth(a: seq<Byte>, b: seq<Byte>, rest: Option<seq<Byte>>)
    ensures Behind(a, Behind(b, rest)) == Behind(a + b, rest)
    ensures Behind([], rest) == rest
  {
    if rest.Some? {
      assert a + (b + rest.value) == (a + b) + rest.value;
      assert [] + rest.value == rest.value;
    }
  }

  method HexDecode(s: seq<Byte>) returns (r: Result<seq<Byte>>)
    ensures r.Ok? <==> Decode(s).Some?
    ensures r.Ok? ==> Decode(s) == Some(r.value)
    ensures r.Ok? <==> HexText(s)
    ensures r.Ok? ==> Reads(s, r.value)
  {
    hide Reads, HexText, HexValue, IsHexChar;
    DecodeDefined(s);
    DecodeText(s);
    if |s| % 2 != 0 {
      return Err("Hex string length must be even.");
    }
    var bytes: seq<Byte> := [];
    var i := 0;
    assert s[0..] == s;
    BehindBoth([], [], Decode(s));
    while i < |s|
      invariant 0 <= i <= |s| && i % 2 == 0
      invariant forall j :: 0 <= j < i ==> IsHexChar(s[j])
      invariant Decode(s) == Behind(bytes, Decode(s[i..]))
    {
      if !IsHexChar(s[i]) || !IsHexChar(s[i + 1]) {
        return Err("Invalid hex character");
      }
      var high, low := HexValue(s[i]).value, HexValue(s[i + 1]).value;
      assert s[i..][2..] == s[i + 2..];
      BehindBoth(bytes, [high * 16 + low], Decode(s[i + 2..]));
      bytes := bytes + [high * 16 + low];
      i := i + 2;
    }
    assert s[|s|..] == [] && bytes + [] == bytes;
    r := Ok(bytes);
  }

  /** The loop that turns a byte string into hex text. */
  method HexEncode(bytes: seq<Byte>) returns (s: seq<Byte>)
    ensures s == Encode(bytes) && Spells(s, bytes)
  {
    hide Spells, HexDigit, Encode;
    EncodeSpells(bytes);
    EncodeRest(bytes, 0);
    s := [];
    var i := 0;
    while i < |bytes|
      invariant 0 <= i <= |bytes|
      invariant s + Encode(bytes[i..]) == Encode(bytes)
    {
      EncodeRest(bytes, i);
      Joined(s, [HexDigit(bytes[i] / 16), HexDigit(bytes[i] % 16)], Encode(bytes[i + 1..]));
      s := s + [HexDigit(bytes[i] / 16), HexDigit(bytes[i] % 16)];
      i := i + 1;
    }
    EncodeRest(bytes, i);
    assert s + [] == s;
  }

  lemma EncodeRest(bytes: seq<Byte>, i: nat)
    requires i <= |bytes|
    ensures Encode(bytes[i..])
         == if i == |bytes| then [] else [HexDigit(bytes[i] / 16), HexDigit(bytes[i] % 16)] + Encode(bytes[i + 1..])
    ensures [] + Encode(bytes[0..]) == Encode(bytes)
  {
    assert bytes[0..] == bytes;
    if i < |bytes| { assert bytes[i..][1..] == bytes[i + 1..]; }
  }

  lemma Joined(a: seq<Byte>, b: seq<Byte>, c: seq<Byte>)
    ensures a + (b + c) == (a + b) + c
  {
  }

  /** Decoding succeeds exactly on hex text of even length. */
  lemma {:induction false} DecodeDefined(s: seq<Byte>)
    ensures Decode(s).Some? <==> |s| % 2 == 0 && forall i :: 0 <= i < |s| ==> IsHexChar(s[i])
    decreases s
  {
    if |s| >= 2 {
      DecodeDefined(s[2..]);
      assert forall i :: 0 <= i < |s[2..]| ==> s[2..][i] == s[i + 2];
      if forall i :: 0 <= i < |s| ==> IsHexChar(s[i]) {
        assert forall i :: 0 <= i < |s[2..]| ==> IsHexChar(s[2..][i]);
      }
      if Decode(s).Some? {
        forall i | 0 <= i < |s| ensures IsHexChar(s[i]) {
          if i >= 2 { assert s[i] == s[2..][i - 2]; }
        }
      }
    }
  }

  /** Decoding what was encoded gives the bytes back. */
  lemma {:induction false} DecodeEncode(bytes: seq<Byte>)
    ensures Decode(Encode(bytes)) == Some(bytes)
    decreases bytes
  {
    if bytes != [] {
      var e := Encode(bytes);
      DecodeEncode(bytes[1..]);
      assert e[2..] == Encode(bytes[1..]);
      assert bytes == [bytes[0]] + bytes[1..];
    }
  }

  function LowerChar(c: Byte): Byte {
    if 0x41 <= c <= 0x5A then c + 0x20 else c
  }

  function Lower(s: seq<Byte>): (r: seq<Byte>)
    ensures |r| == |s|
    ensures forall i :: 0 <= i < |s| ==> r[i] == LowerChar(s[i])
  {
    seq(|s|, i requires 0 <= i < |s| => LowerChar(s[i]))
  }

  /** Encoding what was decoded gives the text back in lower case. */
  lemma {:induction false} EncodeDecode(s: seq<Byte>)
    requires Decode(s).Some?
    ensures Encode(Decode(s).value) == Lower(s)
    decreases s
  {
    hide HexDigit, HexValue, LowerChar;
    if s != [] {
      EncodeDecode(s[2..]);
      var d := Decode(s).value;
      assert d[1..] == Decode(s[2..]).value;
      DigitOfValue(s[0]);
      DigitOfValue(s[1]);
      assert Lower(s) == [LowerChar(s[0]), LowerChar(s[1])] + Lower(s[2..]);
    }
  }

  lemma DigitOfValue(c: Byte)
    requires IsHexChar(c)
    ensures HexDigit(HexValue(c).value) == LowerChar(c)
  {
  }

  /** Each byte is made of two digits, the upper four bits first; upper case counts as lower case. */
  ghost predicate Reads(s: seq<Byte>, bytes: seq<Byte>) {
    && |s| == 2 * |bytes|
    && forall i :: 0 <= i < |bytes| ==>
         var c, d := s[2 * i], s[2 * i + 1];
         && (if 0x41 <= c <= 0x46 then c + 0x20 else c) as char == "0123456789abcdef"[bytes[i] / 16]
         && (if 0x41 <= d <= 0x46 then d + 0x20 else d) as char == "0123456789abcdef"[bytes[i] % 16]
  }

  lemma DecodeReads(s: seq<Byte>)
    requires Decode(s).Some?
    ensures Reads(s, Decode(s).value)
  {
    var bytes := Decode(s).value;
    DecodeDefined(s);
    EncodeDecode(s);
    EncodeSpells(bytes);
    forall i | 0 <= i < |bytes|
      ensures LowerChar(s[2 * i]) as char == "0123456789abcdef"[bytes[i] / 16]
      ensures LowerChar(s[2 * i + 1]) as char == "0123456789abcdef"[bytes[i] % 16]
    {
      assert Lower(s)[2 * i] == LowerChar(s[2 * i]) && Lower(s)[2 * i + 1] == LowerChar(s[2 * i + 1]);
    }
  }

  /** What decoding asks of a text. */
  ghost predicate HexText(s: seq<Byte>) {
    |s| % 2 == 0 && forall i :: 0 <= i < |s| ==> s[i] as char in "0123456789abcdefABCDEF"
  }

  lemma DecodeText(s: seq<Byte>)
    ensures Decode(s).Some? <==> HexText(s)
    ensures Decode(s).Some? ==> Reads(s, Decode(s).value)
  {
    hide Reads, IsHexChar, Decode;
    DecodeDefined(s);
    forall i | 0 <= i < |s| ensures IsHexChar(s[i]) <==> s[i] as char in "0123456789abcdefABCDEF" { HexChars(s[i]); }
    if Decode(s).Some? { DecodeReads(s); }
  }
}
