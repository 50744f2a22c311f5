/** Well-formed UTF-8, by section 3 of RFC 3629: an encoding of scalar values, and
    the one-pass check for it. */
module Utf8 {

  predicate IsScalar(v: bv32) {
    v <= 0x10FFFF && !(0xD800 <= v <= 0xDFFF)
  }

  // ----- the octets of one scalar value

  function Lead2(v: bv32): bv8
    requires v <= 0x7FF
  {
    0xC0 | ((v >> 6) as bv8)
  }

  function Lead3(v: bv32): bv8
    requires v <= 0xFFFF
  {
    0xE0 | ((v >> 12) as bv8)
  }

  function Lead4(v: bv32): bv8
    requires v <= 0x10FFFF
  {
    0xF0 | ((v >> 18) as bv8)
  }

  /** A continuation octet carrying the low six bits. */
  function Low6(v: bv32): bv8 {
    0x80 | ((v & 0x3F) as bv8)
  }

  /** The table of section 3. */
  function Encode(v: bv32): (s: seq<bv8>)
    requires IsScalar(v)
    ensures 1 <= |s| <= 4
  {
    if v <= 0x7F then [v as bv8]
    else if v <= 0x7FF then [Lead2(v), Low6(v)]
    else if v <= 0xFFFF then [Lead3(v), Low6(v >> 6), Low6(v)]
    else [Lead4(v), Low6(v >> 12), Low6(v >> 6), Low6(v)]
  }

  ghost predicate AllScalars(vs: seq<bv32>) {
    forall i :: 0 <= i < |vs| ==> IsScalar(vs[i])
  }

  ghost function EncodeAll(vs: seq<bv32>): seq<bv8>
    requires AllScalars(vs)
  {
    if vs == [] then [] else Encode(vs[0]) + EncodeAll(vs[1..])
  }

  // ----- what the check reads at the front of a string

  datatype Head = Bad | Scalar(value: bv32, length: nat)

  /** How many continuation octets a lead octet announces; none for the rest. */
  function Extra(c: bv8): (n: nat)
    ensures n <= 3
  {
    if c & 0xE0 == 0xC0 then 1 else if c & 0xF0 == 0xE0 then 2 else if c & 0xF8 == 0xF0 then 3 else 0
  }

  /** The payload bits of a lead octet. */
  function Payload(c: bv8): bv32 {
    if c & 0xE0 == 0xC0 then (c & 0x1F) as bv32 else if c & 0xF0 == 0xE0 then (c & 0x0F) as bv32 else (c & 0x07) as bv32
  }

  predicate Continues(c: bv8) {
    c & 0xC0 == 0x80
  }

  function Push(cp: bv32, c: bv8): bv32 {
    (cp << 6) | (c & 0x3F) as bv32
  }

  function Gather(cp: bv32, tail: seq<bv8>): bv32 {
    if tail == [] then cp else Push(Gather(cp, tail[..|tail| - 1]), tail[|tail| - 1])
  }

  /** Neither overlong, nor a surrogate, nor beyond the last code point. */
  predicate InRange(extra: nat, cp: bv32) {
    && (extra == 1 ==> cp >= 0x80)
    && (extra == 2 ==> cp >= 0x800)
    && (extra == 3 ==> cp >= 0x10000)
    && IsScalar(cp)
  }

  predicate AllContinue(tail: seq<bv8>) {
    forall k :: 0 <= k < |tail| ==> Continues(tail[k])
  }

  function ReadHead(s: seq<bv8>): Head
    requires s != []
  {
    var c := s[0];
    if c < 0x80 then Scalar(c as bv32, 1) else
      var n := Extra(c);
      if n == 0 || n >= |s| then Bad else
        var tail := s[1..n + 1];
        var cp := Gather(Payload(c), tail);
        if AllContinue(tail) && InRange(n, cp) then Scalar(cp, n + 1) else Bad
  }

  lemma One(v: bv32)
    requires v <= 0x7F
    ensures (v as bv8) < 0x80 && (v as bv8) as bv32 == v
  {
  }

  lemma OneBack(c: bv8)
    requires c < 0x80
    ensures c as bv32 <= 0x7F && (c as bv32) as bv8 == c
  {
  }

  lemma Two(a: bv8, b: bv8, v: bv32)
    requires Extra(a) == 1 && Continues(b) && v == Push(Payload(a), b)
    ensures v <= 0x7FF && (v >= 0x80 ==> a == Lead2(v) && b == Low6(v))
  {
  }

  lemma Three(a: bv8, b: bv8, c: bv8, v: bv32)
    requires Extra(a) == 2 && Continues(b) && Continues(c) && v == Push(Push(Payload(a), b), c)
    ensures v <= 0xFFFF && a == Lead3(v) && b == Low6(v >> 6) && c == Low6(v)
  {
  }

  lemma Four(a: bv8, b: bv8, c: bv8, d: bv8, v: bv32)
    requires Extra(a) == 3 && Continues(b) && Continues(c) && Continues(d)
    requires v == Push(Push(Push(Payload(a), b), c), d)
    ensures v <= 0x10FFFF ==> a == Lead4(v) && b == Low6(v >> 12) && c == Low6(v >> 6) && d == Low6(v)
  {
  }

  lemma TwoBack(v: bv32)
    requires 0x80 <= v <= 0x7FF
    ensures Lead2(v) >= 0x80 && Extra(Lead2(v)) == 1 && Continues(Low6(v))
    ensures Push(Payload(Lead2(v)), Low6(v)) == v
  {
  }

  lemma ThreeBack(v: bv32)
    requires 0x800 <= v <= 0xFFFF
    ensures Lead3(v) >= 0x80 && Extra(Lead3(v)) == 2 && Continues(Low6(v >> 6)) && Continues(Low6(v))
    ensures Push(Push(Payload(Lead3(v)), Low6(v >> 6)), Low6(v)) == v
  {
  }

  lemma FourBack(v: bv32)
    requires 0x10000 <= v <= 0x10FFFF
    ensures Lead4(v) >= 0x80 && Extra(Lead4(v)) == 3
    ensures Continues(Low6(v >> 12)) && Continues(Low6(v >> 6)) && Continues(Low6(v))
    ensures Push(Push(Push(Payload(Lead4(v)), Low6(v >> 12)), Low6(v >> 6)), Low6(v)) == v
  {
  }

  lemma Gather1(cp: bv32, t: seq<bv8>)
    requires |t| == 1
    ensures Gather(cp, t) == Push(cp, t[0])
  {
    assert Gather(cp, t[..0]) == cp;
  }

  lemma Gather2(cp: bv32, t: seq<bv8>)
    requires |t| == 2
    ensures Gather(cp, t) == Push(Push(cp, t[0]), t[1])
  {
    Gather1(cp, t[..1]);
  }

  lemma Gather3(cp: bv32, t: seq<bv8>)
    requires |t| == 3
    ensures Gather(cp, t) == Push(Push(Push(cp, t[0]), t[1]), t[2])
  {
    Gather2(cp, t[..2]);
  }

  /** What the check reads at the front, it would write. */
  lemma HeadIsEncoded(s: seq<bv8>)
    requires s != [] && ReadHead(s).Scalar?
    ensures var h := ReadHead(s);
            IsScalar(h.value) && h.length <= |s| && Encode(h.value) == s[..h.length]
  {
    var c, n := s[0], Extra(s[0]);
    if c < 0x80 {
      OneBack(c);
    } else {
      TailIsEncoded(c, s[1..n + 1], ReadHead(s).value);
      assert [c] + s[1..n + 1] == s[..n + 1];
    }
  }

  lemma TailIsEncoded(c: bv8, t: seq<bv8>, v: bv32)
    requires 1 <= |t| == Extra(c) && AllContinue(t)
    requires v == Gather(Payload(c), t) && InRange(|t|, v)
    ensures IsScalar(v) && Encode(v) == [c] + t
  {
    if |t| == 1 {
      TailIsEncoded1(c, t, v);
    } else if |t| == 2 {
      TailIsEncoded2(c, t, v);
    } else {
      TailIsEncoded3(c, t, v);
    }
  }

  lemma TailIsEncoded1(c: bv8, t: seq<bv8>, v: bv32)
    requires |t| == Extra(c) == 1 && AllContinue(t) && v == Gather(Payload(c), t) && InRange(1, v)
    ensures Encode(v) == [c] + t
  {
    hide Low6, Lead2, Lead3, Lead4, Payload, Push, Continues, Extra, Gather;
    Gather1(Payload(c), t);
    Two(c, t[0], v);
  }

  lemma TailIsEncoded2(c: bv8, t: seq<bv8>, v: bv32)
    requires |t| == Extra(c) == 2 && AllContinue(t) && v == Gather(Payload(c), t) && InRange(2, v)
    ensures Encode(v) == [c] + t
  {
    hide Low6, Lead2, Lead3, Lead4, Payload, Push, Continues, Extra, Gather;
    Gather2(Payload(c), t);
    Three(c, t[0], t[1], v);
  }

  lemma TailIsEncoded3(c: bv8, t: seq<bv8>, v: bv32)
    requires |t| == Extra(c) == 3 && AllContinue(t) && v == Gather(Payload(c), t) && InRange(3, v)
    ensures Encode(v) == [c] + t
  {
    LongForm(v);
    hide Low6, Lead2, Lead3, Lead4, Payload, Push, Continues, Extra, Gather, InRange, IsScalar, Encode;
    Gather3(Payload(c), t);
    Four(c, t[0], t[1], t[2], v);
  }

  lemma LongForm(v: bv32)
    requires InRange(3, v)
    ensures v <= 0x10FFFF && Encode(v) == [Lead4(v), Low6(v >> 12), Low6(v >> 6), Low6(v)]
  {
  }

  /** What is written in front, the check reads. */
  lemma EncodedIsHead(v: bv32, rest: seq<bv8>)
    requires IsScalar(v)
    ensures ReadHead(Encode(v) + rest) == Scalar(v, |Encode(v)|)
  {
    hide Low6, Lead2, Lead3, Lead4, Payload, Push, Continues, Extra;
    var s := Encode(v) + rest;
    var t := Encode(v)[1..];
    assert t == s[1..|Encode(v)|];
    if v <= 0x7F {
      One(v);
    } else if v <= 0x7FF {
      TwoBack(v);
      Gather1(Payload(s[0]), t);
    } else if v <= 0xFFFF {
      ThreeBack(v);
      Gather2(Payload(s[0]), t);
    } else {
      FourBack(v);
      Gather3(Payload(s[0]), t);
    }
  }

  // ----- whole strings

  predicate Valid(s: seq<bv8>) {
    s == [] || match ReadHead(s)
               case Bad => false
               case Scalar(_, n) => n <= |s| && Valid(s[n..])
  }

  /** The scalar values of a string that passes the check. */
  function Decode(s: seq<bv8>): (vs: seq<bv32>)
    requires Valid(s)
  {
    if s == [] then [] else
      var h := ReadHead(s);
      [h.value] + Decode(s[h.length..])
  }

  lemma EncodeCons(v: bv32, vs: seq<bv32>)
    requires IsScalar(v) && AllScalars(vs)
    ensures AllScalars([v] + vs) && EncodeAll([v] + vs) == Encode(v) + EncodeAll(vs)
  {
    assert ([v] + vs)[1..] == vs;
  }

  lemma DecodeCons(s: seq<bv8>)
    requires s != [] && Valid(s)
    ensures ReadHead(s).Scalar? && ReadHead(s).length <= |s| && Valid(s[ReadHead(s).length..])
    ensures Decode(s) == [ReadHead(s).value] + Decode(s[ReadHead(s).length..])
  {
    hide ReadHead;
  }

  lemma Rejoin<T>(s: seq<T>, n: nat)
    requires n <= |s|
    ensures s[..n] + s[n..] == s
  {
  }

  lemma {:induction false} DecodeThenEncode(s: seq<bv8>)
    requires Valid(s)
    ensures AllScalars(Decode(s)) && EncodeAll(Decode(s)) == s
  {
    if s == [] {
      assert Decode(s) == [];
    } else {
      DecodeCons(s);
      HeadIsEncoded(s);
      hide *;
      var h := ReadHead(s);
      var rest := s[h.length..];
      DecodeThenEncode(rest);
      EncodeCons(h.value, Decode(rest));
      Rejoin(s, h.length);
    }
  }

  lemma {:induction false} EncodeThenDecode(vs: seq<bv32>)
    requires AllScalars(vs)
    ensures Valid(EncodeAll(vs)) && Decode(EncodeAll(vs)) == vs
  {
    if vs != [] {
      var rest := EncodeAll(vs[1..]);
      EncodeThenDecode(vs[1..]);
      EncodedIsHead(vs[0], rest);
      hide ReadHead, Encode;
      assert (Encode(vs[0]) + rest)[|Encode(vs[0])|..] == rest;
    }
  }

  /** UTF-8 exactness.  A string passes the check just when it is the
      concatenation of the encodings of some scalar values. */
  lemma ValidIffEncodesScalars(s: seq<bv8>)
    ensures Valid(s) <==> exists vs :: AllScalars(vs) && EncodeAll(vs) == s
  {
    if Valid(s) {
      DecodeThenEncode(s);
    }
    if vs :| AllScalars(vs) && EncodeAll(vs) == s {
      EncodeThenDecode(vs);
    }
  }

  /** And those scalar values are the only ones. */
  lemma EncodingIsUnique(vs: seq<bv32>, ws: seq<bv32>)
    requires AllScalars(vs) && AllScalars(ws) && EncodeAll(vs) == EncodeAll(ws)
    ensures vs == ws
  {
    EncodeThenDecode(vs);
    EncodeThenDecode(ws);
  }

  /** The check itself. */
  method IsValidUtf8(s: seq<bv8>) returns (ok: bool)
    ensures ok <==> exists vs :: AllScalars(vs) && EncodeAll(vs) == s
  {
    ValidIffEncodesScalars(s);
    ok := Check(s);
  }

  method Check(s: seq<bv8>) returns (ok: bool)
    ensures ok <==> Valid(s)
  {
    hide Push, Gather, Continues, AllContinue, Encode;
    var i := 0;
    while i < |s|
      invariant 0 <= i <= |s|
      invariant Valid(s) <==> Valid(s[i..])
    {
      var c := s[i];
      ghost var rest := s[i..];
      var extra: nat;
      var cp: bv32;
      if c < 0x80 {
        i := i + 1;
        assert rest[1..] == s[i..];
        continue;
      } else if c & 0xE0 == 0xC0 {
        extra, cp := 1, (c & 0x1F) as bv32;
      } else if c & 0xF0 == 0xE0 {
        extra, cp := 2, (c & 0x0F) as bv32;
      } else if c & 0xF8 == 0xF0 {
        extra, cp := 3, (c & 0x07) as bv32;
      } else {
        return false;
      }
      if i + extra >= |s| {
        return false;
      }
      ghost var tail := rest[1..extra + 1];
      var continued;
      continued, cp := ReadTail(s, i, extra, cp);
      assert s[i + 1..i + extra + 1] == tail;
      if !continued {
        return false;
      }
      if extra == 1 && cp < 0x80 {
        return false;
      }
      if extra == 2 && cp < 0x800 {
        return false;
      }
      if extra == 3 && cp < 0x10000 {
        return false;
      }
      if cp > 0x10FFFF {
        return false;
      }
      if cp >= 0xD800 && cp <= 0xDFFF {
        return false;
      }
      i := i + extra + 1;
      assert rest[extra + 1..] == s[i..];
    }
    return true;
  }

  lemma NothingGathered(lead: bv32, tail: seq<bv8>)
    ensures Gather(lead, tail[..0]) == lead && AllContinue(tail[..0])
  {
  }

  lemma NotAllContinue(tail: seq<bv8>, k: nat)
    requires k < |tail| && !Continues(tail[k])
    ensures !AllContinue(tail)
  {
    hide Continues;
  }

  lemma GatherNext(lead: bv32, tail: seq<bv8>, k: nat)
    requires k < |tail|
    ensures Gather(lead, tail[..k + 1]) == Push(Gather(lead, tail[..k]), tail[k])
    ensures AllContinue(tail[..k + 1]) <==> AllContinue(tail[..k]) && Continues(tail[k])
  {
    hide Push, Continues;
    assert tail[..k + 1][..k] == tail[..k] && tail[..k + 1] == tail[..k] + [tail[k]];
  }

  /** Reads the continuation octets after position i, six bits at a time. */
  method ReadTail(s: seq<bv8>, i: nat, extra: nat, lead: bv32) returns (ok: bool, cp: bv32)
    requires i + extra < |s|
    ensures ok <==> AllContinue(s[i + 1..i + extra + 1])
    ensures ok ==> cp == Gather(lead, s[i + 1..i + extra + 1])
  {
    ghost var tail := s[i + 1..i + extra + 1];
    hide Gather, AllContinue, Push, Continues;
    cp := lead;
    var k := 1;
    NothingGathered(lead, tail);
    while k <= extra
      invariant 1 <= k <= extra + 1
      invariant cp == Gather(lead, tail[..k - 1])
      invariant AllContinue(tail[..k - 1])
    {
      var c := s[i + k];
      assert c == tail[k - 1];
      if !Continues(c) {
        NotAllContinue(tail, k - 1);
        return false, cp;
      }
      GatherNext(lead, tail, k - 1);
      cp := Push(cp, c);
      k := k + 1;
    }
    assert tail[..extra] == tail;
    return true, cp;
  }
}
