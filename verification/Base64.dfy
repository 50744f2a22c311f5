/** Base64 by section 4 of RFC 4648: the encoder, and a strict decoder written
    from the alphabet's ranges rather than from the encoder's table. */
module Base64 {
  import opened Wrappers

  const UPPER := "ABCDEFGHIJKLMNOPQRSTUVWXYZ"
  const LOWER := "abcdefghijklmnopqrstuvwxyz"
  const DIGITS := "0123456789"
  const TABLE := UPPER + LOWER + DIGITS + "+/"

  function Symbol(i: bv6): char {
    TABLE[i as int]
  }

  /** Table 1 of the standard, read backwards. */
  function Position(c: char): (n: Option<nat>)
    ensures n.Some? ==> n.value < 64
  {
    if 'A' <= c <= 'Z' then Some(c as int - 'A' as int)
    else if 'a' <= c <= 'z' then Some(c as int - 'a' as int + 26)
    else if '0' <= c <= '9' then Some(c as int - '0' as int + 52)
    else if c == '+' then Some(62)
    else if c == '/' then Some(63)
    else None
  }

  function Value(c: char): Option<bv6> {
    match Position(c)
    case None => None
    case Some(n) => Some(n as bv6)
  }

  lemma UpperInOrder(n: nat)
    requires n < 26
    ensures UPPER[n] as int == 'A' as int + n
  {
  }

  lemma LowerInOrder(n: nat)
    requires n < 26
    ensures LOWER[n] as int == 'a' as int + n
  {
  }

  lemma DigitsInOrder(n: nat)
    requires n < 10
    ensures DIGITS[n] as int == '0' as int + n
  {
  }

  lemma TableAt(n: nat)
    requires n < 64
    ensures TABLE[n] as int == (if n < 26 then 'A' as int + n else if n < 52 then 'a' as int + (n - 26)
                                else if n < 62 then '0' as int + (n - 52) else if n == 62 then '+' as int else '/' as int)
  {
    if n < 26 {
      UpperInOrder(n);
    } else if n < 52 {
      LowerInOrder(n - 26);
    } else if n < 62 {
      DigitsInOrder(n - 52);
    }
  }

  /** The encoder's table is the standard's. */
  lemma TableIsStandard(n: nat)
    requires n < 64
    ensures Position(TABLE[n]) == Some(n) && TABLE[n] != '='
  {
    TableAt(n);
  }

  lemma ValueOfSymbol(i: bv6)
    ensures Value(Symbol(i)) == Some(i) && Symbol(i) != '='
  {
    TableIsStandard(i as int);
    hide Position;
    assert (i as int) as bv6 == i;
  }

  lemma SymbolAt(c: char)
    requires Position(c).Some?
    ensures TABLE[Position(c).value] == c
  {
    TableAt(Position(c).value);
  }

  lemma IntBack(n: nat)
    requires n < 64
    ensures (n as bv6) as int == n
  {
  }

  lemma SymbolOfValue(c: char)
    requires Value(c).Some?
    ensures Symbol(Value(c).value) == c
  {
    SymbolAt(c);
    IntBack(Position(c).value);
    hide Position;
  }

  // ----- three octets, four sextets

  function Word(a: bv8, b: bv8, c: bv8): bv32 {
    ((a as bv32) << 16) | ((b as bv32) << 8) | (c as bv32)
  }

  function Sextets(v: bv32): (bv6, bv6, bv6, bv6) {
    (((v >> 18) & 63) as bv6, ((v >> 12) & 63) as bv6, ((v >> 6) & 63) as bv6, (v & 63) as bv6)
  }

  /** Twenty-four bits from four sextets, most significant first. */
  function Bits(p: bv6, q: bv6, r: bv6, s: bv6): bv32 {
    ((p as bv32) << 18) | ((q as bv32) << 12) | ((r as bv32) << 6) | (s as bv32)
  }

  function Octets(v: bv32): (bv8, bv8, bv8) {
    (((v >> 16) & 255) as bv8, ((v >> 8) & 255) as bv8, (v & 255) as bv8)
  }

  lemma OctetsBack(a: bv8, b: bv8, c: bv8)
    ensures var x := Sextets(Word(a, b, c));
            Octets(Bits(x.0, x.1, x.2, x.3)) == (a, b, c)
    ensures b == 0 && c == 0 ==> Sextets(Word(a, b, c)).1 & 15 == 0 && Sextets(Word(a, b, c)).2 == 0
    ensures c == 0 ==> Sextets(Word(a, b, c)).2 & 3 == 0 && Sextets(Word(a, b, c)).3 == 0
  {
  }

  lemma SextetsBack(p: bv6, q: bv6, r: bv6, s: bv6)
    ensures var x := Octets(Bits(p, q, r, s));
            Sextets(Word(x.0, x.1, x.2)) == (p, q, r, s)
    ensures r == 0 && s == 0 && q & 15 == 0 ==> Octets(Bits(p, q, r, s)).1 == 0 && Octets(Bits(p, q, r, s)).2 == 0
    ensures s == 0 && r & 3 == 0 ==> Octets(Bits(p, q, r, s)).2 == 0
  {
  }

  // ----- whole strings

  function Group4(x: (bv6, bv6, bv6, bv6)): (s: seq<char>)
    ensures |s| == 4
  {
    [Symbol(x.0), Symbol(x.1), Symbol(x.2), Symbol(x.3)]
  }

  function Encode(octets: seq<bv8>): seq<char> {
    if octets == [] then []
    else if |octets| == 1 then
      var x := Sextets(Word(octets[0], 0, 0));
      [Symbol(x.0), Symbol(x.1), '=', '=']
    else if |octets| == 2 then
      var x := Sextets(Word(octets[0], octets[1], 0));
      [Symbol(x.0), Symbol(x.1), Symbol(x.2), '=']
    else
      Group4(Sextets(Word(octets[0], octets[1], octets[2]))) + Encode(octets[3..])
  }

  /** The last four characters, when they carry padding; the bits that padding
      leaves over must be zero. */
  function DecodePadded(s: seq<char>): Option<seq<bv8>>
    requires |s| == 4 && s[3] == '='
  {
    var p, q, r := Value(s[0]), Value(s[1]), Value(s[2]);
    if p.None? || q.None? then None
    else if s[2] == '=' && q.value & 15 == 0 then
      Some([Octets(Bits(p.value, q.value, 0, 0)).0])
    else if r.Some? && r.value & 3 == 0 then
      var x := Octets(Bits(p.value, q.value, r.value, 0));
      Some([x.0, x.1])
    else None
  }

  function DecodeGroup(s: seq<char>): Option<seq<bv8>>
    requires |s| == 4
  {
    var p, q, r, t := Value(s[0]), Value(s[1]), Value(s[2]), Value(s[3]);
    if p.None? || q.None? || r.None? || t.None? then None else
      var x := Octets(Bits(p.value, q.value, r.value, t.value));
      Some([x.0, x.1, x.2])
  }

  /** The strict decoder. */
  function Decode(s: seq<char>): Option<seq<bv8>> {
    if s == [] then Some([])
    else if |s| < 4 then None
    else if |s| == 4 && s[3] == '=' then DecodePadded(s)
    else
      var first, rest := DecodeGroup(s[..4]), Decode(s[4..]);
      if first.Some? && rest.Some? then Some(first.value + rest.value) else None
  }

  lemma GroupBack(a: bv8, b: bv8, c: bv8)
    ensures DecodeGroup(Group4(Sextets(Word(a, b, c)))) == Some([a, b, c])
    ensures Group4(Sextets(Word(a, b, c)))[3] != '='
  {
    hide Sextets, Word, Octets, Bits, Value, Symbol;
    var x := Sextets(Word(a, b, c));
    ValueOfSymbol(x.0);
    ValueOfSymbol(x.1);
    ValueOfSymbol(x.2);
    ValueOfSymbol(x.3);
    OctetsBack(a, b, c);
  }

  lemma OneBack(a: bv8)
    ensures DecodePadded(Encode([a])) == Some([a])
  {
    hide Sextets, Word, Octets, Bits, Value, Symbol;
    var x := Sextets(Word(a, 0, 0));
    ValueOfSymbol(x.0);
    ValueOfSymbol(x.1);
    OctetsBack(a, 0, 0);
    ZeroSextets(x);
  }

  lemma TwoBack(a: bv8, b: bv8)
    ensures DecodePadded(Encode([a, b])) == Some([a, b])
  {
    hide Sextets, Word, Octets, Bits, Value, Symbol;
    var x := Sextets(Word(a, b, 0));
    ValueOfSymbol(x.0);
    ValueOfSymbol(x.1);
    ValueOfSymbol(x.2);
    OctetsBack(a, b, 0);
  }

  lemma ZeroSextets(x: (bv6, bv6, bv6, bv6))
    ensures x.2 == 0 && x.3 == 0 ==> Bits(x.0, x.1, x.2, x.3) == Bits(x.0, x.1, 0, 0)
  {
  }

  /** The strict decoder undoes the encoder, so the encoder loses nothing. */
  lemma {:induction false} EncodeThenDecode(octets: seq<bv8>)
    ensures Decode(Encode(octets)) == Some(octets)
    decreases |octets|
  {
    hide Sextets, Word, Octets, Bits, Value, Symbol, DecodePadded, DecodeGroup, Group4;
    if |octets| == 1 {
      OneBack(octets[0]);
      assert octets == [octets[0]];
    } else if |octets| == 2 {
      TwoBack(octets[0], octets[1]);
      assert octets == [octets[0], octets[1]];
    } else if |octets| >= 3 {
      var group, rest := Group4(Sextets(Word(octets[0], octets[1], octets[2]))), Encode(octets[3..]);
      GroupBack(octets[0], octets[1], octets[2]);
      EncodeThenDecode(octets[3..]);
      assert (group + rest)[..4] == group && (group + rest)[4..] == rest;
      assert [octets[0], octets[1], octets[2]] + octets[3..] == octets;
    }
  }

  /** Length and padding: four characters for every three octets begun, and '='
      exactly in the places the octets missing from the last group leave. */
  lemma {:induction false} EncodedShape(octets: seq<bv8>)
    ensures var s := Encode(octets); var missing := (3 - |octets| % 3) % 3;
            && |s| == (|octets| + 2) / 3 * 4
            && forall i :: 0 <= i < |s| ==> if i < |s| - missing then Value(s[i]).Some? else s[i] == '='
    decreases |octets|
  {
    hide Sextets, Word, Value, Symbol;
    if 0 < |octets| <= 2 {
      var x := Sextets(Word(octets[0], if |octets| == 2 then octets[1] else 0, 0));
      ValueOfSymbol(x.0);
      ValueOfSymbol(x.1);
      ValueOfSymbol(x.2);
    } else if |octets| >= 3 {
      var x := Sextets(Word(octets[0], octets[1], octets[2]));
      ValueOfSymbol(x.0);
      ValueOfSymbol(x.1);
      ValueOfSymbol(x.2);
      ValueOfSymbol(x.3);
      EncodedShape(octets[3..]);
    }
  }

  lemma GroupAgain(s: seq<char>)
    requires |s| == 4 && DecodeGroup(s).Some?
    ensures var x := DecodeGroup(s).value;
            |x| == 3 && Group4(Sextets(Word(x[0], x[1], x[2]))) == s
  {
    hide Sextets, Word, Octets, Bits, Value, Symbol;
    SymbolOfValue(s[0]);
    SymbolOfValue(s[1]);
    SymbolOfValue(s[2]);
    SymbolOfValue(s[3]);
    SextetsBack(Value(s[0]).value, Value(s[1]).value, Value(s[2]).value, Value(s[3]).value);
  }

  lemma EqualsHasNoValue()
    ensures Value('=').None?
  {
  }

  lemma PaddedAgain(s: seq<char>)
    requires |s| == 4 && s[3] == '=' && DecodePadded(s).Some?
    ensures var x := DecodePadded(s).value; 1 <= |x| <= 2 && Encode(x) == s
  {
    hide Sextets, Word, Octets, Bits, Value, Symbol;
    var p, q, r := Value(s[0]), Value(s[1]), Value(s[2]);
    SymbolOfValue(s[0]);
    SymbolOfValue(s[1]);
    EqualsHasNoValue();
    if s[2] == '=' {
      SextetsBack(p.value, q.value, 0, 0);
    } else {
      SymbolOfValue(s[2]);
      SextetsBack(p.value, q.value, r.value, 0);
    }
  }

  /** What the strict decoder accepts is exactly what the encoder writes. */
  lemma {:induction false} DecodeThenEncode(s: seq<char>)
    requires Decode(s).Some?
    ensures Encode(Decode(s).value) == s
    decreases |s|
  {
    hide Sextets, Word, Octets, Bits, Value, Symbol, DecodePadded, DecodeGroup, Group4;
    if s != [] {
      if |s| == 4 && s[3] == '=' {
        PaddedAgain(s);
      } else {
        GroupAgain(s[..4]);
        DecodeThenEncode(s[4..]);
        var x, rest := DecodeGroup(s[..4]).value, Decode(s[4..]).value;
        assert (x + rest)[3..] == rest;
        assert s[..4] + s[4..] == s;
      }
    }
  }

  lemma DecodeIffEncoded(s: seq<char>, octets: seq<bv8>)
    ensures Decode(s) == Some(octets) <==> s == Encode(octets)
  {
    EncodeThenDecode(octets);
    if Decode(s) == Some(octets) {
      DecodeThenEncode(s);
    }
  }

  lemma EncodeStep(octets: seq<bv8>, i: nat)
    requires i + 3 <= |octets|
    ensures Encode(octets[i..]) == Group4(Sextets(Word(octets[i], octets[i + 1], octets[i + 2]))) + Encode(octets[i + 3..])
  {
    assert octets[i..][3..] == octets[i + 3..];
  }

  lemma EncodeRest(octets: seq<bv8>, i: nat)
    requires i <= |octets| < i + 3
    ensures i == |octets| ==> Encode(octets[i..]) == []
    ensures i + 1 == |octets| ==>
              var x := Sextets(Word(octets[i], 0, 0)); Encode(octets[i..]) == [Symbol(x.0), Symbol(x.1), '=', '=']
    ensures i + 2 == |octets| ==>
              var x := Sextets(Word(octets[i], octets[i + 1], 0));
              Encode(octets[i..]) == [Symbol(x.0), Symbol(x.1), Symbol(x.2), '=']
  {
  }

  /** The encoder itself. */
  method Base64Encode(octets: seq<bv8>) returns (out: seq<char>)
    ensures out == Encode(octets)
  {
    hide Symbol, Sextets, Word, Encode;
    out := [];
    var i := 0;
    assert octets[0..] == octets;
    while i + 2 < |octets|
      invariant 0 <= i <= |octets|
      invariant out + Encode(octets[i..]) == Encode(octets)
    {
      ghost var before := out;
      EncodeStep(octets, i);
      var x := SplitWord(octets[i], octets[i + 1], octets[i + 2]);
      out := out + [Symbol(x.0)];
      out := out + [Symbol(x.1)];
      out := out + [Symbol(x.2)];
      out := out + [Symbol(x.3)];
      i := i + 3;
      assert out == before + Group4(x);
      assert (before + Group4(x)) + Encode(octets[i..]) == before + (Group4(x) + Encode(octets[i..]));
    }
    EncodeRest(octets, i);
    if i < |octets| {
      var two := i + 1 < |octets|;
      var x := SplitWord(octets[i], if two then octets[i + 1] else 0, 0);
      out := out + [Symbol(x.0)];
      out := out + [Symbol(x.1)];
      out := out + [if two then Symbol(x.2) else '='];
      out := out + ['='];
    }
  }

  method SplitWord(a: bv8, b: bv8, c: bv8) returns (x: (bv6, bv6, bv6, bv6))
    ensures x == Sextets(Word(a, b, c))
  {
    var v := ((a as bv32) << 16) | ((b as bv32) << 8) | (c as bv32);
    x := (((v >> 18) & 63) as bv6, ((v >> 12) & 63) as bv6, ((v >> 6) & 63) as bv6, (v & 63) as bv6);
  }
}
