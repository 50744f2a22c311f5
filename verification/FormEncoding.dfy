/** Percent-encoding (sections 2.1 and 2.3 of RFC 3986), and why a form or query
    made of encoded values can be taken apart again. */
module FormEncoding {
  import opened Wrappers
  import opened Splitting

  /** A character of a byte string. */
  type Octet = c: char | c as int < 256

  const HEX := "0123456789ABCDEF"

  predicate Unreserved(c: char) {
    'A' <= c <= 'Z' || 'a' <= c <= 'z' || '0' <= c <= '9' || c == '-' || c == '_' || c == '.' || c == '~'
  }

  const UPPER := "ABCDEFGHIJKLMNOPQRSTUVWXYZ"
  const LOWER := "abcdefghijklmnopqrstuvwxyz"
  const DIGITS := "0123456789"

  lemma UpperIff(c: char)
    ensures c in UPPER <==> 'A' <= c <= 'Z'
  {
    if 'A' <= c <= 'Z' {
      assert UPPER[c as int - 'A' as int] == c;
    }
  }

  lemma LowerIff(c: char)
    ensures c in LOWER <==> 'a' <= c <= 'z'
  {
    if 'a' <= c <= 'z' {
      assert LOWER[c as int - 'a' as int] == c;
    }
  }

  lemma DigitIff(c: char)
    ensures c in DIGITS <==> '0' <= c <= '9'
  {
    if '0' <= c <= '9' {
      assert DIGITS[c as int - '0' as int] == c;
    }
  }

  /** The unreserved characters are those of section 2.3 of RFC 3986. */
  lemma UnreservedIff(c: char)
    ensures Unreserved(c) <==> c in UPPER || c in LOWER || c in DIGITS || c in {'-', '.', '_', '~'}
  {
    hide UPPER, LOWER, DIGITS;
    UpperIff(c);
    LowerIff(c);
    DigitIff(c);
  }

  function Hex(n: nat): char
    requires n < 16
  {
    HEX[n]
  }

  function EncodeOctet(c: Octet): string {
    if Unreserved(c) then [c] else ['%', Hex(c as int / 16), Hex(c as int % 16)]
  }

  function Encode(s: seq<Octet>): string {
    if s == [] then "" else EncodeOctet(s[0]) + Encode(s[1..])
  }

  function HexValue(c: char): Option<nat> {
    if '0' <= c <= '9' then Some(c as int - '0' as int)
    else if 'A' <= c <= 'F' then Some(c as int - 'A' as int + 10)
    else if 'a' <= c <= 'f' then Some(c as int - 'a' as int + 10)
    else None
  }

  /** Percent-decoding; nothing if a '%' is not followed by two hex digits, or a
      character is no octet. */
  function Decode(s: string): Option<seq<Octet>> {
    if s == "" then Some([])
    else if s[0] == '%' then
      if |s| < 3 || HexValue(s[1]).None? || HexValue(s[2]).None? then None else
        var rest := Decode(s[3..]);
        var n := HexValue(s[1]).value * 16 + HexValue(s[2]).value;
        if rest.None? || n >= 256 then None else Some([n as char] + rest.value)
    else if s[0] as int >= 256 then None
    else
      var rest := Decode(s[1..]);
      if rest.None? then None else Some([s[0]] + rest.value)
  }

  lemma HexDigit(n: nat)
    requires n < 16
    ensures HexValue(Hex(n)) == Some(n) && Hex(n) != '&' && Hex(n) != '='
    ensures '0' <= Hex(n) <= '9' || 'A' <= Hex(n) <= 'F'
  {
  }

  lemma DecodeOctet(c: Octet, rest: string)
    requires Decode(rest).Some?
    ensures Decode(EncodeOctet(c) + rest) == Some([c] + Decode(rest).value)
  {
    var s := EncodeOctet(c) + rest;
    if Unreserved(c) {
      assert s[1..] == rest;
    } else {
      HexDigit(c as int / 16);
      HexDigit(c as int % 16);
      assert s[3..] == rest;
    }
  }

  /** Decoding undoes encoding, for every byte string. */
  lemma {:induction false} EncodeThenDecode(s: seq<Octet>)
    ensures Decode(Encode(s)) == Some(s)
  {
    if s != [] {
      EncodeThenDecode(s[1..]);
      DecodeOctet(s[0], Encode(s[1..]));
      assert [s[0]] + s[1..] == s;
    }
  }

  predicate Free(s: string) {
    forall k :: 0 <= k < |s| ==> s[k] != '&' && s[k] != '='
  }

  /** Encoded text never contains a separator. */
  lemma {:induction false} EncodedIsFree(s: seq<Octet>)
    ensures Free(Encode(s))
  {
    if s != [] {
      EncodedIsFree(s[1..]);
      if !Unreserved(s[0]) {
        HexDigit(s[0] as int / 16);
        HexDigit(s[0] as int % 16);
      }
    }
  }

  lemma {:induction false} UnreservedUnchanged(s: seq<Octet>)
    requires forall k :: 0 <= k < |s| ==> Unreserved(s[k])
    ensures Encode(s) == s
  {
    if s != [] {
      UnreservedUnchanged(s[1..]);
    }
  }

  // ----- forms

  datatype Field = Field(name: string, value: seq<Octet>)

  function FieldText(f: Field): string {
    f.name + "=" + Encode(f.value)
  }

  /** name=value pairs, joined by '&'. */
  function Form(fields: seq<Field>): string
    requires fields != []
  {
    if |fields| == 1 then FieldText(fields[0]) else FieldText(fields[0]) + "&" + Form(fields[1..])
  }

  function ParseField(s: string): Option<Field> {
    var parts := Split(s, '=');
    if |parts| != 2 then None else
      match Decode(parts[1])
      case None => None
      case Some(value) => Some(Field(parts[0], value))
  }

  function ParseAll(pieces: seq<string>): Option<seq<Field>> {
    if pieces == [] then Some([])
    else
      var first, rest := ParseField(pieces[0]), ParseAll(pieces[1..]);
      if first.None? || rest.None? then None else Some([first.value] + rest.value)
  }

  function ParseForm(s: string): Option<seq<Field>> {
    ParseAll(Split(s, '&'))
  }

  lemma FieldParses(f: Field)
    requires Free(f.name)
    ensures ParseField(FieldText(f)) == Some(f)
  {
    EncodedIsFree(f.value);
    EncodeThenDecode(f.value);
    SplitAt(f.name, '=', Encode(f.value));
    SplitNone(Encode(f.value), '=');
  }

  lemma FieldHasNoAnd(f: Field)
    requires Free(f.name)
    ensures forall k :: 0 <= k < |FieldText(f)| ==> FieldText(f)[k] != '&'
  {
    EncodedIsFree(f.value);
  }

  /** Forms parse back.  Splitting on '&', then on '=', and decoding returns exactly
      the fields the form was made of, whatever their values. */
  lemma {:induction false} FormParses(fields: seq<Field>)
    requires fields != [] && forall i :: 0 <= i < |fields| ==> Free(fields[i].name)
    ensures ParseForm(Form(fields)) == Some(fields)
  {
    hide FieldText, ParseField;
    var f := fields[0];
    FieldParses(f);
    FieldHasNoAnd(f);
    if |fields| == 1 {
      SplitNone(FieldText(f), '&');
      assert fields == [f] && ParseAll([]) == Some([]) && [FieldText(f)][1..] == [] && [f] + [] == [f];
    } else {
      FormParses(fields[1..]);
      SplitAt(FieldText(f), '&', Form(fields[1..]));
      assert [f] + fields[1..] == fields;
    }
  }

  lemma {:induction false} FormAppend(fields: seq<Field>, f: Field)
    requires fields != []
    ensures Form(fields + [f]) == Form(fields) + "&" + FieldText(f)
  {
    hide FieldText;
    if |fields| == 1 {
      assert (fields + [f])[1..] == [f];
    } else {
      FormAppend(fields[1..], f);
      assert (fields + [f])[1..] == fields[1..] + [f];
      assert FieldText(fields[0]) + "&" + (Form(fields[1..]) + "&" + FieldText(f)) ==
             FieldText(fields[0]) + "&" + Form(fields[1..]) + "&" + FieldText(f);
    }
  }

  /** Writing one more field, with its separators spelled out in one literal. */
  lemma WriteField(fields: seq<Field>, f: Field, literal: string)
    requires fields != [] && literal == "&" + f.name + "="
    ensures Form(fields) + literal + Encode(f.value) == Form(fields + [f])
  {
    hide Form, Encode;
    FormAppend(fields, f);
    var x, e := Form(fields), Encode(f.value);
    assert x + ("&" + f.name + "=") + e == x + "&" + (f.name + "=" + e);
  }

  // ----- the code

  lemma EncodeStep(s: seq<Octet>, i: nat)
    requires i < |s|
    ensures Encode(s[i..]) == EncodeOctet(s[i]) + Encode(s[i + 1..])
  {
    assert s[i..][1..] == s[i + 1..];
  }

  method UrlEncode(s: seq<Octet>) returns (out: string)
    ensures out == Encode(s)
  {
    hide Hex, Encode;
    out := "";
    assert s[0..] == s && Encode([]) == "" by {
      EncodeEmpty();
    }
    for i := 0 to |s|
      invariant out + Encode(s[i..]) == Encode(s)
    {
      var c := s[i];
      EncodeStep(s, i);
      ghost var before := out;
      if Unreserved(c) {
        out := out + [c];
      } else {
        out := out + ['%'];
        out := out + [Hex(c as int / 16)];
        out := out + [Hex(c as int % 16)];
      }
      assert out == before + EncodeOctet(c);
      assert before + (EncodeOctet(c) + Encode(s[i + 1..])) == out + Encode(s[i + 1..]);
    }
    assert s[|s|..] == [];
  }

  lemma EncodeEmpty()
    ensures Encode([]) == ""
  {
  }

  /** The fields of a token request, by section 4.1.3 of RFC 6749. */
  function TokenRequest(code: seq<Octet>, clientId: seq<Octet>, clientSecret: seq<Octet>, redirectUri: seq<Octet>): seq<Field> {
    var fields := GrantFields(code) + [Field("client_id", clientId)] + [Field("redirect_uri", redirectUri)];
    if clientSecret == [] then fields else fields + [Field("client_secret", clientSecret)]
  }

  function GrantFields(code: seq<Octet>): seq<Field> {
    [Field("grant_type", "authorization_code"), Field("code", code)]
  }

  lemma NamesFree()
    ensures Free("grant_type") && Free("code") && Free("client_id") && Free("redirect_uri") && Free("client_secret")
    ensures Free("response_type") && Free("scope") && Free("state")
  {
  }

  lemma TokenRequestNames(code: seq<Octet>, clientId: seq<Octet>, clientSecret: seq<Octet>, redirectUri: seq<Octet>)
    ensures forall i :: 0 <= i < |TokenRequest(code, clientId, clientSecret, redirectUri)| ==>
              Free(TokenRequest(code, clientId, clientSecret, redirectUri)[i].name)
  {
    NamesFree();
    hide Free;
  }

  lemma CodeIsUnreserved()
    ensures forall k :: 0 <= k < |"authorization_code"| ==> Unreserved("authorization_code"[k])
  {
  }

  lemma GrantText()
    ensures FieldText(Field("grant_type", "authorization_code")) == "grant_type=authorization_code"
  {
    hide Encode, Unreserved;
    CodeIsUnreserved();
    UnreservedUnchanged("authorization_code");
    assert "grant_type" + "=" + "authorization_code" == "grant_type=authorization_code";
  }

  lemma GrantAndCode(code: seq<Octet>)
    ensures "grant_type=authorization_code&code=" + Encode(code) ==
            Form(GrantFields(code))
  {
    hide Encode, FieldText;
    var grant, field := Field("grant_type", "authorization_code"), Field("code", code);
    GrantText();
    assert "grant_type=authorization_code&code=" == "grant_type=authorization_code" + "&code=";
    assert Form([grant]) == FieldText(grant);
    assert [grant] + [field] == [grant, field];
    hide Form;
    WriteField([grant], field, "&code=");
  }

  lemma WriteFields(fields: seq<Field>, f: Field, g: Field, literal: string, second: string)
    requires fields != [] && literal == "&" + f.name + "=" && second == "&" + g.name + "="
    ensures Form(fields) + literal + Encode(f.value) + second + Encode(g.value) == Form(fields + [f] + [g])
  {
    hide Form, Encode;
    WriteField(fields, f, literal);
    WriteField(fields + [f], g, second);
  }

  /** The request of a client that has no secret. */
  lemma PublicRequest(code: seq<Octet>, clientId: seq<Octet>, redirectUri: seq<Octet>)
    ensures "grant_type=authorization_code&code=" + Encode(code) + "&client_id=" + Encode(clientId) +
            "&redirect_uri=" + Encode(redirectUri) == Form(TokenRequest(code, clientId, [], redirectUri))
  {
    hide Encode, Form;
    assert |GrantFields(code)| == 2;
    hide GrantFields;
    GrantAndCode(code);
    WriteFields(GrantFields(code), Field("client_id", clientId), Field("redirect_uri", redirectUri), "&client_id=", "&redirect_uri=");
  }

  method TokenBody(code: seq<Octet>, clientId: seq<Octet>, clientSecret: seq<Octet>, redirectUri: seq<Octet>)
      returns (body: string)
    ensures ParseForm(body) == Some(TokenRequest(code, clientId, clientSecret, redirectUri))
  {
    hide Encode, Form, ParseForm, Free;
    var e1 := UrlEncode(code);
    var e2 := UrlEncode(clientId);
    var e3 := UrlEncode(redirectUri);
    body := "grant_type=authorization_code&code=" + e1 + "&client_id=" + e2 + "&redirect_uri=" + e3;
    PublicRequest(code, clientId, redirectUri);
    ghost var fields := TokenRequest(code, clientId, [], redirectUri);
    if clientSecret != [] {
      var e4 := UrlEncode(clientSecret);
      body := body + "&client_secret=" + e4;
      WriteField(fields, Field("client_secret", clientSecret), "&client_secret=");
      fields := fields + [Field("client_secret", clientSecret)];
    }
    assert fields == TokenRequest(code, clientId, clientSecret, redirectUri);
    TokenRequestNames(code, clientId, clientSecret, redirectUri);
    FormParses(fields);
  }

  /** The fields of an authorization request, by section 4.1.1 of RFC 6749. */
  function AuthorizationRequest(clientId: seq<Octet>, scope: seq<Octet>, redirectUri: seq<Octet>): seq<Field> {
    [Field("client_id", clientId)] + [Field("response_type", "code")] + [Field("scope", scope)] +
    [Field("redirect_uri", redirectUri)] + [Field("state", "bhttp")]
  }

  lemma AuthorizationRequestNames(clientId: seq<Octet>, scope: seq<Octet>, redirectUri: seq<Octet>)
    ensures forall i :: 0 <= i < |AuthorizationRequest(clientId, scope, redirectUri)| ==>
              Free(AuthorizationRequest(clientId, scope, redirectUri)[i].name)
  {
    NamesFree();
    hide Free;
  }

  lemma ConstantValues()
    ensures Encode("code") == "code" && Encode("bhttp") == "bhttp"
  {
    hide Encode;
    UnreservedUnchanged("code");
    UnreservedUnchanged("bhttp");
  }

  /** The code and the scope that follow the client id. */
  lemma CodeAndScope(fields: seq<Field>, scope: seq<Octet>)
    requires fields != []
    ensures Form(fields) + "&response_type=code&scope=" + Encode(scope) ==
            Form(fields + [Field("response_type", "code")] + [Field("scope", scope)])
  {
    hide Encode, Form;
    ConstantValues();
    WriteField(fields, Field("response_type", "code"), "&response_type=");
    WriteField(fields + [Field("response_type", "code")], Field("scope", scope), "&scope=");
    assert "&response_type=code&scope=" == "&response_type=" + "code" + "&scope=";
    var x := Form(fields);
    assert x + ("&response_type=" + "code" + "&scope=") == x + "&response_type=" + "code" + "&scope=";
  }

  lemma FirstField(f: Field)
    ensures Form([f]) == f.name + "=" + Encode(f.value)
  {
  }

  lemma Regroup(endpoint: string, name: string, e1: string, rest: string)
    ensures endpoint + ("?" + name + "=") + e1 + rest == endpoint + "?" + ((name + "=" + e1) + rest)
  {
  }

  method AuthorizationUrl(endpoint: string, clientId: seq<Octet>, scope: seq<Octet>, redirectUri: seq<Octet>)
      returns (url: string, ghost query: string)
    ensures url == endpoint + "?" + query
    ensures ParseForm(query) == Some(AuthorizationRequest(clientId, scope, redirectUri))
  {
    hide Encode, Form, ParseForm, Free;
    var e1 := UrlEncode(clientId);
    var e2 := UrlEncode(scope);
    var e3 := UrlEncode(redirectUri);
    url := endpoint + "?client_id=" + e1 + "&response_type=code&scope=" + e2 + "&redirect_uri=" + e3 + "&state=bhttp";
    ghost var fields := [Field("client_id", clientId)];
    FirstField(fields[0]);
    CodeAndScope(fields, scope);
    fields := fields + [Field("response_type", "code")] + [Field("scope", scope)];
    WriteField(fields, Field("redirect_uri", redirectUri), "&redirect_uri=");
    fields := fields + [Field("redirect_uri", redirectUri)];
    WriteField(fields, Field("state", "bhttp"), "&state=");
    ConstantValues();
    assert "&state=bhttp" == "&state=" + "bhttp";
    query := Form(fields + [Field("state", "bhttp")]);
    assert query == "client_id" + "=" + e1 + "&response_type=code&scope=" + e2 + "&redirect_uri=" + e3 + ("&state=" + "bhttp");
    AuthorizationRequestNames(clientId, scope, redirectUri);
    assert fields + [Field("state", "bhttp")] == AuthorizationRequest(clientId, scope, redirectUri);
    FormParses(fields + [Field("state", "bhttp")]);
    Assemble(endpoint, e1, e2, e3);
  }

  lemma Assemble(endpoint: string, e1: string, e2: string, e3: string)
    ensures endpoint + "?client_id=" + e1 + "&response_type=code&scope=" + e2 + "&redirect_uri=" + e3 + "&state=bhttp" ==
            endpoint + "?" + ("client_id" + "=" + e1 + "&response_type=code&scope=" + e2 + "&redirect_uri=" + e3 + ("&state=" + "bhttp"))
  {
    assert "?client_id=" == "?" + "client_id" + "=" && "&state=bhttp" == "&state=" + "bhttp";
    Regroup(endpoint, "client_id", e1, "&response_type=code&scope=" + e2 + "&redirect_uri=" + e3 + "&state=bhttp");
  }
}
