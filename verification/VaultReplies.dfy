/** What the vault is asked, and what is made of its answers. */
module VaultReplies {
  import opened Wrappers
  import opened Splitting

  /** A JSON value; numbers as the integers they convert to. */
  datatype Json = Text(s: string) | Number(n: int) | Object(members: map<string, Json>) | Other

  /** An HTTP response; no body if it is no JSON. */
  datatype Response = Response(status: int, body: Option<Json>)

  /** A member of an object.  Asking a value for a member it does not have leads to
      no text in the end, and so to the same failure. */
  function Member(j: Option<Json>, key: string): Option<Json> {
    if j.Some? && j.value.Object? && key in j.value.members then Some(j.value.members[key]) else None
  }

  /** Where a secret is read.  With the second engine version, "data" comes between
      the mount and the rest of the path. */
  function SecretUrl(addr: string, path: string, version: int): string {
    var slash := FindFirstOf(path, {'/'}, 0);
    if version == 2 && slash < |path| then addr + "/v1/" + path[..slash] + "/data/" + path[slash + 1..]
    else addr + "/v1/" + path
  }

  lemma SecretUrlPlain(addr: string, path: string, version: int)
    requires version != 2 || '/' !in path
    ensures SecretUrl(addr, path, version) == addr + "/v1/" + path
  {
  }

  lemma SecretUrlOfMount(addr: string, mount: string, rest: string)
    requires '/' !in mount
    ensures SecretUrl(addr, mount + "/" + rest, 2) == addr + "/v1/" + mount + "/data/" + rest
  {
    hide FindFirstOf;
    var path := mount + "/" + rest;
    FirstOfIs(path, {'/'}, 0, |mount|);
    assert path[..|mount|] == mount && path[|mount| + 1..] == rest;
  }

  /** The engine version is not part of a secret's cache key.  Two calls for one path
      read one URL all the same if and only if both or neither are for the second
      version, or the path has no mount of its own. */
  lemma SameUrlIff(addr: string, path: string, version: int, other: int)
    ensures SecretUrl(addr, path, version) == SecretUrl(addr, path, other) <==>
            (version == 2 <==> other == 2) || '/' !in path
  {
    hide FindFirstOf;
    var slash := FindFirstOf(path, {'/'}, 0);
    if slash < |path| {
      assert path[slash] in path;
      var plain, nested := addr + "/v1/" + path, addr + "/v1/" + path[..slash] + "/data/" + path[slash + 1..];
      assert |nested| != |plain|;
    }
  }

  /** The field of a secret, if the answer has it. */
  function SecretOf(r: Response, field: string, version: int): Option<string> {
    var data := Member(r.body, "data");
    var value := Member(if version == 2 then Member(data, "data") else data, field);
    if r.status == 200 && value.Some? && value.value.Text? then Some(value.value.s) else None
  }

  /** Following the keys from object to object, one arrives at a value. */
  ghost predicate Leads(j: Json, keys: seq<string>, to: Json) {
    if keys == [] then j == to
    else j.Object? && keys[0] in j.members && Leads(j.members[keys[0]], keys[1..], to)
  }

  /** An answer holds a secret when it is a 200 and has it as text, for the second
      version in the "data" of its "data", and else in its "data". */
  ghost predicate HoldsSecret(r: Response, field: string, version: int, s: string) {
    && r.status == 200 && r.body.Some?
    && Leads(r.body.value, if version == 2 then ["data", "data", field] else ["data", field], Text(s))
  }

  lemma {:induction false} LeadsStep(j: Json, key: string, rest: seq<string>, to: Json)
    ensures Leads(j, [key] + rest, to) <==> Member(Some(j), key).Some? && Leads(Member(Some(j), key).value, rest, to)
  {
    assert ([key] + rest)[1..] == rest;
  }

  lemma SecretOfIff(r: Response, field: string, version: int, s: string)
    ensures SecretOf(r, field, version) == Some(s) <==> HoldsSecret(r, field, version, s)
  {
    if r.body.Some? {
      var j, data := r.body.value, Member(r.body, "data");
      LeadsStep(j, "data", ["data", field], Text(s));
      LeadsStep(j, "data", [field], Text(s));
      assert ["data"] + ["data", field] == ["data", "data", field] && ["data"] + [field] == ["data", field];
      if data.Some? {
        LeadsStep(data.value, "data", [field], Text(s));
        LeadsStep(data.value, field, [], Text(s));
        var inner := Member(data, "data");
        if inner.Some? {
          LeadsStep(inner.value, field, [], Text(s));
        }
      }
      assert [field] + [] == [field];
    }
  }

  datatype Token = Token(text: string, lease: int)

  const DEFAULT_LEASE := 3600

  /** The token of a login, if the answer has one.  A lease that is not stated is
      an hour. */
  function TokenOf(r: Response): Option<Token> {
    var auth := Member(r.body, "auth");
    var text, lease := Member(auth, "client_token"), Member(auth, "lease_duration");
    if r.status != 200 || text.None? || !text.value.Text? || text.value.s == "" then None
    else if lease.None? then Some(Token(text.value.s, DEFAULT_LEASE))
    else if lease.value.Number? then Some(Token(text.value.s, lease.value.n))
    else None
  }

  /** An answer grants a token when it is a 200 and has its text, not empty, as the
      "client_token" of its "auth"; its lease stands beside it, or is an hour. */
  ghost predicate GrantsToken(r: Response, t: Token) {
    && r.status == 200 && r.body.Some? && t.text != ""
    && Leads(r.body.value, ["auth", "client_token"], Text(t.text))
    && (Leads(r.body.value, ["auth", "lease_duration"], Number(t.lease))
        || (t.lease == 3600 && forall x :: !Leads(r.body.value, ["auth", "lease_duration"], x)))
  }

  lemma TokenOfIff(r: Response, t: Token)
    ensures TokenOf(r) == Some(t) <==> GrantsToken(r, t)
  {
    if r.body.Some? {
      var auth := Member(r.body, "auth");
      forall key, x
        ensures Leads(r.body.value, ["auth", key], x) <==> Member(auth, key) == Some(x)
      {
        LeadsStep(r.body.value, "auth", [key], x);
        assert ["auth"] + [key] == ["auth", key] && [key] + [] == [key];
        if auth.Some? {
          LeadsStep(auth.value, key, [], x);
        }
      }
      hide Leads, Member;
      var lease := Member(auth, "lease_duration");
      assert Leads(r.body.value, ["auth", "client_token"], Text(t.text)) <==> Member(auth, "client_token") == Some(Text(t.text));
      assert forall x :: Leads(r.body.value, ["auth", "lease_duration"], x) <==> lease == Some(x);
      if lease.Some? {
        assert Leads(r.body.value, ["auth", "lease_duration"], lease.value);
      }
    }
  }

  /** What logging in by single sign-on yields: nothing, if the configuration is not
      complete, or the sign-on or the login fails.  `jwt` is the token signed on
      with, nothing if that fails; `login` what the vault answers to it. */
  function Granted(role: string, issuer: string, clientId: string, jwt: Option<string>, login: (string, string) -> Response): Option<Token> {
    if issuer == "" || clientId == "" then None
    else if role == "" then None
    else if jwt.None? || jwt.value == "" then None
    else TokenOf(login(role, jwt.value))
  }

  /** Logging in grants a token: the configuration is complete, the sign-on yields
      something, and the vault's answer to it grants the token. */
  ghost predicate IsGranted(role: string, issuer: string, clientId: string, jwt: Option<string>, login: (string, string) -> Response,
                            t: Token) {
    && role != "" && issuer != "" && clientId != "" && jwt.Some? && jwt.value != ""
    && GrantsToken(login(role, jwt.value), t)
  }

  lemma GrantedIff(role: string, issuer: string, clientId: string, jwt: Option<string>, login: (string, string) -> Response, t: Token)
    ensures Granted(role, issuer, clientId, jwt, login) == Some(t) <==> IsGranted(role, issuer, clientId, jwt, login, t)
  {
    hide TokenOf, GrantsToken;
    if jwt.Some? {
      TokenOfIff(login(role, jwt.value), t);
    }
  }
}
