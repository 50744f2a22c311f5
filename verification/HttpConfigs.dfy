/** The per-request configuration: how one JSON object is laid over it, field by
    field. */
module HttpConfigs {
  import opened Wrappers

  /** A JSON value, as far as the configuration looks at it. */
  datatype Json = Str(s: string) | Num(n: real) | Bool(b: bool) | Other

  /** A JSON object; a JSON text that is no object merges like an empty one. */
  type Object = map<string, Json>

  datatype Field =
    | RateLimit | Burst | Timeout | VerifySsl | Proxy
    | CaBundle | ClientCert | ClientKey | AuthType | BearerToken
    | BearerTokenExpiresAt | MaxConcurrent | GlobalRateLimit | GlobalBurst | VaultPath
    | VaultAddr | VaultToken | VaultField | VaultParamName | VaultKvVersion
    | VaultAuthMethod | VaultJwtRole | OidcIssuer | OidcClientId | OidcClientSecret

  datatype Kind = Text | Number | Whole | AtLeastOne | Flag

  function Key(f: Field): string {
    match f
    case RateLimit => "rate_limit"
    case Burst => "burst"
    case Timeout => "timeout"
    case VerifySsl => "verify_ssl"
    case Proxy => "proxy"
    case CaBundle => "ca_bundle"
    case ClientCert => "client_cert"
    case ClientKey => "client_key"
    case AuthType => "auth_type"
    case BearerToken => "bearer_token"
    case BearerTokenExpiresAt => "bearer_token_expires_at"
    case MaxConcurrent => "max_concurrent"
    case GlobalRateLimit => "global_rate_limit"
    case GlobalBurst => "global_burst"
    case VaultPath => "vault_path"
    case VaultAddr => "vault_addr"
    case VaultToken => "vault_token"
    case VaultField => "vault_field"
    case VaultParamName => "vault_param_name"
    case VaultKvVersion => "vault_kv_version"
    case VaultAuthMethod => "vault_auth_method"
    case VaultJwtRole => "vault_jwt_role"
    case OidcIssuer => "oidc_issuer"
    case OidcClientId => "oidc_client_id"
    case OidcClientSecret => "oidc_client_secret"
  }

  function KindOf(f: Field): Kind {
    match f
    case Burst | GlobalBurst => Number
    case Timeout | BearerTokenExpiresAt | VaultKvVersion => Whole
    case MaxConcurrent => AtLeastOne
    case VerifySsl => Flag
    case _ => Text
  }

  /** Conversion of a number to an integer drops the fraction. */
  function Truncate(n: real): (r: int)
    ensures n >= 0.0 ==> 0 <= r && r as real <= n < (r + 1) as real
    ensures n < 0.0 ==> r <= 0 && (r - 1) as real < n <= r as real
  {
    if n >= 0.0 then n.Floor else -((-n).Floor)
  }

  /** What an object says of a field: nothing, unless it has the field's key with
      a value of the field's kind. */
  function Says(f: Field, j: Object): Option<Json> {
    if Key(f) !in j then None else
      match (KindOf(f), j[Key(f)])
      case (Text, Str(s)) => Some(Str(s))
      case (Number, Num(n)) => Some(Num(n))
      case (Whole, Num(n)) => Some(Num(Truncate(n) as real))
      case (AtLeastOne, Num(n)) => Some(Num((if Truncate(n) < 1 then 1 else Truncate(n)) as real))
      case (Flag, Bool(b)) => Some(Bool(b))
      case _ => None
  }

  function Or(said: Option<Json>, otherwise: Json): Json {
    match said
    case None => otherwise
    case Some(v) => v
  }

  // What it says, as the field's own type; whole numbers come out of Says whole.

  function TextOf(said: Option<Json>, otherwise: string): string {
    match said
    case Some(Str(s)) => s
    case _ => otherwise
  }

  function NumberOf(said: Option<Json>, otherwise: real): real {
    match said
    case Some(Num(n)) => n
    case _ => otherwise
  }

  function WholeOf(said: Option<Json>, otherwise: int): int {
    match said
    case Some(Num(n)) => n.Floor
    case _ => otherwise
  }

  function FlagOf(said: Option<Json>, otherwise: bool): bool {
    match said
    case Some(Bool(b)) => b
    case _ => otherwise
  }

  function TextAt(j: Object, f: Field, otherwise: string): string {
    TextOf(Says(f, j), otherwise)
  }

  function NumberAt(j: Object, f: Field, otherwise: real): real {
    NumberOf(Says(f, j), otherwise)
  }

  function WholeAt(j: Object, f: Field, otherwise: int): int {
    WholeOf(Says(f, j), otherwise)
  }

  function FlagAt(j: Object, f: Field, otherwise: bool): bool {
    FlagOf(Says(f, j), otherwise)
  }

  /** The configuration as a value. */
  datatype Values = Values(
    rateLimitSpec: string,
    burst: real,
    timeout: int,
    verifySsl: bool,
    proxy: string,
    caBundle: string,
    clientCert: string,
    clientKey: string,
    authType: string,
    bearerToken: string,
    bearerTokenExpiresAt: int,
    maxConcurrent: int,
    globalRateLimitSpec: string,
    globalBurst: real,
    vaultPath: string,
    vaultAddr: string,
    vaultToken: string,
    vaultField: string,
    vaultParamName: string,
    vaultKvVersion: int,
    vaultAuthMethod: string,
    vaultJwtRole: string,
    oidcIssuer: string,
    oidcClientId: string,
    oidcClientSecret: string)

  const BUILT_IN := Values(
    rateLimitSpec := "20/s",
    burst := 5.0,
    timeout := 30,
    verifySsl := true,
    proxy := "",
    caBundle := "",
    clientCert := "",
    clientKey := "",
    authType := "",
    bearerToken := "",
    bearerTokenExpiresAt := 0,
    maxConcurrent := 10,
    globalRateLimitSpec := "",
    globalBurst := 10.0,
    vaultPath := "",
    vaultAddr := "http://127.0.0.1:8200",
    vaultToken := "",
    vaultField := "api_key",
    vaultParamName := "",
    vaultKvVersion := 2,
    vaultAuthMethod := "token",
    vaultJwtRole := "",
    oidcIssuer := "",
    oidcClientId := "",
    oidcClientSecret := "")

  /** The fields by name. */
  function Get(v: Values, f: Field): Json {
    match f
    case RateLimit => Str(v.rateLimitSpec)
    case Burst => Num(v.burst)
    case Timeout => Num(v.timeout as real)
    case VerifySsl => Bool(v.verifySsl)
    case Proxy => Str(v.proxy)
    case CaBundle => Str(v.caBundle)
    case ClientCert => Str(v.clientCert)
    case ClientKey => Str(v.clientKey)
    case AuthType => Str(v.authType)
    case BearerToken => Str(v.bearerToken)
    case BearerTokenExpiresAt => Num(v.bearerTokenExpiresAt as real)
    case MaxConcurrent => Num(v.maxConcurrent as real)
    case GlobalRateLimit => Str(v.globalRateLimitSpec)
    case GlobalBurst => Num(v.globalBurst)
    case VaultPath => Str(v.vaultPath)
    case VaultAddr => Str(v.vaultAddr)
    case VaultToken => Str(v.vaultToken)
    case VaultField => Str(v.vaultField)
    case VaultParamName => Str(v.vaultParamName)
    case VaultKvVersion => Num(v.vaultKvVersion as real)
    case VaultAuthMethod => Str(v.vaultAuthMethod)
    case VaultJwtRole => Str(v.vaultJwtRole)
    case OidcIssuer => Str(v.oidcIssuer)
    case OidcClientId => Str(v.oidcClientId)
    case OidcClientSecret => Str(v.oidcClientSecret)
  }

  /** An object laid over a configuration. */
  function Merged(v: Values, j: Object): Values {
    Values(
      TextAt(j, RateLimit, v.rateLimitSpec),
      NumberAt(j, Burst, v.burst),
      WholeAt(j, Timeout, v.timeout),
      FlagAt(j, VerifySsl, v.verifySsl),
      TextAt(j, Proxy, v.proxy),
      TextAt(j, CaBundle, v.caBundle),
      TextAt(j, ClientCert, v.clientCert),
      TextAt(j, ClientKey, v.clientKey),
      TextAt(j, AuthType, v.authType),
      TextAt(j, BearerToken, v.bearerToken),
      WholeAt(j, BearerTokenExpiresAt, v.bearerTokenExpiresAt),
      WholeAt(j, MaxConcurrent, v.maxConcurrent),
      TextAt(j, GlobalRateLimit, v.globalRateLimitSpec),
      NumberAt(j, GlobalBurst, v.globalBurst),
      TextAt(j, VaultPath, v.vaultPath),
      TextAt(j, VaultAddr, v.vaultAddr),
      TextAt(j, VaultToken, v.vaultToken),
      TextAt(j, VaultField, v.vaultField),
      TextAt(j, VaultParamName, v.vaultParamName),
      WholeAt(j, VaultKvVersion, v.vaultKvVersion),
      TextAt(j, VaultAuthMethod, v.vaultAuthMethod),
      TextAt(j, VaultJwtRole, v.vaultJwtRole),
      TextAt(j, OidcIssuer, v.oidcIssuer),
      TextAt(j, OidcClientId, v.oidcClientId),
      TextAt(j, OidcClientSecret, v.oidcClientSecret))
  }

  /** What the accessors have to do with what an object says. */
  lemma AccessorsSay(j: Object, f: Field)
    ensures KindOf(f) == Text ==> forall o :: Str(TextAt(j, f, o)) == Or(Says(f, j), Str(o))
    ensures KindOf(f) == Number ==> forall o :: Num(NumberAt(j, f, o)) == Or(Says(f, j), Num(o))
    ensures KindOf(f) == Whole || KindOf(f) == AtLeastOne ==>
              forall o: int :: Num(WholeAt(j, f, o) as real) == Or(Says(f, j), Num(o as real))
    ensures KindOf(f) == Flag ==> forall o :: Bool(FlagAt(j, f, o)) == Or(Says(f, j), Bool(o))
  {
    hide Key, Truncate, KindOf;
  }

  /** Every field takes what the object says of it and otherwise stays as it was. */
  lemma MergedField(v: Values, j: Object, f: Field)
    ensures Get(Merged(v, j), f) == Or(Says(f, j), Get(v, f))
  {
    AccessorsSay(j, f);
    hide Key, Says, Or, TextAt, NumberAt, WholeAt, FlagAt;
  }

  /** What holds when nothing is configured. */
  lemma BuiltIn(f: Field)
    ensures Get(BUILT_IN, f) ==
            match f
            case RateLimit => Str("20/s")
            case Burst => Num(5.0)
            case Timeout => Num(30.0)
            case VerifySsl => Bool(true)
            case BearerTokenExpiresAt => Num(0.0)
            case MaxConcurrent => Num(10.0)
            case GlobalBurst => Num(10.0)
            case VaultAddr => Str("http://127.0.0.1:8200")
            case VaultField => Str("api_key")
            case VaultKvVersion => Num(2.0)
            case VaultAuthMethod => Str("token")
            case _ => Str("")
  {
  }

  // ----- by key

  function StringIn(j: Object, key: string, otherwise: string): string {
    if key in j && j[key].Str? then j[key].s else otherwise
  }

  function NumberIn(j: Object, key: string, otherwise: real): real {
    if key in j && j[key].Num? then j[key].n else otherwise
  }

  function WholeIn(j: Object, key: string, otherwise: int): int {
    if key in j && j[key].Num? then Truncate(j[key].n) else otherwise
  }

  function PositiveIn(j: Object, key: string, otherwise: int): int {
    if key in j && j[key].Num? && j[key].n < 1.0 then 1 else WholeIn(j, key, otherwise)
  }

  function FlagIn(j: Object, key: string, otherwise: bool): bool {
    if key in j && j[key].Bool? then j[key].b else otherwise
  }

  /** An accessor finds what stands under the key. */
  lemma AccessorRead(j: Object, f: Field, s: string, x: real, n: int, q: bool)
    ensures KindOf(f) == Text ==> TextAt(j, f, s) == StringIn(j, Key(f), s)
    ensures KindOf(f) == Number ==> NumberAt(j, f, x) == NumberIn(j, Key(f), x)
    ensures KindOf(f) == Whole ==> WholeAt(j, f, n) == WholeIn(j, Key(f), n)
    ensures KindOf(f) == AtLeastOne ==> WholeAt(j, f, n) == PositiveIn(j, Key(f), n)
    ensures KindOf(f) == Flag ==> FlagAt(j, f, q) == FlagIn(j, Key(f), q)
  {
    hide Key, Truncate, KindOf;
  }

  /** Merging, key by key: how requests are sent. */
  lemma SendingByKey(v: Values, j: Object)
    ensures Merged(v, j).rateLimitSpec == StringIn(j, "rate_limit", v.rateLimitSpec)
    ensures Merged(v, j).burst == NumberIn(j, "burst", v.burst)
    ensures Merged(v, j).timeout == WholeIn(j, "timeout", v.timeout)
    ensures Merged(v, j).verifySsl == FlagIn(j, "verify_ssl", v.verifySsl)
    ensures Merged(v, j).proxy == StringIn(j, "proxy", v.proxy)
    ensures Merged(v, j).caBundle == StringIn(j, "ca_bundle", v.caBundle)
    ensures Merged(v, j).clientCert == StringIn(j, "client_cert", v.clientCert)
    ensures Merged(v, j).clientKey == StringIn(j, "client_key", v.clientKey)
  {
    hide Says, TextAt, NumberAt, WholeAt, FlagAt, StringIn, NumberIn, WholeIn, FlagIn, PositiveIn;
    AccessorRead(j, RateLimit, v.rateLimitSpec, 0.0, 0, false);
    AccessorRead(j, Burst, "", v.burst, 0, false);
    AccessorRead(j, Timeout, "", 0.0, v.timeout, false);
    AccessorRead(j, VerifySsl, "", 0.0, 0, v.verifySsl);
    AccessorRead(j, Proxy, v.proxy, 0.0, 0, false);
    AccessorRead(j, CaBundle, v.caBundle, 0.0, 0, false);
    AccessorRead(j, ClientCert, v.clientCert, 0.0, 0, false);
    AccessorRead(j, ClientKey, v.clientKey, 0.0, 0, false);
  }

  /** What they are sent with. */
  lemma AccessByKey(v: Values, j: Object)
    ensures Merged(v, j).authType == StringIn(j, "auth_type", v.authType)
    ensures Merged(v, j).bearerToken == StringIn(j, "bearer_token", v.bearerToken)
    ensures Merged(v, j).bearerTokenExpiresAt == WholeIn(j, "bearer_token_expires_at", v.bearerTokenExpiresAt)
    ensures Merged(v, j).maxConcurrent == PositiveIn(j, "max_concurrent", v.maxConcurrent)
    ensures Merged(v, j).globalRateLimitSpec == StringIn(j, "global_rate_limit", v.globalRateLimitSpec)
    ensures Merged(v, j).globalBurst == NumberIn(j, "global_burst", v.globalBurst)
  {
    hide Says, TextAt, NumberAt, WholeAt, FlagAt, StringIn, NumberIn, WholeIn, FlagIn, PositiveIn;
    AccessorRead(j, AuthType, v.authType, 0.0, 0, false);
    AccessorRead(j, BearerToken, v.bearerToken, 0.0, 0, false);
    AccessorRead(j, BearerTokenExpiresAt, "", 0.0, v.bearerTokenExpiresAt, false);
    AccessorRead(j, MaxConcurrent, "", 0.0, v.maxConcurrent, false);
    AccessorRead(j, GlobalRateLimit, v.globalRateLimitSpec, 0.0, 0, false);
    AccessorRead(j, GlobalBurst, "", v.globalBurst, 0, false);
  }

  /** Where secrets come from. */
  lemma VaultByKey(v: Values, j: Object)
    ensures Merged(v, j).vaultPath == StringIn(j, "vault_path", v.vaultPath)
    ensures Merged(v, j).vaultAddr == StringIn(j, "vault_addr", v.vaultAddr)
    ensures Merged(v, j).vaultToken == StringIn(j, "vault_token", v.vaultToken)
    ensures Merged(v, j).vaultField == StringIn(j, "vault_field", v.vaultField)
    ensures Merged(v, j).vaultParamName == StringIn(j, "vault_param_name", v.vaultParamName)
    ensures Merged(v, j).vaultKvVersion == WholeIn(j, "vault_kv_version", v.vaultKvVersion)
  {
    hide Says, TextAt, NumberAt, WholeAt, FlagAt, StringIn, NumberIn, WholeIn, FlagIn, PositiveIn;
    AccessorRead(j, VaultPath, v.vaultPath, 0.0, 0, false);
    AccessorRead(j, VaultAddr, v.vaultAddr, 0.0, 0, false);
    AccessorRead(j, VaultToken, v.vaultToken, 0.0, 0, false);
    AccessorRead(j, VaultField, v.vaultField, 0.0, 0, false);
    AccessorRead(j, VaultParamName, v.vaultParamName, 0.0, 0, false);
    AccessorRead(j, VaultKvVersion, "", 0.0, v.vaultKvVersion, false);
  }

  /** And how their store is logged in to. */
  lemma LoginByKey(v: Values, j: Object)
    ensures Merged(v, j).vaultAuthMethod == StringIn(j, "vault_auth_method", v.vaultAuthMethod)
    ensures Merged(v, j).vaultJwtRole == StringIn(j, "vault_jwt_role", v.vaultJwtRole)
    ensures Merged(v, j).oidcIssuer == StringIn(j, "oidc_issuer", v.oidcIssuer)
    ensures Merged(v, j).oidcClientId == StringIn(j, "oidc_client_id", v.oidcClientId)
    ensures Merged(v, j).oidcClientSecret == StringIn(j, "oidc_client_secret", v.oidcClientSecret)
  {
    hide Says, TextAt, NumberAt, WholeAt, FlagAt, StringIn, NumberIn, WholeIn, FlagIn, PositiveIn;
    AccessorRead(j, VaultAuthMethod, v.vaultAuthMethod, 0.0, 0, false);
    AccessorRead(j, VaultJwtRole, v.vaultJwtRole, 0.0, 0, false);
    AccessorRead(j, OidcIssuer, v.oidcIssuer, 0.0, 0, false);
    AccessorRead(j, OidcClientId, v.oidcClientId, 0.0, 0, false);
    AccessorRead(j, OidcClientSecret, v.oidcClientSecret, 0.0, 0, false);
  }

  // ----- layers

  /** Some field has this key and takes this value. */
  ghost predicate Taken(key: string, value: Json) {
    exists f :: Key(f) == key && Says(f, map[key := value]).Some?
  }

  /** One object laid over another: its values where they are of use, the other's
      elsewhere. */
  ghost function Layered(a: Object, b: Object): Object {
    map k | k in a.Keys + b.Keys :: if k in b && (k !in a || Taken(k, b[k])) then b[k] else a[k]
  }

  lemma KeyInjective(f: Field, g: Field)
    requires Key(f) == Key(g)
    ensures f == g
  {
  }

  lemma LayeredSays(a: Object, b: Object, f: Field)
    ensures Says(f, Layered(a, b)) == if Says(f, b).Some? then Says(f, b) else Says(f, a)
  {
    hide Key;
    var key, over := Key(f), Layered(a, b);
    if key in over {
      SaysOfOne(f, over);
    }
    if key in a {
      SaysOfOne(f, a);
    }
    if key in b {
      SaysOfOne(f, b);
      if g :| Key(g) == key && Says(g, map[key := b[key]]).Some? {
        KeyInjective(f, g);
      }
    }
    hide Says;
  }

  /** Says looks at the value of one key. */
  lemma SaysOfOne(f: Field, j: Object)
    requires Key(f) in j
    ensures Says(f, map[Key(f) := j[Key(f)]]) == Says(f, j)
  {
    hide Key;
  }

  /** Whatever is said of a field is of one type. */
  lemma SaysKind(f: Field, a: Object, b: Object)
    ensures Says(f, a).Some? && Says(f, b).Some? ==>
              var x, y := Says(f, a).value, Says(f, b).value;
              (x.Str? && y.Str?) || (x.Num? && y.Num?) || (x.Bool? && y.Bool?)
  {
    hide Key, Truncate, KindOf;
  }

  lemma OfLayers(a: Option<Json>, b: Option<Json>, s: string, x: real, n: int, q: bool)
    requires a.Some? && b.Some? ==>
               (a.value.Str? && b.value.Str?) || (a.value.Num? && b.value.Num?) || (a.value.Bool? && b.value.Bool?)
    ensures var c := if b.Some? then b else a;
            && TextOf(c, s) == TextOf(b, TextOf(a, s)) && NumberOf(c, x) == NumberOf(b, NumberOf(a, x))
            && WholeOf(c, n) == WholeOf(b, WholeOf(a, n)) && FlagOf(c, q) == FlagOf(b, FlagOf(a, q))
  {
  }

  lemma AccessorLayers(a: Object, b: Object, f: Field, s: string, x: real, n: int, q: bool)
    ensures TextAt(Layered(a, b), f, s) == TextAt(b, f, TextAt(a, f, s))
    ensures NumberAt(Layered(a, b), f, x) == NumberAt(b, f, NumberAt(a, f, x))
    ensures WholeAt(Layered(a, b), f, n) == WholeAt(b, f, WholeAt(a, f, n))
    ensures FlagAt(Layered(a, b), f, q) == FlagAt(b, f, FlagAt(a, f, q))
  {
    hide Says, Layered, TextOf, NumberOf, WholeOf, FlagOf, Key, KindOf, Truncate;
    LayeredSays(a, b, f);
    SaysKind(f, a, b);
    OfLayers(Says(f, a), Says(f, b), s, x, n, q);
  }

  /** Layering.  Merging one object and then another is merging the one laid over
      the other. */
  lemma MergeLayers(v: Values, a: Object, b: Object)
    ensures Merged(Merged(v, a), b) == Merged(v, Layered(a, b))
  {
    forall f, o: string
      ensures TextAt(Layered(a, b), f, o) == TextAt(b, f, TextAt(a, f, o))
    {
      AccessorLayers(a, b, f, o, 0.0, 0, false);
    }
    forall f, o: real
      ensures NumberAt(Layered(a, b), f, o) == NumberAt(b, f, NumberAt(a, f, o))
    {
      AccessorLayers(a, b, f, "", o, 0, false);
    }
    forall f, o: int
      ensures WholeAt(Layered(a, b), f, o) == WholeAt(b, f, WholeAt(a, f, o))
    {
      AccessorLayers(a, b, f, "", 0.0, o, false);
    }
    forall f, o: bool
      ensures FlagAt(Layered(a, b), f, o) == FlagAt(b, f, FlagAt(a, f, o))
    {
      AccessorLayers(a, b, f, "", 0.0, 0, o);
    }
    hide TextAt, NumberAt, WholeAt, FlagAt, Layered;
  }

  class HttpConfig {
    var values: Values

    constructor ()
      ensures values == BUILT_IN
    {
      values := BUILT_IN;
    }

    /** Lays an object over the configuration, one field after the other. */
    method MergeFrom(j: Object)
      modifies this
      ensures values == Merged(old(values), j)
    {
      hide Key, Truncate, Says, Or, TextAt, NumberAt, WholeAt, FlagAt;
      values := values.(rateLimitSpec := TextAt(j, RateLimit, values.rateLimitSpec));
      values := values.(burst := NumberAt(j, Burst, values.burst));
      values := values.(timeout := WholeAt(j, Timeout, values.timeout));
      values := values.(verifySsl := FlagAt(j, VerifySsl, values.verifySsl));
      values := values.(proxy := TextAt(j, Proxy, values.proxy));
      values := values.(caBundle := TextAt(j, CaBundle, values.caBundle));
      values := values.(clientCert := TextAt(j, ClientCert, values.clientCert));
      values := values.(clientKey := TextAt(j, ClientKey, values.clientKey));
      values := values.(authType := TextAt(j, AuthType, values.authType));
      values := values.(bearerToken := TextAt(j, BearerToken, values.bearerToken));
      values := values.(bearerTokenExpiresAt := WholeAt(j, BearerTokenExpiresAt, values.bearerTokenExpiresAt));
      values := values.(maxConcurrent := WholeAt(j, MaxConcurrent, values.maxConcurrent));
      values := values.(globalRateLimitSpec := TextAt(j, GlobalRateLimit, values.globalRateLimitSpec));
      values := values.(globalBurst := NumberAt(j, GlobalBurst, values.globalBurst));
      values := values.(vaultPath := TextAt(j, VaultPath, values.vaultPath));
      values := values.(vaultAddr := TextAt(j, VaultAddr, values.vaultAddr));
      values := values.(vaultToken := TextAt(j, VaultToken, values.vaultToken));
      values := values.(vaultField := TextAt(j, VaultField, values.vaultField));
      values := values.(vaultParamName := TextAt(j, VaultParamName, values.vaultParamName));
      values := values.(vaultKvVersion := WholeAt(j, VaultKvVersion, values.vaultKvVersion));
      values := values.(vaultAuthMethod := TextAt(j, VaultAuthMethod, values.vaultAuthMethod));
      values := values.(vaultJwtRole := TextAt(j, VaultJwtRole, values.vaultJwtRole));
      values := values.(oidcIssuer := TextAt(j, OidcIssuer, values.oidcIssuer));
      values := values.(oidcClientId := TextAt(j, OidcClientId, values.oidcClientId));
      values := values.(oidcClientSecret := TextAt(j, OidcClientSecret, values.oidcClientSecret));
    }
  }
}
