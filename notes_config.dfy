/** Build-time configuration of the persistence adapter: feature flags and the
    backend base URL, read from the environment. */
module NotesConfig {
  import opened JsString
  import opened NoteData

  /** The three environment variables the adapter reads; `None` is undefined. */
  datatype Env = Env(featureFlags: Option<string>, apiBase: Option<string>, backendUrl: Option<string>)

  /** The comma-separated flag list, trimmed (`(flags || "").trim()`). */
  function RawFlags(env: Env): (raw: string)
    ensures IsTrimmed(raw)
    ensures env.featureFlags.None? ==> raw == []
  {
    TrimShape(OrEmpty(env.featureFlags));
    Trim(OrEmpty(env.featureFlags))
  }

  /** A flag as it enters the set: a trimmed non-empty token, upper-cased. */
  predicate IsFlag(f: string) {
    f != [] && IsTrimmed(f) && IsUpper(f)
  }

  /** `getFeatureFlags`: the upper-cased, trimmed, non-empty comma-separated tokens. */
  function FeatureFlags(env: Env): (flags: set<string>)
    ensures RawFlags(env) == [] ==> flags == {}
    ensures forall f :: f in flags ==> IsFlag(f)
  {
    var raw := RawFlags(env);
    if raw == [] then {}
    else
      FlagSet(Split(raw, ','))
  }

  /** `.map(s => s.trim()).filter(Boolean).map(s => s.toUpperCase())`, collected in a set. */
  function FlagSet(tokens: seq<string>): (flags: set<string>)
    ensures forall f :: f in flags ==> IsFlag(f)
  {
    var flags := set t | t in tokens && Trim(t) != [] :: ToUpper(Trim(t));
    assert forall f :: f in flags ==> IsFlag(f) by {
      forall t | t in tokens && Trim(t) != [] ensures IsFlag(ToUpper(Trim(t))) {
        TrimShape(t);
        UpperKeepsShape(Trim(t));
      }
    }
    flags
  }

  /** Every comma-separated token of the flag list turns into a flag unless it is blank. */
  lemma FlagOfToken(env: Env, t: string)
    requires t in Split(RawFlags(env), ',') && Trim(t) != []
    ensures ToUpper(Trim(t)) in FeatureFlags(env)
  {
    var raw := RawFlags(env);
    SplitEmpty(',');
    assert Trim([]) == [];
    assert raw != [];
    assert FeatureFlags(env) == FlagSet(Split(raw, ','));
    TokenInFlagSet(Split(raw, ','), t);
  }

  lemma TokenInFlagSet(tokens: seq<string>, t: string)
    requires t in tokens && Trim(t) != []
    ensures ToUpper(Trim(t)) in FlagSet(tokens)
  {
  }

  /** `isMockForced`. */
  predicate IsMockForced(env: Env): (forced: bool)
    ensures forced ==> env.featureFlags.Some? && RawFlags(env) != []
  {
    "MOCK_API" in FeatureFlags(env)
  }

  /** Mock is forced exactly when some comma-separated token, trimmed and
      upper-cased, reads MOCK_API. */
  lemma MockForcedIff(env: Env)
    ensures IsMockForced(env) <==>
      exists t :: t in Split(RawFlags(env), ',') && ToUpper(Trim(t)) == "MOCK_API"
  {
    var raw := RawFlags(env);
    if raw == [] {
      assert Split(raw, ',') == [[]];
      forall t | t in Split(raw, ',') ensures ToUpper(Trim(t)) != "MOCK_API" {
        assert t == [];
      }
    } else if exists t :: t in Split(raw, ',') && ToUpper(Trim(t)) == "MOCK_API" {
      var t :| t in Split(raw, ',') && ToUpper(Trim(t)) == "MOCK_API";
      UpperKeepsShape(Trim(t));
      FlagOfToken(env, t);
    }
  }

  /** A list naming MOCK_API in mixed case and with padding forces mock. */
  lemma MixedCaseTokenForcesMock()
    ensures IsMockForced(Env(Some("beta, Mock_Api"), None, None))
  {
    var env := Env(Some("beta, Mock_Api"), None, None);
    ExampleTokens();
    ExampleToken();
    FlagOfToken(env, " Mock_Api");
  }

  lemma ExampleTokens()
    ensures Split(RawFlags(Env(Some("beta, Mock_Api"), None, None)), ',') == ["beta", " Mock_Api"]
  {
    ExampleRaw();
    var pieces := ["beta", " Mock_Api"];
    assert Join(pieces, ',') == "beta, Mock_Api";
    SplitJoin(pieces, ',');
  }

  lemma ExampleRaw()
    ensures RawFlags(Env(Some("beta, Mock_Api"), None, None)) == "beta, Mock_Api"
  {
    var raw := "beta, Mock_Api";
    assert IsTrimmed(raw);
    TrimUnique([], raw, []);
    assert [] + raw + [] == raw;
  }

  lemma ExampleToken()
    ensures ToUpper(Trim(" Mock_Api")) == "MOCK_API"
  {
    TrimUnique([' '], "Mock_Api", []);
    assert [' '] + "Mock_Api" + [] == " Mock_Api";
    assert ToUpper("Mock_Api") == "MOCK_API";
  }

  /** `getNotesApiMode`. */
  function ApiMode(env: Env): (mode: string)
    ensures mode == "mock" <==> IsMockForced(env)
    ensures mode == "mock" || mode == "auto"
  {
    if IsMockForced(env) then "mock" else "auto"
  }

  /** `s.replace(/\/+$/, "")`: drop every trailing slash. */
  function StripTrailingSlashes(s: string): (r: string)
    ensures |r| <= |s| && r == s[..|r|]
    ensures forall k :: |r| <= k < |s| ==> s[k] == '/'
    ensures r == [] || r[|r| - 1] != '/'
  {
    if s != [] && s[|s| - 1] == '/' then StripTrailingSlashes(s[..|s| - 1]) else s
  }

  /** `a || b || ""` over two optional strings. */
  function FirstTruthy(a: Option<string>, b: Option<string>): (r: string)
    ensures r == [] <==> !Truthy(a) && !Truthy(b)
    ensures Truthy(a) ==> r == a.value
    ensures !Truthy(a) && Truthy(b) ==> r == b.value
  {
    if Truthy(a) then a.value else if Truthy(b) then b.value else ""
  }

  /** `getBaseUrl`: the configured base, trimmed, without trailing slashes. */
  function BaseUrl(env: Env): (base: string)
    ensures base == [] || base[|base| - 1] != '/'
  {
    StripTrailingSlashes(Trim(FirstTruthy(env.apiBase, env.backendUrl)))
  }

  /** A set but blank API base still wins over the backend URL, and yields a relative base. */
  lemma BlankApiBaseWins(u: string)
    ensures BaseUrl(Env(None, Some(" "), Some(u))) == []
  {
    assert Trim(" ") == [];
  }

  /** `buildUrl`: without a base the path stays relative; with one, the
      base is followed by exactly one slash (the path's own leading slash
      when it has one) and then the rest of the path. */
  function BuildUrl(env: Env, pathname: string): (url: string)
    ensures BaseUrl(env) == [] ==> url == pathname
    ensures BaseUrl(env) != [] ==>
      var b := |BaseUrl(env)|;
      && |url| > b && url[..b] == BaseUrl(env)
      && url[b - 1] != '/' && url[b] == '/'
      && url[b + 1..] == (if pathname != [] && pathname[0] == '/' then pathname[1..] else pathname)
  {
    var base := BaseUrl(env);
    if base == [] then pathname
    else
      var url := base + (if pathname != [] && pathname[0] == '/' then "" else "/") + pathname;
      assert pathname != [] && pathname[0] == '/' ==> pathname == "/" + pathname[1..];
      url
  }
}
