/**
 * Configuration loading reduced to its key rewriting and its layer order.
 * A layer is a flat map from dotted key to value; loading a layer overrides
 * the keys it has. The initial load reads defaults, the config file and
 * MEMORIA_ environment variables; a reload after a file change reads
 * defaults, the file, a .env file and the environment variables.
 */
module Config {
  import opened Wrappers

  const EnvPrefix: string := "MEMORIA_"

  predicate HasPrefix(s: string, prefix: string) {
    |prefix| <= |s| && s[..|prefix|] == prefix
  }

  /** strings.TrimPrefix: removes one leading copy of `prefix`, if there is one. */
  function TrimPrefix(s: string, prefix: string): (r: string)
    ensures HasPrefix(s, prefix) ==> r == s[|prefix|..]
    ensures !HasPrefix(s, prefix) ==> r == s
  {
    if HasPrefix(s, prefix) then s[|prefix|..] else s
  }

  /** strings.ToLower on one character, for ASCII letters. */
  function LowerChar(c: char): char {
    if 'A' <= c <= 'Z' then (c as int - 'A' as int + 'a' as int) as char else c
  }

  function ToLower(s: string): (r: string)
    ensures |r| == |s|
    ensures forall i :: 0 <= i < |s| ==> r[i] == LowerChar(s[i])
  {
    if s == [] then [] else [LowerChar(s[0])] + ToLower(s[1..])
  }

  /** strings.ReplaceAll(s, "_", ".") */
  function ReplaceUnderscores(s: string): (r: string)
    ensures |r| == |s|
    ensures forall i :: 0 <= i < |s| ==> r[i] == if s[i] == '_' then '.' else s[i]
  {
    if s == [] then []
    else [if s[0] == '_' then '.' else s[0]] + ReplaceUnderscores(s[1..])
  }

  /**
   * envKeyReplacer, and the identical closure the initial load passes to the
   * environment provider: drop one leading MEMORIA_, lower-case, and turn
   * every underscore into the key delimiter.
   */
  function EnvKeyReplacer(s: string): (r: string)
    ensures |r| == if HasPrefix(s, EnvPrefix) then |s| - |EnvPrefix| else |s|
    ensures forall i :: 0 <= i < |r| ==> r[i] != '_' && !('A' <= r[i] <= 'Z')
    ensures forall i :: 0 <= i < |r| ==>
              var c := TrimPrefix(s, EnvPrefix)[i];
              r[i] == if c == '_' then '.' else LowerChar(c)
  {
    ReplaceUnderscores(ToLower(TrimPrefix(s, EnvPrefix)))
  }

  /** Only one prefix goes: a doubled MEMORIA_MEMORIA_ leaves "memoria." at the front of the key. */
  lemma OnlyOnePrefixRemoved(s: string)
    requires HasPrefix(s, EnvPrefix + EnvPrefix)
    ensures HasPrefix(EnvKeyReplacer(s), "memoria.")
  {
    var r := EnvKeyReplacer(s);
    assert s[..16] == EnvPrefix + EnvPrefix;
    assert TrimPrefix(s, EnvPrefix) == s[8..];
    assert s[8..16] == EnvPrefix;
    forall i | 0 <= i < 8 ensures r[i] == "memoria."[i] {
      assert TrimPrefix(s, EnvPrefix)[i] == s[8 + i] == EnvPrefix[i];
    }
  }

  datatype Value = Str(s: string) | Int(i: int) | Bool(b: bool) | List(items: seq<string>)

  type Layer = map<string, Value>

  /** The built-in defaults, the lowest layer of every load. */
  const Defaults: Layer := map[
    "app.name" := Str("Memoria"),
    "app.environment" := Str("development"),
    "app.appURL" := Str("http://localhost:3000"),
    "app.apiBaseURL" := Str("http://localhost:8080"),
    "app.logLevel" := Str("info"),
    "app.maxPageSize" := Int(100),
    "db.host" := Str("localhost"),
    "db.port" := Str("5432"),
    "db.name" := Str("memoria"),
    "db.user" := Str("postgres_user"),
    "db.password" := Str("yourpassword"),
    "db.maxConns" := Int(20),
    "db.timeout" := Int(30),
    "http.port" := Str("8080"),
    "http.readTimeout" := Int(30),
    "http.writeTimeout" := Int(30),
    "http.idleTimeout" := Int(60),
    "http.enableSSL" := Bool(false),
    "http.rateLimitEnabled" := Bool(true),
    "http.requestsPerMin" := Int(100),
    "auth.enableLocal" := Bool(true),
    "auth.sessionTimeout" := Int(60),
    "auth.enable2FA" := Bool(false),
    "auth.tokenExpiration" := Int(24),
    "auth.allowedOrigins" := List(["http://localhost:3000"])
  ]

  /** Loading a layer: its keys override, all others stay. */
  function Merge(base: Layer, over: Layer): (r: Layer)
    ensures r.Keys == base.Keys + over.Keys
    ensures forall k :: k in over ==> r[k] == over[k]
    ensures forall k :: k in base && k !in over ==> r[k] == base[k]
  {
    base + over
  }

  /**
   * The key an environment variable is loaded under, or None when it is
   * skipped: it lacks the prefix, or the replacer blanks its name (a variable
   * named exactly MEMORIA_), which the environment provider drops.
   */
  function EnvKey(name: string): (key: Option<string>)
    ensures key.Some? <==> HasPrefix(name, EnvPrefix) && |name| > |EnvPrefix|
    ensures key.Some? ==> key.value == EnvKeyReplacer(name) && key.value != ""
  {
    if HasPrefix(name, EnvPrefix) && EnvKeyReplacer(name) != "" then Some(EnvKeyReplacer(name)) else None
  }

  /**
   * The environment layer: the variables with the prefix, in environment
   * order, under their rewritten keys; when two rewrite to the same key the
   * later one wins (EnvLayerKeys, EnvLayerLastWins).
   */
  function EnvLayer(environ: seq<(string, string)>): (r: Layer)
    ensures environ == [] ==> r == map[]
  {
    if environ == [] then map[]
    else
      var last := environ[|environ| - 1];
      var rest := EnvLayer(environ[..|environ| - 1]);
      match EnvKey(last.0)
      case None => rest
      case Some(key) => rest[key := Str(last.1)]
  }

  /**
   * A key is in the environment layer exactly when some prefixed variable
   * rewrites to it; the blank key never is.
   */
  lemma {:induction false} EnvLayerKeys(environ: seq<(string, string)>, key: string)
    ensures key in EnvLayer(environ) <==> exists i :: 0 <= i < |environ| && EnvKey(environ[i].0) == Some(key)
    ensures key in EnvLayer(environ) ==> key != ""
    decreases |environ|
  {
    if environ != [] {
      var init := environ[..|environ| - 1];
      EnvLayerKeys(init, key);
      if exists i :: 0 <= i < |init| && EnvKey(init[i].0) == Some(key) {
        var i :| 0 <= i < |init| && EnvKey(init[i].0) == Some(key);
        assert environ[i] == init[i];
      }
      if exists i :: 0 <= i < |environ| && EnvKey(environ[i].0) == Some(key) {
        var i :| 0 <= i < |environ| && EnvKey(environ[i].0) == Some(key);
        if i < |init| {
          assert environ[i] == init[i];
        }
      }
    }
  }

  /** The value under a key is that of the last variable rewriting to it. */
  lemma {:induction false} EnvLayerLastWins(environ: seq<(string, string)>, i: nat)
    requires i < |environ| && EnvKey(environ[i].0).Some?
    requires forall j :: i < j < |environ| ==> EnvKey(environ[j].0) != EnvKey(environ[i].0)
    ensures EnvKey(environ[i].0).value in EnvLayer(environ)
    ensures EnvLayer(environ)[EnvKey(environ[i].0).value] == Str(environ[i].1)
    decreases |environ|
  {
    if i < |environ| - 1 {
      var init := environ[..|environ| - 1];
      assert init[i] == environ[i];
      forall j | i < j < |init| ensures EnvKey(init[j].0) != EnvKey(init[i].0) {
        assert init[j] == environ[j];
      }
      EnvLayerLastWins(init, i);
    }
  }

  /** The outcome of reading config/app.config.json. */
  datatype FileRead = Loaded(layer: Layer) | NotExist | ReadFailed

  datatype InitError = FileLoadFailed | SaveDefaultFailed

  /**
   * What InitConfig ends with: defaults, then the file (a missing file is
   * first written out from the defaults; failing to write it is an error;
   * any other read error aborts), then the environment.
   */
  function InitialConfig(file: FileRead, saveSucceeds: bool, environ: seq<(string, string)>)
    : (r: Result<Layer, InitError>)
    ensures file.ReadFailed? ==> r == Err(FileLoadFailed)
    ensures file.NotExist? && !saveSucceeds ==> r == Err(SaveDefaultFailed)
    ensures r.Ok? <==> file.Loaded? || (file.NotExist? && saveSucceeds)
    ensures r.Ok? ==> forall k :: k in r.value <==>
              k in Defaults || (file.Loaded? && k in file.layer) || k in EnvLayer(environ)
    ensures r.Ok? ==> forall k :: k in EnvLayer(environ) ==> r.value[k] == EnvLayer(environ)[k]
    ensures r.Ok? && file.Loaded? ==> forall k :: k in file.layer && k !in EnvLayer(environ) ==>
              r.value[k] == file.layer[k]
    ensures r.Ok? ==> forall k :: (k in Defaults && k !in EnvLayer(environ)
                                   && !(file.Loaded? && k in file.layer)) ==> r.value[k] == Defaults[k]
  {
    match file
    case ReadFailed => Err(FileLoadFailed)
    case NotExist => if saveSucceeds then Ok(Merge(Defaults, EnvLayer(environ))) else Err(SaveDefaultFailed)
    case Loaded(layer) => Ok(Merge(Merge(Defaults, layer), EnvLayer(environ)))
  }

  /**
   * What the watch callback reloads: defaults, the file, .env, then the
   * environment; a layer that fails to load is skipped (None).
   */
  function ReloadedConfig(file: Option<Layer>, dotenv: Option<Layer>, environ: seq<(string, string)>)
    : (r: Layer)
    ensures forall k :: k in r <==> (k in Defaults || (file.Some? && k in file.value)
                                   || (dotenv.Some? && k in dotenv.value) || k in EnvLayer(environ))
    ensures forall k :: k in EnvLayer(environ) ==> r[k] == EnvLayer(environ)[k]
    ensures dotenv.Some? ==> forall k :: k in dotenv.value && k !in EnvLayer(environ) ==> r[k] == dotenv.value[k]
    ensures file.Some? ==> forall k :: (k in file.value && k !in EnvLayer(environ)
                                      && !(dotenv.Some? && k in dotenv.value)) ==> r[k] == file.value[k]
  {
    var withFile := if file.Some? then Merge(Defaults, file.value) else Defaults;
    var withDotenv := if dotenv.Some? then Merge(withFile, dotenv.value) else withFile;
    Merge(withDotenv, EnvLayer(environ))
  }

  /** With no .env layer, a reload ends where the initial load ended. */
  lemma ReloadWithoutDotenvMatchesInit(layer: Layer, environ: seq<(string, string)>)
    ensures ReloadedConfig(Some(layer), None, environ) == InitialConfig(Loaded(layer), true, environ).value
  {
  }

  /** The global state InitConfig and the watch callback update: the koanf instance `k` and the config. */
  class ConfigState {
    var k: Layer
    var config: Option<Layer>

    constructor ()
      ensures k == map[] && config == None
    {
      k := map[];
      config := None;
    }

    /** InitConfig, step by step; `written` is what saveDefaultConfig writes to the file, if it runs. */
    method InitConfig(file: FileRead, saveSucceeds: bool, environ: seq<(string, string)>)
      returns (err: Option<InitError>, written: Option<Layer>)
      modifies this
      ensures var r := InitialConfig(file, saveSucceeds, environ);
              && (r.Ok? ==> err == None && k == r.value && config == Some(r.value))
              && (r.Err? ==> err == Some(r.error) && config == old(config))
      ensures InitialConfig(file, saveSucceeds, environ).Err? ==> k == Defaults
      ensures written == if file.NotExist? then Some(Defaults) else None
    {
      k := Defaults;
      written := None;
      match file {
        case Loaded(layer) =>
          k := Merge(k, layer);
        case NotExist =>
          written := Some(k);
          if !saveSucceeds {
            return Some(SaveDefaultFailed), written;
          }
        case ReadFailed =>
          return Some(FileLoadFailed), written;
      }
      k := Merge(k, EnvLayer(environ));
      config := Some(k);
      err := None;
    }

    /** The watch callback: a watch error changes nothing; otherwise everything is reloaded in order. */
    method Reload(watchFailed: bool, file: Option<Layer>, dotenv: Option<Layer>, environ: seq<(string, string)>)
      modifies this
      ensures watchFailed ==> k == old(k) && config == old(config)
      ensures !watchFailed ==> k == ReloadedConfig(file, dotenv, environ) && config == Some(k)
    {
      if watchFailed {
        return;
      }
      k := Defaults;
      if file.Some? {
        k := Merge(k, file.value);
      }
      if dotenv.Some? {
        k := Merge(k, dotenv.value);
      }
      k := Merge(k, EnvLayer(environ));
      config := Some(k);
    }
  }
}
