/** Configuration resolution (src/config.rs): locating the configuration file and
    turning the parsed YAML document into a map from virtual host name to its
    forwarding profile, with host -> `default` -> built-in fallback per field. */
module Config {
  import opened Wrappers
  import opened YamlTree

  newtype U32 = x: int | 0 <= x < 0x1_0000_0000
  newtype U16 = x: int | 0 <= x < 0x1_0000

  /** `u32::max_value()` */
  const U32_MAX: int := 0xFFFF_FFFF

  /** Built-in fallbacks used when neither the host nor `default` gives a usable value. */
  const FALLBACK_EXPIRE: U32 := 86400
  const FALLBACK_ERR_EXPIRE: U32 := 300
  const FALLBACK_KEEP: bool := false

  /** Listener settings; the resolver never reads them from the document. */
  datatype ServerConfig = ServerConfig(port: U16, useUnixDomainSocket: bool, useSsl: bool)

  /** The forwarding profile of one virtual host. */
  datatype CacheConfig = CacheConfig(
    host: string,
    origin: string,
    expire: U32,
    errExpire: U32,
    keepCacheAfterShutdown: bool)

  datatype Config = Config(server: ServerConfig, cache: map<string, CacheConfig>)

  /** The field whose resolution failed. */
  datatype Step = Origin | Expire | ErrExpire

  datatype ConfigError =
    | NoConfigFound(probed: seq<string>)
    | ParseError(host: string, step: Step)

  /* ---------------------------------------------------------------- i64 -> u32 */

  predicate InU32Range(i: Int64) {
    0 <= i as int <= U32_MAX
  }

  /** `i64tou32`: the bounds-checked narrowing conversion. */
  function I64ToU32(i: Int64): (r: Result<U32, string>)
    ensures r.Success? <==> InU32Range(i)
    ensures r.Success? ==> r.value as int == i as int
    ensures r.Failure? ==> r.error == "error!"
  {
    if i as int <= U32_MAX && i >= 0 then Success(i as int as U32) else Failure("error!")
  }

  /** Widening a `u32` to `i64` and narrowing it back gives the same value. */
  lemma I64ToU32RoundTrip(u: U32)
    ensures I64ToU32(u as int as Int64) == Success(u)
  {
  }

  /* ------------------------------------------------------- configuration path */

  /** `PathBuf::join` on Unix paths: an absolute right-hand side replaces the base,
      otherwise a separator is added unless the base is empty or already ends in one. */
  function Join(base: string, rel: string): (p: string)
    ensures |rel| > 0 && rel[0] == '/' ==> p == rel
    ensures !(|rel| > 0 && rel[0] == '/') ==>
              && |base| + |rel| <= |p| <= |base| + |rel| + 1
              && p[..|base|] == base
              && p[|p| - |rel|..] == rel
    ensures !(|rel| > 0 && rel[0] == '/') ==>
              (|p| == |base| + |rel| + 1 <==> |base| > 0 && base[|base| - 1] != '/')
    ensures |p| == |base| + |rel| + 1 ==> p[|base|] == '/'
  {
    if |rel| > 0 && rel[0] == '/' then rel
    else if |base| == 0 || base[|base| - 1] == '/' then base + rel
    else base + "/" + rel
  }

  /** The four candidate file names, in probing order. */
  function Candidates(app: string, dir: string): (c: seq<string>)
    ensures |c| == 4
    ensures forall i, j | 0 <= i < j < 4 :: c[i] != c[j]
  {
    var c := ["." + app + ".yml", "." + app + ".yaml", dir + "/" + app + ".yml", dir + "/" + app + ".yaml"];
    assert |c[0]| == |app| + 5 && |c[1]| == |app| + 6;
    assert |c[2]| == |dir| + |app| + 5 && |c[3]| == |dir| + |app| + 6;
    assert c[0][0] == '.' && c[1][0] == '.';
    assert |dir| == 0 ==> c[2][0] == '/' && c[3][0] == '/';
    // the `.yml` names have '.' four characters from the end, the `.yaml` names 'y'
    assert c[0][|c[0]| - 4] == '.' && c[2][|c[2]| - 4] == '.';
    assert c[1][|c[1]| - 4] == 'y' && c[3][|c[3]| - 4] == 'y';
    c
  }


  /** Index of the first candidate that exists under `home`. */
  function FirstPresent(home: string, names: seq<string>, present: string -> bool): (r: Option<nat>)
    ensures r.Some? ==> r.value < |names| && present(Join(home, names[r.value]))
    ensures r.Some? ==> forall j | 0 <= j < r.value :: !present(Join(home, names[j]))
    ensures r.None? ==> forall j | 0 <= j < |names| :: !present(Join(home, names[j]))
  {
    if |names| == 0 then None
    else if present(Join(home, names[0])) then Some(0)
    else
      match FirstPresent(home, names[1..], present)
      case None => None
      case Some(k) => Some(k + 1)
  }

  /** `collect_config_path`: the first candidate that exists, or an error listing all of them.
      `present` stands for `Path::exists`. */
  function CollectConfigPath(app: string, dir: string, home: string, present: string -> bool)
    : (r: Result<string, ConfigError>)
    ensures r.Success? <==> exists i | 0 <= i < 4 :: present(Join(home, Candidates(app, dir)[i]))
    ensures r.Success? ==>
              exists i | 0 <= i < 4 ::
                && r.value == Join(home, Candidates(app, dir)[i])
                && present(r.value)
                && forall j | 0 <= j < i :: !present(Join(home, Candidates(app, dir)[j]))
    ensures r.Failure? ==> r.error == NoConfigFound(Candidates(app, dir))
  {
    var names := Candidates(app, dir);
    match FirstPresent(home, names, present)
    case Some(i) => Success(Join(home, names[i]))
    case None => Failure(NoConfigFound(names))
  }

  /** The dot-file with the `.yml` extension wins over every other candidate. */
  lemma DotYmlWins(app: string, dir: string, home: string, present: string -> bool)
    requires present(Join(home, "." + app + ".yml"))
    ensures CollectConfigPath(app, dir, home, present) == Success(Join(home, "." + app + ".yml"))
  {
  }

  /* ------------------------------------------------------------ field resolution */

  /** An integer that must fit in `u32`; a failure names the host and the field. */
  function Narrow(n: Int64, host: string, step: Step): Result<U32, ConfigError> {
    match I64ToU32(n)
    case Success(v) => Success(v)
    case Failure(_) => Failure(ParseError(host, step))
  }

  /** Resolution of `expire` / `err_expire`: the host's own integer if it has one
      (anything else counts as absent), else `default`'s integer, else the built-in
      value. An out-of-range integer at either tier fails naming the host. */
  function ResolveU32(own: Yaml, dflt: Yaml, fallback: U32, host: string, step: Step)
    : (r: Result<U32, ConfigError>)
    ensures own.Integer? && InU32Range(own.n) ==> r == Success(own.n as int as U32)
    ensures own.Integer? && !InU32Range(own.n) ==> r == Failure(ParseError(host, step))
    ensures !own.Integer? && dflt.Integer? && InU32Range(dflt.n) ==> r == Success(dflt.n as int as U32)
    ensures !own.Integer? && dflt.Integer? && !InU32Range(dflt.n) ==> r == Failure(ParseError(host, step))
    ensures !own.Integer? && !dflt.Integer? ==> r == Success(fallback)
  {
    match own
    case Integer(n) => Narrow(n, host, step)
    case _ =>
      match dflt
      case Integer(n) => Narrow(n, host, step)
      case _ => Success(fallback)
  }

  /** Resolution of `keep_cache_after_shutdown`: a mistyped value at either tier is
      treated as absent, never as an error. */
  function ResolveBool(own: Yaml, dflt: Yaml, fallback: bool): (r: bool)
    ensures own.Boolean? ==> r == own.flag
    ensures !own.Boolean? && dflt.Boolean? ==> r == dflt.flag
    ensures !own.Boolean? && !dflt.Boolean? ==> r == fallback
  {
    match own
    case Boolean(b) => b
    case _ =>
      match dflt
      case Boolean(b) => b
      case _ => fallback
  }

  function ExpireOf(host: string, entry: Yaml, dflt: Yaml): Result<U32, ConfigError> {
    ResolveU32(Get(entry, "expire"), Get(dflt, "expire"), FALLBACK_EXPIRE, host, Expire)
  }

  function ErrExpireOf(host: string, entry: Yaml, dflt: Yaml): Result<U32, ConfigError> {
    ResolveU32(Get(entry, "err_expire"), Get(dflt, "err_expire"), FALLBACK_ERR_EXPIRE, host, ErrExpire)
  }

  function KeepOf(entry: Yaml, dflt: Yaml): bool {
    ResolveBool(Get(entry, "keep_cache_after_shutdown"), Get(dflt, "keep_cache_after_shutdown"), FALLBACK_KEEP)
  }

  /** The profile of one non-default host. `origin` has no fallback; the fields are
      checked in the order origin, expire, err_expire and the first failure wins. */
  function ResolveHost(host: string, entry: Yaml, dflt: Yaml): (r: Result<CacheConfig, ConfigError>)
    ensures r.Success? <==>
              Get(entry, "origin").String? && ExpireOf(host, entry, dflt).Success?
              && ErrExpireOf(host, entry, dflt).Success?
    ensures !Get(entry, "origin").String? ==> r == Failure(ParseError(host, Origin))
    ensures Get(entry, "origin").String? && ExpireOf(host, entry, dflt).Failure? ==>
              r == Failure(ParseError(host, Expire))
    ensures Get(entry, "origin").String? && ExpireOf(host, entry, dflt).Success?
            && ErrExpireOf(host, entry, dflt).Failure? ==>
              r == Failure(ParseError(host, ErrExpire))
    ensures r.Failure? ==> r.error.ParseError? && r.error.host == host
    ensures r.Success? ==>
              && r.value.host == host
              && r.value.origin == Get(entry, "origin").str
              && r.value.expire == ExpireOf(host, entry, dflt).value
              && r.value.errExpire == ErrExpireOf(host, entry, dflt).value
              && r.value.keepCacheAfterShutdown == KeepOf(entry, dflt)
  {
    match Get(entry, "origin")
    case String(origin) =>
      var expire :- ExpireOf(host, entry, dflt);
      var errExpire :- ErrExpireOf(host, entry, dflt);
      Success(CacheConfig(host, origin, expire, errExpire, KeepOf(entry, dflt)))
    case _ => Failure(ParseError(host, Origin))
  }

  /** The `default` entry cannot supply `origin`: whatever it holds, a host without
      its own string `origin` fails, and a host with one keeps it. */
  lemma OriginNeverFromDefault(host: string, entry: Yaml, dflt1: Yaml, dflt2: Yaml)
    ensures ResolveHost(host, entry, dflt1).Success? && ResolveHost(host, entry, dflt2).Success? ==>
              ResolveHost(host, entry, dflt1).value.origin == ResolveHost(host, entry, dflt2).value.origin
    ensures ResolveHost(host, entry, dflt1).Failure? && ResolveHost(host, entry, dflt1).error.step == Origin ==>
              ResolveHost(host, entry, dflt2) == ResolveHost(host, entry, dflt1)
  {
  }

  /* -------------------------------------------------------------- the host loop */

  predicate StringKeys(entries: seq<(Yaml, Yaml)>) {
    forall i | 0 <= i < |entries| :: entries[i].0.String?
  }

  /** A host entry proper, i.e. not the reserved `default`. */
  predicate IsHost(e: (Yaml, Yaml))
    requires e.0.String?
  {
    e.0.str != "default"
  }

  /** An entry the loop gets past without failing. */
  predicate Accepts(e: (Yaml, Yaml), dflt: Yaml)
    requires e.0.String?
  {
    !IsHost(e) || ResolveHost(e.0.str, e.1, dflt).Success?
  }

  /** Names of all non-default entries. */
  function HostNames(entries: seq<(Yaml, Yaml)>): set<string>
    requires StringKeys(entries)
  {
    set i | 0 <= i < |entries| && IsHost(entries[i]) :: entries[i].0.str
  }

  /** No later entry has the same key as entry `i`. */
  predicate LastWithKey(entries: seq<(Yaml, Yaml)>, i: int)
    requires 0 <= i < |entries| && entries[i].0.String?
  {
    forall j | i < j < |entries| :: !HasKey(entries[j], entries[i].0.str)
  }

  /** The loop over the `hosts` mapping, in document order: `default` is skipped,
      every other host is resolved and inserted under its own name (a later entry
      with the same name overwrites), and the first failing host aborts the loop. */
  function ResolveHosts(entries: seq<(Yaml, Yaml)>, dflt: Yaml): (r: Result<map<string, CacheConfig>, ConfigError>)
    requires StringKeys(entries)
    ensures r.Success? ==> "default" !in r.value
    ensures r.Success? ==> forall k | k in r.value :: r.value[k].host == k
  {
    if |entries| == 0 then Success(map[])
    else
      var last := entries[|entries| - 1];
      var acc :- ResolveHosts(entries[..|entries| - 1], dflt);
      if !IsHost(last) then Success(acc)
      else
        var c :- ResolveHost(last.0.str, last.1, dflt);
        Success(acc[last.0.str := c])
  }

  /** One step of the loop: it gets past the last entry iff it got past the others
      and the last entry is accepted. */
  lemma ResolveHostsStep(entries: seq<(Yaml, Yaml)>, dflt: Yaml)
    requires |entries| > 0 && StringKeys(entries)
    ensures StringKeys(entries[..|entries| - 1])
    ensures ResolveHosts(entries, dflt).Success? <==>
              ResolveHosts(entries[..|entries| - 1], dflt).Success? && Accepts(entries[|entries| - 1], dflt)
  {
    var init := entries[..|entries| - 1];
    assert forall i | 0 <= i < |init| :: init[i] == entries[i];
  }

  /** The loop succeeds exactly when every host entry resolves. */
  lemma {:induction false} ResolveHostsSucceedsIff(entries: seq<(Yaml, Yaml)>, dflt: Yaml)
    requires StringKeys(entries)
    ensures ResolveHosts(entries, dflt).Success? <==>
              forall i | 0 <= i < |entries| :: Accepts(entries[i], dflt)
  {
    if |entries| > 0 {
      var n := |entries| - 1;
      var init := entries[..n];
      ResolveHostsStep(entries, dflt);
      ResolveHostsSucceedsIff(init, dflt);
      assert forall i | 0 <= i < |init| :: init[i] == entries[i];
    }
  }

  /** A failing loop reports the error of the first host entry that does not resolve. */
  lemma {:induction false} ResolveHostsFirstError(entries: seq<(Yaml, Yaml)>, dflt: Yaml)
    requires StringKeys(entries)
    requires ResolveHosts(entries, dflt).Failure?
    ensures exists i | 0 <= i < |entries| ::
              && !Accepts(entries[i], dflt)
              && ResolveHost(entries[i].0.str, entries[i].1, dflt).error == ResolveHosts(entries, dflt).error
              && forall j | 0 <= j < i :: Accepts(entries[j], dflt)
  {
    var init := entries[..|entries| - 1];
    assert forall i | 0 <= i < |init| :: init[i] == entries[i];
    if ResolveHosts(init, dflt).Failure? {
      ResolveHostsFirstError(init, dflt);
      var i :| 0 <= i < |init| && !Accepts(init[i], dflt)
               && ResolveHost(init[i].0.str, init[i].1, dflt).error == ResolveHosts(init, dflt).error
               && forall j | 0 <= j < i :: Accepts(init[j], dflt);
      assert entries[i] == init[i];
    } else {
      ResolveHostsSucceedsIff(init, dflt);
      var i := |entries| - 1;
      assert !Accepts(entries[i], dflt);
    }
  }

  /** Host names of a sequence extended by one entry. */
  lemma HostNamesSnoc(entries: seq<(Yaml, Yaml)>)
    requires |entries| > 0 && StringKeys(entries)
    ensures StringKeys(entries[..|entries| - 1])
    ensures var last := entries[|entries| - 1];
            HostNames(entries)
            == HostNames(entries[..|entries| - 1]) + (if IsHost(last) then {last.0.str} else {})
  {
    var n := |entries| - 1;
    var init := entries[..n];
    assert forall i | 0 <= i < |init| :: init[i] == entries[i];
    var last := entries[n];
    forall k | k in HostNames(entries)
      ensures k in HostNames(init) + (if IsHost(last) then {last.0.str} else {})
    {
      var i :| 0 <= i < |entries| && IsHost(entries[i]) && entries[i].0.str == k;
      if i < n { assert init[i] == entries[i]; }
    }
    forall k | k in HostNames(init) ensures k in HostNames(entries) {
      var i :| 0 <= i < |init| && IsHost(init[i]) && init[i].0.str == k;
      assert entries[i] == init[i];
    }
  }

  /** A successful loop maps exactly the non-default names. */
  lemma {:induction false} ResolveHostsKeys(entries: seq<(Yaml, Yaml)>, dflt: Yaml)
    requires StringKeys(entries)
    requires ResolveHosts(entries, dflt).Success?
    ensures ResolveHosts(entries, dflt).value.Keys == HostNames(entries)
  {
    if |entries| > 0 {
      HostNamesSnoc(entries);
      ResolveHostsKeys(entries[..|entries| - 1], dflt);
    }
  }

  /** The profile of host entry `i`, when no later entry carries its name, is the one
      the loop stores under that name. */
  lemma {:induction false} ResolveHostsLastWinsAt(entries: seq<(Yaml, Yaml)>, dflt: Yaml, i: int)
    requires StringKeys(entries)
    requires ResolveHosts(entries, dflt).Success?
    requires 0 <= i < |entries| && IsHost(entries[i]) && LastWithKey(entries, i)
    ensures entries[i].0.str in ResolveHosts(entries, dflt).value
    ensures ResolveHost(entries[i].0.str, entries[i].1, dflt) == Success(ResolveHosts(entries, dflt).value[entries[i].0.str])
  {
    var n := |entries| - 1;
    if i < n {
      var init := entries[..n];
      assert forall j | 0 <= j < |init| :: init[j] == entries[j];
      assert !HasKey(entries[n], entries[i].0.str);
      assert LastWithKey(init, i);
      ResolveHostsLastWinsAt(init, dflt, i);
    }
  }

  /** A successful loop maps each host name to the profile resolved from the last
      entry carrying that name. */
  lemma ResolveHostsLastWins(entries: seq<(Yaml, Yaml)>, dflt: Yaml)
    requires StringKeys(entries)
    requires ResolveHosts(entries, dflt).Success?
    ensures forall i | 0 <= i < |entries| && IsHost(entries[i]) && LastWithKey(entries, i) ::
              && entries[i].0.str in ResolveHosts(entries, dflt).value
              && ResolveHost(entries[i].0.str, entries[i].1, dflt)
                 == Success(ResolveHosts(entries, dflt).value[entries[i].0.str])
  {
    forall i | 0 <= i < |entries| && IsHost(entries[i]) && LastWithKey(entries, i)
      ensures entries[i].0.str in ResolveHosts(entries, dflt).value
      ensures ResolveHost(entries[i].0.str, entries[i].1, dflt) == Success(ResolveHosts(entries, dflt).value[entries[i].0.str])
    {
      ResolveHostsLastWinsAt(entries, dflt, i);
    }
  }

  /** `default` is only read through the hosts that fall back on it: a mapping with no
      other entry yields an empty host map, however malformed `default` is. */
  lemma {:induction false} DefaultAloneNeverFails(entries: seq<(Yaml, Yaml)>, dflt: Yaml)
    requires StringKeys(entries)
    requires forall i | 0 <= i < |entries| :: !IsHost(entries[i])
    ensures ResolveHosts(entries, dflt) == Success(map[])
  {
    if |entries| > 0 {
      var init := entries[..|entries| - 1];
      assert forall i | 0 <= i < |init| :: init[i] == entries[i];
      DefaultAloneNeverFails(init, dflt);
    }
  }

  /* --------------------------------------------------------------- the document */

  /** The `hosts` value of the document must be keyed by strings (the code unwraps `as_str`). */
  predicate HostKeysAreStrings(root: Yaml) {
    var hosts := Get(root, "hosts");
    hosts.Hash? ==> StringKeys(hosts.entries)
  }

  /** The listener settings are never read from the document. */
  const FIXED_SERVER: ServerConfig := ServerConfig(0, false, false)

  /** The body of `load_config_file` after parsing: `hosts` and its `default` entry are
      looked up, and a `hosts` value that is not a mapping yields an empty host map. */
  function ResolveDocument(root: Yaml): (r: Result<Config, ConfigError>)
    requires HostKeysAreStrings(root)
    ensures r.Success? ==> r.value.server == FIXED_SERVER
    ensures !Get(root, "hosts").Hash? ==> r == Success(Config(FIXED_SERVER, map[]))
    ensures Get(root, "hosts").Hash? ==>
              var loop := ResolveHosts(Get(root, "hosts").entries, Get(Get(root, "hosts"), "default"));
              && (r.Success? <==> loop.Success?)
              && (r.Success? ==> r.value.cache == loop.value)
              && (r.Failure? ==> r.error == loop.error)
  {
    var hosts := Get(root, "hosts");
    var dflt := Get(hosts, "default");
    match hosts
    case Hash(entries) =>
      var cache :- ResolveHosts(entries, dflt);
      Success(Config(FIXED_SERVER, cache))
    case _ => Success(Config(FIXED_SERVER, map[]))
  }

  /** `load_config_file`: locate the file, then resolve the document it holds.
      `document` stands for reading the file and parsing it as YAML. */
  function LoadConfigFile(app: string, dir: string, home: string, present: string -> bool, document: string -> Yaml)
    : (r: Result<Config, ConfigError>)
    requires CollectConfigPath(app, dir, home, present).Success? ==>
               HostKeysAreStrings(document(CollectConfigPath(app, dir, home, present).value))
    ensures CollectConfigPath(app, dir, home, present).Failure? ==>
              r == Failure(NoConfigFound(Candidates(app, dir)))
    ensures CollectConfigPath(app, dir, home, present).Success? ==>
              r == ResolveDocument(document(CollectConfigPath(app, dir, home, present).value))
  {
    var path :- CollectConfigPath(app, dir, home, present);
    ResolveDocument(document(path))
  }

  /** Every loaded host map leaves out `default`, stores each profile under its own
      host name, and comes with the fixed listener settings. */
  lemma LoadedConfigWellFormed(app: string, dir: string, home: string, present: string -> bool, document: string -> Yaml)
    requires CollectConfigPath(app, dir, home, present).Success? ==>
               HostKeysAreStrings(document(CollectConfigPath(app, dir, home, present).value))
    requires LoadConfigFile(app, dir, home, present, document).Success?
    ensures "default" !in LoadConfigFile(app, dir, home, present, document).value.cache
    ensures forall k | k in LoadConfigFile(app, dir, home, present, document).value.cache ::
              LoadConfigFile(app, dir, home, present, document).value.cache[k].host == k
    ensures LoadConfigFile(app, dir, home, present, document).value.server == ServerConfig(0, false, false)
  {
    var root := document(CollectConfigPath(app, dir, home, present).value);
    var hosts := Get(root, "hosts");
    if hosts.Hash? {
      ResolveHostsKeys(hosts.entries, Get(hosts, "default"));
    }
  }

  /* --------------------------------------------------------------- error texts */

  function StepName(s: Step): string {
    match s
    case Origin => "origin"
    case Expire => "expire"
    case ErrExpire => "err_expire"
  }

  const PARSE_ERROR_PREFIX: string := "parse error:\n\thost:"
  const STEP_SEPARATOR: string := "\n\tstep:"

  function QuotedList(xs: seq<string>): string {
    if |xs| == 0 then ""
    else if |xs| == 1 then "\"" + xs[0] + "\""
    else "\"" + xs[0] + "\"" + ", " + QuotedList(xs[1..])
  }

  /** `x` appears in `s` at position `k`, surrounded by double quotes. */
  predicate QuotedAt(s: string, x: string, k: int) {
    0 <= k && k + |x| + 2 <= |s| && s[k..k + |x| + 2] == "\"" + x + "\""
  }

  /** A quoted occurrence in `b` is one in `a + b`, shifted by `|a|`. */
  lemma QuotedAtShift(a: string, b: string, x: string, k: int)
    requires QuotedAt(b, x, k)
    ensures QuotedAt(a + b, x, |a| + k)
  {
    assert (a + b)[|a| + k..|a| + k + |x| + 2] == b[k..k + |x| + 2];
  }

  /** A quoted occurrence in `a` is one in `a + b`. */
  lemma QuotedAtPrefix(a: string, b: string, x: string, k: int)
    requires QuotedAt(a, x, k)
    ensures QuotedAt(a + b, x, k)
  {
    assert (a + b)[k..k + |x| + 2] == a[k..k + |x| + 2];
  }

  /** A quoted name is found at the start of its own quotation. */
  lemma QuotedItem(x: string)
    ensures QuotedAt("\"" + x + "\"", x, 0)
  {
    var item := "\"" + x + "\"";
    assert item[0..|x| + 2] == item;
  }

  /** The first name opens the list text, quoted. */
  lemma QuotedListHead(xs: seq<string>)
    requires |xs| > 0
    ensures QuotedAt(QuotedList(xs), xs[0], 0)
  {
    var item := "\"" + xs[0] + "\"";
    QuotedItem(xs[0]);
    if |xs| > 1 {
      var rest := ", " + QuotedList(xs[1..]);
      assert QuotedList(xs) == item + rest;
      QuotedAtPrefix(item, rest, xs[0], 0);
    }
  }

  /** Past the first quoted name and its separator comes the text of the remaining names. */
  lemma QuotedListSplit(xs: seq<string>) returns (head: string)
    requires |xs| > 1
    ensures QuotedList(xs) == head + QuotedList(xs[1..])
  {
    head := "\"" + xs[0] + "\"" + ", ";
  }

  /** Every listed name appears quoted in the list text. */
  lemma {:induction false} QuotedListHas(xs: seq<string>, i: nat) returns (k: int)
    requires i < |xs|
    ensures QuotedAt(QuotedList(xs), xs[i], k)
  {
    if i == 0 {
      QuotedListHead(xs);
      k := 0;
    } else {
      var k' := QuotedListHas(xs[1..], i - 1);
      assert xs[1..][i - 1] == xs[i];
      var head := QuotedListSplit(xs);
      QuotedAtShift(head, QuotedList(xs[1..]), xs[i], k');
      k := |head| + k';
    }
  }

  /** The missing-file text names every probed path, each in double quotes. */
  lemma MissingMessageListsAll(probed: seq<string>, i: nat) returns (k: int)
    requires i < |probed|
    ensures QuotedAt(Message(NoConfigFound(probed)), probed[i], k)
  {
    var k' := QuotedListHas(probed, i);
    QuotedAtPrefix(QuotedList(probed), "]", probed[i], k');
    QuotedAtShift("missing [", QuotedList(probed) + "]", probed[i], k');
    assert Message(NoConfigFound(probed)) == "missing [" + (QuotedList(probed) + "]");
    k := 9 + k';
  }

  /** The error text `load_config_file` returns. */
  function Message(e: ConfigError): (r: string)
    ensures e.NoConfigFound? ==> |r| >= 9 && r[..9] == "missing ["
    ensures e.ParseError? ==>
              |r| >= |PARSE_ERROR_PREFIX| + |e.host|
              && r[..|PARSE_ERROR_PREFIX| + |e.host|] == PARSE_ERROR_PREFIX + e.host
  {
    match e
    case NoConfigFound(probed) => "missing [" + QuotedList(probed) + "]"
    case ParseError(host, step) => PARSE_ERROR_PREFIX + host + STEP_SEPARATOR + StepName(step)
  }

  /** The last seven characters of a parse error text tell the steps apart. */
  function Tail7(s: Step): string {
    match s
    case Origin => ":origin"
    case Expire => ":expire"
    case ErrExpire => "_expire"
  }

  /** The last `k` characters of `a + b` are those of `b`. */
  lemma SuffixOfConcat(a: string, b: string, k: nat)
    requires k <= |b|
    ensures (a + b)[|a + b| - k..] == b[|b| - k..]
  {
  }

  /** The last seven characters of a parse error text depend only on the step. */
  lemma MessageTail(h: string, s: Step)
    ensures |Message(ParseError(h, s))| >= 7
    ensures Message(ParseError(h, s))[|Message(ParseError(h, s))| - 7..] == Tail7(s)
  {
    var t := STEP_SEPARATOR + StepName(s);
    StepTail(s);
    assert Message(ParseError(h, s)) == (PARSE_ERROR_PREFIX + h) + t;
    SuffixOfConcat(PARSE_ERROR_PREFIX + h, t, 7);
  }

  /** The step part of a parse error text ends in the step's seven-character tail. */
  lemma StepTail(s: Step)
    ensures |STEP_SEPARATOR + StepName(s)| >= 7
    ensures (STEP_SEPARATOR + StepName(s))[|STEP_SEPARATOR + StepName(s)| - 7..] == Tail7(s)
  {
    match s
    case Origin => assert STEP_SEPARATOR + StepName(s) == "\n\tstep:origin";
    case Expire => assert STEP_SEPARATOR + StepName(s) == "\n\tstep:expire";
    case ErrExpire => assert STEP_SEPARATOR + StepName(s) == "\n\tstep:err_expire";
  }

  /** A parse error text identifies both the host and the failing field. */
  lemma ParseErrorMessageInjective(h1: string, s1: Step, h2: string, s2: Step)
    requires Message(ParseError(h1, s1)) == Message(ParseError(h2, s2))
    ensures h1 == h2 && s1 == s2
  {
    MessageTail(h1, s1);
    MessageTail(h2, s2);
    assert s1 == s2;
    var m := Message(ParseError(h1, s1));
    var p := |PARSE_ERROR_PREFIX|;
    assert m == PARSE_ERROR_PREFIX + h1 + (STEP_SEPARATOR + StepName(s1));
    assert m == PARSE_ERROR_PREFIX + h2 + (STEP_SEPARATOR + StepName(s1));
    assert |h1| == |h2|;
    assert h1 == m[p..p + |h1|];
    assert h2 == m[p..p + |h2|];
  }
}
