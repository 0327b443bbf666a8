# schnecke routing core in Dafny

schnecke is a host-based reverse proxy. This project models its two pieces of routing logic.

- **Configuration resolution** (`src/config.rs`) finds the configuration file among four candidate paths. It then turns the parsed YAML document into a map from virtual host name to a `CacheConfig` profile. Each field falls back from the host's own entry, to the `default` entry, to a built-in constant.
- **Request routing** (`proxy` in `src/main.rs`) takes the routing key from the Host header and looks it up. It answers `missing` locally, or builds the outbound request: same method, origin URL with the inbound path and query, rewritten headers and an empty body. Finally it relays the upstream answer or turns the upstream error into a reply body.

Modules:

- `Wrappers` (`wrappers.dfy`) holds `Option` and `Result`.
- `YamlTree` (`yaml.dfy`) holds the YAML tree and yaml_rust's `node[key]` lookup. A missing key yields `Other`, which plays the role of yaml_rust's `BadValue`.
- `Config` (`config.dfy`) models `src/config.rs`.
- `Headers` (`headers.dfy`) models hyper's `HeaderMap`: `get` returns the first value and `insert` replaces every value of a name.
- `Proxy` (`proxy.dfy`) models `proxy`.

Everything is a pure function over immutable datatypes. The environment becomes function parameters:

- `present: string -> bool` stands for `Path::exists`.
- `document: string -> Yaml` stands for reading and parsing the file.
- `UrlLib` bundles the `url` crate's `parse`, `set_path`, `set_query` and `domain` over an abstract URL type.
- `send` stands for the HTTP client.

The application and directory names (`APP_NAME`, `DIR_NAME`) are string parameters.

Behaviour of the code worth noting:

- A host-level `expire` or `err_expire` that is present but not an integer is not an error. Indexing yields a non-integer either way, so it counts as absent and resolution falls back to `default` (src/config.rs:128, 151).
- An out-of-range integer in `default` fails, and the error names the host being resolved, not `default` (src/config.rs:129-136).
- A document whose `hosts` value is missing or is not a mapping resolves to `Ok` with an empty host map (src/config.rs:107, 182). It is not an error.
- A `default` entry is not required. When it is absent, every field falls back to its constant.

## Model

| member | source | states |
|---|---|---|
| Config.I64ToU32 | src/config.rs:64-70 | succeeds exactly for 0 <= i <= 2^32-1 and keeps the value; otherwise fails with "error!" |
| Config.I64ToU32RoundTrip | src/config.rs:64-70 | every u32, widened to i64, converts back to itself |
| Config.Join | src/config.rs:80 | models `home.join(c)` on Unix paths. An absolute name replaces the base. Otherwise the result starts with the base and ends with the name. A `/` separator sits between them exactly when the base is non-empty and does not already end in `/`; otherwise the two are simply concatenated |
| Config.Candidates | src/config.rs:73-78 | yields exactly four candidate names, pairwise distinct, so probing visits four different files |
| Config.FirstPresent | src/config.rs:79-84 | returns the index of the first name whose joined path exists, with no earlier one existing; returns None only when none exists |
| Config.CollectConfigPath | src/config.rs:72-86 | succeeds iff one of the four candidates exists, with the earliest existing one in probing order; otherwise fails listing all four candidates |
| Config.DotYmlWins | src/config.rs:73-84 | when `.APP.yml` exists it is chosen, whatever else exists |
| Config.ResolveU32 | src/config.rs:118-163 | five cases. (1) The host's in-range integer is used. (2) The host's out-of-range integer fails, naming the host and step. (3) Otherwise `default`'s in-range integer is used. (4) `default`'s out-of-range integer fails, naming the host. (5) With no integer at either tier, the constant is used |
| Config.ResolveBool | src/config.rs:164-170 | takes the host's boolean, else `default`'s boolean, else the constant; a mistyped value is treated as absent |
| Config.ResolveHost | src/config.rs:111-178 | succeeds iff the host has a string `origin` and both numeric fields resolve. A missing or mistyped origin fails with step origin. Otherwise an expire failure reports step expire. Otherwise an err_expire failure reports step err_expire. Every error names the host. On success the profile's host is the name and its origin is the host's own string. Its expire and err_expire are resolved as in `ResolveU32` with constants 86400 and 300. Its keep flag is resolved as in `ResolveBool` with constant false |
| Config.OriginNeverFromDefault | src/config.rs:112-117 | the resolved origin and an origin failure do not depend on the `default` entry |
| Config.ResolveHostsSucceedsIff | src/config.rs:108-180 | the host loop succeeds iff every entry other than `default` resolves |
| Config.ResolveHostsFirstError | src/config.rs:109-180 | a failing loop returns the error of the first entry in document order that fails, with every earlier entry resolving |
| Config.ResolveHostsKeys | src/config.rs:109-178 | the resulting map's keys are exactly the names of the non-`default` entries, so `default` is never inserted |
| Config.ResolveHosts | src/config.rs:108-180 | the host loop in document order. A successful result never contains `default`, and every profile is stored under its own `host` field |
| Config.ResolveHostsLastWinsAt | src/config.rs:171-178 | a host entry that no later entry shares a name with resolves to exactly the profile stored under its name |
| Config.ResolveHostsLastWins | src/config.rs:171-178 | each name maps to the profile resolved from the last entry with that name (HashMap insert overwrites) |
| Config.DefaultAloneNeverFails | src/config.rs:105-111 | with no entry other than `default`, the loop yields an empty map, whatever `default` holds |
| Config.ResolveDocument | src/config.rs:104-190 | a non-mapping `hosts` yields Ok with an empty map. Otherwise the result is the host loop over `hosts` with `hosts["default"]` as the fallback. Any success carries the server config (port 0, no unix socket, no SSL) |
| Config.LoadConfigFile | src/config.rs:88-94 | returns the missing-file error when no candidate exists; otherwise resolves the document at the chosen path |
| Config.LoadedConfigWellFormed | src/config.rs:88-190 | a loaded config never contains `default`, keys every profile by its own host, and always has the fixed server config |
| Config.Message | src/config.rs:85-157 | the missing-file text starts with `missing [`. A parse-error text starts with `parse error:`, newline, tab, `host:` and the host name |
| Config.QuotedListHas | src/config.rs:85 | every name of a list appears, in double quotes, in the list's debug text |
| Config.MissingMessageListsAll | src/config.rs:85 | every probed candidate appears, in double quotes, in the missing-file text |
| Config.StepTail | src/config.rs:115-157 | the separator and step name together end in seven characters fixed by the step alone |
| Config.MessageTail | src/config.rs:115-157 | the last seven characters of a parse-error text depend only on the failing step |
| Config.ParseErrorMessageInjective | src/config.rs:115-157 | two equal parse-error texts have the same host and the same step, so the text identifies both |
| YamlTree.Lookup | src/config.rs:104-105 | returns the value of the first entry keyed by the string, or the bad value when no entry has that key |
| Headers.FirstValue | src/main.rs:62 | returns None iff the name is absent; otherwise the value of the first header with that name |
| Headers.RemoveAll | src/main.rs:93-95 | leaves every name except the removed one untouched and keeps names unique |
| Headers.Insert | src/main.rs:93-95 | afterwards every value stored under the name is the inserted one, and the name set gains exactly that name |
| Headers.InsertLookup | src/main.rs:93-95 | after an insert, `get` of the name returns the inserted value and `get` of every other name is unchanged |
| Headers.InsertKeepsUnique | src/main.rs:93-95 | inserting into a list with unique names keeps them unique |
| Proxy.HostKey | src/main.rs:62-65 | returns the longest prefix of the Host value without `:`, ending at the first `:` or at the end of the value |
| Proxy.HostKeyDropsPort | src/main.rs:63-65 | `name:port` and `name` both give the key `name` |
| Proxy.TargetUrl | src/main.rs:74-77 | defines the outbound URL: the parsed origin, with its path set to the inbound path, then its query set to the inbound query (cleared when absent). The `url` operations are abstract, so it has no contract of its own; `Proxy.Route` states its use |
| Proxy.RewriteHeaders | src/main.rs:89-97 | output names are unique and equal the inbound names; `host` maps to the origin domain and every other name to its last inbound value |
| Proxy.Route | src/main.rs:62-99 | an unknown key gives a local `missing`. A known key gives a local `missing` iff the rewritten origin URL has no domain. Otherwise it forwards with the same method, the origin URL with the inbound path and query, and an empty body. The forwarded headers have unique names, the inbound name set, host = domain, and every other name's last inbound value |
| Proxy.HandleRequest | src/main.rs:107-113 | a local decision becomes a 200 reply with that body; an upstream success is relayed unchanged; an upstream error becomes a 200 reply carrying the error text |
| Proxy.UnknownHostNeverForwarded | src/main.rs:65-70 | for an unknown host the reply is 200 `missing`, independent of the client |

## Left out

- File reading and YAML text parsing (src/config.rs:102-103) are foreign I/O and a foreign parser. They are the `document` parameter. The model takes the first document as the root, so the panic on a file with no YAML document is not modelled.
- The `unwrap`/`expect` panics are preconditions, not modelled behaviour:
  - every key of `hosts` is a string (src/config.rs:110), required of all keys rather than only those the loop reaches before an error;
  - the request has a Host header (src/main.rs:62) in visible ASCII (src/main.rs:63);
  - a configured origin parses as a URL (src/main.rs:74);
  - the chosen path is valid UTF-8 (`to_str().expect(..)`, src/config.rs:97-99);
  - the chosen path can be read as text (`read_to_string(..).unwrap()`, src/config.rs:102). `Path::exists` is also true for a directory, which would panic here;
  - the file text parses as YAML (`load_from_str(..).unwrap()`, src/config.rs:103).
- `HeaderValue::from_str(origin_domain).unwrap()` (src/main.rs:93) is not modelled. The domain comes from the abstract `domain` operation, so every domain is taken to be a valid header value.
- A `Hash` node may list a key twice, which a parsed YAML mapping never does: yaml_rust keeps only the last value of a repeated key. Trees with duplicate keys are outside what the parser produces. On them, `Lookup` takes the first match, and the host loop resolves every copy with the last one winning.
- Config.Message: the missing-file text quotes the candidates without Rust's `{:?}` escaping of special characters inside them.
- Config.Join models `PathBuf::join` for Unix paths only. Windows prefixes are not modelled.
- Header names are assumed to be in hyper's lower-case canonical form, so header-name case folding is not modelled.
- The outbound request carries the URL value rather than its text form (`uri.to_string()`), and request-builder failures are not modelled.
- `init_working_dir`, `write_port` and `main` (src/main.rs:26-55, 116-170) are filesystem, environment, logging and server startup.
- The hyper server and client, the TLS connector and tokio task spawning are network I/O and concurrency. The independence of concurrent requests is not stated.
- URL parsing internals of the `url` crate are a foreign library, kept abstract in `UrlLib`.
- Logging (`info!`, `debug!`) has no effect on results.
