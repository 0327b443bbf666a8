/** The parsed YAML document the configuration resolver works on (yaml_rust's `Yaml`). */
module YamlTree {

  /** yaml_rust stores integers as `i64`. */
  newtype Int64 = x: int | -0x8000_0000_0000_0000 <= x < 0x8000_0000_0000_0000

  /** A YAML node. `Hash` keeps the document order of its entries (yaml_rust uses a
      linked hash map). `Other` stands for every node kind the resolver never matches
      on (reals, arrays, null, aliases) and also for yaml_rust's `BadValue`, which is
      what indexing yields for a missing key. */
  datatype Yaml =
    | Integer(n: Int64)
    | String(str: string)
    | Boolean(flag: bool)
    | Hash(entries: seq<(Yaml, Yaml)>)
    | Other

  /** True when entry `e` is keyed by the string `key`. */
  predicate HasKey(e: (Yaml, Yaml), key: string) {
    e.0.String? && e.0.str == key
  }

  /** The value of the first entry keyed by the string `key`, or `Other` when there is none. */
  function Lookup(entries: seq<(Yaml, Yaml)>, key: string): (r: Yaml)
    ensures (forall i | 0 <= i < |entries| :: !HasKey(entries[i], key)) ==> r == Other
    ensures forall i | 0 <= i < |entries| && HasKey(entries[i], key) ::
              (forall j | 0 <= j < i :: !HasKey(entries[j], key)) ==> r == entries[i].1
  {
    if |entries| == 0 then Other
    else if HasKey(entries[0], key) then entries[0].1
    else
      var tail := entries[1..];
      assert forall i | 1 <= i < |entries| :: tail[i - 1] == entries[i];
      assert !HasKey(entries[0], key);
      Lookup(tail, key)
  }

  /** `node[key]`: the value stored under `key` in a mapping; `Other` (yaml_rust's
      `BadValue`) when `node` is not a mapping or has no such key. */
  function Get(node: Yaml, key: string): Yaml
  {
    if node.Hash? then Lookup(node.entries, key) else Other
  }
}
