/** Header lists with the semantics of hyper's `HeaderMap`: a name may carry several
    values, `get` / indexing yields the first, and `insert` replaces every value of a
    name by one. Names are taken to be in hyper's canonical lower-case form. */
module Headers {
  import opened Wrappers

  datatype Header = Header(name: string, value: string)

  function Names(hs: seq<Header>): set<string> {
    set h | h in hs :: h.name
  }

  /** No name occurs twice. */
  predicate UniqueNames(hs: seq<Header>) {
    forall i, j | 0 <= i < j < |hs| :: hs[i].name != hs[j].name
  }

  lemma NamesCons(h: Header, hs: seq<Header>)
    ensures Names([h] + hs) == {h.name} + Names(hs)
  {
    assert forall x | x in [h] + hs :: x == h || x in hs;
  }

  lemma NamesSnoc(hs: seq<Header>, h: Header)
    ensures Names(hs + [h]) == Names(hs) + {h.name}
  {
    assert forall x | x in hs + [h] :: x == h || x in hs;
  }

  /** The names of a non-empty list: the head's and the tail's. */
  lemma NamesUncons(hs: seq<Header>)
    requires |hs| > 0
    ensures Names(hs) == {hs[0].name} + Names(hs[1..])
  {
    assert hs == [hs[0]] + hs[1..];
    NamesCons(hs[0], hs[1..]);
  }

  /** `HeaderMap::get`: the first value stored under `name`. */
  function FirstValue(hs: seq<Header>, name: string): (r: Option<string>)
    ensures r.None? <==> name !in Names(hs)
    ensures r.Some? ==> Header(name, r.value) in hs
    ensures forall i | 0 <= i < |hs| && hs[i].name == name ::
              (forall j | 0 <= j < i :: hs[j].name != name) ==> r == Some(hs[i].value)
  {
    if |hs| == 0 then None
    else if hs[0].name == name then Some(hs[0].value)
    else
      var tail := hs[1..];
      NamesUncons(hs);
      assert forall i | 1 <= i < |hs| :: tail[i - 1] == hs[i];
      FirstValue(tail, name)
  }

  /** The value of the last occurrence of `name`: what a sequence of inserts in list
      order leaves behind. */
  function LastValue(hs: seq<Header>, name: string): Option<string> {
    if |hs| == 0 then None
    else if hs[|hs| - 1].name == name then Some(hs[|hs| - 1].value)
    else LastValue(hs[..|hs| - 1], name)
  }

  /** All headers except those named `name`, in order. */
  function RemoveAll(hs: seq<Header>, name: string): (r: seq<Header>)
    ensures Names(r) == Names(hs) - {name}
    ensures forall other | other != name :: FirstValue(r, other) == FirstValue(hs, other)
    ensures UniqueNames(hs) ==> UniqueNames(r)
  {
    if |hs| == 0 then []
    else
      var rest := RemoveAll(hs[1..], name);
      NamesUncons(hs);
      if hs[0].name == name then rest
      else
        NamesCons(hs[0], rest);
        [hs[0]] + rest
  }

  /** `HeaderMap::insert`: afterwards `name` carries exactly `value`, at the position of
      its first former occurrence, or appended. */
  function Insert(hs: seq<Header>, name: string, value: string): (r: seq<Header>)
    ensures forall i | 0 <= i < |r| && r[i].name == name :: r[i].value == value
    ensures Names(r) == Names(hs) + {name}
  {
    if |hs| == 0 then [Header(name, value)]
    else
      NamesCons(hs[0], hs[1..]);
      assert hs == [hs[0]] + hs[1..];
      if hs[0].name == name then
        var rest := RemoveAll(hs[1..], name);
        NamesCons(Header(name, value), rest);
        [Header(name, value)] + rest
      else
        var rest := Insert(hs[1..], name, value);
        NamesCons(hs[0], rest);
        [hs[0]] + rest
  }

  /** After an insert, `get` of the name yields the inserted value and `get` of any
      other name is what it was before. */
  lemma {:induction false} InsertLookup(hs: seq<Header>, name: string, value: string)
    ensures FirstValue(Insert(hs, name, value), name) == Some(value)
    ensures forall other | other != name :: FirstValue(Insert(hs, name, value), other) == FirstValue(hs, other)
  {
    if |hs| > 0 && hs[0].name != name {
      InsertLookup(hs[1..], name, value);
    }
  }

  /** Dropping the head keeps names unique. */
  lemma TailUnique(hs: seq<Header>)
    requires |hs| > 0 && UniqueNames(hs)
    ensures UniqueNames(hs[1..])
  {
    var rest := hs[1..];
    forall i, j | 0 <= i < j < |rest| ensures rest[i].name != rest[j].name {
      assert rest[i] == hs[i + 1] && rest[j] == hs[j + 1];
    }
  }

  /** A header whose name is new can be put in front of a list with unique names. */
  lemma ConsUnique(h: Header, r: seq<Header>)
    requires UniqueNames(r) && h.name !in Names(r)
    ensures UniqueNames([h] + r)
  {
    var out := [h] + r;
    forall i, j | 0 <= i < j < |out| ensures out[i].name != out[j].name {
      assert out[j] == r[j - 1];
      if i == 0 {
        assert out[j] in r;
      } else {
        assert out[i] == r[i - 1];
      }
    }
  }

  /** Inserting into a list with unique names keeps the names unique. */
  lemma {:induction false} InsertKeepsUnique(hs: seq<Header>, name: string, value: string)
    requires UniqueNames(hs)
    ensures UniqueNames(Insert(hs, name, value))
  {
    if |hs| > 0 {
      var rest := hs[1..];
      TailUnique(hs);
      assert hs == [hs[0]] + rest;
      NamesCons(hs[0], rest);
      assert hs[0].name !in Names(rest) by {
        forall x | x in rest ensures x.name != hs[0].name {
          var j :| 0 <= j < |rest| && rest[j] == x;
          assert hs[j + 1] == x;
        }
      }
      if hs[0].name != name {
        InsertKeepsUnique(rest, name, value);
        ConsUnique(hs[0], Insert(rest, name, value));
      } else {
        ConsUnique(Header(name, value), RemoveAll(rest, name));
      }
    }
  }
}
