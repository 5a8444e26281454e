/** A settings store: string lists under (section, key) names. A single value is the first of its
    list, and a name without values is absent. */
module SettingsStore {

  datatype Name = Name(section: string, key: string)

  type Entries = map<Name, seq<string>>

  /** The values under a name, none if it is absent. */
  function Get(m: Entries, n: Name): seq<string> {
    if n in m then m[n] else []
  }

  predicate Canonical(m: Entries) {
    forall n :: n in m ==> m[n] != []
  }

  /** Two stores without empty lists are equal when every name has the same values. */
  lemma SameValues(m: Entries, w: Entries)
    requires Canonical(m) && Canonical(w)
    requires forall n :: Get(m, n) == Get(w, n)
    ensures m == w
  {
    forall n ensures n in m <==> n in w {
      assert Get(m, n) == Get(w, n);
    }
    forall n | n in m ensures m[n] == w[n] {
      assert Get(m, n) == Get(w, n);
    }
  }

  function FirstOr(values: seq<string>, default_: string): string {
    if values == [] then default_ else values[0]
  }

  function OnlyFirst(values: seq<string>): seq<string> {
    if values == [] then [] else values[..1]
  }

  class SettingsInterface {
    var entries: Entries

    constructor ()
      ensures entries == map[]
    {
      entries := map[];
    }

    function GetStringList(n: Name): seq<string>
      reads this
    {
      Get(entries, n)
    }

    function GetStringValue(n: Name, default_: string): string
      reads this
    {
      FirstOr(Get(entries, n), default_)
    }

    method DeleteValue(n: Name)
      requires Canonical(entries)
      modifies this
      ensures Canonical(entries)
      ensures forall o :: Get(entries, o) == if o == n then [] else Get(old(entries), o)
    {
      entries := entries - {n};
    }

    method SetStringValue(n: Name, value: string)
      requires Canonical(entries)
      modifies this
      ensures Canonical(entries)
      ensures forall o :: Get(entries, o) == if o == n then [value] else Get(old(entries), o)
    {
      entries := entries[n := [value]];
    }

    method SetStringList(n: Name, items: seq<string>)
      requires Canonical(entries)
      modifies this
      ensures Canonical(entries)
      ensures forall o :: Get(entries, o) == if o == n then items else Get(old(entries), o)
    {
      entries := entries - {n};
      if items != [] { entries := entries[n := items]; }
    }

    method CopyStringValue(si: SettingsInterface, n: Name)
      requires Canonical(entries)
      modifies this
      ensures Canonical(entries)
      ensures forall o :: Get(entries, o) == if o == n then OnlyFirst(Get(old(si.entries), n)) else Get(old(entries), o)
    {
      if si.GetStringList(n) != [] {
        SetStringValue(n, si.GetStringValue(n, ""));
      } else {
        DeleteValue(n);
      }
    }

    method CopyStringListValue(si: SettingsInterface, n: Name)
      requires Canonical(entries)
      modifies this
      ensures Canonical(entries)
      ensures forall o :: Get(entries, o) == if o == n then Get(old(si.entries), n) else Get(old(entries), o)
    {
      var value := si.GetStringList(n);
      if value != [] {
        SetStringList(n, value);
      } else {
        DeleteValue(n);
      }
    }
  }
}
