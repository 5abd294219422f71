/**
  A `Database` is a registry of tables that only grows: insertion appends,
  with no check that the name is new, and lookup by name scans in insertion
  order and returns the first table with that name.
 */
module Databases {
  import opened Wrappers
  import opened Tables

  /** The first table of `tables` named `name`, or None when no table has that name. */
  function Lookup(tables: seq<Table>, name: string): (found: Option<Table>)
    ensures found.None? <==> forall m :: 0 <= m < |tables| ==> tables[m].name != name
    ensures found.Some? ==> found.value in tables && found.value.name == name
  {
    if tables == [] then None
    else if tables[0].name == name then Some(tables[0])
    else Lookup(tables[1..], name)
  }

  /** The table at the lowest index carrying `name` is the one found, so a later
      table with the same name is never returned. */
  lemma {:induction false} LookupFindsFirst(tables: seq<Table>, name: string, m: nat)
    requires m < |tables| && tables[m].name == name
    requires forall n :: 0 <= n < m ==> tables[n].name != name
    ensures Lookup(tables, name) == Some(tables[m])
  {
    if m > 0 {
      LookupFindsFirst(tables[1..], name, m - 1);
    }
  }

  /** Appending a table leaves every lookup that already succeeded unchanged, and
      makes a lookup of the new table's name succeed: with the new table itself
      when no earlier table had its name. Lookups of other names are unaffected. */
  lemma {:induction false} LookupAfterAppend(tables: seq<Table>, t: Table, name: string)
    ensures Lookup(tables + [t], name) ==
      if Lookup(tables, name).Some? then Lookup(tables, name)
      else if t.name == name then Some(t)
      else None
  {
    if tables != [] {
      assert (tables + [t])[1..] == tables[1..] + [t];
      LookupAfterAppend(tables[1..], t, name);
    }
  }

  class Database {
    /** The registered tables, in insertion order. */
    var tables: seq<Table>

    /** An empty registry. */
    constructor ()
      ensures tables == []
    {
      tables := [];
    }

    /** Appends `t`; a table of the same name may already be present. */
    method Insert(t: Table)
      modifies this
      ensures tables == old(tables) + [t]
      ensures Lookup(tables, t.name).Some?
    {
      tables := tables + [t];
      LookupAfterAppend(old(tables), t, t.name);
    }

    /** Scans the tables in insertion order and returns the first named `name`,
        or None when there is none. */
    method Search(name: string) returns (found: Option<Table>)
      ensures found == Lookup(tables, name)
    {
      var m := 0;
      while m < |tables|
        invariant 0 <= m <= |tables|
        invariant forall n :: 0 <= n < m ==> tables[n].name != name
      {
        if tables[m].name == name {
          LookupFindsFirst(tables, name, m);
          return Some(tables[m]);
        }
        m := m + 1;
      }
      return None;
    }
  }
}
