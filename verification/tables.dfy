/**
  A `Table` is a name and an ordered sequence of records. Its four operations
  never change the table they are called on: join and filter build a new
  table row by row, select builds a plain list of records, and aggregate
  collects a column and hands it to a reducer. Each loop is proved to compute
  the specification function of the same operation in module TableSpec.
 */
module Tables {
  import opened TableSpec

  datatype Table = Table(name: string, rows: seq<Record>) {

    /** Nested-loop equi-join on `key`: for each row `i` of this table and each
        row `j` of `other`, in that order, emits `i` updated with `j` when both
        carry the same value at `key`. */
    method Join(other: Table, key: string) returns (joined: Table)
      requires JoinDefined(rows, other.rows, key)
      ensures joined.name == name + "_joins_" + other.name
      ensures joined.rows == JoinRows(rows, other.rows, key)
    {
      var out: seq<Record> := [];
      var a := 0;
      while a < |rows|
        invariant 0 <= a <= |rows|
        invariant out == JoinRows(rows[..a], other.rows, key)
      {
        var i := rows[a];
        var b := 0;
        while b < |other.rows|
          invariant 0 <= b <= |other.rows|
          invariant out == JoinRows(rows[..a], other.rows, key) + RowJoin(i, other.rows[..b], key)
        {
          var j := other.rows[b];
          if i[key] == j[key] {
            out := out + [Merge(i, j)];
          }
          assert other.rows[..b + 1][..b] == other.rows[..b];
          b := b + 1;
        }
        assert rows[..a + 1][..a] == rows[..a];
        assert other.rows[..b] == other.rows;
        a := a + 1;
      }
      assert rows[..a] == rows;
      joined := Table(name + "_joins_" + other.name, out);
    }

    /** The rows for which `cond` holds, in their original order. */
    method Filter(cond: Record -> bool) returns (filtered: Table)
      ensures filtered.name == name + "_filtered"
      ensures filtered.rows == FilterRows(rows, cond)
    {
      var out: seq<Record> := [];
      var a := 0;
      while a < |rows|
        invariant 0 <= a <= |rows|
        invariant out == FilterRows(rows[..a], cond)
      {
        if cond(rows[a]) {
          out := out + [rows[a]];
        }
        assert rows[..a + 1][..a] == rows[..a];
        a := a + 1;
      }
      assert rows[..a] == rows;
      filtered := Table(name + "_filtered", out);
    }

    /** Applies `func` to the values at `key`, one per row in row order, each
        converted by `parse`. Every row must have `key`. */
    method Aggregate<T, U>(func: seq<T> -> U, key: string, parse: string -> T) returns (result: U)
      requires forall m :: 0 <= m < |rows| ==> key in rows[m]
      ensures result == func(Column(rows, key, parse))
    {
      var values: seq<T> := [];
      var a := 0;
      while a < |rows|
        invariant 0 <= a <= |rows|
        invariant values == Column(rows[..a], key, parse)
      {
        values := values + [parse(rows[a][key])];
        assert rows[..a + 1][..a] == rows[..a];
        a := a + 1;
      }
      assert rows[..a] == rows;
      result := func(values);
    }

    /** For each row, a new record holding those of its fields that are named in
        `attrs`: one record per row, in row order, fields missing from a row
        simply absent from its record. */
    method Select(attrs: seq<string>) returns (selected: seq<Record>)
      ensures |selected| == |rows|
      ensures forall m :: 0 <= m < |rows| ==>
        selected[m].Keys == rows[m].Keys * (set f | f in attrs)
      ensures forall m, f :: 0 <= m < |rows| && f in selected[m] ==> selected[m][f] == rows[m][f]
    {
      selected := [];
      var a := 0;
      while a < |rows|
        invariant 0 <= a <= |rows|
        invariant |selected| == a
        invariant forall m :: 0 <= m < a ==> selected[m] == Project(rows[m], attrs)
      {
        var row := rows[a];
        var projected: Record := map[];
        var remaining := row.Keys;
        while remaining != {}
          invariant remaining <= row.Keys
          invariant projected == map f | f in row.Keys - remaining && f in attrs :: row[f]
          decreases remaining
        {
          var f :| f in remaining;
          if f in attrs {
            projected := projected[f := row[f]];
          }
          remaining := remaining - {f};
        }
        assert projected == Project(row, attrs);
        selected := selected + [projected];
        a := a + 1;
      }
    }
  }
}
