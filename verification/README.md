# In-memory relational tables, modelled in Dafny

This project models the core of a small in-memory relational toy written in Python
(`data_processing.py`). It has two kinds of object:

- A **Table** is a name plus an ordered list of records. A record maps field names to
  string values, and no schema is enforced. A table offers four operations, and none of
  them changes the table it is called on:
  - `join` is a nested-loop equi-join.
  - `filter` keeps the rows that satisfy a predicate.
  - `select` projects every row onto a list of attributes and returns a plain list of records.
  - `aggregate` applies a reducer to the numeric column at one key.
- A **Database** is a registry of tables that only grows. `insert` appends a table and
  never checks whether the name is already taken. `search` returns the first table with
  a given name, or `None`.

Modules:

- `Wrappers` (`wrappers.dfy`): the `Option` result of a lookup.
- `TableSpec` (`table_spec.dfy`): what each table operation computes, as functions on
  sequences of records (`JoinRows`, `FilterRows`, `Project`, `Column`), plus the lemmas
  that say what those results are.
- `Tables` (`tables.dfy`): the `Table` datatype. Its `Join`, `Filter`, `Select` and
  `Aggregate` methods are the Python loops, each proved to compute its specification.
- `Databases` (`database.dfy`): the `Database` class over a `seq<Table>` field. It has
  `Insert`, a `Search` loop with an early return, and the first-match function `Lookup`
  that `Search` is proved to compute.
- `Scenarios` (`scenarios.dfy`): two worked queries over a small cities table and a
  small countries table.

A table is a value, `Table(name, rows)`, and the Python constructor `Table(table_name,
table)` is that datatype constructor. The Python operations never mutate `self`, so
"self and other are unchanged" holds by construction. Records are `map<string, string>`.
Predicates are `Record -> bool` and reducers are `seq<T> -> U`.

Two behaviours of the code that are easy to misread:

- `join` raises `KeyError` only when a comparison actually happens. If either table is
  empty, there is no comparison and no failure, even when the key is missing. Otherwise
  every left row is compared with the first right row and every right row with the first
  left row, so every row of both tables must have the key. `JoinDefined` states exactly
  this and is `Join`'s precondition.
- A search for a name just inserted returns the inserted table only when no earlier table
  has that name; otherwise the earlier table is returned (`LookupAfterAppend`).

## Model

| member | source | states |
|---|---|---|
| `TableSpec.Merge` | data_processing.py:60-61 | a joined row has the keys of both rows; on a shared key it has the right row's value, and on a key only in the left row it has the left row's value |
| `TableSpec.JoinRowsArePairMerges` | data_processing.py:57-62 | the join emits one row per listed matching index pair, in the same order, and that row is the merge of the left and right rows at those indices |
| `TableSpec.MatchPairsMembers` | data_processing.py:57-59 | a pair (a, b) is listed exactly when a indexes the left table, b indexes the right table, and both rows have the same value at the key |
| `TableSpec.MatchPairsRowMajor` | data_processing.py:57-58 | the listed pairs are strictly increasing in row-major order: all matches of left row 0 in right-table order, then left row 1, and so on |
| `TableSpec.JoinCount` | data_processing.py:57-62 | the number of joined rows equals the number of matching pairs in left × right |
| `TableSpec.RowPairsCorrect` | data_processing.py:58-62 | the inner loop for one left row emits the merges with exactly its matching right rows, in right-table order |
| `TableSpec.FilterKeepsSatisfying` | data_processing.py:72-75 | the filtered rows are a subsequence of the input, picked at exactly the positions whose row satisfies the predicate |
| `TableSpec.FilterMembers` | data_processing.py:72-75 | a record is in the result exactly when it is an input row satisfying the predicate |
| `TableSpec.FilterTwice` | data_processing.py:72-75 | filtering by p1 and then by p2 gives the same rows as one filter by "p1 and p2" |
| `TableSpec.FilterAllRows` | data_processing.py:72-75 | filtering by the always-true predicate returns the input rows unchanged |
| `TableSpec.Column` | data_processing.py:84-86 | the collected column has one entry per row, in row order, and entry m is the converted value of row m at the key; every row must have the key |
| `Tables.Table.Join` | data_processing.py:49-63 | the result is named `<self>_joins_<other>` and its rows are the nested-loop join; precondition: no comparison can raise KeyError |
| `Tables.Table.Filter` | data_processing.py:65-75 | the result is named `<self>_filtered` and its rows are the rows satisfying the predicate, in order |
| `Tables.Table.Aggregate` | data_processing.py:77-87 | the result is the reducer applied to the column at the key; every row must have the key |
| `Tables.Table.Select` | data_processing.py:89-102 | one record per row, in row order; record m's keys are the keys of row m that are named in the attribute list, with row m's values, so a missing attribute is left out |
| `Databases.Lookup` | data_processing.py:38-41 | the lookup is absent exactly when no stored table has the name; a found table is stored and carries the name |
| `Databases.LookupFindsFirst` | data_processing.py:38-40 | the table at the lowest index with the name is the one found, so a later duplicate is never returned |
| `Databases.LookupAfterAppend` | data_processing.py:25-41 | after appending t, a lookup that already succeeded returns the same table; a lookup of t's name that used to fail returns t; lookups of other names still fail |
| `Databases.Database.constructor` | data_processing.py:22-23 | a new database holds no tables |
| `Databases.Database.Insert` | data_processing.py:25-30 | the stored list becomes the old list followed by t, with no uniqueness check; afterwards a search for t's name succeeds |
| `Databases.Database.Search` | data_processing.py:32-41 | the scan in insertion order returns the first table with the name, or None when there is none |
| `Scenarios.ItalyMeanTemperature` | data_processing.py:114-125 | filtering the cities on country Italy and taking the mean of their temperatures (25 and 15) gives 20 |
| `Scenarios.CitiesJoinCountries` | data_processing.py:129 | joining cities with countries on country gives exactly the merged rows of Rome and Turin with Italy, in city order, each with all five fields; Oslo, whose country is not listed, gives no row |

## Left out

- CSV loading (`open`, `csv.DictReader`, `os.path`, lines 1-18): this is file I/O.
- The analytical script, its `print` calls and `__str__` (lines 104-160): this is reporting
  code. Its worked queries appear in `Scenarios` only as statements about the specification.
- The `float(...)` conversion in `aggregate`: `Aggregate` and `Column` take an abstract
  `parse: string -> T` instead. A `ValueError` on non-numeric text is not modelled.
- Floating-point arithmetic: `Scenarios` uses `real`, and its digit-string reader stands in
  for `float` on plain decimal integers only.
- Exceptions raised by a caller's predicate or reducer are not modelled. This includes
  `max`/`min` of an empty list and division by zero in a mean. Predicates and reducers are
  total Dafny functions, and `Scenarios.Mean` returns 0 on an empty list.
- `KeyError` from `join` and `aggregate` is a precondition (`JoinDefined`, "every row has
  the key"), not an error result.
- `TableSpec.Matches` reads a missing key as "no match". `Join`'s precondition means the
  method never reaches that case.
- Object identity and aliasing are not modelled, because tables and records are values:
  - `search` returning "the same object" becomes value equality;
  - the `copy.deepcopy` calls in `join` are not modelled;
  - `filter` sharing row dictionaries with its source is not modelled.
- Key insertion order inside a record is not modelled: Dafny maps are unordered, and no
  operation depends on that order.
- Passing a bare string to `select`, where `in` becomes a substring test (line 153), is not
  modelled: the attribute list is a `seq<string>`.
