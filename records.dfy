/** The queries the app runs over the loaded rows (`flower_data`, the rows of
    the merged frame in table order): the sorted name list (flower_app.py:141),
    lookup by name (flower_app.py:143) and keyword search (flower_app.py:163-164). */
module Records {
  import opened Common
  import opened Frames
  import opened Text
  import Loader

  /** Every row has a `name` cell, as every loaded row does. */
  predicate HasNames(rows: seq<Row>)
  {
    forall r | r in rows :: NameColumn in r
  }

  /** The rows of a successful load all have a name (`flower_data`, flower_app.py:117),
      so the queries below can be run on them. */
  lemma LoadedRowsHaveNames(files: seq<Loader.CsvFile>)
    requires forall f | f in files :: Loader.ParsesWellFormed(f)
    requires Loader.Load(files).Loaded?
    ensures HasNames(Loader.Load(files).frame.rows)
  {
  }

  /** `[f["name"] for f in flower_data]`. */
  function Names(rows: seq<Row>): (ns: seq<string>)
    requires HasNames(rows)
    ensures |ns| == |rows|
    ensures forall i | 0 <= i < |rows| :: ns[i] == rows[i][NameColumn]
  {
    seq(|rows|, i requires 0 <= i < |rows| => rows[i][NameColumn])
  }

  /** `sorted([f["name"] for f in flower_data])`: the names in ascending order. */
  function SortedNames(rows: seq<Row>): (ns: seq<string>)
    requires HasNames(rows)
    ensures Sorted(ns)
    ensures multiset(ns) == multiset(Names(rows))
  {
    SortStrings(Names(rows))
  }

  /** A name is offered for selection iff some row carries it. */
  lemma SortedNamesMembers(rows: seq<Row>, name: string)
    requires HasNames(rows)
    ensures name in SortedNames(rows) <==> exists i | 0 <= i < |rows| :: rows[i][NameColumn] == name
  {
    var ns := Names(rows);
    assert name in SortedNames(rows) <==> name in multiset(ns);
    if name in ns {
      var i :| 0 <= i < |ns| && ns[i] == name;
      assert rows[i][NameColumn] == name;
    }
  }

  /** The list does not depend on the order the rows were loaded in. */
  lemma SortedNamesOrderFree(rows: seq<Row>, other: seq<Row>)
    requires HasNames(rows) && HasNames(other)
    requires multiset(Names(rows)) == multiset(Names(other))
    ensures SortedNames(rows) == SortedNames(other)
  {
    SortedUnique(SortedNames(rows), SortedNames(other));
  }

  /** `next((f for f in flower_data if f["name"] == name), None)`. */
  function FindByName(rows: seq<Row>, name: string): (r: Option<Row>)
    requires HasNames(rows)
    // absent exactly when no row has that name
    ensures r.None? <==> forall i | 0 <= i < |rows| :: rows[i][NameColumn] != name
    // otherwise the first row that has it
    ensures r.Some? ==> exists i | 0 <= i < |rows| ::
              rows[i] == r.value && rows[i][NameColumn] == name
              && forall k | 0 <= k < i :: rows[k][NameColumn] != name
    decreases |rows|
  {
    if rows == [] then None
    else if rows[0][NameColumn] == name then Some(rows[0])
    else
      var rest := FindByName(rows[1..], name);
      assert forall i | 0 <= i < |rows[1..]| :: rows[1..][i] == rows[i + 1];
      assert rest.Some? ==> exists i | 0 <= i < |rows| ::
              rows[i] == rest.value && rows[i][NameColumn] == name
              && forall k | 0 <= k < i :: rows[k][NameColumn] != name by {
        if rest.Some? {
          var i :| 0 <= i < |rows[1..]| && rows[1..][i] == rest.value && rows[1..][i][NameColumn] == name
                   && forall k | 0 <= k < i :: rows[1..][k][NameColumn] != name;
          assert forall k | 0 <= k < i + 1 :: rows[k][NameColumn] != name by {
            forall k | 0 <= k < i + 1 ensures rows[k][NameColumn] != name {
              if k > 0 { assert rows[k] == rows[1..][k - 1]; }
            }
          }
        }
      }
      assert rest.None? ==> forall i | 0 <= i < |rows| :: rows[i][NameColumn] != name by {
        if rest.None? {
          forall i | 0 <= i < |rows| ensures rows[i][NameColumn] != name {
            if i > 0 { assert rows[i] == rows[1..][i - 1]; }
          }
        }
      }
      rest
  }

  /** Every name of the selection list finds its record. */
  lemma SelectedNameFound(rows: seq<Row>, name: string)
    requires HasNames(rows)
    requires name in SortedNames(rows)
    ensures FindByName(rows, name).Some? && FindByName(rows, name).value[NameColumn] == name
  {
    SortedNamesMembers(rows, name);
  }

  /** `row.astype(str).str.contains(query, case=False).any()`: some cell of the
      row contains the query, ignoring case. */
  predicate Matches(row: Row, query: string)
  {
    exists c | c in row :: ContainsIgnoringCase(row[c], query)
  }

  /** `df[df.apply(..., axis=1)]`: the matching rows, in table order. */
  function Filter(rows: seq<Row>, query: string): (res: seq<Row>)
    ensures forall r :: r in res <==> r in rows && Matches(r, query)
    ensures SubsequenceOf(res, rows)
    // a matching row is kept as often as it occurs, any other row never
    ensures forall r :: multiset(res)[r] == if Matches(r, query) then multiset(rows)[r] else 0
    decreases |rows|
  {
    if rows == [] then []
    else
      var rest := Filter(rows[1..], query);
      assert rows == [rows[0]] + rows[1..];
      assert multiset(rows) == multiset{rows[0]} + multiset(rows[1..]);
      SubsequenceCons(rows[0], rest, rows[1..]);
      if Matches(rows[0], query) then [rows[0]] + rest else rest
  }

  /** The search of flower_app.py:163-164: no search at all for an empty query. */
  function Search(rows: seq<Row>, query: string): (res: Option<seq<Row>>)
    ensures res.None? <==> query == []
    ensures res.Some? ==> (forall r :: r in res.value <==> r in rows && Matches(r, query))
    ensures res.Some? ==> SubsequenceOf(res.value, rows)
    ensures res.Some? ==> forall r :: multiset(res.value)[r] == if Matches(r, query) then multiset(rows)[r] else 0
  {
    if query == [] then None else Some(Filter(rows, query))
  }

  /** The search ignores case: queries that differ only in letter case find the same rows. */
  lemma {:induction false} FilterIgnoresCase(rows: seq<Row>, q1: string, q2: string)
    requires Lower(q1) == Lower(q2)
    ensures Filter(rows, q1) == Filter(rows, q2)
    decreases |rows|
  {
    if rows != [] {
      FilterIgnoresCase(rows[1..], q1, q2);
      assert Matches(rows[0], q1) == Matches(rows[0], q2);
    }
  }
}
