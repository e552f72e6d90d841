/** The table operations `load_data` applies to the parsed files
    (flower_app.py:106-108): concatenation, dropping duplicate names keeping
    the first, and filling every missing cell with the empty string. */
module Frames {
  import opened Common

  type Column = string

  /** One row: the cells that hold a value. A column that is absent from the
      map is a missing value (pandas' NaN). */
  type Row = map<Column, string>

  /** A table: its header (the set of column names) and its rows in order. */
  datatype Frame = Frame(columns: set<Column>, rows: seq<Row>)

  /** The primary key column. */
  const NameColumn: Column := "name"

  /** Every cell of every row lies in a column of the header. */
  predicate WellFormed(f: Frame)
  {
    forall r | r in f.rows :: r.Keys <= f.columns
  }

  /** The value `drop_duplicates(subset=['name'])` compares: the name, or None
      when the name is missing (pandas treats all missing names as equal). */
  function Key(r: Row): Option<string>
  {
    if NameColumn in r then Some(r[NameColumn]) else None
  }

  function KeySet(rows: seq<Row>): set<Option<string>>
  {
    set r | r in rows :: Key(r)
  }

  /** No two rows share a key. */
  predicate UniqueKeys(rows: seq<Row>)
  {
    forall i, j | 0 <= i < j < |rows| :: Key(rows[i]) != Key(rows[j])
  }

  /** rows[i] is the first row carrying its key. */
  predicate IsFirstOccurrence(rows: seq<Row>, i: int)
    requires 0 <= i < |rows|
  {
    forall k | 0 <= k < i :: Key(rows[k]) != Key(rows[i])
  }

  /** The number of rows of all frames together. */
  function TotalRows(frames: seq<Frame>): nat
  {
    if frames == [] then 0 else |frames[0].rows| + TotalRows(frames[1..])
  }

  /** Column c appears in the header of one of the frames. */
  predicate InSomeHeader(frames: seq<Frame>, c: Column)
  {
    exists i | 0 <= i < |frames| :: c in frames[i].columns
  }

  /** The rows of each frame in turn. */
  function AllRows(frames: seq<Frame>): (rows: seq<Row>)
    ensures |rows| == TotalRows(frames)
    decreases |frames|
  {
    if frames == [] then [] else frames[0].rows + AllRows(frames[1..])
  }

  /** The union of the headers. */
  function AllColumns(frames: seq<Frame>): (cs: set<Column>)
    ensures forall c :: c in cs <==> InSomeHeader(frames, c)
    decreases |frames|
  {
    if frames == [] then {}
    else
      var rest := AllColumns(frames[1..]);
      assert forall c | InSomeHeader(frames[1..], c) :: InSomeHeader(frames, c) by {
        forall c | InSomeHeader(frames[1..], c) ensures InSomeHeader(frames, c) {
          var i :| 0 <= i < |frames[1..]| && c in frames[1..][i].columns;
          assert c in frames[i + 1].columns;
        }
      }
      assert forall c | InSomeHeader(frames, c) :: c in frames[0].columns || c in rest by {
        forall c | InSomeHeader(frames, c) ensures c in frames[0].columns || c in rest {
          var i :| 0 <= i < |frames| && c in frames[i].columns;
          if i > 0 { assert c in frames[1..][i - 1].columns; }
        }
      }
      frames[0].columns + rest
  }

  lemma {:induction false} AllRowsInSomeFrame(frames: seq<Frame>, r: Row)
    requires r in AllRows(frames)
    ensures exists i | 0 <= i < |frames| :: r in frames[i].rows
    decreases |frames|
  {
    if r !in frames[0].rows {
      AllRowsInSomeFrame(frames[1..], r);
      var i :| 0 <= i < |frames[1..]| && r in frames[1..][i].rows;
      assert frames[1..][i] == frames[i + 1];
    }
  }

  /** Row k of frame i sits at position TotalRows(frames[..i]) + k of the concatenation. */
  lemma {:induction false} AllRowsPlacement(frames: seq<Frame>, i: int, k: int)
    requires 0 <= i < |frames| && 0 <= k < |frames[i].rows|
    ensures TotalRows(frames[..i]) + k < |AllRows(frames)|
    ensures AllRows(frames)[TotalRows(frames[..i]) + k] == frames[i].rows[k]
    decreases i
  {
    if i == 0 {
      assert frames[..0] == [];
    } else {
      var rest := frames[1..];
      assert rest[i - 1] == frames[i];
      AllRowsPlacement(rest, i - 1, k);
      assert frames[..i][0] == frames[0] && frames[..i][1..] == rest[..i - 1];
      assert TotalRows(frames[..i]) == |frames[0].rows| + TotalRows(rest[..i - 1]);
    }
  }

  /** `pd.concat(frames, ignore_index=True)`: the header is the union of the
      headers, the rows are the rows of each frame in turn. */
  function Concat(frames: seq<Frame>): (f: Frame)
    ensures |f.rows| == TotalRows(frames)
    // row k of frame i comes after all rows of the frames before it, in its own order
    ensures forall i, k | 0 <= i < |frames| && 0 <= k < |frames[i].rows| ::
              TotalRows(frames[..i]) + k < |f.rows| && f.rows[TotalRows(frames[..i]) + k] == frames[i].rows[k]
    ensures forall c :: c in f.columns <==> InSomeHeader(frames, c)
    ensures (forall i | 0 <= i < |frames| :: WellFormed(frames[i])) ==> WellFormed(f)
  {
    var f := Frame(AllColumns(frames), AllRows(frames));
    forall i, k | 0 <= i < |frames| && 0 <= k < |frames[i].rows|
      ensures TotalRows(frames[..i]) + k < |f.rows| && f.rows[TotalRows(frames[..i]) + k] == frames[i].rows[k]
    {
      AllRowsPlacement(frames, i, k);
    }
    assert (forall i | 0 <= i < |frames| :: WellFormed(frames[i])) ==> WellFormed(f) by {
      if forall i | 0 <= i < |frames| :: WellFormed(frames[i]) {
        forall r | r in f.rows ensures r.Keys <= f.columns {
          AllRowsInSomeFrame(frames, r);
          var i :| 0 <= i < |frames| && r in frames[i].rows;
          assert forall c | c in r :: InSomeHeader(frames, c);
        }
      }
    }
    f
  }

  lemma {:induction false} AllRowsAppend(a: seq<Frame>, b: seq<Frame>)
    ensures AllRows(a + b) == AllRows(a) + AllRows(b)
    decreases |a|
  {
    if a == [] {
      assert a + b == b;
    } else {
      var ab := a + b;
      assert ab[0] == a[0] && ab[1..] == a[1..] + b;
      AllRowsAppend(a[1..], b);
      assert AllRows(ab) == a[0].rows + AllRows(ab[1..]);
    }
  }

  /** Concatenation respects the order of the frames: concatenating two runs
      of frames puts all rows of the first run before all rows of the second. */
  lemma ConcatAppend(a: seq<Frame>, b: seq<Frame>)
    ensures Concat(a + b).rows == Concat(a).rows + Concat(b).rows
  {
    AllRowsAppend(a, b);
  }

  /** Keeps the first row of each key not in `seen`, in order. */
  function DedupFrom(rows: seq<Row>, seen: set<Option<string>>): seq<Row>
    decreases |rows|
  {
    if rows == [] then []
    else if Key(rows[0]) in seen then DedupFrom(rows[1..], seen)
    else [rows[0]] + DedupFrom(rows[1..], seen + {Key(rows[0])})
  }

  lemma {:induction false} DedupFromSound(rows: seq<Row>, seen: set<Option<string>>)
    ensures UniqueKeys(DedupFrom(rows, seen))
    ensures KeySet(DedupFrom(rows, seen)) == KeySet(rows) - seen
    ensures SubsequenceOf(DedupFrom(rows, seen), rows)
    decreases |rows|
  {
    if rows != [] {
      var x, tail := rows[0], rows[1..];
      assert rows == [x] + tail;
      assert KeySet(rows) == {Key(x)} + KeySet(tail);
      if Key(x) in seen {
        DedupFromSound(tail, seen);
        SubsequenceCons(x, DedupFrom(tail, seen), tail);
      } else {
        var rest := DedupFrom(tail, seen + {Key(x)});
        DedupFromSound(tail, seen + {Key(x)});
        SubsequenceCons(x, rest, tail);
        var res := [x] + rest;
        assert KeySet(res) == {Key(x)} + KeySet(rest);
        forall i, j | 0 <= i < j < |res| ensures Key(res[i]) != Key(res[j]) {
          if i == 0 {
            assert res[j] in rest;
          } else {
            assert res[i] == rest[i - 1] && res[j] == rest[j - 1];
          }
        }
      }
    }
  }

  /** Every first occurrence of a key outside `seen` is kept. */
  lemma {:induction false} DedupFromKeepsFirst(rows: seq<Row>, seen: set<Option<string>>, i: int)
    requires 0 <= i < |rows| && IsFirstOccurrence(rows, i) && Key(rows[i]) !in seen
    ensures rows[i] in DedupFrom(rows, seen)
    decreases |rows|
  {
    if i > 0 {
      var tail := rows[1..];
      assert IsFirstOccurrence(tail, i - 1) by {
        forall k | 0 <= k < i - 1 ensures Key(tail[k]) != Key(tail[i - 1]) {
          assert Key(rows[k + 1]) != Key(rows[i]);
        }
      }
      assert Key(rows[0]) != Key(rows[i]);
      if Key(rows[0]) in seen {
        DedupFromKeepsFirst(tail, seen, i - 1);
      } else {
        DedupFromKeepsFirst(tail, seen + {Key(rows[0])}, i - 1);
      }
    }
  }

  /** The tail of a sequence with unique keys has unique keys, none of them the head's. */
  lemma UniqueKeysTail(rows: seq<Row>)
    requires UniqueKeys(rows) && rows != []
    ensures UniqueKeys(rows[1..])
    ensures Key(rows[0]) !in KeySet(rows[1..])
  {
  }

  /** With no key repeated and none already seen, nothing is dropped. */
  lemma {:induction false} DedupFromDistinct(rows: seq<Row>, seen: set<Option<string>>)
    requires UniqueKeys(rows) && KeySet(rows) !! seen
    ensures DedupFrom(rows, seen) == rows
    decreases |rows|
  {
    if rows != [] {
      var tail := rows[1..];
      assert rows == [rows[0]] + tail;
      UniqueKeysTail(rows);
      assert KeySet(rows) == {Key(rows[0])} + KeySet(tail);
      DedupFromDistinct(tail, seen + {Key(rows[0])});
    }
  }

  /** `res` is the rows of `rows` at the increasing positions `idx`, each the
      first occurrence of a key outside `seen`. */
  ghost predicate KeptAt(res: seq<Row>, rows: seq<Row>, idx: seq<int>, seen: set<Option<string>>)
  {
    && |idx| == |res|
    && (forall k | 0 <= k < |idx| :: 0 <= idx[k] < |rows| && res[k] == rows[idx[k]]
                                   && IsFirstOccurrence(rows, idx[k]) && Key(rows[idx[k]]) !in seen)
    && (forall k, l | 0 <= k < l < |idx| :: idx[k] < idx[l])
  }

  /** Every first occurrence of a key outside `seen` is at one of the positions `idx`. */
  ghost predicate CoversFirstOccurrences(rows: seq<Row>, idx: seq<int>, seen: set<Option<string>>)
  {
    forall i | 0 <= i < |rows| && IsFirstOccurrence(rows, i) && Key(rows[i]) !in seen :: i in idx
  }

  /** `res` is exactly the first occurrences of the keys outside `seen`, in input order. */
  ghost predicate FirstOccurrencesAt(res: seq<Row>, rows: seq<Row>, idx: seq<int>, seen: set<Option<string>>)
  {
    KeptAt(res, rows, idx, seen) && CoversFirstOccurrences(rows, idx, seen)
  }

  /** A first occurrence in the tail, with a key other than the head's, is one in the whole sequence. */
  lemma FirstOccurrenceCons(rows: seq<Row>, j: int)
    requires rows != [] && 0 <= j < |rows| - 1 && IsFirstOccurrence(rows[1..], j)
    requires Key(rows[0]) != Key(rows[j + 1])
    ensures IsFirstOccurrence(rows, j + 1)
  {
    forall k | 0 <= k < j + 1 ensures Key(rows[k]) != Key(rows[j + 1]) {
      if k > 0 { assert rows[k] == rows[1..][k - 1]; }
    }
  }

  /** A first occurrence past the head is one in the tail, and its key is not the head's. */
  lemma FirstOccurrenceTail(rows: seq<Row>, i: int)
    requires 0 < i < |rows| && IsFirstOccurrence(rows, i)
    ensures IsFirstOccurrence(rows[1..], i - 1) && Key(rows[0]) != Key(rows[i])
  {
    forall k | 0 <= k < i - 1 ensures Key(rows[1..][k]) != Key(rows[1..][i - 1]) {
      assert rows[1..][k] == rows[k + 1];
    }
  }

  /** Shifts positions in the tail to positions in the whole sequence. */
  function Shifted(idx: seq<int>): (s: seq<int>)
    ensures |s| == |idx| && forall k | 0 <= k < |idx| :: s[k] == idx[k] + 1
  {
    seq(|idx|, k requires 0 <= k < |idx| => idx[k] + 1)
  }

  /** Position 0 followed by the tail's positions, shifted. */
  function ConsShifted(idx: seq<int>): (s: seq<int>)
    ensures |s| == |idx| + 1 && s[0] == 0 && forall k | 0 < k < |s| :: s[k] == idx[k - 1] + 1
  {
    seq(|idx| + 1, k requires 0 <= k <= |idx| => if k == 0 then 0 else idx[k - 1] + 1)
  }

  /** A head whose key was already seen is skipped: the tail's positions, shifted. */
  lemma SkipStep(rows: seq<Row>, seen: set<Option<string>>, t: seq<int>) returns (idx: seq<int>)
    requires rows != [] && Key(rows[0]) in seen
    requires FirstOccurrencesAt(DedupFrom(rows[1..], seen), rows[1..], t, seen)
    ensures FirstOccurrencesAt(DedupFrom(rows, seen), rows, idx, seen)
  {
    var tail := rows[1..];
    idx := Shifted(t);
    var res := DedupFrom(rows, seen);
    assert res == DedupFrom(tail, seen);
    forall k | 0 <= k < |idx|
      ensures 0 <= idx[k] < |rows| && res[k] == rows[idx[k]]
      ensures IsFirstOccurrence(rows, idx[k]) && Key(rows[idx[k]]) !in seen
    {
      assert rows[t[k] + 1] == tail[t[k]];
      FirstOccurrenceCons(rows, t[k]);
    }
    forall i | 0 <= i < |rows| && IsFirstOccurrence(rows, i) && Key(rows[i]) !in seen ensures i in idx {
      FirstOccurrenceTail(rows, i);
      var k :| 0 <= k < |t| && t[k] == i - 1;
      assert idx[k] == i;
    }
  }

  /** One position of the result once the head is kept: position 0 is the head,
      position k > 0 is the tail's row at position t[k - 1]. */
  lemma KeepStepAt(rows: seq<Row>, seen: set<Option<string>>, t: seq<int>, k: int)
    requires rows != [] && Key(rows[0]) !in seen
    requires |t| == |DedupFrom(rows[1..], seen + {Key(rows[0])})| && 0 <= k <= |t|
    requires 0 < k ==> && 0 <= t[k - 1] < |rows| - 1
                       && DedupFrom(rows[1..], seen + {Key(rows[0])})[k - 1] == rows[1..][t[k - 1]]
                       && IsFirstOccurrence(rows[1..], t[k - 1])
                       && Key(rows[1..][t[k - 1]]) !in seen + {Key(rows[0])}
    ensures var idx, res := ConsShifted(t), DedupFrom(rows, seen);
            && |res| == |idx| && 0 <= idx[k] < |rows| && res[k] == rows[idx[k]]
            && IsFirstOccurrence(rows, idx[k]) && Key(rows[idx[k]]) !in seen
  {
    var rest := DedupFrom(rows[1..], seen + {Key(rows[0])});
    var res := DedupFrom(rows, seen);
    assert res == [rows[0]] + rest;
    if k > 0 {
      var j := t[k - 1];
      assert rows[j + 1] == rows[1..][j];
      FirstOccurrenceCons(rows, j);
      assert res[k] == rest[k - 1];
    }
  }

  /** The kept head and the tail's kept rows, at their positions in the whole sequence. */
  lemma KeepStepKept(rows: seq<Row>, seen: set<Option<string>>, t: seq<int>)
    requires rows != [] && Key(rows[0]) !in seen
    requires KeptAt(DedupFrom(rows[1..], seen + {Key(rows[0])}), rows[1..], t, seen + {Key(rows[0])})
    ensures KeptAt(DedupFrom(rows, seen), rows, ConsShifted(t), seen)
  {
    var idx, res := ConsShifted(t), DedupFrom(rows, seen);
    KeepStepAt(rows, seen, t, 0);
    forall k | 0 <= k < |idx|
      ensures 0 <= idx[k] < |rows| && res[k] == rows[idx[k]]
      ensures IsFirstOccurrence(rows, idx[k]) && Key(rows[idx[k]]) !in seen
    {
      KeepStepAt(rows, seen, t, k);
    }
    ConsShiftedIncreasing(t);
  }

  lemma ConsShiftedIncreasing(t: seq<int>)
    requires forall k, l | 0 <= k < l < |t| :: t[k] < t[l]
    requires forall k | 0 <= k < |t| :: 0 <= t[k]
    ensures forall k, l | 0 <= k < l < |ConsShifted(t)| :: ConsShifted(t)[k] < ConsShifted(t)[l]
  {
    var idx := ConsShifted(t);
    forall k, l | 0 <= k < l < |idx| ensures idx[k] < idx[l] {
      assert idx[l] == t[l - 1] + 1;
      if k > 0 { assert idx[k] == t[k - 1] + 1; }
    }
  }

  /** Every first occurrence is covered once the head is kept. */
  lemma KeepStepCovers(rows: seq<Row>, seen: set<Option<string>>, t: seq<int>)
    requires rows != [] && Key(rows[0]) !in seen
    requires CoversFirstOccurrences(rows[1..], t, seen + {Key(rows[0])})
    ensures CoversFirstOccurrences(rows, ConsShifted(t), seen)
  {
    var tail, idx := rows[1..], ConsShifted(t);
    forall i | 0 <= i < |rows| && IsFirstOccurrence(rows, i) && Key(rows[i]) !in seen ensures i in idx {
      if i > 0 {
        FirstOccurrenceTail(rows, i);
        assert tail[i - 1] == rows[i];
        var k :| 0 <= k < |t| && t[k] == i - 1;
        assert idx[k + 1] == i;
      }
    }
  }

  /** The rows `DedupFrom` keeps are the first occurrences of the unseen keys, in input order. */
  lemma {:induction false} DedupFromPositions(rows: seq<Row>, seen: set<Option<string>>) returns (idx: seq<int>)
    ensures FirstOccurrencesAt(DedupFrom(rows, seen), rows, idx, seen)
    decreases |rows|
  {
    if rows == [] {
      idx := [];
    } else if Key(rows[0]) in seen {
      var t := DedupFromPositions(rows[1..], seen);
      idx := SkipStep(rows, seen, t);
    } else {
      var t := DedupFromPositions(rows[1..], seen + {Key(rows[0])});
      idx := ConsShifted(t);
      KeepStepKept(rows, seen, t);
      KeepStepCovers(rows, seen, t);
    }
  }

  lemma DedupFromFirstOccurrences(rows: seq<Row>)
    ensures exists idx :: FirstOccurrencesAt(DedupFrom(rows, {}), rows, idx, {})
  {
    var idx := DedupFromPositions(rows, {});
  }

  /** The row kept for a key is the first row that carries it. */
  lemma DedupKeepsFirstRow(rows: seq<Row>, i: int, j: int)
    requires 0 <= i < |rows| && IsFirstOccurrence(rows, i)
    requires 0 <= j < |DedupFrom(rows, {})| && Key(DedupFrom(rows, {})[j]) == Key(rows[i])
    ensures DedupFrom(rows, {})[j] == rows[i]
  {
    var res := DedupFrom(rows, {});
    DedupFromSound(rows, {});
    DedupFromKeepsFirst(rows, {}, i);
    var k :| 0 <= k < |res| && res[k] == rows[i];
    assert k == j;
  }

  /** `drop_duplicates(subset=['name'], keep='first')`. */
  function DropDuplicates(rows: seq<Row>): (res: seq<Row>)
    // names are unique in the result
    ensures UniqueKeys(res)
    // no name is lost, and no new one appears
    ensures KeySet(res) == KeySet(rows)
    // rows keep their relative order, and each of them comes from the input
    ensures SubsequenceOf(res, rows)
    ensures forall r | r in res :: r in rows
    ensures |res| <= |rows|
    // the row kept for a name is the first row that carries it
    ensures forall i, j | 0 <= i < |rows| && 0 <= j < |res| && IsFirstOccurrence(rows, i)
                       && Key(res[j]) == Key(rows[i]) :: res[j] == rows[i]
    // the result is exactly the first row of each name, in input order
    ensures exists idx :: FirstOccurrencesAt(res, rows, idx, {})
    // with no name repeated, every row is kept
    ensures UniqueKeys(rows) ==> res == rows
  {
    DedupFromFirstOccurrences(rows);
    DedupFromSound(rows, {});
    SubsequenceMembers(DedupFrom(rows, {}), rows);
    SubsequenceLength(DedupFrom(rows, {}), rows);
    assert forall i, j | 0 <= i < |rows| && 0 <= j < |DedupFrom(rows, {})| && IsFirstOccurrence(rows, i)
                      && Key(DedupFrom(rows, {})[j]) == Key(rows[i]) :: DedupFrom(rows, {})[j] == rows[i] by {
      forall i, j | 0 <= i < |rows| && 0 <= j < |DedupFrom(rows, {})| && IsFirstOccurrence(rows, i)
                 && Key(DedupFrom(rows, {})[j]) == Key(rows[i])
        ensures DedupFrom(rows, {})[j] == rows[i]
      {
        DedupKeepsFirstRow(rows, i, j);
      }
    }
    assert UniqueKeys(rows) ==> DedupFrom(rows, {}) == rows by {
      if UniqueKeys(rows) { DedupFromDistinct(rows, {}); }
    }
    DedupFrom(rows, {})
  }

  /** One row after `fillna("")`: a cell in every column of the header,
      the empty string where the value was missing. */
  function FillRow(r: Row, columns: set<Column>): (filled: Row)
    requires r.Keys <= columns
    ensures filled.Keys == columns
    ensures forall c | c in r :: filled[c] == r[c]
    ensures forall c | c in columns && c !in r :: filled[c] == ""
  {
    map c | c in columns :: if c in r then r[c] else ""
  }

  /** `fillna("")` over a whole frame. */
  function FillNa(f: Frame): (g: Frame)
    requires WellFormed(f)
    ensures g.columns == f.columns && |g.rows| == |f.rows|
    // no cell is missing afterwards
    ensures forall i | 0 <= i < |g.rows| :: g.rows[i].Keys == f.columns
    // the cells that held a value keep it
    ensures forall i, c | 0 <= i < |f.rows| && c in f.rows[i] :: g.rows[i][c] == f.rows[i][c]
    // the missing ones are now empty strings
    ensures forall i, c | 0 <= i < |f.rows| && c in f.columns && c !in f.rows[i] :: g.rows[i][c] == ""
  {
    Frame(f.columns, seq(|f.rows|, i requires 0 <= i < |f.rows| => FillRow(f.rows[i], f.columns)))
  }

  /** With unique keys there are as many keys as rows. */
  lemma {:induction false} UniqueKeysCount(rows: seq<Row>)
    requires UniqueKeys(rows)
    ensures |KeySet(rows)| == |rows|
    decreases |rows|
  {
    if rows != [] {
      var tail := rows[1..];
      assert rows == [rows[0]] + tail;
      UniqueKeysTail(rows);
      UniqueKeysCount(tail);
      assert KeySet(rows) == {Key(rows[0])} + KeySet(tail);
    }
  }

  /** After dropping duplicates there is one row per distinct name. */
  lemma DropDuplicatesCount(rows: seq<Row>)
    ensures |DropDuplicates(rows)| == |KeySet(rows)|
  {
    UniqueKeysCount(DropDuplicates(rows));
  }

  /** Filling keeps names distinct, provided no name was the empty string
      before the fill (then a missing name, filled with "", clashes with none). */
  lemma FilledNamesUnique(f: Frame)
    requires WellFormed(f) && NameColumn in f.columns
    requires UniqueKeys(f.rows)
    requires forall r | r in f.rows :: Key(r) != Some("")
    ensures forall i, j | 0 <= i < j < |FillNa(f).rows| ::
              FillNa(f).rows[i][NameColumn] != FillNa(f).rows[j][NameColumn]
  {
  }

  /** The filled name of a row is its name, or "" when it had none. */
  lemma FilledName(f: Frame, i: int)
    requires WellFormed(f) && NameColumn in f.columns && 0 <= i < |f.rows|
    ensures FillNa(f).rows[i][NameColumn] == match Key(f.rows[i]) case Some(n) => n case None => ""
  {
  }

  /** The first row with a key is kept, at a position no other kept row shares its key with. */
  lemma FirstRowPosition(rows: seq<Row>, i: int) returns (j: int)
    requires 0 <= i < |rows| && IsFirstOccurrence(rows, i)
    ensures 0 <= j < |DropDuplicates(rows)| && DropDuplicates(rows)[j] == rows[i]
    ensures forall k | 0 <= k < |DropDuplicates(rows)| && k != j :: Key(DropDuplicates(rows)[k]) != Key(rows[i])
  {
    var res := DropDuplicates(rows);
    assert rows[i] in rows;
    assert Key(rows[i]) in KeySet(res);
    j :| 0 <= j < |res| && Key(res[j]) == Key(rows[i]);
  }

  /** After de-duplication and the fill, a non-empty name is carried by exactly
      one row: the filled first row with that name. */
  lemma FirstRowKept(f: Frame, name: string, i: int)
    requires WellFormed(f) && NameColumn in f.columns && name != ""
    requires 0 <= i < |f.rows| && Key(f.rows[i]) == Some(name) && IsFirstOccurrence(f.rows, i)
    ensures var g := FillNa(Frame(f.columns, DropDuplicates(f.rows)));
            exists j | 0 <= j < |g.rows| ::
              && Key(g.rows[j]) == Some(name)
              && (forall c | c in f.rows[i] :: c in g.rows[j] && g.rows[j][c] == f.rows[i][c])
              && forall k | 0 <= k < |g.rows| && k != j :: Key(g.rows[k]) != Some(name)
  {
    var unique := Frame(f.columns, DropDuplicates(f.rows));
    var g := FillNa(unique);
    var j := FirstRowPosition(f.rows, i);
    FilledName(unique, j);
    forall k | 0 <= k < |g.rows| && k != j ensures Key(g.rows[k]) != Some(name) {
      FilledName(unique, k);
    }
  }
}
