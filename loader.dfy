/** `load_data` (flower_app.py:88-111): read every discovered CSV file with the
    encoding fallback utf-8, shift_jis, cp932, skip the files that cannot be
    read (with a warning), then merge what was read. */
module Loader {
  import opened Common
  import opened Frames

  datatype Encoding = Utf8 | ShiftJis | Cp932

  /** What one call `pd.read_csv(path, encoding=e)` does: it returns a frame or
      raises; `decodeError` tells a UnicodeDecodeError from any other exception,
      and `detail` is the exception's text. */
  datatype Attempt = Parsed(frame: Frame) | Raised(decodeError: bool, detail: string)

  /** A discovered file: its path and what reading it under each encoding gives. */
  datatype CsvFile = CsvFile(path: string, utf8: Attempt, shiftJis: Attempt, cp932: Attempt)

  function AttemptWith(f: CsvFile, e: Encoding): Attempt
  {
    match e
    case Utf8 => f.utf8
    case ShiftJis => f.shiftJis
    case Cp932 => f.cp932
  }

  /** The parser only yields frames whose cells lie in their header. */
  predicate ParsesWellFormed(f: CsvFile)
  {
    forall e: Encoding :: AttemptWith(f, e).Parsed? ==> WellFormed(AttemptWith(f, e).frame)
  }

  /** The outcome for one file: the frame read, or the text of the exception
      that reached the outer handler. */
  datatype ReadOutcome = Read(frame: Frame) | Skipped(detail: string)

  /** The encodings `read_csv` is called with, in call order: shift_jis only
      after utf-8 raised a UnicodeDecodeError, cp932 only after shift_jis raised
      anything. */
  function TriedEncodings(f: CsvFile): (es: seq<Encoding>)
    ensures 1 <= |es| <= 3 && es == [Utf8, ShiftJis, Cp932][..|es|]
    // a further encoding is tried exactly when the previous one raised, and
    // after utf-8 only when that was a decoding error
    ensures |es| >= 2 <==> f.utf8.Raised? && f.utf8.decodeError
    ensures |es| == 3 <==> |es| >= 2 && f.shiftJis.Raised?
  {
    if f.utf8.Parsed? || !f.utf8.decodeError then [Utf8]
    else if f.shiftJis.Parsed? then [Utf8, ShiftJis]
    else [Utf8, ShiftJis, Cp932]
  }

  /** The nested `try` blocks of flower_app.py:94-104 for one file. */
  function ReadCsv(f: CsvFile): (r: ReadOutcome)
    // a file is read iff one of the three encodings parses it, unless utf-8
    // failed with an error other than a decoding error
    ensures r.Read? <==> f.utf8.Parsed? || (f.utf8.decodeError && (f.shiftJis.Parsed? || f.cp932.Parsed?))
  {
    match f.utf8
    case Parsed(t) => Read(t)
    case Raised(isDecodeError, detail) =>
      if !isDecodeError then Skipped(detail)
      else
        match f.shiftJis
        case Parsed(t) => Read(t)
        case Raised(_, _) =>
          match f.cp932
          case Parsed(t) => Read(t)
          case Raised(_, detail3) => Skipped(detail3)
  }

  /** The outcome of a file is that of the last encoding tried, and every
      earlier one raised. */
  lemma ReadCsvDecidedByLastTried(f: CsvFile)
    ensures var es := TriedEncodings(f);
            var last := AttemptWith(f, es[|es| - 1]);
            && (if last.Parsed? then ReadCsv(f) == Read(last.frame) else ReadCsv(f) == Skipped(last.detail))
            && forall k | 0 <= k < |es| - 1 :: AttemptWith(f, es[k]).Raised?
  {
  }

  /** The frames one file contributes: its frame if it was read. */
  function FramesOf(f: CsvFile): seq<Frame>
  {
    match ReadCsv(f) case Read(t) => [t] case Skipped(_) => []
  }

  /** The warnings one file contributes: one if it was skipped. */
  function WarningsOf(f: CsvFile): seq<string>
  {
    match ReadCsv(f) case Read(_) => [] case Skipped(d) => [WarningText(f.path, d)]
  }

  /** The text of the warning shown for a skipped file. */
  function WarningText(path: string, detail: string): string
  {
    "CSV読込エラー: " + path + " - " + detail
  }

  /** The frames appended to `df_list`, in file order. */
  function ParsedFrames(files: seq<CsvFile>): seq<Frame>
    decreases |files|
  {
    if files == [] then []
    else
      ParsedFrames(files[..|files| - 1]) + FramesOf(files[|files| - 1])
  }

  /** The warnings shown, in file order. */
  function Warnings(files: seq<CsvFile>): seq<string>
    decreases |files|
  {
    if files == [] then []
    else
      Warnings(files[..|files| - 1]) + WarningsOf(files[|files| - 1])
  }

  /** What `load_data` returns: None (no file found, or none could be read),
      the merged frame, or the KeyError `drop_duplicates` raises when no frame
      read has a `name` column (outside any `try`, so it ends the script). */
  datatype LoadResult = NoData | Loaded(frame: Frame) | NameColumnMissing

  lemma ParsedFramesWellFormed(files: seq<CsvFile>)
    requires forall f | f in files :: ParsesWellFormed(f)
    ensures forall i | 0 <= i < |ParsedFrames(files)| :: WellFormed(ParsedFrames(files)[i])
    decreases |files|
  {
    if files != [] {
      var init := files[..|files| - 1];
      assert forall f | f in init :: f in files;
      ParsedFramesWellFormed(init);
      var last := files[|files| - 1];
      assert ParsesWellFormed(last);
      assert ReadCsv(last).Read? ==> WellFormed(ReadCsv(last).frame) by {
        ReadCsvDecidedByLastTried(last);
      }
    }
  }

  /** The merge of flower_app.py:105-111 applied to the frames read. */
  function Merge(frames: seq<Frame>): (r: LoadResult)
    requires forall i | 0 <= i < |frames| :: WellFormed(frames[i])
  {
    if frames == [] then NoData
    else
      var merged := Concat(frames);
      if NameColumn !in merged.columns then NameColumnMissing
      else Loaded(FillNa(Frame(merged.columns, DropDuplicates(merged.rows))))
  }

  /** `load_data` as a function of the discovered files, in discovery order. */
  function Load(files: seq<CsvFile>): (r: LoadResult)
    requires forall f | f in files :: ParsesWellFormed(f)
  {
    ParsedFramesWellFormed(files);
    if files == [] then NoData else Merge(ParsedFrames(files))
  }

  /** The loop of flower_app.py:89-111. */
  method LoadData(files: seq<CsvFile>) returns (result: LoadResult, warnings: seq<string>)
    requires forall f | f in files :: ParsesWellFormed(f)
    ensures result == Load(files)
    ensures warnings == Warnings(files)
  {
    warnings := [];
    if |files| == 0 {
      return NoData, warnings;
    }
    var frameList: seq<Frame> := [];
    var i := 0;
    while i < |files|
      invariant 0 <= i <= |files|
      invariant frameList == ParsedFrames(files[..i])
      invariant warnings == Warnings(files[..i])
    {
      assert files[..i + 1][..i] == files[..i];
      var outcome := ReadCsv(files[i]);
      match outcome {
        case Read(t) =>
          frameList := frameList + [t];
        case Skipped(detail) =>
          warnings := warnings + [WarningText(files[i].path, detail)];
      }
      i := i + 1;
    }
    assert files[..i] == files;
    ParsedFramesWellFormed(files);
    if |frameList| > 0 {
      var merged := Concat(frameList);
      if NameColumn !in merged.columns {
        return NameColumnMissing, warnings;
      }
      var unique := Frame(merged.columns, DropDuplicates(merged.rows));
      result := Loaded(FillNa(unique));
    } else {
      result := NoData;
    }
  }

  /** Reading a run of files and then another reads each run in turn:
      frames and warnings keep discovery order. */
  lemma {:induction false} ParsedFramesAppend(a: seq<CsvFile>, b: seq<CsvFile>)
    ensures ParsedFrames(a + b) == ParsedFrames(a) + ParsedFrames(b)
    ensures Warnings(a + b) == Warnings(a) + Warnings(b)
    decreases |b|
  {
    if b == [] {
      assert a + b == a;
    } else {
      var init := b[..|b| - 1];
      assert (a + b)[..|a + b| - 1] == a + init;
      assert (a + b)[|a + b| - 1] == b[|b| - 1];
      ParsedFramesAppend(a, init);
    }
  }

  /** Each file gives either one frame or one warning. */
  lemma {:induction false} ParsedFramesCount(files: seq<CsvFile>)
    ensures |ParsedFrames(files)| + |Warnings(files)| == |files|
    decreases |files|
  {
    if files != [] {
      ParsedFramesCount(files[..|files| - 1]);
    }
  }

  /** No frame is read exactly when every file is skipped. */
  lemma {:induction false} ParsedFramesEmpty(files: seq<CsvFile>)
    ensures ParsedFrames(files) == [] <==> forall i | 0 <= i < |files| :: ReadCsv(files[i]).Skipped?
    decreases |files|
  {
    if files != [] {
      var init := files[..|files| - 1];
      ParsedFramesEmpty(init);
      assert forall i | 0 <= i < |init| :: init[i] == files[i];
    }
  }

  /** `load_data` returns None exactly when no file was found or none could be read. */
  lemma LoadNoData(files: seq<CsvFile>)
    requires forall f | f in files :: ParsesWellFormed(f)
    ensures Load(files) == NoData <==> forall i | 0 <= i < |files| :: ReadCsv(files[i]).Skipped?
  {
    ParsedFramesEmpty(files);
  }

  /** `drop_duplicates` raises KeyError exactly when some file was read but no
      file read has a `name` column. */
  lemma LoadNameColumnMissing(files: seq<CsvFile>)
    requires forall f | f in files :: ParsesWellFormed(f)
    ensures Load(files) == NameColumnMissing <==>
            ParsedFrames(files) != [] && forall i | 0 <= i < |ParsedFrames(files)| :: NameColumn !in ParsedFrames(files)[i].columns
  {
  }

  /** A file that cannot be read only adds a warning: the others are loaded as before. */
  lemma SkippedFileIgnored(a: seq<CsvFile>, f: CsvFile, b: seq<CsvFile>)
    requires ReadCsv(f).Skipped?
    ensures ParsedFrames(a + [f] + b) == ParsedFrames(a + b)
    ensures Warnings(a + [f] + b) == Warnings(a) + [WarningText(f.path, ReadCsv(f).detail)] + Warnings(b)
  {
    var w := WarningText(f.path, ReadCsv(f).detail);
    var af := a + [f];
    assert ParsedFrames(af) == ParsedFrames(a) && Warnings(af) == Warnings(a) + [w] by {
      assert af[..|af| - 1] == a && af[|af| - 1] == f;
    }
    ParsedFramesAppend(af, b);
    ParsedFramesAppend(a, b);
  }

  /** The properties of a successful load, stated over the rows of all frames read. */
  lemma LoadedFrame(files: seq<CsvFile>)
    requires forall f | f in files :: ParsesWellFormed(f)
    requires Load(files).Loaded?
    ensures var frames := ParsedFrames(files);
            var merged := Concat(frames);
            var g := Load(files).frame;
            && frames != []
            && NameColumn in g.columns
            && g.columns == merged.columns
            // no cell is missing
            && (forall i | 0 <= i < |g.rows| :: g.rows[i].Keys == g.columns)
            // one row per distinct name, so never more rows than were read
            && |g.rows| == |KeySet(merged.rows)| <= TotalRows(frames)
            && (UniqueKeys(merged.rows) ==> |g.rows| == TotalRows(frames))
  {
    ParsedFramesWellFormed(files);
    var merged := Concat(ParsedFrames(files));
    DropDuplicatesCount(merged.rows);
  }

  /** A successful load is the filled de-duplication of the concatenated frames. */
  lemma LoadedIsMerged(files: seq<CsvFile>)
    requires forall f | f in files :: ParsesWellFormed(f)
    requires Load(files).Loaded?
    ensures var merged := Concat(ParsedFrames(files));
            && WellFormed(merged) && NameColumn in merged.columns
            && Load(files).frame == FillNa(Frame(merged.columns, DropDuplicates(merged.rows)))
  {
    ParsedFramesWellFormed(files);
  }

  /** The row kept for a name is the earliest row with that name, in file
      order then row order, and it is the only row with that name. */
  lemma FirstRowWins(files: seq<CsvFile>, name: string, i: int)
    requires forall f | f in files :: ParsesWellFormed(f)
    requires Load(files).Loaded?
    requires name != ""
    requires var merged := Concat(ParsedFrames(files));
             0 <= i < |merged.rows| && Key(merged.rows[i]) == Some(name) && IsFirstOccurrence(merged.rows, i)
    ensures var merged := Concat(ParsedFrames(files));
            var g := Load(files).frame;
            exists j | 0 <= j < |g.rows| ::
              && Key(g.rows[j]) == Some(name)
              // it carries the cells of that earliest row
              && (forall c | c in merged.rows[i] :: c in g.rows[j] && g.rows[j][c] == merged.rows[i][c])
              && forall k | 0 <= k < |g.rows| && k != j :: Key(g.rows[k]) != Some(name)
  {
    LoadedIsMerged(files);
    FirstRowKept(Concat(ParsedFrames(files)), name, i);
  }
}
