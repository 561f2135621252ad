/**
 * `MedicareFile` of `cms/tools/mcr_file.py`: one Medicare dataset, made of
 * a layout document `<name>.fts` and data files `<name>*.dat` in a
 * directory, converted into `<name>.csv.gz` in a destination directory.
 * The file system is a value handed to each operation.
 */
module McrFile {
  import opened Wrappers
  import opened PyText
  import opened PyPath
  import opened McrLayout
  import opened McrRecord
  import opened McrExport
  import opened McrStatus

  /**
   * The files the class reads, by path: layout documents as their lines,
   * `.dat` files as bytes and `.csv.gz` files as decompressed text, each
   * with the message of the exception reading it raises instead.
   */
  datatype Files = Files(
    layouts: map<string, seq<string>>,
    data: map<string, Result<seq<byte>, string>>,
    outputs: map<string, Result<string, string>>)

  /** The message of the `FileNotFoundError` `open` raises. */
  function NoSuchFile(path: string): string {
    "[Errno 2] No such file or directory: '" + path + "'"
  }

  /** Opening and reading a `.dat` file. */
  function Contents(fs: Files, path: string): Result<seq<byte>, string> {
    if path in fs.data then fs.data[path] else Err(NoSuchFile(path))
  }

  /** An optional argument Python treats as true: given and non-empty. */
  predicate Given(s: Option<string>) {
    s.Some? && s.value != []
  }

  /** `'.'.join([os.path.join(dir, name), "fts"])`. */
  function FtsPath(dirPath: string, fileName: string): string {
    JoinPath(dirPath, fileName) + ".fts"
  }

  /** `os.path.join(dest, '.'.join([name, "csv.gz"]))`. */
  function CsvPath(dest: string, fileName: string): string {
    JoinPath(dest, fileName + ".csv.gz")
  }

  /** What `__init__` derives from the layout document: the layout, the record length and the year. */
  datatype Setup = Setup(layout: Layout, blockSize: int, year: string)

  /**
   * `__init__`: the layout document must exist and parse, and its record
   * length must be an integer; the year defaults to the last four
   * characters of the name.
   */
  function SetupOf(fs: Files, dirPath: string, fileName: string, year: Option<string>): Result<Setup, LayoutError> {
    var fts := FtsPath(dirPath, fileName);
    if fts !in fs.layouts then Err(NotFound) else LoadOf(fs.layouts[fts], fileName, year)
  }

  /** What `__init__` derives from the lines of the layout document once it is found. */
  function LoadOf(lines: seq<string>, fileName: string, year: Option<string>): Result<Setup, LayoutError> {
    var layout :- ParseLayout(lines);
    SetupFrom(layout, fileName, year)
  }

  /** The record length and the year, once the layout document is parsed. */
  function SetupFrom(layout: Layout, fileName: string, year: Option<string>): Result<Setup, LayoutError> {
    var bs :- BlockSizeOf(layout.metadata);
    Ok(Setup(layout, bs, if Given(year) then year.value else Slice(fileName, -4, None)))
  }

  /** How `export` ends: every file read, a file that could not be opened, or a loop that stopped. */
  datatype ExportEnd = Completed | Unreadable(path: string, message: string) | Halted(stop: Stop)

  /** The rows `export` writes to the CSV, the outcome of each file it read, and how it ended. */
  datatype ExportRun = ExportRun(rows: seq<seq<Value>>, files: seq<DatResult>, end: ExportEnd)

  /** The block loop of `export` over the bytes of one `.dat` file, from fresh counters. */
  function FileRun(rd: Reader): seq<byte> -> DatResult {
    bytes => Run(rd, bytes, Fresh)
  }

  /** `export` over the `.dat` files in order, into one CSV, with `run` the block loop of one file. */
  function ExportFiles(run: seq<byte> -> DatResult, fs: Files, paths: seq<string>): ExportRun
    decreases |paths|
  {
    if paths == [] then ExportRun([], [], Completed)
    else
      match Contents(fs, paths[0])
      case Err(msg) => ExportRun([], [], Unreadable(paths[0], msg))
      case Ok(bytes) =>
        var res := run(bytes);
        if res.stop != Done then ExportRun(res.tally.rows, [res], Halted(res.stop))
        else
          var more := ExportFiles(run, fs, paths[1..]);
          ExportRun(res.tally.rows + more.rows, [res] + more.files, more.end)
  }

  /** `count_lines_in_source` opening the `.dat` files: their bytes, or the first error. */
  function SourcesOf(fs: Files, paths: seq<string>): Result<seq<seq<byte>>, string>
    decreases |paths|
  {
    if paths == [] then Ok([])
    else
      var first :- Contents(fs, paths[0]);
      var rest :- SourcesOf(fs, paths[1..]);
      Ok([first] + rest)
  }

  /** `os.path.isfile(self.csv)` and its content. */
  function DestOf(fs: Files, csv: string): Option<Result<string, string>> {
    if csv in fs.outputs then Some(fs.outputs[csv]) else None
  }

  /** `Not found` is raised exactly when the layout document does not exist. */
  lemma SetupMissing(fs: Files, dirPath: string, fileName: string, year: Option<string>)
    ensures SetupOf(fs, dirPath, fileName, year) == Err(NotFound) <==> FtsPath(dirPath, fileName) !in fs.layouts
  {
    var fts := FtsPath(dirPath, fileName);
    if fts in fs.layouts && ParseLayout(fs.layouts[fts]).Err? {
      ParseLayoutErrors(fs.layouts[fts]);
    }
  }

  /**
   * A dataset that opens has the record length of its metadata and the year
   * given, or else the last four characters of its name (the whole name
   * when it is shorter).
   */
  lemma SetupYear(fs: Files, dirPath: string, fileName: string, year: Option<string>)
    requires SetupOf(fs, dirPath, fileName, year).Ok?
    ensures var setup := SetupOf(fs, dirPath, fileName, year).value;
      && BlockSizeOf(setup.layout.metadata) == Ok(setup.blockSize)
      && (Given(year) ==> setup.year == year.value)
      && (!Given(year) && |fileName| >= 4 ==> setup.year == fileName[|fileName| - 4..])
      && (!Given(year) && |fileName| < 4 ==> setup.year == fileName)
  {
    var lines := fs.layouts[FtsPath(dirPath, fileName)];
    LoadGoesOn(lines, fileName, year, ParseLayout(lines).value);
    SetupFromYear(ParseLayout(lines).value, fileName, year);
  }

  /** The record length and the year that a parsed layout document sets up. */
  lemma SetupFromYear(layout: Layout, fileName: string, year: Option<string>)
    requires SetupFrom(layout, fileName, year).Ok?
    ensures var setup := SetupFrom(layout, fileName, year).value;
      && setup.layout == layout
      && BlockSizeOf(layout.metadata) == Ok(setup.blockSize)
      && (Given(year) ==> setup.year == year.value)
      && (!Given(year) && |fileName| >= 4 ==> setup.year == fileName[|fileName| - 4..])
      && (!Given(year) && |fileName| < 4 ==> setup.year == fileName)
  {
    assert fileName[0..] == fileName;
  }

  /** A layout document that exists is loaded. */
  lemma SetupFound(fs: Files, dirPath: string, fileName: string, year: Option<string>)
    requires FtsPath(dirPath, fileName) in fs.layouts
    ensures SetupOf(fs, dirPath, fileName, year) == LoadOf(fs.layouts[FtsPath(dirPath, fileName)], fileName, year)
  {
  }

  /** A layout document that does not parse stops the setup with the parser's error. */
  lemma LoadStops(lines: seq<string>, fileName: string, year: Option<string>)
    requires ParseLayout(lines).Err?
    ensures LoadOf(lines, fileName, year) == Err(ParseLayout(lines).error)
  {
  }

  /** A layout document that parses leaves the record length and the year to the setup. */
  lemma LoadGoesOn(lines: seq<string>, fileName: string, year: Option<string>, layout: Layout)
    requires ParseLayout(lines) == Ok(layout)
    ensures LoadOf(lines, fileName, year) == SetupFrom(layout, fileName, year)
  {
  }

  class MedicareFile {
    var dir: string
    var dest: string
    var name: string
    var fts: string
    var csv: string
    var dat: seq<string>
    var metadata: map<string, string>
    var columns: seq<Column>
    var blockSize: int
    var year: string

    /** The paths `__init__` derives from its arguments. */
    predicate Placed(dirPath: string, fileName: string, destPath: Option<string>, datPaths: seq<string>)
      reads this`dir, this`dest, this`name, this`fts, this`csv, this`dat
    {
      && dir == dirPath && dest == (if Given(destPath) then destPath.value else dirPath)
      && name == JoinPath(dirPath, fileName) && fts == FtsPath(dirPath, fileName)
      && csv == CsvPath(dest, fileName) && dat == datPaths
    }

    /** The metadata, columns, record length and year of a parsed layout document. */
    predicate Holds(setup: Setup)
      reads this`metadata, this`columns, this`blockSize, this`year
    {
      && metadata == setup.layout.metadata && columns == setup.layout.columns
      && blockSize == setup.blockSize && year == setup.year
    }

    /** The paths `__init__` sets, with no metadata and no columns yet. */
    constructor (dirPath: string, fileName: string, destPath: Option<string>, datPaths: seq<string>)
      ensures Placed(dirPath, fileName, destPath, datPaths)
      ensures metadata == map[] && columns == [] && blockSize == 0 && year == []
    {
      dir := dirPath;
      var destDir := if Given(destPath) then destPath.value else dirPath;
      dest := destDir;
      name := JoinPath(dirPath, fileName);
      fts := JoinPath(dirPath, fileName) + ".fts";
      csv := JoinPath(destDir, fileName + ".csv.gz");
      dat := datPaths;
      metadata := map[];
      columns := [];
      blockSize := 0;
      year := [];
    }

    /**
     * `MedicareFile(dir_path, name, year, dest)`: `Not found` without the
     * layout document, then `init`, the record length and the year; the
     * `.dat` paths are the ones `glob` lists.
     */
    static method Open(fs: Files, dirPath: string, fileName: string, year: Option<string>, destPath: Option<string>,
                       datPaths: seq<string>)
      returns (r: Result<MedicareFile, LayoutError>)
      ensures r.Err? ==> SetupOf(fs, dirPath, fileName, year) == Err(r.error)
      ensures r.Ok? ==> && SetupOf(fs, dirPath, fileName, year).Ok? && fresh(r.value)
                        && r.value.Placed(dirPath, fileName, destPath, datPaths)
                        && r.value.Holds(SetupOf(fs, dirPath, fileName, year).value)
    {
      var m := new MedicareFile(dirPath, fileName, destPath, datPaths);
      if m.fts !in fs.layouts {
        return Err(NotFound);
      }
      SetupFound(fs, dirPath, fileName, year);
      r := m.Load(fs.layouts[m.fts], fileName, year);
    }

    /** `__init__` once the layout document is found: `init`, then the record length and the year. */
    method Load(lines: seq<string>, fileName: string, year: Option<string>) returns (r: Result<MedicareFile, LayoutError>)
      requires metadata == map[] && columns == []
      modifies this`metadata, this`columns, this`blockSize, this`year
      ensures r.Err? ==> LoadOf(lines, fileName, year) == Err(r.error)
      ensures r.Ok? ==> r.value == this && LoadOf(lines, fileName, year).Ok? && Holds(LoadOf(lines, fileName, year).value)
    {
      var parsed := Init(lines);
      if parsed.Err? {
        LoadStops(lines, fileName, year);
        return Err(parsed.error);
      }
      LoadGoesOn(lines, fileName, year, Layout(metadata, columns));
      r := Finish(fileName, year);
    }

    /** The record length and the year of a parsed layout, the rest of `__init__`. */
    method Finish(fileName: string, year: Option<string>) returns (r: Result<MedicareFile, LayoutError>)
      modifies this`blockSize, this`year
      ensures r.Err? ==> SetupFrom(Layout(metadata, columns), fileName, year) == Err(r.error)
      ensures r.Ok? ==> && r.value == this && SetupFrom(Layout(metadata, columns), fileName, year).Ok?
                        && Holds(SetupFrom(Layout(metadata, columns), fileName, year).value)
    {
      var setup := SetupFrom(Layout(metadata, columns), fileName, year);
      if setup.Err? {
        return Err(setup.error);
      }
      SetSizes(setup.value.blockSize, setup.value.year);
      return Ok(this);
    }

    /** `self.block_size = ...` and `self.year = ...`. */
    method SetSizes(bs: int, y: string)
      modifies this`blockSize, this`year
      ensures blockSize == bs && year == y
    {
      blockSize := bs;
      year := y;
    }

    /**
     * `init`: the preamble fills the metadata up to the separator line, the
     * separator line gives the template, and each row up to the first line
     * that ends them is assigned into the columns under its short name.
     */
    method Init(lines: seq<string>) returns (r: Result<(), LayoutError>)
      requires metadata == map[] && columns == []
      modifies this`metadata, this`columns
      ensures r.Err? ==> ParseLayout(lines) == Err(r.error)
      ensures r.Ok? ==> ParseLayout(lines) == Ok(Layout(metadata, columns))
    {
      if |lines| == 0 {
        return Err(NoLines);
      }
      var i := 0;
      while i < |lines|
        invariant i <= |lines|
        invariant forall j :: 0 <= j < i ==> !IsSeparator(lines[j])
        invariant metadata == MetadataOf(lines[..i])
        invariant columns == []
      {
        var line := lines[i];
        if IsSeparator(line) {
          break;
        }
        if ':' in line {
          metadata := metadata[KeyOf(line) := ValueOf(line)];
        }
        assert lines[..i + 1][..i] == lines[..i];
        i := i + 1;
      }
      // a `for` loop that runs to its end leaves `i` at the last index
      if i == |lines| {
        assert lines[..i] == lines;
        i := |lines| - 1;
      }
      var k := i;
      assert k == HeaderEnd(lines);
      assert metadata == MetadataOf(PreambleOf(lines));
      var cdef :- MakeColumnDef(lines[k]);
      var cs := ReadRows(cdef, lines, k);
      if cs.Err? {
        return Err(cs.error);
      }
      columns := cs.value;
      return Ok(());
    }

    /**
     * The second loop of `init`: the lines after the separator line `k`,
     * each cut with the template and assigned under its short name, up to
     * the first line that ends the rows.
     */
    static method ReadRows(cdef: seq<Attribute>, lines: seq<string>, k: nat) returns (r: Result<seq<Column>, LayoutError>)
      requires ColumnDefConvs(cdef) && k < |lines|
      ensures r == ColumnsOf(cdef, RowsAfter(lines, k))
    {
      var columns: seq<Column> := [];
      var i := k;
      ghost var read := RowReader(cdef);
      ReadEachRow(cdef, RowsAfter(lines, k));
      while i < |lines| - 1
        invariant k <= i < RowsEnd(lines, k)
        invariant AssignAll(ReadEach(read, RowsAfter(lines, k))[..i - k]) == Ok(columns)
        decreases |lines| - i
      {
        var line := lines[i + 1];
        if EndsRows(line) {
          RowsStop(read, lines, k, i, columns);
          return Ok(columns);
        }
        var column := ReadColumn(cdef, line);
        RowsNext(read, lines, k, i, columns);
        if column.Err? {
          return Err(column.error);
        }
        columns := Insert(columns, column.value);
        i := i + 1;
      }
      RowsStop(read, lines, k, i, columns);
      return Ok(columns);
    }

    /** The record reader of this file: its columns, record length and year. */
    function ReaderWith(rt: Runtime): Reader
      reads this
    {
      Reader(columns, blockSize, year, rt)
    }

    /**
     * `export`: every `.dat` file in turn through the block loop, the rows
     * of all of them written to one CSV; an unreadable file or an exception
     * ends it.
     */
    method Export(fs: Files, rt: Runtime) returns (r: ExportRun)
      ensures r == ExportFiles(FileRun(ReaderWith(rt)), fs, dat)
    {
      var rd := Reader(columns, blockSize, year, rt);
      ghost var run := FileRun(rd);
      var rows: seq<seq<Value>> := [];
      var files: seq<DatResult> := [];
      for f := 0 to |dat|
        invariant ExportFiles(run, fs, dat) == Resumed(rows, files, ExportFiles(run, fs, dat[f..]))
      {
        assert dat[f..][1..] == dat[f + 1..];
        ExportNext(run, fs, dat[f..], rows, files);
        var bytes := Contents(fs, dat[f]);
        if bytes.Err? {
          return ExportRun(rows, files, Unreadable(dat[f], bytes.error));
        }
        var res := ExportDat(rd, bytes.value);
        if res.stop != Done {
          return ExportRun(rows + res.tally.rows, files + [res], Halted(res.stop));
        }
        rows := rows + res.tally.rows;
        files := files + [res];
      }
      assert dat[|dat|..] == [];
      return ExportRun(rows, files, Completed);
    }

    /**
     * `status`: `NONE` without a CSV, `EMPTY` when it has no line, then the
     * line feeds of the `.dat` files against its lines; an exception gives
     * `ERROR: ` and its message.
     */
    method Status(fs: Files) returns (s: string)
      ensures s == StatusText(StatusOf(DestOf(fs, csv), SourcesOf(fs, dat)))
    {
      if csv !in fs.outputs {
        return "NONE";
      }
      var text := fs.outputs[csv];
      if text.Err? {
        return "ERROR: " + text.error;
      }
      var l2 := CountLinesInDest(text.value);
      if l2 < 1 {
        return "EMPTY";
      }
      var sources := SourcesOf(fs, dat);
      if sources.Err? {
        return "ERROR: " + sources.error;
      }
      var l1 := CountLinesInSource(sources.value);
      if l1 != l2 {
        return "MISMATCH: " + IntToStr(l1) + "=>" + IntToStr(l2);
      }
      return "READY";
    }

    /** `status_message`: the layout path, then the status. */
    method StatusMessage(fs: Files) returns (s: string)
      ensures s == fts + ": " + StatusText(StatusOf(DestOf(fs, csv), SourcesOf(fs, dat)))
    {
      var status := Status(fs);
      return fts + ": " + status;
    }
  }

  /** The rows of the files, one file after the other. */
  function AllRows(files: seq<DatResult>): seq<seq<Value>>
    decreases |files|
  {
    if files == [] then [] else files[0].tally.rows + AllRows(files[1..])
  }

  /** `export` after a file the loop read to its end: that file's rows, then the rest of the files. */
  lemma ExportGoesOn(run: seq<byte> -> DatResult, fs: Files, paths: seq<string>)
    requires paths != [] && Contents(fs, paths[0]).Ok?
    requires run(Contents(fs, paths[0]).value).stop == Done
    ensures var res := run(Contents(fs, paths[0]).value);
      ExportFiles(run, fs, paths) == Resumed(res.tally.rows, [res], ExportFiles(run, fs, paths[1..]))
  {
  }

  /**
   * One turn of the loop of `export` after the files already read: an
   * unreadable file ends it, a file whose loop stops ends it with that
   * file's rows, and a file read to its end adds its rows and goes on.
   */
  lemma ExportNext(run: seq<byte> -> DatResult, fs: Files, paths: seq<string>, rows: seq<seq<Value>>, files: seq<DatResult>)
    requires paths != []
    ensures Contents(fs, paths[0]).Err? ==>
              Resumed(rows, files, ExportFiles(run, fs, paths))
              == ExportRun(rows, files, Unreadable(paths[0], Contents(fs, paths[0]).error))
    ensures Contents(fs, paths[0]).Ok? ==>
              var res := run(Contents(fs, paths[0]).value);
              Resumed(rows, files, ExportFiles(run, fs, paths))
              == if res.stop != Done then ExportRun(rows + res.tally.rows, files + [res], Halted(res.stop))
                 else Resumed(rows + res.tally.rows, files + [res], ExportFiles(run, fs, paths[1..]))
  {
    if Contents(fs, paths[0]).Ok? {
      var res := run(Contents(fs, paths[0]).value);
      if res.stop == Done {
        var more := ExportFiles(run, fs, paths[1..]);
        assert rows + (res.tally.rows + more.rows) == (rows + res.tally.rows) + more.rows;
        assert files + ([res] + more.files) == (files + [res]) + more.files;
      }
    }
  }

  /** What `export` writes: the rows of the files it read, in order. */
  lemma {:induction false} ExportRows(run: seq<byte> -> DatResult, fs: Files, paths: seq<string>)
    ensures ExportFiles(run, fs, paths).rows == AllRows(ExportFiles(run, fs, paths).files)
    decreases |paths|
  {
    if paths != [] && Contents(fs, paths[0]).Ok? {
      var res := run(Contents(fs, paths[0]).value);
      if res.stop == Done {
        ExportGoesOn(run, fs, paths);
        ExportRows(run, fs, paths[1..]);
        var files := ExportFiles(run, fs, paths).files;
        assert files[1..] == ExportFiles(run, fs, paths[1..]).files;
      }
    }
  }

  /** Rows of files whose rows are all good are all good. */
  lemma {:induction false} AllRowsGood(rd: Reader, files: seq<DatResult>)
    requires forall j :: 0 <= j < |files| ==> forall i :: 0 <= i < |files[j].tally.rows| ==> GoodRow(rd, files[j].tally.rows[i])
    ensures forall i :: 0 <= i < |AllRows(files)| ==> GoodRow(rd, AllRows(files)[i])
    decreases |files|
  {
    if files != [] {
      AllRowsGood(rd, files[1..]);
      var head := files[0].tally.rows;
      forall i | |head| <= i < |AllRows(files)|
        ensures GoodRow(rd, AllRows(files)[i])
      {
        assert AllRows(files)[i] == AllRows(files[1..])[i - |head|];
      }
    }
  }

  /**
   * `export` reads the files in order, each one through the block loop from
   * a fresh tally.
   */
  lemma {:induction false} ExportReadsInOrder(run: seq<byte> -> DatResult, fs: Files, paths: seq<string>)
    ensures var r := ExportFiles(run, fs, paths);
      && |r.files| <= |paths|
      && forall i :: 0 <= i < |r.files| ==>
            Contents(fs, paths[i]).Ok? && r.files[i] == run(Contents(fs, paths[i]).value)
    decreases |paths|
  {
    if paths != [] && Contents(fs, paths[0]).Ok? {
      var res := run(Contents(fs, paths[0]).value);
      if res.stop == Done {
        ExportGoesOn(run, fs, paths);
        ExportReadsInOrder(run, fs, paths[1..]);
        var more := ExportFiles(run, fs, paths[1..]).files;
        var files := ExportFiles(run, fs, paths).files;
        assert files == [res] + more;
        forall i | 1 <= i < |files|
          ensures Contents(fs, paths[i]).Ok? && files[i] == run(Contents(fs, paths[i]).value)
        {
          assert files[i] == more[i - 1] && paths[1..][i - 1] == paths[i];
        }
      }
    }
  }

  /** `export` completes exactly when it read every file, each one to its end. */
  lemma {:induction false} ExportCompletes(run: seq<byte> -> DatResult, fs: Files, paths: seq<string>)
    ensures var r := ExportFiles(run, fs, paths);
      r.end.Completed? <==> |r.files| == |paths| && forall i :: 0 <= i < |r.files| ==> r.files[i].stop == Done
    decreases |paths|
  {
    if paths != [] && Contents(fs, paths[0]).Ok? {
      var res := run(Contents(fs, paths[0]).value);
      if res.stop == Done {
        ExportGoesOn(run, fs, paths);
        ExportCompletes(run, fs, paths[1..]);
        var more := ExportFiles(run, fs, paths[1..]);
        var r := ExportFiles(run, fs, paths);
        assert r.files == [res] + more.files;
        assert forall i :: 0 <= i < |more.files| ==> more.files[i] == r.files[i + 1];
      } else {
        assert ExportFiles(run, fs, paths).files[0] == res;
      }
    }
  }

  /**
   * How `export` stops early: every file but the last it read was read to
   * its end; it halts with the stop of that last file; it fails on the first
   * file it cannot open, right after the files it read.
   */
  lemma {:induction false} ExportStops(run: seq<byte> -> DatResult, fs: Files, paths: seq<string>)
    ensures var r := ExportFiles(run, fs, paths);
      && (forall i :: 0 <= i < |r.files| - 1 ==> r.files[i].stop == Done)
      && (r.end.Halted? ==> r.files != [] && r.files[|r.files| - 1].stop == r.end.stop != Done)
      && (r.end.Unreadable? ==> |r.files| < |paths| && r.end.path == paths[|r.files|]
                                && Contents(fs, r.end.path) == Err(r.end.message))
    decreases |paths|
  {
    if paths != [] && Contents(fs, paths[0]).Ok? {
      var res := run(Contents(fs, paths[0]).value);
      if res.stop == Done {
        ExportGoesOn(run, fs, paths);
        ExportStops(run, fs, paths[1..]);
        var more := ExportFiles(run, fs, paths[1..]);
        var r := ExportFiles(run, fs, paths);
        assert r.files == [res] + more.files;
        assert forall i :: 1 <= i < |r.files| ==> r.files[i] == more.files[i - 1];
        if more.end.Unreadable? {
          assert paths[1..][|more.files|] == paths[|r.files|];
        }
      }
    }
  }

  /** Everything `export` writes is a good row: one value per column, with the file's year. */
  lemma ExportWritesGoodRows(rd: Reader, fs: Files, paths: seq<string>)
    ensures var r := ExportFiles(FileRun(rd), fs, paths);
      forall i :: 0 <= i < |r.rows| ==> GoodRow(rd, r.rows[i])
  {
    var r := ExportFiles(FileRun(rd), fs, paths);
    ExportRows(FileRun(rd), fs, paths);
    ExportReadsInOrder(FileRun(rd), fs, paths);
    forall j | 0 <= j < |r.files|
      ensures forall i :: 0 <= i < |r.files[j].tally.rows| ==> GoodRow(rd, r.files[j].tally.rows[i])
    {
      ExportTally(rd, Contents(fs, paths[j]).value);
    }
    AllRowsGood(rd, r.files);
  }

  /** A run that already wrote `rows` and read `files` before going on as `run`. */
  function Resumed(rows: seq<seq<Value>>, files: seq<DatResult>, run: ExportRun): ExportRun {
    ExportRun(rows + run.rows, files + run.files, run.end)
  }

  /** `ColumnDef.read` with the template of the file, as the row reader of `init`. */
  function RowReader(cdef: seq<Attribute>): string -> Result<Column, LayoutError>
    requires ColumnDefConvs(cdef)
  {
    line => ReadColumn(cdef, line)
  }

  /** Each row cut with `read`, in document order. */
  function ReadEach(read: string -> Result<Column, LayoutError>, rows: seq<string>): (r: seq<Result<Column, LayoutError>>)
    ensures |r| == |rows| && forall n :: 0 <= n < |rows| ==> r[n] == read(rows[n])
  {
    seq(|rows|, n requires 0 <= n < |rows| => read(rows[n]))
  }

  /** Cutting the rows with the row reader is cutting them with the template. */
  lemma ReadEachRow(cdef: seq<Attribute>, rows: seq<string>)
    requires ColumnDefConvs(cdef)
    ensures ReadEach(RowReader(cdef), rows) == RowOutcomes(cdef, rows)
  {
  }

  /** Once the rows stop after line `i`, the columns assigned are all of them. */
  lemma RowsStop(read: string -> Result<Column, LayoutError>, lines: seq<string>, k: nat, i: nat, columns: seq<Column>)
    requires k < |lines| && k <= i < RowsEnd(lines, k)
    requires AssignAll(ReadEach(read, RowsAfter(lines, k))[..i - k]) == Ok(columns)
    requires i == |lines| - 1 || EndsRows(lines[i + 1])
    ensures Ok(columns) == AssignAll(ReadEach(read, RowsAfter(lines, k)))
  {
    ghost var outcomes := ReadEach(read, RowsAfter(lines, k));
    assert RowsEnd(lines, k) == i + 1;
    assert outcomes[..i - k] == outcomes;
  }

  /**
   * Line `i + 1` is the next row: a row that cannot be read raises for all
   * of them, and a row that is read is assigned.
   */
  lemma RowsNext(read: string -> Result<Column, LayoutError>, lines: seq<string>, k: nat, i: nat, columns: seq<Column>)
    requires k <= i < |lines| - 1 && i < RowsEnd(lines, k)
    requires AssignAll(ReadEach(read, RowsAfter(lines, k))[..i - k]) == Ok(columns)
    requires !EndsRows(lines[i + 1])
    ensures i + 1 < RowsEnd(lines, k)
    ensures read(lines[i + 1]).Err? ==>
              AssignAll(ReadEach(read, RowsAfter(lines, k))) == Err(read(lines[i + 1]).error)
    ensures read(lines[i + 1]).Ok? ==>
              AssignAll(ReadEach(read, RowsAfter(lines, k))[..i + 1 - k])
              == Ok(Insert(columns, read(lines[i + 1]).value))
  {
    ghost var outcomes := ReadEach(read, RowsAfter(lines, k));
    assert RowsEnd(lines, k) != i + 1;
    assert outcomes[i - k] == read(lines[i + 1]);
    var column := read(lines[i + 1]);
    AssignStep(outcomes, i - k, columns, column);
    if column.Err? {
      AssignErrorPersists(outcomes, i + 1 - k);
    }
  }

  /** One more row outcome: its error, or its column assigned. */
  lemma AssignStep(outcomes: seq<Result<Column, LayoutError>>, n: nat, columns: seq<Column>, c: Result<Column, LayoutError>)
    requires n < |outcomes| && outcomes[n] == c && AssignAll(outcomes[..n]) == Ok(columns)
    ensures AssignAll(outcomes[..n + 1]) == if c.Err? then Err(c.error) else Ok(Insert(columns, c.value))
  {
    assert outcomes[..n + 1][..n] == outcomes[..n];
  }

}
