/**
 * The MedPAR converter: it pairs each `.fts` layout below a base directory
 * with its `.dat` blocks, infers each data set's year from the directory
 * names above it, and decides per data set whether to convert it or to
 * skip it because of the status of an earlier conversion.
 *
 * The directory listing is a parameter: `files` holds the paths the
 * recursive glob below the base directory visits. The `Medpar` reader is
 * foreign; what it reports (its status text, whether `info` and `export`
 * return) is a parameter of the decision.
 */
module MedparConverter {
  import opened Wrappers
  import opened PyText
  import opened PyPath
  import McrStatus

  /* ---------------------------------------------------------------- */
  /* Sorting, as Python's `sorted` orders strings                      */
  /* ---------------------------------------------------------------- */

  /** `a <= b` on Python strings: lexicographic on code points. */
  predicate StrLe(a: string, b: string)
    decreases |a|
  {
    a == [] || (b != [] && (a[0] < b[0] || (a[0] == b[0] && StrLe(a[1..], b[1..]))))
  }

  /** Any two strings are ordered one way or the other. */
  lemma {:induction false} StrLeTotal(a: string, b: string)
    ensures StrLe(a, b) || StrLe(b, a)
    decreases |a|
  {
    if a != [] && b != [] && a[0] == b[0] {
      StrLeTotal(a[1..], b[1..]);
    }
  }

  /** Each string is at most the next one. */
  predicate SortedStrings(s: seq<string>) {
    forall i :: 0 < i < |s| ==> StrLe(s[i - 1], s[i])
  }

  /** Inserting `x` into a sorted list keeps it sorted and one longer. */
  function Insert(x: string, s: seq<string>): (r: seq<string>)
    requires SortedStrings(s)
    ensures SortedStrings(r)
    ensures |r| == |s| + 1 && (r[0] == x || (s != [] && r[0] == s[0]))
  {
    if s == [] then [x]
    else if StrLe(x, s[0]) then [x] + s
    else
      StrLeTotal(x, s[0]);
      var t := Insert(x, s[1..]);
      assert s == [s[0]] + s[1..];
      [s[0]] + t
  }

  /** Inserting adds exactly `x`. */
  lemma {:induction false} InsertPermutes(x: string, s: seq<string>)
    requires SortedStrings(s)
    ensures multiset(Insert(x, s)) == multiset(s) + multiset{x}
  {
    if s != [] && !StrLe(x, s[0]) {
      InsertPermutes(x, s[1..]);
      assert s == [s[0]] + s[1..];
    }
  }

  /** `sorted(s)`: the same strings in ascending order. */
  function SortStrings(s: seq<string>): (r: seq<string>)
    ensures SortedStrings(r)
  {
    if s == [] then []
    else Insert(s[0], SortStrings(s[1..]))
  }

  /** `sorted` returns a permutation of its input. */
  lemma {:induction false} SortStringsPermutes(s: seq<string>)
    ensures multiset(SortStrings(s)) == multiset(s)
  {
    if s != [] {
      SortStringsPermutes(s[1..]);
      InsertPermutes(s[0], SortStrings(s[1..]));
      assert s == [s[0]] + s[1..];
    }
  }

  /* ---------------------------------------------------------------- */
  /* The year of a data set                                            */
  /* ---------------------------------------------------------------- */

  /** A directory name that names the year of a data set called `name`. */
  predicate Qualifies(e: string, name: string) {
    IsDigits(e) && 1999 < DecimalValue(e) < 2030 && Contains(name, e)
  }

  /** The year a visited directory name gives, or the year found so far. */
  function Pick(e: string, name: string, year: Option<int>): Option<int> {
    if Qualifies(e, name) then Some(DecimalValue(e)) else year
  }

  /**
   * The directory names the year loop visits, innermost first: it splits
   * off the last component while the rest is longer than three
   * characters, and it stops where splitting no longer moves up (a path
   * made only of slashes).
   */
  function Components(d: string): (es: seq<string>)
    decreases |d|
  {
    if |d| <= 3 || AllSlashes(d) then []
    else
      DirnameShrinks(d);
      [Basename(d)] + Components(Dirname(d))
  }

  /**
   * The year loop: every qualifying directory name replaces the year
   * found so far, so the outermost one wins. It stops where the path can
   * no longer be split (see `ScanAsWritten` for the loop as written).
   */
  function ScanYear(d: string, name: string, year: Option<int>): (r: Option<int>)
    ensures r == year || (r.Some? && 1999 < r.value < 2030)
    decreases |d|
  {
    if |d| <= 3 || AllSlashes(d) then year
    else
      DirnameShrinks(d);
      ScanYear(Dirname(d), name, Pick(Basename(d), name, year))
  }

  /** The `i`-th visited name qualifies and no name visited after it does. */
  predicate Outermost(es: seq<string>, name: string, i: int) {
    && 0 <= i < |es|
    && Qualifies(es[i], name)
    && forall j :: i < j < |es| ==> !Qualifies(es[j], name)
  }

  /** No visited name qualifies. */
  predicate NoneQualifies(es: seq<string>, name: string) {
    forall j :: 0 <= j < |es| ==> !Qualifies(es[j], name)
  }

  /** With no qualifying directory name the loop leaves the year as it was. */
  lemma {:induction false} ScanYearNone(d: string, name: string, year: Option<int>)
    requires NoneQualifies(Components(d), name)
    ensures ScanYear(d, name, year) == year
    decreases |d|
  {
    if !(|d| <= 3 || AllSlashes(d)) {
      DirnameShrinks(d);
      var es := Components(d);
      var rest := Components(Dirname(d));
      assert es == [Basename(d)] + rest;
      assert forall j :: 0 <= j < |rest| ==> rest[j] == es[j + 1];
      assert !Qualifies(Basename(d), name) by { assert es[0] == Basename(d); }
      assert NoneQualifies(rest, name);
      assert ScanYear(d, name, year) == ScanYear(Dirname(d), name, year);
      ScanYearNone(Dirname(d), name, year);
    }
  }

  /** The year found is the one of the outermost qualifying directory name. */
  lemma {:induction false} ScanYearOutermost(d: string, name: string, year: Option<int>, i: int)
    requires Outermost(Components(d), name, i)
    ensures ScanYear(d, name, year) == Some(DecimalValue(Components(d)[i]))
    decreases |d|
  {
    DirnameShrinks(d);
    var es := Components(d);
    var rest := Components(Dirname(d));
    assert es == [Basename(d)] + rest;
    assert forall j :: 0 <= j < |rest| ==> rest[j] == es[j + 1];
    assert ScanYear(d, name, year) == ScanYear(Dirname(d), name, Pick(Basename(d), name, year));
    if i == 0 {
      assert NoneQualifies(rest, name);
      ScanYearNone(Dirname(d), name, Pick(Basename(d), name, year));
    } else {
      assert Outermost(rest, name, i - 1);
      ScanYearOutermost(Dirname(d), name, Pick(Basename(d), name, year), i - 1);
    }
  }

  /** `MedParFileSet.__init__`'s year loop over the data set's directory, with its accumulator. */
  method InferYear(dir: string, name: string) returns (year: Option<int>)
    ensures year == ScanYear(dir, name, None)
  {
    var d := dir;
    year := None;
    while |d| > 3
      invariant ScanYear(dir, name, None) == ScanYear(d, name, year)
      decreases |d|
    {
      var head, e := Dirname(d), Basename(d);
      DirnameShrinks(d);
      if head == d {
        // the split no longer moves up: only slashes are left
        break;
      }
      if IsDigits(e) {
        var yyyy := DecimalValue(e);
        if 1999 < yyyy < 2030 {
          if Contains(name, e) {
            year := Some(yyyy);
          }
        }
      }
      d := head;
    }
  }

  /* The loop as written does not stop on a path made only of slashes. */

  /** How the year loop as written ends: with a year (or none), or never. */
  datatype Scan = Scanned(year: Option<int>) | Loops

  /** The year loop as written: `while len(d) > 3: d, e = os.path.split(d)`. */
  function ScanAsWritten(d: string, name: string, year: Option<int>): (r: Scan)
    decreases |d|
  {
    if |d| <= 3 then Scanned(year)
    else if Dirname(d) == d then Loops
    else
      DirnameShrinks(d);
      ScanAsWritten(Dirname(d), name, Pick(Basename(d), name, year))
  }

  /**
   * Once the path is four or more slashes, `os.path.split` returns it
   * unchanged and the loop as written runs forever.
   */
  lemma SlashesLoop(d: string, name: string, year: Option<int>)
    requires |d| > 3 && AllSlashes(d)
    ensures ScanAsWritten(d, name, year) == Loops
  {
    DirnameShrinks(d);
  }

  /** The smallest such path: the data set lies in `////`. */
  lemma RootSlashesLoop(name: string)
    ensures ScanAsWritten("////", name, None) == Loops
  {
    SlashesLoop("////", name, None);
  }

  /** Where the loop as written ends, it finds the year the corrected loop finds. */
  lemma {:induction false} ScanAsWrittenAgrees(d: string, name: string, year: Option<int>)
    ensures ScanAsWritten(d, name, year).Scanned? ==> ScanAsWritten(d, name, year).year == ScanYear(d, name, year)
    ensures !AllSlashes(d) && (forall k :: 0 <= k < |d| ==> d[k] != '/') ==> ScanAsWritten(d, name, year).Scanned?
    decreases |d|
  {
    DirnameShrinks(d);
    if |d| > 3 && Dirname(d) != d {
      ScanAsWrittenAgrees(Dirname(d), name, Pick(Basename(d), name, year));
      if forall k :: 0 <= k < |d| ==> d[k] != '/' {
        DirnameNoSlash(d);
      }
    }
  }

  /* ---------------------------------------------------------------- */
  /* Data sets                                                         */
  /* ---------------------------------------------------------------- */

  /** A `.fts` layout, its `.dat` blocks, its directory, name and year. */
  datatype FileSet = FileSet(fts: string, dat: seq<string>, dir: string, name: string, year: int)

  /** Why `find` raises. */
  datatype FindError =
    | Mismatch(fts: string)     // no `.dat` block for the layout
    | NoYear(fts: string)       // no directory above it names its year

  /** The `ValueError` message of each error. */
  function Message(e: FindError): string {
    match e
    case Mismatch(fts) => "Mismatch: " + fts + " does not have corresponding dat file(s)"
    case NoYear(fts) => "Could not find year for " + fts
  }

  /** The data set name: the layout's file name without its extension. */
  function NameOf(fts: string): string {
    SplitExt(Basename(fts)).0
  }

  /** `MedParFileSet(fts, dat)`: a `ValueError` when no year is found. */
  function FileSetOf(fts: string, dat: seq<string>): (r: Result<FileSet, FindError>)
    ensures r.Err? <==> ScanYear(Dirname(fts), NameOf(fts), None).None?
    ensures r.Err? ==> r.error == NoYear(fts)
    ensures r.Ok? ==> 1999 < r.value.year < 2030
  {
    var dir := Dirname(fts);
    var name := NameOf(fts);
    match ScanYear(dir, name, None)
    case None => Err(NoYear(fts))
    case Some(y) => Ok(FileSet(fts, dat, dir, name, y))
  }

  /** `MedParFileSet.__init__`: name, directory and the year loop. */
  method NewFileSet(fts: string, dat: seq<string>) returns (r: Result<FileSet, FindError>)
    ensures r == FileSetOf(fts, dat)
  {
    var dir := Dirname(fts);
    var name := SplitExt(Basename(fts)).0;
    var year := InferYear(dir, name);
    if year.None? {
      return Err(NoYear(fts));
    }
    r := Ok(FileSet(fts, dat, dir, name, year.value));
  }

  /** The data set's year is named by an ancestor directory that its name contains. */
  lemma FileSetYear(fts: string, dat: seq<string>)
    requires FileSetOf(fts, dat).Ok?
    ensures var fs := FileSetOf(fts, dat).value;
      exists i :: Outermost(Components(fs.dir), fs.name, i) && fs.year == DecimalValue(Components(fs.dir)[i])
  {
    var fs := FileSetOf(fts, dat).value;
    var es := Components(fs.dir);
    if NoneQualifies(es, fs.name) {
      ScanYearNone(fs.dir, fs.name, None);
      assert false;
    }
    var i :| 0 <= i < |es| && Qualifies(es[i], fs.name);
    var o := LastQualifying(es, fs.name, i);
    ScanYearOutermost(fs.dir, fs.name, None, o);
  }

  /** Some qualifying name is the outermost one. */
  lemma {:induction false} LastQualifying(es: seq<string>, name: string, i: int) returns (o: int)
    requires 0 <= i < |es| && Qualifies(es[i], name)
    ensures Outermost(es, name, o)
    decreases |es| - i
  {
    if forall j :: i < j < |es| ==> !Qualifies(es[j], name) {
      o := i;
    } else {
      var j :| i < j < |es| && Qualifies(es[j], name);
      o := LastQualifying(es, name, j);
    }
  }

  /* ---------------------------------------------------------------- */
  /* find                                                              */
  /* ---------------------------------------------------------------- */

  /** A path `**` / `*.fts` matches: its file name ends in `.fts` and is not hidden. */
  predicate IsFts(f: string) {
    var b := Basename(f);
    EndsWith(b, ".fts") && b[0] != '.'
  }

  /** A path `base*.dat` matches: `base`, then anything without a `/`, then `.dat`. */
  predicate IsDatOf(base: string, f: string) {
    && |f| >= |base| + 4
    && StartsWith(f, base)
    && EndsWith(f, ".dat")
    && '/' !in f[|base|..|f| - 4]
  }

  /** The layouts among the listed paths, in listing order. */
  function FtsFiles(files: seq<string>): (r: seq<string>)
    ensures forall f :: f in r <==> f in files && IsFts(f)
  {
    if files == [] then []
    else (if IsFts(files[0]) then [files[0]] else []) + FtsFiles(files[1..])
  }

  /** The `.dat` blocks of the layout with root `base`, in listing order. */
  function DatFiles(base: string, files: seq<string>): (r: seq<string>)
    ensures forall f :: f in r <==> f in files && IsDatOf(base, f)
  {
    if files == [] then []
    else (if IsDatOf(base, files[0]) then [files[0]] else []) + DatFiles(base, files[1..])
  }

  /** The sorted `.dat` blocks for one layout. */
  function DatFor(fts: string, files: seq<string>): seq<string> {
    SortStrings(DatFiles(SplitExt(fts).0, files))
  }

  /** The blocks of a layout are sorted, and they are the listed paths `base*.dat` matches. */
  lemma DatForIs(fts: string, files: seq<string>)
    ensures SortedStrings(DatFor(fts, files))
    ensures forall f :: f in DatFor(fts, files) <==> f in files && IsDatOf(SplitExt(fts).0, f)
  {
    var r := DatFor(fts, files);
    SortStringsPermutes(DatFiles(SplitExt(fts).0, files));
    assert forall f :: f in r <==> f in multiset(r);
  }

  /** One step of `find`: "Mismatch" without a `.dat` block, else the data set. */
  function FileSetFor(fts: string, files: seq<string>): (r: Result<FileSet, FindError>) {
    var dat := DatFor(fts, files);
    if dat == [] then Err(Mismatch(fts)) else FileSetOf(fts, dat)
  }

  /** The sorted layouts `find` walks. */
  function Layouts(files: seq<string>): seq<string> {
    SortStrings(FtsFiles(files))
  }

  /** The layouts are sorted, and they are the listed paths `**` / `*.fts` matches. */
  lemma LayoutsAre(files: seq<string>)
    ensures SortedStrings(Layouts(files))
    ensures forall f :: f in Layouts(files) <==> f in files && IsFts(f)
  {
    var r := Layouts(files);
    SortStringsPermutes(FtsFiles(files));
    assert forall f :: f in r <==> f in multiset(r);
  }

  /** The outcome of each step of `find`, in sorted layout order. */
  function Steps(files: seq<string>): (rs: seq<Result<FileSet, FindError>>)
    ensures |rs| == |Layouts(files)|
  {
    var layouts := Layouts(files);
    seq(|layouts|, k requires 0 <= k < |layouts| => FileSetFor(layouts[k], files))
  }

  /** The steps from the `i`-th on, appended until the first error. */
  function Collect<T, E>(rs: seq<Result<T, E>>, i: nat): (r: Result<seq<T>, E>)
    requires i <= |rs|
    ensures r.Ok? ==> |r.value| == |rs| - i
    decreases |rs| - i
  {
    if i == |rs| then Ok([])
    else
      var v :- rs[i];
      var rest :- Collect(rs, i + 1);
      Ok([v] + rest)
  }

  /** The `k`-th step is the first from the `i`-th on that fails. */
  predicate FirstFailure<T, E>(rs: seq<Result<T, E>>, i: int, k: int) {
    0 <= i <= k < |rs| && rs[k].Err? && forall j :: i <= j < k ==> rs[j].Ok?
  }

  /** A collected list holds the value of every step, in order. */
  lemma {:induction false} CollectOk<T, E>(rs: seq<Result<T, E>>, i: nat, k: int)
    requires i <= |rs| && Collect(rs, i).Ok?
    requires 0 <= k < |rs| - i
    ensures rs[i + k].Ok? && Collect(rs, i).value[k] == rs[i + k].value
    decreases |rs| - i
  {
    if k > 0 {
      CollectOk(rs, i + 1, k - 1);
    }
  }

  /** Collecting fails with the error of the first failing step. */
  lemma {:induction false} CollectErr<T, E>(rs: seq<Result<T, E>>, i: nat)
    requires i <= |rs| && Collect(rs, i).Err?
    ensures exists k :: FirstFailure(rs, i, k) && Collect(rs, i).error == rs[k].error
    decreases |rs| - i
  {
    if rs[i].Err? {
      assert FirstFailure(rs, i, i);
    } else {
      CollectErr(rs, i + 1);
      var k :| FirstFailure(rs, i + 1, k) && Collect(rs, i + 1).error == rs[k].error;
      assert FirstFailure(rs, i, k);
    }
  }

  /** Collecting fails exactly when some step fails, and then with the first failure. */
  lemma CollectFails<T, E>(rs: seq<Result<T, E>>)
    ensures Collect(rs, 0).Err? <==> exists k :: 0 <= k < |rs| && rs[k].Err?
    ensures Collect(rs, 0).Err? ==> exists k :: FirstFailure(rs, 0, k) && Collect(rs, 0).error == rs[k].error
  {
    if Collect(rs, 0).Err? {
      CollectErr(rs, 0);
    } else if exists k :: 0 <= k < |rs| && rs[k].Err? {
      var k :| 0 <= k < |rs| && rs[k].Err?;
      CollectOk(rs, 0, k);
    }
  }

  /** The values gathered before step `i` decide the collection from there. */
  lemma {:induction false} CollectUpTo<T, E>(rs: seq<Result<T, E>>, vs: seq<T>, j: nat, i: nat)
    requires j <= i <= |rs| && |vs| == i - j
    requires forall k :: j <= k < i ==> rs[k] == Ok(vs[k - j])
    ensures i == |rs| ==> Collect(rs, j) == Ok(vs)
    ensures i < |rs| && rs[i].Err? ==> Collect(rs, j) == Err(rs[i].error)
    decreases i - j
  {
    if j < i {
      CollectUpTo(rs, vs[1..], j + 1, i);
      assert vs == [vs[0]] + vs[1..];
    }
  }

  /** The outcome of `find`: the data sets in sorted layout order, or the first error. */
  function Find(files: seq<string>): Result<seq<FileSet>, FindError> {
    Collect(Steps(files), 0)
  }

  /**
   * Every data set `find` returns comes from its own layout, in sorted
   * order, with the sorted blocks that share the layout's root, and a year.
   */
  lemma FindOk(files: seq<string>, k: int)
    requires Find(files).Ok?
    requires 0 <= k < |Find(files).value|
    ensures var fs := Find(files).value[k];
      && fs.fts == Layouts(files)[k] && fs.fts in files && IsFts(fs.fts)
      && fs.dat != [] && SortedStrings(fs.dat)
      && (forall f :: f in fs.dat <==> f in files && IsDatOf(SplitExt(fs.fts).0, f))
      && 1999 < fs.year < 2030
  {
    CollectOk(Steps(files), 0, k);
    var fts := Layouts(files)[k];
    assert Steps(files)[k] == FileSetFor(fts, files);
    LayoutsAre(files);
    DatForIs(fts, files);
  }

  /** `find` returns one data set per layout. */
  lemma FindCount(files: seq<string>)
    requires Find(files).Ok?
    ensures |Find(files).value| == |Layouts(files)|
  {
  }

  /** `find` fails exactly when some layout lacks a `.dat` block or a year, and it reports the first. */
  lemma FindErr(files: seq<string>)
    ensures Find(files).Err? <==> exists k :: 0 <= k < |Steps(files)| && Steps(files)[k].Err?
    ensures Find(files).Err? ==> exists k :: FirstFailure(Steps(files), 0, k) && Find(files).error == Steps(files)[k].error
  {
    CollectFails(Steps(files));
  }

  /** A layout without `.dat` blocks is reported as a mismatch, before its year is looked for. */
  lemma MismatchFirst(fts: string, files: seq<string>)
    ensures FileSetFor(fts, files) == Err(Mismatch(fts)) <==> forall f :: f in files ==> !IsDatOf(SplitExt(fts).0, f)
  {
    var dat := DatFor(fts, files);
    DatForIs(fts, files);
    if dat != [] {
      assert dat[0] in files;
    }
  }

  /** One step of `find`: the blocks of the layout, then the data set. */
  method FindOne(fts: string, files: seq<string>) returns (r: Result<FileSet, FindError>)
    ensures r == FileSetFor(fts, files)
  {
    var base, _ := SplitExt(fts).0, SplitExt(fts).1;
    var dat := SortStrings(DatFiles(base, files));
    if dat == [] {
      return Err(Mismatch(fts));
    }
    r := NewFileSet(fts, dat);
  }

  /** Appending the value of the next step keeps the gathered values those of the steps. */
  lemma GatheredNext<T, E>(rs: seq<Result<T, E>>, vs: seq<T>, v: T)
    requires |vs| < |rs| && rs[|vs|] == Ok(v)
    requires forall k :: 0 <= k < |vs| ==> rs[k] == Ok(vs[k])
    ensures forall k :: 0 <= k < |vs| + 1 ==> rs[k] == Ok((vs + [v])[k])
  {
  }

  /** `find`: the sorted layouts, each with its sorted blocks, appended in turn. */
  method FindDatasets(files: seq<string>) returns (r: Result<seq<FileSet>, FindError>)
    ensures r == Find(files)
  {
    var layouts := Layouts(files);
    ghost var rs := Steps(files);
    var datasets := [];
    for i := 0 to |layouts|
      invariant |datasets| == i
      invariant forall k :: 0 <= k < i ==> rs[k] == Ok(datasets[k])
    {
      var fs := FindOne(layouts[i], files);
      assert rs[i] == fs;
      if fs.Err? {
        CollectUpTo(rs, datasets, 0, i);
        return Err(fs.error);
      }
      GatheredNext(rs, datasets, fs.value);
      datasets := datasets + [fs.value];
    }
    CollectUpTo(rs, datasets, 0, |layouts|);
    r := Ok(datasets);
  }

  /* ---------------------------------------------------------------- */
  /* The reader and the per-data-set decision                          */
  /* ---------------------------------------------------------------- */

  /** The arguments a `Medpar` reader is built with. */
  datatype Reader = Reader(dirPath: string, name: string, year: string, dest: string)

  /** The reader for a data set below `basepath`: it writes to `basepath/<year>`. */
  function ReaderOf(basepath: string, fs: FileSet): Reader {
    var y := IntToStr(fs.year);
    Reader(fs.dir, fs.name, y, JoinPath(basepath, y))
  }

  /**
   * The destination is the year's own directory right below the base
   * directory, and its name reads back as the data set's year.
   */
  lemma ReaderDestination(basepath: string, fs: FileSet)
    requires basepath != [] && basepath[|basepath| - 1] != '/'
    ensures var rd := ReaderOf(basepath, fs);
      SplitPath(rd.dest) == (basepath, rd.year) && ParseInt(rd.year) == Some(fs.year)
  {
    var y := IntToStr(fs.year);
    ParseIntToStr(fs.year);
    assert '/' !in y by {
      if fs.year >= 0 {
        assert IsDigits(y);
      } else {
        assert y == "-" + NatToStr(-fs.year);
        assert IsDigits(NatToStr(-fs.year));
      }
    }
    SplitJoinPath(basepath, y);
  }

  /** What `convert_dataset` reports for a data set. */
  datatype Outcome = Skipped(status: string) | Success | Failed

  /** The report line of a data set. */
  function OutcomeText(fts: string, o: Outcome): string {
    match o
    case Skipped(status) => fts + ": SKIPPED[" + status + "]"
    case Success => fts + ": SUCCESS"
    case Failed => fts + ": FAILED"
  }

  /** The skip test as written: `status in ["READY", "ERROR"] or "MISMATCH" in status`. */
  predicate SkipsAsWritten(status: string) {
    status in ["READY", "ERROR"] || Contains(status, "MISMATCH")
  }

  /**
   * A status that reports an error is `ERROR: ` and the message, never
   * the bare word; the test as written lets such a data set be converted
   * again unless its message happens to mention `MISMATCH`.
   */
  lemma ErrorStatusNotSkipped(msg: string)
    requires !Contains(msg, "MISMATCH")
    ensures !SkipsAsWritten(McrStatus.StatusText(McrStatus.Failed(msg)))
  {
    var text := "ERROR: " + msg;
    assert text != "READY" && text != "ERROR" by {
      assert |text| > 5 && text[0] == 'E';
    }
    NotContainsAfter("ERROR: ", msg, "MISMATCH");
  }

  /** A word absent from `tail` and with no part of it in `head`'s end cannot appear in `head + tail`. */
  lemma NotContainsAfter(head: string, tail: string, word: string)
    requires head == "ERROR: " && word == "MISMATCH"
    requires !Contains(tail, word)
    ensures !Contains(head + tail, word)
  {
    var s := head + tail;
    ContainsIff(s, word);
    ContainsIff(tail, word);
    forall i | 0 <= i <= |s| - |word|
      ensures !OccursAt(s, word, i)
    {
      if i < |head| {
        assert s[i..i + |word|][0] == head[i] != 'M';
      } else {
        assert s[i..i + |word|] == tail[i - |head|..i - |head| + |word|];
        assert !OccursAt(tail, word, i - |head|);
      }
    }
  }

  /** The skip test as intended: a data set already converted, mismatched or in error is left alone. */
  predicate Skips(status: string) {
    status == "READY" || StartsWith(status, "ERROR") || Contains(status, "MISMATCH")
  }

  /**
   * Over the status texts a reader reports, the intended test skips
   * exactly the data sets that have output: only `NONE` and `EMPTY` are
   * converted.
   */
  lemma SkippedIff(s: McrStatus.Status)
    ensures Skips(McrStatus.StatusText(s)) <==> !(s.NoOutput? || s.Empty?)
  {
    var text := McrStatus.StatusText(s);
    match s
    case Mismatch(l1, l2) =>
      assert StartsWith(text, "MISMATCH");
      ContainsIff(text, "MISMATCH");
      assert OccursAt(text, "MISMATCH", 0);
    case Failed(msg) =>
      assert text[..5] == "ERROR";
    case NoOutput =>
      NoBigWord("NONE");
    case Empty =>
      assert text[1] == 'M';
      NoBigWord("EMPTY");
    case Ready =>
  }

  /** A status word shorter than `MISMATCH` does not contain it. */
  lemma NoBigWord(w: string)
    requires |w| < 8
    ensures !Contains(w, "MISMATCH")
  {
    ContainsIff(w, "MISMATCH");
  }

  /** A word in `tail` is in `head + tail`. */
  lemma ContainsAfter(head: string, tail: string, word: string)
    requires Contains(tail, word)
    ensures Contains(head + tail, word)
  {
    ContainsIff(tail, word);
    ContainsIff(head + tail, word);
    var i :| OccursAt(tail, word, i);
    assert (head + tail)[|head| + i..|head| + i + |word|] == tail[i..i + |word|];
    assert OccursAt(head + tail, word, |head| + i);
  }

  /**
   * Over the status texts a reader reports, the test as written skips a
   * converted or mismatched data set, and a failed one only when its
   * message mentions `MISMATCH`.
   */
  lemma SkippedAsWrittenIff(s: McrStatus.Status)
    ensures SkipsAsWritten(McrStatus.StatusText(s)) <==>
      s.Ready? || s.Mismatch? || (s.Failed? && Contains(s.message, "MISMATCH"))
  {
    var text := McrStatus.StatusText(s);
    match s
    case Mismatch(l1, l2) =>
      assert StartsWith(text, "MISMATCH");
      ContainsIff(text, "MISMATCH");
      assert OccursAt(text, "MISMATCH", 0);
    case Failed(msg) =>
      if Contains(msg, "MISMATCH") {
        ContainsAfter("ERROR: ", msg, "MISMATCH");
      } else {
        ErrorStatusNotSkipped(msg);
      }
    case NoOutput =>
      NoBigWord("NONE");
    case Empty =>
      NoBigWord("EMPTY");
    case Ready =>
  }

  /**
   * `convert_dataset` with the skip test `skips`: skipped by its status,
   * else `info` and `export`; an exception from the status, `info` or
   * `export` gives FAILED. `status` is the status text or the exception
   * `status()` raises, `exported` whether `info` and `export` returned or
   * raised.
   */
  function ConvertWith(skips: string -> bool, status: Result<string, string>, exported: Result<(), string>): Outcome {
    match status
    case Err(_) => Failed
    case Ok(s) =>
      if skips(s) then Skipped(s)
      else if exported.Err? then Failed
      else Success
  }

  /** `convert_dataset` as written, with `status in ["READY", "ERROR"] or "MISMATCH" in status`. */
  function ConvertDataset(status: Result<string, string>, exported: Result<(), string>): (o: Outcome)
    ensures o.Skipped? <==> status.Ok? && SkipsAsWritten(status.value)
    ensures o.Skipped? ==> o.status == status.value
    ensures o == Success <==> status.Ok? && !SkipsAsWritten(status.value) && exported.Ok?
  {
    ConvertWith(SkipsAsWritten, status, exported)
  }

  /**
   * As written, a data set whose status reports an error is exported
   * again: SUCCESS or FAILED as `export` returns or raises, unless the
   * message mentions `MISMATCH`.
   */
  lemma ErrorStatusExported(msg: string, exported: Result<(), string>)
    requires !Contains(msg, "MISMATCH")
    ensures ConvertDataset(Ok(McrStatus.StatusText(McrStatus.Failed(msg))), exported) ==
      if exported.Ok? then Success else Failed
  {
    ErrorStatusNotSkipped(msg);
  }

  /**
   * As written, with a reader that reports a status, a converted or
   * mismatched data set is reported back with its status, and every other
   * one is exported, a failed one included.
   */
  lemma ConvertsAsWritten(s: McrStatus.Status, exported: Result<(), string>)
    ensures var o := ConvertDataset(Ok(McrStatus.StatusText(s)), exported);
      && (o.Skipped? <==> s.Ready? || s.Mismatch? || (s.Failed? && Contains(s.message, "MISMATCH")))
      && (o.Skipped? ==> o.status == McrStatus.StatusText(s))
      && (!o.Skipped? ==> (o == Success <==> exported.Ok?))
  {
    SkippedAsWrittenIff(s);
  }

  /** `convert_dataset` with the intended skip test. */
  function ConvertDatasetCorrected(status: Result<string, string>, exported: Result<(), string>): (o: Outcome)
    ensures o.Skipped? <==> status.Ok? && Skips(status.value)
    ensures o.Skipped? ==> o.status == status.value
    ensures o == Success <==> status.Ok? && !Skips(status.value) && exported.Ok?
  {
    ConvertWith(Skips, status, exported)
  }

  /**
   * With the intended test and a reader that reports a status, the data
   * set is exported exactly when it has no output yet or its output is
   * empty; a converted, mismatched or failed one is reported back with
   * its status.
   */
  lemma ConvertsOnlyUndone(s: McrStatus.Status, exported: Result<(), string>)
    ensures var o := ConvertDatasetCorrected(Ok(McrStatus.StatusText(s)), exported);
      && (o.Skipped? <==> !(s.NoOutput? || s.Empty?))
      && (o.Skipped? ==> o.status == McrStatus.StatusText(s))
      && (!o.Skipped? ==> (o == Success <==> exported.Ok?))
  {
    SkippedIff(s);
  }
}
