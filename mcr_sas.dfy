/**
 * `MedicareSAS` in `cms/tools/mcr_sas.py`: the walk over SAS data files
 * laid out as `<year>/<file type>/<name>.sas7bdat`, and the rule that turns
 * such a path into the table it is loaded into.
 */
module McrSas {
  import opened Wrappers
  import opened PyText
  import opened PyPath

  /** The `ValueError`s that `traverse` and `handle_sas_file` raise. */
  datatype SasError =
    | NotImplemented(file: string)
    | AmbiguousYear(file: string)
    | NotAYear(yearDir: string)
    | UnrecognizedDirectory(file: string)

  /** The arguments of one `handle` call: the table, the file, its type directory and its year. */
  datatype SasTarget = SasTarget(table: string, file: string, fileType: string, year: int)

  const SasExtension := ".sas7bdat"
  const AllFileMarker := "all_file"
  const DenominatorDir := "denominator"
  const InpatientDir := "inpatient"
  const DenominatorPrefix := "mcr_bene_"
  const InpatientPrefix := "mcr_ip_"

  /** The directory holding the file's type directory: the year directory. */
  function YearDir(f: string): string {
    Basename(Dirname(Dirname(f)))
  }

  /** The directory holding the file: its type. */
  function TypeDir(f: string): string {
    Basename(Dirname(f))
  }

  /**
   * Whether the year directory passes the ambiguity test: it occurs in the
   * file name, or the name is an `all_file` and the directory is all digits
   * (then only a warning is logged).
   */
  predicate YearAccepted(f: string) {
    var fname := Basename(f);
    var ydir := YearDir(f);
    Contains(fname, ydir) || (Contains(fname, AllFileMarker) && IsDigits(ydir))
  }

  /** The table of a file type and year: `mcr_bene_{year}` or `mcr_ip_{year}`. */
  function TableName(fileType: string, year: int): (r: Option<string>)
    ensures r.Some? <==> fileType == DenominatorDir || fileType == InpatientDir
  {
    if fileType == DenominatorDir then Some(DenominatorPrefix + IntToStr(year))
    else if fileType == InpatientDir then Some(InpatientPrefix + IntToStr(year))
    else None
  }

  /**
   * `handle_sas_file`: the arguments it passes to `handle`, or the error it
   * raises first: an ambiguous year, a year directory `int()` rejects, a
   * type directory other than `denominator` or `inpatient`.
   */
  function HandleSasFile(f: string): (r: Result<SasTarget, SasError>)
    ensures r.Ok? ==> r.value.file == f && r.value.fileType == TypeDir(f)
  {
    if !YearAccepted(f) then Err(AmbiguousYear(f))
    else match ParseInt(YearDir(f))
      case None => Err(NotAYear(YearDir(f)))
      case Some(year) =>
        match TableName(TypeDir(f), year)
        case None => Err(UnrecognizedDirectory(f))
        case Some(table) => Ok(SasTarget(table, f, TypeDir(f), year))
  }

  /**
   * A file is handled exactly when its year directory passes the ambiguity
   * test and parses as an integer, and its type directory is known; the
   * year is then the parsed directory name and the table carries it.
   */
  lemma HandleSasFileCases(f: string)
    ensures HandleSasFile(f).Ok? <==>
      YearAccepted(f) && ParseInt(YearDir(f)).Some? && (TypeDir(f) == DenominatorDir || TypeDir(f) == InpatientDir)
    ensures HandleSasFile(f).Ok? ==>
      HandleSasFile(f).value.year == ParseInt(YearDir(f)).value &&
      Some(HandleSasFile(f).value.table) == TableName(TypeDir(f), HandleSasFile(f).value.year)
    ensures !YearAccepted(f) ==> HandleSasFile(f) == Err(AmbiguousYear(f))
  {
  }

  /**
   * In the `all_file` case the year directory is all digits, so `int()`
   * never fails there: the warning branch always reaches the type test.
   */
  lemma AllFileHasYear(f: string)
    requires !Contains(Basename(f), YearDir(f))
    requires Contains(Basename(f), AllFileMarker) && IsDigits(YearDir(f))
    ensures ParseInt(YearDir(f)) == Some(DecimalValue(YearDir(f)) as int)
    ensures TypeDir(f) == DenominatorDir ==> HandleSasFile(f).Ok?
  {
    ParseIntDigits(YearDir(f));
  }

  /** The year reads back from the table name: the table names of two years differ. */
  lemma TableNameYear(fileType: string, year: int)
    requires TableName(fileType, year).Some?
    ensures var t := TableName(fileType, year).value;
      var p := if fileType == DenominatorDir then DenominatorPrefix else InpatientPrefix;
      StartsWith(t, p) && ParseInt(t[|p|..]) == Some(year)
  {
    var p := if fileType == DenominatorDir then DenominatorPrefix else InpatientPrefix;
    assert TableName(fileType, year).value[|p|..] == IntToStr(year);
    ParseIntToStr(year);
  }

  /**
   * A file laid out as `<root>/<year>/<type>/<name>` whose name mentions the
   * year goes to the table of that year and type.
   */
  lemma HandleLaidOut(root: string, year: nat, fileType: string, name: string)
    requires root != [] && root[|root| - 1] != '/'
    requires '/' !in fileType && '/' !in name
    requires fileType == DenominatorDir || fileType == InpatientDir
    requires Contains(name, NatToStr(year))
    ensures var f := JoinPath(JoinPath(JoinPath(root, NatToStr(year)), fileType), name);
      HandleSasFile(f) == Ok(SasTarget(TableName(fileType, year).value, f, fileType, year))
  {
    var yd := NatToStr(year);
    assert '/' !in yd by {
      assert forall k :: 0 <= k < |yd| ==> IsDigit(yd[k]);
    }
    var a := JoinPath(root, yd);
    SplitJoinPath(root, yd);
    assert a != [] && a[|a| - 1] != '/' by {
      assert !StartsWith(yd, "/");
      assert a == root + "/" + yd;
    }
    var b := JoinPath(a, fileType);
    SplitJoinPath(a, fileType);
    assert b != [] && b[|b| - 1] != '/' by {
      if fileType == DenominatorDir {
        assert !StartsWith(fileType, "/");
      } else {
        assert !StartsWith(fileType, "/");
      }
      assert b == a + "/" + fileType;
    }
    var f := JoinPath(b, name);
    SplitJoinPath(b, name);
    assert YearDir(f) == yd;
    assert TypeDir(f) == fileType;
    assert YearAccepted(f);
    ParseIntDigits(yd);
    NatToStrValue(year);
  }

  /** The files of every root directory, one directory after another. */
  function Concat(groups: seq<seq<string>>): seq<string> {
    if groups == [] then [] else Concat(groups[..|groups| - 1]) + groups[|groups| - 1]
  }

  /** What dispatching one matched file gives: `handle_sas_file`'s outcome for a SAS file, an error otherwise. */
  function Dispatch(f: string): (r: Result<SasTarget, SasError>)
    ensures !EndsWith(f, SasExtension) ==> r == Err(NotImplemented(f))
    ensures EndsWith(f, SasExtension) ==> r == HandleSasFile(f)
  {
    if EndsWith(f, SasExtension) then HandleSasFile(f) else Err(NotImplemented(f))
  }

  /** The dispatch outcome of every file, in order. */
  function Dispatches(files: seq<string>): (r: seq<Result<SasTarget, SasError>>)
    ensures |r| == |files|
  {
    if files == [] then [] else [Dispatch(files[0])] + Dispatches(files[1..])
  }

  lemma {:induction false} DispatchAt(files: seq<string>, i: nat)
    requires i < |files|
    ensures Dispatches(files)[i] == Dispatch(files[i])
    decreases i
  {
    if i > 0 {
      DispatchAt(files[1..], i - 1);
    }
  }

  /**
   * Running a list of outcomes until the first error: the values before it
   * and the error, if any.
   */
  function Run<T, E>(outcomes: seq<Result<T, E>>): (r: (seq<T>, Option<E>))
    ensures |r.0| <= |outcomes|
  {
    if outcomes == [] then ([], None)
    else if outcomes[0].Err? then ([], Some(outcomes[0].error))
    else var rest := Run(outcomes[1..]); ([outcomes[0].value] + rest.0, rest.1)
  }

  /** The values `Run` collects are the outcomes at the same positions. */
  lemma {:induction false} RunInOrder<T, E>(outcomes: seq<Result<T, E>>, i: nat)
    requires i < |Run(outcomes).0|
    ensures outcomes[i] == Ok(Run(outcomes).0[i])
    decreases i
  {
    if i > 0 {
      RunInOrder(outcomes[1..], i - 1);
    }
  }

  /** `Run` stops at the first error, with that error, and completes when there is none. */
  lemma {:induction false} RunStops<T, E>(outcomes: seq<Result<T, E>>)
    ensures Run(outcomes).1.None? ==> |Run(outcomes).0| == |outcomes|
    ensures Run(outcomes).1.Some? ==>
      |Run(outcomes).0| < |outcomes| && outcomes[|Run(outcomes).0|] == Err(Run(outcomes).1.value)
    decreases |outcomes|
  {
    if outcomes != [] && outcomes[0].Ok? {
      RunStops(outcomes[1..]);
    }
  }

  /** Running two lists one after the other is running their concatenation. */
  lemma {:induction false} RunAppend<T, E>(a: seq<Result<T, E>>, b: seq<Result<T, E>>)
    requires Run(a).1.None?
    ensures Run(a + b) == (Run(a).0 + Run(b).0, Run(b).1)
    decreases |a|
  {
    if a == [] {
      assert a + b == b;
      assert Run(a).0 + Run(b).0 == Run(b).0;
    } else {
      RunAppend(a[1..], b);
      assert (a + b)[0] == a[0];
      assert (a + b)[1..] == a[1..] + b;
      assert [a[0].value] + (Run(a[1..]).0 + Run(b).0) == ([a[0].value] + Run(a[1..]).0) + Run(b).0;
    }
  }

  /** A run that has collected `done` and meets an error stops there with it. */
  lemma RunStepErr<T, E>(outcomes: seq<Result<T, E>>, i: nat, done: seq<T>)
    requires i < |outcomes| && outcomes[i].Err?
    requires Run(outcomes) == (done + Run(outcomes[i..]).0, Run(outcomes[i..]).1)
    ensures Run(outcomes) == (done, Some(outcomes[i].error))
  {
    assert done + [] == done;
  }

  /** A run that has collected `done` and meets a value collects it and goes on. */
  lemma RunStepOk<T, E>(outcomes: seq<Result<T, E>>, i: nat, done: seq<T>)
    requires i < |outcomes| && outcomes[i].Ok?
    requires Run(outcomes) == (done + Run(outcomes[i..]).0, Run(outcomes[i..]).1)
    ensures Run(outcomes) == (done + [outcomes[i].value] + Run(outcomes[i + 1..]).0, Run(outcomes[i + 1..]).1)
  {
    assert outcomes[i..][1..] == outcomes[i + 1..];
    assert done + ([outcomes[i].value] + Run(outcomes[i + 1..]).0) == done + [outcomes[i].value] + Run(outcomes[i + 1..]).0;
  }

  /**
   * The `handle` calls `traverse` makes over a list of files, in order, and
   * the error that ends it: a file without the `.sas7bdat` extension or a
   * file `handle_sas_file` rejects stops the walk.
   */
  function Trace(files: seq<string>): (seq<SasTarget>, Option<SasError>) {
    Run(Dispatches(files))
  }

  /**
   * Every call `traverse` makes is `handle_sas_file`'s outcome for the file
   * at the same position, and that file has the SAS extension.
   */
  lemma TraceHandlesInOrder(files: seq<string>, i: nat)
    requires i < |Trace(files).0|
    ensures EndsWith(files[i], SasExtension)
    ensures HandleSasFile(files[i]) == Ok(Trace(files).0[i])
  {
    RunInOrder(Dispatches(files), i);
    DispatchAt(files, i);
  }

  /**
   * The walk stops at the first file it cannot dispatch, with that file's
   * error; it completes without error exactly when every file is handled.
   */
  lemma TraceStops(files: seq<string>)
    ensures Trace(files).1.None? ==> |Trace(files).0| == |files|
    ensures Trace(files).1.Some? ==>
      |Trace(files).0| < |files| && Dispatch(files[|Trace(files).0|]) == Err(Trace(files).1.value)
  {
    RunStops(Dispatches(files));
    if Trace(files).1.Some? {
      DispatchAt(files, |Trace(files).0|);
    }
  }

  /** The first loop of `traverse`: the files matched under each root directory, extended one list at a time. */
  method Gather(matched: seq<seq<string>>) returns (files: seq<string>)
    ensures files == Concat(matched)
  {
    files := [];
    for k := 0 to |matched|
      invariant files == Concat(matched[..k])
    {
      assert matched[..k + 1][..k] == matched[..k];
      files := files + matched[k];
    }
    assert matched[..|matched|] == matched;
  }

  /** One step of `traverse`: a SAS file goes to `handle_sas_file`, any other file raises. */
  method DispatchFile(f: string) returns (r: Result<SasTarget, SasError>)
    ensures r == Dispatch(f)
  {
    if EndsWith(f, SasExtension) {
      r := HandleSasFile(f);
    } else {
      r := Err(NotImplemented(f));
    }
  }

  /**
   * `traverse`: the files matched under every root directory are gathered
   * into one list, then each is dispatched in turn; the result is the
   * `handle` calls made and the error raised, if any.
   */
  method Traverse(matched: seq<seq<string>>) returns (calls: seq<SasTarget>, err: Option<SasError>)
    ensures (calls, err) == Trace(Concat(matched))
  {
    var files := Gather(matched);
    ghost var outcomes := Dispatches(files);
    calls := [];
    var i := 0;
    assert outcomes[0..] == outcomes;
    assert calls + Run(outcomes).0 == Run(outcomes).0;
    while i < |files|
      invariant i <= |files|
      invariant Run(outcomes) == (calls + Run(outcomes[i..]).0, Run(outcomes[i..]).1)
    {
      DispatchAt(files, i);
      var h := DispatchFile(files[i]);
      if h.Err? {
        RunStepErr(outcomes, i, calls);
        return calls, Some(h.error);
      }
      RunStepOk(outcomes, i, calls);
      calls := calls + [h.value];
      i := i + 1;
    }
    assert outcomes[i..] == [];
    assert calls + [] == calls;
    err := None;
  }
}
