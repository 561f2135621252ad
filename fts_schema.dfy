/**
 * The table side of `cms/fts2yaml.py`: reading the column rows of a
 * layout document (`CMSFTS.read_file`), reconciling the layouts of
 * several documents of one dataset, the Medicaid and Medicare datasets
 * with their primary keys and indices, and the table they become.
 */
module FtsSchema {
  import opened Wrappers
  import opened PyText
  import McrLayout
  import opened FtsColumns

  /** The layout documents that can be opened, each as the lines iterating it yields (terminators kept). */
  type Docs = map<string, seq<string>>

  // ---------------------------------------------------------------------
  // Reading one document
  // ---------------------------------------------------------------------

  /** Where the search for the separator line leaves `i`: at the separator, else at the last line, else 0. */
  function ScanEnd(lines: seq<string>): (i: nat)
    ensures lines == [] ==> i == 0
    ensures lines != [] ==> i < |lines| && (IsSeparatorAt(lines, i) || i == |lines| - 1)
    ensures forall j :: 0 <= j < i && j < |lines| ==> !McrLayout.IsSeparator(lines[j])
  {
    if lines == [] then 0 else McrLayout.HeaderEnd(lines)
  }

  predicate IsSeparatorAt(lines: seq<string>, i: nat) {
    i < |lines| && McrLayout.IsSeparator(lines[i])
  }

  /** A line that ends the column rows: blank, a "Note:", or a dash line mentioning "End". */
  predicate EndsFtsRows(line: string) {
    AllSpace(line) || StartsWith(line, "Note:") || (StartsWith(line, "-") && Contains(line, "End"))
  }

  /** Which lines end the column rows. */
  function EndFlags(lines: seq<string>): (flags: seq<bool>)
    ensures |flags| == |lines| && forall j :: 0 <= j < |lines| ==> flags[j] == EndsFtsRows(lines[j])
  {
    seq(|lines|, j requires 0 <= j < |lines| => EndsFtsRows(lines[j]))
  }

  /** `column_reader.read`: the row reader of a template. */
  function RowReader(d: Dialect, reader: seq<FtsAttribute>): string -> Result<FtsColumn, FtsError>
    requires |reader| == NAttrs(d)
  {
    line => ReadRow(d, reader, line)
  }

  /** The column each line would yield as a row. */
  function RowReads(read: string -> Result<FtsColumn, FtsError>, lines: seq<string>): (rows: seq<Result<FtsColumn, FtsError>>)
    ensures |rows| == |lines| && forall j :: 0 <= j < |lines| ==> rows[j] == read(lines[j])
  {
    seq(|lines|, j requires 0 <= j < |lines| => read(lines[j]))
  }

  /**
   * The columns of the rows after line `i`, one per line until a line that
   * ends them; running off the last line raises, and so does the first
   * row whose column cannot be built.
   */
  function RowsOver(ends: seq<bool>, rows: seq<Result<FtsColumn, FtsError>>, i: nat): Result<seq<FtsColumn>, FtsError>
    requires |ends| == |rows| && i < |ends|
    decreases |ends| - i
  {
    if i + 1 == |ends| then Err(NoTerminator)
    else if ends[i + 1] then Ok([])
    else
      var c :- rows[i + 1];
      var rest :- RowsOver(ends, rows, i + 1);
      Ok([c] + rest)
  }

  /** The rows of a document after its separator line `i`, each read with `read`. */
  function RowsFrom(read: string -> Result<FtsColumn, FtsError>, lines: seq<string>, i: nat): Result<seq<FtsColumn>, FtsError>
    requires i < |lines|
  {
    RowsOver(EndFlags(lines), RowReads(read, lines), i)
  }

  /** The rows end at a line that ends them, inside the document, and nowhere before. */
  lemma {:induction false} RowsEndAtTerminator(ends: seq<bool>, rows: seq<Result<FtsColumn, FtsError>>, i: nat)
    requires |ends| == |rows| && i < |ends|
    ensures RowsOver(ends, rows, i).Ok? ==>
      i + 1 + |RowsOver(ends, rows, i).value| < |ends| && ends[i + 1 + |RowsOver(ends, rows, i).value|]
    decreases |ends| - i
  {
    if i + 1 < |ends| && !ends[i + 1] && RowsOver(ends, rows, i).Ok? {
      RowsEndAtTerminator(ends, rows, i + 1);
    }
  }

  /** The `k`-th row yielded is read from line `i + 1 + k`, which does not end the rows. */
  lemma {:induction false} RowsReadInOrder(ends: seq<bool>, rows: seq<Result<FtsColumn, FtsError>>, i: nat, k: nat)
    requires |ends| == |rows| && i < |ends|
    requires RowsOver(ends, rows, i).Ok? && k < |RowsOver(ends, rows, i).value|
    ensures i + 1 + k < |ends| && !ends[i + 1 + k]
    ensures rows[i + 1 + k] == Ok(RowsOver(ends, rows, i).value[k])
    decreases k
  {
    if k > 0 {
      RowsReadInOrder(ends, rows, i + 1, k - 1);
    }
  }

  /** Running off the end of the document means no line after `i` ends the rows. */
  lemma {:induction false} NoTerminatorMeansNoEnd(ends: seq<bool>, rows: seq<Result<FtsColumn, FtsError>>, i: nat, j: nat)
    requires |ends| == |rows| && i < j < |ends|
    requires forall k :: 0 <= k < |rows| && rows[k].Err? ==> rows[k].error != NoTerminator
    requires RowsOver(ends, rows, i) == Err(NoTerminator)
    ensures !ends[j]
    decreases j - i
  {
    if j > i + 1 {
      NoTerminatorMeansNoEnd(ends, rows, i + 1, j);
    }
  }

  /** The rows a document yields end at a line that ends them, inside the document. */
  lemma RowsTerminated(read: string -> Result<FtsColumn, FtsError>, lines: seq<string>, i: nat)
    requires i < |lines| && RowsFrom(read, lines, i).Ok?
    ensures var n := |RowsFrom(read, lines, i).value|; i + 1 + n < |lines| && EndsFtsRows(lines[i + 1 + n])
  {
    var ends := EndFlags(lines);
    var rows := RowReads(read, lines);
    RowsEndAtTerminator(ends, rows, i);
  }

  /**
   * The `k`-th column a document yields is read from line `i + 1 + k`,
   * which does not end the rows.
   */
  lemma RowsReadFrom(read: string -> Result<FtsColumn, FtsError>, lines: seq<string>, i: nat, k: nat)
    requires i < |lines| && RowsFrom(read, lines, i).Ok?
    requires k < |RowsFrom(read, lines, i).value|
    ensures i + 1 + k < |lines| && !EndsFtsRows(lines[i + 1 + k])
    ensures read(lines[i + 1 + k]) == Ok(RowsFrom(read, lines, i).value[k])
  {
    var ends := EndFlags(lines);
    var rows := RowReads(read, lines);
    RowsReadInOrder(ends, rows, i, k);
  }

  /** Running off the end of the document means no line after `i` ends the rows. */
  lemma RowsUnterminated(d: Dialect, reader: seq<FtsAttribute>, lines: seq<string>, i: nat)
    requires |reader| == NAttrs(d) && i < |lines| && RowsFrom(RowReader(d, reader), lines, i) == Err(NoTerminator)
    ensures forall j :: i < j < |lines| ==> !EndsFtsRows(lines[j])
  {
    var ends := EndFlags(lines);
    var rows := RowReads(RowReader(d, reader), lines);
    forall k | 0 <= k < |rows| && rows[k].Err? ensures rows[k].error != NoTerminator {
      assert rows[k] == ReadRow(d, reader, lines[k]);
    }
    forall j | i < j < |lines| ensures !EndsFtsRows(lines[j]) {
      NoTerminatorMeansNoEnd(ends, rows, i, j);
    }
  }

  /**
   * The separator line of a document and its tokens: the reader is cut
   * from the separator first, so a separator with the wrong number of
   * tokens raises before the bounds are checked; then the separator must
   * be neither the first nor the last line.
   */
  function LocateSeparator(d: Dialect, lines: seq<string>, f: string): (r: Result<(nat, seq<string>), FtsError>)
    ensures r.Ok? ==> r.value.0 == ScanEnd(lines) && 1 <= r.value.0 <= |lines| - 2 && IsSeparatorAt(lines, r.value.0)
    ensures r.Ok? ==> r.value.1 == Split(lines[r.value.0], ' ') && |r.value.1| == NAttrs(d)
  {
    var i := ScanEnd(lines);
    var found := IsSeparatorAt(lines, i);
    var fields := if found then Split(lines[i], ' ') else [];
    if found && |fields| != NAttrs(d) then Err(AttrCount(|fields|))
    else if i < 1 || i > |lines| - 2 then Err(NotFound(f))
    else Ok((i, fields))
  }

  /** The column rows of a document: the rows after its separator line, cut by the separator's template. */
  function ReadColumns(d: Dialect, lines: seq<string>, f: string): Result<seq<FtsColumn>, FtsError> {
    var (i, fields) :- LocateSeparator(d, lines, f);
    RowsFrom(RowReader(d, ReaderOf(d, fields)), lines, i)
  }

  /**
   * The ways a document has no column definitions: no separator line at
   * all, or a separator on the first or the last line whose template
   * could be built.
   */
  lemma NotFoundCases(d: Dialect, lines: seq<string>, f: string)
    ensures LocateSeparator(d, lines, f) == Err(NotFound(f)) <==>
      || (forall j :: 0 <= j < |lines| ==> !McrLayout.IsSeparator(lines[j]))
      || (IsSeparatorAt(lines, ScanEnd(lines)) && |Split(lines[ScanEnd(lines)], ' ')| == NAttrs(d)
          && (ScanEnd(lines) == 0 || ScanEnd(lines) == |lines| - 1))
  {
  }

  /**
   * `read_file` reconciling a document's columns with those already read:
   * the first document sets them, a later one must have as many columns,
   * each equal to the one before it; the first unequal column is reported,
   * which raises differently when its order cannot be formatted.
   */
  function Reconcile(f: string, existing: Option<seq<FtsColumn>>, columns: seq<FtsColumn>): Result<seq<FtsColumn>, FtsError>
  {
    if existing.None? || existing.value == [] then Ok(columns)
    else if |columns| != |existing.value| then Err(CountMismatch(f))
    else
      var i := FirstDifference(columns, existing.value, 0);
      if i == |columns| then Ok(existing.value)
      else if columns[i].order.None? then Err(UnprintableColumn)
      else Err(ColumnMismatch(f, i))
  }

  /** The first index from `k` on at which the two layouts have unequal columns, or their length. */
  function FirstDifference(a: seq<FtsColumn>, b: seq<FtsColumn>, k: nat): (i: nat)
    requires |a| == |b| && k <= |a|
    ensures k <= i <= |a|
    ensures forall j :: k <= j < i ==> SameColumn(a[j], b[j])
    ensures i < |a| ==> !SameColumn(a[i], b[i])
    decreases |a| - k
  {
    if k == |a| || !SameColumn(a[k], b[k]) then k else FirstDifference(a, b, k + 1)
  }

  /**
   * Reconciling succeeds exactly when nothing was read yet or the layouts
   * agree column by column, and then keeps what was read before; a
   * mismatch names a column that really differs, after columns that agree.
   */
  lemma ReconcileIff(f: string, existing: Option<seq<FtsColumn>>, columns: seq<FtsColumn>)
    ensures Reconcile(f, existing, columns).Ok? <==>
      || existing.None? || existing.value == []
      || (|columns| == |existing.value| && forall j :: 0 <= j < |columns| ==> SameColumn(columns[j], existing.value[j]))
    ensures Reconcile(f, existing, columns).Ok? ==>
      Reconcile(f, existing, columns).value == if existing.None? || existing.value == [] then columns else existing.value
    ensures Reconcile(f, existing, columns).Err? && Reconcile(f, existing, columns).error.ColumnMismatch? ==>
      var i := Reconcile(f, existing, columns).error.i;
      && i < |columns| == |existing.value| && !SameColumn(columns[i], existing.value[i])
      && columns[i].order.Some?
      && forall j :: 0 <= j < i ==> SameColumn(columns[j], existing.value[j])
  {
  }

  /**
   * The columns a document yields before reconciling: open it, read its
   * rows, and add the dataset's synthetic columns.
   */
  function FileLayout(d: Dialect, name: string, docs: Docs): string -> Result<seq<FtsColumn>, FtsError> {
    f =>
      if f !in docs then Err(NoSuchFile(f))
      else
        var cols :- ReadColumns(d, docs[f], f);
        Ok(WithSynthetic(d, name, cols))
  }

  /** One document read with `layout` and reconciled with what was read before. */
  function ReadStep(layout: string -> Result<seq<FtsColumn>, FtsError>, f: string, existing: Option<seq<FtsColumn>>)
    : Result<seq<FtsColumn>, FtsError>
  {
    var cols :- layout(f);
    Reconcile(f, existing, cols)
  }

  /** `read_file` as a whole: the document's layout, reconciled with what was read before. */
  function ReadFileSpec(d: Dialect, name: string, docs: Docs, f: string, existing: Option<seq<FtsColumn>>)
    : Result<seq<FtsColumn>, FtsError>
  {
    ReadStep(FileLayout(d, name, docs), f, existing)
  }

  /** The separator search of `read_file`: the loop stops at the first separator line, else at the last line. */
  method FindSeparator(lines: seq<string>) returns (i: nat)
    ensures i == ScanEnd(lines)
  {
    i := 0;
    for k := 0 to |lines|
      invariant i == if k == 0 then 0 else k - 1
      invariant forall j :: 0 <= j < k ==> !McrLayout.IsSeparator(lines[j])
    {
      i := k;
      if McrLayout.IsSeparator(lines[k]) {
        SeparatorIsScanEnd(lines, k);
        return;
      }
    }
  }

  /** The first separator line is where the scan stops. */
  lemma SeparatorIsScanEnd(lines: seq<string>, k: nat)
    requires k < |lines| && McrLayout.IsSeparator(lines[k])
    requires forall j :: 0 <= j < k ==> !McrLayout.IsSeparator(lines[j])
    ensures ScanEnd(lines) == k
  {
  }

  /** The row loop of `read_file`: advance, stop at a line that ends the rows, read a column otherwise. */
  method ReadRows(read: string -> Result<FtsColumn, FtsError>, lines: seq<string>, start: nat)
    returns (r: Result<seq<FtsColumn>, FtsError>)
    requires start < |lines|
    ensures r == RowsFrom(read, lines, start)
  {
    ghost var ends := EndFlags(lines);
    ghost var rows := RowReads(read, lines);
    var columns: seq<FtsColumn> := [];
    var i := start;
    assert RowsFrom(read, lines, start) == Prefixed(columns, RowsOver(ends, rows, i)) by {
      if RowsOver(ends, rows, i).Ok? {
        assert columns + RowsOver(ends, rows, i).value == RowsOver(ends, rows, i).value;
      }
    }
    while i < |lines|
      invariant start <= i < |lines|
      invariant RowsFrom(read, lines, start) == Prefixed(columns, RowsOver(ends, rows, i))
      decreases |lines| - i
    {
      i := i + 1;
      if i == |lines| {
        return Err(NoTerminator);
      }
      var stop := EndsRowsAt(lines, i);
      if stop {
        break;
      }
      var column := ReadRowAt(read, lines, i);
      if column.Err? {
        return Err(column.error);
      }
      RowsStep(ends, rows, i - 1, columns);
      columns := columns + [column.value];
    }
    assert columns + [] == columns;
    return Ok(columns);
  }

  /** `not line.strip()`, `line.startswith("Note:")` and the end-of-document test on line `i`. */
  method EndsRowsAt(lines: seq<string>, i: nat) returns (stop: bool)
    requires i < |lines|
    ensures stop == EndFlags(lines)[i]
  {
    var line := lines[i];
    stop := EndsFtsRows(line);
  }

  /** `column_reader.read(line)` on line `i`. */
  method ReadRowAt(read: string -> Result<FtsColumn, FtsError>, lines: seq<string>, i: nat) returns (column: Result<FtsColumn, FtsError>)
    requires i < |lines|
    ensures column == RowReads(read, lines)[i]
  {
    column := read(lines[i]);
  }

  /** One row read, the rest to come. */
  lemma RowsStep(ends: seq<bool>, rows: seq<Result<FtsColumn, FtsError>>, i: nat, done: seq<FtsColumn>)
    requires |ends| == |rows| && i + 1 < |ends| && !ends[i + 1] && rows[i + 1].Ok?
    ensures Prefixed(done, RowsOver(ends, rows, i)) == Prefixed(done + [rows[i + 1].value], RowsOver(ends, rows, i + 1))
  {
    if RowsOver(ends, rows, i + 1).Ok? {
      assert done + [rows[i + 1].value] + RowsOver(ends, rows, i + 1).value
          == done + ([rows[i + 1].value] + RowsOver(ends, rows, i + 1).value);
    }
  }

  /** The rows read so far followed by the outcome of the rest. */
  function Prefixed(done: seq<FtsColumn>, rest: Result<seq<FtsColumn>, FtsError>): Result<seq<FtsColumn>, FtsError> {
    if rest.Err? then rest else Ok(done + rest.value)
  }

  /** The reconciliation loop of `read_file`. */
  method ReconcileColumns(f: string, existing: Option<seq<FtsColumn>>, columns: seq<FtsColumn>)
    returns (r: Result<seq<FtsColumn>, FtsError>)
    ensures r == Reconcile(f, existing, columns)
  {
    if existing.None? || existing.value == [] {
      return Ok(columns);
    }
    var previous := existing.value;
    if |columns| != |previous| {
      return Err(CountMismatch(f));
    }
    for i := 0 to |columns|
      invariant FirstDifference(columns, previous, 0) >= i
    {
      if !SameColumn(columns[i], previous[i]) {
        if columns[i].order.None? {
          return Err(UnprintableColumn);
        }
        return Err(ColumnMismatch(f, i));
      }
    }
    return Ok(previous);
  }

  // ---------------------------------------------------------------------
  // Datasets
  // ---------------------------------------------------------------------

  /** `CMSFTS.common_indices`: the indexed columns every dataset starts from. */
  const CommonIndices: seq<string> := ["BENE_ID", "EL_DOB", "EL_SEX_CD", "EL_DOD", "EL_RACE_ETHNCY_CD", FileColumnName]

  /** `MEDICARE_FILE_TYPES`. */
  const MedicareFileTypes: seq<string> := ["mbsf_ab", "mbsf_d", "mbsf_abcd", "medpar"]

  /** The Medicaid primary key: person, state and year for `ps`, file and record for `ip`. */
  function MedicaidKey(name: string): seq<string> {
    if name == "ps" then ["MSIS_ID", "STATE_CD", "MAX_YR_DT"] else [FileColumnName, "RECORD"]
  }

  /** What a Medicaid dataset adds to the common indices. */
  function MedicaidExtras(name: string): seq<string> {
    if name == "ps" then MedicaidKey(name) + ["EL_AGE_GRP_CD"] else ["MSIS_ID", "STATE_CD", "YR_NUM", "RECORD"]
  }

  /** The year column of a Medicare dataset, or `None` where the source raises `ValueError`. */
  function YearColumnOf(name: string): Option<string> {
    if StartsWith(name, "mbsf") then Some("RFRNC_YR")
    else if name == "medpar" then Some("MEDPAR_YR_NUM")
    else None
  }

  /** The `ValueError` branch is never taken: every Medicare file type has a year column. */
  lemma MedicareYearKnown(name: string)
    requires name in MedicareFileTypes
    ensures YearColumnOf(name) == Some(if name == "medpar" then "MEDPAR_YR_NUM" else "RFRNC_YR")
  {
    assert StartsWith("mbsf_ab", "mbsf") && StartsWith("mbsf_d", "mbsf") && StartsWith("mbsf_abcd", "mbsf");
    assert !StartsWith("medpar", "mbsf") by { assert "medpar"[1] != "mbsf"[1]; }
  }

  /** What a Medicare dataset adds to the common indices: the beneficiary, the year, and the state for `mbsf_ab*`. */
  function MedicareExtras(name: string): seq<string>
    requires name in MedicareFileTypes
  {
    MedicareYearKnown(name);
    ["BENE_ID", YearColumnOf(name).value] + (if StartsWith(name, "mbsf_ab") then ["STATE_CD"] else [])
  }

  /** The state column is indexed for the `mbsf_ab` and `mbsf_abcd` files and for no other Medicare file. */
  lemma MedicareStateIndexed(name: string)
    requires name in MedicareFileTypes
    ensures "STATE_CD" in MedicareExtras(name) <==> name == "mbsf_ab" || name == "mbsf_abcd"
    ensures "BENE_ID" in MedicareExtras(name)
  {
    assert StartsWith("mbsf_ab", "mbsf_ab") && StartsWith("mbsf_abcd", "mbsf_ab");
    assert !StartsWith("mbsf_d", "mbsf_ab") && !StartsWith("medpar", "mbsf_ab");
    MedicareYearKnown(name);
  }

  /** The two Medicare datasets the leak below builds are valid lower-case file types. */
  lemma MbsfMedparNames()
    ensures Lower("mbsf_ab") == "mbsf_ab" && Lower("medpar") == "medpar"
    ensures "mbsf_ab" in MedicareFileTypes && "medpar" in MedicareFileTypes
  {
    MbsfLower();
    MedparLower();
  }

  lemma MbsfLower()
    ensures Lower("mbsf_ab") == "mbsf_ab"
  {
    var s := "mbsf_ab";
    assert s[0] == 'm' && s[1] == 'b' && s[2] == 's' && s[3] == 'f' && s[4] == '_' && s[5] == 'a' && s[6] == 'b';
    LowerUnchanged(s);
  }

  lemma MedparLower()
    ensures Lower("medpar") == "medpar"
  {
    var s := "medpar";
    assert s[0] == 'm' && s[1] == 'e' && s[2] == 'd' && s[3] == 'p' && s[4] == 'a' && s[5] == 'r';
    LowerUnchanged(s);
  }

  /**
   * `mbsf_ab` adds the state and `RFRNC_YR`; `medpar` adds neither, and
   * the common indices hold neither (no name there has their length).
   */
  lemma MbsfMedparExtras()
    ensures "STATE_CD" in MedicareExtras("mbsf_ab") && "RFRNC_YR" in MedicareExtras("mbsf_ab")
    ensures "STATE_CD" !in MedicareExtras("medpar") && "RFRNC_YR" !in MedicareExtras("medpar")
    ensures "STATE_CD" !in CommonIndices && "RFRNC_YR" !in CommonIndices
  {
    MedicareStateIndexed("mbsf_ab");
    MedicareYearKnown("mbsf_ab");
    MedicareYearKnown("medpar");
    assert !StartsWith("medpar", "mbsf_ab") by { assert "medpar"[1] != "mbsf_ab"[1]; }
    assert MedicareExtras("medpar") == ["BENE_ID", "MEDPAR_YR_NUM"];
    assert forall x :: x in MedicareExtras("medpar") ==> |x| != 8;
    assert forall x :: x in CommonIndices ==> |x| != 8;
  }

  /** The indices of a dataset built on its own. */
  function IndicesOf(d: Dialect, name: string): seq<string>
    requires d == Medicare ==> name in MedicareFileTypes
  {
    CommonIndices + if d == Medicaid then MedicaidExtras(name) else MedicareExtras(name)
  }

  /** The Medicaid age group is indexed only for `ps`, and the file column always. */
  lemma MedicaidIndices(name: string)
    ensures "EL_AGE_GRP_CD" in IndicesOf(Medicaid, name) <==> name == "ps"
    ensures FileColumnName in IndicesOf(Medicaid, name)
    ensures "MAX_YR_DT" in IndicesOf(Medicaid, name) <==> name == "ps"
    ensures "YR_NUM" in IndicesOf(Medicaid, name) <==> name != "ps"
  {
    assert CommonIndices[5] == FileColumnName;
    if name != "ps" {
      assert IndicesOf(Medicaid, name) == CommonIndices + ["MSIS_ID", "STATE_CD", "YR_NUM", "RECORD"];
    }
  }

  /** A mutable list of column names, as Python lists are: several datasets can hold the same one. */
  class IndexList {
    var items: seq<string>

    constructor(items: seq<string>)
      ensures this.items == items
    {
      this.items := items;
    }
  }

  /** A `CMSFTS` dataset: its name, dialect, key and indices, and the columns read so far. */
  class CmsFts {
    const name: string
    const dialect: Dialect
    const pk: seq<string>
    const indices: IndexList
    var columns: Option<seq<FtsColumn>>

    constructor(name: string, dialect: Dialect, pk: seq<string>, indices: IndexList)
      ensures this.name == name && this.dialect == dialect && this.pk == pk && this.indices == indices
      ensures columns.None?
    {
      this.name := name;
      this.dialect := dialect;
      this.pk := pk;
      this.indices := indices;
      this.columns := None;
    }

    /**
     * `read_file`: the columns become the document's on the first read and
     * stay as they were on a later one that agrees; nothing changes when
     * reading raises.
     */
    method ReadFile(docs: Docs, f: string) returns (r: Result<(), FtsError>)
      modifies this`columns
      ensures r.Err? ==> ReadFileSpec(dialect, name, docs, f, old(columns)) == Err(r.error) && columns == old(columns)
      ensures r.Ok? ==> ReadFileSpec(dialect, name, docs, f, old(columns)).Ok?
      ensures r.Ok? ==> columns == Some(ReadFileSpec(dialect, name, docs, f, old(columns)).value)
    {
      if f !in docs {
        return Err(NoSuchFile(f));
      }
      var lines := docs[f];
      var i := FindSeparator(lines);
      var fields: seq<string> := [];
      if IsSeparatorAt(lines, i) {
        fields := Split(lines[i], ' ');
        var reader := NewColumnReader(dialect, lines[i]);
        if reader.Err? {
          return Err(reader.error);
        }
      }
      if i < 1 || i > |lines| - 2 {
        return Err(NotFound(f));
      }
      NotFoundCases(dialect, lines, f);
      var read := ReadRows(RowReader(dialect, ReaderOf(dialect, fields)), lines, i);
      if read.Err? {
        return Err(read.error);
      }
      var all := WithSynthetic(dialect, name, read.value);
      var reconciled := ReconcileColumns(f, columns, all);
      if reconciled.Err? {
        return Err(reconciled.error);
      }
      columns := Some(reconciled.value);
      return Ok(());
    }

    /**
     * `MedicaidFTS.init`: read every document the pattern finds, in the
     * order found, stopping at the first that raises.
     */
    method InitFiles(docs: Docs, files: seq<string>) returns (r: Result<(), FtsError>)
      modifies this`columns
      ensures r.Err? ==> ReadAll(FileLayout(dialect, name, docs), files, old(columns)) == Err(r.error)
      ensures r.Ok? ==> ReadAll(FileLayout(dialect, name, docs), files, old(columns)) == Ok(columns)
    {
      ghost var layout := FileLayout(dialect, name, docs);
      for k := 0 to |files|
        invariant ReadAll(layout, files, old(columns)) == ReadAll(layout, files[k..], columns)
      {
        ReadAllNext(layout, files, k, columns);
        var step := ReadFile(docs, files[k]);
        if step.Err? {
          return Err(step.error);
        }
      }
      return Ok(());
    }

    /** `to_dict`: the table of this dataset with its own indices and key. */
    function ToDict(): Result<Table, FtsError>
      reads this, indices
    {
      TableOf(name, indices.items, columns, pk)
    }
  }

  /** Reading several documents in order with `layout`, each reconciled with the columns before it. */
  function ReadAll(layout: string -> Result<seq<FtsColumn>, FtsError>, files: seq<string>, columns: Option<seq<FtsColumn>>)
    : Result<Option<seq<FtsColumn>>, FtsError>
    decreases |files|
  {
    if files == [] then Ok(columns)
    else
      var next :- ReadStep(layout, files[0], columns);
      ReadAll(layout, files[1..], Some(next))
  }

  /** Reading from the `k`-th document on: its step, then the rest, or its error. */
  lemma ReadAllNext(layout: string -> Result<seq<FtsColumn>, FtsError>, files: seq<string>, k: nat, columns: Option<seq<FtsColumn>>)
    requires k < |files|
    ensures ReadStep(layout, files[k], columns).Err? ==>
              ReadAll(layout, files[k..], columns) == Err(ReadStep(layout, files[k], columns).error)
    ensures ReadStep(layout, files[k], columns).Ok? ==>
              ReadAll(layout, files[k..], columns) == ReadAll(layout, files[k + 1..], Some(ReadStep(layout, files[k], columns).value))
  {
    assert files[k..][0] == files[k] && files[k..][1..] == files[k + 1..];
  }

  /**
   * Every document of a dataset that was read without error has the
   * layout that was kept: as many columns, each equal to the kept one.
   * With no documents, nothing is kept.
   */
  lemma {:induction false} ReadAllAgree(layout: string -> Result<seq<FtsColumn>, FtsError>, files: seq<string>)
    requires forall f :: layout(f).Ok? ==> layout(f).value != []
    ensures ReadAll(layout, files, None).Ok? ==> (ReadAll(layout, files, None).value.None? <==> files == [])
    ensures ReadAll(layout, files, None).Ok? && files != [] ==>
      var kept := ReadAll(layout, files, None).value.value;
      forall k :: 0 <= k < |files| ==>
        && layout(files[k]).Ok? && |layout(files[k]).value| == |kept|
        && forall j :: 0 <= j < |kept| ==> SameColumn(layout(files[k]).value[j], kept[j])
  {
    if files != [] && ReadAll(layout, files, None).Ok? {
      var first := layout(files[0]).value;
      ReadLaterAgree(layout, files[1..], first);
      assert ReadAll(layout, files, None) == ReadAll(layout, files[1..], Some(first));
      forall k | 0 <= k < |files|
        ensures layout(files[k]).Ok? && |layout(files[k]).value| == |first|
        ensures forall j :: 0 <= j < |first| ==> SameColumn(layout(files[k]).value[j], first[j])
      {
        if k > 0 {
          assert files[k] == files[1..][k - 1];
        }
      }
    }
  }

  /** A document that reads without error always has the synthetic file column, so its layout is never empty. */
  lemma SyntheticNonEmpty(d: Dialect, name: string, docs: Docs)
    ensures forall f :: FileLayout(d, name, docs)(f).Ok? ==> FileLayout(d, name, docs)(f).value != []
  {
  }

  /** Once a non-empty layout is kept, later documents leave it as it is and each agrees with it. */
  lemma {:induction false} ReadLaterAgree(layout: string -> Result<seq<FtsColumn>, FtsError>, files: seq<string>, kept: seq<FtsColumn>)
    requires kept != []
    ensures ReadAll(layout, files, Some(kept)).Ok? ==>
      && ReadAll(layout, files, Some(kept)).value == Some(kept)
      && forall k :: 0 <= k < |files| ==>
           && layout(files[k]).Ok? && |layout(files[k]).value| == |kept|
           && forall j :: 0 <= j < |kept| ==> SameColumn(layout(files[k]).value[j], kept[j])
    decreases |files|
  {
    if files != [] && ReadAll(layout, files, Some(kept)).Ok? {
      var f := files[0];
      ReconcileIff(f, Some(kept), layout(f).value);
      ReadLaterAgree(layout, files[1..], kept);
      forall k | 0 <= k < |files|
        ensures layout(files[k]).Ok? && |layout(files[k]).value| == |kept|
        ensures forall j :: 0 <= j < |kept| ==> SameColumn(layout(files[k]).value[j], kept[j])
      {
        if k > 0 {
          assert files[k] == files[1..][k - 1];
        }
      }
    }
  }

  /**
   * `MedicaidFTS(type_of_data)`: the name is lower-cased and must be `ps`
   * or `ip`; the dataset gets its own copy of the common indices extended
   * by its key columns.
   */
  method NewMedicaid(typeOfData: string) returns (r: Result<CmsFts, FtsError>)
    ensures r.Err? <==> Lower(typeOfData) !in ["ps", "ip"]
    ensures r.Err? ==> r.error == BadName(Lower(typeOfData))
    ensures r.Ok? ==> fresh(r.value) && fresh(r.value.indices)
    ensures r.Ok? ==> r.value.name == Lower(typeOfData) && r.value.dialect == Medicaid && r.value.columns.None?
    ensures r.Ok? ==> r.value.pk == MedicaidKey(r.value.name) && r.value.indices.items == IndicesOf(Medicaid, r.value.name)
  {
    var name := Lower(typeOfData);
    if name !in ["ps", "ip"] {
      return Err(BadName(name));
    }
    var indices := new IndexList(IndicesOf(Medicaid, name));
    var dataset := new CmsFts(name, Medicaid, MedicaidKey(name), indices);
    return Ok(dataset);
  }

  /**
   * `MedicareFTS(type_of_data)`: the name is lower-cased and must be one
   * of the Medicare file types; the key is file and record, and the
   * dataset gets its own copy of the common indices extended by its own.
   */
  method NewMedicare(typeOfData: string) returns (r: Result<CmsFts, FtsError>)
    ensures r.Err? <==> Lower(typeOfData) !in MedicareFileTypes
    ensures r.Err? ==> r.error == BadName(Lower(typeOfData))
    ensures r.Ok? ==> fresh(r.value) && fresh(r.value.indices)
    ensures r.Ok? ==> r.value.name == Lower(typeOfData) && r.value.dialect == Medicare && r.value.columns.None?
    ensures r.Ok? ==> r.value.pk == [FileColumnName, "RECORD"]
    ensures r.Ok? ==> r.value.name in MedicareFileTypes && r.value.indices.items == IndicesOf(Medicare, r.value.name)
  {
    var name := Lower(typeOfData);
    if name !in MedicareFileTypes {
      return Err(BadName(name));
    }
    var indices := new IndexList(IndicesOf(Medicare, name));
    var dataset := new CmsFts(name, Medicare, [FileColumnName, "RECORD"], indices);
    return Ok(dataset);
  }

  /**
   * `MedicareFTS.init(path)`: one document, read from the given path.
   */
  method InitMedicare(dataset: CmsFts, docs: Docs, path: string) returns (r: Result<(), FtsError>)
    modifies dataset`columns
    ensures r.Err? ==> ReadFileSpec(dataset.dialect, dataset.name, docs, path, old(dataset.columns)) == Err(r.error)
    ensures r.Ok? ==> ReadFileSpec(dataset.dialect, dataset.name, docs, path, old(dataset.columns)).Ok?
    ensures r.Ok? ==> dataset.columns == Some(ReadFileSpec(dataset.dialect, dataset.name, docs, path, old(dataset.columns)).value)
  {
    r := dataset.ReadFile(docs, path);
  }

  // ---------------------------------------------------------------------
  // The indices as written: one list shared by every dataset
  // ---------------------------------------------------------------------

  /**
   * `MedicaidFTS(type_of_data)` as written: `self.indices` is the
   * class-level list itself, and `+=` and `append` extend it in place, so
   * the extension is seen by every dataset, earlier and later.
   */
  method NewMedicaidShared(typeOfData: string, common: IndexList) returns (r: Result<CmsFts, FtsError>)
    modifies common
    ensures r.Err? <==> Lower(typeOfData) !in ["ps", "ip"]
    ensures r.Err? ==> common.items == old(common.items)
    ensures r.Ok? ==> fresh(r.value) && r.value.indices == common
    ensures r.Ok? ==> r.value.name == Lower(typeOfData) && r.value.dialect == Medicaid
    ensures r.Ok? ==> common.items == old(common.items) + MedicaidExtras(r.value.name)
  {
    var name := Lower(typeOfData);
    if name !in ["ps", "ip"] {
      return Err(BadName(name));
    }
    common.items := common.items + MedicaidExtras(name);
    var dataset := new CmsFts(name, Medicaid, MedicaidKey(name), common);
    return Ok(dataset);
  }

  /**
   * Building `ps` and then `ip` in one process, as the registry does:
   * with the shared list, `ip` indexes the `ps`-only age group and year
   * columns, and `ps` sees the `ip` additions.
   */
  method SharedIndicesLeak() returns (ps: CmsFts, ip: CmsFts)
    ensures ps.indices == ip.indices
    ensures "EL_AGE_GRP_CD" in ip.indices.items && "MAX_YR_DT" in ip.indices.items
    ensures "YR_NUM" in ps.indices.items
  {
    var common := new IndexList(CommonIndices);
    LowerUnchanged("ps");
    LowerUnchanged("ip");
    var first := NewMedicaidShared("ps", common);
    ghost var afterPs := common.items;
    assert |CommonIndices| == 6 && afterPs[6..] == MedicaidExtras("ps");
    assert afterPs[9] == "EL_AGE_GRP_CD" && afterPs[8] == "MAX_YR_DT";
    var second := NewMedicaidShared("ip", common);
    assert common.items[..10] == afterPs && common.items[10..] == MedicaidExtras("ip");
    assert common.items[12] == "YR_NUM";
    assert common.items[9] == afterPs[9] && common.items[8] == afterPs[8];
    ps := first.value;
    ip := second.value;
  }

  /**
   * The same two datasets with their own lists: `ip` indexes neither the
   * age group nor the `ps` year column, and `ps` does not index `YR_NUM`.
   */
  method SeparateIndices() returns (ps: CmsFts, ip: CmsFts)
    ensures ps.indices != ip.indices
    ensures "EL_AGE_GRP_CD" !in ip.indices.items && "MAX_YR_DT" !in ip.indices.items
    ensures "EL_AGE_GRP_CD" in ps.indices.items && "YR_NUM" !in ps.indices.items
  {
    LowerUnchanged("ps");
    LowerUnchanged("ip");
    var first := NewMedicaid("ps");
    var second := NewMedicaid("ip");
    ps := first.value;
    ip := second.value;
    MedicaidIndices("ps");
    MedicaidIndices("ip");
  }

  /**
   * `MedicareFTS(type_of_data)` as written: the list inherited from
   * `CMSFTS.__init__` is the class-level one, so `+=` and `append` extend
   * the list every dataset of the process holds.
   */
  method NewMedicareShared(typeOfData: string, common: IndexList) returns (r: Result<CmsFts, FtsError>)
    modifies common
    ensures r.Err? <==> Lower(typeOfData) !in MedicareFileTypes
    ensures r.Err? ==> common.items == old(common.items)
    ensures r.Ok? ==> fresh(r.value) && r.value.indices == common
    ensures r.Ok? ==> r.value.name == Lower(typeOfData) && r.value.dialect == Medicare && r.value.pk == [FileColumnName, "RECORD"]
    ensures r.Ok? ==> r.value.name in MedicareFileTypes && common.items == old(common.items) + MedicareExtras(r.value.name)
  {
    var name := Lower(typeOfData);
    if name !in MedicareFileTypes {
      return Err(BadName(name));
    }
    common.items := common.items + MedicareExtras(name);
    var dataset := new CmsFts(name, Medicare, [FileColumnName, "RECORD"], common);
    return Ok(dataset);
  }

  /**
   * Building `mbsf_ab` and then `medpar` in one process: with the shared
   * list, `medpar` indexes the state and the `mbsf` year column.
   */
  method SharedMedicareLeak() returns (mbsf: CmsFts, medpar: CmsFts)
    ensures mbsf.indices == medpar.indices
    ensures "STATE_CD" in medpar.indices.items && "RFRNC_YR" in medpar.indices.items
  {
    var common := new IndexList(CommonIndices);
    MbsfMedparNames();
    MbsfMedparExtras();
    var first := NewMedicareShared("mbsf_ab", common);
    var second := NewMedicareShared("medpar", common);
    mbsf := first.value;
    medpar := second.value;
  }

  /**
   * The same two datasets with their own lists: `medpar` indexes neither
   * the state nor `RFRNC_YR`, while `mbsf_ab` indexes both.
   */
  method SeparateMedicareIndices() returns (mbsf: CmsFts, medpar: CmsFts)
    ensures mbsf.indices != medpar.indices
    ensures "STATE_CD" !in medpar.indices.items && "RFRNC_YR" !in medpar.indices.items
    ensures "STATE_CD" in mbsf.indices.items && "RFRNC_YR" in mbsf.indices.items
  {
    MbsfMedparNames();
    MbsfMedparExtras();
    var first := NewMedicare("mbsf_ab");
    var second := NewMedicare("medpar");
    mbsf := first.value;
    medpar := second.value;
  }

  /** With the shared list, an `ip` age-group column is marked for an index it should not have. */
  lemma SharedIndexMarksAgeGroup(shared: seq<string>, c: FtsColumn)
    requires "EL_AGE_GRP_CD" in shared && c.column == "EL_AGE_GRP_CD" && ToSqlType(c).Ok?
    ensures ColumnToDict(shared, c).value.index == Indexed
    ensures ColumnToDict(IndicesOf(Medicaid, "ip"), c).value.index == NoIndex
  {
    MedicaidIndices("ip");
  }
}
