/**
 * The column side of `cms/fts2yaml.py`: the `ColumnReader` template cut
 * from the separator line of a layout document, the `FTSColumn` records
 * of the Medicaid and Medicare dialects, their equality, the SQL type a
 * column maps to, and the registry entry each column becomes.
 */
module FtsColumns {
  import opened Wrappers
  import opened PyText
  import McrLayout

  /** The two dialects of layout documents: Medicaid rows have six attributes, Medicare rows seven. */
  datatype Dialect = Medicaid | Medicare

  /** `constructor.nattrs`. */
  function NAttrs(d: Dialect): nat {
    if d == Medicaid then 6 else 7
  }

  /**
   * `constructor.conv(i)`: `int` for the order and the width (Medicaid) or
   * the order, the start and the width (Medicare), `str` for the rest.
   */
  predicate IntAttr(d: Dialect, i: nat) {
    i == 0 || i == 4 || (d == Medicare && i == 5)
  }

  /** The exceptions raised while the schema of a dataset is built. */
  datatype FtsError =
    | AttrCount(n: nat)                   // `assert len(fields) == constructor.nattrs`
    | NotFound(file: string)              // "Column definitions are not found in ..."
    | NoTerminator                        // `lines[i]` past the last line in the row loop
    | MissingPlacement                    // `start - 1` or `start + width` on a `None`
    | CountMismatch(file: string)         // "Reconciliation required: ..., number of columns"
    | ColumnMismatch(file: string, i: nat) // "Reconciliation required: ..., column: ..."
    | UnprintableColumn                   // `str(column)` formats a `None` order with `{:d}`
    | EmptyFormat                         // `self.format[0]` on an empty format
    | ScaleCall                           // `int(x(1))` calls a list
    | NoWidth                             // `"{:d}".format(None)` for a missing width
    | UnexpectedType(t: string)           // "Unexpected column type: ..."
    | NoColumns                           // iterating `self.columns` while it is `None`
    | BadName(name: string)               // the dialect's `assert self.name in [...]`
    | NoSuchFile(file: string)            // opening a file that is not there

  // ---------------------------------------------------------------------
  // ColumnReader
  // ---------------------------------------------------------------------

  /** A `ColumnAttribute`: characters `[start, end)` of a row, or `[start:]` when `end` is `None`. */
  datatype FtsAttribute = FtsAttribute(start: int, end: Option<int>, isInt: bool)

  /** What `ColumnAttribute.arg` returns: an `int`, a `str`, or the `None` of a failed conversion. */
  datatype Parsed = AnInt(n: int) | AText(s: string) | ANone

  /** The `i`-th attribute of the template of a separator line: the last one is open. */
  function SpanOf(d: Dialect, fields: seq<string>, i: nat): FtsAttribute
    requires i < |fields|
  {
    var o := McrLayout.Offset(fields, i);
    FtsAttribute(o, if i == |fields| - 1 then None else Some(o + |fields[i]|), IntAttr(d, i))
  }

  /** The template of a separator line: one span per token. */
  function ReaderOf(d: Dialect, fields: seq<string>): (attrs: seq<FtsAttribute>)
    ensures |attrs| == |fields|
    ensures forall i {:trigger attrs[i]} :: 0 <= i < |fields| ==> attrs[i] == SpanOf(d, fields, i)
  {
    seq(|fields|, i requires 0 <= i < |fields| => SpanOf(d, fields, i))
  }

  /**
   * `ColumnReader(constructor, pattern)`: split the separator line at single
   * spaces, demand the dialect's number of tokens, lay the attributes out
   * with a running offset, and open the last one.
   */
  method NewColumnReader(d: Dialect, pattern: string) returns (r: Result<seq<FtsAttribute>, FtsError>)
    ensures |Split(pattern, ' ')| != NAttrs(d) ==> r == Err(AttrCount(|Split(pattern, ' ')|))
    ensures |Split(pattern, ' ')| == NAttrs(d) ==> r == Ok(ReaderOf(d, Split(pattern, ' ')))
  {
    var fields := Split(pattern, ' ');
    if |fields| != NAttrs(d) {
      return Err(AttrCount(|fields|));
    }
    var attributes: seq<FtsAttribute> := [];
    var c := 0;
    for i := 0 to |fields|
      invariant c == McrLayout.Offset(fields, i)
      invariant |attributes| == i
      invariant forall j :: 0 <= j < i ==>
        attributes[j] == FtsAttribute(McrLayout.Offset(fields, j), Some(McrLayout.Offset(fields, j) + |fields[j]|), IntAttr(d, j))
    {
      var l := |fields[i]|;
      var f := i == 0 || i == 4 || (d == Medicare && i == 5);
      attributes := attributes + [FtsAttribute(c, Some(c + l), f)];
      c := c + l + 1;
    }
    var last := |attributes| - 1;
    OpenLast(d, fields, attributes);
    attributes := attributes[last := attributes[last].(end := None)];
    return Ok(attributes);
  }

  /** Closed spans laid out with the running offset, once the last is opened, are the template. */
  lemma OpenLast(d: Dialect, fields: seq<string>, closed: seq<FtsAttribute>)
    requires |closed| == |fields| > 0
    requires forall j :: 0 <= j < |fields| ==>
      closed[j] == FtsAttribute(McrLayout.Offset(fields, j), Some(McrLayout.Offset(fields, j) + |fields[j]|), IntAttr(d, j))
    ensures closed[|closed| - 1 := closed[|closed| - 1].(end := None)] == ReaderOf(d, fields)
  {
    var spans := closed[|closed| - 1 := closed[|closed| - 1].(end := None)];
    var reader := ReaderOf(d, fields);
    forall j | 0 <= j < |fields| ensures spans[j] == reader[j] {
      var o := McrLayout.Offset(fields, j);
      assert reader[j] == SpanOf(d, fields, j);
      if j == |fields| - 1 {
        assert spans[j] == FtsAttribute(o, None, IntAttr(d, j));
      } else {
        assert spans[j] == closed[j] == FtsAttribute(o, Some(o + |fields[j]|), IntAttr(d, j));
      }
    }
    assert spans == reader;
  }

  /** The length of the joined tokens: the start of the last token plus its length. */
  lemma {:induction false} JoinLength(fields: seq<string>)
    requires |fields| > 0
    ensures |Join(fields, ' ')| == McrLayout.Offset(fields, |fields| - 1) + |fields[|fields| - 1]|
    decreases |fields|
  {
    if |fields| > 1 {
      var rest := fields[1..];
      JoinLength(rest);
      McrLayout.OffsetShift(fields, |fields| - 1);
      assert rest[|rest| - 1] == fields[|fields| - 1];
      assert |Join(fields, ' ')| == |fields[0]| + 1 + |Join(rest, ' ')|;
    }
  }

  /** A span before the last cuts its token out of the joined tokens. */
  lemma InnerCut(d: Dialect, fields: seq<string>, i: nat)
    requires i < |fields| - 1
    ensures Slice(Join(fields, ' '), SpanOf(d, fields, i).start, SpanOf(d, fields, i).end) == fields[i]
  {
    McrLayout.OffsetCutsToken(fields, i);
  }

  /** The last, open span cuts the last token. */
  lemma LastCut(d: Dialect, fields: seq<string>)
    requires |fields| > 0
    ensures Slice(Join(fields, ' '), SpanOf(d, fields, |fields| - 1).start, None) == fields[|fields| - 1]
  {
    var joined := Join(fields, ' ');
    var o := McrLayout.Offset(fields, |fields| - 1);
    McrLayout.OffsetCutsToken(fields, |fields| - 1);
    JoinLength(fields);
    assert joined[o..] == joined[o..o + |fields[|fields| - 1]|];
  }

  /** Each span of the reader cuts its own token out of the joined tokens. */
  lemma ReaderCut(d: Dialect, fields: seq<string>, i: nat)
    requires i < |fields|
    ensures Slice(Join(fields, ' '), SpanOf(d, fields, i).start, SpanOf(d, fields, i).end) == fields[i]
  {
    if i < |fields| - 1 {
      InnerCut(d, fields, i);
    } else {
      LastCut(d, fields);
    }
  }

  /**
   * The reader's spans are contiguous, one byte apart and starting at 0;
   * only the last is open, and the integer attributes are the dialect's.
   */
  lemma ReaderSpans(d: Dialect, fields: seq<string>)
    requires |fields| == NAttrs(d)
    ensures ReaderOf(d, fields)[0].start == 0
    ensures forall i :: 0 <= i < |fields| - 1 ==>
      ReaderOf(d, fields)[i].end == Some(ReaderOf(d, fields)[i].start + |fields[i]|)
    ensures forall i :: 0 <= i < |fields| - 1 ==>
      ReaderOf(d, fields)[i + 1].start == ReaderOf(d, fields)[i].start + |fields[i]| + 1
    ensures ReaderOf(d, fields)[|fields| - 1].end.None?
    ensures forall i :: 0 <= i < |fields| ==> (ReaderOf(d, fields)[i].isInt <==> IntAttr(d, i))
  {
  }

  /** Each span of the reader built from a separator line cuts its own token out of that line. */
  lemma ReaderCuts(d: Dialect, pattern: string)
    ensures forall i :: 0 <= i < |Split(pattern, ' ')| ==>
      Slice(pattern, ReaderOf(d, Split(pattern, ' '))[i].start, ReaderOf(d, Split(pattern, ' '))[i].end) == Split(pattern, ' ')[i]
  {
    var fields := Split(pattern, ' ');
    JoinSplit(pattern, ' ');
    forall i | 0 <= i < |fields|
      ensures Slice(pattern, ReaderOf(d, fields)[i].start, ReaderOf(d, fields)[i].end) == fields[i]
    {
      ReaderCut(d, fields, i);
    }
  }

  /** `ColumnAttribute.arg`: the stripped text under the attribute, converted; `None` where `int` raises. */
  function ArgOf(a: FtsAttribute, line: string): (r: Parsed)
    ensures !a.isInt ==> r == AText(Strip(Slice(line, a.start, a.end)))
    ensures a.isInt ==> (r.ANone? <==> ParseInt(Strip(Slice(line, a.start, a.end))).None?)
    ensures a.isInt && r.AnInt? ==> ParseInt(Slice(line, a.start, a.end)) == Some(r.n)
  {
    var text := Strip(Slice(line, a.start, a.end));
    ParseIntStripped(Slice(line, a.start, a.end));
    if a.isInt then
      match ParseInt(text)
      case Some(n) => AnInt(n)
      case None => ANone
    else AText(text)
  }

  // ---------------------------------------------------------------------
  // FTSColumn
  // ---------------------------------------------------------------------

  /** Where a Medicare column lies in a record: `long_name`, 0-based `start`, and `end`. */
  datatype Placement = Placement(longName: string, start: int, end: int)

  /**
   * An `FTSColumn`: its order, short name, type, format, width and label;
   * a Medicare column also has its placement, which is set after the
   * attributes that equality compares are listed.
   */
  datatype FtsColumn = FtsColumn(
    order: Option<int>,
    column: string,
    ctype: string,
    format: Option<string>,
    width: Option<int>,
    labelText: string,
    placement: Option<Placement>)

  function IntOf(p: Parsed): Option<int> {
    if p.AnInt? then Some(p.n) else None
  }

  function TextOf(p: Parsed): string {
    if p.AText? then p.s else []
  }

  /**
   * `constructor(*attrs)`: `MedicaidFTSColumn` takes the six values in
   * order; `MedicareFTSColumn` has no format, makes `start` 0-based and
   * `end = start + width`, which raises when either is `None`.
   */
  function NewColumn(d: Dialect, args: seq<Parsed>): (r: Result<FtsColumn, FtsError>)
    requires |args| == NAttrs(d)
    ensures r.Err? ==> r.error == MissingPlacement
    ensures d == Medicaid ==> r.Ok? && r.value.placement.None? && r.value.format == Some(TextOf(args[3]))
    ensures d == Medicare ==> (r.Ok? <==> args[4].AnInt? && args[5].AnInt?)
    ensures d == Medicare && r.Ok? ==>
      && r.value.format.None? && r.value.column == TextOf(args[2])
      && r.value.placement == Some(Placement(TextOf(args[1]), args[4].n - 1, args[4].n - 1 + args[5].n))
  {
    if d == Medicaid then
      Ok(FtsColumn(IntOf(args[0]), TextOf(args[1]), TextOf(args[2]), Some(TextOf(args[3])), IntOf(args[4]),
                   TextOf(args[5]), None))
    else if !args[4].AnInt? || !args[5].AnInt? then
      Err(MissingPlacement)
    else
      var start := args[4].n - 1;
      Ok(FtsColumn(IntOf(args[0]), TextOf(args[2]), TextOf(args[3]), None, Some(args[5].n), TextOf(args[6]),
                   Some(Placement(TextOf(args[1]), start, start + args[5].n))))
  }

  /** `ColumnReader.read`: every attribute's value, then the dialect's constructor. */
  function ReadRow(d: Dialect, attrs: seq<FtsAttribute>, line: string): (r: Result<FtsColumn, FtsError>)
    requires |attrs| == NAttrs(d)
    ensures r.Err? ==> r.error == MissingPlacement
  {
    NewColumn(d, ArgsOf(attrs, line))
  }

  /** `[a.arg(line) for a in self.attributes]`. */
  function ArgsOf(attrs: seq<FtsAttribute>, line: string): (args: seq<Parsed>)
    ensures |args| == |attrs|
    decreases |attrs|
  {
    if attrs == [] then [] else [ArgOf(attrs[0], line)] + ArgsOf(attrs[1..], line)
  }

  /**
   * A Medicaid row always yields a column; a Medicare row yields one
   * exactly when its start and its width read as integers.
   */
  lemma RowOutcome(medicaid: seq<FtsAttribute>, medicare: seq<FtsAttribute>, line: string)
    requires |medicaid| == NAttrs(Medicaid) && |medicare| == NAttrs(Medicare)
    ensures ReadRow(Medicaid, medicaid, line).Ok?
    ensures ReadRow(Medicare, medicare, line).Ok? <==> ArgOf(medicare[4], line).AnInt? && ArgOf(medicare[5], line).AnInt?
  {
    ArgsOfAt(medicare, line, 4);
    ArgsOfAt(medicare, line, 5);
  }

  /** Each argument is its own attribute's value. */
  lemma {:induction false} ArgsOfAt(attrs: seq<FtsAttribute>, line: string, j: nat)
    requires j < |attrs|
    ensures ArgsOf(attrs, line)[j] == ArgOf(attrs[j], line)
    decreases j
  {
    if j > 0 {
      ArgsOfAt(attrs[1..], line, j - 1);
    }
  }

  /** `FTSColumn.__eq__` on two columns: the attributes listed in `__init__` agree. */
  predicate SameColumn(a: FtsColumn, b: FtsColumn) {
    && a.order == b.order && a.column == b.column && a.ctype == b.ctype
    && a.format == b.format && a.width == b.width && a.labelText == b.labelText
  }

  /** The right-hand side of `==`: a column, or any other object. */
  datatype Operand = AColumn(c: FtsColumn) | NotAColumn

  /** `FTSColumn.__eq__`: false for anything but a column, true for itself, else attribute by attribute. */
  predicate ColumnEquals(a: FtsColumn, o: Operand) {
    o.AColumn? && SameColumn(a, o.c)
  }

  /**
   * Column equality is an equivalence that ignores where a Medicare column
   * lies: two columns that differ only in long name, start or end are equal.
   */
  lemma ColumnEquality(a: FtsColumn, b: FtsColumn, c: FtsColumn, p: Option<Placement>)
    ensures ColumnEquals(a, AColumn(a)) && !ColumnEquals(a, NotAColumn)
    ensures ColumnEquals(a, AColumn(b)) ==> ColumnEquals(b, AColumn(a))
    ensures ColumnEquals(a, AColumn(b)) && ColumnEquals(b, AColumn(c)) ==> ColumnEquals(a, AColumn(c))
    ensures ColumnEquals(a, AColumn(a.(placement := p)))
    ensures ColumnEquals(a, AColumn(b)) && a.placement == b.placement ==> a == b
  {
  }

  // ---------------------------------------------------------------------
  // analyze_format and to_sql_type
  // ---------------------------------------------------------------------

  /** What `analyze_format` returns: whether the column can be numeric, its scale and its width. */
  datatype FormatInfo = FormatInfo(numeric: bool, scale: Option<int>, width: Option<int>)

  /**
   * `analyze_format`: without a format, numeric with the column's width; a
   * format starting with a digit can be numeric, any other loses its first
   * character and cannot; the digits before the first dot are the width.
   * A format with anything after the dot raises, as the scale is read with
   * `x(1)`, and an empty format raises at `format[0]`.
   */
  function AnalyzeFormat(c: FtsColumn): (r: Result<FormatInfo, FtsError>)
    ensures r.Ok? ==> r.value.scale.None?
    ensures c.format.None? ==> r == Ok(FormatInfo(true, None, c.width))
    ensures c.format == Some([]) ==> r == Err(EmptyFormat)
  {
    if c.format.None? then Ok(FormatInfo(true, None, c.width))
    else
      var f := c.format.value;
      if f == [] then Err(EmptyFormat)
      else
        var numeric := IsDigit(f[0]);
        var fmt := if numeric then f else f[1..];
        var x := Split(fmt, '.');
        var w := if IsDigits(x[0]) then Some(DecimalValue(x[0]) as int) else None;
        if |x| > 1 && x[1] != [] then Err(ScaleCall)
        else Ok(FormatInfo(numeric, None, w))
  }

  /**
   * A format written as a number reads back that number as the width; a
   * leading letter makes it non-numeric; a scale after the dot always raises.
   */
  lemma AnalyzeFormatRoundTrip(c: FtsColumn, n: nat, prefix: char, scale: nat)
    requires !IsDigit(prefix)
    ensures AnalyzeFormat(c.(format := Some(NatToStr(n)))) == Ok(FormatInfo(true, None, Some(n)))
    ensures AnalyzeFormat(c.(format := Some([prefix] + NatToStr(n)))) == Ok(FormatInfo(false, None, Some(n)))
    ensures AnalyzeFormat(c.(format := Some(NatToStr(n) + "." + NatToStr(scale)))) == Err(ScaleCall)
  {
    var s := NatToStr(n);
    NatToStrValue(n);
    FormatWidth(c, s, prefix);
    var t := NatToStr(scale);
    var withScale := s + "." + t;
    NoDotInDigits(s);
    NoDotInDigits(t);
    assert Join([s, t], '.') == withScale;
    SplitJoin([s, t], '.');
  }

  /** A format of digits is a numeric width; with a non-digit before it, a non-numeric one. */
  lemma FormatWidth(c: FtsColumn, f: string, prefix: char)
    requires IsDigits(f) && !IsDigit(prefix)
    ensures AnalyzeFormat(c.(format := Some(f))) == Ok(FormatInfo(true, None, Some(DecimalValue(f) as int)))
    ensures AnalyzeFormat(c.(format := Some([prefix] + f))) == Ok(FormatInfo(false, None, Some(DecimalValue(f) as int)))
  {
    NoDotInDigits(f);
    JoinSplit(f, '.');
    assert ([prefix] + f)[1..] == f;
  }

  lemma NoDotInDigits(s: string)
    requires AllDigits(s)
    ensures '.' !in s
  {
    forall i | 0 <= i < |s| ensures s[i] != '.' {
      assert IsDigit(s[i]);
    }
  }

  /** `PG_SERIAL_TYPE` of `nsaph.pg_keywords`, taken to be the upper-case keyword. */
  const SerialKeyword := "SERIAL"

  /** The column types of the generated schema (`PG_*_TYPE`, with their width and scale). */
  datatype SqlType = SerialType(t: string) | VarCharType(w: int) | NumericType(w: int, s: int) | IntType | DateType

  /**
   * `to_sql_type`: `SERIAL` passes through; otherwise the format is
   * analysed first, then `CHAR` is a string of the width, `NUM` a string
   * when it cannot be numeric, `NUMERIC(w, s)` with a scale and `INT`
   * without, `DATE` a date, and any other type raises. A missing width
   * raises where it is formatted with `{:d}`.
   */
  function ToSqlType(c: FtsColumn): (r: Result<SqlType, FtsError>)
  {
    var t := Upper(c.ctype);
    if t == SerialKeyword then Ok(SerialType(t))
    else
      var info :- AnalyzeFormat(c);
      if t == "CHAR" then
        if info.width.None? then Err(NoWidth) else Ok(VarCharType(info.width.value))
      else if t == "NUM" then
        if !info.numeric then
          if info.width.None? then Err(NoWidth) else Ok(VarCharType(info.width.value))
        else if info.scale.Some? then
          if info.width.None? then Err(NoWidth) else Ok(NumericType(info.width.value, info.scale.value))
        else Ok(IntType)
      else if t == "DATE" then Ok(DateType)
      else Err(UnexpectedType(t))
  }

  /**
   * The type mapping by column type: each SQL type comes from exactly one
   * column type, `NUMERIC` never comes out (no format yields a scale), and
   * an unknown type raises once its format has been analysed.
   */
  lemma SqlTypeCases(c: FtsColumn)
    ensures var r := ToSqlType(c); var t := Upper(c.ctype);
      && (r.Ok? && r.value.SerialType? <==> t == SerialKeyword)
      && (r.Ok? && r.value.VarCharType? ==> t == "CHAR" || (t == "NUM" && !AnalyzeFormat(c).value.numeric))
      && (r.Ok? && r.value.IntType? <==> t == "NUM" && AnalyzeFormat(c).Ok? && AnalyzeFormat(c).value.numeric)
      && (r.Ok? && r.value.DateType? <==> t == "DATE" && AnalyzeFormat(c).Ok?)
      && !(r.Ok? && r.value.NumericType?)
      && (r.Err? && r.error.UnexpectedType? <==>
            t !in {SerialKeyword, "CHAR", "NUM", "DATE"} && AnalyzeFormat(c).Ok?)
  {
  }

  /**
   * A `NUM` column written with a width format is an integer; with a
   * letter before the width it is a string of that width.
   */
  lemma NumColumnTypes(c: FtsColumn, n: nat, prefix: char)
    requires Upper(c.ctype) == "NUM" && !IsDigit(prefix)
    ensures ToSqlType(c.(format := Some(NatToStr(n)))) == Ok(IntType)
    ensures ToSqlType(c.(format := Some([prefix] + NatToStr(n)))) == Ok(VarCharType(n))
  {
    AnalyzeFormatRoundTrip(c, n, prefix, 0);
  }

  // ---------------------------------------------------------------------
  // Synthetic columns
  // ---------------------------------------------------------------------

  /** `ORIGINAL_FILE_COLUMN` of `nsaph`, the name the primary keys use. */
  const FileColumnName := "FILE"

  /** `add_file_column`: the original file name, a 128-character string. */
  function FileColumn(n: nat): FtsColumn {
    FtsColumn(Some(n + 1), FileColumnName, "CHAR", Some("128"), Some(128), "RESDAC original file name", None)
  }

  /** `add_record_column`: the record number, a serial. */
  function RecordColumn(n: nat): FtsColumn {
    FtsColumn(Some(n + 1), "RECORD", SerialKeyword, None, None, "Record number in the file", None)
  }

  /**
   * `on_after_read_file`: the file column is always appended, then the
   * record column for Medicare and for Medicaid `ip`; each new column's
   * order is its 1-based position.
   */
  function WithSynthetic(d: Dialect, name: string, columns: seq<FtsColumn>): (r: seq<FtsColumn>)
    ensures columns < r && r[|columns|] == FileColumn(|columns|)
    ensures |r| == |columns| + (if d == Medicare || name == "ip" then 2 else 1)
    ensures |r| == |columns| + 2 ==> r[|columns| + 1] == RecordColumn(|columns| + 1)
    ensures forall i :: |columns| <= i < |r| ==> r[i].order == Some(i + 1)
  {
    var withFile := columns + [FileColumn(|columns|)];
    if d == Medicare || name == "ip" then withFile + [RecordColumn(|withFile|)] else withFile
  }

  // ---------------------------------------------------------------------
  // column_to_dict and to_dict
  // ---------------------------------------------------------------------

  /** The `index` entry of a column: none, `True`, or `{required_before_loading_data: True}`. */
  datatype IndexMark = NoIndex | Indexed | RequiredBeforeLoading

  /** The registry entry of a column: type, description, index, and `source.type` for the file column. */
  datatype ColumnEntry = ColumnEntry(sqlType: SqlType, description: string, index: IndexMark, source: Option<string>)

  /**
   * `column_to_dict`: the SQL type and the label; an index when the column
   * is among the indices; the original-file column is read from the file
   * name and indexed before loading.
   */
  function ColumnToDict(indices: seq<string>, c: FtsColumn): (r: Result<ColumnEntry, FtsError>)
    ensures r.Ok? <==> ToSqlType(c).Ok?
    ensures r.Ok? ==> r.value.sqlType == ToSqlType(c).value && r.value.description == c.labelText
    ensures r.Ok? ==> (r.value.source.Some? <==> c.column == FileColumnName)
    ensures r.Ok? ==> (r.value.index == RequiredBeforeLoading <==> c.column == FileColumnName)
    ensures r.Ok? ==> (r.value.index == Indexed <==> c.column != FileColumnName && c.column in indices)
  {
    var t :- ToSqlType(c);
    var index := if c.column == FileColumnName then RequiredBeforeLoading
                 else if c.column in indices then Indexed else NoIndex;
    Ok(ColumnEntry(t, c.labelText, index, if c.column == FileColumnName then Some("file") else None))
  }

  /** The file column maps to a 128-character string read from the file name and indexed before loading. */
  lemma FileEntry(indices: seq<string>, n: nat)
    ensures ColumnToDict(indices, FileColumn(n)) == Ok(ColumnEntry(VarCharType(128), "RESDAC original file name",
                                                                   RequiredBeforeLoading, Some("file")))
  {
    assert Upper("CHAR") == "CHAR" by { UpperUnchanged("CHAR"); }
    var f := "128";
    assert IsDigits(f) by { assert IsDigit(f[0]) && IsDigit(f[1]) && IsDigit(f[2]); }
    assert DecimalValue(f) == 128 by {
      assert f[..2] == "12" && "12"[..1] == "1" && "1"[..0] == "";
      assert DecimalValue("1") == 1;
      assert DecimalValue("12") == 12;
    }
    FormatWidth(FileColumn(n), f, 'x');
    assert FileColumn(n).(format := Some(f)) == FileColumn(n);
  }

  /** The record column maps to a serial. */
  lemma RecordEntry(indices: seq<string>, n: nat)
    ensures ColumnToDict(indices, RecordColumn(n)).Ok?
    ensures ColumnToDict(indices, RecordColumn(n)).value.sqlType == SerialType(SerialKeyword)
  {
    assert Upper(SerialKeyword) == SerialKeyword by { UpperUnchanged(SerialKeyword); }
  }

  /** The table `to_dict` builds: its name, one entry per column in order, and the primary key. */
  datatype Table = Table(name: string, columns: seq<(string, ColumnEntry)>, primaryKey: seq<string>)

  /** The list comprehension of `to_dict`: one `{column: entry}` per column, the first failure raising. */
  function Entries(indices: seq<string>, columns: seq<FtsColumn>): Result<seq<(string, ColumnEntry)>, FtsError>
    decreases |columns|
  {
    if columns == [] then Ok([])
    else
      var e :- ColumnToDict(indices, columns[0]);
      var rest :- Entries(indices, columns[1..]);
      Ok([(columns[0].column, e)] + rest)
  }

  /** `to_dict`: iterating the columns raises while there are none (`None`). */
  function TableOf(name: string, indices: seq<string>, columns: Option<seq<FtsColumn>>, pk: seq<string>)
    : Result<Table, FtsError>
  {
    if columns.None? then Err(NoColumns)
    else
      var entries :- Entries(indices, columns.value);
      Ok(Table(name, entries, pk))
  }

  /**
   * `to_dict` succeeds exactly when every column maps to a type, and then
   * has one entry per column, in order, under the column's name.
   */
  lemma {:induction false} EntriesShape(indices: seq<string>, columns: seq<FtsColumn>)
    ensures Entries(indices, columns).Ok? <==> forall i :: 0 <= i < |columns| ==> ColumnToDict(indices, columns[i]).Ok?
    ensures Entries(indices, columns).Ok? ==>
      var es := Entries(indices, columns).value;
      && |es| == |columns|
      && forall i :: 0 <= i < |columns| ==> es[i] == (columns[i].column, ColumnToDict(indices, columns[i]).value)
    decreases |columns|
  {
    if columns != [] {
      EntriesShape(indices, columns[1..]);
      assert forall i :: 1 <= i < |columns| ==> columns[1..][i - 1] == columns[i];
      if Entries(indices, columns).Ok? {
        var es := Entries(indices, columns).value;
        assert forall i :: 1 <= i < |columns| ==> es[i] == Entries(indices, columns[1..]).value[i - 1];
      }
    }
  }

  /** The same for the whole table, with the primary key as given. */
  lemma TableShape(name: string, indices: seq<string>, columns: Option<seq<FtsColumn>>, pk: seq<string>)
    ensures TableOf(name, indices, columns, pk).Ok? <==>
      columns.Some? && forall i :: 0 <= i < |columns.value| ==> ColumnToDict(indices, columns.value[i]).Ok?
    ensures TableOf(name, indices, columns, pk).Ok? ==>
      var t := TableOf(name, indices, columns, pk).value;
      && t.name == name && t.primaryKey == pk && |t.columns| == |columns.value|
      && forall i :: 0 <= i < |t.columns| ==>
           t.columns[i] == (columns.value[i].column, ColumnToDict(indices, columns.value[i]).value)
  {
    if columns.Some? {
      EntriesShape(indices, columns.value);
    }
  }
}
