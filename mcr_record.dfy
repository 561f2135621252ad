/**
 * Decoding one fixed-width record of a Medicare `.dat` file
 * (`MedicareFile.read_record`) and checking its year (`MedicareFile.validate`),
 * both in `cms/tools/mcr_file.py`.
 */
module McrRecord {
  import opened Wrappers
  import opened PyText
  import opened McrLayout

  /** A byte of a `.dat` file. */
  type byte = b: int | 0 <= b < 256

  /** A decoded field: `None`, an `int`, a date parsed from the text, or the text itself. */
  datatype Value = Null | IntVal(n: int) | DateVal(text: string) | Text(s: string)

  /**
   * The foreign code a record goes through: UTF-8 decoding of a byte slice
   * (`None` where `bytes.decode` raises) and `dateutil`'s parser (whether it
   * accepts a text).
   */
  datatype Runtime = Runtime(decode: seq<byte> -> Option<string>, parsesDate: string -> bool)

  /** The exceptions raised while a record is decoded and validated. */
  datatype RecordError =
    | ParseError(pos: int)  // `MedparParseException`: a fourth field failed at `pos`
    | Rejected              // `AssertionError` from `validate`
    | DecodeError           // `UnicodeDecodeError`: the decode is outside the `try`
    | LogFormatError        // the handler formats `column.ord` with `{:d}`, which fails on `None`
    | OrdMissing            // `None - 1` in `validate`
    | OrdOutOfRange         // `record[ord - 1]` outside the record
    | IndexOutOfRange       // a byte index outside the block in `export`

  /** The bytes of a record that a column covers: `data[column.start:column.end]`. */
  function Piece(c: Column, data: seq<byte>): seq<byte> {
    Slice(data, c.start, Some(c.end))
  }

  /** `NUM` without a scale (`not column.d`: none, or zero) is read as an integer. */
  predicate IsInteger(c: Column) {
    c.ctype == "NUM" && (c.scale.None? || c.scale == Some(0))
  }

  /**
   * The value a field converts to, or `None` where the conversion raises:
   * blank integers and dates are `None`; other integers go through `int`,
   * dates through the date parser; everything else is the raw text.
   */
  function Convert(c: Column, s: string, rt: Runtime): Option<Value> {
    if IsInteger(c) then
      var val := Strip(s);
      if val == [] then Some(Null)
      else
        match ParseInt(val)
        case Some(n) => Some(IntVal(n))
        case None => None
    else if c.ctype == "DATE" then
      if Strip(s) == [] then Some(Null)
      else if rt.parsesDate(s) then Some(DateVal(s))
      else None
    else Some(Text(s))
  }

  /**
   * How each kind of field converts: text fields keep their raw text, blank
   * integer and date fields are `None`, a non-blank integer field fails
   * exactly when `int` rejects it, and a date field fails exactly when the
   * date parser rejects it.
   */
  lemma ConvertCases(c: Column, s: string, rt: Runtime)
    ensures var r := Convert(c, s, rt);
      && (!IsInteger(c) && c.ctype != "DATE" ==> r == Some(Text(s)))
      && ((IsInteger(c) || c.ctype == "DATE") && AllSpace(s) ==> r == Some(Null))
      && (IsInteger(c) && !AllSpace(s) ==> (r.Some? <==> ParseInt(s).Some?))
      && (!IsInteger(c) && c.ctype == "DATE" && !AllSpace(s) ==> (r.Some? <==> rt.parsesDate(s)))
      && (r.Some? && r.value.IntVal? ==> IsInteger(c) && ParseInt(s) == Some(r.value.n))
  {
    if IsInteger(c) {
      ParseIntStripped(s);
    }
  }

  /** What happens to one field: its bytes do not decode, it converts, or it falls back to its raw text. */
  datatype FieldOutcome = Undecodable | Converted(v: Value) | Raw(s: string)

  /** The outcome of a column's field in a record. */
  function Outcome(c: Column, data: seq<byte>, rt: Runtime): FieldOutcome {
    TextOutcome(c, rt.decode(Piece(c, data)), rt)
  }

  /** The outcome of a field given the result of decoding its bytes. */
  function TextOutcome(c: Column, decoded: Option<string>, rt: Runtime): FieldOutcome {
    match decoded
    case None => Undecodable
    case Some(s) =>
      match Convert(c, s, rt)
      case Some(v) => Converted(v)
      case None => Raw(s)
  }

  /** The outcomes of all fields of a record, in column order. */
  function Outcomes(columns: seq<Column>, data: seq<byte>, rt: Runtime): (outs: seq<FieldOutcome>)
    ensures |outs| == |columns|
  {
    seq(|columns|, i requires 0 <= i < |columns| => Outcome(columns[i], data, rt))
  }

  /**
   * The record built from the first `n` outcomes and the number of failures
   * counted so far, or the exception: an undecodable field aborts, a failing
   * field is logged (which needs its order) and kept as raw text, and the
   * fourth failure aborts at that column's start.
   */
  function DecodePrefix(columns: seq<Column>, outs: seq<FieldOutcome>, n: nat)
    : Result<(seq<Value>, nat), RecordError>
    requires |outs| == |columns| && n <= |columns|
  {
    if n == 0 then Ok(([], 0))
    else
      match DecodePrefix(columns, outs, n - 1)
      case Err(e) => Err(e)
      case Ok((record, count)) => FieldStep(columns[n - 1], outs[n - 1], record, count)
  }

  /** One field of the decoding loop, given the record and the failure count before it. */
  function FieldStep(c: Column, o: FieldOutcome, record: seq<Value>, count: nat)
    : Result<(seq<Value>, nat), RecordError>
  {
    match o
    case Undecodable => Err(DecodeError)
    case Converted(v) => Ok((record + [v], count))
    case Raw(s) =>
      if c.ord.None? then Err(LogFormatError)
      else if count + 1 > 3 then Err(ParseError(c.start))
      else Ok((record + [Text(s)], count + 1))
  }

  /** `read_record`: the record of a block, or the exception it raises. */
  function DecodeRecord(columns: seq<Column>, data: seq<byte>, rt: Runtime): Result<seq<Value>, RecordError> {
    match DecodePrefix(columns, Outcomes(columns, data, rt), |columns|)
    case Ok((record, _)) => Ok(record)
    case Err(e) => Err(e)
  }

  /** The `try` block of `read_record` for one field; `None` where it raises. */
  method ConvertField(column: Column, s: string, rt: Runtime) returns (r: Option<Value>)
    ensures r == Convert(column, s, rt)
  {
    if column.ctype == "NUM" && (column.scale.None? || column.scale == Some(0)) {
      var val := Strip(s);
      if val != [] {
        var n := ParseInt(val);
        if n.None? {
          return None;
        }
        r := Some(IntVal(n.value));
      } else {
        r := Some(Null);
      }
    } else if column.ctype == "DATE" {
      if Strip(s) != [] {
        if !rt.parsesDate(s) {
          return None;
        }
        r := Some(DateVal(s));
      } else {
        r := Some(Null);
      }
    } else {
      r := Some(Text(s));
    }
  }

  /** The first loop of `read_record`: the bytes under every column, in column order. */
  method SlicePieces(columns: seq<Column>, data: seq<byte>) returns (pieces: seq<seq<byte>>)
    ensures |pieces| == |columns|
    ensures forall j :: 0 <= j < |columns| ==> pieces[j] == Piece(columns[j], data)
  {
    pieces := [];
    for i := 0 to |columns|
      invariant |pieces| == i
      invariant forall j :: 0 <= j < i ==> pieces[j] == Piece(columns[j], data)
    {
      pieces := pieces + [Slice(data, columns[i].start, Some(columns[i].end))];
    }
  }

  /**
   * `read_record` as the source writes it: slice every column, then decode
   * and convert them in order, keeping the raw text of a failing field and
   * raising at the fourth failure.
   */
  method ReadRecord(columns: seq<Column>, data: seq<byte>, rt: Runtime) returns (r: Result<seq<Value>, RecordError>)
    ensures r == DecodeRecord(columns, data, rt)
  {
    ghost var outs := Outcomes(columns, data, rt);
    var pieces := SlicePieces(columns, data);
    var exceptionCount := 0;
    var record: seq<Value> := [];
    for i := 0 to |columns|
      invariant DecodePrefix(columns, outs, i) == Ok((record, exceptionCount))
    {
      var step := ReadField(columns[i], pieces[i], rt, record, exceptionCount);
      assert outs[i] == Outcome(columns[i], data, rt);
      if step.Err? {
        ErrorPersists(columns, outs, i + 1, |columns|);
        return Err(step.error);
      }
      record, exceptionCount := step.value.0, step.value.1;
    }
    return Ok(record);
  }

  /**
   * The body of `read_record`'s second loop for one column: decode the
   * bytes, convert them, and on failure keep the raw text and count it,
   * raising at the fourth failure.
   */
  method ReadField(column: Column, piece: seq<byte>, rt: Runtime, record: seq<Value>, exceptionCount: nat)
    returns (r: Result<(seq<Value>, nat), RecordError>)
    ensures r == FieldStep(column, TextOutcome(column, rt.decode(piece), rt), record, exceptionCount)
  {
    var decoded := rt.decode(piece);
    if decoded.None? {
      return Err(DecodeError);
    }
    var s := decoded.value;
    var converted := ConvertField(column, s, rt);
    assert TextOutcome(column, decoded, rt) == if converted.Some? then Converted(converted.value) else Raw(s);
    match converted
    case Some(v) =>
      return Ok((record + [v], exceptionCount));
    case None =>
      if column.ord.None? {
        return Err(LogFormatError);
      }
      var count := exceptionCount + 1;
      if count > 3 {
        return Err(ParseError(column.start));
      }
      return Ok((record + [Text(s)], count));
  }

  /** What a decoded field contributes: its converted value, or its raw text. */
  function FieldValue(o: FieldOutcome): Value
    requires !o.Undecodable?
  {
    match o
    case Converted(v) => v
    case Raw(s) => Text(s)
  }

  /** The number of failing fields among the first `n` outcomes. */
  function Failures(outs: seq<FieldOutcome>, n: nat): nat
    requires n <= |outs|
  {
    if n == 0 then 0 else Failures(outs, n - 1) + (if outs[n - 1].Raw? then 1 else 0)
  }

  /** Every field of the first `n` columns decodes as UTF-8, and every column has an order number. */
  predicate Decodable(columns: seq<Column>, outs: seq<FieldOutcome>, n: nat)
    requires |outs| == |columns| && n <= |columns|
  {
    forall i :: 0 <= i < n ==> !outs[i].Undecodable? && columns[i].ord.Some?
  }

  /**
   * A decoded prefix holds exactly one value per column, in column order:
   * the converted field, or its raw text where the conversion raised; and
   * at most three fields failed.
   */
  lemma {:induction false} DecodedPrefixValues(columns: seq<Column>, outs: seq<FieldOutcome>, n: nat)
    requires |outs| == |columns| && n <= |columns|
    requires DecodePrefix(columns, outs, n).Ok?
    ensures var (record, count) := DecodePrefix(columns, outs, n).value;
      && |record| == n
      && count == Failures(outs, n) <= 3
      && forall i :: 0 <= i < n ==> !outs[i].Undecodable? && record[i] == FieldValue(outs[i])
  {
    if n > 0 {
      DecodedPrefixValues(columns, outs, n - 1);
    }
  }

  /**
   * The record `read_record` returns has one value per column, each the
   * field's converted value or raw text, and at most three fields failed.
   */
  lemma DecodedRecordValues(columns: seq<Column>, data: seq<byte>, rt: Runtime)
    requires DecodeRecord(columns, data, rt).Ok?
    ensures var record, outs := DecodeRecord(columns, data, rt).value, Outcomes(columns, data, rt);
      && |record| == |columns|
      && Failures(outs, |columns|) <= 3
      && forall i :: 0 <= i < |columns| ==> !outs[i].Undecodable? && record[i] == FieldValue(outs[i])
  {
    DecodedPrefixValues(columns, Outcomes(columns, data, rt), |columns|);
  }

  /** When every field decodes and every column has an order, up to three failures are tolerated. */
  lemma {:induction false} FewFailuresTolerated(columns: seq<Column>, outs: seq<FieldOutcome>, n: nat)
    requires |outs| == |columns| && n <= |columns|
    requires Decodable(columns, outs, n)
    requires Failures(outs, n) <= 3
    ensures DecodePrefix(columns, outs, n).Ok?
  {
    if n > 0 {
      FewFailuresTolerated(columns, outs, n - 1);
      DecodedPrefixValues(columns, outs, n - 1);
    }
  }

  /** Once a prefix raises, the whole record raises the same exception. */
  lemma {:induction false} ErrorPersists(columns: seq<Column>, outs: seq<FieldOutcome>, m: nat, n: nat)
    requires |outs| == |columns| && m <= n <= |columns|
    requires DecodePrefix(columns, outs, m).Err?
    ensures DecodePrefix(columns, outs, n) == DecodePrefix(columns, outs, m)
    decreases n - m
  {
    if n > m {
      ErrorPersists(columns, outs, m, n - 1);
    }
  }

  /**
   * With every field decodable and every column ordered, the fourth failing
   * field aborts the record with a `MedparParseException` at that column's
   * start, whatever follows it.
   */
  lemma FourthFailureRaises(columns: seq<Column>, data: seq<byte>, rt: Runtime, j: nat)
    requires j < |columns|
    requires Decodable(columns, Outcomes(columns, data, rt), j + 1)
    requires Failures(Outcomes(columns, data, rt), j) == 3 && Outcomes(columns, data, rt)[j].Raw?
    ensures DecodeRecord(columns, data, rt) == Err(ParseError(columns[j].start))
  {
    FourthFailureAborts(columns, Outcomes(columns, data, rt), j);
  }

  lemma FourthFailureAborts(columns: seq<Column>, outs: seq<FieldOutcome>, j: nat)
    requires |outs| == |columns| && j < |columns|
    requires Decodable(columns, outs, j + 1)
    requires Failures(outs, j) == 3 && outs[j].Raw?
    ensures DecodePrefix(columns, outs, |columns|) == Err(ParseError(columns[j].start))
  {
    FewFailuresTolerated(columns, outs, j);
    DecodedPrefixValues(columns, outs, j);
    assert DecodePrefix(columns, outs, j + 1) == Err(ParseError(columns[j].start));
    ErrorPersists(columns, outs, j + 1, |columns|);
  }

  /** The converse: with every field decodable and ordered, a record with at most three failures is read. */
  lemma ThreeFailuresTolerated(columns: seq<Column>, data: seq<byte>, rt: Runtime)
    requires Decodable(columns, Outcomes(columns, data, rt), |columns|)
    requires Failures(Outcomes(columns, data, rt), |columns|) <= 3
    ensures DecodeRecord(columns, data, rt).Ok?
  {
    FewFailuresTolerated(columns, Outcomes(columns, data, rt), |columns|);
  }

  /** A `MedparParseException` always reports the start of one of the layout's columns. */
  lemma {:induction false} ParseErrorAtColumn(columns: seq<Column>, outs: seq<FieldOutcome>, n: nat, pos: int)
    requires |outs| == |columns| && n <= |columns|
    requires DecodePrefix(columns, outs, n) == Err(ParseError(pos))
    ensures exists j :: 0 <= j < n && columns[j].start == pos
  {
    if DecodePrefix(columns, outs, n - 1).Err? {
      ParseErrorAtColumn(columns, outs, n - 1, pos);
    } else {
      assert columns[n - 1].start == pos;
    }
  }

  /** The same for the record of a block. */
  lemma RecordParseErrorAtColumn(columns: seq<Column>, data: seq<byte>, rt: Runtime, pos: int)
    requires DecodeRecord(columns, data, rt) == Err(ParseError(pos))
    ensures exists j :: 0 <= j < |columns| && columns[j].start == pos
  {
    ParseErrorAtColumn(columns, Outcomes(columns, data, rt), |columns|, pos);
  }

  /** Whether the layout has a column of that short name (`name in self.columns`). */
  predicate HasColumn(columns: seq<Column>, name: string) {
    NameIndex(columns, name) < |columns|
  }

  /** The year column `validate` checks: `MEDPAR_YR_NUM` wins over `BENE_ENROLLMT_REF_YR`. */
  function YearColumn(columns: seq<Column>): (r: Option<string>)
    ensures r == None <==> !HasColumn(columns, "MEDPAR_YR_NUM") && !HasColumn(columns, "BENE_ENROLLMT_REF_YR")
    ensures HasColumn(columns, "MEDPAR_YR_NUM") ==> r == Some("MEDPAR_YR_NUM")
    ensures r.Some? ==> HasColumn(columns, r.value)
  {
    if HasColumn(columns, "MEDPAR_YR_NUM") then Some("MEDPAR_YR_NUM")
    else if HasColumn(columns, "BENE_ENROLLMT_REF_YR") then Some("BENE_ENROLLMT_REF_YR")
    else None
  }

  /**
   * `validate`: the value at the year column's order (1-based, Python
   * indexing) must be the text of the file's year.
   */
  function Validate(columns: seq<Column>, year: string, record: seq<Value>): (r: Result<(), RecordError>)
    ensures r.Ok? <==>
      && YearColumn(columns).Some?
      && var c := columns[NameIndex(columns, YearColumn(columns).value)];
      && c.ord.Some? && -|record| <= c.ord.value - 1 < |record|
      && At(record, c.ord.value - 1) == Text(year)
    ensures YearColumn(columns).None? ==> r == Err(Rejected)
  {
    match YearColumn(columns)
    case None => Err(Rejected)
    case Some(yc) =>
      var c := columns[NameIndex(columns, yc)];
      if c.ord.None? then Err(OrdMissing)
      else if !(-|record| <= c.ord.value - 1 < |record|) then Err(OrdOutOfRange)
      else if At(record, c.ord.value - 1) == Text(year) then Ok(())
      else Err(Rejected)
  }

  /** A year read as an integer never validates: `validate` compares with the year's text. */
  lemma IntegerYearRejected(columns: seq<Column>, year: string, record: seq<Value>, n: int)
    requires YearColumn(columns).Some?
    requires var c := columns[NameIndex(columns, YearColumn(columns).value)];
      c.ord.Some? && -|record| <= c.ord.value - 1 < |record| && At(record, c.ord.value - 1) == IntVal(n)
    ensures Validate(columns, year, record) == Err(Rejected)
  {
  }
}
