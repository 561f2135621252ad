/**
 * The layout ("FTS") document of a Medicare fixed-width file, as read by
 * `MedicareFile.init` in `cms/tools/mcr_file.py`: a preamble of `key: value`
 * lines, a dashed separator line whose tokens give a positional template, and
 * one row per column cut with that template.
 */
module McrLayout {
  import opened Wrappers
  import opened PyText

  /** The Python exceptions that stop reading a layout document. */
  datatype LayoutError =
    | NotFound            // the `.fts` file does not exist
    | NoLines             // an empty document leaves `line` unbound
    | FieldCount(n: nat)  // `assert len(fields) == 7` on the separator line
    | MissingStart        // `start - 1` on a start that did not convert (`None`)
    | MissingWidth        // `width[0]` on a width that did not convert (`None`)
    | MissingBlockSize    // no "Exact File Record Length" metadata key
    | BadBlockSize        // that value is not an integer

  /** `width(s)`: `"w.d"` gives `(w, d)`, `"w"` gives `(w, None)`; `None` where `int` raises. */
  function Width(s: string): Option<(int, Option<int>)> {
    if '.' in s then
      var x := Split(s, '.');
      match (ParseInt(x[0]), ParseInt(x[1]))
      case (Some(w), Some(d)) => Some((w, Some(d)))
      case _ => None
    else
      match ParseInt(s)
      case Some(w) => Some((w, None))
      case None => None
  }

  /** `width` inverts the "w.d" notation: formatting a width and a scale and reading them back ... */
  lemma WidthWithScale(w: int, d: int)
    ensures Width(IntToStr(w) + "." + IntToStr(d)) == Some((w, Some(d)))
  {
    var a, b := IntToStr(w), IntToStr(d);
    NoDotInIntToStr(w);
    NoDotInIntToStr(d);
    assert Join([a, b], '.') == a + "." + b;
    SplitJoin([a, b], '.');
    assert (a + "." + b)[|a|] == '.';
    ParseIntToStr(w);
    ParseIntToStr(d);
  }

  /** ... and a plain integer is a width without a scale. */
  lemma WidthWithoutScale(w: int)
    ensures Width(IntToStr(w)) == Some((w, None))
  {
    NoDotInIntToStr(w);
    ParseIntToStr(w);
  }

  lemma NoDotInIntToStr(n: int)
    ensures '.' !in IntToStr(n)
  {
    var s := IntToStr(n);
    forall i | 0 <= i < |s| ensures s[i] != '.' {
      if n < 0 && i > 0 {
        assert s[i] == NatToStr(-n)[i - 1];
      }
    }
  }

  /** How `ColumnDef` converts the text under each attribute. */
  datatype Conv = IntConv | WidthConv | StrConv

  /** A `ColumnAttribute`: the half-open character range `[start, end)` of a row and its conversion. */
  datatype Attribute = Attribute(start: int, end: int, conv: Conv)

  /** The value `ColumnAttribute.arg` returns; `NoArg` is the `None` of a failed conversion. */
  datatype Arg = IntArg(n: int) | WidthArg(w: int, d: Option<int>) | StrArg(s: string) | NoArg

  /** Fields 0 and 4 (order, start) convert by `int`, field 5 by `width`, the rest stay text. */
  function ConvFor(i: nat): Conv {
    if i == 0 || i == 4 then IntConv else if i == 5 then WidthConv else StrConv
  }

  /** `ColumnAttribute.arg`: convert the stripped text under the attribute, `None` on failure. */
  function ArgOf(a: Attribute, line: string): (r: Arg)
    ensures a.conv == StrConv ==> r.StrArg?
    ensures r.NoArg? ==> a.conv != StrConv
  {
    var text := Strip(Slice(line, a.start, Some(a.end)));
    match a.conv
    case StrConv => StrArg(text)
    case IntConv => (match ParseInt(text) case Some(n) => IntArg(n) case None => NoArg)
    case WidthConv => (match Width(text) case Some((w, d)) => WidthArg(w, d) case None => NoArg)
  }

  /** Where the template puts field `i`: each token's width plus one separating space. */
  function Offset(fields: seq<string>, i: nat): nat
    requires i <= |fields|
  {
    if i == 0 then 0 else Offset(fields, i - 1) + |fields[i - 1]| + 1
  }

  /** The spans of the template are increasing and pairwise disjoint. */
  lemma {:induction false} OffsetsIncrease(fields: seq<string>, i: nat, j: nat)
    requires i < j <= |fields|
    ensures Offset(fields, i) + |fields[i]| < Offset(fields, j)
    decreases j - i
  {
    if j > i + 1 {
      OffsetsIncrease(fields, i, j - 1);
    }
  }

  /**
   * Each span cuts exactly its own token out of the separator line: the
   * template reproduces the dashes it was built from.
   */
  lemma {:induction false} OffsetCutsToken(fields: seq<string>, i: nat)
    requires i < |fields|
    ensures Offset(fields, i) + |fields[i]| <= |Join(fields, ' ')|
    ensures Join(fields, ' ')[Offset(fields, i)..Offset(fields, i) + |fields[i]|] == fields[i]
  {
    if i > 0 {
      var rest := fields[1..];
      OffsetCutsToken(rest, i - 1);
      OffsetShift(fields, i);
      assert Join(fields, ' ') == fields[0] + [' '] + Join(rest, ' ');
    }
  }

  lemma {:induction false} OffsetShift(fields: seq<string>, i: nat)
    requires 0 < i <= |fields|
    ensures Offset(fields, i) == |fields[0]| + 1 + Offset(fields[1..], i - 1)
  {
    if i > 1 {
      OffsetShift(fields, i - 1);
    }
  }

  /** The attributes the template gives the tokens of a separator line. */
  function TemplateOf(fields: seq<string>): (attrs: seq<Attribute>)
    ensures |attrs| == |fields|
  {
    seq(|fields|, i requires 0 <= i < |fields| => Attribute(Offset(fields, i), Offset(fields, i) + |fields[i]|, ConvFor(i)))
  }

  /**
   * `ColumnDef(pattern)`: split the separator line at single spaces, demand
   * seven tokens, and lay the attributes out left to right with a running
   * offset.
   */
  method MakeColumnDef(pattern: string) returns (r: Result<seq<Attribute>, LayoutError>)
    ensures |Split(pattern, ' ')| != 7 ==> r == Err(FieldCount(|Split(pattern, ' ')|))
    ensures |Split(pattern, ' ')| == 7 ==> r == Ok(TemplateOf(Split(pattern, ' ')))
  {
    var fields := Split(pattern, ' ');
    if |fields| != 7 {
      return Err(FieldCount(|fields|));
    }
    var attributes: seq<Attribute> := [];
    var c := 0;
    for i := 0 to |fields|
      invariant c == Offset(fields, i)
      invariant attributes == TemplateOf(fields)[..i]
    {
      var l := |fields[i]|;
      var f := if i == 0 || i == 4 then IntConv else if i == 5 then WidthConv else StrConv;
      attributes := attributes + [Attribute(c, c + l, f)];
      c := c + l + 1;
    }
    assert attributes == TemplateOf(fields);
    return Ok(attributes);
  }

  /**
   * The template of a separator line lays its tokens out exactly: the spans
   * are increasing and pairwise disjoint, and each cuts its own token back
   * out of the line.
   */
  lemma TemplateOfSeparator(pattern: string)
    ensures var fields := Split(pattern, ' ');
      var attrs := TemplateOf(fields);
      && (forall i, j :: 0 <= i < j < |attrs| ==> attrs[i].end < attrs[j].start)
      && (forall i :: 0 <= i < |attrs| ==> Slice(pattern, attrs[i].start, Some(attrs[i].end)) == fields[i])
  {
    var fields := Split(pattern, ' ');
    var attrs := TemplateOf(fields);
    forall i, j | 0 <= i < j < |attrs|
      ensures attrs[i].end < attrs[j].start
    {
      OffsetsIncrease(fields, i, j);
    }
    forall i | 0 <= i < |attrs|
      ensures Slice(pattern, attrs[i].start, Some(attrs[i].end)) == fields[i]
    {
      TemplateRoundTrip(pattern, i);
    }
  }

  /** Applying the template to the separator line itself gives back its tokens. */
  lemma TemplateRoundTrip(pattern: string, i: nat)
    requires i < |Split(pattern, ' ')|
    ensures var attrs := TemplateOf(Split(pattern, ' '));
      Slice(pattern, attrs[i].start, Some(attrs[i].end)) == Split(pattern, ' ')[i]
  {
    var fields := Split(pattern, ' ');
    JoinSplit(pattern, ' ');
    OffsetCutsToken(fields, i);
  }

  /** A `Column`: 0-based `start`, `end = start + length`, and the scale `d` of its width. */
  datatype Column = Column(
    ord: Option<int>,
    longName: string,
    name: string,
    ctype: string,
    start: int,
    length: int,
    end: int,
    desc: string,
    scale: Option<int>)

  /** `Column(*attrs)` over the seven converted fields of a row. */
  function NewColumn(ord: Arg, longName: string, name: string, ctype: string, start: Arg, width: Arg, desc: string)
    : (r: Result<Column, LayoutError>)
    ensures r.Ok? <==> start.IntArg? && width.WidthArg?
    ensures r.Ok? ==> r.value.start == start.n - 1 && r.value.length == width.w
    ensures r.Ok? ==> r.value.end - r.value.start == r.value.length
    ensures r.Ok? ==> r.value.name == name && r.value.ctype == ctype && r.value.scale == width.d
    ensures r.Ok? ==> r.value.ord == (if ord.IntArg? then Some(ord.n) else None)
  {
    if !start.IntArg? then Err(MissingStart)
    else if !width.WidthArg? then Err(MissingWidth)
    else
      var s := start.n - 1;
      Ok(Column(if ord.IntArg? then Some(ord.n) else None, longName, name, ctype, s, width.w, s + width.w, desc, width.d))
  }

  /** The conversions of a `ColumnDef`: seven attributes, converted by `ConvFor`. */
  predicate ColumnDefConvs(attrs: seq<Attribute>) {
    && |attrs| == 7
    && attrs[0].conv == IntConv && attrs[1].conv == StrConv && attrs[2].conv == StrConv
    && attrs[3].conv == StrConv && attrs[4].conv == IntConv && attrs[5].conv == WidthConv
    && attrs[6].conv == StrConv
  }

  /** The text a `str` attribute yields. */
  function TextOf(a: Attribute, line: string): string
    requires a.conv == StrConv
  {
    ArgOf(a, line).s
  }

  /** `ColumnDef.read`: cut a row with the template and build its `Column`. */
  function ReadColumn(attrs: seq<Attribute>, line: string): Result<Column, LayoutError>
    requires ColumnDefConvs(attrs)
  {
    NewColumn(ArgOf(attrs[0], line), TextOf(attrs[1], line), TextOf(attrs[2], line), TextOf(attrs[3], line),
              ArgOf(attrs[4], line), ArgOf(attrs[5], line), TextOf(attrs[6], line))
  }

  /** The separator line: it starts with `---` and holds a run of 18 dashes. */
  predicate IsSeparator(line: string) {
    StartsWith(line, "---") && Contains(line, "------------------")
  }

  /** A line that ends the column rows: "End of Document", a blank line (nothing left after
      stripping, that is all whitespace), or a "Note:". */
  predicate EndsRows(line: string) {
    Contains(line, "End of Document") || AllSpace(line) || StartsWith(line, "Note:")
  }

  /** The index at which the preamble loop stops: the first separator line, or the last line. */
  function HeaderEnd(lines: seq<string>): (k: nat)
    requires |lines| > 0
    ensures k < |lines|
    ensures forall i :: 0 <= i < k ==> !IsSeparator(lines[i])
    ensures IsSeparator(lines[k]) || k == |lines| - 1
  {
    var k := IndexWhere(lines, 0);
    if k == |lines| then |lines| - 1 else k
  }

  function IndexWhere(lines: seq<string>, from: nat): (k: nat)
    requires from <= |lines|
    ensures from <= k <= |lines|
    ensures forall i :: from <= i < k ==> !IsSeparator(lines[i])
    ensures k < |lines| ==> IsSeparator(lines[k])
    decreases |lines| - from
  {
    if from == |lines| || IsSeparator(lines[from]) then from else IndexWhere(lines, from + 1)
  }

  /** The preamble lines scanned for `key: value`: all lines before the separator, or all lines. */
  function PreambleOf(lines: seq<string>): seq<string>
    requires |lines| > 0
  {
    var k := HeaderEnd(lines);
    if IsSeparator(lines[k]) then lines[..k] else lines
  }

  /** The key of a metadata line: the text before its first colon. */
  function KeyOf(line: string): string {
    line[..IndexOf(line, ':')]
  }

  /** The value of a metadata line: the text after its first colon. */
  function ValueOf(line: string): string
    requires ':' in line
  {
    line[IndexOf(line, ':') + 1..]
  }

  /** The metadata map the preamble fills in; a later line overrides an earlier one. */
  function MetadataOf(preamble: seq<string>): map<string, string> {
    if preamble == [] then map[]
    else
      var m := MetadataOf(preamble[..|preamble| - 1]);
      var line := preamble[|preamble| - 1];
      if ':' in line then m[KeyOf(line) := ValueOf(line)] else m
  }

  /** The keys of the metadata are exactly the keys of the preamble lines that hold a colon. */
  lemma {:induction false} MetadataKeys(preamble: seq<string>, key: string)
    ensures key in MetadataOf(preamble) <==>
            exists i :: 0 <= i < |preamble| && ':' in preamble[i] && KeyOf(preamble[i]) == key
  {
    if preamble != [] {
      var init := preamble[..|preamble| - 1];
      MetadataKeys(init, key);
      if exists i :: 0 <= i < |init| && ':' in init[i] && KeyOf(init[i]) == key {
        var i :| 0 <= i < |init| && ':' in init[i] && KeyOf(init[i]) == key;
        assert preamble[i] == init[i];
      }
      if exists i :: 0 <= i < |preamble| && ':' in preamble[i] && KeyOf(preamble[i]) == key {
        var i :| 0 <= i < |preamble| && ':' in preamble[i] && KeyOf(preamble[i]) == key;
        if i < |init| {
          assert init[i] == preamble[i];
        }
      }
    }
  }

  /** The value of a key is taken from the last preamble line carrying it. */
  lemma {:induction false} MetadataLastWins(preamble: seq<string>, i: nat)
    requires i < |preamble| && ':' in preamble[i]
    requires forall j :: i < j < |preamble| && ':' in preamble[j] ==> KeyOf(preamble[j]) != KeyOf(preamble[i])
    ensures KeyOf(preamble[i]) in MetadataOf(preamble)
    ensures MetadataOf(preamble)[KeyOf(preamble[i])] == ValueOf(preamble[i])
  {
    var init := preamble[..|preamble| - 1];
    if i < |preamble| - 1 {
      assert forall j :: i < j < |init| ==> init[j] == preamble[j];
      MetadataLastWins(init, i);
    }
  }

  /** The index of the first line after `k` that ends the column rows, or `|lines|`. */
  function RowsEnd(lines: seq<string>, k: nat): (e: nat)
    requires k < |lines|
    ensures k < e <= |lines|
    ensures forall i :: k < i < e ==> !EndsRows(lines[i])
    ensures e == |lines| || EndsRows(lines[e])
    decreases |lines| - k
  {
    if k == |lines| - 1 || EndsRows(lines[k + 1]) then k + 1 else RowsEnd(lines, k + 1)
  }

  /** The column rows: the lines after index `k` up to the first line that ends them. */
  function RowsAfter(lines: seq<string>, k: nat): seq<string>
    requires k < |lines|
  {
    lines[k + 1..RowsEnd(lines, k)]
  }

  /** Assignment into the `OrderedDict` of columns: a known name keeps its place and takes the new column. */
  function Insert(columns: seq<Column>, c: Column): (r: seq<Column>)
    ensures |columns| <= |r| <= |columns| + 1
  {
    var j := NameIndex(columns, c.name);
    if j < |columns| then columns[j := c] else columns + [c]
  }

  /** Assignment grows the dictionary by one exactly when the name is new. */
  lemma InsertLength(columns: seq<Column>, c: Column)
    ensures |Insert(columns, c)| == if exists j :: 0 <= j < |columns| && columns[j].name == c.name then |columns| else |columns| + 1
  {
    NameIndexFirst(columns, c.name);
  }

  /** The position of `name` among the columns, or `|columns|`. */
  function NameIndex(columns: seq<Column>, name: string): (j: nat)
    ensures j <= |columns|
    ensures j < |columns| ==> columns[j].name == name
  {
    if columns == [] then 0
    else if columns[0].name == name then 0
    else 1 + NameIndex(columns[1..], name)
  }

  /** No column before the one `NameIndex` finds carries the name. */
  lemma {:induction false} NameIndexFirst(columns: seq<Column>, name: string)
    ensures forall i :: 0 <= i < NameIndex(columns, name) ==> columns[i].name != name
  {
    if columns != [] && columns[0].name != name {
      NameIndexFirst(columns[1..], name);
      forall i | 1 <= i < NameIndex(columns, name) ensures columns[i].name != name {
        assert columns[i] == columns[1..][i - 1];
      }
    }
  }

  /** `NameIndex` finds the first column carrying the name. */
  lemma {:induction false} NameIndexIs(columns: seq<Column>, name: string, j: nat)
    requires j <= |columns|
    requires j < |columns| ==> columns[j].name == name
    requires forall i :: 0 <= i < j ==> columns[i].name != name
    requires j == |columns| ==> forall i :: 0 <= i < |columns| ==> columns[i].name != name
    ensures NameIndex(columns, name) == j
  {
    if columns != [] && j > 0 {
      NameIndexIs(columns[1..], name, j - 1);
    }
  }

  /** No two columns share a short name. */
  predicate UniqueNames(columns: seq<Column>) {
    forall i, j :: 0 <= i < j < |columns| ==> columns[i].name != columns[j].name
  }

  /**
   * The rows' columns assigned one by one into the ordered dictionary, in
   * document order; the first row that fails to read aborts the loop.
   */
  function AssignAll(outcomes: seq<Result<Column, LayoutError>>): Result<seq<Column>, LayoutError> {
    if outcomes == [] then Ok([])
    else
      match AssignAll(outcomes[..|outcomes| - 1])
      case Err(e) => Err(e)
      case Ok(prev) =>
        match outcomes[|outcomes| - 1]
        case Err(e) => Err(e)
        case Ok(c) => Ok(Insert(prev, c))
  }

  /** The columns read from the rows, in document order, or the first error. */
  function ColumnsOf(attrs: seq<Attribute>, rows: seq<string>): Result<seq<Column>, LayoutError>
    requires ColumnDefConvs(attrs)
  {
    AssignAll(RowOutcomes(attrs, rows))
  }

  /** Each row cut with the template, in document order. */
  function RowOutcomes(attrs: seq<Attribute>, rows: seq<string>): (r: seq<Result<Column, LayoutError>>)
    requires ColumnDefConvs(attrs)
    ensures |r| == |rows| && forall i :: 0 <= i < |rows| ==> r[i] == ReadColumn(attrs, rows[i])
  {
    seq(|rows|, i requires 0 <= i < |rows| => ReadColumn(attrs, rows[i]))
  }

  /**
   * Assigning a column keeps the short names unique, keeps every earlier name
   * at its place, and makes the new column the one found under its name.
   */
  lemma InsertKeepsUnique(columns: seq<Column>, c: Column)
    requires UniqueNames(columns)
    ensures var r := Insert(columns, c);
      && UniqueNames(r)
      && NameIndex(r, c.name) < |r| && r[NameIndex(r, c.name)] == c
      && forall i :: 0 <= i < |columns| ==> r[i].name == columns[i].name
  {
    var r := Insert(columns, c);
    var j := NameIndex(columns, c.name);
    NameIndexFirst(columns, c.name);
    NameIndexIs(r, c.name, j);
  }

  /**
   * After the row loop the short names are unique, there is at most one
   * column per row, and the last column read is the one kept under its name.
   */
  lemma {:induction false} AssignKeyedByName(outcomes: seq<Result<Column, LayoutError>>)
    requires AssignAll(outcomes).Ok?
    ensures UniqueNames(AssignAll(outcomes).value)
    ensures |AssignAll(outcomes).value| <= |outcomes|
    ensures outcomes != [] ==>
              var cs := AssignAll(outcomes).value;
              && outcomes[|outcomes| - 1].Ok?
              && var last := outcomes[|outcomes| - 1].value;
              NameIndex(cs, last.name) < |cs| && cs[NameIndex(cs, last.name)] == last
  {
    if outcomes != [] {
      var init := outcomes[..|outcomes| - 1];
      AssignKeyedByName(init);
      var prev := AssignAll(init).value;
      InsertKeepsUnique(prev, outcomes[|outcomes| - 1].value);
    }
  }

  /** Every row read carries a short name that the ordered dictionary holds. */
  predicate Keyed(outcomes: seq<Result<Column, LayoutError>>, cs: seq<Column>) {
    forall i :: 0 <= i < |outcomes| ==> outcomes[i].Ok? && NameIndex(cs, outcomes[i].value.name) < |cs|
  }

  /** A row that no later row renames over is the column kept under its name. */
  predicate KeepsLatest(outcomes: seq<Result<Column, LayoutError>>, cs: seq<Column>)
    requires Keyed(outcomes, cs)
  {
    forall i :: 0 <= i < |outcomes| ==>
      (forall j :: i < j < |outcomes| ==> outcomes[j].value.name != outcomes[i].value.name) ==>
        cs[NameIndex(cs, outcomes[i].value.name)] == outcomes[i].value
  }

  /** Every column in the dictionary is one of the rows read. */
  predicate FromRows(outcomes: seq<Result<Column, LayoutError>>, cs: seq<Column>) {
    forall k :: 0 <= k < |cs| ==> Ok(cs[k]) in outcomes
  }

  /** Assigning a column moves no name already present, and changes no other name's column. */
  lemma InsertKeepsIndex(prev: seq<Column>, c: Column, x: string)
    requires UniqueNames(prev) && NameIndex(prev, x) < |prev|
    ensures NameIndex(Insert(prev, c), x) == NameIndex(prev, x)
    ensures x != c.name ==> Insert(prev, c)[NameIndex(prev, x)] == prev[NameIndex(prev, x)]
  {
    InsertKeepsUnique(prev, c);
    NameIndexIs(Insert(prev, c), x, NameIndex(prev, x));
  }

  /** Each column after an assignment is the new column or the one already at its place. */
  lemma InsertFrom(prev: seq<Column>, c: Column, k: nat)
    requires k < |Insert(prev, c)|
    ensures Insert(prev, c)[k] == c || (k < |prev| && Insert(prev, c)[k] == prev[k])
  {
  }

  /** The last row of a successful loop read, and the columns before it. */
  lemma AssignStep(outcomes: seq<Result<Column, LayoutError>>)
    requires outcomes != [] && AssignAll(outcomes).Ok?
    ensures AssignAll(outcomes[..|outcomes| - 1]).Ok? && outcomes[|outcomes| - 1].Ok?
    ensures AssignAll(outcomes).value == Insert(AssignAll(outcomes[..|outcomes| - 1]).value, outcomes[|outcomes| - 1].value)
  {
  }

  /** One more row keeps every row keyed. */
  lemma KeyedStep(init: seq<Result<Column, LayoutError>>, c: Column, prev: seq<Column>)
    requires UniqueNames(prev) && Keyed(init, prev)
    ensures Keyed(init + [Ok(c)], Insert(prev, c))
  {
    var outcomes := init + [Ok(c)];
    InsertKeepsUnique(prev, c);
    forall i | 0 <= i < |init|
      ensures outcomes[i].Ok? && NameIndex(Insert(prev, c), outcomes[i].value.name) < |Insert(prev, c)|
    {
      assert outcomes[i] == init[i];
      InsertKeepsIndex(prev, c, init[i].value.name);
    }
  }

  /** One more row keeps the latest row of each name in the dictionary. */
  lemma LatestStep(init: seq<Result<Column, LayoutError>>, c: Column, prev: seq<Column>)
    requires UniqueNames(prev) && Keyed(init, prev) && KeepsLatest(init, prev)
    ensures Keyed(init + [Ok(c)], Insert(prev, c))
    ensures KeepsLatest(init + [Ok(c)], Insert(prev, c))
  {
    var outcomes := init + [Ok(c)];
    var n := |init|;
    KeyedStep(init, c, prev);
    InsertKeepsUnique(prev, c);
    forall i | 0 <= i < |outcomes| && forall j :: i < j < |outcomes| ==> outcomes[j].value.name != outcomes[i].value.name
      ensures Insert(prev, c)[NameIndex(Insert(prev, c), outcomes[i].value.name)] == outcomes[i].value
    {
      if i < n {
        assert outcomes[i] == init[i];
        forall j | i < j < n ensures init[j].value.name != init[i].value.name {
          assert init[j] == outcomes[j];
        }
        assert outcomes[n].value == c;
        InsertKeepsIndex(prev, c, init[i].value.name);
      }
    }
  }

  /** One more row keeps nothing that no row read. */
  lemma FromRowsStep(init: seq<Result<Column, LayoutError>>, c: Column, prev: seq<Column>)
    requires FromRows(init, prev)
    ensures FromRows(init + [Ok(c)], Insert(prev, c))
  {
    var outcomes := init + [Ok(c)];
    forall k | 0 <= k < |Insert(prev, c)| ensures Ok(Insert(prev, c)[k]) in outcomes {
      InsertFrom(prev, c, k);
      if Insert(prev, c)[k] != c {
        var i :| 0 <= i < |init| && init[i] == Ok(prev[k]);
        assert outcomes[i] == init[i];
      } else {
        assert outcomes[|init|] == Ok(Insert(prev, c)[k]);
      }
    }
  }

  /** The three facts carried from the rows before the last to all the rows. */
  lemma LastRowStep(outcomes: seq<Result<Column, LayoutError>>, prev: seq<Column>)
    requires outcomes != [] && outcomes[|outcomes| - 1].Ok? && UniqueNames(prev)
    requires Keyed(outcomes[..|outcomes| - 1], prev) && KeepsLatest(outcomes[..|outcomes| - 1], prev)
    requires FromRows(outcomes[..|outcomes| - 1], prev)
    ensures Keyed(outcomes, Insert(prev, outcomes[|outcomes| - 1].value))
    ensures KeepsLatest(outcomes, Insert(prev, outcomes[|outcomes| - 1].value))
    ensures FromRows(outcomes, Insert(prev, outcomes[|outcomes| - 1].value))
  {
    var init := outcomes[..|outcomes| - 1];
    var c := outcomes[|outcomes| - 1].value;
    assert outcomes == init + [Ok(c)];
    LatestStep(init, c, prev);
    FromRowsStep(init, c, prev);
  }

  /**
   * After the row loop every row's column is found under its short name, the
   * last row carrying a name is the column kept under it, and nothing is kept
   * that no row read.
   */
  lemma {:induction false} AssignKeepsLatest(outcomes: seq<Result<Column, LayoutError>>)
    requires AssignAll(outcomes).Ok?
    ensures Keyed(outcomes, AssignAll(outcomes).value)
    ensures KeepsLatest(outcomes, AssignAll(outcomes).value)
    ensures FromRows(outcomes, AssignAll(outcomes).value)
  {
    if outcomes != [] {
      var n := |outcomes| - 1;
      var init := outcomes[..n];
      AssignStep(outcomes);
      AssignKeepsLatest(init);
      AssignKeyedByName(init);
      LastRowStep(outcomes, AssignAll(init).value);
    }
  }

  /** Once a row fails to read, the loop has raised: the rows after it do not matter. */
  lemma {:induction false} AssignErrorPersists(outcomes: seq<Result<Column, LayoutError>>, m: nat)
    requires m <= |outcomes| && AssignAll(outcomes[..m]).Err?
    ensures AssignAll(outcomes) == AssignAll(outcomes[..m])
    decreases |outcomes| - m
  {
    if m < |outcomes| {
      var longer := outcomes[..m + 1];
      assert longer[..m] == outcomes[..m];
      AssignErrorPersists(outcomes, m + 1);
    } else {
      assert outcomes[..m] == outcomes;
    }
  }

  /** The error that aborts the loop is the error of one of the rows. */
  lemma {:induction false} AssignErrorFromRow(outcomes: seq<Result<Column, LayoutError>>)
    requires AssignAll(outcomes).Err?
    ensures exists i :: 0 <= i < |outcomes| && outcomes[i] == Err(AssignAll(outcomes).error)
    decreases |outcomes|
  {
    var n := |outcomes| - 1;
    var prefix := outcomes[..n];
    if AssignAll(prefix).Err? {
      AssignErrorFromRow(prefix);
      var i :| 0 <= i < |prefix| && prefix[i] == Err(AssignAll(prefix).error);
      assert outcomes[i] == prefix[i];
    } else {
      assert outcomes[n] == Err(AssignAll(outcomes).error);
    }
  }

  /**
   * `init` fails only with the errors of the document itself: no lines, a
   * separator line without seven fields, or a row whose start or width does
   * not convert.
   */
  lemma ParseLayoutErrors(lines: seq<string>)
    requires ParseLayout(lines).Err?
    ensures var e := ParseLayout(lines).error;
      e.NoLines? || e.FieldCount? || e.MissingStart? || e.MissingWidth?
  {
    if lines != [] {
      var k := HeaderEnd(lines);
      var fields := Split(lines[k], ' ');
      if |fields| == 7 {
        var attrs := TemplateOf(fields);
        var rows := RowsAfter(lines, k);
        var outcomes := RowOutcomes(attrs, rows);
        AssignErrorFromRow(outcomes);
        var i :| 0 <= i < |outcomes| && outcomes[i] == Err(AssignAll(outcomes).error);
        assert outcomes[i] == ReadColumn(attrs, rows[i]);
      }
    }
  }

  /** The same, stated for the rows of a layout document. */
  lemma ColumnsKeyedByName(attrs: seq<Attribute>, rows: seq<string>)
    requires ColumnDefConvs(attrs)
    requires ColumnsOf(attrs, rows).Ok?
    ensures UniqueNames(ColumnsOf(attrs, rows).value)
    ensures |ColumnsOf(attrs, rows).value| <= |rows|
    ensures Keyed(RowOutcomes(attrs, rows), ColumnsOf(attrs, rows).value)
    ensures KeepsLatest(RowOutcomes(attrs, rows), ColumnsOf(attrs, rows).value)
    ensures FromRows(RowOutcomes(attrs, rows), ColumnsOf(attrs, rows).value)
  {
    AssignKeyedByName(RowOutcomes(attrs, rows));
    AssignKeepsLatest(RowOutcomes(attrs, rows));
  }

  /** A layout as `init` leaves it: the metadata map and the ordered columns. */
  datatype Layout = Layout(metadata: map<string, string>, columns: seq<Column>)

  /** What `init` computes from the lines of a layout document. */
  function ParseLayout(lines: seq<string>): (r: Result<Layout, LayoutError>)
  {
    if lines == [] then Err(NoLines)
    else
      var k := HeaderEnd(lines);
      var fields := Split(lines[k], ' ');
      if |fields| != 7 then Err(FieldCount(|fields|))
      else
        var attrs := TemplateOf(fields);
        var columns :- ColumnsOf(attrs, RowsAfter(lines, k));
        Ok(Layout(MetadataOf(PreambleOf(lines)), columns))
  }

  /** The metadata key that gives the record length. */
  const BlockSizeKey := "Exact File Record Length (Bytes in Variable Block)"

  /** The string with every comma removed (`replace(',', '')`). */
  function DropCommas(s: string): (r: string)
    ensures ',' !in r
    ensures ',' !in s ==> r == s
  {
    if s == [] then [] else (if s[0] == ',' then [] else [s[0]]) + DropCommas(s[1..])
  }

  /** The block size `__init__` reads: strip, drop thousands separators, `int`. */
  function BlockSizeOf(metadata: map<string, string>): (r: Result<int, LayoutError>)
    ensures BlockSizeKey !in metadata ==> r == Err(MissingBlockSize)
  {
    if BlockSizeKey !in metadata then Err(MissingBlockSize)
    else
      var v := Strip(metadata[BlockSizeKey]);
      var v' := if ',' in v then DropCommas(v) else v;
      match ParseInt(v')
      case Some(n) => Ok(n)
      case None => Err(BadBlockSize)
  }

  /** A record length written as a plain number, with any surrounding whitespace, is read back exactly. */
  lemma BlockSizeRoundTrip(metadata: map<string, string>, n: nat, pad: string, tail: string)
    requires AllSpace(pad) && AllSpace(tail)
    requires BlockSizeKey in metadata && metadata[BlockSizeKey] == pad + NatToStr(n) + tail
    ensures BlockSizeOf(metadata) == Ok(n)
  {
    var digits := NatToStr(n);
    StripPadded(pad, digits, tail);
    NoCommaInDigits(digits);
    assert IntToStr(n) == digits;
    ParseIntToStr(n);
  }

  /** `replace(',', '')` works piece by piece: it keeps every other character, in order. */
  lemma {:induction false} DropCommasAppend(a: string, b: string)
    ensures DropCommas(a + b) == DropCommas(a) + DropCommas(b)
  {
    if a == [] {
      assert a + b == b;
    } else {
      assert (a + b)[1..] == a[1..] + b;
      DropCommasAppend(a[1..], b);
    }
  }

  /** A single character is dropped exactly when it is a comma. */
  lemma DropCommasChar(c: char)
    ensures DropCommas([c]) == if c == ',' then [] else [c]
  {
  }

  /**
   * A record length written with a thousands separator, such as `1,234`,
   * with any surrounding whitespace, reads back as its digits without the comma.
   */
  lemma BlockSizeGroupedRoundTrip(metadata: map<string, string>, pad: string, high: string, low: string, tail: string)
    requires AllSpace(pad) && AllSpace(tail) && IsDigits(high) && IsDigits(low)
    requires BlockSizeKey in metadata && metadata[BlockSizeKey] == pad + high + "," + low + tail
    ensures AllDigits(high + low)
    ensures BlockSizeOf(metadata) == Ok(DecimalValue(high + low))
  {
    var grouped := high + "," + low;
    assert metadata[BlockSizeKey] == pad + grouped + tail;
    assert grouped[0] == high[0] && grouped[|grouped| - 1] == low[|low| - 1];
    StripPadded(pad, grouped, tail);
    assert grouped[|high|] == ',';
    NoCommaInDigits(high);
    NoCommaInDigits(low);
    DropSeparator(high, low);
    DigitsJoin(high, low);
    ParseIntDigits(high + low);
  }

  /** Dropping the one comma between two comma-free pieces joins them. */
  lemma DropSeparator(high: string, low: string)
    requires ',' !in high && ',' !in low
    ensures DropCommas(high + [','] + low) == high + low
  {
    var comma: string := [','];
    DropCommasAppend(high + comma, low);
    DropCommasAppend(high, comma);
    DropCommasChar(',');
    assert DropCommas(high + comma) == high;
  }

  lemma DigitsJoin(high: string, low: string)
    requires IsDigits(high) && IsDigits(low)
    ensures IsDigits(high + low)
  {
    forall i | 0 <= i < |high + low| ensures IsDigit((high + low)[i]) {
      if i < |high| { assert (high + low)[i] == high[i]; } else { assert (high + low)[i] == low[i - |high|]; }
    }
  }

  lemma NoCommaInDigits(digits: string)
    requires AllDigits(digits)
    ensures ',' !in digits
  {
    forall i | 0 <= i < |digits| ensures digits[i] != ',' {
      assert IsDigit(digits[i]);
    }
  }

  lemma StripPadded(pad: string, s: string, tail: string)
    requires AllSpace(pad) && AllSpace(tail)
    requires |s| > 0 && !IsSpace(s[0]) && !IsSpace(s[|s| - 1])
    ensures Strip(pad + s + tail) == s
  {
    var t := pad + s + tail;
    var a := SpaceEnd(t, 0);
    SpaceEndSkipsSpace(t, 0);
    assert a == |pad| by {
      assert t[|pad|] == s[0];
      assert forall j :: 0 <= j < |pad| ==> t[j] == pad[j];
    }
    var b := SpaceStart(t, a, |t|);
    SpaceStartSkipsSpace(t, a, |t|);
    assert b == |pad| + |s| by {
      assert t[|pad| + |s| - 1] == s[|s| - 1];
      assert forall j :: |pad| + |s| <= j < |t| ==> t[j] == tail[j - |pad| - |s|];
    }
    assert t[a..b] == s;
  }
}
