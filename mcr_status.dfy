/**
 * The completeness check of `MedicareFile` in `cms/tools/mcr_file.py`:
 * the line feeds of the `.dat` files against the lines of the written
 * CSV, and the status text that compares them.
 */
module McrStatus {
  import opened Wrappers
  import opened PyText
  import opened McrRecord
  import opened McrExport

  /** The chunk size of `count_lines_in_source`: one mebibyte. */
  const ChunkSize := 1024 * 1024

  /** `chunk.count(b'\n')`. */
  function Newlines(b: seq<byte>): nat {
    if b == [] then 0 else Newlines(b[..|b| - 1]) + (if b[|b| - 1] == 10 then 1 else 0)
  }

  /** Counting line feeds of two pieces is counting them in the whole. */
  lemma {:induction false} NewlinesAppend(a: seq<byte>, b: seq<byte>)
    ensures Newlines(a + b) == Newlines(a) + Newlines(b)
    decreases |b|
  {
    if b == [] {
      assert a + b == a;
    } else {
      NewlinesAppend(a, b[..|b| - 1]);
      assert (a + b)[..|a + b| - 1] == a + b[..|b| - 1];
    }
  }

  /** The line feeds of every `.dat` file, added up. */
  function TotalNewlines(files: seq<seq<byte>>): nat {
    if files == [] then 0 else TotalNewlines(files[..|files| - 1]) + Newlines(files[|files| - 1])
  }

  /**
   * `count_lines_in_source`: every `.dat` file read in chunks of one
   * mebibyte until a read returns nothing, its line feeds counted per chunk.
   */
  method CountLinesInSource(files: seq<seq<byte>>) returns (lines: nat)
    ensures lines == TotalNewlines(files)
  {
    lines := 0;
    for f := 0 to |files|
      invariant lines == TotalNewlines(files[..f])
    {
      var data := files[f];
      var counter := 0;
      var pos := 0;
      while true
        invariant pos <= |data| && counter == Newlines(data[..pos])
        decreases |data| - pos
      {
        var chunk := Read(data, pos, ChunkSize);
        if |chunk| < 1 {
          break;
        }
        NewlinesAppend(data[..pos], chunk);
        assert data[..pos] + chunk == data[..pos + |chunk|];
        counter := counter + Newlines(chunk);
        pos := pos + |chunk|;
      }
      assert data[..pos] == data;
      assert files[..f + 1][..f] == files[..f];
      lines := lines + counter;
    }
    assert files[..|files|] == files;
  }

  /** A line ends at `\n`, at `\r\n`, or at a `\r` on its own (universal newlines). */
  predicate IsLineBreak(c: char) {
    c == '\n' || c == '\r'
  }

  /** The length of the first line of `text` with its line break. */
  function LineEnd(text: string): (n: nat)
    requires text != []
    ensures 0 < n <= |text|
    decreases |text|
  {
    if text[0] == '\r' then (if |text| > 1 && text[1] == '\n' then 2 else 1)
    else if text[0] == '\n' || |text| == 1 then 1
    else 1 + LineEnd(text[1..])
  }

  /** The number of lines iterating over the text yields. */
  function LineCount(text: string): nat
    decreases |text|
  {
    if text == [] then 0 else 1 + LineCount(text[LineEnd(text)..])
  }

  /** `count_lines_in_dest` over the decompressed text of the CSV: one count per line read. */
  method CountLinesInDest(text: string) returns (lines: nat)
    ensures lines == LineCount(text)
  {
    lines := 0;
    var rest := text;
    while rest != []
      invariant lines + LineCount(rest) == LineCount(text)
      decreases |rest|
    {
      var n := LineEnd(rest);
      rest := rest[n..];
      lines := lines + 1;
    }
  }

  /** The CSV writer's output: every row followed by `\r\n`. */
  function CsvText(rows: seq<string>): string {
    if rows == [] then [] else rows[0] + "\r\n" + CsvText(rows[1..])
  }

  /** The line count reads back exactly the rows written, when no row holds a line break. */
  lemma {:induction false} CsvLineCount(rows: seq<string>)
    requires forall i, j :: 0 <= i < |rows| && 0 <= j < |rows[i]| ==> !IsLineBreak(rows[i][j])
    ensures LineCount(CsvText(rows)) == |rows|
  {
    if rows != [] {
      var text := CsvText(rows);
      var row := rows[0];
      assert text == row + "\r\n" + CsvText(rows[1..]);
      RowEnd(row, CsvText(rows[1..]));
      assert text[|row| + 2..] == CsvText(rows[1..]);
      CsvLineCount(rows[1..]);
    }
  }

  /** A row without line breaks, then `\r\n`, is one line. */
  lemma {:induction false} RowEnd(row: string, tail: string)
    requires forall j :: 0 <= j < |row| ==> !IsLineBreak(row[j])
    ensures LineEnd(row + "\r\n" + tail) == |row| + 2
    decreases |row|
  {
    if row != [] {
      assert (row + "\r\n" + tail)[1..] == row[1..] + "\r\n" + tail;
      RowEnd(row[1..], tail);
    }
  }

  /** What `status` reports for one file. */
  datatype Status =
    | NoOutput                             // no CSV yet
    | Empty                                // the CSV has no line
    | Mismatch(source: nat, dest: nat)     // the counts differ
    | Ready                                // the counts agree
    | Failed(message: string)              // an exception, with its message

  /** The text `status` returns. */
  function StatusText(s: Status): string {
    match s
    case NoOutput => "NONE"
    case Empty => "EMPTY"
    case Mismatch(l1, l2) => "MISMATCH: " + IntToStr(l1) + "=>" + IntToStr(l2)
    case Ready => "READY"
    case Failed(msg) => "ERROR: " + msg
  }

  /**
   * `status` given the CSV (absent, unreadable with a message, or its
   * text) and the `.dat` files (unreadable with a message, or their
   * bytes); the `.dat` files are read only when the CSV has a line.
   */
  function StatusOf(dest: Option<Result<string, string>>, sources: Result<seq<seq<byte>>, string>): Status {
    match dest
    case None => NoOutput
    case Some(Err(msg)) => Failed(msg)
    case Some(Ok(text)) =>
      var l2 := LineCount(text);
      if l2 < 1 then Empty
      else
        match sources
        case Err(msg) => Failed(msg)
        case Ok(files) =>
          var l1 := TotalNewlines(files);
          if l1 != l2 then Mismatch(l1, l2) else Ready
  }

  /** A file is `READY` exactly when both sides are readable, the CSV has a line, and the counts agree. */
  lemma ReadyIff(dest: Option<Result<string, string>>, sources: Result<seq<seq<byte>>, string>)
    ensures StatusOf(dest, sources) == Ready <==>
      && dest.Some? && dest.value.Ok? && LineCount(dest.value.value) >= 1
      && sources.Ok? && TotalNewlines(sources.value) == LineCount(dest.value.value)
  {
  }

  /** `MISMATCH` carries both counts, and they differ. */
  lemma MismatchCounts(dest: Option<Result<string, string>>, sources: Result<seq<seq<byte>>, string>)
    requires StatusOf(dest, sources).Mismatch?
    ensures dest.Some? && dest.value.Ok? && sources.Ok?
    ensures StatusOf(dest, sources) == Mismatch(TotalNewlines(sources.value), LineCount(dest.value.value))
    ensures TotalNewlines(sources.value) != LineCount(dest.value.value)
  {
  }

  /** An empty CSV text has no line, and a non-empty one has at least one. */
  lemma EmptyIff(text: string)
    ensures LineCount(text) == 0 <==> text == []
  {
  }

  /** Reading a status text back. */
  function ParseStatus(text: string): (r: Option<Status>) {
    if text == "NONE" then Some(NoOutput)
    else if text == "EMPTY" then Some(Empty)
    else if text == "READY" then Some(Ready)
    else if StartsWith(text, "ERROR: ") then Some(Failed(text[7..]))
    else if StartsWith(text, "MISMATCH: ") then
      match ParseCounts(text[10..])
      case Some((l1, l2)) => Some(Mismatch(l1, l2))
      case None => None
    else None
  }

  /** The two counts `l1=>l2` of a `MISMATCH` text. */
  function ParseCounts(rest: string): Option<(nat, nat)> {
    var k := IndexOf(rest, '=');
    if k + 1 < |rest| && rest[k + 1] == '>' then
      match (ParseInt(rest[..k]), ParseInt(rest[k + 2..]))
      case (Some(l1), Some(l2)) => if l1 >= 0 && l2 >= 0 then Some((l1, l2)) else None
      case _ => None
    else None
  }

  /** Every status text reads back as the status it came from: the classification is unambiguous. */
  lemma StatusRoundTrip(s: Status)
    ensures ParseStatus(StatusText(s)) == Some(s)
  {
    match s
    case Mismatch(l1, l2) => MismatchRoundTrip(l1, l2);
    case Failed(msg) => FailedRoundTrip(msg);
    case _ =>
  }

  lemma FailedRoundTrip(msg: string)
    ensures ParseStatus(StatusText(Failed(msg))) == Some(Failed(msg))
  {
    var text := "ERROR: " + msg;
    assert text[0] == 'E' && text[1] == 'R';
    assert StartsWith(text, "ERROR: ") && text[7..] == msg;
  }

  lemma MismatchRoundTrip(l1: nat, l2: nat)
    ensures ParseStatus(StatusText(Mismatch(l1, l2))) == Some(Mismatch(l1, l2))
  {
    var rest := IntToStr(l1) + "=>" + IntToStr(l2);
    var text := "MISMATCH: " + rest;
    assert StatusText(Mismatch(l1, l2)) == text;
    assert text[0] == 'M';
    assert text != "NONE" && text != "EMPTY" && text != "READY" && !StartsWith(text, "ERROR: ");
    assert StartsWith(text, "MISMATCH: ") && text[10..] == rest;
    CountsRoundTrip(l1, l2);
  }

  /** The counts of a `MISMATCH` text read back as they were formatted. */
  lemma CountsRoundTrip(l1: nat, l2: nat)
    ensures ParseCounts(IntToStr(l1) + "=>" + IntToStr(l2)) == Some((l1, l2))
  {
    var a, b := IntToStr(l1), IntToStr(l2);
    CountsSplit(a, b);
    ParseIntToStr(l1);
    ParseIntToStr(l2);
  }

  /** The two counts of a `MISMATCH` text are cut apart at its `=>`. */
  lemma CountsSplit(a: string, b: string)
    requires IsDigits(a)
    ensures var rest := a + "=>" + b; var k := IndexOf(rest, '=');
      k == |a| && k + 1 < |rest| && rest[k + 1] == '>' && rest[..k] == a && rest[k + 2..] == b
  {
    var rest := a + "=>" + b;
    assert '=' !in a by {
      assert forall i :: 0 <= i < |a| ==> IsDigit(a[i]);
    }
    assert rest == a + ['='] + (">" + b);
    IndexOfPrefix(a, ">" + b, '=');
  }
}
