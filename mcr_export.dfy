/**
 * The block reader of `MedicareFile.export` in `cms/tools/mcr_file.py`: one
 * `.dat` file is read as fixed-size records, each followed by any run of
 * CR/LF bytes; a record that cannot be parsed is skipped up to the next
 * CR/LF byte, and the bytes not yet consumed are carried over as the
 * remainder of the next read.
 */
module McrExport {
  import opened Wrappers
  import opened PyText
  import opened McrLayout
  import opened McrRecord

  /** What the block loop needs of a `MedicareFile`: its columns, record length, year and foreign code. */
  datatype Reader = Reader(columns: seq<Column>, blockSize: int, year: string, rt: Runtime)

  /** The per-file counters of the loop and the rows handed to the CSV writer. */
  datatype Tally = Tally(counter: nat, good: nat, bad: nat, badLines: nat, rows: seq<seq<Value>>)

  /**
   * How the loop over one file ends: the file is used up, the loop would go
   * round forever on the same bytes, or an exception escapes `export`.
   */
  datatype Stop = Done | Stuck | Fatal(e: RecordError)

  datatype DatResult = DatResult(tally: Tally, stop: Stop)

  /** The bytes 10 and 13 that end a record. */
  predicate IsTerminator(b: byte) {
    b == 10 || b == 13
  }

  /** `source.read(l)` at file position `pos`: `l` bytes or fewer, everything when `l` is negative. */
  function Read(data: seq<byte>, pos: nat, l: int): (chunk: seq<byte>)
    requires pos <= |data|
    ensures pos + |chunk| <= |data| && chunk == data[pos..pos + |chunk|]
    ensures l >= 0 ==> |chunk| == if pos + l > |data| then |data| - pos else l
    ensures l < 0 ==> |chunk| == |data| - pos
  {
    if l < 0 || pos + l > |data| then data[pos..] else data[pos..pos + l]
  }

  /**
   * The block the loop sees when the unconsumed input is `rest`: the
   * remainder topped up to `block_size + 100` bytes, or everything left.
   */
  function BlockAt(rest: seq<byte>, bs: int): (block: seq<byte>)
    ensures |block| <= |rest| && block == rest[..|block|]
    ensures bs + 100 < 0 ==> block == rest
    ensures bs + 100 >= 0 ==> |block| == if bs + 100 < |rest| then bs + 100 else |rest|
  {
    if bs + 100 >= 0 && bs + 100 < |rest| then rest[..bs + 100] else rest
  }

  /**
   * `for idx in range(j, bs): if block[idx] in [10, 13]: break` from index
   * `j` on: the first CR/LF index, or `bs - 1` when there is none.
   */
  function ScanFrom(block: seq<byte>, j: int, bs: int): (r: Result<int, RecordError>)
    requires j < bs <= |block|
    ensures r.Err? <==> j < -|block|
    ensures r.Ok? ==> j <= r.value < bs
    ensures r.Ok? ==> IsTerminator(At(block, r.value)) || r.value == bs - 1
    ensures r.Ok? ==> forall k :: j <= k < r.value ==> !IsTerminator(At(block, k))
    decreases bs - j
  {
    if j < -|block| then Err(IndexOutOfRange)
    else if IsTerminator(At(block, j)) || j + 1 == bs then Ok(j)
    else ScanFrom(block, j + 1, bs)
  }

  /** Where the scan after a parse error at `pos` leaves `idx`: `bs` itself when the range is empty. */
  function ScanAfterError(block: seq<byte>, pos: int, bs: int): Result<int, RecordError>
    requires bs <= |block|
  {
    if pos >= bs then Ok(bs) else ScanFrom(block, pos, bs)
  }

  /** `while idx < len(block) and block[idx] in [10, 13]: idx += 1`. */
  function SkipTerminators(block: seq<byte>, idx: int): (r: Result<int, RecordError>)
    ensures r.Ok? ==> idx <= r.value
    ensures r.Ok? && idx < |block| ==> r.value <= |block|
    ensures r.Ok? ==> r.value >= |block| || (-|block| <= r.value && !IsTerminator(At(block, r.value)))
    ensures r.Ok? ==> forall k :: idx <= k < r.value ==> -|block| <= k < |block| && IsTerminator(At(block, k))
    decreases |block| - idx
  {
    if idx >= |block| then Ok(idx)
    else if idx < -|block| then Err(IndexOutOfRange)
    else if IsTerminator(At(block, idx)) then SkipTerminators(block, idx + 1)
    else Ok(idx)
  }

  /** What the `try` of the loop does with one record. */
  datatype Attempt =
    | Written(row: seq<Value>)  // read, validated and written
    | RejectedRow               // `validate` raised `AssertionError`
    | Unparsed(pos: int)        // `read_record` raised `MedparParseException`
    | Escaped(e: RecordError)   // any other exception: it leaves `export`

  function AttemptOf(rd: Reader, block: seq<byte>): Attempt {
    match DecodeRecord(rd.columns, Slice(block, 0, Some(rd.blockSize)), rd.rt)
    case Err(ParseError(pos)) => Unparsed(pos)
    case Err(e) => Escaped(e)
    case Ok(record) =>
      match Validate(rd.columns, rd.year, record)
      case Ok(_) => Written(record)
      case Err(Rejected) => RejectedRow
      case Err(e) => Escaped(e)
  }

  /** One iteration either continues after consuming `advance` bytes, or ends the loop. */
  datatype StepResult = Next(advance: nat, tally: Tally) | Halt(result: DatResult)

  /**
   * The `try` of one iteration: the tally after it and where `idx` stands,
   * or the exception that leaves `export`.
   */
  function Tried(rd: Reader, block: seq<byte>, t: Tally): (Tally, Result<int, RecordError>)
    requires rd.blockSize <= |block|
  {
    var bs := rd.blockSize;
    match AttemptOf(rd, block)
    case Written(row) => (t.(good := t.good + 1, rows := t.rows + [row]), Ok(bs))
    case RejectedRow => (t.(badLines := t.badLines + 1), Ok(bs))
    case Unparsed(pos) => (t.(bad := t.bad + 1, badLines := t.badLines + 1), ScanAfterError(block, pos, bs))
    case Escaped(e) => (t, Err(e))
  }

  /** The end of an iteration: skip CR/LF bytes, count the record, and move past what was consumed. */
  function Finish(block: seq<byte>, t1: Tally, scanned: Result<int, RecordError>): (r: StepResult)
    ensures r.Next? ==> 0 < r.advance <= |block|
  {
    match scanned
    case Err(e) => Halt(DatResult(t1, Fatal(e)))
    case Ok(idx) =>
      match SkipTerminators(block, idx)
      case Err(e) => Halt(DatResult(t1, Fatal(e)))
      case Ok(idx') =>
        var advance := SliceBound(idx', |block|);
        var t2 := t1.(counter := t1.counter + 1);
        if advance == 0 then Halt(DatResult(t2, Stuck)) else Next(advance, t2)
  }

  /** One iteration of the loop over the unconsumed input `rest`. */
  function Step(rd: Reader, rest: seq<byte>, t: Tally): (r: StepResult)
    ensures r.Next? ==> 0 < r.advance <= |rest|
  {
    var block := BlockAt(rest, rd.blockSize);
    if |block| < rd.blockSize then Halt(DatResult(t, Done))
    else
      var (t1, scanned) := Tried(rd, block, t);
      Finish(block, t1, scanned)
  }

  /** The loop from the unconsumed input `rest` with the tally `t`, to its end. */
  function Run(rd: Reader, rest: seq<byte>, t: Tally): DatResult
    decreases |rest|
  {
    match Step(rd, rest, t)
    case Halt(r) => r
    case Next(advance, t') => Run(rd, rest[advance..], t')
  }

  /** The tally a file starts with. */
  const Fresh := Tally(0, 0, 0, 0, [])

  /**
   * The loop of `export` over one `.dat` file, with the carried `remainder`
   * and the file position of `source`; it stops with `Stuck` where the
   * source would read the same block forever.
   */
  method ExportDat(rd: Reader, data: seq<byte>) returns (res: DatResult)
    ensures res == Run(rd, data, Fresh)
  {
    var t := Fresh;
    var remainder: seq<byte> := [];
    var pos := 0;
    ghost var q := 0;
    assert data[q..] == data;
    while true
      invariant 0 <= q <= pos <= |data|
      invariant remainder == data[q..pos]
      invariant rd.blockSize + 100 >= 0 ==> pos - q <= rd.blockSize + 100
      invariant Run(rd, data[q..], t) == Run(rd, data, Fresh)
      decreases |data| - q
    {
      var stop, pos', remainder', t';
      ghost var q';
      stop, q', pos', remainder', t' := Pass(rd, data, q, pos, remainder, t);
      if stop.Some? {
        return stop.value;
      }
      q, pos, remainder, t := q', pos', remainder', t';
    }
  }

  /** One pass of the loop body, stated as what it leaves of the whole run. */
  method Pass(rd: Reader, data: seq<byte>, ghost q: nat, pos: nat, remainder: seq<byte>, t: Tally)
    returns (stop: Option<DatResult>, ghost q': nat, pos': nat, remainder': seq<byte>, t': Tally)
    requires q <= pos <= |data| && remainder == data[q..pos]
    requires rd.blockSize + 100 >= 0 ==> pos - q <= rd.blockSize + 100
    ensures stop.Some? ==> stop.value == Run(rd, data[q..], t)
    ensures stop.None? ==> q < q' <= pos' <= |data| && remainder' == data[q'..pos']
    ensures stop.None? ==> (rd.blockSize + 100 >= 0 ==> pos' - q' <= rd.blockSize + 100)
    ensures stop.None? ==> Run(rd, data[q'..], t') == Run(rd, data[q..], t)
  {
    stop, q', pos', remainder', t' := Iterate(rd, data, q, pos, remainder, t);
    RunUnfolds(rd, data[q..], t);
    if stop.None? {
      assert data[q..][q' - q..] == data[q'..];
    }
  }

  /** `Run` takes one `Step` and goes on with what it leaves. */
  lemma RunUnfolds(rd: Reader, rest: seq<byte>, t: Tally)
    ensures Step(rd, rest, t).Halt? ==> Run(rd, rest, t) == Step(rd, rest, t).result
    ensures Step(rd, rest, t).Next? ==>
      Run(rd, rest, t) == Run(rd, rest[Step(rd, rest, t).advance..], Step(rd, rest, t).tally)
  {
  }

  /**
   * One pass of the loop body: top the remainder up to a block, try the
   * record at its head, skip the CR/LF bytes after it and keep the rest.
   */
  method Iterate(rd: Reader, data: seq<byte>, ghost q: nat, pos: nat, remainder: seq<byte>, t: Tally)
    returns (stop: Option<DatResult>, ghost q': nat, pos': nat, remainder': seq<byte>, t': Tally)
    requires q <= pos <= |data| && remainder == data[q..pos]
    requires rd.blockSize + 100 >= 0 ==> pos - q <= rd.blockSize + 100
    ensures stop.Some? ==> Step(rd, data[q..], t) == Halt(stop.value)
    ensures stop.None? ==> q < q' <= pos' <= |data| && remainder' == data[q'..pos']
    ensures stop.None? ==> (rd.blockSize + 100 >= 0 ==> pos' - q' <= rd.blockSize + 100)
    ensures stop.None? ==> Step(rd, data[q..], t) == Next(q' - q, t')
  {
    var bs := rd.blockSize;
    var chunk := Read(data, pos, bs - |remainder| + 100);
    var block := remainder + chunk;
    BlockIsTopUp(data, q, pos, bs, chunk);
    pos' := pos + |chunk|;
    q' := q;
    remainder' := remainder;
    t' := t;
    if |block| < bs {
      return Some(DatResult(t, Done)), q', pos', remainder', t';
    }
    var t1, scanned := TryBlock(rd, block, t);
    if scanned.Err? {
      return Some(DatResult(t1, Fatal(scanned.error))), q', pos', remainder', t1;
    }
    var skipped := SkipRun(block, scanned.value);
    if skipped.Err? {
      return Some(DatResult(t1, Fatal(skipped.error))), q', pos', remainder', t1;
    }
    var idx := skipped.value;
    var advance := SliceBound(idx, |block|);
    t' := t1.(counter := t1.counter + 1);
    if advance == 0 {
      return Some(DatResult(t', Stuck)), q', pos', remainder', t';
    }
    remainder' := Slice(block, idx, None);
    RemainderIsTail(data, q, pos', block, idx);
    q' := q + advance;
    stop := None;
  }

  /** `block[idx:]` is what is left of the input after the bytes the iteration consumed. */
  lemma RemainderIsTail(data: seq<byte>, q: nat, pos: nat, block: seq<byte>, idx: int)
    requires q <= pos <= |data| && block == data[q..pos]
    ensures Slice(block, idx, None) == data[q + SliceBound(idx, |block|)..pos]
  {
  }

  /** The top-up read of an iteration makes the remainder into the block `BlockAt` describes. */
  lemma BlockIsTopUp(data: seq<byte>, q: nat, pos: nat, bs: int, chunk: seq<byte>)
    requires q <= pos <= |data|
    requires bs + 100 >= 0 ==> pos - q <= bs + 100
    requires chunk == Read(data, pos, bs - (pos - q) + 100)
    ensures data[q..pos] + chunk == BlockAt(data[q..], bs)
  {
    assert data[q..pos] + chunk == data[q..pos + |chunk|];
  }

  /**
   * The `try`/`except` of one iteration: read and validate the record at the
   * head of the block, write it or count it as bad, and after a parse error
   * scan for the next CR/LF byte.
   */
  method TryBlock(rd: Reader, block: seq<byte>, t: Tally) returns (t1: Tally, scanned: Result<int, RecordError>)
    requires rd.blockSize <= |block|
    ensures (t1, scanned) == Tried(rd, block, t)
  {
    var bs := rd.blockSize;
    var record := ReadRecord(rd.columns, Slice(block, 0, Some(bs)), rd.rt);
    match record {
      case Ok(rec) =>
        var verdict := Validate(rd.columns, rd.year, rec);
        if verdict.Ok? {
          return t.(good := t.good + 1, rows := t.rows + [rec]), Ok(bs);
        } else if verdict.error == Rejected {
          return t.(badLines := t.badLines + 1), Ok(bs);
        } else {
          return t, Err(verdict.error);
        }
      case Err(e) =>
        if !e.ParseError? {
          return t, Err(e);
        }
        t1 := t.(bad := t.bad + 1, badLines := t.badLines + 1);
        scanned := ScanToTerminator(block, e.pos, bs);
    }
  }

  /** The `for idx in range(pos, bs)` scan for the next CR/LF byte after a parse error. */
  method ScanToTerminator(block: seq<byte>, pos: int, bs: int) returns (r: Result<int, RecordError>)
    requires bs <= |block|
    ensures r == ScanAfterError(block, pos, bs)
  {
    var idx := bs;
    var j := pos;
    while j < bs
      invariant pos < bs ==> pos <= j < bs
      invariant pos < bs && j < bs ==> ScanFrom(block, pos, bs) == ScanFrom(block, j, bs)
      invariant pos >= bs ==> j == pos && idx == bs
      decreases bs - j
    {
      idx := j;
      if j < -|block| {
        return Err(IndexOutOfRange);
      }
      if IsTerminator(At(block, idx)) {
        return Ok(idx);
      }
      if j + 1 == bs {
        return Ok(idx);
      }
      j := j + 1;
    }
    return Ok(idx);
  }

  /** The `while` loop that steps over the CR/LF bytes after a record. */
  method SkipRun(block: seq<byte>, start: int) returns (r: Result<int, RecordError>)
    ensures r == SkipTerminators(block, start)
  {
    var idx := start;
    while idx < |block|
      invariant SkipTerminators(block, start) == SkipTerminators(block, idx)
      decreases |block| - idx
    {
      if idx < -|block| {
        return Err(IndexOutOfRange);
      }
      if !IsTerminator(At(block, idx)) {
        break;
      }
      idx := idx + 1;
    }
    return Ok(idx);
  }

  // ---------------------------------------------------------------------
  // What the loop promises about its counters and the rows it writes
  // ---------------------------------------------------------------------

  /** A row the CSV writer may receive: one value per column, with the file's year. */
  predicate GoodRow(rd: Reader, row: seq<Value>) {
    |row| == |rd.columns| && Validate(rd.columns, rd.year, row).Ok?
  }

  /** `rows'` keeps `rows` and only appends good rows to it. */
  predicate Extends(rd: Reader, rows: seq<seq<Value>>, rows': seq<seq<Value>>) {
    rows <= rows' && forall i :: |rows| <= i < |rows'| ==> GoodRow(rd, rows'[i])
  }

  /** One written row per good record; every bad record is also a bad line. */
  predicate Sound(t: Tally) {
    |t.rows| == t.good && t.bad <= t.badLines
  }

  /** Between iterations every counted record was either written or is a bad line. */
  predicate Balanced(t: Tally) {
    Sound(t) && t.counter == t.good + t.badLines
  }

  /** The `try` of an iteration settles at most one record and writes only a good row. */
  lemma TriedTally(rd: Reader, block: seq<byte>, t: Tally)
    requires rd.blockSize <= |block|
    ensures var (t1, scanned) := Tried(rd, block, t);
      && t1.counter == t.counter
      && t.good + t.badLines <= t1.good + t1.badLines <= t.good + t.badLines + 1
      && (scanned.Ok? ==> t1.good + t1.badLines == t.good + t.badLines + 1)
      && (Sound(t) ==> Sound(t1))
      && Extends(rd, t.rows, t1.rows)
  {
    var piece := Slice(block, 0, Some(rd.blockSize));
    if DecodeRecord(rd.columns, piece, rd.rt).Ok? {
      DecodedRecordValues(rd.columns, piece, rd.rt);
    }
  }

  /** The tally after one step, whether the loop goes on or halts. */
  function StepTally(r: StepResult): Tally {
    match r
    case Next(_, t') => t'
    case Halt(res) => res.tally
  }

  /**
   * One step counts the record it consumed, writes only good rows, and
   * keeps the counters sound; a `Done` step changes nothing.
   */
  lemma StepKeepsTally(rd: Reader, rest: seq<byte>, t: Tally)
    ensures var r := Step(rd, rest, t); var t' := StepTally(r);
      && (Sound(t) ==> Sound(t'))
      && Extends(rd, t.rows, t'.rows)
      && (r.Halt? && r.result.stop.Done? ==> t' == t)
      && (r.Next? || (r.Halt? && r.result.stop.Stuck?) ==>
            t'.counter == t.counter + 1 && t'.good + t'.badLines == t.good + t.badLines + 1)
      && (r.Halt? && r.result.stop.Fatal? ==>
            t'.counter == t.counter && t.good + t.badLines <= t'.good + t'.badLines <= t.good + t.badLines + 1)
  {
    var block := BlockAt(rest, rd.blockSize);
    if rd.blockSize <= |block| {
      TriedTally(rd, block, t);
    }
  }

  /**
   * Over a whole run from a balanced tally: the rows written are the old
   * ones followed by good rows only, one per good record; every record the
   * loop counted was written or is a bad line, except that an exception
   * while skipping CR/LF bytes leaves its record settled but not counted.
   */
  lemma {:induction false} RunKeepsTally(rd: Reader, rest: seq<byte>, t: Tally)
    requires Balanced(t)
    ensures var r := Run(rd, rest, t);
      && Sound(r.tally)
      && Extends(rd, t.rows, r.tally.rows)
      && (!r.stop.Fatal? ==> Balanced(r.tally))
      && (r.stop.Fatal? ==> r.tally.counter <= r.tally.good + r.tally.badLines <= r.tally.counter + 1)
    decreases |rest|
  {
    StepKeepsTally(rd, rest, t);
    match Step(rd, rest, t)
    case Halt(_) =>
    case Next(advance, t') =>
      RunKeepsTally(rd, rest[advance..], t');
  }

  /** What `export` leaves for one file: every written row is good, and the counters agree. */
  lemma ExportTally(rd: Reader, data: seq<byte>)
    ensures var r := Run(rd, data, Fresh);
      && |r.tally.rows| == r.tally.good
      && (forall i :: 0 <= i < |r.tally.rows| ==> GoodRow(rd, r.tally.rows[i]))
      && r.tally.bad <= r.tally.badLines
      && (!r.stop.Fatal? ==> r.tally.counter == r.tally.good + r.tally.badLines)
  {
    RunKeepsTally(rd, data, Fresh);
  }

  // ---------------------------------------------------------------------
  // When the loop is stuck
  // ---------------------------------------------------------------------

  /** Every column starts inside the record, as a layout whose columns start at 1 or later gives. */
  predicate StartsInside(columns: seq<Column>) {
    forall j :: 0 <= j < |columns| ==> columns[j].start >= 0
  }

  /**
   * Where the `try` leaves `idx` in a block of at least two bytes whose
   * columns start inside the record: never before the block, and at its
   * first byte only when that byte is CR/LF.
   */
  lemma TriedIndex(rd: Reader, block: seq<byte>, t: Tally)
    requires 2 <= rd.blockSize <= |block| && StartsInside(rd.columns)
    ensures var scanned := Tried(rd, block, t).1;
      scanned.Ok? ==> scanned.value >= 0 && (scanned.value == 0 ==> IsTerminator(block[0]))
  {
    var piece := Slice(block, 0, Some(rd.blockSize));
    var record := DecodeRecord(rd.columns, piece, rd.rt);
    if record.Err? && record.error.ParseError? {
      RecordParseErrorAtColumn(rd.columns, piece, rd.rt, record.error.pos);
    }
  }

  /**
   * With records of at least two bytes and columns starting inside them,
   * every completed iteration consumes at least one byte.
   */
  lemma StepConsumes(rd: Reader, rest: seq<byte>, t: Tally)
    requires rd.blockSize >= 2 && StartsInside(rd.columns)
    ensures !(Step(rd, rest, t).Halt? && Step(rd, rest, t).result.stop.Stuck?)
  {
    var block := BlockAt(rest, rd.blockSize);
    if rd.blockSize <= |block| {
      TriedIndex(rd, block, t);
    }
  }

  /** Hence such a file is never read forever. */
  lemma {:induction false} NeverStuck(rd: Reader, rest: seq<byte>, t: Tally)
    requires rd.blockSize >= 2 && StartsInside(rd.columns)
    ensures Run(rd, rest, t).stop != Stuck
    decreases |rest|
  {
    StepConsumes(rd, rest, t);
    match Step(rd, rest, t)
    case Halt(_) =>
    case Next(advance, t') =>
      NeverStuck(rd, rest[advance..], t');
  }

  /**
   * With a record length of 0 the block is never consumed: a record that
   * is read (written or rejected) and is not followed by CR/LF leaves
   * `idx` at 0, and the source reads the same block forever.
   */
  lemma ZeroLengthStuck(rd: Reader, rest: seq<byte>, t: Tally)
    requires rd.blockSize == 0 && rest != [] && !IsTerminator(rest[0])
    requires AttemptOf(rd, BlockAt(rest, 0)).Written? || AttemptOf(rd, BlockAt(rest, 0)).RejectedRow?
    ensures Run(rd, rest, t).stop == Stuck
  {
    var block := BlockAt(rest, 0);
    assert block[0] == rest[0];
    assert SkipTerminators(block, 0) == Ok(0);
  }

  // ---------------------------------------------------------------------
  // A well-formed file
  // ---------------------------------------------------------------------

  /** Records written one after another, each followed by a line feed. */
  function Framed(records: seq<seq<byte>>): (data: seq<byte>)
    ensures records == [] ==> data == []
  {
    if records == [] then [] else records[0] + [10] + Framed(records[1..])
  }

  /**
   * A record the loop writes as it is: exactly one block long, not starting
   * with CR/LF, read without exception and valid for the file's year.
   */
  predicate CleanRecord(rd: Reader, rec: seq<byte>) {
    && |rec| == rd.blockSize >= 1
    && !IsTerminator(rec[0])
    && DecodeRecord(rd.columns, rec, rd.rt).Ok?
    && Validate(rd.columns, rd.year, DecodeRecord(rd.columns, rec, rd.rt).value).Ok?
  }

  /** Every record of the list is clean. */
  predicate AllClean(rd: Reader, records: seq<seq<byte>>) {
    records == [] || (CleanRecord(rd, records[0]) && AllClean(rd, records[1..]))
  }

  /** The block of a framed file holds the first record, its line feed, and the next record's first byte. */
  lemma CleanBlock(rd: Reader, records: seq<seq<byte>>)
    requires records != [] && AllClean(rd, records)
    ensures var block := BlockAt(Framed(records), rd.blockSize);
      && rd.blockSize + 1 <= |block|
      && Slice(block, 0, Some(rd.blockSize)) == records[0]
      && SkipTerminators(block, rd.blockSize) == Ok(rd.blockSize + 1)
    ensures Framed(records)[rd.blockSize + 1..] == Framed(records[1..])
  {
    var bs := rd.blockSize;
    var rest := Framed(records);
    var tail := Framed(records[1..]);
    assert rest == records[0] + [10] + tail;
    var block := BlockAt(rest, bs);
    assert block[..bs] == records[0];
    assert block[bs] == 10;
    if bs + 1 < |block| {
      assert records[1..] != [] && CleanRecord(rd, records[1..][0]);
      assert block[bs + 1] == records[1][0];
      assert SkipTerminators(block, bs + 1) == Ok(bs + 1);
    }
    assert rest[bs + 1..] == tail;
  }

  /** One step over a framed file consumes exactly the first record and its line feed, and writes it. */
  lemma CleanStep(rd: Reader, records: seq<seq<byte>>, t: Tally)
    requires records != [] && AllClean(rd, records)
    ensures var row := DecodeRecord(rd.columns, records[0], rd.rt).value;
      Step(rd, Framed(records), t) ==
        Next(|records[0]| + 1, Tally(t.counter + 1, t.good + 1, t.bad, t.badLines, t.rows + [row]))
  {
    CleanBlock(rd, records);
  }

  /** Nothing left to read ends the loop, for a record length of at least 1. */
  lemma EmptyRestDone(rd: Reader, t: Tally)
    requires rd.blockSize >= 1
    ensures Run(rd, [], t) == DatResult(t, Done)
  {
    assert BlockAt([], rd.blockSize) == [];
  }

  /** The run over a framed file is the run over the records after the first, once the first is written. */
  lemma CleanRun(rd: Reader, records: seq<seq<byte>>, t: Tally)
    requires records != [] && AllClean(rd, records)
    ensures var row := DecodeRecord(rd.columns, records[0], rd.rt).value;
      Run(rd, Framed(records), t) ==
        Run(rd, Framed(records[1..]), Tally(t.counter + 1, t.good + 1, t.bad, t.badLines, t.rows + [row]))
  {
    CleanStep(rd, records, t);
    CleanBlock(rd, records);
    RunUnfolds(rd, Framed(records), t);
  }

  /** The rows `read_record` makes of clean records, in order. */
  function CleanRows(rd: Reader, records: seq<seq<byte>>): (rows: seq<seq<Value>>)
    requires AllClean(rd, records)
    ensures |rows| == |records|
  {
    if records == [] then [] else [DecodeRecord(rd.columns, records[0], rd.rt).value] + CleanRows(rd, records[1..])
  }

  /** Each clean row is the record `read_record` returns for its block. */
  lemma {:induction false} CleanRowsDecoded(rd: Reader, records: seq<seq<byte>>)
    requires AllClean(rd, records)
    ensures forall k :: 0 <= k < |records| ==> DecodeRecord(rd.columns, records[k], rd.rt) == Ok(CleanRows(rd, records)[k])
  {
    if records != [] {
      CleanRowsDecoded(rd, records[1..]);
      forall k | 0 <= k < |records|
        ensures DecodeRecord(rd.columns, records[k], rd.rt) == Ok(CleanRows(rd, records)[k])
      {
        if k > 0 {
          assert records[k] == records[1..][k - 1];
        }
      }
    }
  }

  /**
   * A file of clean records, each followed by a line feed, is read to its
   * end: every record is counted and written, in order, as `read_record`
   * decodes it (`CleanRowsDecoded`), and nothing is a bad line.
   */
  lemma {:induction false} CleanFileExported(rd: Reader, records: seq<seq<byte>>, t: Tally)
    requires rd.blockSize >= 1 && AllClean(rd, records)
    ensures Run(rd, Framed(records), t) ==
      DatResult(Tally(t.counter + |records|, t.good + |records|, t.bad, t.badLines, t.rows + CleanRows(rd, records)), Done)
    decreases |records|
  {
    if records == [] {
      EmptyRestDone(rd, t);
    } else {
      var row := DecodeRecord(rd.columns, records[0], rd.rt).value;
      var t' := Tally(t.counter + 1, t.good + 1, t.bad, t.badLines, t.rows + [row]);
      CleanRun(rd, records, t);
      CleanFileExported(rd, records[1..], t');
      assert t.rows + CleanRows(rd, records) == t'.rows + CleanRows(rd, records[1..]);
    }
  }
}
