/** The log file as a sequence of characters, and the manager that appends to it and reads it back. */
module LogFiles {
  import opened Decimal
  import opened LogRecords
  import opened Wrappers

  function Line(record: LogRecord): string {
    ToString(record) + "\n"
  }

  /** What reading the file line by line yields; None stands for an exception in the parser. */
  function ReadAll(file: string): Option<seq<LogRecord>>
    decreases |file|
  {
    if file == "" then Some([])
    else
      var i := Find(file, '\n');
      match LineRecords(file[..i])
      case None => None
      case Some(first) => Prepend(first, ReadAll(Rest(file, i)))
  }

  function Prepend(first: seq<LogRecord>, others: Option<seq<LogRecord>>): Option<seq<LogRecord>> {
    match others
    case None => None
    case Some(rs) => Some(first + rs)
  }

  lemma PrependTwice(a: seq<LogRecord>, b: seq<LogRecord>, others: Option<seq<LogRecord>>)
    ensures Prepend(a, Prepend(b, others)) == Prepend(a + b, others)
    ensures Prepend([], others) == others
  {
    if others.Some? {
      assert a + (b + others.value) == (a + b) + others.value;
      assert [] + others.value == others.value;
    }
  }

  lemma PrependNothing(rs: seq<LogRecord>)
    ensures Prepend(rs, Some([])) == Some(rs)
  {
    assert rs + [] == rs;
  }

  /** Empty lines and lines that are no records are skipped. */
  function LineRecords(line: string): Option<seq<LogRecord>> {
    if line == "" then Some([])
    else match Parse(line)
         case Throws => None
         case NotARecord => Some([])
         case Record(r) => Some([r])
  }

  ghost predicate WholeLines(file: string) {
    file == "" || file[|file| - 1] == '\n'
  }

  ghost function LinesOf(records: seq<LogRecord>): string {
    if records == [] then "" else LinesOf(records[..|records| - 1]) + Line(records[|records| - 1])
  }

  /** One line per record: its text and a line break. */
  lemma LineText(t: Uint32, ts: Int64)
    ensures Line(LogRecord(t, BEGIN, ts)) == Head(t, ts) + "BEGIN" + "\n"
    ensures Line(LogRecord(t, INSERT, ts)) == Head(t, ts) + "INSERT" + "\n"
    ensures Line(LogRecord(t, UPDATE, ts)) == Head(t, ts) + "UPDATE" + "\n"
    ensures Line(LogRecord(t, DELETE, ts)) == Head(t, ts) + "DELETE" + "\n"
    ensures Line(LogRecord(t, COMMIT, ts)) == Head(t, ts) + "COMMIT" + "\n"
    ensures Line(LogRecord(t, ABORT, ts)) == Head(t, ts) + "ABORT" + "\n"
    ensures Line(LogRecord(t, CHECKPOINT, ts)) == Head(t, ts) + "CHECKPOINT" + "\n"
  {
    hide ToString, Head;
    RecordText(t, ts);
  }

  lemma LineIsOneLine(r: LogRecord)
    ensures '\n' !in ToString(r) && ToString(r) != ""
  {
    NoCommaIn(r.timestamp);
    NoCommaIn(r.txn);
    TypeRoundTrip(r.kind);
  }

  /** What one line contributes to the whole file: nothing when it is empty or no record, its record in front of
      the others when it is one, and an exception for the whole when its numbers cannot be converted. */
  lemma LineContributes(line: string, rest: string)
    requires '\n' !in line
    ensures var all := ReadAll(line + "\n" + rest);
            if line == "" then all == ReadAll(rest)
            else match Parse(line)
                 case NotARecord => all == ReadAll(rest)
                 case Throws => all == None
                 case Record(r) => all == match ReadAll(rest) case None => None case Some(rs) => Some([r] + rs)
  {
    hide Parse, Find;
    FindAt(line, '\n', rest);
    assert line + ['\n'] + rest == line + "\n" + rest;
    PrependTwice([], [], ReadAll(rest));
  }

  lemma ReadOneLine(r: LogRecord)
    ensures ReadAll(Line(r)) == Some([r])
  {
    hide ToString, Parse;
    LineIsOneLine(r);
    RoundTrip(r);
    FindAt(ToString(r), '\n', "");
    assert ToString(r) + ['\n'] + "" == Line(r);
    NothingIsRead();
    assert [r] + [] == [r];
  }

  /** Appending a record's line to a file of whole lines appends the record to what is read. */
  lemma {:induction false} ReadAppended(file: string, r: LogRecord)
    requires WholeLines(file)
    ensures WholeLines(file + Line(r))
    ensures ReadAll(file + Line(r)) == match ReadAll(file) case None => None case Some(rs) => Some(rs + [r])
    decreases |file|
  {
    hide ToString, LineRecords, Find;
    if file == "" {
      ReadOneLine(r);
      assert file + Line(r) == Line(r) && [] + [r] == [r];
    } else {
      var i := Find(file, '\n');
      var line, rest := file[..i], Rest(file, i);
      assert file[|file| - 1] == '\n';
      assert file == line + ['\n'] + rest;
      assert file + Line(r) == line + ['\n'] + (rest + Line(r));
      FindAt(line, '\n', rest + Line(r));
      ReadAppended(rest, r);
      match LineRecords(line)
      case None =>
      case Some(first) =>
        match ReadAll(rest)
        case None =>
        case Some(others) => assert first + (others + [r]) == (first + others) + [r];
    }
  }

  lemma NothingIsRead()
    ensures ReadAll("") == Some([]) && WholeLines("")
  {
  }

  /** Writing any sequence of records to an empty file and reading it returns exactly that sequence. */
  lemma {:induction false} WrittenIsRead(records: seq<LogRecord>)
    ensures WholeLines(LinesOf(records)) && ReadAll(LinesOf(records)) == Some(records)
    decreases |records|
  {
    hide Line, ReadAll, WholeLines;
    NothingIsRead();
    if records != [] {
      var n := |records| - 1;
      WrittenIsRead(records[..n]);
      ReadAppended(LinesOf(records[..n]), records[n]);
      assert records[..n] + [records[n]] == records;
    }
  }

  method ReadLine(line: string) returns (records: Option<seq<LogRecord>>)
    ensures records == LineRecords(line)
  {
    if line == "" {
      return Some([]);
    }
    var parsed := FromString(line);
    match parsed
    case Throws => records := None;
    case NotARecord => records := Some([]);
    case Record(r) => records := Some([r]);
  }

  class LogManager {
    var file: string
    var logBuffer: seq<LogRecord>

    /** The records a reader would get. */
    ghost function Records(): seq<LogRecord>
      reads this
      requires Readable()
    {
      ReadAll(file).value
    }

    ghost predicate Readable()
      reads this
    {
      ReadAll(file).Some?
    }

    /** Opened for appending. */
    constructor (existing: string)
      ensures file == existing && logBuffer == []
    {
      file, logBuffer := existing, [];
    }

    method WriteLog(record: LogRecord)
      modifies this
      ensures file == old(file) + Line(record) && logBuffer == old(logBuffer) + [record]
      ensures WholeLines(file)
      ensures old(WholeLines(file) && Readable()) ==> Readable() && Records() == old(ReadAll(file).value) + [record]
    {
      if WholeLines(file) {
        ReadAppended(file, record);
      }
      logBuffer := logBuffer + [record];
      file := file + Line(record);
    }

    method ReadLogs() returns (records: Option<seq<LogRecord>>)
      ensures records == ReadAll(file)
    {
      hide LineRecords, Find;
      var rest := file;
      var found: seq<LogRecord> := [];
      PrependTwice([], [], ReadAll(file));
      while rest != ""
        invariant ReadAll(file) == Prepend(found, ReadAll(rest))
        decreases |rest|
      {
        var i := Find(rest, '\n');
        var line := ReadLine(rest[..i]);
        if line.None? {
          return None;
        }
        PrependTwice(found, line.value, ReadAll(Rest(rest, i)));
        found, rest := found + line.value, Rest(rest, i);
      }
      NothingIsRead();
      PrependNothing(found);
      records := Some(found);
    }

    method ClearLogs()
      modifies this
      ensures file == "" && logBuffer == []
    {
      logBuffer := [];
      file := "";
    }
  }
}
