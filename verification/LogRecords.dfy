/** The text form of a log record and its parser. */
module LogRecords {
  import opened Decimal
  import opened Wrappers

  datatype LogType = BEGIN | INSERT | UPDATE | DELETE | COMMIT | ABORT | CHECKPOINT

  datatype LogRecord = LogRecord(txn: Uint32, kind: LogType, timestamp: Int64)

  function LogTypeToString(kind: LogType): string {
    match kind
    case BEGIN => "BEGIN"
    case INSERT => "INSERT"
    case UPDATE => "UPDATE"
    case DELETE => "DELETE"
    case COMMIT => "COMMIT"
    case ABORT => "ABORT"
    case CHECKPOINT => "CHECKPOINT"
  }

  function StringToLogType(value: string): Option<LogType> {
    if value == "BEGIN" then Some(BEGIN)
    else if value == "INSERT" then Some(INSERT)
    else if value == "UPDATE" then Some(UPDATE)
    else if value == "DELETE" then Some(DELETE)
    else if value == "COMMIT" then Some(COMMIT)
    else if value == "ABORT" then Some(ABORT)
    else if value == "CHECKPOINT" then Some(CHECKPOINT)
    else None
  }

  function ToString(record: LogRecord): string {
    "timestamp=" + IntText(record.timestamp) + ",txn=" + IntText(record.txn) + ",type=" + LogTypeToString(record.kind)
  }

  // ---------------------------------------------------------------- parsing

  /** The first position of `c`, or the length of the text. */
  function Find(s: string, c: char): (i: nat)
    ensures i <= |s| && (i < |s| ==> s[i] == c) && (forall k :: 0 <= k < i ==> s[k] != c)
  {
    if s == "" || s[0] == c then 0 else 1 + Find(s[1..], c)
  }

  /** What is left after the delimiter found at `i`, nothing if it was not found. */
  function Rest(s: string, i: nat): string {
    if i < |s| then s[i + 1..] else ""
  }

  /** The locals of the parser. */
  datatype Fields = Fields(timestamp: Int64, txn: Uint32, kind: LogType,
                           hasTimestamp: bool, hasTxn: bool, hasType: bool)

  const NO_FIELDS := Fields(0, 0, BEGIN, false, false, false)

  /** One segment.  None stands for the exception of the number conversions. */
  function Field(f: Fields, segment: string): Option<Fields> {
    var pos := Find(segment, '=');
    if pos == |segment| then Some(f)
    else
      var key, value := segment[..pos], segment[pos + 1..];
      if key == "timestamp" then
        match Stoll(value)
        case None => None
        case Some(v) => Some(f.(timestamp := v, hasTimestamp := true))
      else if key == "txn" then
        match Stoul(value)
        case None => None
        case Some(v) => Some(f.(txn := v % TWO_32, hasTxn := true))
      else if key == "type" then
        match StringToLogType(value)
        case None => Some(f.(hasType := false))
        case Some(k) => Some(f.(kind := k, hasType := true))
      else Some(f)
  }

  datatype Parsed = Record(record: LogRecord) | NotARecord | Throws

  function Finish(f: Fields): Parsed {
    if f.hasTimestamp && f.hasTxn && f.hasType then Record(LogRecord(f.txn, f.kind, f.timestamp)) else NotARecord
  }

  function ParseFrom(s: string, f: Fields): Parsed
    decreases |s|
  {
    if s == "" then Finish(f)
    else
      var i := Find(s, ',');
      match Field(f, s[..i])
      case None => Throws
      case Some(f') => ParseFrom(Rest(s, i), f')
  }

  function Parse(s: string): Parsed {
    ParseFrom(s, NO_FIELDS)
  }

  /** The loop of fromString, segment by segment. */
  method FromString(serialized: string) returns (parsed: Parsed)
    ensures parsed == Parse(serialized)
  {
    var rest, fields := serialized, NO_FIELDS;
    while rest != ""
      invariant ParseFrom(rest, fields) == Parse(serialized)
      decreases |rest|
    {
      var i := Find(rest, ',');
      var next := Field(fields, rest[..i]);
      if next.None? {
        return Throws;
      }
      rest, fields := Rest(rest, i), next.value;
    }
    parsed := Finish(fields);
  }

  // ---------------------------------------------------------------- round trip

  lemma FindAt(a: string, c: char, b: string)
    requires c !in a
    ensures Find(a + [c] + b, c) == |a|
    ensures (a + [c] + b)[..|a|] == a && Rest(a + [c] + b, |a|) == b
  {
    var s := a + [c] + b;
    var i := Find(s, c);
    assert s[|a|] == c;
    assert forall k :: 0 <= k < |a| ==> s[k] == a[k];
  }

  lemma FindNot(a: string, c: char)
    requires c !in a
    ensures Find(a, c) == |a|
  {
  }

  lemma ParseSegment(a: string, b: string, f: Fields)
    requires ',' !in a
    ensures ParseFrom(a + "," + b, f) == match Field(f, a) case None => Throws case Some(f') => ParseFrom(b, f')
  {
    FindAt(a, ',', b);
  }

  lemma ParseLastSegment(a: string, f: Fields)
    requires ',' !in a && a != ""
    ensures ParseFrom(a, f) == match Field(f, a) case None => Throws case Some(f') => Finish(f')
  {
    FindNot(a, ',');
    assert a[..|a|] == a;
  }

  lemma FieldSplits(key: string, value: string)
    requires '=' !in key
    ensures Find(key + "=" + value, '=') == |key|
    ensures (key + "=" + value)[..|key|] == key && (key + "=" + value)[|key| + 1..] == value
  {
    FindAt(key, '=', value);
  }

  lemma NoCommaIn(x: int)
    ensures ',' !in IntText(x) && '\n' !in IntText(x)
  {
    IntTextCharacters(x);
  }

  lemma TypeRoundTrip(kind: LogType)
    ensures StringToLogType(LogTypeToString(kind)) == Some(kind)
    ensures ',' !in LogTypeToString(kind) && '\n' !in LogTypeToString(kind)
  {
  }

  lemma FieldRoundTrips(r: LogRecord, f: Fields)
    ensures Field(f, "timestamp" + "=" + IntText(r.timestamp))
         == Some(f.(timestamp := r.timestamp, hasTimestamp := true))
    ensures Field(f, "txn" + "=" + IntText(r.txn)) == Some(f.(txn := r.txn, hasTxn := true))
    ensures Field(f, "type" + "=" + LogTypeToString(r.kind)) == Some(f.(kind := r.kind, hasType := true))
  {
    hide IntText, Stoll, Stoul, StringToLogType, LogTypeToString, Find;
    ReadBackInRange(r.timestamp);
    ReadBackInRange(r.txn);
    TypeRoundTrip(r.kind);
    FieldOf(f, "timestamp", IntText(r.timestamp));
    FieldOf(f, "txn", IntText(r.txn));
    FieldOf(f, "type", LogTypeToString(r.kind));
  }

  /** What a segment with one of the three keys does. */
  lemma FieldOf(f: Fields, key: string, value: string)
    requires key == "timestamp" || key == "txn" || key == "type"
    ensures key == "timestamp" && Stoll(value).Some? ==>
              Field(f, key + "=" + value) == Some(f.(timestamp := Stoll(value).value, hasTimestamp := true))
    ensures key == "txn" && Stoul(value).Some? ==>
              Field(f, key + "=" + value) == Some(f.(txn := Stoul(value).value % TWO_32, hasTxn := true))
    ensures key == "type" && StringToLogType(value).Some? ==>
              Field(f, key + "=" + value) == Some(f.(kind := StringToLogType(value).value, hasType := true))
  {
    hide Stoll, Stoul, StringToLogType, Find;
    FieldSplits(key, value);
  }

  /** The seven names. */
  lemma TypeNames()
    ensures LogTypeToString(BEGIN) == "BEGIN" && StringToLogType("BEGIN") == Some(BEGIN)
    ensures LogTypeToString(INSERT) == "INSERT" && StringToLogType("INSERT") == Some(INSERT)
    ensures LogTypeToString(UPDATE) == "UPDATE" && StringToLogType("UPDATE") == Some(UPDATE)
    ensures LogTypeToString(DELETE) == "DELETE" && StringToLogType("DELETE") == Some(DELETE)
    ensures LogTypeToString(COMMIT) == "COMMIT" && StringToLogType("COMMIT") == Some(COMMIT)
    ensures LogTypeToString(ABORT) == "ABORT" && StringToLogType("ABORT") == Some(ABORT)
    ensures LogTypeToString(CHECKPOINT) == "CHECKPOINT" && StringToLogType("CHECKPOINT") == Some(CHECKPOINT)
  {
  }

  /** The text of a record up to its type. */
  function Head(t: Uint32, ts: Int64): string {
    "timestamp=" + IntText(ts) + ",txn=" + IntText(t) + ",type="
  }

  /** The text itself, for every id, time stamp and type, and what that text is parsed to. */
  lemma RecordText(t: Uint32, ts: Int64)
    ensures Head(t, ts) == "timestamp=" + IntText(ts) + ",txn=" + IntText(t) + ",type="
    ensures ToString(LogRecord(t, BEGIN, ts)) == Head(t, ts) + "BEGIN"
    ensures ToString(LogRecord(t, INSERT, ts)) == Head(t, ts) + "INSERT"
    ensures ToString(LogRecord(t, UPDATE, ts)) == Head(t, ts) + "UPDATE"
    ensures ToString(LogRecord(t, DELETE, ts)) == Head(t, ts) + "DELETE"
    ensures ToString(LogRecord(t, COMMIT, ts)) == Head(t, ts) + "COMMIT"
    ensures ToString(LogRecord(t, ABORT, ts)) == Head(t, ts) + "ABORT"
    ensures ToString(LogRecord(t, CHECKPOINT, ts)) == Head(t, ts) + "CHECKPOINT"
    ensures Parse(Head(t, ts) + "BEGIN") == Record(LogRecord(t, BEGIN, ts))
    ensures Parse(Head(t, ts) + "INSERT") == Record(LogRecord(t, INSERT, ts))
    ensures Parse(Head(t, ts) + "UPDATE") == Record(LogRecord(t, UPDATE, ts))
    ensures Parse(Head(t, ts) + "DELETE") == Record(LogRecord(t, DELETE, ts))
    ensures Parse(Head(t, ts) + "COMMIT") == Record(LogRecord(t, COMMIT, ts))
    ensures Parse(Head(t, ts) + "ABORT") == Record(LogRecord(t, ABORT, ts))
    ensures Parse(Head(t, ts) + "CHECKPOINT") == Record(LogRecord(t, CHECKPOINT, ts))
  {
    hide IntText, LogTypeToString, Parse;
    TypeNames();
    RoundTrip(LogRecord(t, BEGIN, ts));
    RoundTrip(LogRecord(t, INSERT, ts));
    RoundTrip(LogRecord(t, UPDATE, ts));
    RoundTrip(LogRecord(t, DELETE, ts));
    RoundTrip(LogRecord(t, COMMIT, ts));
    RoundTrip(LogRecord(t, ABORT, ts));
    RoundTrip(LogRecord(t, CHECKPOINT, ts));
  }

  /** A text without one of the three fields, or with a type name that is none, is no record. */
  lemma IncompleteText(t: Uint32, ts: Int64, name: string)
    requires ',' !in name && StringToLogType(name).None?
    ensures Parse("timestamp=" + IntText(ts) + "," + ("txn=" + IntText(t))) == NotARecord
    ensures Parse("timestamp=" + IntText(ts) + "," + ("type" + "=" + name)) == NotARecord
    ensures Parse("txn=" + IntText(t) + "," + ("type" + "=" + name)) == NotARecord
    ensures Parse(Head(t, ts) + name) == NotARecord
  {
    hide Field, Find, IntText, StringToLogType, ParseFrom;
    var a, b, c := "timestamp" + "=" + IntText(ts), "txn" + "=" + IntText(t), "type" + "=" + name;
    assert a == "timestamp=" + IntText(ts) && b == "txn=" + IntText(t);
    assert Head(t, ts) + name == a + "," + (b + "," + c);
    NoCommaIn(ts);
    NoCommaIn(t);
    var f0 := NO_FIELDS;
    var fa, fb := f0.(timestamp := ts, hasTimestamp := true), f0.(txn := t, hasTxn := true);
    var fab := fa.(txn := t, hasTxn := true);
    FieldRoundTrips(LogRecord(t, BEGIN, ts), f0);
    FieldRoundTrips(LogRecord(t, BEGIN, ts), fa);
    BadType(fa, name);
    BadType(fb, name);
    BadType(fab, name);
    ParseSegment(a, b, f0);
    ParseSegment(a, c, f0);
    ParseSegment(b, c, f0);
    ParseSegment(a, b + "," + c, f0);
    ParseSegment(b, c, fa);
    ParseLastSegment(b, fa);
    ParseLastSegment(c, fa);
    ParseLastSegment(c, fb);
    ParseLastSegment(c, fab);
  }

  lemma BadType(f: Fields, name: string)
    requires StringToLogType(name).None?
    ensures Field(f, "type" + "=" + name) == Some(f.(hasType := false))
  {
    hide Find, StringToLogType;
    FieldSplits("type", name);
  }

  /** A segment without a key, or with another key than the three, changes nothing. */
  lemma UnknownIsIgnored(key: string, value: string, text: string)
    requires '=' !in key && ',' !in key && ',' !in value && key !in {"timestamp", "txn", "type"}
    ensures Parse(key + "," + text) == Parse(text)
    ensures Parse(key + "=" + value + "," + text) == Parse(text)
  {
    FindNot(key, '=');
    FieldSplits(key, value);
    ParseSegment(key, text, NO_FIELDS);
    ParseSegment(key + "=" + value, text, NO_FIELDS);
  }

  /** The three fields of a record are read in whatever order they come. */
  lemma AnyOrder(r: LogRecord, a: string, b: string, c: string)
    requires {a, b, c} == {"timestamp=" + IntText(r.timestamp), "txn=" + IntText(r.txn),
                           "type=" + LogTypeToString(r.kind)}
    ensures Parse(a + "," + (b + "," + c)) == Record(r)
  {
    hide Field, Find, IntText, LogTypeToString, ParseFrom;
    var f0 := NO_FIELDS;
    ThreeFields(r, a, f0);
    ThreeFields(r, b, f0);
    ThreeFields(r, c, f0);
    ParseSegment(a, b + "," + c, f0);
    var f1 := Field(f0, a).value;
    ThreeFields(r, b, f1);
    ParseSegment(b, c, f1);
    var f2 := Field(f1, b).value;
    ThreeFields(r, c, f2);
    ParseLastSegment(c, f2);
    FieldsDiffer(r);
  }

  lemma FieldsDiffer(r: LogRecord)
    ensures var x, y, z := "timestamp=" + IntText(r.timestamp), "txn=" + IntText(r.txn),
                           "type=" + LogTypeToString(r.kind);
            x != y && y != z && x != z
  {
    hide IntText, LogTypeToString;
    assert ("timestamp=" + IntText(r.timestamp))[1] == 'i' && ("txn=" + IntText(r.txn))[1] == 'x';
    assert ("type=" + LogTypeToString(r.kind))[1] == 'y';
  }

  /** What one of the three fields of a record adds to what was read so far. */
  lemma ThreeFields(r: LogRecord, segment: string, f: Fields)
    requires segment in {"timestamp=" + IntText(r.timestamp), "txn=" + IntText(r.txn),
                         "type=" + LogTypeToString(r.kind)}
    ensures segment != "" && ',' !in segment
    ensures segment == "timestamp=" + IntText(r.timestamp) ==>
              Field(f, segment) == Some(f.(timestamp := r.timestamp, hasTimestamp := true))
    ensures segment == "txn=" + IntText(r.txn) ==> Field(f, segment) == Some(f.(txn := r.txn, hasTxn := true))
    ensures segment == "type=" + LogTypeToString(r.kind) ==>
              Field(f, segment) == Some(f.(kind := r.kind, hasType := true))
  {
    hide Field, IntText, LogTypeToString;
    NoCommaIn(r.timestamp);
    NoCommaIn(r.txn);
    TypeRoundTrip(r.kind);
    FieldRoundTrips(r, f);
    assert "timestamp" + "=" + IntText(r.timestamp) == "timestamp=" + IntText(r.timestamp);
    assert "txn" + "=" + IntText(r.txn) == "txn=" + IntText(r.txn);
    assert "type" + "=" + LogTypeToString(r.kind) == "type=" + LogTypeToString(r.kind);
  }

  /** Every record, whatever its id, time stamp and type, is parsed back from its text. */
  lemma RoundTrip(r: LogRecord)
    ensures Parse(ToString(r)) == Record(r)
  {
    hide Field, Find, IntText, LogTypeToString;
    var a := "timestamp" + "=" + IntText(r.timestamp);
    var b := "txn" + "=" + IntText(r.txn);
    var c := "type" + "=" + LogTypeToString(r.kind);
    NoCommaIn(r.timestamp);
    NoCommaIn(r.txn);
    TypeRoundTrip(r.kind);
    assert ToString(r) == a + "," + (b + "," + c);
    var f1 := NO_FIELDS.(timestamp := r.timestamp, hasTimestamp := true);
    var f2 := f1.(txn := r.txn, hasTxn := true);
    FieldRoundTrips(r, NO_FIELDS);
    FieldRoundTrips(r, f1);
    FieldRoundTrips(r, f2);
    ParseSegment(a, b + "," + c, NO_FIELDS);
    ParseSegment(b, c, f1);
    ParseLastSegment(c, f2);
  }
}
