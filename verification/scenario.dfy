/**
 * A worked upload and query: a file of three lines, the middle one not a
 * log line, is uploaded to a fresh service, which then answers a query for
 * vehicle `42` sorted by timestamp in descending order.
 */
module Scenario {
  import opened Wrappers
  import opened LogLine
  import opened LineParser
  import opened Seqs
  import opened Ordering
  import opened Paging
  import opened Sorting
  import opened Queries
  import opened Service

  const Overheat := LogEntry("2024-01-01T10:00:00Z", "42", "ERROR", "E100", "engine overheat")
  const LowFuel := LogEntry("2024-01-01T11:00:00Z", "42", "WARN", "W200", "low fuel")

  /**
   * The uploaded file: the two entries written out in the log line format
   * (`[2024-01-01T10:00:00Z] [VEHICLE_ID:42] [ERROR] [CODE:E100] [engine overheat]`
   * and `[2024-01-01T11:00:00Z] [VEHICLE_ID:42] [WARN] [CODE:W200] [low fuel]`)
   * with the line `bad line` between them.
   */
  const Upload: string := Render(Overheat) + "\n" + "bad line" + "\n" + Render(LowFuel)

  /** The query: vehicle `42`, no other filter. */
  const ByVehicle := Filters(Some("42"), None, None, None, None)

  /** A line without `[` holds no log entry. */
  lemma NoOpenBracket(line: string)
    requires '[' !in line
    ensures ParseLogLine(line) == None
  {
    ParseLogLineNone(line);
  }

  /** Both entries are ones the pattern captures, with no `]` in their timestamps. */
  lemma OverheatRenderable()
    ensures Renderable(Overheat)
  {
    OverheatTimestamp();
    assert OneOrMore(Overheat.message, Dot);
  }

  lemma OverheatTimestamp()
    ensures OneOrMore(Overheat.timestamp, Dot) && ']' !in Overheat.timestamp
  {
    assert forall i :: 0 <= i < |Overheat.timestamp| ==> Overheat.timestamp[i] != '\n';
  }

  lemma LowFuelRenderable()
    ensures Renderable(LowFuel)
  {
    assert OneOrMore(LowFuel.timestamp, Dot);
    assert OneOrMore(LowFuel.message, Dot);
  }

  /** The file is the three lines joined by line breaks. */
  lemma UploadLines()
    ensures Join([Render(Overheat), "bad line", Render(LowFuel)], '\n') == Upload
  {
    var lines := [Render(Overheat), "bad line", Render(LowFuel)];
    assert Join(lines[2..], '\n') == lines[2];
    assert Join(lines[1..], '\n') == lines[1] + ['\n'] + lines[2];
  }

  /** Three lines give the entries of each in turn. */
  lemma ParseThree(a: string, b: string, c: string)
    ensures ParseAll([a, b, c]) == ParseAll([a]) + ParseAll([b]) + ParseAll([c])
  {
    ParseAllConcat([a], [b]);
    ParseAllConcat([a, b], [c]);
    assert [a, b, c] == [a, b] + [c];
    assert [a, b] == [a] + [b];
  }

  /** Two matching lines around one that does not match give the two entries. */
  lemma SkipMiddle(a: string, b: string, c: string, x: LogEntry, y: LogEntry)
    requires ParseLogLine(a) == Some(x) && ParseLogLine(b) == None && ParseLogLine(c) == Some(y)
    ensures ParseAll([a, b, c]) == [x, y]
  {
    ParseThree(a, b, c);
    ParseAllOne(a);
    ParseAllOne(b);
    ParseAllOne(c);
  }

  /** A rendered entry, alone on its line, parses back. */
  lemma AloneOnLine(f: LogEntry)
    requires Renderable(f)
    ensures ParseLogLine(Render(f)) == Some(f)
  {
    ParseEmbedded([], f, []);
    assert [] + Render(f) + [] == Render(f);
  }

  /** The upload stores the two log lines' entries and skips the other. */
  lemma UploadParses()
    ensures ParseAll(Split(Upload, '\n')) == [Overheat, LowFuel]
  {
    var lines := [Render(Overheat), "bad line", Render(LowFuel)];
    OverheatRenderable();
    LowFuelRenderable();
    UploadLines();
    RenderOnOneLine(Overheat);
    RenderOnOneLine(LowFuel);
    JoinSplit(lines, '\n');
    AloneOnLine(Overheat);
    AloneOnLine(LowFuel);
    NoOpenBracket("bad line");
    SkipMiddle(lines[0], lines[1], lines[2], Overheat, LowFuel);
  }

  /** Ten o'clock is below eleven o'clock, and not the other way round. */
  lemma TimestampsOrdered(a: string, b: string)
    requires a == "2024-01-01T10:00:00Z" && b == "2024-01-01T11:00:00Z"
    ensures LexLess(a, b) && !LexLess(b, a)
  {
    assert LessAt(a, b, 12);
    LexLessIff(a, b);
    LexLessTotal(a, b);
  }

  /** In descending order by timestamp, two entries come out later first. */
  lemma DescendingPair(x: LogEntry, y: LogEntry)
    requires LexLess(x.timestamp, y.timestamp) && !LexLess(y.timestamp, x.timestamp)
    ensures SortBy([x, y], Some(Timestamp), false) == [y, x]
  {
    assert Cmp(y, x, Some(Timestamp), false) < 0;
    assert [x][.. 0] == [];
    assert SortBy([x], Some(Timestamp), false) == [x];
    assert [x, y][.. 1] == [x];
    assert SortBy([x, y], Some(Timestamp), false) == Insert(y, [x], Some(Timestamp), false);
  }

  /** The later timestamp sorts first in descending order. */
  lemma LaterFirst()
    ensures SortBy([Overheat, LowFuel], Some(Timestamp), false) == [LowFuel, Overheat]
  {
    TimestampsOrdered(Overheat.timestamp, LowFuel.timestamp);
    DescendingPair(Overheat, LowFuel);
  }

  /** The first page of ten holds both entries. */
  lemma FirstPage(s: seq<LogEntry>)
    requires |s| == 2
    ensures Paginate(s, 1, 10) == s
  {
  }

  /** Both stored entries belong to vehicle `42`. */
  lemma BothSelected(dateOf: string -> Option<int>)
    ensures Select([Overheat, LowFuel], ByVehicle, dateOf) == [Overheat, LowFuel]
  {
    FilterAll([Overheat, LowFuel], e => Holds(ByVehicle, dateOf, e));
  }

  /**
   * Uploading the file to a fresh service counts two entries, and the
   * query returns the low-fuel entry before the engine-overheat entry, of
   * two in total.
   */
  method UploadThenQuery(dateOf: string -> Option<int>) returns (count: nat, res: Paged)
    ensures count == 2
    ensures res.data == [LowFuel, Overheat] && res.total == 2
  {
    var service := new LogsService();
    service.AddLogsFromFile(Upload);
    UploadParses();
    assert service.logs == [Overheat, LowFuel];
    count := service.GetLogCount();
    res := service.GetLogs(1, 10, ByVehicle, Some("timestamp"), Some("desc"), dateOf);
    BothSelected(dateOf);
    assert SortField(Some("timestamp")) == Some(Timestamp);
    assert !Ascending(Some("desc"));
    LaterFirst();
    FirstPage([LowFuel, Overheat]);
  }
}
