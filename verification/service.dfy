/**
 * The log service itself: an in-memory store of log entries that a file
 * upload appends to, and the three queries over it.
 */
module Service {
  import opened Wrappers
  import opened LogLine
  import opened LineParser
  import opened Seqs
  import opened Paging
  import opened Sorting
  import opened Queries
  import opened Ordering

  /** What `getLogs` and `getFilteredLogs` return. */
  datatype Paged = Paged(data: seq<LogEntry>, total: nat, page: int, limit: int)

  /** The entries the matching lines give, in line order. */
  function ParseAll(lines: seq<string>): seq<LogEntry> {
    if lines == [] then []
    else
      var rest := ParseAll(lines[.. |lines| - 1]);
      match ParseLogLine(lines[|lines| - 1])
      case Some(e) => rest + [e]
      case None => rest
  }

  /** One entry per matching line: as many entries as lines the pattern matches. */
  lemma {:induction false} ParseAllCount(lines: seq<string>)
    ensures |ParseAll(lines)| == |Filter(lines, l => ParseLogLine(l).Some?)|
  {
    if lines != [] {
      var init := lines[.. |lines| - 1];
      ParseAllCount(init);
      FilterSnoc(init, lines[|lines| - 1], l => ParseLogLine(l).Some?);
      assert lines == init + [lines[|lines| - 1]];
    }
  }

  /** Parsing lines one block after another gives the entries of each block in turn. */
  lemma {:induction false} ParseAllConcat(a: seq<string>, b: seq<string>)
    ensures ParseAll(a + b) == ParseAll(a) + ParseAll(b)
    decreases |b|
  {
    if b == [] {
      assert a + b == a;
    } else {
      var init := b[.. |b| - 1];
      ParseAllConcat(a, init);
      assert (a + b)[.. |a + b| - 1] == a + init;
    }
  }

  /** A single line gives its entry when it matches and nothing otherwise. */
  lemma ParseAllOne(line: string)
    ensures ParseAll([line]) == match ParseLogLine(line) case Some(e) => [e] case None => []
  {
    assert [line][.. 0] == [];
  }

  /** The lines of a file in which each entry is written out as the pattern shows it. */
  function RenderAll(fs: seq<LogEntry>): seq<string> {
    seq(|fs|, i requires 0 <= i < |fs| => Render(fs[i]))
  }

  /** A rendered entry spans one line: no field of it can hold a line break. */
  lemma RenderOnOneLine(f: LogEntry)
    requires Captures(f)
    ensures '\n' !in Render(f)
  {
    assert !InClass('\n', Dot) && !InClass('\n', Digit) && !InClass('\n', Word);
    assert '\n' !in f.timestamp && '\n' !in f.vehicleId && '\n' !in f.level;
    assert '\n' !in f.code && '\n' !in f.message;
  }

  /** An entry that the pattern can capture, with no `]` in its timestamp, reads back from its rendering. */
  predicate Renderable(f: LogEntry) {
    Captures(f) && ']' !in f.timestamp
  }

  lemma RenderAllSnoc(fs: seq<LogEntry>)
    requires fs != []
    ensures RenderAll(fs) == RenderAll(fs[.. |fs| - 1]) + [Render(fs[|fs| - 1])]
  {
    assert RenderAll(fs)[.. |fs| - 1] == RenderAll(fs[.. |fs| - 1]);
  }

  /** One more rendered line adds its entry. */
  lemma ParseAllSnocRendered(lines: seq<string>, f: LogEntry)
    requires Renderable(f)
    ensures ParseAll(lines + [Render(f)]) == ParseAll(lines) + [f]
  {
    ParseEmbedded([], f, []);
    assert [] + Render(f) + [] == Render(f);
    assert (lines + [Render(f)])[.. |lines|] == lines;
  }

  /** Parsing rendered entries line by line gives back the entries. */
  lemma {:induction false} ParseAllRendered(fs: seq<LogEntry>)
    requires forall i :: 0 <= i < |fs| ==> Renderable(fs[i])
    ensures ParseAll(RenderAll(fs)) == fs
  {
    if fs != [] {
      var init := fs[.. |fs| - 1];
      var f := fs[|fs| - 1];
      ParseAllRendered(init);
      RenderAllSnoc(fs);
      ParseAllSnocRendered(RenderAll(init), f);
      SnocLast(fs);
    }
  }

  /**
   * A file holding rendered entries, one per line, parses to exactly those
   * entries, whatever their messages hold.
   */
  lemma UploadRendered(fs: seq<LogEntry>)
    requires |fs| >= 1
    requires forall i :: 0 <= i < |fs| ==> Renderable(fs[i])
    ensures ParseAll(Split(Join(RenderAll(fs), '\n'), '\n')) == fs
  {
    forall i | 0 <= i < |fs| ensures '\n' !in RenderAll(fs)[i] {
      RenderOnOneLine(fs[i]);
    }
    JoinSplit(RenderAll(fs), '\n');
    ParseAllRendered(fs);
  }

  /**
   * One link of the filter chain of `getLogs` and `getFilteredLogs`: when
   * filter `n` is active, keeps the entries that pass it.
   */
  method Narrow(logs: seq<LogEntry>, s: seq<LogEntry>, f: Filters, dateOf: string -> Option<int>, n: nat)
    returns (t: seq<LogEntry>)
    requires n < 5 && s == Filter(logs, e => UpTo(f, dateOf, e, n))
    ensures t == Filter(logs, e => UpTo(f, dateOf, e, n + 1))
  {
    if Active(Criterion(f, n)) {
      var v := Criterion(f, n).value;
      NarrowKeep(logs, s, f, dateOf, n, (e: LogEntry) => Check(dateOf, e, n, v));
      t := Filter(s, (e: LogEntry) => Check(dateOf, e, n, v));
    } else {
      NarrowSkip(logs, f, dateOf, n);
      t := s;
    }
  }

  /**
   * The filter chain of `getLogs` and `getFilteredLogs`: the `vehicleId`,
   * `level`, `code`, `from` and `to` filters narrow the entries in turn, and
   * the end result is `Select`.
   */
  method FilterChain(logs: seq<LogEntry>, f: Filters, dateOf: string -> Option<int>)
    returns (results: seq<LogEntry>)
    ensures results == Select(logs, f, dateOf)
  {
    results := logs;
    NarrowStart(logs, f, dateOf);
    results := Narrow(logs, results, f, dateOf, 0);
    results := Narrow(logs, results, f, dateOf, 1);
    results := Narrow(logs, results, f, dateOf, 2);
    results := Narrow(logs, results, f, dateOf, 3);
    results := Narrow(logs, results, f, dateOf, 4);
    NarrowEnd(logs, f, dateOf);
  }

  /** The entries of a page are entries of the sequence it is cut from. */
  lemma PaginateWithin(s: seq<LogEntry>, page: int, limit: int)
    ensures forall x :: x in Paginate(s, page, limit) ==> x in s
  {
  }

  /** Every page of a sorted sequence is sorted. */
  lemma PaginateSorted(s: seq<LogEntry>, field: Option<Field>, asc: bool, page: int, limit: int)
    requires Sorted(s, field, asc)
    ensures Sorted(Paginate(s, page, limit), field, asc)
  {
    var offset := (page - 1) * limit;
    var lo := SliceIndex(offset, |s|);
    var hi := SliceIndex(offset + limit, |s|);
    if lo < hi {
      SortedWindow(s, field, asc, lo, hi);
    }
  }

  /**
   * Sorting the selected entries keeps their number, and what a page of them
   * holds is stored and satisfies the active filters.
   */
  lemma SortedSelection(logs: seq<LogEntry>, f: Filters, dateOf: string -> Option<int>,
                        field: Option<Field>, asc: bool, page: int, limit: int)
    ensures |SortBy(Select(logs, f, dateOf), field, asc)| == |Select(logs, f, dateOf)|
    ensures forall x :: x in Paginate(SortBy(Select(logs, f, dateOf), field, asc), page, limit) ==>
      x in logs && Holds(f, dateOf, x)
  {
    var selected := Select(logs, f, dateOf);
    var sorted := SortBy(selected, field, asc);
    SortByPermutation(selected, field, asc);
    assert |multiset(sorted)| == |multiset(selected)|;
    PaginateWithin(sorted, page, limit);
    forall x | x in Paginate(sorted, page, limit) ensures x in logs && Holds(f, dateOf, x) {
      assert x in multiset(sorted);
      SelectMeaning(logs, f, dateOf, x);
    }
  }

  /**
   * With `sort` and `sortOrder` absent, every page of `getLogs` is in
   * ascending timestamp order: no timestamp is below an earlier one.
   */
  lemma DefaultOrderAscendingTimestamp(s: seq<LogEntry>, page: int, limit: int)
    ensures var data := Paginate(SortBy(s, SortField(None), Ascending(None)), page, limit);
      forall i, j :: 0 <= i < j < |data| ==> !LexLess(data[j].timestamp, data[i].timestamp)
  {
    var field := SortField(None);
    var sorted := SortBy(s, field, true);
    SortBySorted(s, field, true);
    PaginateSorted(sorted, field, true, page, limit);
    SortedByKeys(Paginate(sorted, page, limit), field, true);
  }

  class LogsService {
    /** The stored entries, in upload order. */
    var logs: seq<LogEntry>

    constructor()
      ensures logs == [] && GetLogCount() == 0
    {
      logs := [];
    }

    /**
     * `addLogsFromFile`: splits the content on `\n` and appends, line by
     * line, the entry of every line the pattern matches.
     */
    method AddLogsFromFile(content: string)
      modifies this
      ensures logs == old(logs) + ParseAll(Split(content, '\n'))
      ensures GetLogCount() == old(GetLogCount()) + |Filter(Split(content, '\n'), l => ParseLogLine(l).Some?)|
    {
      var lines := Split(content, '\n');
      var i := 0;
      while i < |lines|
        invariant 0 <= i <= |lines|
        invariant logs == old(logs) + ParseAll(lines[.. i])
      {
        assert lines[.. i + 1][.. i] == lines[.. i];
        match ParseLogLine(lines[i]) {
          case Some(e) => logs := logs + [e];
          case None =>
        }
        i := i + 1;
      }
      assert lines[.. |lines|] == lines;
      ParseAllCount(lines);
    }

    /** `getLogCount`. */
    function GetLogCount(): (n: nat)
      reads this
      ensures n == |logs|
    {
      |logs|
    }

    /**
     * `findAll`, as written: a stored entry passes when it satisfies the
     * active filters, its code standing in for its level.
     */
    function FindAll(f: Filters, dateOf: string -> Option<int>): (r: seq<LogEntry>)
      reads this
      ensures !Active(f.level) ==> r == Select(logs, f, dateOf)
      ensures Active(f.level) ==>
        r == Filter(Select(logs, f.(level := None), dateOf), (e: LogEntry) => e.code == f.level.value)
    {
      if Active(f.level) then
        FindAllAsWrittenIsFilter(logs, f, dateOf);
        FindAllAsWritten(logs, f, dateOf)
      else
        FindAllAsWrittenWithoutLevel(logs, f, dateOf);
        FindAllAsWritten(logs, f, dateOf)
    }

    /**
     * `getLogs`: the entries satisfying the active filters, sorted stably by
     * the chosen field in the chosen order, cut to the requested page.
     */
    method GetLogs(page: int, limit: int, f: Filters, sort: Option<string>, sortOrder: Option<string>,
                   dateOf: string -> Option<int>)
      returns (res: Paged)
      ensures res.data == Paginate(SortBy(Select(logs, f, dateOf), SortField(sort), Ascending(sortOrder)), page, limit)
      ensures res.total == |Select(logs, f, dateOf)|
      ensures res.page == page && res.limit == limit
      ensures forall x :: x in res.data ==> x in logs && Holds(f, dateOf, x)
      ensures Sorted(res.data, SortField(sort), Ascending(sortOrder))
      ensures page >= 1 && limit >= 0 ==> |res.data| == Max(0, Min(limit, res.total - (page - 1) * limit))
    {
      var results := FilterChain(logs, f, dateOf);
      var field := SortField(sort);
      var asc := Ascending(sortOrder);
      SortBySorted(results, field, asc);
      SortedSelection(logs, f, dateOf, field, asc, page, limit);
      results := SortBy(results, field, asc);
      var offset := (page - 1) * limit;
      var paginated := Slice(results, offset, offset + limit);
      res := Paged(paginated, |results|, page, limit);
      PaginateSorted(results, field, asc, page, limit);
      if page >= 1 && limit >= 0 {
        PaginateWindow(results, page, limit);
      }
    }

    /**
     * `getFilteredLogs`: the entries satisfying the active filters, in
     * stored order, cut to the requested page.
     */
    method GetFilteredLogs(page: int, limit: int, f: Filters, dateOf: string -> Option<int>)
      returns (res: Paged)
      ensures res.data == Paginate(Select(logs, f, dateOf), page, limit)
      ensures res.total == |Select(logs, f, dateOf)|
      ensures res.page == page && res.limit == limit
      ensures forall x :: x in res.data ==> x in logs && Holds(f, dateOf, x)
      ensures page >= 1 && limit >= 0 ==> |res.data| == Max(0, Min(limit, res.total - (page - 1) * limit))
    {
      var results := FilterChain(logs, f, dateOf);
      var total := |results|;
      var start := (page - 1) * limit;
      var end := start + limit;
      var paginated := Slice(results, start, end);
      res := Paged(paginated, total, page, limit);
      forall x | x in res.data ensures x in logs && Holds(f, dateOf, x) {
        SelectMeaning(logs, f, dateOf, x);
      }
      if page >= 1 && limit >= 0 {
        PaginateWindow(results, page, limit);
      }
    }
  }
}
