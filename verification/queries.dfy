/**
 * The filters of the log service: `vehicleId`, `level`, `code`, `from` and
 * `to`. A filter that is absent or empty (falsy in JavaScript) imposes
 * nothing; `from` and `to` compare instants, and an unparseable date
 * (`NaN`) fails every comparison.
 */
module Queries {
  import opened Wrappers
  import opened LogLine
  import opened Seqs

  /** The optional filters of `findAll`, `getLogs` and `getFilteredLogs`. */
  datatype Filters = Filters(
    vehicleId: Option<string>,
    level: Option<string>,
    code: Option<string>,
    from: Option<string>,
    to: Option<string>)

  /** JavaScript truthiness of an optional string: present and non-empty. */
  predicate Active(o: Option<string>) {
    o.Some? && o.value != ""
  }

  /**
   * `new Date(a) >= new Date(b)`: both dates parse (`dateOf` models
   * `Date.parse`, `None` standing for `NaN`) and the first is not earlier.
   */
  predicate NotBefore(dateOf: string -> Option<int>, a: string, b: string) {
    match (dateOf(a), dateOf(b))
    case (Some(x), Some(y)) => x >= y
    case _ => false
  }

  /** `new Date(a) <= new Date(b)`, likewise. */
  predicate NotAfter(dateOf: string -> Option<int>, a: string, b: string) {
    match (dateOf(a), dateOf(b))
    case (Some(x), Some(y)) => x <= y
    case _ => false
  }

  /** The `i`-th filter, in the order `getLogs` applies them. */
  function Criterion(f: Filters, i: nat): Option<string>
    requires i < 5
  {
    match i
    case 0 => f.vehicleId
    case 1 => f.level
    case 2 => f.code
    case 3 => f.from
    case _ => f.to
  }

  /** Entry `e` passes the `i`-th filter when that filter has the value `v`. */
  predicate Check(dateOf: string -> Option<int>, e: LogEntry, i: nat, v: string)
    requires i < 5
  {
    match i
    case 0 => e.vehicleId == v
    case 1 => e.level == v
    case 2 => e.code == v
    case 3 => NotBefore(dateOf, e.timestamp, v)
    case _ => NotAfter(dateOf, e.timestamp, v)
  }

  /** Entry `e` passes the `i`-th filter, or that filter is inactive. */
  predicate Test(f: Filters, dateOf: string -> Option<int>, e: LogEntry, i: nat)
    requires i < 5
  {
    !Active(Criterion(f, i)) || Check(dateOf, e, i, Criterion(f, i).value)
  }

  /** Entry `e` passes the first `n` filters. */
  predicate UpTo(f: Filters, dateOf: string -> Option<int>, e: LogEntry, n: nat)
    requires n <= 5
  {
    n == 0 || (UpTo(f, dateOf, e, n - 1) && Test(f, dateOf, e, n - 1))
  }

  /** Entry `e` satisfies every active filter. */
  predicate Holds(f: Filters, dateOf: string -> Option<int>, e: LogEntry) {
    && (!Active(f.vehicleId) || e.vehicleId == f.vehicleId.value)
    && (!Active(f.level) || e.level == f.level.value)
    && (!Active(f.code) || e.code == f.code.value)
    && (!Active(f.from) || NotBefore(dateOf, e.timestamp, f.from.value))
    && (!Active(f.to) || NotAfter(dateOf, e.timestamp, f.to.value))
  }

  /** The stored entries that satisfy every active filter, in stored order. */
  function Select(logs: seq<LogEntry>, f: Filters, dateOf: string -> Option<int>): seq<LogEntry> {
    Filter(logs, e => Holds(f, dateOf, e))
  }

  /** Passing all five filters one after another is passing them all at once. */
  lemma UpToAllIsHolds(f: Filters, dateOf: string -> Option<int>, e: LogEntry)
    ensures UpTo(f, dateOf, e, 5) <==> Holds(f, dateOf, e)
  {
    assert UpTo(f, dateOf, e, 1) == Test(f, dateOf, e, 0);
    assert UpTo(f, dateOf, e, 2) == (UpTo(f, dateOf, e, 1) && Test(f, dateOf, e, 1));
    assert UpTo(f, dateOf, e, 3) == (UpTo(f, dateOf, e, 2) && Test(f, dateOf, e, 2));
    assert UpTo(f, dateOf, e, 4) == (UpTo(f, dateOf, e, 3) && Test(f, dateOf, e, 3));
    assert UpTo(f, dateOf, e, 5) == (UpTo(f, dateOf, e, 4) && Test(f, dateOf, e, 4));
  }

  /**
   * One step of the filter chain: when `s` holds the entries passing the
   * first `n` filters and filter `n` is active, narrowing `s` with a test `p`
   * that agrees with that filter leaves those passing the first `n + 1`.
   */
  lemma NarrowKeep(logs: seq<LogEntry>, s: seq<LogEntry>, f: Filters,
                   dateOf: string -> Option<int>, n: nat, p: LogEntry -> bool)
    requires n < 5 && Active(Criterion(f, n))
    requires s == Filter(logs, e => UpTo(f, dateOf, e, n))
    requires forall e :: p(e) == Check(dateOf, e, n, Criterion(f, n).value)
    ensures Filter(s, p) == Filter(logs, e => UpTo(f, dateOf, e, n + 1))
  {
    FilterFilter(logs, e => UpTo(f, dateOf, e, n), p, e => UpTo(f, dateOf, e, n + 1));
  }

  /** An inactive filter `n` passes every entry that passed the first `n`. */
  lemma NarrowSkip(logs: seq<LogEntry>, f: Filters, dateOf: string -> Option<int>, n: nat)
    requires n < 5 && !Active(Criterion(f, n))
    ensures Filter(logs, e => UpTo(f, dateOf, e, n)) == Filter(logs, e => UpTo(f, dateOf, e, n + 1))
  {
    FilterExt(logs, e => UpTo(f, dateOf, e, n), e => UpTo(f, dateOf, e, n + 1));
  }

  /** The chain starts from all stored entries ... */
  lemma NarrowStart(logs: seq<LogEntry>, f: Filters, dateOf: string -> Option<int>)
    ensures logs == Filter(logs, e => UpTo(f, dateOf, e, 0))
  {
    FilterAll(logs, e => UpTo(f, dateOf, e, 0));
  }

  /** ... and ends at `Select`. */
  lemma NarrowEnd(logs: seq<LogEntry>, f: Filters, dateOf: string -> Option<int>)
    ensures Filter(logs, e => UpTo(f, dateOf, e, 5)) == Select(logs, f, dateOf)
  {
    forall e ensures UpTo(f, dateOf, e, 5) == Holds(f, dateOf, e) {
      UpToAllIsHolds(f, dateOf, e);
    }
    FilterExt(logs, e => UpTo(f, dateOf, e, 5), e => Holds(f, dateOf, e));
  }

  /**
   * `Select` keeps each stored entry that satisfies every active filter, as
   * often as it is stored, and nothing else.
   */
  lemma SelectMeaning(logs: seq<LogEntry>, f: Filters, dateOf: string -> Option<int>, x: LogEntry)
    ensures multiset(Select(logs, f, dateOf))[x] == if Holds(f, dateOf, x) then multiset(logs)[x] else 0
    ensures x in Select(logs, f, dateOf) <==> x in logs && Holds(f, dateOf, x)
  {
    FilterMultiset(logs, e => Holds(f, dateOf, e), x);
  }

  /** `Select` keeps the stored order: it distributes over concatenation. */
  lemma SelectConcat(a: seq<LogEntry>, b: seq<LogEntry>, f: Filters, dateOf: string -> Option<int>)
    ensures Select(a + b, f, dateOf) == Select(a, f, dateOf) + Select(b, f, dateOf)
  {
    FilterConcat(a, b, e => Holds(f, dateOf, e));
  }

  /** Absent or empty filters impose nothing. */
  lemma SelectNoFilters(logs: seq<LogEntry>, f: Filters, dateOf: string -> Option<int>)
    requires !Active(f.vehicleId) && !Active(f.level) && !Active(f.code)
    requires !Active(f.from) && !Active(f.to)
    ensures Select(logs, f, dateOf) == logs
  {
    FilterAll(logs, e => Holds(f, dateOf, e));
  }

  /** A `from` or `to` bound that does not parse lets no entry through. */
  lemma SelectUnparseableBound(logs: seq<LogEntry>, f: Filters, dateOf: string -> Option<int>)
    requires (Active(f.from) && dateOf(f.from.value).None?) || (Active(f.to) && dateOf(f.to.value).None?)
    ensures Select(logs, f, dateOf) == []
  {
    if Select(logs, f, dateOf) != [] {
      SelectMeaning(logs, f, dateOf, Select(logs, f, dateOf)[0]);
    }
  }

  // `findAll`, whose level filter tests the entry's code.

  /** The test `findAll` applies to each entry, as written: `level` is compared with the code. */
  predicate FindAllTest(f: Filters, dateOf: string -> Option<int>, e: LogEntry) {
    && (!Active(f.vehicleId) || e.vehicleId == f.vehicleId.value)
    && (!Active(f.level) || e.code == f.level.value)
    && (!Active(f.code) || e.code == f.code.value)
    && (!Active(f.from) || NotBefore(dateOf, e.timestamp, f.from.value))
    && (!Active(f.to) || NotAfter(dateOf, e.timestamp, f.to.value))
  }

  /** `findAll` as written. */
  function FindAllAsWritten(logs: seq<LogEntry>, f: Filters, dateOf: string -> Option<int>): seq<LogEntry> {
    Filter(logs, e => FindAllTest(f, dateOf, e))
  }

  /**
   * The test `findAll` evidently means: its own test with line 48's `level`
   * filter compared with the entry's level. Clause for clause it is `Holds`,
   * the test of `getLogs` and `getFilteredLogs`, deliberately so.
   */
  predicate FindAllTestIntended(f: Filters, dateOf: string -> Option<int>, e: LogEntry) {
    && (!Active(f.vehicleId) || e.vehicleId == f.vehicleId.value)
    && (!Active(f.level) || e.level == f.level.value)
    && (!Active(f.code) || e.code == f.code.value)
    && (!Active(f.from) || NotBefore(dateOf, e.timestamp, f.from.value))
    && (!Active(f.to) || NotAfter(dateOf, e.timestamp, f.to.value))
  }

  /** `findAll` with its level test corrected. */
  function FindAllCorrected(logs: seq<LogEntry>, f: Filters, dateOf: string -> Option<int>): seq<LogEntry> {
    Filter(logs, e => FindAllTestIntended(f, dateOf, e))
  }

  /** Corrected, `findAll` selects what `getLogs` and `getFilteredLogs` select. */
  lemma FindAllCorrectedIsSelect(logs: seq<LogEntry>, f: Filters, dateOf: string -> Option<int>)
    ensures FindAllCorrected(logs, f, dateOf) == Select(logs, f, dateOf)
  {
    FilterExt(logs, e => FindAllTestIntended(f, dateOf, e), e => Holds(f, dateOf, e));
  }

  /** As written, `findAll` agrees with the other two queries whenever no level filter is given ... */
  lemma FindAllAsWrittenWithoutLevel(logs: seq<LogEntry>, f: Filters, dateOf: string -> Option<int>)
    requires !Active(f.level)
    ensures FindAllAsWritten(logs, f, dateOf) == Select(logs, f, dateOf)
  {
    FilterExt(logs, e => FindAllTest(f, dateOf, e), e => Holds(f, dateOf, e));
  }

  /** ... and with a level filter keeps exactly the entries whose code equals it. */
  lemma FindAllAsWrittenMeaning(logs: seq<LogEntry>, f: Filters, dateOf: string -> Option<int>)
    requires Active(f.level)
    ensures forall x :: x in FindAllAsWritten(logs, f, dateOf) <==>
      x in Select(logs, f.(level := None), dateOf) && x.code == f.level.value
  {
    forall x ensures x in FindAllAsWritten(logs, f, dateOf) <==>
      x in Select(logs, f.(level := None), dateOf) && x.code == f.level.value
    {
      FilterMultiset(logs, e => FindAllTest(f, dateOf, e), x);
      SelectMeaning(logs, f.(level := None), dateOf, x);
    }
  }

  /**
   * ... and, as a sequence, is the entries passing the other filters, in
   * stored order and as often as they are stored, narrowed to those whose
   * code equals the level value.
   */
  lemma FindAllAsWrittenIsFilter(logs: seq<LogEntry>, f: Filters, dateOf: string -> Option<int>)
    requires Active(f.level)
    ensures FindAllAsWritten(logs, f, dateOf)
      == Filter(Select(logs, f.(level := None), dateOf), (e: LogEntry) => e.code == f.level.value)
  {
    var g := f.(level := None);
    var p := (e: LogEntry) => Holds(g, dateOf, e);
    var q := (e: LogEntry) => e.code == f.level.value;
    var r := (e: LogEntry) => FindAllTest(f, dateOf, e);
    FilterFilter(logs, p, q, r);
    FilterExt(logs, p, e => Holds(g, dateOf, e));
    FilterExt(logs, r, e => FindAllTest(f, dateOf, e));
    FilterExt(Select(logs, g, dateOf), q, (e: LogEntry) => e.code == f.level.value);
  }

  /**
   * An entry of level `ERROR` and code `E42` is not found by `findAll` with
   * the level filter `ERROR`, while the corrected `findAll` finds it.
   */
  lemma FindAllLevelMismatch(dateOf: string -> Option<int>)
    ensures var e := LogEntry("2024-01-01T00:00:00Z", "7", "ERROR", "E42", "engine stalled");
      var f := Filters(None, Some("ERROR"), None, None, None);
      FindAllAsWritten([e], f, dateOf) == [] && FindAllCorrected([e], f, dateOf) == [e]
  {
    var e := LogEntry("2024-01-01T00:00:00Z", "7", "ERROR", "E42", "engine stalled");
    var f := Filters(None, Some("ERROR"), None, None, None);
    FilterOne(e, x => FindAllTest(f, dateOf, x));
    FilterOne(e, x => FindAllTestIntended(f, dateOf, x));
  }
}
