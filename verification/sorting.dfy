/**
 * The sort step of `getLogs`: `results.sort(cmp)` where `cmp` compares the
 * entries' values of the field named by `sort`. `Array.prototype.sort` is
 * stable, so the result is the one stable sort of the entries by that
 * comparator, computed here by insertion.
 */
module Sorting {
  import opened Wrappers
  import opened LogLine
  import opened Ordering
  import opened Seqs

  /** The fields of an entry that `sort` can name. */
  datatype Field = Timestamp | VehicleId | Level | Code | Message

  /** The field a property name selects; any other name reads the same value from every entry. */
  function FieldNamed(name: string): (r: Option<Field>)
    ensures r == Some(Timestamp) <==> name == "timestamp"
    ensures r == Some(VehicleId) <==> name == "vehicleId"
    ensures r == Some(Level) <==> name == "level"
    ensures r == Some(Code) <==> name == "code"
    ensures r == Some(Message) <==> name == "message"
  {
    if name == "timestamp" then Some(Timestamp)
    else if name == "vehicleId" then Some(VehicleId)
    else if name == "level" then Some(Level)
    else if name == "code" then Some(Code)
    else if name == "message" then Some(Message)
    else None
  }

  /** The field `getLogs` sorts by: `sort`, or `timestamp` when `sort` is absent. */
  function SortField(sort: Option<string>): (r: Option<Field>)
    ensures sort.None? ==> r == Some(Timestamp)
    ensures sort.Some? ==> r == FieldNamed(sort.value)
  {
    match sort
    case None => FieldNamed("timestamp")
    case Some(name) => FieldNamed(name)
  }

  /** The order is ascending when `sortOrder` is absent or `asc`, and descending for any other value. */
  function Ascending(sortOrder: Option<string>): (asc: bool)
    ensures asc <==> sortOrder.None? || sortOrder.value == "asc"
  {
    match sortOrder
    case None => true
    case Some(o) => o == "asc"
  }

  /** The value the comparator reads from `e`; for a name that is no field, the same for every entry. */
  function Key(e: LogEntry, field: Option<Field>): string {
    match field
    case None => ""
    case Some(Timestamp) => e.timestamp
    case Some(VehicleId) => e.vehicleId
    case Some(Level) => e.level
    case Some(Code) => e.code
    case Some(Message) => e.message
  }

  /** The comparator `getLogs` passes to `sort`. */
  function Cmp(a: LogEntry, b: LogEntry, field: Option<Field>, asc: bool): int {
    Compare(Key(a, field), Key(b, field), asc)
  }

  /** No entry of `s` compares after a later one. */
  ghost predicate Sorted(s: seq<LogEntry>, field: Option<Field>, asc: bool) {
    forall i, j :: 0 <= i < j < |s| ==> Cmp(s[i], s[j], field, asc) <= 0
  }

  /** Inserts `x` after every entry of `s` that does not compare after it. */
  function Insert(x: LogEntry, s: seq<LogEntry>, field: Option<Field>, asc: bool): seq<LogEntry> {
    if s == [] then [x]
    else if Cmp(x, s[0], field, asc) < 0 then [x] + s
    else [s[0]] + Insert(x, s[1..], field, asc)
  }

  /** `s.sort(cmp)`: the stable sort of `s` by the comparator. */
  function SortBy(s: seq<LogEntry>, field: Option<Field>, asc: bool): seq<LogEntry> {
    if s == [] then [] else Insert(s[|s| - 1], SortBy(s[.. |s| - 1], field, asc), field, asc)
  }

  lemma InsertPermutation(x: LogEntry, s: seq<LogEntry>, field: Option<Field>, asc: bool)
    ensures multiset(Insert(x, s, field, asc)) == multiset(s) + multiset{x}
  {
    if s != [] && Cmp(x, s[0], field, asc) >= 0 {
      InsertPermutation(x, s[1..], field, asc);
      assert s == [s[0]] + s[1..];
    }
  }

  /** Sorting rearranges the entries: the result is a permutation of `s`. */
  lemma {:induction false} SortByPermutation(s: seq<LogEntry>, field: Option<Field>, asc: bool)
    ensures multiset(SortBy(s, field, asc)) == multiset(s)
  {
    if s != [] {
      var p := s[.. |s| - 1];
      SortByPermutation(p, field, asc);
      InsertPermutation(s[|s| - 1], SortBy(p, field, asc), field, asc);
      SnocLast(s);
    }
  }

  /** An entry in front of a sorted sequence that compares after none of it keeps it sorted. */
  lemma SortedCons(h: LogEntry, r: seq<LogEntry>, field: Option<Field>, asc: bool)
    requires Sorted(r, field, asc)
    requires forall y :: y in r ==> Cmp(h, y, field, asc) <= 0
    ensures Sorted([h] + r, field, asc)
  {
    var s := [h] + r;
    forall i, j | 0 <= i < j < |s| ensures Cmp(s[i], s[j], field, asc) <= 0 {
      if i == 0 {
        assert s[j] == r[j - 1];
      } else {
        assert s[i] == r[i - 1] && s[j] == r[j - 1];
      }
    }
  }

  /** An entry that compares before the head of a sorted sequence compares before all of it. */
  lemma BeforeHead(x: LogEntry, s: seq<LogEntry>, field: Option<Field>, asc: bool)
    requires s != [] && Sorted(s, field, asc) && Cmp(x, s[0], field, asc) < 0
    ensures forall y :: y in s ==> Cmp(x, y, field, asc) < 0
  {
    forall y | y in s ensures Cmp(x, y, field, asc) < 0 {
      var j :| 0 <= j < |s| && s[j] == y;
      if j > 0 {
        CompareTransitive(Key(x, field), Key(s[0], field), Key(y, field), asc);
      }
    }
  }

  lemma {:induction false} InsertSorted(x: LogEntry, s: seq<LogEntry>, field: Option<Field>, asc: bool)
    requires Sorted(s, field, asc)
    ensures Sorted(Insert(x, s, field, asc), field, asc)
  {
    if s == [] {
    } else if Cmp(x, s[0], field, asc) < 0 {
      BeforeHead(x, s, field, asc);
      SortedCons(x, s, field, asc);
    } else {
      var t := s[1..];
      SortedTail(s, field, asc);
      InsertSorted(x, t, field, asc);
      InsertPermutation(x, t, field, asc);
      var r := Insert(x, t, field, asc);
      forall y | y in r ensures Cmp(s[0], y, field, asc) <= 0 {
        assert y in multiset(r);
        if y == x {
          CompareAntisymmetric(Key(x, field), Key(s[0], field), asc);
        } else {
          assert y in t;
          var j :| 0 <= j < |t| && t[j] == y;
          assert s[j + 1] == y;
        }
      }
      SortedCons(s[0], r, field, asc);
    }
  }

  /** The result of sorting is sorted by the comparator. */
  lemma {:induction false} SortBySorted(s: seq<LogEntry>, field: Option<Field>, asc: bool)
    ensures Sorted(SortBy(s, field, asc), field, asc)
  {
    if s != [] {
      SortBySorted(s[.. |s| - 1], field, asc);
      InsertSorted(s[|s| - 1], SortBy(s[.. |s| - 1], field, asc), field, asc);
    }
  }

  /**
   * Sorted means ordered by the chosen field's values: never descending
   * when the order is ascending, never ascending otherwise.
   */
  lemma SortedByKeys(s: seq<LogEntry>, field: Option<Field>, asc: bool)
    requires Sorted(s, field, asc)
    ensures forall i, j :: 0 <= i < j < |s| ==>
      if asc then !LexLess(Key(s[j], field), Key(s[i], field))
      else !LexLess(Key(s[i], field), Key(s[j], field))
  {
    forall i, j | 0 <= i < j < |s|
      ensures if asc then !LexLess(Key(s[j], field), Key(s[i], field))
        else !LexLess(Key(s[i], field), Key(s[j], field))
    {
      CompareMeaning(Key(s[j], field), Key(s[i], field), asc);
      CompareAntisymmetric(Key(s[i], field), Key(s[j], field), asc);
    }
  }

  /** No entry of `s` has the key `k`. */
  lemma FilterNone(s: seq<LogEntry>, field: Option<Field>, k: string)
    requires forall y :: y in s ==> Key(y, field) != k
    ensures Filter(s, e => Key(e, field) == k) == []
  {
    if s != [] {
      FilterNone(s[1..], field, k);
    }
  }

  /** The tail of a sorted sequence is sorted. */
  lemma SortedTail(s: seq<LogEntry>, field: Option<Field>, asc: bool)
    requires s != [] && Sorted(s, field, asc)
    ensures Sorted(s[1..], field, asc)
  {
    var t := s[1..];
    forall i, j | 0 <= i < j < |t| ensures Cmp(t[i], t[j], field, asc) <= 0 {
      assert t[i] == s[i + 1] && t[j] == s[j + 1];
    }
  }

  /** Inserting `x` in front of a sorted sequence that holds no entry with its key. */
  lemma StableInFront(x: LogEntry, s: seq<LogEntry>, field: Option<Field>, asc: bool, k: string)
    requires s != [] && Sorted(s, field, asc) && Cmp(x, s[0], field, asc) < 0
    ensures Filter([x] + s, e => Key(e, field) == k)
      == Filter(s, e => Key(e, field) == k) + (if Key(x, field) == k then [x] else [])
  {
    var p := e => Key(e, field) == k;
    FilterConcat([x], s, p);
    FilterOne(x, p);
    if Key(x, field) == k {
      BeforeHead(x, s, field, asc);
      forall y | y in s ensures Key(y, field) != k {
        CompareMeaning(Key(x, field), Key(y, field), asc);
      }
      FilterNone(s, field, k);
    }
  }

  /** Inserting `x` puts it after the entries with its key. */
  lemma {:induction false} InsertStable(x: LogEntry, s: seq<LogEntry>, field: Option<Field>, asc: bool, k: string)
    requires Sorted(s, field, asc)
    ensures Filter(Insert(x, s, field, asc), e => Key(e, field) == k)
      == Filter(s, e => Key(e, field) == k) + (if Key(x, field) == k then [x] else [])
  {
    if s == [] {
      FilterOne(x, e => Key(e, field) == k);
    } else if Cmp(x, s[0], field, asc) < 0 {
      StableInFront(x, s, field, asc, k);
    } else {
      SortedTail(s, field, asc);
      InsertStable(x, s[1..], field, asc, k);
      FilterConsAppend(s[0], s[1..], Insert(x, s[1..], field, asc),
        if Key(x, field) == k then [x] else [], e => Key(e, field) == k);
      ConsHead(s);
    }
  }

  /**
   * Sorting is stable: the entries with any one key come out in the order
   * they went in.
   */
  lemma {:induction false} SortByStable(s: seq<LogEntry>, field: Option<Field>, asc: bool, k: string)
    ensures Filter(SortBy(s, field, asc), e => Key(e, field) == k) == Filter(s, e => Key(e, field) == k)
  {
    if s != [] {
      var p := s[.. |s| - 1];
      var x := s[|s| - 1];
      SortByStable(p, field, asc, k);
      SortBySorted(p, field, asc);
      InsertStable(x, SortBy(p, field, asc), field, asc, k);
      FilterSnoc(p, x, e => Key(e, field) == k);
      assert s == p + [x];
    }
  }

  /** A `sort` that names no field of an entry leaves the order unchanged. */
  lemma SortByUnknownField(s: seq<LogEntry>, asc: bool)
    ensures SortBy(s, None, asc) == s
  {
    var r := SortBy(s, None, asc);
    SortByStable(s, None, asc, "");
    FilterAll(s, e => Key(e, None) == "");
    FilterAll(r, e => Key(e, None) == "");
  }

  /** Every window of a sorted sequence is sorted. */
  lemma SortedWindow(s: seq<LogEntry>, field: Option<Field>, asc: bool, lo: nat, hi: nat)
    requires Sorted(s, field, asc) && lo <= hi <= |s|
    ensures Sorted(s[lo .. hi], field, asc)
  {
    var w := s[lo .. hi];
    forall i, j | 0 <= i < j < |w| ensures Cmp(w[i], w[j], field, asc) <= 0 {
      assert w[i] == s[lo + i] && w[j] == s[lo + j];
    }
  }
}
