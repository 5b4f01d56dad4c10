/**
 * Pagination as the log service computes it: `offset = (page - 1) * limit`
 * and `results.slice(offset, offset + limit)`, with `Array.prototype.slice`'s
 * clamping of its integer arguments (a negative one counts from the end).
 */
module Paging {

  /** Where a relative `slice` argument lands in a sequence of length `len`. */
  function SliceIndex(rel: int, len: nat): (k: nat)
    ensures k <= len
  {
    if rel < 0 then (if len + rel < 0 then 0 else len + rel)
    else if rel > len then len
    else rel
  }

  /** `s.slice(start, end)`. */
  function Slice<T>(s: seq<T>, start: int, end: int): seq<T> {
    var from := SliceIndex(start, |s|);
    var to := SliceIndex(end, |s|);
    if from < to then s[from .. to] else []
  }

  /** The first index of page `page` (counted from 1) of `limit` entries. */
  function Offset(page: int, limit: int): int {
    (page - 1) * limit
  }

  /** The entries `getLogs` and `getFilteredLogs` return for `page` and `limit`. */
  function Paginate<T>(s: seq<T>, page: int, limit: int): seq<T> {
    var offset := Offset(page, limit);
    Slice(s, offset, offset + limit)
  }

  /** Slicing inside the bounds takes exactly the window `[start, end)`, clipped to the sequence. */
  lemma SliceWindow<T>(s: seq<T>, start: int, end: int)
    requires 0 <= start && start <= end
    ensures Slice(s, start, end) == if start >= |s| then [] else s[start .. if end < |s| then end else |s|]
  {
  }

  /**
   * For `page >= 1` and `limit >= 0`, a page holds the entries from the
   * offset on, `max(0, min(limit, |s| - offset))` of them.
   */
  lemma PaginateWindow<T>(s: seq<T>, page: int, limit: int)
    requires page >= 1 && limit >= 0
    ensures var offset := (page - 1) * limit;
      var data := Paginate(s, page, limit);
      && offset >= 0
      && |data| == Max(0, Min(limit, |s| - offset))
      && forall i :: 0 <= i < |data| ==> data[i] == s[offset + i]
  {
    var offset := (page - 1) * limit;
    assert offset >= 0 by {
      MulNonNegative(page - 1, limit);
    }
    SliceWindow(s, offset, offset + limit);
  }

  function Min(a: int, b: int): int {
    if a < b then a else b
  }

  function Max(a: int, b: int): int {
    if a < b then b else a
  }

  lemma MulNonNegative(a: int, b: int)
    requires a >= 0 && b >= 0
    ensures a * b >= 0
  {
  }

  /** Pages `1` to `n` of `limit` entries, one after the other. */
  function Pages<T>(s: seq<T>, limit: int, n: nat): seq<T> {
    if n == 0 then [] else Pages(s, limit, n - 1) + Paginate(s, n, limit)
  }

  /** The first `n` pages are the first `n * limit` entries (all of them once they run out). */
  lemma {:induction false} PagesArePrefix<T>(s: seq<T>, limit: int, n: nat)
    requires limit >= 0
    ensures n * limit >= 0
    ensures Pages(s, limit, n) == s[.. Min(n * limit, |s|)]
  {
    MulNonNegative(n, limit);
    if n > 0 {
      PagesArePrefix(s, limit, n - 1);
      var offset := (n - 1) * limit;
      assert n * limit == offset + limit;
      MulNonNegative(n - 1, limit);
      SliceWindow(s, offset, offset + limit);
      assert Offset(n, limit) == offset;
      if offset < |s| {
        assert s[.. offset] + s[offset .. Min(offset + limit, |s|)] == s[.. Min(offset + limit, |s|)];
      }
    }
  }

  /** With `limit > 0`, concatenating pages `1, 2, ...` until they cover `s` gives back all of `s`. */
  lemma PagesCoverAll<T>(s: seq<T>, limit: int, n: nat)
    requires limit > 0 && n * limit >= |s|
    ensures Pages(s, limit, n) == s
  {
    PagesArePrefix(s, limit, n);
  }

  /**
   * Page `0` is always empty; a negative page, with `limit > 0`, counts back
   * from the end: page `-1` is the second-to-last run of `limit` entries.
   */
  lemma PageBeforeFirst<T>(s: seq<T>, page: int, limit: int)
    requires page <= 0 && limit >= 0
    ensures page == 0 ==> Paginate(s, page, limit) == []
    ensures var offset := (page - 1) * limit;
      page < 0 && limit > 0 && |s| + offset >= 0 ==>
      Paginate(s, page, limit) == s[|s| + offset .. |s| + offset + limit]
  {
    assert (page - 1) * limit + limit == page * limit;
    assert page * limit <= 0 by {
      MulNonNegative(-page, limit);
    }
    if page < 0 && limit > 0 {
      assert page * limit <= -limit by {
        MulNonNegative(-page - 1, limit);
      }
    }
  }
}
