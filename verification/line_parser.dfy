/**
 * The executable side of `parseLogLine`: a scanner that finds, in one pass of
 * recursive functions, the match the backtracking regular-expression engine
 * reports for the log line pattern, proved sound and complete against the
 * declarative grammar of module `LogLine`.
 */
module LineParser {
  import opened Wrappers
  import opened LogLine

  /** The end of the run of characters of class `p` that starts at `j`. */
  function RunEnd(line: string, j: nat, p: CharClass): (e: nat)
    requires j <= |line|
    ensures j <= e <= |line|
    decreases |line| - j
  {
    if j < |line| && InClass(line[j], p) then RunEnd(line, j + 1, p) else j
  }

  /** `RunEnd` ends the longest run of class `p` from `j`. */
  lemma {:induction false} RunEndIsRun(line: string, j: nat, p: CharClass)
    requires j <= |line|
    ensures forall i :: j <= i < RunEnd(line, j, p) ==> InClass(line[i], p)
    ensures RunEnd(line, j, p) < |line| ==> !InClass(line[RunEnd(line, j, p)], p)
    decreases |line| - j
  {
    if j < |line| && InClass(line[j], p) {
      RunEndIsRun(line, j + 1, p);
    }
  }

  /** The last `]` at a position in `[lo, hi)`, if there is one. */
  function LastClose(line: string, lo: nat, hi: nat): (r: Option<nat>)
    requires lo <= hi <= |line|
    ensures r.Some? ==> lo <= r.value < hi && line[r.value] == ']'
    decreases hi - lo
  {
    if hi == lo then None
    else if line[hi - 1] == ']' then Some(hi - 1)
    else LastClose(line, lo, hi - 1)
  }

  /** `LastClose` finds the last `]` in `[lo, hi)`, and nothing only when there is none. */
  lemma {:induction false} LastCloseIsLast(line: string, lo: nat, hi: nat)
    requires lo <= hi <= |line|
    ensures LastClose(line, lo, hi).Some? ==> forall q :: LastClose(line, lo, hi).value < q < hi ==> line[q] != ']'
    ensures LastClose(line, lo, hi).None? ==> forall q :: lo <= q < hi ==> line[q] != ']'
    decreases hi - lo
  {
    if hi != lo && line[hi - 1] != ']' {
      LastCloseIsLast(line, lo, hi - 1);
    }
  }

  /**
   * Matches the pattern from literal `n` (1 to 4) on at `k`, filling groups
   * `n` to 4 of `gs`.
   */
  function ScanFrom(line: string, k: nat, gs: seq<string>, n: nat): (r: Option<seq<string>>)
    requires |gs| == 5 && 1 <= n <= 4 && k <= |line|
    ensures r.Some? ==> |r.value| == 5
    decreases 5 - n, 1
  {
    if LitAt(line, k, Lit(n)) then ScanAfter(line, k + |Lit(n)|, gs, n) else None
  }

  /** Matches group `n` at `j` and the rest of the pattern after it. */
  function ScanAfter(line: string, j: nat, gs: seq<string>, n: nat): (r: Option<seq<string>>)
    requires |gs| == 5 && 1 <= n <= 4 && j <= |line|
    ensures r.Some? ==> |r.value| == 5
    decreases 5 - n, 0
  {
    if n == 4 then ScanMessage(line, j, gs) else ScanGroup(line, j, gs, n)
  }

  /**
   * The vehicle id, level or code group at `j`: the longest run of its class
   * (the only run a following `]` admits), then the rest of the pattern.
   */
  function ScanGroup(line: string, j: nat, gs: seq<string>, n: nat): (r: Option<seq<string>>)
    requires |gs| == 5 && 1 <= n <= 3 && j <= |line|
    ensures r.Some? ==> |r.value| == 5
    decreases 5 - n, -1
  {
    var e := RunEnd(line, j, Class(n));
    if e == j then None else ScanFrom(line, e, gs[n := line[j .. e]], n + 1)
  }

  /**
   * The message at `j`: the longest run of `.` that is followed by `]`, as
   * the greedy `(.+)` finds it.
   */
  function ScanMessage(line: string, j: nat, gs: seq<string>): (r: Option<seq<string>>)
    requires |gs| == 5 && j <= |line|
    ensures r.Some? ==> |r.value| == 5
  {
    var t := RunEnd(line, j, Dot);
    if t <= j then None
    else match LastClose(line, j + 1, t)
      case None => None
      case Some(q) => Some(gs[4 := line[j .. q]])
  }

  /** The captures `gs` as a log entry. */
  function Entry(gs: seq<string>): (f: LogEntry)
    requires |gs| == 5
    ensures Groups(f) == gs
  {
    LogEntry(gs[0], gs[1], gs[2], gs[3], gs[4])
  }

  /** The candidate groups for a match at `s` whose timestamp ends at `k`. */
  function TsGroups(line: string, s: nat, k: nat): (gs: seq<string>)
    requires s < k <= |line|
    ensures |gs| == 5
  {
    [line[s + 1 .. k], "", "", "", ""]
  }

  /**
   * The lazy `(.+?)`: tries the timestamp ends `k`, `k + 1`, ... in turn and
   * takes the first for which the rest of the pattern matches. A line
   * terminator ends the search, as no longer timestamp can contain it.
   */
  function MatchFrom(line: string, s: nat, k: nat): (r: Option<LogEntry>)
    requires s + 2 <= k
    decreases |line| + 1 - k
  {
    if k > |line| || !InClass(line[k - 1], Dot) then None
    else match ScanFrom(line, k, TsGroups(line, s, k), 1)
      case Some(gs) => Some(Entry(gs))
      case None => MatchFrom(line, s, k + 1)
  }

  /** A reported match: where it starts, and its captures. */
  datatype Found = Found(start: nat, entry: LogEntry)

  /** Tries the start positions `s`, `s + 1`, ... in turn, leftmost first. */
  function Scan(line: string, s: nat): (r: Option<Found>)
    decreases |line| - s
  {
    if s >= |line| then None
    else if line[s] == '[' then
      match MatchFrom(line, s, s + 2)
      case Some(f) => Some(Found(s, f))
      case None => Scan(line, s + 1)
    else Scan(line, s + 1)
  }

  /** `parseLogLine`: the captures of the reported match, or nothing. */
  function ParseLogLine(line: string): Option<LogEntry> {
    match Scan(line, 0)
    case Some(m) => Some(m.entry)
    case None => None
  }

  // Soundness and completeness of the scanner, layer by layer.

  /** `ScanFrom` leaves the groups before `n` as they were. */
  lemma {:induction false} ScanFromKeeps(line: string, k: nat, gs: seq<string>, n: nat, r: seq<string>, i: nat)
    requires |gs| == 5 && 1 <= n <= 4 && k <= |line| && i < n
    requires ScanFrom(line, k, gs, n) == Some(r)
    ensures r[i] == gs[i]
    decreases 5 - n
  {
    var j := k + |Lit(n)|;
    ScanFromLit(line, k, gs, n, j);
    if n < 4 {
      var e := RunEnd(line, j, Class(n));
      ScanGroupStep(line, j, gs, n, e);
      ScanFromKeeps(line, e, gs[n := line[j .. e]], n + 1, r, i);
    }
  }

  lemma LitAtSlice(line: string, j: nat, e: nat)
    requires j <= e <= |line|
    ensures LitAt(line, j, line[j .. e])
  {
    LitAtIff(line, j, line[j .. e]);
  }

  /**
   * Group `n` found at `j`, right after literal `n` at `k`, and followed by
   * the rest of the pattern at `e`, makes the pattern from literal `n` on.
   */
  lemma GroupIntro(line: string, k: nat, r: seq<string>, n: nat, j: nat, e: nat)
    requires |r| == 5 && n < 5 && j == k + |Lit(n)| && j <= e <= |line|
    requires LitAt(line, k, Lit(n)) && r[n] == line[j .. e]
    requires OneOrMore(r[n], Class(n))
    requires LitAt(line, e, PatternFrom(r, n + 1)) && ClassesFrom(r, n + 1)
    ensures LitAt(line, k, PatternFrom(r, n)) && ClassesFrom(r, n)
  {
    LitAtSlice(line, j, e);
    PatternStep(line, k, r, n, j, e);
  }

  /** The characters of `line[j..e]` all have class `p` when those of `line` do. */
  lemma SliceInClass(line: string, j: nat, e: nat, p: CharClass)
    requires j < e <= |line|
    requires forall i :: j <= i < e ==> InClass(line[i], p)
    ensures OneOrMore(line[j .. e], p)
  {
  }

  /** A scan that succeeds has found literal `n` and goes on with group `n` at `j`. */
  lemma ScanFromLit(line: string, k: nat, gs: seq<string>, n: nat, j: nat)
    requires |gs| == 5 && 1 <= n <= 4 && k <= |line| && j == k + |Lit(n)|
    requires ScanFrom(line, k, gs, n).Some?
    ensures LitAt(line, k, Lit(n)) && j <= |line|
    ensures ScanFrom(line, k, gs, n) == ScanAfter(line, j, gs, n)
  {
  }

  /** The converse of `ScanFromLit`. */
  lemma ScanFromLitIntro(line: string, k: nat, gs: seq<string>, n: nat, j: nat)
    requires |gs| == 5 && 1 <= n <= 4 && k <= |line| && j == k + |Lit(n)|
    requires LitAt(line, k, Lit(n))
    ensures j <= |line|
    ensures ScanFrom(line, k, gs, n) == ScanAfter(line, j, gs, n)
  {
  }

  /**
   * A group scan fails on an empty run, and otherwise, with the run ending
   * at `e`, carries on after it.
   */
  lemma ScanGroupStep(line: string, j: nat, gs: seq<string>, n: nat, e: nat)
    requires |gs| == 5 && 1 <= n <= 3 && j <= |line|
    requires e == RunEnd(line, j, Class(n))
    ensures e == j ==> ScanAfter(line, j, gs, n).None?
    ensures j < e ==> ScanAfter(line, j, gs, n) == ScanFrom(line, e, gs[n := line[j .. e]], n + 1)
  {
  }

  /** What `ScanFrom` returns for the message, the last group, is a match. */
  lemma ScanLastSound(line: string, k: nat, gs: seq<string>, r: seq<string>)
    requires |gs| == 5 && k <= |line|
    requires ScanFrom(line, k, gs, 4) == Some(r)
    ensures LitAt(line, k, PatternFrom(r, 4)) && ClassesFrom(r, 4)
  {
    var j := k + |Lit(4)|;
    ScanFromLit(line, k, gs, 4, j);
    var t := RunEnd(line, j, Dot);
    RunEndIsRun(line, j, Dot);
    var q := LastClose(line, j + 1, t).value;
    assert r[4] == line[j .. q];
    SliceInClass(line, j, q, Dot);
    assert LitAt(line, q, PatternFrom(r, 5)) by {
      LitAtIff(line, q, "]");
    }
    GroupIntro(line, k, r, 4, j, q);
  }

  /** Every string that `ScanFrom` returns is a match of the pattern from literal `n` on. */
  lemma {:induction false} ScanFromSound(line: string, k: nat, gs: seq<string>, n: nat, r: seq<string>)
    requires |gs| == 5 && 1 <= n <= 4 && k <= |line|
    requires ScanFrom(line, k, gs, n) == Some(r)
    ensures LitAt(line, k, PatternFrom(r, n)) && ClassesFrom(r, n)
    decreases 5 - n, 1
  {
    if n == 4 {
      ScanLastSound(line, k, gs, r);
    } else {
      ScanMidSound(line, k, gs, n, r);
    }
  }

  /** `ScanFromSound` for the vehicle id, level and code. */
  lemma {:induction false} ScanMidSound(line: string, k: nat, gs: seq<string>, n: nat, r: seq<string>)
    requires |gs| == 5 && 1 <= n <= 3 && k <= |line|
    requires ScanFrom(line, k, gs, n) == Some(r)
    ensures LitAt(line, k, PatternFrom(r, n)) && ClassesFrom(r, n)
    decreases 5 - n, 0
  {
    var j := k + |Lit(n)|;
    ScanFromLit(line, k, gs, n, j);
    var e := RunEnd(line, j, Class(n));
    ScanGroupStep(line, j, gs, n, e);
    ScanFromSound(line, e, gs[n := line[j .. e]], n + 1, r);
    MidSoundStep(line, k, gs, n, j, e, r);
  }

  /**
   * Literal `n` at `k`, the run of group `n`'s class from `j` to `e`, and a
   * match of the rest of the pattern from `e` found by the scanner, make a
   * match from literal `n` on.
   */
  lemma MidSoundStep(line: string, k: nat, gs: seq<string>, n: nat, j: nat, e: nat, r: seq<string>)
    requires |gs| == 5 && 1 <= n <= 3 && j == k + |Lit(n)| && LitAt(line, k, Lit(n))
    requires e == RunEnd(line, j, Class(n)) && j < e
    requires ScanFrom(line, e, gs[n := line[j .. e]], n + 1) == Some(r)
    requires LitAt(line, e, PatternFrom(r, n + 1)) && ClassesFrom(r, n + 1)
    ensures LitAt(line, k, PatternFrom(r, n)) && ClassesFrom(r, n)
  {
    RunEndIsRun(line, j, Class(n));
    ScanFromKeeps(line, e, gs[n := line[j .. e]], n + 1, r, n);
    SliceInClass(line, j, e, Class(n));
    GroupIntro(line, k, r, n, j, e);
  }

  /** The run of class `p` at `j` that a character outside `p` ends (at `e`) is the longest one. */
  lemma RunEndAt(line: string, j: nat, u: string, p: CharClass, e: nat)
    requires LitAt(line, j, u) && OneOrMore(u, p) && e == j + |u|
    requires e < |line| && !InClass(line[e], p)
    ensures RunEnd(line, j, p) == e
  {
    var e' := RunEnd(line, j, p);
    RunEndIsRun(line, j, p);
    if e' < e {
      LitAtChar(line, j, u, e' - j);
    }
  }

  /**
   * The message scan finds every match of `] [`, a message and `]`: with a
   * message at least as long, and the same message when as long.
   */
  lemma ScanLastComplete(line: string, k: nat, gs: seq<string>, hs: seq<string>)
    requires |gs| == 5 && |hs| == 5 && k <= |line|
    requires LitAt(line, k, PatternFrom(hs, 4)) && OneOrMore(hs[4], Dot)
    ensures ScanFrom(line, k, gs, 4).Some?
    ensures var r := ScanFrom(line, k, gs, 4).value;
      |hs[4]| <= |r[4]| && (|hs[4]| == |r[4]| ==> hs[4] == r[4])
  {
    var j := k + |Lit(4)|;
    var m := j + |hs[4]|;
    PatternStep(line, k, hs, 4, j, m);
    assert LitAt(line, m, "]");
    LitAtChar(line, m, "]", 0);
    var t := RunEnd(line, j, Dot);
    RunEndIsRun(line, j, Dot);
    assert t > m by {
      if t <= m {
        LitAtChar(line, j, hs[4], t - j);
      }
    }
    LastCloseIsLast(line, j + 1, t);
    var q := LastClose(line, j + 1, t).value;
    ScanFromLitIntro(line, k, gs, 4, j);
    var r := gs[4 := line[j .. q]];
    if |hs[4]| == |r[4]| {
      LitAtSlice(line, j, q);
      SameSliceAt(line, j, hs[4], r[4]);
    }
  }

  /**
   * Every match of the pattern from literal `n` on at `k` is found by
   * `ScanFrom`: with the same vehicle id, level and code, and with a message
   * at least as long (the same message when as long).
   */
  lemma {:induction false} ScanFromComplete(line: string, k: nat, gs: seq<string>, hs: seq<string>, n: nat)
    requires |gs| == 5 && |hs| == 5 && 1 <= n <= 4 && k <= |line|
    requires LitAt(line, k, PatternFrom(hs, n)) && ClassesFrom(hs, n)
    ensures ScanFrom(line, k, gs, n).Some?
    ensures var r := ScanFrom(line, k, gs, n).value;
      && (forall i :: n <= i < 4 ==> r[i] == hs[i])
      && |hs[4]| <= |r[4]|
      && (|hs[4]| == |r[4]| ==> hs[4] == r[4])
    decreases 5 - n, 1
  {
    if n == 4 {
      ScanLastComplete(line, k, gs, hs);
    } else {
      ScanMidComplete(line, k, gs, hs, n);
    }
  }

  /** `ScanFromComplete` for the vehicle id, level and code. */
  lemma {:induction false} ScanMidComplete(line: string, k: nat, gs: seq<string>, hs: seq<string>, n: nat)
    requires |gs| == 5 && |hs| == 5 && 1 <= n <= 3 && k <= |line|
    requires LitAt(line, k, PatternFrom(hs, n)) && ClassesFrom(hs, n)
    ensures ScanFrom(line, k, gs, n).Some?
    ensures var r := ScanFrom(line, k, gs, n).value;
      && (forall i :: n <= i < 4 ==> r[i] == hs[i])
      && |hs[4]| <= |r[4]|
      && (|hs[4]| == |r[4]| ==> hs[4] == r[4])
    decreases 5 - n, 0
  {
    var j := k + |Lit(n)|;
    var e := j + |hs[n]|;
    PatternStep(line, k, hs, n, j, e);
    assert OneOrMore(hs[n], Class(n));
    GroupEndsAtClose(line, k, hs, n, j, e);
    RunEndAt(line, j, hs[n], Class(n), e);
    var gs' := gs[n := line[j .. e]];
    LitAtSlice(line, j, e);
    SameSliceAt(line, j, hs[n], line[j .. e]);
    ScanFromLitIntro(line, k, gs, n, j);
    ScanGroupStep(line, j, gs, n, e);
    assert ClassesFrom(hs, n + 1);
    ScanFromComplete(line, e, gs', hs, n + 1);
    var r := ScanFrom(line, e, gs', n + 1).value;
    ScanFromKeeps(line, e, gs', n + 1, r, n);
    assert r[n] == hs[n];
    assert forall i :: n <= i < 4 ==> r[i] == hs[i];
  }

  // From the pattern's tail to whole matches: one timestamp end, then the
  // lazy timestamp, then the leftmost start.

  /** A match at `s` whose timestamp ends at `k`, split at the timestamp. */
  lemma OccursSplit(line: string, s: nat, f: LogEntry, k: nat)
    requires k == s + 1 + |f.timestamp|
    ensures Occurs(line, s, f) <==>
      && OneOrMore(f.timestamp, Dot) && LitAt(line, s, "[") && LitAt(line, s + 1, f.timestamp)
      && LitAt(line, k, PatternFrom(Groups(f), 1)) && ClassesFrom(Groups(f), 1)
  {
    RenderIsPattern(f);
    CapturesIffClasses(f);
    PatternStep(line, s, Groups(f), 0, s + 1, k);
  }

  /** The pieces of a match at `s`, with its timestamp ending at `k`, make the match. */
  lemma OccursIntro(line: string, s: nat, f: LogEntry, k: nat)
    requires k == s + 1 + |f.timestamp|
    requires OneOrMore(f.timestamp, Dot) && LitAt(line, s, "[") && LitAt(line, s + 1, f.timestamp)
    requires LitAt(line, k, PatternFrom(Groups(f), 1)) && ClassesFrom(Groups(f), 1)
    ensures Occurs(line, s, f)
  {
    OccursSplit(line, s, f, k);
  }

  /**
   * A match starts with `[`, and its timestamp is the text after it, a run
   * of `.` that lies inside the line.
   */
  lemma OccursBounds(line: string, s: nat, f: LogEntry)
    requires Occurs(line, s, f)
    ensures s + 2 <= s + 1 + |f.timestamp| <= |line| && line[s] == '['
    ensures f.timestamp == line[s + 1 .. s + 1 + |f.timestamp|]
    ensures forall i :: s + 1 <= i < s + 1 + |f.timestamp| ==> InClass(line[i], Dot)
  {
    var k := s + 1 + |f.timestamp|;
    OccursSplit(line, s, f, k);
    LitAtChar(line, s, "[", 0);
    LitAtIff(line, k, PatternFrom(Groups(f), 1));
    LitAtSlice(line, s + 1, k);
    SameSliceAt(line, s + 1, f.timestamp, line[s + 1 .. k]);
    forall i | s + 1 <= i < k ensures InClass(line[i], Dot) {
      assert line[i] == f.timestamp[i - (s + 1)];
    }
  }

  /** What the scanner finds after a timestamp ending at `k` is a match at `s`. */
  lemma TsEndSound(line: string, s: nat, k: nat, hs: seq<string>)
    requires s + 2 <= k <= |line| && line[s] == '['
    requires forall i :: s + 1 <= i < k ==> InClass(line[i], Dot)
    requires ScanFrom(line, k, TsGroups(line, s, k), 1) == Some(hs)
    ensures Occurs(line, s, Entry(hs)) && Entry(hs).timestamp == line[s + 1 .. k]
  {
    var gs := TsGroups(line, s, k);
    ScanFromSound(line, k, gs, 1, hs);
    ScanFromKeeps(line, k, gs, 1, hs, 0);
    var f := Entry(hs);
    SliceInClass(line, s + 1, k, Dot);
    LitAtSlice(line, s + 1, k);
    LitAtIff(line, s, "[");
    OccursIntro(line, s, f, k);
  }

  /** The scanner finds something after the timestamp of every match. */
  lemma TsEndFound(line: string, s: nat, k: nat, g: LogEntry)
    requires Occurs(line, s, g) && k == s + 1 + |g.timestamp|
    ensures s + 2 <= k <= |line|
    ensures ScanFrom(line, k, TsGroups(line, s, k), 1).Some?
  {
    OccursBounds(line, s, g);
    OccursSplit(line, s, g, k);
    ScanFromComplete(line, k, TsGroups(line, s, k), Groups(g), 1);
  }

  /**
   * Every match at `s` whose timestamp ends at `k` agrees with what the
   * scanner finds there, `hs`, but for a message that is no longer, and is
   * the same match when the messages are equally long.
   */
  lemma TsEndAgree(line: string, s: nat, k: nat, g: LogEntry, hs: seq<string>)
    requires Occurs(line, s, g) && k == s + 1 + |g.timestamp| && s < k <= |line|
    requires ScanFrom(line, k, TsGroups(line, s, k), 1) == Some(hs)
    ensures g.timestamp == Entry(hs).timestamp
    ensures |g.message| <= |Entry(hs).message|
    ensures |g.message| == |Entry(hs).message| ==> g == Entry(hs)
  {
    OccursBounds(line, s, g);
    OccursSplit(line, s, g, k);
    var gs := TsGroups(line, s, k);
    ScanFromComplete(line, k, gs, Groups(g), 1);
    ScanFromKeeps(line, k, gs, 1, hs, 0);
    LitAtSlice(line, s + 1, k);
    SameSliceAt(line, s + 1, g.timestamp, line[s + 1 .. k]);
    if |g.message| == |Entry(hs).message| {
      assert Groups(g) == hs;
    }
  }

  /** Among the matches at `s` with the timestamp of `f`, `f` has the one longest message. */
  ghost predicate LongestMessage(line: string, s: nat, f: LogEntry) {
    forall g :: Occurs(line, s, g) && g.timestamp == f.timestamp ==>
      |g.message| <= |f.message| && (|g.message| == |f.message| ==> g == f)
  }

  /** No match at `s` has its timestamp end at `k` or later. */
  ghost predicate NoMatchFrom(line: string, s: nat, k: nat) {
    forall g :: Occurs(line, s, g) ==> s + 1 + |g.timestamp| < k
  }

  /**
   * `f` is the match at `s` that the lazy timestamp picks among those whose
   * timestamp ends at `k` or later: the shortest timestamp, and with it the
   * longest message.
   */
  ghost predicate LazyFrom(line: string, s: nat, k: nat, f: LogEntry) {
    && Occurs(line, s, f)
    && (forall g :: Occurs(line, s, g) && k <= s + 1 + |g.timestamp| ==> |f.timestamp| <= |g.timestamp|)
    && LongestMessage(line, s, f)
  }

  /** No timestamp ends past the end of the line. */
  lemma NoMatchPastEnd(line: string, s: nat, k: nat)
    requires k > |line|
    ensures NoMatchFrom(line, s, k)
  {
    forall g | Occurs(line, s, g) ensures s + 1 + |g.timestamp| < k {
      OccursBounds(line, s, g);
    }
  }

  /** No timestamp runs across a line terminator at `k - 1`. */
  lemma NoMatchPastTerminator(line: string, s: nat, k: nat)
    requires s < k <= |line| && !InClass(line[k - 1], Dot)
    ensures NoMatchFrom(line, s, k)
  {
    forall g | Occurs(line, s, g) ensures s + 1 + |g.timestamp| < k {
      OccursBounds(line, s, g);
    }
  }

  /** The scanner's find after the timestamp ending at `k` has the longest message there. */
  lemma LongestAtEnd(line: string, s: nat, k: nat, hs: seq<string>)
    requires s + 2 <= k <= |line|
    requires ScanFrom(line, k, TsGroups(line, s, k), 1) == Some(hs)
    requires Entry(hs).timestamp == line[s + 1 .. k]
    ensures LongestMessage(line, s, Entry(hs))
  {
    var f := Entry(hs);
    forall g | Occurs(line, s, g) && g.timestamp == f.timestamp
      ensures |g.message| <= |f.message| && (|g.message| == |f.message| ==> g == f)
    {
      TsEndAgree(line, s, k, g, hs);
    }
  }

  /** The scanner's find after the timestamp ending at `k` is the lazy pick from `k` on. */
  lemma MatchAtEnd(line: string, s: nat, k: nat, hs: seq<string>)
    requires s + 2 <= k <= |line| && line[s] == '['
    requires forall i :: s + 1 <= i < k ==> InClass(line[i], Dot)
    requires ScanFrom(line, k, TsGroups(line, s, k), 1) == Some(hs)
    ensures LazyFrom(line, s, k, Entry(hs))
  {
    TsEndSound(line, s, k, hs);
    LongestAtEnd(line, s, k, hs);
  }

  /** When the scanner finds nothing after the timestamp ending at `k`, no match has it. */
  lemma NoMatchAtEnd(line: string, s: nat, k: nat)
    requires s + 2 <= k <= |line|
    requires ScanFrom(line, k, TsGroups(line, s, k), 1).None?
    ensures forall g :: Occurs(line, s, g) ==> s + 1 + |g.timestamp| != k
  {
    forall g | Occurs(line, s, g) ensures s + 1 + |g.timestamp| != k {
      if s + 1 + |g.timestamp| == k {
        TsEndFound(line, s, k, g);
        assert false;
      }
    }
  }

  /**
   * `MatchFrom` tries the timestamp ends from `k` on: it finds the lazy pick
   * from `k` on, and nothing only when no timestamp ends at `k` or later.
   */
  lemma {:induction false} MatchFromCorrect(line: string, s: nat, k: nat, r: Option<LogEntry>)
    requires s + 2 <= k <= |line| + 1 && line[s] == '['
    requires forall i :: s + 1 <= i < k - 1 ==> InClass(line[i], Dot)
    requires r == MatchFrom(line, s, k)
    ensures r.None? ==> NoMatchFrom(line, s, k)
    ensures r.Some? ==> LazyFrom(line, s, k, r.value)
    decreases |line| + 1 - k
  {
    if k > |line| {
      NoMatchPastEnd(line, s, k);
    } else if !InClass(line[k - 1], Dot) {
      NoMatchPastTerminator(line, s, k);
    } else {
      var gs := TsGroups(line, s, k);
      match ScanFrom(line, k, gs, 1)
      case Some(hs) =>
        MatchAtEnd(line, s, k, hs);
      case None =>
        NoMatchAtEnd(line, s, k);
        MatchFromCorrect(line, s, k + 1, r);
    }
  }

  /** No match starts at a position in `[lo, hi)`. */
  ghost predicate NoMatchIn(line: string, lo: nat, hi: nat) {
    forall s: nat, g :: lo <= s < hi ==> !Occurs(line, s, g)
  }

  /** No match starts at `s0` when `Scan` passes over it. */
  lemma NoMatchHere(line: string, s0: nat)
    requires s0 < |line|
    requires line[s0] != '[' || MatchFrom(line, s0, s0 + 2).None?
    ensures forall g :: !Occurs(line, s0, g)
  {
    forall g | Occurs(line, s0, g) ensures false {
      OccursBounds(line, s0, g);
      MatchFromCorrect(line, s0, s0 + 2, MatchFrom(line, s0, s0 + 2));
    }
  }

  /**
   * What `Scan` from `s0` promises: the leftmost start of a match at `s0` or
   * later and there the lazy pick, or nothing when no match starts there.
   */
  ghost predicate ScanSpec(line: string, s0: nat, r: Option<Found>) {
    && (r.None? ==> NoMatchIn(line, s0, |line|))
    && (r.Some? ==>
      && s0 <= r.value.start
      && NoMatchIn(line, s0, r.value.start)
      && LazyFrom(line, r.value.start, r.value.start + 2, r.value.entry))
  }

  /** When a match starts at `s0`, `Scan` reports it. */
  lemma ScanFoundHere(line: string, s0: nat, r: Option<Found>)
    requires s0 < |line| && line[s0] == '[' && MatchFrom(line, s0, s0 + 2).Some?
    requires r == Scan(line, s0)
    ensures ScanSpec(line, s0, r)
  {
    MatchFromCorrect(line, s0, s0 + 2, MatchFrom(line, s0, s0 + 2));
  }

  /** When no match starts at `s0`, what `Scan` promises from `s0 + 1` holds from `s0`. */
  lemma ScanSkipHere(line: string, s0: nat, r: Option<Found>)
    requires s0 < |line|
    requires forall g :: !Occurs(line, s0, g)
    requires ScanSpec(line, s0 + 1, r)
    ensures ScanSpec(line, s0, r)
  {
  }

  /** `Scan` keeps its promise from every start position. */
  lemma {:induction false} ScanCorrect(line: string, s0: nat, r: Option<Found>)
    requires r == Scan(line, s0)
    ensures ScanSpec(line, s0, r)
    decreases |line| - s0
  {
    if s0 < |line| {
      if line[s0] == '[' && MatchFrom(line, s0, s0 + 2).Some? {
        ScanFoundHere(line, s0, r);
      } else {
        NoMatchHere(line, s0);
        ScanCorrect(line, s0 + 1, r);
        ScanSkipHere(line, s0, r);
      }
    }
  }

  /**
   * The scanner reports exactly the match the regular expression engine
   * reports: `Scan(line, 0)` finds `f` at `s` if and only if `IsRegexMatch`.
   */
  lemma ScanIsRegexMatch(line: string, s: nat, f: LogEntry)
    ensures Scan(line, 0) == Some(Found(s, f)) <==> IsRegexMatch(line, s, f)
  {
    var r := Scan(line, 0);
    ScanCorrect(line, 0, r);
    if Occurs(line, s, f) {
      OccursBounds(line, s, f);
    }
    if r == Some(Found(s, f)) {
      forall g | Occurs(line, s, g) ensures |f.timestamp| <= |g.timestamp| {
        OccursBounds(line, s, g);
      }
    }
    if IsRegexMatch(line, s, f) {
      var m := r.value;
      assert m.start == s;
      OccursBounds(line, s, f);
      OccursBounds(line, s, m.entry);
      assert m.entry.timestamp == f.timestamp;
    }
  }

  // What `parseLogLine` returns, in terms of the pattern.

  /** `parseLogLine` returns the captures of the match the engine reports, and only those. */
  lemma ParseLogLineIsRegexMatch(line: string, f: LogEntry)
    ensures ParseLogLine(line) == Some(f) <==> exists s: nat :: IsRegexMatch(line, s, f)
  {
    var r := Scan(line, 0);
    if r.Some? && r.value.entry == f {
      ScanIsRegexMatch(line, r.value.start, f);
    }
    if s: nat :| IsRegexMatch(line, s, f) {
      ScanIsRegexMatch(line, s, f);
    }
  }

  /** `parseLogLine` returns null exactly when the pattern matches nowhere in the line. */
  lemma ParseLogLineNone(line: string)
    ensures ParseLogLine(line).None? <==> !Matches(line)
  {
    var r := Scan(line, 0);
    ScanCorrect(line, 0, r);
    if r.None? {
      forall s: nat, g | Occurs(line, s, g) ensures false {
        OccursBounds(line, s, g);
      }
    } else {
      assert Occurs(line, r.value.start, r.value.entry);
    }
  }

  /** The engine reports at most one match per line. */
  lemma RegexMatchUnique(line: string, s1: nat, f1: LogEntry, s2: nat, f2: LogEntry)
    requires IsRegexMatch(line, s1, f1) && IsRegexMatch(line, s2, f2)
    ensures s1 == s2 && f1 == f2
  {
    ScanIsRegexMatch(line, s1, f1);
    ScanIsRegexMatch(line, s2, f2);
  }

  // A rendered entry read back out of a line.

  /** A rendered entry occurs in the middle of the text that embeds it. */
  lemma LitAtMiddle(pre: string, u: string, post: string)
    ensures LitAt(pre + u + post, |pre|, u)
  {
    var line := pre + u + post;
    forall j | 0 <= j < |u| ensures line[|pre| + j] == u[j] {
    }
    LitAtIff(line, |pre|, u);
  }

  /** The timestamp of a match is followed by `]`. */
  lemma TimestampCloses(line: string, s: nat, g: LogEntry)
    requires Occurs(line, s, g)
    ensures s + 1 + |g.timestamp| < |line| && line[s + 1 + |g.timestamp|] == ']'
  {
    var k := s + 1 + |g.timestamp|;
    OccursSplit(line, s, g, k);
    PatternStep(line, k, Groups(g), 1, k + |Lit(1)|, k + |Lit(1)| + |g.vehicleId|);
    LitAtChar(line, k, Lit(1), 0);
  }

  /** A match ends with `]`, one place before the end of its rendering. */
  lemma MatchCloses(line: string, s: nat, g: LogEntry)
    requires Occurs(line, s, g)
    ensures s + |Render(g)| <= |line| && line[s + |Render(g)| - 1] == ']'
  {
    LitAtChar(line, s, Render(g), |Render(g)| - 1);
  }

  /**
   * Of two matches at `s` that agree on everything but the message, the one
   * with no `]` after its end has the longer message.
   */
  lemma MessageBounded(line: string, s: nat, f: LogEntry, g: LogEntry)
    requires Occurs(line, s, f) && Occurs(line, s, g)
    requires g.timestamp == f.timestamp && g.vehicleId == f.vehicleId
    requires g.level == f.level && g.code == f.code
    requires forall i :: s + |Render(f)| <= i < |line| ==> line[i] != ']'
    ensures |g.message| <= |f.message|
  {
    MatchCloses(line, s, g);
  }

  /** The scanner's find after the timestamp of a match has that match's other groups. */
  lemma ScanGroupsAgree(line: string, s: nat, f: LogEntry, k: nat, hs: seq<string>)
    requires Occurs(line, s, f) && k == s + 1 + |f.timestamp| && k <= |line|
    requires ScanFrom(line, k, TsGroups(line, s, k), 1) == Some(hs)
    ensures hs[1] == f.vehicleId && hs[2] == f.level && hs[3] == f.code
  {
    OccursSplit(line, s, f, k);
    ScanFromComplete(line, k, TsGroups(line, s, k), Groups(f), 1);
  }

  /** With no `]` after a match, the scanner's find after its timestamp is that match. */
  lemma ScanFindsMatch(line: string, s: nat, f: LogEntry, k: nat, hs: seq<string>)
    requires Occurs(line, s, f) && k == s + 1 + |f.timestamp|
    requires s + 2 <= k <= |line| && line[s] == '['
    requires forall i :: s + 1 <= i < k ==> InClass(line[i], Dot)
    requires forall i :: s + |Render(f)| <= i < |line| ==> line[i] != ']'
    requires ScanFrom(line, k, TsGroups(line, s, k), 1) == Some(hs)
    ensures Entry(hs) == f
  {
    TsEndSound(line, s, k, hs);
    ScanGroupsAgree(line, s, f, k, hs);
    TsEndAgree(line, s, k, f, hs);
    MessageBounded(line, s, f, Entry(hs));
  }

  /** With no `]` after it, a match has the longest message among those with its timestamp. */
  lemma LongestWithoutLaterClose(line: string, s: nat, f: LogEntry)
    requires Occurs(line, s, f)
    requires forall i :: s + |Render(f)| <= i < |line| ==> line[i] != ']'
    ensures forall g :: Occurs(line, s, g) && g.timestamp == f.timestamp ==> |g.message| <= |f.message|
  {
    var k := s + 1 + |f.timestamp|;
    OccursBounds(line, s, f);
    TsEndFound(line, s, k, f);
    var hs := ScanFrom(line, k, TsGroups(line, s, k), 1).value;
    ScanFindsMatch(line, s, f, k, hs);
    forall g | Occurs(line, s, g) && g.timestamp == f.timestamp ensures |g.message| <= |f.message| {
      TsEndAgree(line, s, k, g, hs);
    }
  }

  /**
   * An entry rendered into a line is read back verbatim when nothing before
   * it opens a `[`, its timestamp holds no `]` and nothing after it holds a
   * `]`; its message may hold `]`.
   */
  lemma ParseEmbedded(pre: string, f: LogEntry, post: string)
    requires Captures(f)
    requires '[' !in pre && ']' !in f.timestamp && ']' !in post
    ensures ParseLogLine(pre + Render(f) + post) == Some(f)
  {
    var line := pre + Render(f) + post;
    var s := |pre|;
    LitAtMiddle(pre, Render(f), post);
    assert Occurs(line, s, f);
    OccursBounds(line, s, f);
    forall s': nat, g | s' < s ensures !Occurs(line, s', g) {
      if Occurs(line, s', g) {
        OccursBounds(line, s', g);
      }
    }
    forall g | Occurs(line, s, g) ensures |f.timestamp| <= |g.timestamp| {
      if |g.timestamp| < |f.timestamp| {
        TimestampCloses(line, s, g);
      }
    }
    forall i | s + |Render(f)| <= i < |line| ensures line[i] != ']' {
      assert line[i] == post[i - s - |Render(f)|];
    }
    LongestWithoutLaterClose(line, s, f);
    ScanIsRegexMatch(line, s, f);
  }
}
