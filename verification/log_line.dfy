/**
 * The log line grammar of the log service, as its regular expression
 *
 *   \[(.+?)\] \[VEHICLE_ID:(\d+)\] \[(\w+)\] \[CODE:(\w+)\] \[(.+)\]
 *
 * defines it, stated declaratively: which substrings of a line the pattern
 * matches (`Occurs`), and which of those matches a backtracking JavaScript
 * regular-expression engine reports (`IsRegexMatch`: leftmost start, then the
 * shortest timestamp for the lazy `(.+?)`, then the longest message for the
 * greedy `(.+)`).
 */
module LogLine {

  /** One stored log record: the five captured groups, verbatim. */
  datatype LogEntry = LogEntry(
    timestamp: string,
    vehicleId: string,
    level: string,
    code: string,
    message: string)

  // Character classes of the pattern (no flags: no `u`, no `i`, no `s`).

  /** The characters `.` does not match. */
  predicate IsLineTerminator(c: char) {
    c == '\n' || c == '\r' || c == '\U{2028}' || c == '\U{2029}'
  }

  /** The character classes the pattern uses: `.`, `\d` and `\w`. */
  datatype CharClass = Dot | Digit | Word

  predicate InClass(c: char, cls: CharClass) {
    match cls
    case Dot => !IsLineTerminator(c)
    case Digit => '0' <= c <= '9'
    case Word => 'a' <= c <= 'z' || 'A' <= c <= 'Z' || '0' <= c <= '9' || c == '_'
  }

  /** `s` is one string that `x+` matches, where `x` is the class `cls`. */
  predicate OneOrMore(s: string, cls: CharClass) {
    |s| > 0 && forall i :: 0 <= i < |s| ==> InClass(s[i], cls)
  }

  /** All five groups have the shapes the pattern demands. */
  predicate Captures(f: LogEntry) {
    && OneOrMore(f.timestamp, Dot)
    && OneOrMore(f.vehicleId, Digit)
    && OneOrMore(f.level, Word)
    && OneOrMore(f.code, Word)
    && OneOrMore(f.message, Dot)
  }

  /** The text the pattern matches when its groups capture the fields of `f`. */
  function Render(f: LogEntry): string {
    "[" + f.timestamp + "] [VEHICLE_ID:" + f.vehicleId + "] [" + f.level
    + "] [CODE:" + f.code + "] [" + f.message + "]"
  }

  /** `lit` occurs in `line` at position `k`. */
  predicate LitAt(line: string, k: nat, lit: string) {
    k + |lit| <= |line| && LitFrom(line, k, lit, 0)
  }

  /** The characters of `lit` from offset `i` on occur in `line` at `k + i` on. */
  predicate LitFrom(line: string, k: nat, lit: string, i: nat)
    requires k + |lit| <= |line|
    decreases |lit| - i
  {
    i >= |lit| || (line[k + i] == lit[i] && LitFrom(line, k, lit, i + 1))
  }

  /** The pattern matches `line` at position `s` with captures `f`. */
  ghost predicate Occurs(line: string, s: nat, f: LogEntry) {
    Captures(f) && LitAt(line, s, Render(f))
  }

  /** Some substring of `line` matches the pattern. */
  ghost predicate Matches(line: string) {
    exists s: nat, f :: Occurs(line, s, f)
  }

  /**
   * The match the engine reports: it starts at the leftmost position where the
   * pattern matches at all; among the matches there the timestamp is the
   * shortest; among those the message is the longest.
   */
  ghost predicate IsRegexMatch(line: string, s: nat, f: LogEntry) {
    && Occurs(line, s, f)
    && (forall s': nat, g :: s' < s ==> !Occurs(line, s', g))
    && (forall g :: Occurs(line, s, g) ==> |f.timestamp| <= |g.timestamp|)
    && (forall g :: Occurs(line, s, g) && g.timestamp == f.timestamp ==> |g.message| <= |f.message|)
  }

  // The same pattern as five (literal, group) pairs followed by `]`; the
  // scanner is proved against this form. Group 0 is the timestamp, 1 the
  // vehicle id, 2 the level, 3 the code and 4 the message.

  /** The literal text in front of group `n`. */
  function Lit(n: nat): string
    requires n < 5
  {
    match n
    case 0 => "["
    case 1 => "] [VEHICLE_ID:"
    case 3 => "] [CODE:"
    case _ => "] ["
  }

  /** The character class of group `n`. */
  function Class(n: nat): CharClass
    requires n < 5
  {
    if n == 0 || n == 4 then Dot else if n == 1 then Digit else Word
  }

  /** The five groups of `f`, in the order the pattern captures them. */
  function Groups(f: LogEntry): (gs: seq<string>)
    ensures |gs| == 5
  {
    [f.timestamp, f.vehicleId, f.level, f.code, f.message]
  }

  /** The text of the pattern from group `n` on, for the groups `gs`. */
  function PatternFrom(gs: seq<string>, n: nat): string
    requires |gs| == 5 && n <= 5
    decreases 5 - n
  {
    if n == 5 then "]" else Lit(n) + gs[n] + PatternFrom(gs, n + 1)
  }

  /** Groups `n` to 4 have the shapes of their classes. */
  ghost predicate ClassesFrom(gs: seq<string>, n: nat)
    requires |gs| == 5
  {
    forall i :: n <= i < 5 ==> OneOrMore(gs[i], Class(i))
  }

  /** `LitFrom` holds exactly when every character from offset `i` on agrees. */
  lemma {:induction false} LitFromIff(line: string, k: nat, lit: string, i: nat)
    requires k + |lit| <= |line|
    ensures LitFrom(line, k, lit, i) <==> forall j :: i <= j < |lit| ==> line[k + j] == lit[j]
    decreases |lit| - i
  {
    if i < |lit| {
      LitFromIff(line, k, lit, i + 1);
    }
  }

  /** `LitAt` holds exactly when every character agrees. */
  lemma LitAtIff(line: string, k: nat, lit: string)
    ensures LitAt(line, k, lit) <==> k + |lit| <= |line| && forall j :: 0 <= j < |lit| ==> line[k + j] == lit[j]
  {
    if k + |lit| <= |line| {
      LitFromIff(line, k, lit, 0);
    }
  }

  lemma LitAtConcat(line: string, k: nat, a: string, b: string)
    ensures LitAt(line, k, a + b) <==> LitAt(line, k, a) && LitAt(line, k + |a|, b)
  {
    LitAtIff(line, k, a + b);
    LitAtIff(line, k, a);
    LitAtIff(line, k + |a|, b);
    if LitAt(line, k, a + b) {
      forall j | 0 <= j < |a| ensures line[k + j] == a[j] {
        assert (a + b)[j] == a[j];
      }
      forall j | 0 <= j < |b| ensures line[k + |a| + j] == b[j] {
        assert (a + b)[|a| + j] == b[j];
      }
    }
    if LitAt(line, k, a) && LitAt(line, k + |a|, b) {
      forall j | 0 <= j < |a + b| ensures line[k + j] == (a + b)[j] {
        if j >= |a| {
          assert line[k + |a| + (j - |a|)] == b[j - |a|];
        }
      }
    }
  }

  /** The character at offset `i` of a literal found at `k`. */
  lemma LitAtChar(line: string, k: nat, lit: string, i: int)
    requires LitAt(line, k, lit) && 0 <= i < |lit|
    ensures k + i < |line| && line[k + i] == lit[i]
  {
    LitAtIff(line, k, lit);
  }

  /** Two strings found at the same position with the same length are equal. */
  lemma SameSliceAt(line: string, k: nat, u: string, v: string)
    requires LitAt(line, k, u) && LitAt(line, k, v) && |u| == |v|
    ensures u == v
  {
    LitAtIff(line, k, u);
    LitAtIff(line, k, v);
    forall i | 0 <= i < |u| ensures u[i] == v[i] {
      assert line[k + i] == u[i];
    }
  }

  lemma RenderIsPattern(f: LogEntry)
    ensures Render(f) == PatternFrom(Groups(f), 0)
  {
    var gs := Groups(f);
    calc {
      PatternFrom(gs, 0);
      "[" + f.timestamp + PatternFrom(gs, 1);
      "[" + f.timestamp + ("] [VEHICLE_ID:" + f.vehicleId + PatternFrom(gs, 2));
      "[" + f.timestamp + ("] [VEHICLE_ID:" + f.vehicleId + ("] [" + f.level + PatternFrom(gs, 3)));
      "[" + f.timestamp + ("] [VEHICLE_ID:" + f.vehicleId + ("] [" + f.level
        + ("] [CODE:" + f.code + PatternFrom(gs, 4))));
      "[" + f.timestamp + ("] [VEHICLE_ID:" + f.vehicleId + ("] [" + f.level
        + ("] [CODE:" + f.code + ("] [" + f.message + PatternFrom(gs, 5)))));
      Render(f);
    }
  }

  lemma CapturesIffClasses(f: LogEntry)
    ensures Captures(f) <==> ClassesFrom(Groups(f), 0)
  {
    var gs := Groups(f);
    if ClassesFrom(gs, 0) {
      assert OneOrMore(gs[0], Class(0)) && OneOrMore(gs[1], Class(1)) && OneOrMore(gs[2], Class(2));
      assert OneOrMore(gs[3], Class(3)) && OneOrMore(gs[4], Class(4));
    }
  }

  /**
   * The pattern from group `n` on occurs at `k` exactly when literal `n`,
   * group `n` (at `j`) and the rest of the pattern (at `e`) occur one after
   * another.
   */
  lemma PatternStep(line: string, k: nat, gs: seq<string>, n: nat, j: nat, e: nat)
    requires |gs| == 5 && n < 5
    requires j == k + |Lit(n)| && e == j + |gs[n]|
    ensures LitAt(line, k, PatternFrom(gs, n)) <==>
      LitAt(line, k, Lit(n)) && LitAt(line, j, gs[n]) && LitAt(line, e, PatternFrom(gs, n + 1))
  {
    LitAtConcat(line, k, Lit(n) + gs[n], PatternFrom(gs, n + 1));
    LitAtConcat(line, k, Lit(n), gs[n]);
  }

  /**
   * The literals after the vehicle id, level and code groups start with `]`,
   * which `\d` and `\w` do not hold (`.` does, so the timestamp may contain it).
   */
  lemma NextLitStartsWithClose(n: nat)
    requires 2 <= n <= 4
    ensures Lit(n)[0] == ']' && !InClass(']', Class(n - 1))
  {
    if n == 3 {
      assert Lit(3) == "] [CODE:";
    } else {
      assert Lit(n) == "] [";
    }
  }

  /** A vehicle id, level or code group, ending at `e`, is followed by a `]`, outside its class. */
  lemma GroupEndsAtClose(line: string, k: nat, gs: seq<string>, n: nat, j: nat, e: nat)
    requires |gs| == 5 && 1 <= n <= 3 && LitAt(line, k, PatternFrom(gs, n))
    requires j == k + |Lit(n)| && e == j + |gs[n]|
    ensures e < |line| && !InClass(line[e], Class(n))
  {
    PatternStep(line, k, gs, n, j, e);
    PatternStep(line, e, gs, n + 1, e + |Lit(n + 1)|, e + |Lit(n + 1)| + |gs[n + 1]|);
    NextLitStartsWithClose(n + 1);
    LitAtChar(line, e, Lit(n + 1), 0);
  }
}
