/**
 * JavaScript's `<` on two strings and the comparator `getLogs` hands to
 * `Array.prototype.sort`.
 */
module Ordering {

  /** `a < b` on strings: lexicographic by character, a proper prefix first. */
  predicate LexLess(a: string, b: string)
    decreases |a|
  {
    if |a| == 0 then |b| > 0
    else if |b| == 0 then false
    else if a[0] != b[0] then a[0] < b[0]
    else LexLess(a[1..], b[1..])
  }

  /** `a` and `b` agree before index `i` and `a` has the smaller character at `i`. */
  ghost predicate LessAt(a: string, b: string, i: nat) {
    i < |a| && i < |b| && a[..i] == b[..i] && a[i] < b[i]
  }

  /**
   * `LexLess` is the string comparison of the language definition: `a` is a
   * proper prefix of `b`, or the first character where they differ is
   * smaller in `a`.
   */
  lemma {:induction false} LexLessIff(a: string, b: string)
    ensures LexLess(a, b) <==> (|a| < |b| && a == b[..|a|]) || exists i: nat :: LessAt(a, b, i)
    decreases |a|
  {
    if |a| > 0 && |b| > 0 {
      if a[0] != b[0] {
        if a[0] < b[0] {
          assert LessAt(a, b, 0);
        }
      } else {
        LexLessIff(a[1..], b[1..]);
        if |a| < |b| && a == b[..|a|] {
          assert a[1..] == b[1..][..|a| - 1];
        }
        if |a| - 1 < |b| - 1 && a[1..] == b[1..][..|a| - 1] {
          assert a == [a[0]] + a[1..] && b[..|a|] == [b[0]] + b[1..][..|a| - 1];
        }
        if i: nat :| LessAt(a[1..], b[1..], i) {
          assert a[..i + 1] == [a[0]] + a[1..][..i];
          assert b[..i + 1] == [b[0]] + b[1..][..i];
          assert LessAt(a, b, i + 1);
        }
        if i: nat :| LessAt(a, b, i) {
          assert i > 0;
          assert a[1..][..i - 1] == a[..i][1..];
          assert b[1..][..i - 1] == b[..i][1..];
          assert LessAt(a[1..], b[1..], i - 1);
        }
      }
    }
  }

  /** No string is below itself. */
  lemma {:induction false} LexLessIrreflexive(a: string)
    ensures !LexLess(a, a)
    decreases |a|
  {
    if |a| > 0 {
      LexLessIrreflexive(a[1..]);
    }
  }

  /** `LexLess` is transitive. */
  lemma {:induction false} LexLessTransitive(a: string, b: string, c: string)
    requires LexLess(a, b) && LexLess(b, c)
    ensures LexLess(a, c)
    decreases |a|
  {
    if |a| > 0 && a[0] == b[0] && b[0] == c[0] {
      LexLessTransitive(a[1..], b[1..], c[1..]);
    }
  }

  /** Two different strings are ordered one way or the other, and never both. */
  lemma {:induction false} LexLessTotal(a: string, b: string)
    ensures a == b || LexLess(a, b) || LexLess(b, a)
    ensures !(LexLess(a, b) && LexLess(b, a))
    decreases |a|
  {
    if |a| > 0 && |b| > 0 && a[0] == b[0] {
      LexLessTotal(a[1..], b[1..]);
      if a[1..] == b[1..] {
        assert a == [a[0]] + a[1..] && b == [b[0]] + b[1..];
      }
    }
  }

  /**
   * The comparator of `getLogs` on two sort keys: `-1`, `1` or `0`, with
   * the signs swapped unless the order is ascending.
   */
  function Compare(ka: string, kb: string, asc: bool): int {
    if LexLess(ka, kb) then (if asc then -1 else 1)
    else if LexLess(kb, ka) then (if asc then 1 else -1)
    else 0
  }

  /**
   * The comparator says "before" exactly when the keys are in the chosen
   * direction, and `0` exactly when the keys are equal.
   */
  lemma CompareMeaning(ka: string, kb: string, asc: bool)
    ensures Compare(ka, kb, asc) < 0 <==> (if asc then LexLess(ka, kb) else LexLess(kb, ka))
    ensures Compare(ka, kb, asc) == 0 <==> ka == kb
  {
    LexLessTotal(ka, kb);
    if ka == kb {
      LexLessIrreflexive(ka);
    }
  }

  /** The comparator is consistent: antisymmetric ... */
  lemma CompareAntisymmetric(ka: string, kb: string, asc: bool)
    ensures Compare(ka, kb, asc) == -Compare(kb, ka, asc)
  {
    LexLessTotal(ka, kb);
  }

  /** ... and transitive, both for "before" and for "not after". */
  lemma CompareTransitive(ka: string, kb: string, kc: string, asc: bool)
    requires Compare(ka, kb, asc) <= 0 && Compare(kb, kc, asc) <= 0
    ensures Compare(ka, kc, asc) <= 0
    ensures Compare(ka, kb, asc) < 0 || Compare(kb, kc, asc) < 0 ==> Compare(ka, kc, asc) < 0
  {
    CompareMeaning(ka, kb, asc);
    CompareMeaning(kb, kc, asc);
    CompareMeaning(ka, kc, asc);
    if Compare(ka, kb, asc) < 0 && Compare(kb, kc, asc) < 0 {
      if asc {
        LexLessTransitive(ka, kb, kc);
      } else {
        LexLessTransitive(kc, kb, ka);
      }
    }
  }
}
