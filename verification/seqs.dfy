/**
 * The two JavaScript array and string operations the log service is built
 * from: `Array.prototype.filter`, and `String.prototype.split` with a
 * one-character separator.
 */
module Seqs {

  /** `s.filter(p)`: the elements of `s` that satisfy `p`, in their order. */
  function Filter<T>(s: seq<T>, p: T -> bool): (r: seq<T>)
    ensures |r| <= |s|
  {
    if s == [] then [] else (if p(s[0]) then [s[0]] else []) + Filter(s[1..], p)
  }

  /** Filtering a concatenation filters each part; with the singleton case this fixes `Filter`. */
  lemma {:induction false} FilterConcat<T>(a: seq<T>, b: seq<T>, p: T -> bool)
    ensures Filter(a + b, p) == Filter(a, p) + Filter(b, p)
  {
    if a != [] {
      assert (a + b)[1..] == a[1..] + b;
      FilterConcat(a[1..], b, p);
    } else {
      assert a + b == b;
    }
  }

  /** A non-empty sequence is its front followed by its last element. */
  lemma SnocLast<T>(s: seq<T>)
    requires s != []
    ensures s == s[.. |s| - 1] + [s[|s| - 1]]
  {
  }

  /** A non-empty sequence is its head followed by its tail. */
  lemma ConsHead<T>(s: seq<T>)
    requires s != []
    ensures s == [s[0]] + s[1..]
  {
  }

  /** Putting the same head in front of two sequences keeps what their filters differ by. */
  lemma FilterConsAppend<T>(h: T, t: seq<T>, u: seq<T>, extra: seq<T>, p: T -> bool)
    requires Filter(u, p) == Filter(t, p) + extra
    ensures Filter([h] + u, p) == Filter([h] + t, p) + extra
  {
    var head := if p(h) then [h] else [];
    FilterCons(h, u, p);
    FilterCons(h, t, p);
    AppendAssoc(head, Filter(t, p), extra);
  }

  lemma AppendAssoc<T>(a: seq<T>, b: seq<T>, c: seq<T>)
    ensures a + (b + c) == (a + b) + c
  {
  }

  /** Filtering a sequence with head `h` decides `h` and filters the rest. */
  lemma FilterCons<T>(h: T, t: seq<T>, p: T -> bool)
    ensures Filter([h] + t, p) == (if p(h) then [h] else []) + Filter(t, p)
  {
    assert ([h] + t)[1..] == t;
  }

  /** Filtering one element keeps it exactly when it satisfies `p`. */
  lemma FilterOne<T>(x: T, p: T -> bool)
    ensures Filter([x], p) == if p(x) then [x] else []
  {
    assert [x][1..] == [];
  }

  /** Appending one element to the filtered sequence. */
  lemma FilterSnoc<T>(s: seq<T>, x: T, p: T -> bool)
    ensures Filter(s + [x], p) == Filter(s, p) + (if p(x) then [x] else [])
  {
    FilterConcat(s, [x], p);
    FilterOne(x, p);
  }

  /** Each element occurs in the result as often as in `s` when it satisfies `p`, and never otherwise. */
  lemma {:induction false} FilterMultiset<T>(s: seq<T>, p: T -> bool, x: T)
    ensures multiset(Filter(s, p))[x] == if p(x) then multiset(s)[x] else 0
  {
    if s != [] {
      FilterMultiset(s[1..], p, x);
      var head := if p(s[0]) then [s[0]] else [];
      assert multiset(Filter(s, p)) == multiset(head) + multiset(Filter(s[1..], p));
      assert s == [s[0]] + s[1..];
      assert multiset(s) == multiset{s[0]} + multiset(s[1..]);
    }
  }

  /** Filters that agree on every element agree on every sequence. */
  lemma {:induction false} FilterExt<T>(s: seq<T>, p: T -> bool, q: T -> bool)
    requires forall x :: p(x) == q(x)
    ensures Filter(s, p) == Filter(s, q)
  {
    if s != [] {
      FilterExt(s[1..], p, q);
    }
  }

  /** Filtering twice is filtering once by the conjunction. */
  lemma {:induction false} FilterFilter<T>(s: seq<T>, p: T -> bool, q: T -> bool, r: T -> bool)
    requires forall x :: r(x) == (p(x) && q(x))
    ensures Filter(Filter(s, p), q) == Filter(s, r)
  {
    if s != [] {
      FilterFilter(s[1..], p, q, r);
      var head := if p(s[0]) then [s[0]] else [];
      FilterConcat(head, Filter(s[1..], p), q);
      if p(s[0]) {
        FilterOne(s[0], q);
      }
    }
  }

  /** A filter every element passes keeps the whole sequence. */
  lemma {:induction false} FilterAll<T>(s: seq<T>, p: T -> bool)
    requires forall x :: x in s ==> p(x)
    ensures Filter(s, p) == s
  {
    if s != [] {
      FilterAll(s[1..], p);
    }
  }

  /** `s.split(c)`: the pieces between the occurrences of `c`; always at least one. */
  function Split(s: string, c: char): (parts: seq<string>)
    ensures |parts| >= 1
  {
    if s == [] then [[]]
    else
      var rest := Split(s[1..], c);
      if s[0] == c then [[]] + rest
      else [[s[0]] + rest[0]] + rest[1..]
  }

  /** `parts.join(c)`. */
  function Join(parts: seq<string>, c: char): string
    requires |parts| >= 1
  {
    if |parts| == 1 then parts[0] else parts[0] + [c] + Join(parts[1..], c)
  }

  /** No piece of a split holds the separator, and joining the pieces gives back the text. */
  lemma {:induction false} SplitJoin(s: string, c: char)
    ensures forall i :: 0 <= i < |Split(s, c)| ==> c !in Split(s, c)[i]
    ensures Join(Split(s, c), c) == s
  {
    if s != [] {
      SplitJoin(s[1..], c);
      var rest := Split(s[1..], c);
      if s[0] == c {
        assert ([[]] + rest)[1..] == rest;
      } else {
        var parts := [[s[0]] + rest[0]] + rest[1..];
        assert parts[1..] == rest[1..];
        if |rest| > 1 {
          assert Join(rest, c) == rest[0] + [c] + Join(rest[1..], c);
        }
        assert s == [s[0]] + s[1..];
      }
    }
  }

  /** Pieces free of the separator come back unchanged from joining and splitting. */
  lemma {:induction false} JoinSplit(parts: seq<string>, c: char)
    requires |parts| >= 1
    requires forall i :: 0 <= i < |parts| ==> c !in parts[i]
    ensures Split(Join(parts, c), c) == parts
  {
    if |parts| == 1 {
      SplitPiece(parts[0], c, []);
      assert parts[0] + [] == parts[0];
    } else {
      JoinSplit(parts[1..], c);
      SplitPiece(parts[0], c, [c] + Join(parts[1..], c));
      assert parts[0] + [c] + Join(parts[1..], c) == parts[0] + ([c] + Join(parts[1..], c));
      assert ([c] + Join(parts[1..], c))[1..] == Join(parts[1..], c);
      assert parts == [parts[0]] + parts[1..];
    }
  }

  /** Splitting a text that starts with a separator-free piece `u` and then `t`. */
  lemma {:induction false} SplitPiece(u: string, c: char, t: string)
    requires c !in u
    requires t == [] || t[0] == c
    ensures t == [] ==> Split(u + t, c) == [u]
    ensures t != [] ==> Split(u + t, c) == [u] + Split(t[1..], c)
  {
    if u != [] {
      assert (u + t)[1..] == u[1..] + t;
      SplitPiece(u[1..], c, t);
      assert u == [u[0]] + u[1..];
    } else {
      assert u + t == t;
    }
  }
}
