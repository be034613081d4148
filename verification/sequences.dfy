/** Sequence helpers: `range(n)`, repetition-freedom, and counting occurrences with a
    set-cardinality reference definition. */
module Sequences {

  /** Number of positions of `s` holding `x`. */
  function Occurrences<T(==)>(s: seq<T>, x: T): nat
  {
    if |s| == 0 then 0
    else Occurrences(s[..|s| - 1], x) + (if s[|s| - 1] == x then 1 else 0)
  }

  /** The positions of `s` that hold `x`: the independent reference for `Occurrences`. */
  function Positions<T(==)>(s: seq<T>, x: T): set<int>
  {
    set i | 0 <= i < |s| && s[i] == x
  }

  lemma {:induction false} OccurrencesArePositions<T>(s: seq<T>, x: T)
    ensures Occurrences(s, x) == |Positions(s, x)|
  {
    if |s| == 0 {
      assert Positions(s, x) == {};
    } else {
      var n := |s| - 1;
      OccurrencesArePositions(s[..n], x);
      if s[n] == x {
        assert Positions(s, x) == Positions(s[..n], x) + {n};
      } else {
        assert Positions(s, x) == Positions(s[..n], x);
      }
    }
  }

  lemma {:induction false} OccurrencesAppend<T>(a: seq<T>, b: seq<T>, x: T)
    ensures Occurrences(a + b, x) == Occurrences(a, x) + Occurrences(b, x)
    decreases |b|
  {
    if |b| == 0 {
      assert a + b == a;
    } else {
      var n := |b| - 1;
      assert (a + b)[..|a + b| - 1] == a + b[..n];
      OccurrencesAppend(a, b[..n], x);
    }
  }

  /** An element present in the sequence occurs at least once. */
  lemma OccurrencesPositive<T>(s: seq<T>, i: int)
    requires 0 <= i < |s|
    ensures Occurrences(s, s[i]) >= 1
  {
    OccurrencesArePositions(s, s[i]);
    assert i in Positions(s, s[i]);
  }

  lemma {:induction false} OccurrencesBound<T>(s: seq<T>, x: T)
    ensures Occurrences(s, x) <= |s|
  {
    if |s| > 0 {
      OccurrencesBound(s[..|s| - 1], x);
    }
  }

  /** `list(range(n))`; empty for n <= 0. */
  function Range(n: int): (r: seq<int>)
    ensures |r| == (if n > 0 then n else 0)
    ensures forall i :: 0 <= i < |r| ==> r[i] == i
  {
    seq(if n > 0 then n else 0, i => i)
  }

  /** No value occurs twice. */
  predicate Distinct<T(==)>(s: seq<T>)
  {
    forall i, j :: 0 <= i < j < |s| ==> s[i] != s[j]
  }

  lemma {:induction false} DistinctMultiplicity<T>(s: seq<T>, x: T)
    requires Distinct(s)
    ensures multiset(s)[x] == if x in s then 1 else 0
  {
    if |s| > 0 {
      var n := |s| - 1;
      assert s == s[..n] + [s[n]];
      assert Distinct(s[..n]);
      DistinctMultiplicity(s[..n], x);
      assert s[n] !in s[..n];
    }
  }

  /** A repeated value occurs at least twice in the multiset. */
  lemma RepeatMultiplicity<T>(s: seq<T>, i: int, j: int)
    requires 0 <= i < j < |s| && s[i] == s[j]
    ensures multiset(s)[s[i]] >= 2
  {
    assert s == s[..i] + [s[i]] + s[i + 1..j] + [s[j]] + s[j + 1..];
  }

  /** A rearrangement of a repetition-free sequence is repetition-free. */
  lemma PermutationKeepsDistinct<T>(s: seq<T>, t: seq<T>)
    requires multiset(s) == multiset(t) && Distinct(t)
    ensures Distinct(s)
  {
    forall i, j | 0 <= i < j < |s| ensures s[i] != s[j] {
      if s[i] == s[j] {
        RepeatMultiplicity(s, i, j);
        DistinctMultiplicity(t, s[i]);
        assert false;
      }
    }
  }
}
