/** The selection steps of the quantum training pipeline: top-k features by variance,
    capped class-aware sampling, and the choice of scores for evaluation. */
module Solver {
  import opened Results
  import opened Sequences
  import opened Matrices
  import Metrics

  // ---------------------------------------------------------------------------
  // Feature selection by variance

  /** The indices in `order` are ascending by variance. */
  predicate SortedByVariance(v: seq<real>, order: seq<int>)
  {
    && (forall k :: 0 <= k < |order| ==> 0 <= order[k] < |v|)
    && (forall i, j :: 0 <= i < j < |order| ==> v[order[i]] <= v[order[j]])
  }

  /** What `np.argsort(v)` may return: a rearrangement of 0..|v|-1, ascending by value.
      numpy's default sort does not fix the order among equal variances. */
  predicate IsArgsort(v: seq<real>, order: seq<int>)
  {
    multiset(order) == multiset(Range(|v|)) && SortedByVariance(v, order)
  }

  /** The first position of `s` whose variance exceeds that of index `i` (|s| if none). */
  function InsertPosition(v: seq<real>, s: seq<int>, i: int): (p: nat)
    requires 0 <= i < |v|
    requires forall k :: 0 <= k < |s| ==> 0 <= s[k] < |v|
    ensures p <= |s|
    ensures forall k :: 0 <= k < p ==> v[s[k]] <= v[i]
    ensures p < |s| ==> v[s[p]] > v[i]
  {
    if |s| == 0 || v[s[0]] > v[i] then 0 else 1 + InsertPosition(v, s[1..], i)
  }

  /** Position `k` of `s` with `i` spliced in at `p`. */
  lemma SpliceAt(s: seq<int>, i: int, p: nat, k: int)
    requires p <= |s| && 0 <= k <= |s|
    ensures |s[..p] + [i] + s[p..]| == |s| + 1
    ensures (s[..p] + [i] + s[p..])[k] == if k < p then s[k] else if k == p then i else s[k - 1]
  {
  }

  /** Splicing `i` in at its insert position keeps the indices sorted by variance. */
  lemma SpliceSorted(v: seq<real>, s: seq<int>, i: int, p: nat)
    requires 0 <= i < |v| && SortedByVariance(v, s)
    requires p == InsertPosition(v, s, i)
    ensures SortedByVariance(v, s[..p] + [i] + s[p..])
  {
    var r := s[..p] + [i] + s[p..];
    forall k | 0 <= k < |r| ensures 0 <= r[k] < |v| {
      SpliceAt(s, i, p, k);
    }
    forall a, b | 0 <= a < b < |r| ensures v[r[a]] <= v[r[b]] {
      SpliceAt(s, i, p, a);
      SpliceAt(s, i, p, b);
      if b < p {
        assert v[s[a]] <= v[s[b]];
      } else if a < p && b == p {
        assert v[s[a]] <= v[i];
      } else if a < p {
        assert v[s[a]] <= v[s[b - 1]];
      } else if a == p {
        assert v[i] < v[s[p]];
        if b - 1 > p { assert v[s[p]] <= v[s[b - 1]]; }
      } else {
        assert v[s[a - 1]] <= v[s[b - 1]];
      }
    }
  }

  /** Inserts index `i` after every index whose variance is not greater (a stable insertion). */
  function InsertByVariance(v: seq<real>, s: seq<int>, i: int): (r: seq<int>)
    requires 0 <= i < |v|
    requires SortedByVariance(v, s)
    ensures multiset(r) == multiset(s) + multiset{i}
    ensures SortedByVariance(v, r)
  {
    var p := InsertPosition(v, s, i);
    assert s[..p] + s[p..] == s;
    SpliceSorted(v, s, i, p);
    s[..p] + [i] + s[p..]
  }

  /** A stable insertion-sort argsort of the first `n` indices. */
  function ArgsortPrefix(v: seq<real>, n: nat): (r: seq<int>)
    requires n <= |v|
    ensures multiset(r) == multiset(Range(n))
    ensures SortedByVariance(v, r)
  {
    if n == 0 then []
    else
      var r := InsertByVariance(v, ArgsortPrefix(v, n - 1), n - 1);
      assert Range(n) == Range(n - 1) + [n - 1];
      r
  }

  /** An argsort of `v`: one always exists, so requiring one excludes no variance vector. */
  function Argsort(v: seq<real>): (r: seq<int>)
    ensures IsArgsort(v, r)
  {
    ArgsortPrefix(v, |v|)
  }

  /** Facts an argsort gives: every index once, each in range, and nothing else. */
  lemma ArgsortFacts(v: seq<real>, order: seq<int>)
    requires IsArgsort(v, order)
    ensures |order| == |v|
    ensures Distinct(order)
    ensures forall j :: 0 <= j < |v| ==> j in order
  {
    assert |multiset(order)| == |multiset(Range(|v|))|;
    assert Distinct(Range(|v|));
    PermutationKeepsDistinct(order, Range(|v|));
    forall j | 0 <= j < |v| ensures j in order {
      assert Range(|v|)[j] == j;
      assert j in multiset(Range(|v|));
    }
  }

  /** Where Python's slice `a[-n:]` starts on a sequence of length d. */
  function NegativeSliceStart(d: nat, n: int): (start: nat)
    ensures start <= d
    ensures 0 < n <= d ==> start == d - n
    ensures n == 0 ==> start == 0
    ensures n < 0 ==> start == (if -n < d then -n else d)
  {
    var st := -n;
    if st < 0 then (if st + d < 0 then 0 else st + d)
    else if st > d then d else st
  }

  /** The two matrices restricted to the chosen columns, and the columns' indices. */
  datatype Selection = Selection(xTrain: Matrix, xTest: Matrix, indices: seq<int>)

  /** `select_features`: keeps every column when there are at most `nFeatures`; otherwise
      the last `nFeatures` positions of an argsort of the column variances, applied to
      both matrices. `order` is the argsort numpy returned. */
  function SelectFeatures(xTrain: Matrix, xTest: Matrix, nFeatures: int, variances: seq<real>,
                          order: seq<int>): (r: Result<Selection>)
    requires WellFormed(xTrain) && WellFormed(xTest)
    requires |variances| == xTrain.cols
    requires xTrain.cols > nFeatures ==> IsArgsort(variances, order)
    ensures xTrain.cols <= nFeatures ==> r == Ok(Selection(xTrain, xTest, Range(xTrain.cols)))
    ensures xTrain.cols > nFeatures ==>
              var idx := order[NegativeSliceStart(|order|, nFeatures)..];
              && (r.Ok? <==> forall k :: 0 <= k < |idx| ==> InBounds(xTest.cols, idx[k]))
              && (r.Ok? ==> (&& r.value.indices == idx
                             && Ok(r.value.xTrain) == ProjectColumns(xTrain, idx)
                             && Ok(r.value.xTest) == ProjectColumns(xTest, idx)))
  {
    if xTrain.cols <= nFeatures then Ok(Selection(xTrain, xTest, Range(xTrain.cols)))
    else
      ArgsortFacts(variances, order);
      var idx := order[NegativeSliceStart(|order|, nFeatures)..];
      assert forall k :: 0 <= k < |idx| ==> InBounds(xTrain.cols, idx[k]);
      var train := ProjectColumns(xTrain, idx).value;
      var test :- ProjectColumns(xTest, idx);
      Ok(Selection(train, test, idx))
  }

  /** Top-k by variance: for 1 <= nFeatures < d the selection has exactly nFeatures
      distinct column indices, ascending by variance, and no column left out has a
      larger variance than any column chosen. */
  lemma TopVarianceColumns(xTrain: Matrix, xTest: Matrix, nFeatures: int, variances: seq<real>, order: seq<int>)
    requires WellFormed(xTrain) && WellFormed(xTest)
    requires |variances| == xTrain.cols && IsArgsort(variances, order)
    requires 1 <= nFeatures < xTrain.cols
    requires SelectFeatures(xTrain, xTest, nFeatures, variances, order).Ok?
    ensures var idx := SelectFeatures(xTrain, xTest, nFeatures, variances, order).value.indices;
            && |idx| == nFeatures
            && Distinct(idx)
            && (forall k :: 0 <= k < |idx| ==> 0 <= idx[k] < xTrain.cols)
            && (forall i, j :: 0 <= i < j < |idx| ==> variances[idx[i]] <= variances[idx[j]])
            && (forall k, j :: 0 <= k < |idx| && 0 <= j < xTrain.cols && j !in idx ==> variances[j] <= variances[idx[k]])
  {
    ArgsortFacts(variances, order);
    var start := NegativeSliceStart(|order|, nFeatures);
    var idx := order[start..];
    assert idx == SelectFeatures(xTrain, xTest, nFeatures, variances, order).value.indices;
    forall k, j | 0 <= k < |idx| && 0 <= j < xTrain.cols && j !in idx
      ensures variances[j] <= variances[idx[k]]
    {
      assert j in order;
      var m :| 0 <= m < |order| && order[m] == j;
      assert order[start + k] == idx[k];
    }
  }

  /** With nFeatures = 0 the slice `[-0:]` is the whole argsort: every column is kept. */
  lemma ZeroFeaturesKeepsAll(xTrain: Matrix, xTest: Matrix, variances: seq<real>, order: seq<int>)
    requires WellFormed(xTrain) && WellFormed(xTest)
    requires |variances| == xTrain.cols > 0 && IsArgsort(variances, order)
    requires SelectFeatures(xTrain, xTest, 0, variances, order).Ok?
    ensures multiset(SelectFeatures(xTrain, xTest, 0, variances, order).value.indices) == multiset(Range(xTrain.cols))
  {
    assert order[0..] == order;
  }

  // ---------------------------------------------------------------------------
  // Sampling for the quantum kernel

  /** `np.where(y == c)[0]`: the positions holding `c`, ascending. */
  function Where(y: seq<int>, c: int): (r: seq<nat>)
    ensures forall k :: 0 <= k < |r| ==> r[k] < |y| && y[r[k]] == c
    ensures forall i, j :: 0 <= i < j < |r| ==> r[i] < r[j]
    ensures forall p :: 0 <= p < |y| && y[p] == c ==> p in r
    ensures |r| == Occurrences(y, c)
  {
    if |y| == 0 then []
    else
      var n := |y| - 1;
      var prev := Where(y[..n], c);
      if y[n] == c then prev + [n] else prev
  }

  /** The sample sizes: as many frauds as exist up to half the budget (Python's `//`
      by 2, which is floor division and agrees with Dafny's `/` for a positive
      divisor), and normal rows for the rest of the budget. */
  datatype SampleSizes = SampleSizes(nFraud: int, nNormal: int)

  function Sizes(y: seq<int>, maxSamples: int): (s: SampleSizes)
    ensures s.nFraud + s.nNormal == maxSamples
    ensures s.nFraud <= Occurrences(y, 1) && s.nFraud <= maxSamples / 2
    ensures s.nFraud == Occurrences(y, 1) || s.nFraud == maxSamples / 2
    ensures maxSamples >= 0 ==> s.nFraud >= 0 && s.nNormal >= s.nFraud
  {
    var fraud := Occurrences(y, 1);
    var nFraud := if fraud <= maxSamples / 2 then fraud else maxSamples / 2;
    SampleSizes(nFraud, maxSamples - nFraud)
  }

  /** Both draws without replacement can be made: no negative size, and enough normal rows
      (the fraud draw never asks for more than exist). */
  predicate Feasible(y: seq<int>, maxSamples: int)
  {
    var s := Sizes(y, maxSamples);
    s.nFraud >= 0 && s.nNormal <= Occurrences(y, 0)
  }

  /** The labels of the drawn rows. */
  function DrawnLabels(y: seq<int>, draw: seq<nat>): (r: seq<int>)
    requires forall k :: 0 <= k < |draw| ==> draw[k] < |y|
    ensures |r| == |draw| && forall k :: 0 <= k < |draw| ==> r[k] == y[draw[k]]
  {
    seq(|draw|, k requires 0 <= k < |draw| => y[draw[k]])
  }

  lemma {:induction false} DrawnLabelsAppend(y: seq<int>, a: seq<nat>, b: seq<nat>)
    requires RowsOf(y, a)
    requires RowsOf(y, b)
    ensures DrawnLabels(y, a + b) == DrawnLabels(y, a) + DrawnLabels(y, b)
  {
    var ab := a + b;
    assert forall k :: 0 <= k < |ab| ==> ab[k] < |y| by {
      forall k | 0 <= k < |ab| ensures ab[k] < |y| {
        if k >= |a| { assert ab[k] == b[k - |a|]; }
      }
    }
  }

  /** Taking one position out of a draw removes exactly its label from the counts. */
  lemma LabelCountWithout(y: seq<int>, pre: seq<nat>, x: nat, post: seq<nat>, c: int)
    requires RowsOf(y, pre)
    requires RowsOf(y, post)
    requires x < |y|
    ensures Occurrences(DrawnLabels(y, pre + [x] + post), c)
         == Occurrences(DrawnLabels(y, pre + post), c) + Occurrences(DrawnLabels(y, [x]), c)
  {
    DrawnLabelsAppend(y, pre, post);
    DrawnLabelsAppend(y, pre, [x]);
    DrawnLabelsAppend(y, pre + [x], post);
    var lp, lx, lq := DrawnLabels(y, pre), DrawnLabels(y, [x]), DrawnLabels(y, post);
    OccurrencesAppend(lp, lq, c);
    OccurrencesAppend(lp, lx, c);
    OccurrencesAppend(lp + lx, lq, c);
  }

  /** Every drawn position is a row of the data. */
  predicate RowsOf(y: seq<int>, draw: seq<nat>)
  {
    forall k :: 0 <= k < |draw| ==> draw[k] < |y|
  }

  /** Removing the position at `i` from a draw. */
  lemma RemoveAt(y: seq<int>, t: seq<nat>, i: int)
    requires RowsOf(y, t)
    requires 0 <= i < |t|
    ensures t == t[..i] + [t[i]] + t[i + 1..]
    ensures multiset(t[..i] + t[i + 1..]) == multiset(t) - multiset{t[i]}
    ensures RowsOf(y, t[..i]) && RowsOf(y, t[i + 1..]) && RowsOf(y, t[..i] + t[i + 1..])
  {
    assert t == t[..i] + [t[i]] + t[i + 1..];
    var rest := t[..i] + t[i + 1..];
    forall k | 0 <= k < |rest| ensures rest[k] < |y| {
      if k >= i { assert rest[k] == t[k + 1]; }
    }
  }

  /** Shuffling the drawn positions does not change how many of their labels equal `c`. */
  lemma {:induction false} LabelCountsUnderPermutation(y: seq<int>, s: seq<nat>, t: seq<nat>, c: int)
    requires RowsOf(y, s)
    requires RowsOf(y, t)
    requires multiset(s) == multiset(t)
    ensures Occurrences(DrawnLabels(y, s), c) == Occurrences(DrawnLabels(y, t), c)
  {
    if |s| == 0 {
      assert |t| == |multiset(t)| == 0;
    } else {
      var n := |s| - 1;
      var i := MatchLast(y, s, t);
      var x, pre, post := s[n], t[..i], t[i + 1..];
      LabelCountsUnderPermutation(y, s[..n], pre + post, c);
      var nx := Occurrences(DrawnLabels(y, [x]), c);
      assert Occurrences(DrawnLabels(y, s), c) == Occurrences(DrawnLabels(y, s[..n]), c) + nx by {
        LabelCountWithout(y, s[..n], x, [], c);
        assert s[..n] + [x] + [] == s && s[..n] + [] == s[..n];
      }
      assert Occurrences(DrawnLabels(y, t), c) == Occurrences(DrawnLabels(y, pre + post), c) + nx by {
        LabelCountWithout(y, pre, x, post, c);
      }
    }
  }

  /** The last position of `s` sits somewhere in its permutation `t`; without it, the rest
      of `s` is a permutation of the rest of `t`. */
  lemma MatchLast(y: seq<int>, s: seq<nat>, t: seq<nat>) returns (i: nat)
    requires RowsOf(y, s) && RowsOf(y, t)
    requires |s| > 0 && multiset(s) == multiset(t)
    ensures i < |t| && t[i] == s[|s| - 1]
    ensures t == t[..i] + [t[i]] + t[i + 1..]
    ensures multiset(s[..|s| - 1]) == multiset(t[..i] + t[i + 1..])
    ensures RowsOf(y, s[..|s| - 1]) && RowsOf(y, t[..i]) && RowsOf(y, t[i + 1..])
    ensures RowsOf(y, t[..i] + t[i + 1..])
  {
    var n := |s| - 1;
    assert s[n] in multiset(t);
    i :| 0 <= i < |t| && t[i] == s[n];
    RemoveAt(y, s, n);
    RemoveAt(y, t, i);
  }

  /** What `np.random.choice(pool, size, replace=False)` may return when the pool is
      the positions holding `c`: `size` distinct positions of that pool. */
  predicate DrawnFrom(y: seq<int>, c: int, size: int, draw: seq<nat>)
  {
    && |draw| == size
    && Distinct(draw)
    && (forall k :: 0 <= k < |draw| ==> draw[k] in Where(y, c))
  }

  /** The random outcomes of the sampling branch: a fraud draw, a normal draw, and the
      order `np.random.shuffle` leaves their concatenation in. */
  predicate ValidDraws(y: seq<int>, maxSamples: int, fraudDraw: seq<nat>, normalDraw: seq<nat>, shuffled: seq<nat>)
  {
    var s := Sizes(y, maxSamples);
    && DrawnFrom(y, 1, s.nFraud, fraudDraw)
    && DrawnFrom(y, 0, s.nNormal, normalDraw)
    && multiset(shuffled) == multiset(fraudDraw + normalDraw)
  }

  lemma DrawnFromPool(y: seq<int>, c: int, size: int, draw: seq<nat>)
    requires DrawnFrom(y, c, size, draw)
    ensures forall k :: 0 <= k < |draw| ==> draw[k] < |y| && y[draw[k]] == c
  {
    forall k | 0 <= k < |draw| ensures draw[k] < |y| && y[draw[k]] == c {
      var w := Where(y, c);
      assert draw[k] in w;
      var j :| 0 <= j < |w| && w[j] == draw[k];
    }
  }

  /** The shuffled sample is made of rows of the data. */
  lemma ShuffledInRange(y: seq<int>, maxSamples: int, fraudDraw: seq<nat>, normalDraw: seq<nat>, shuffled: seq<nat>)
    requires ValidDraws(y, maxSamples, fraudDraw, normalDraw, shuffled)
    ensures |shuffled| == maxSamples
    ensures forall k :: 0 <= k < |shuffled| ==> shuffled[k] < |y|
  {
    var s := Sizes(y, maxSamples);
    var both := fraudDraw + normalDraw;
    DrawnFromPool(y, 1, s.nFraud, fraudDraw);
    DrawnFromPool(y, 0, s.nNormal, normalDraw);
    assert |shuffled| == |multiset(shuffled)| == |multiset(both)| == |both|;
    forall k | 0 <= k < |shuffled| ensures shuffled[k] < |y| {
      assert shuffled[k] in multiset(both);
      var j :| 0 <= j < |both| && both[j] == shuffled[k];
      if j >= |fraudDraw| { assert both[j] == normalDraw[j - |fraudDraw|]; }
    }
  }

  /** Before the shuffle: the fraud draw followed by the normal draw has `nFraud` fraud
      labels and `nNormal` normal labels. */
  lemma {:induction false} ConcatenatedDrawCounts(y: seq<int>, nFraud: int, nNormal: int, fraudDraw: seq<nat>, normalDraw: seq<nat>)
    requires DrawnFrom(y, 1, nFraud, fraudDraw) && DrawnFrom(y, 0, nNormal, normalDraw)
    ensures RowsOf(y, fraudDraw + normalDraw)
    ensures Occurrences(DrawnLabels(y, fraudDraw + normalDraw), 1) == nFraud
    ensures Occurrences(DrawnLabels(y, fraudDraw + normalDraw), 0) == nNormal
  {
    DrawnFromPool(y, 1, nFraud, fraudDraw);
    DrawnFromPool(y, 0, nNormal, normalDraw);
    var both := fraudDraw + normalDraw;
    forall k | 0 <= k < |both| ensures both[k] < |y| {
      if k >= |fraudDraw| { assert both[k] == normalDraw[k - |fraudDraw|]; }
    }
    var lf := DrawnLabels(y, fraudDraw);
    var ln := DrawnLabels(y, normalDraw);
    DrawnLabelsAppend(y, fraudDraw, normalDraw);
    OccurrencesOfConstant(lf, 1, 0);
    OccurrencesOfConstant(ln, 0, 1);
    OccurrencesAppend(lf, ln, 1);
    OccurrencesAppend(lf, ln, 0);
  }

  /** Whatever the random outcomes, the shuffled sample holds `maxSamples` distinct rows,
      `nFraud` of them fraud rows and `nNormal` of them normal rows. */
  lemma ShuffledDrawFacts(y: seq<int>, maxSamples: int, fraudDraw: seq<nat>, normalDraw: seq<nat>, shuffled: seq<nat>)
    requires ValidDraws(y, maxSamples, fraudDraw, normalDraw, shuffled)
    ensures |shuffled| == maxSamples
    ensures forall k :: 0 <= k < |shuffled| ==> shuffled[k] < |y|
    ensures Distinct(shuffled)
    ensures Occurrences(DrawnLabels(y, shuffled), 1) == Sizes(y, maxSamples).nFraud
    ensures Occurrences(DrawnLabels(y, shuffled), 0) == Sizes(y, maxSamples).nNormal
  {
    var s := Sizes(y, maxSamples);
    var both := fraudDraw + normalDraw;
    ShuffledInRange(y, maxSamples, fraudDraw, normalDraw, shuffled);
    assert Distinct(shuffled) by {
      DrawnFromPool(y, 1, s.nFraud, fraudDraw);
      DrawnFromPool(y, 0, s.nNormal, normalDraw);
      PoolPrefixesDistinct(y, fraudDraw, normalDraw);
      PermutationKeepsDistinct(shuffled, both);
    }
    ConcatenatedDrawCounts(y, s.nFraud, s.nNormal, fraudDraw, normalDraw);
    LabelCountsUnderPermutation(y, both, shuffled, 1);
    LabelCountsUnderPermutation(y, both, shuffled, 0);
  }

  /** `sample_for_quantum`: everything when the data fits the budget; otherwise the rows
      and labels at the shuffled drawn positions, kept paired. The three random outcomes
      only matter on the branch that draws. */
  function SampleForQuantum(x: Matrix, y: seq<int>, maxSamples: int,
                            fraudDraw: seq<nat>, normalDraw: seq<nat>, shuffled: seq<nat>): (r: Result<(Matrix, seq<int>)>)
    requires WellFormed(x) && |x.rows| == |y|
    requires |y| > maxSamples && Feasible(y, maxSamples) ==> ValidDraws(y, maxSamples, fraudDraw, normalDraw, shuffled)
    ensures |y| <= maxSamples ==> r == Ok((x, y))
    ensures |y| > maxSamples ==> (r.Ok? <==> Feasible(y, maxSamples))
    ensures |y| > maxSamples && Sizes(y, maxSamples).nFraud < 0 ==> r == Err(NegativeSampleSize)
    ensures |y| > maxSamples && r.Ok? ==>
              && WellFormed(r.value.0) && r.value.0.cols == x.cols
              && |shuffled| == |r.value.0.rows| == |r.value.1| == maxSamples
              && (forall k :: 0 <= k < maxSamples ==> shuffled[k] < |y|)
              && Distinct(shuffled)
              && (forall k :: 0 <= k < maxSamples ==> r.value.0.rows[k] == x.rows[shuffled[k]] && r.value.1[k] == y[shuffled[k]])
              && Occurrences(r.value.1, 1) == Sizes(y, maxSamples).nFraud
              && Occurrences(r.value.1, 0) == Sizes(y, maxSamples).nNormal
  {
    if |y| <= maxSamples then Ok((x, y))
    else
      var sizes := Sizes(y, maxSamples);
      if sizes.nFraud < 0 then Err(NegativeSampleSize)
      else if sizes.nNormal > Occurrences(y, 0) then Err(SampleLargerThanPopulation)
      else
        ShuffledDrawFacts(y, maxSamples, fraudDraw, normalDraw, shuffled);
        Ok((SelectRows(x, shuffled), DrawnLabels(y, shuffled)))
  }

  lemma {:induction false} OccurrencesOfConstant(s: seq<int>, c: int, d: int)
    requires forall k :: 0 <= k < |s| ==> s[k] == c
    ensures Occurrences(s, c) == |s|
    ensures c != d ==> Occurrences(s, d) == 0
  {
    if |s| > 0 {
      OccurrencesOfConstant(s[..|s| - 1], c, d);
    }
  }

  /** Positions taken from the fraud pool and from the normal pool never coincide. */
  lemma PoolPrefixesDistinct(y: seq<int>, f: seq<nat>, n: seq<nat>)
    requires forall k :: 0 <= k < |f| ==> f[k] < |y| && y[f[k]] == 1
    requires forall k :: 0 <= k < |n| ==> n[k] < |y| && y[n[k]] == 0
    requires Distinct(f) && Distinct(n)
    ensures Distinct(f + n)
  {
    var draw := f + n;
    forall i, j | 0 <= i < j < |draw| ensures draw[i] != draw[j] {
      if j < |f| {
        assert draw[i] == f[i] && draw[j] == f[j];
      } else if i >= |f| {
        assert draw[i] == n[i - |f|] && draw[j] == n[j - |f|];
      } else {
        assert y[draw[i]] == 1 && y[draw[j]] == 0;
      }
    }
  }

  /** Whenever the draws are feasible, valid outcomes exist: the first `nFraud` fraud
      positions and the first `nNormal` normal positions, left in that order. */
  lemma ValidDrawsExist(y: seq<int>, maxSamples: int)
    requires Feasible(y, maxSamples)
    ensures var s := Sizes(y, maxSamples);
            var f := Where(y, 1)[..s.nFraud];
            var n := Where(y, 0)[..s.nNormal];
            ValidDraws(y, maxSamples, f, n, f + n)
  {
    var s := Sizes(y, maxSamples);
    var w1, w0 := Where(y, 1), Where(y, 0);
    var f, n := w1[..s.nFraud], w0[..s.nNormal];
    forall k | 0 <= k < |f| ensures f[k] in w1 { assert f[k] == w1[k]; }
    forall k | 0 <= k < |n| ensures n[k] in w0 { assert n[k] == w0[k]; }
  }

  // ---------------------------------------------------------------------------
  // Evaluation

  /** A trained model as evaluation sees it: hard predictions always, class
      probabilities and a decision function when the model has them. */
  datatype Model = Model(
    predict: Matrix -> seq<Metrics.Label>,
    predictProba: Option<Matrix -> Matrix>,
    decisionFunction: Option<Matrix -> seq<real>>)

  /** `p[:, 1]`: the probability of the fraud class; numpy raises IndexError when there is no column 1. */
  function ClassOneColumn(p: Matrix): (r: Result<seq<real>>)
    ensures r.Ok? <==> WellFormed(p) && p.cols >= 2
    ensures r.Ok? ==> |r.value| == |p.rows| && forall i :: 0 <= i < |p.rows| ==> r.value[i] == p.rows[i][1]
  {
    if WellFormed(p) && p.cols >= 2 then Ok(Column(p, 1)) else Err(IndexOutOfRange(1))
  }

  /** The hard predictions read as scores. */
  function AsScores(labels: seq<Metrics.Label>): (r: seq<real>)
    ensures |r| == |labels| && forall i :: 0 <= i < |labels| ==> r[i] == labels[i] as real
  {
    seq(|labels|, i requires 0 <= i < |labels| => labels[i] as real)
  }

  /** The scores used for AUC: class-1 probabilities if the model has `predict_proba`,
      else its decision function, else its hard predictions. */
  function RankingScores(m: Model, xTest: Matrix): (r: Result<seq<real>>)
    ensures m.predictProba.Some? ==> r == ClassOneColumn(m.predictProba.value(xTest))
    ensures m.predictProba.None? && m.decisionFunction.Some? ==> r == Ok(m.decisionFunction.value(xTest))
    ensures m.predictProba.None? && m.decisionFunction.None? ==> r == Ok(AsScores(m.predict(xTest)))
  {
    match (m.predictProba, m.decisionFunction)
    case (Some(proba), _) => ClassOneColumn(proba(xTest))
    case (None, Some(decision)) => Ok(decision(xTest))
    case (None, None) => Ok(AsScores(m.predict(xTest)))
  }

  /** What `evaluate_model` returns. The AUC values are only printed, and a failure to
      compute them is swallowed, so they do not appear here. */
  datatype Evaluation = Evaluation(
    accuracy: real, precision: real, recall: real, f1: real,
    predictions: seq<Metrics.Label>, probabilities: seq<real>)

  /** `evaluate_model`: predictions, ranking scores, the four scores, then the confusion
      matrix unpack, which fails unless both classes occur. */
  function EvaluateModel(m: Model, xTest: Matrix, yTest: seq<Metrics.Label>): (r: Result<Evaluation>)
    ensures var yPred := m.predict(xTest);
            r.Ok? <==> RankingScores(m, xTest).Ok? && Metrics.ConfusionMatrixComponents(yTest, yPred).Ok?
    ensures r.Ok? ==> var yPred := m.predict(xTest);
              && r.value.predictions == yPred
              && r.value.probabilities == RankingScores(m, xTest).value
              && r.value.accuracy == Metrics.AccuracyScore(yTest, yPred)
              && r.value.precision == Metrics.PrecisionScore(yTest, yPred)
              && r.value.recall == Metrics.RecallScore(yTest, yPred)
              && r.value.f1 == Metrics.F1Score(yTest, yPred)
  {
    var yPred := m.predict(xTest);
    var scores :- RankingScores(m, xTest);
    var _ :- Metrics.ConfusionMatrixComponents(yTest, yPred);
    Ok(Evaluation(Metrics.AccuracyScore(yTest, yPred), Metrics.PrecisionScore(yTest, yPred),
                  Metrics.RecallScore(yTest, yPred), Metrics.F1Score(yTest, yPred), yPred, scores))
  }
}
