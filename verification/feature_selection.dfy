/** Greedy forward feature selection over an abstract subset scorer, and the
    untrained/trained life cycle of the quantum feature selector. */
module FeatureSelection {
  import opened Results
  import opened Matrices
  import opened Sequences
  import Qsvm

  /** Features the selector takes when no positive maximum is given (a NISQ qubit budget). */
  const QubitBudget: int := 8

  /** `max_features or min(n_features, 8)`: both `None` and `0` are falsy in Python. */
  function DefaultMaxFeatures(nFeatures: int, maxFeatures: Option<int>): (r: int)
    ensures maxFeatures.Some? && maxFeatures.value != 0 ==> r == maxFeatures.value
    ensures (maxFeatures.None? || maxFeatures == Some(0)) ==>
              r <= QubitBudget && r <= nFeatures && (r == QubitBudget || r == nFeatures)
  {
    if maxFeatures.Some? && maxFeatures.value != 0 then maxFeatures.value
    else if nFeatures <= QubitBudget then nFeatures else QubitBudget
  }

  predicate Ascending(s: seq<int>)
  {
    forall i, j :: 0 <= i < j < |s| ==> s[i] < s[j]
  }

  /** `selected` and `remaining` share out the features 0..n-1 between them, without
      repeats; `remaining` keeps the ascending order `list(range(n))` started with. */
  predicate Split(n: int, selected: seq<int>, remaining: seq<int>)
  {
    && Distinct(selected)
    && Ascending(remaining)
    && (forall g :: g in selected ==> 0 <= g < n && g !in remaining)
    && (forall g :: g in remaining ==> 0 <= g < n)
    && (forall g :: 0 <= g < n ==> g in selected || g in remaining)
  }

  /** The split is a permutation: `selected ++ remaining` rearranges `range(n)`. */
  lemma SplitIsPermutation(n: int, selected: seq<int>, remaining: seq<int>)
    requires Split(n, selected, remaining)
    ensures multiset(selected + remaining) == multiset(Range(n))
    ensures |selected| + |remaining| == |Range(n)|
  {
    var all := selected + remaining;
    assert Distinct(all) by {
      forall i, j | 0 <= i < j < |all| ensures all[i] != all[j] {
        if j < |selected| {
        } else if i >= |selected| {
          assert all[i] == remaining[i - |selected|] && all[j] == remaining[j - |selected|];
        } else {
          assert all[i] in selected && all[j] in remaining;
        }
      }
    }
    assert Distinct(Range(n));
    forall x ensures multiset(all)[x] == multiset(Range(n))[x] {
      DistinctMultiplicity(all, x);
      DistinctMultiplicity(Range(n), x);
      assert x in all <==> x in Range(n) by {
        if 0 <= x < n { assert Range(n)[x] == x; }
      }
    }
    assert multiset(all) == multiset(Range(n));
    assert |multiset(all)| == |multiset(Range(n))|;
  }

  /** A split never holds more selected features than there are features. */
  lemma SelectedBounded(n: int, selected: seq<int>, remaining: seq<int>)
    requires Split(n, selected, remaining)
    ensures |selected| <= |Range(n)|
  {
    SplitIsPermutation(n, selected, remaining);
  }

  /** Position of the first occurrence of `x` in `s`. */
  function IndexOf(s: seq<int>, x: int): (p: nat)
    requires x in s
    ensures p < |s| && s[p] == x
    ensures forall i :: 0 <= i < p ==> s[i] != x
  {
    if s[0] == x then 0 else 1 + IndexOf(s[1..], x)
  }

  /** `list.remove(x)`: drops the first occurrence of `x`. */
  function RemoveFirst(s: seq<int>, x: int): (r: seq<int>)
    requires x in s
    ensures |r| == |s| - 1
  {
    var p := IndexOf(s, x);
    s[..p] + s[p + 1..]
  }

  /** Removing a value from an ascending list keeps it ascending and removes exactly that value. */
  lemma RemoveFirstAscending(s: seq<int>, x: int)
    requires Ascending(s) && x in s
    ensures Ascending(RemoveFirst(s, x))
    ensures forall g :: g in RemoveFirst(s, x) <==> g in s && g != x
  {
    var p := IndexOf(s, x);
    var rem := RemoveFirst(s, x);
    assert rem == s[..p] + s[p + 1..];
    assert forall i :: 0 <= i < |rem| ==> rem[i] == (if i < p then s[i] else s[i + 1]);
    forall g ensures g in rem <==> g in s && g != x {
      if g in s && g != x {
        var i := IndexOf(s, g);
        if i < p { assert rem[i] == g; } else { assert rem[i - 1] == g; }
      }
    }
  }

  /** Appending a value not yet present keeps a list repetition-free. */
  lemma AppendDistinct(s: seq<int>, x: int)
    requires Distinct(s) && x !in s
    ensures Distinct(s + [x])
  {
    var t := s + [x];
    forall i, j | 0 <= i < j < |t| ensures t[i] != t[j] {
      if j == |s| { assert t[i] in s; }
    }
  }

  /** Accepting a feature moves it from `remaining` to the end of `selected`;
      the split of 0..n-1 is preserved and earlier selections stay in place. */
  function Accept(n: int, selected: seq<int>, remaining: seq<int>, f: int): (r: (seq<int>, seq<int>))
    requires Split(n, selected, remaining) && f in remaining
    ensures Split(n, r.0, r.1)
    ensures r.0 == selected + [f]
    ensures f !in r.1 && |r.1| == |remaining| - 1
    ensures forall g :: g in r.1 <==> g in remaining && g != f
  {
    var rem := RemoveFirst(remaining, f);
    RemoveFirstAscending(remaining, f);
    AppendDistinct(selected, f);
    (selected + [f], rem)
  }

  /** The score a round has to beat: 0.0 before anything is selected, then the score of
      the features selected so far. */
  function Baseline(score: seq<int> -> real, selected: seq<int>, k: nat): real
    requires k <= |selected|
  {
    if k == 0 then 0.0 else score(selected[..k])
  }

  /** Every accepted feature raised the score strictly above the one before it. */
  predicate StrictlyImproving(score: seq<int> -> real, selected: seq<int>)
  {
    forall k :: 0 <= k < |selected| ==> score(selected[..k + 1]) > Baseline(score, selected, k)
  }

  /** Every accepted feature was a best candidate of its round, scored on
      `selected[..k] ++ [g]`, and among equally good candidates the one earliest in
      `remaining` (the smallest index, since `remaining` stays ascending). */
  predicate GreedyChoices(n: int, score: seq<int> -> real, selected: seq<int>)
  {
    forall k, g :: 0 <= k < |selected| && 0 <= g < n && g !in selected[..k] ==>
      && score(selected[..k] + [g]) <= score(selected[..k + 1])
      && (g < selected[k] ==> score(selected[..k] + [g]) < score(selected[..k + 1]))
  }

  /** One round of the inner loop: scan `remaining` in order, remembering a candidate only
      when its score is strictly greater than the best so far. Returns the position of the
      winner in `remaining` (None if nobody beats `best`) and the round's best score. */
  method BestCandidate(selected: seq<int>, remaining: seq<int>, score: seq<int> -> real, best: real)
    returns (pick: Option<nat>, top: real)
    ensures pick.None? ==> top == best
    ensures pick.None? <==> forall i :: 0 <= i < |remaining| ==> score(selected + [remaining[i]]) <= best
    ensures pick.Some? ==> pick.value < |remaining|
    ensures pick.Some? ==> top == score(selected + [remaining[pick.value]]) && top > best
    ensures pick.Some? ==> forall i :: 0 <= i < |remaining| ==> score(selected + [remaining[i]]) <= top
    ensures pick.Some? ==> forall i :: 0 <= i < pick.value ==> score(selected + [remaining[i]]) < top
  {
    pick := None;
    top := best;
    var j := 0;
    while j < |remaining|
      invariant 0 <= j <= |remaining|
      invariant pick.None? ==> top == best
      invariant top >= best
      invariant forall i :: 0 <= i < j ==> score(selected + [remaining[i]]) <= top
      invariant pick.Some? ==> pick.value < j && top == score(selected + [remaining[pick.value]]) && top > best
      invariant pick.Some? ==> forall i :: 0 <= i < pick.value ==> score(selected + [remaining[i]]) < top
    {
      var s := score(selected + [remaining[j]]);
      if s > top {
        top := s;
        pick := Some(j);
      }
      j := j + 1;
    }
  }

  /** Appending a round's winner keeps both the strict-improvement and the greedy-choice
      properties of the selection. */
  lemma WinnerExtendsGreedy(n: int, score: seq<int> -> real, before: seq<int>,
                            remaining: seq<int>, pos: nat, top: real)
    requires Split(n, before, remaining)
    requires StrictlyImproving(score, before) && GreedyChoices(n, score, before)
    requires pos < |remaining| && top == score(before + [remaining[pos]])
    requires top > Baseline(score, before, |before|)
    requires forall i :: 0 <= i < |remaining| ==> score(before + [remaining[i]]) <= top
    requires forall i :: 0 <= i < pos ==> score(before + [remaining[i]]) < top
    ensures StrictlyImproving(score, before + [remaining[pos]])
    ensures GreedyChoices(n, score, before + [remaining[pos]])
  {
    WinnerKeepsImproving(score, before, remaining[pos], top);
    WinnerKeepsGreedy(n, score, before, remaining, pos, top);
  }

  lemma {:induction false} WinnerKeepsImproving(score: seq<int> -> real, before: seq<int>, f: int, top: real)
    requires StrictlyImproving(score, before)
    requires top == score(before + [f])
    requires top > Baseline(score, before, |before|)
    ensures StrictlyImproving(score, before + [f])
  {
    var after := before + [f];
    assert after[..|before| + 1] == after;
    forall k | 0 <= k < |after| ensures score(after[..k + 1]) > Baseline(score, after, k) {
      assert after[..k] == before[..k];
      if k < |before| {
        assert after[..k + 1] == before[..k + 1];
        assert Baseline(score, after, k) == Baseline(score, before, k);
        assert score(before[..k + 1]) > Baseline(score, before, k);
      } else {
        assert before[..|before|] == before;
        assert Baseline(score, after, k) == Baseline(score, before, |before|);
        assert score(after[..k + 1]) == top;
      }
    }
  }

  lemma {:induction false} WinnerKeepsGreedy(n: int, score: seq<int> -> real, before: seq<int>,
                                             remaining: seq<int>, pos: nat, top: real)
    requires Split(n, before, remaining)
    requires GreedyChoices(n, score, before)
    requires pos < |remaining| && top == score(before + [remaining[pos]])
    requires forall i :: 0 <= i < |remaining| ==> score(before + [remaining[i]]) <= top
    requires forall i :: 0 <= i < pos ==> score(before + [remaining[i]]) < top
    ensures GreedyChoices(n, score, before + [remaining[pos]])
  {
    var after := before + [remaining[pos]];
    assert after[..|before| + 1] == after;
    forall k, g | 0 <= k < |after| && 0 <= g < n && g !in after[..k]
      ensures score(after[..k] + [g]) <= score(after[..k + 1])
      ensures g < after[k] ==> score(after[..k] + [g]) < score(after[..k + 1])
    {
      if k < |before| {
        assert after[..k] == before[..k];
        assert after[..k + 1] == before[..k + 1];
        assert after[k] == before[k];
      } else {
        assert after[..k] == before;
        var i := IndexOf(remaining, g);
      }
    }
  }

  /** A round without a winner means no feature outside the selection beats the baseline. */
  lemma NoWinnerNoImprovement(n: int, score: seq<int> -> real, selected: seq<int>,
                              remaining: seq<int>, best: real)
    requires Split(n, selected, remaining)
    requires forall i :: 0 <= i < |remaining| ==> score(selected + [remaining[i]]) <= best
    ensures forall g :: 0 <= g < n && g !in selected ==> score(selected + [g]) <= best
  {
    forall g | 0 <= g < n && g !in selected ensures score(selected + [g]) <= best {
      var i := IndexOf(remaining, g);
    }
  }

  /** What holds between rounds: the split of 0..n-1, `best` as the score to beat, and
      both greedy properties of the selection so far. */
  predicate GreedyState(n: int, score: seq<int> -> real, selected: seq<int>, remaining: seq<int>, best: real)
  {
    && Split(n, selected, remaining)
    && best == Baseline(score, selected, |selected|)
    && StrictlyImproving(score, selected)
    && GreedyChoices(n, score, selected)
  }

  /** Before the first round: nothing selected, every feature remaining, 0.0 to beat. */
  lemma InitialGreedyState(n: int, score: seq<int> -> real)
    ensures GreedyState(n, score, [], Range(n), 0.0)
  {
    forall g | 0 <= g < n ensures g in Range(n) {
      assert Range(n)[g] == g;
    }
  }

  /** What the split says about the selection alone: distinct features, each in range. */
  lemma SelectionFacts(n: int, selected: seq<int>, remaining: seq<int>)
    requires Split(n, selected, remaining)
    ensures Distinct(selected)
    ensures forall k :: 0 <= k < |selected| ==> 0 <= selected[k] < n
    ensures |selected| <= |Range(n)|
  {
    SelectedBounded(n, selected, remaining);
    assert forall k :: 0 <= k < |selected| ==> selected[k] in selected;
  }

  /** A round with a winner: accepting the first best candidate keeps the state between
      rounds, with the winner's score as the new score to beat. */
  lemma AcceptWinner(n: int, score: seq<int> -> real, selected: seq<int>, remaining: seq<int>,
                     best: real, pos: nat, top: real)
    requires GreedyState(n, score, selected, remaining, best)
    requires pos < |remaining| && top == score(selected + [remaining[pos]]) && top > best
    requires forall i :: 0 <= i < |remaining| ==> score(selected + [remaining[i]]) <= top
    requires forall i :: 0 <= i < pos ==> score(selected + [remaining[i]]) < top
    ensures remaining[pos] in remaining
    ensures var next := Accept(n, selected, remaining, remaining[pos]);
            GreedyState(n, score, next.0, next.1, top) && |next.0| == |selected| + 1
  {
    var f := remaining[pos];
    WinnerExtendsGreedy(n, score, selected, remaining, pos, top);
    var next := Accept(n, selected, remaining, f);
    assert next.0[..|next.0|] == next.0;
  }

  /** `select_features_greedy`: at most `maxFeatures` rounds; each round adds the best
      strictly improving candidate, and the first round without one ends the selection. */
  method SelectFeaturesGreedy(nFeatures: int, maxFeatures: int, score: seq<int> -> real)
    returns (selected: seq<int>)
    ensures Distinct(selected)
    ensures forall k :: 0 <= k < |selected| ==> 0 <= selected[k] < nFeatures
    ensures |selected| <= |Range(nFeatures)|
    ensures |selected| <= maxFeatures || selected == []
    ensures StrictlyImproving(score, selected)
    ensures GreedyChoices(nFeatures, score, selected)
    ensures |selected| < maxFeatures ==>
              forall g :: 0 <= g < nFeatures && g !in selected ==>
                score(selected + [g]) <= Baseline(score, selected, |selected|)
  {
    selected := [];
    var remaining := Range(nFeatures);
    var bestScore := 0.0;
    var stopped := false;
    var round := 0;
    InitialGreedyState(nFeatures, score);
    while round < maxFeatures && !stopped
      invariant GreedyState(nFeatures, score, selected, remaining, bestScore)
      invariant |selected| == round
      invariant round <= maxFeatures || round == 0
      invariant stopped ==> forall g :: 0 <= g < nFeatures && g !in selected ==> score(selected + [g]) <= bestScore
      decreases maxFeatures - round, !stopped
    {
      var pick, top := BestCandidate(selected, remaining, score, bestScore);
      if pick.Some? {
        AcceptWinner(nFeatures, score, selected, remaining, bestScore, pick.value, top);
        var next := Accept(nFeatures, selected, remaining, remaining[pick.value]);
        selected, remaining, bestScore := next.0, next.1, top;
        round := round + 1;
      } else {
        stopped := true;
        NoWinnerNoImprovement(nFeatures, score, selected, remaining, bestScore);
      }
    }
    SelectionFacts(nFeatures, selected, remaining);
  }

  /** The quantum feature selector: its configuration, the feature list it holds
      (`None` until selected or given) and the QSVM it trained (`None` until `fit`). */
  datatype Selector = Selector(
    nFeatures: int,
    c: real,
    maxFeatures: int,
    selectedFeatures: Option<seq<int>>,
    qsvm: Option<Qsvm.Classifier>)

  /** A QSVM is only ever stored trained, and only together with a feature list. The list
      need not be the one it was trained on: selecting features again on a fitted selector
      replaces the list and keeps the QSVM. */
  predicate Consistent(s: Selector)
  {
    s.qsvm.Some? ==> s.selectedFeatures.Some? && Qsvm.IsTrained(s.qsvm.value)
  }

  /** `QuantumFeatureSelector(n_features, C, max_features)`: nothing selected, nothing trained. */
  function NewSelector(nFeatures: int, c: real, maxFeatures: Option<int>): (s: Selector)
    ensures Consistent(s)
    ensures s.selectedFeatures.None? && s.qsvm.None?
    ensures s.nFeatures == nFeatures && s.c == c
    ensures s.maxFeatures == DefaultMaxFeatures(nFeatures, maxFeatures)
  {
    Selector(nFeatures, c, DefaultMaxFeatures(nFeatures, maxFeatures), None, None)
  }

  /** `select_features_greedy` on the selector: stores the greedy selection and
      leaves everything else as it was. */
  method SelectorSelectGreedy(s: Selector, score: seq<int> -> real) returns (r: Selector, selected: seq<int>)
    ensures r.selectedFeatures == Some(selected)
    ensures r.qsvm == s.qsvm && r.nFeatures == s.nFeatures && r.c == s.c && r.maxFeatures == s.maxFeatures
    ensures Consistent(s) ==> Consistent(r)
    ensures Distinct(selected) && |selected| <= |Range(s.nFeatures)|
    ensures forall k :: 0 <= k < |selected| ==> 0 <= selected[k] < s.nFeatures
    ensures |selected| <= s.maxFeatures || selected == []
    ensures StrictlyImproving(score, selected) && GreedyChoices(s.nFeatures, score, selected)
    ensures |selected| < s.maxFeatures ==>
              forall g :: 0 <= g < s.nFeatures && g !in selected ==>
                score(selected + [g]) <= Baseline(score, selected, |selected|)
  {
    selected := SelectFeaturesGreedy(s.nFeatures, s.maxFeatures, score);
    r := s.(selectedFeatures := Some(selected));
  }

  /** The selector's state after a call, with the call's outcome. Python mutates the
      object before it raises, so a failed call can still have changed the state. */
  datatype Step = Step(state: Selector, outcome: Result<()>)

  /** The QSVM `fit` trains: sized to the feature list, default feature map, the selector's C. */
  function SubsetClassifier(s: Selector, features: seq<int>): (q: Qsvm.Classifier)
    ensures !Qsvm.IsTrained(q) && q.config.qubits == |features| && q.c == s.c
  {
    Qsvm.NewClassifier(|features|, Qsvm.DefaultReps, Qsvm.DefaultEntanglement, s.c)
  }

  /** `fit(X_train, y_train, selected_features)`: an explicit list replaces the stored one;
      with neither, it raises; otherwise a new QSVM is trained on those columns. */
  function SelectorFit(s: Selector, o: Qsvm.Oracles, xTrain: Matrix, yTrain: seq<int>,
                       features: Option<seq<int>>): (r: Step)
    requires WellFormed(xTrain)
    ensures features.Some? ==> r.state.selectedFeatures == features
    ensures features.None? ==> r.state.selectedFeatures == s.selectedFeatures
    ensures r.outcome == Err(NoFeaturesSelected) <==> features.None? && s.selectedFeatures.None?
    ensures r.outcome.Ok? <==> r.state.selectedFeatures.Some? && ProjectColumns(xTrain, r.state.selectedFeatures.value).Ok?
    ensures r.state.selectedFeatures.Some? && r.outcome.Err? ==>
              var f := r.state.selectedFeatures.value;
              exists k :: 0 <= k < |f| && !InBounds(xTrain.cols, f[k]) && r.outcome.failure == IndexOutOfRange(f[k])
    ensures r.outcome.Err? ==> r.state.qsvm == s.qsvm
    ensures r.outcome.Ok? ==>
              var f := r.state.selectedFeatures.value;
              && ProjectColumns(xTrain, f).Ok?
              && r.state.qsvm == Some(Qsvm.Fit(SubsetClassifier(s, f), o, ProjectColumns(xTrain, f).value, yTrain))
    ensures r.state.nFeatures == s.nFeatures && r.state.c == s.c && r.state.maxFeatures == s.maxFeatures
    ensures Consistent(s) ==> Consistent(r.state)
  {
    var s1 := if features.Some? then s.(selectedFeatures := features) else s;
    if s1.selectedFeatures.None? then Step(s1, Err(NoFeaturesSelected))
    else
      var f := s1.selectedFeatures.value;
      match ProjectColumns(xTrain, f)
      case Err(e) => Step(s1, Err(e))
      case Ok(xSub) => Step(s1.(qsvm := Some(Qsvm.Fit(SubsetClassifier(s, f), o, xSub, yTrain))), Ok(()))
  }

  /** `predict`: raises before `fit`; otherwise projects the test rows onto the stored
      feature list and asks the trained QSVM. */
  function SelectorPredict(s: Selector, o: Qsvm.Oracles, xTest: Matrix): (r: Result<seq<int>>)
    requires Consistent(s) && WellFormed(xTest)
    ensures s.qsvm.None? ==> r == Err(NotTrained)
    ensures s.qsvm.Some? && ProjectColumns(xTest, s.selectedFeatures.value).Err? ==>
              r == Err(ProjectColumns(xTest, s.selectedFeatures.value).failure)
    ensures s.qsvm.Some? && ProjectColumns(xTest, s.selectedFeatures.value).Ok? ==>
              r == Qsvm.Predict(s.qsvm.value, o, ProjectColumns(xTest, s.selectedFeatures.value).value) && r.Ok?
  {
    if s.qsvm.None? then Err(NotTrained)
    else
      var xSub :- ProjectColumns(xTest, s.selectedFeatures.value);
      Qsvm.Predict(s.qsvm.value, o, xSub)
  }

  /** `predict_proba`: as `predict`, with the QSVM's class probabilities. */
  function SelectorPredictProba(s: Selector, o: Qsvm.Oracles, xTest: Matrix): (r: Result<Matrix>)
    requires Consistent(s) && WellFormed(xTest)
    ensures s.qsvm.None? ==> r == Err(NotTrained)
    ensures s.qsvm.Some? && ProjectColumns(xTest, s.selectedFeatures.value).Err? ==>
              r == Err(ProjectColumns(xTest, s.selectedFeatures.value).failure)
    ensures s.qsvm.Some? && ProjectColumns(xTest, s.selectedFeatures.value).Ok? ==>
              r == Qsvm.PredictProba(s.qsvm.value, o, ProjectColumns(xTest, s.selectedFeatures.value).value) && r.Ok?
  {
    if s.qsvm.None? then Err(NotTrained)
    else
      var xSub :- ProjectColumns(xTest, s.selectedFeatures.value);
      Qsvm.PredictProba(s.qsvm.value, o, xSub)
  }

  /** Before `fit`, a new selector refuses to predict. */
  lemma {:induction false} FreshSelectorRefuses(nFeatures: int, c: real, maxFeatures: Option<int>,
                                                o: Qsvm.Oracles, xTest: Matrix)
    requires WellFormed(xTest)
    ensures SelectorPredict(NewSelector(nFeatures, c, maxFeatures), o, xTest) == Err(NotTrained)
    ensures SelectorPredictProba(NewSelector(nFeatures, c, maxFeatures), o, xTest) == Err(NotTrained)
  {
  }

  /** After a successful `fit`, prediction uses the same columns for the test rows as
      training used for the training rows, and the kernel pairs them under one feature map. */
  lemma {:induction false} FitThenPredictUsesSameColumns(s: Selector, o: Qsvm.Oracles, xTrain: Matrix,
                                                         yTrain: seq<int>, features: Option<seq<int>>, xTest: Matrix)
    requires WellFormed(xTrain) && WellFormed(xTest) && Consistent(s)
    requires SelectorFit(s, o, xTrain, yTrain, features).outcome.Ok?
    ensures var t := SelectorFit(s, o, xTrain, yTrain, features).state;
            var f := t.selectedFeatures.value;
            var q := SubsetClassifier(s, f);
            var xs := ProjectColumns(xTrain, f).value;
            ProjectColumns(xTest, f).Ok? ==>
              SelectorPredict(t, o, xTest)
                == Ok(o.svmPredict(Qsvm.FittedSvm(o.kernel(q.config, xs, xs), yTrain, s.c),
                                   o.kernel(q.config, ProjectColumns(xTest, f).value, xs)))
  {
    var t := SelectorFit(s, o, xTrain, yTrain, features).state;
    var f := t.selectedFeatures.value;
    if ProjectColumns(xTest, f).Ok? {
      Qsvm.FitThenPredict(SubsetClassifier(s, f), o, ProjectColumns(xTrain, f).value, yTrain,
                          ProjectColumns(xTest, f).value);
    }
  }
}
