/** Confusion-matrix counts and the ratios derived from them, in exact rationals. */
module Metrics {
  import opened Results
  import opened Sequences

  /** A binary class label: 0 is legitimate, 1 is fraud. */
  type Label = x: int | 0 <= x <= 1

  /** The four cells of the 2x2 confusion matrix. */
  datatype Confusion = Confusion(tp: nat, tn: nat, fp: nat, fn: nat)

  /** Number of positions i with (yTrue[i], yPred[i]) == (a, b). */
  function CountPairs(yTrue: seq<Label>, yPred: seq<Label>, a: Label, b: Label): nat
    requires |yTrue| == |yPred|
  {
    if |yTrue| == 0 then 0
    else
      var n := |yTrue| - 1;
      CountPairs(yTrue[..n], yPred[..n], a, b) + (if yTrue[n] == a && yPred[n] == b then 1 else 0)
  }

  /** The positions holding the pair (a, b): the reference for `CountPairs`. */
  function PairPositions(yTrue: seq<Label>, yPred: seq<Label>, a: Label, b: Label): set<int>
    requires |yTrue| == |yPred|
  {
    set i | 0 <= i < |yTrue| && yTrue[i] == a && yPred[i] == b
  }

  lemma {:induction false} CountPairsIsPositions(yTrue: seq<Label>, yPred: seq<Label>, a: Label, b: Label)
    requires |yTrue| == |yPred|
    ensures CountPairs(yTrue, yPred, a, b) == |PairPositions(yTrue, yPred, a, b)|
  {
    if |yTrue| == 0 {
      assert PairPositions(yTrue, yPred, a, b) == {};
    } else {
      var n := |yTrue| - 1;
      CountPairsIsPositions(yTrue[..n], yPred[..n], a, b);
      var prev := PairPositions(yTrue[..n], yPred[..n], a, b);
      if yTrue[n] == a && yPred[n] == b {
        assert PairPositions(yTrue, yPred, a, b) == prev + {n};
      } else {
        assert PairPositions(yTrue, yPred, a, b) == prev;
      }
    }
  }

  /** Every position holds one of the four pairs, so the four counts add up to the length. */
  lemma {:induction false} CountPairsTotal(yTrue: seq<Label>, yPred: seq<Label>)
    requires |yTrue| == |yPred|
    ensures CountPairs(yTrue, yPred, 1, 1) + CountPairs(yTrue, yPred, 0, 0)
          + CountPairs(yTrue, yPred, 0, 1) + CountPairs(yTrue, yPred, 1, 0) == |yTrue|
  {
    if |yTrue| > 0 {
      var n := |yTrue| - 1;
      CountPairsTotal(yTrue[..n], yPred[..n]);
    }
  }

  /** Counting by true label: the occurrences of `a` in `yTrue` split by prediction. */
  lemma {:induction false} TrueLabelSplits(yTrue: seq<Label>, yPred: seq<Label>, a: Label)
    requires |yTrue| == |yPred|
    ensures Occurrences(yTrue, a) == CountPairs(yTrue, yPred, a, 0) + CountPairs(yTrue, yPred, a, 1)
  {
    if |yTrue| > 0 {
      var n := |yTrue| - 1;
      TrueLabelSplits(yTrue[..n], yPred[..n], a);
    }
  }

  /** Counting by predicted label: the occurrences of `b` in `yPred` split by truth. */
  lemma {:induction false} PredLabelSplits(yTrue: seq<Label>, yPred: seq<Label>, b: Label)
    requires |yTrue| == |yPred|
    ensures Occurrences(yPred, b) == CountPairs(yTrue, yPred, 0, b) + CountPairs(yTrue, yPred, 1, b)
  {
    if |yTrue| > 0 {
      var n := |yTrue| - 1;
      PredLabelSplits(yTrue[..n], yPred[..n], b);
    }
  }

  /** The 2x2 matrix exists only when both label values occur somewhere in the two
      sequences; otherwise scikit-learn builds a 1x1 (or empty) matrix and the
      four-way unpack fails. */
  predicate BothClassesOccur(yTrue: seq<Label>, yPred: seq<Label>)
  {
    (0 in yTrue || 0 in yPred) && (1 in yTrue || 1 in yPred)
  }

  /** `compute_confusion_matrix_components`: TP, TN, FP, FN as the pairs (1,1), (0,0),
      (0,1), (1,0) of (true, predicted). Fails on sequences of different lengths and
      whenever the matrix is not 2x2. */
  function ConfusionMatrixComponents(yTrue: seq<Label>, yPred: seq<Label>): (r: Result<Confusion>)
    ensures r.Ok? <==> |yTrue| == |yPred| && BothClassesOccur(yTrue, yPred)
    ensures |yTrue| != |yPred| ==> r == Err(LengthMismatch)
    ensures |yTrue| == |yPred| && !BothClassesOccur(yTrue, yPred) ==> r == Err(NotBinaryMatrix)
    ensures r.Ok? ==> && r.value.tp == |PairPositions(yTrue, yPred, 1, 1)|
                      && r.value.tn == |PairPositions(yTrue, yPred, 0, 0)|
                      && r.value.fp == |PairPositions(yTrue, yPred, 0, 1)|
                      && r.value.fn == |PairPositions(yTrue, yPred, 1, 0)|
    ensures r.Ok? ==> r.value.tp + r.value.tn + r.value.fp + r.value.fn == |yTrue| > 0
  {
    if |yTrue| != |yPred| then Err(LengthMismatch)
    else if !BothClassesOccur(yTrue, yPred) then Err(NotBinaryMatrix)
    else
      CountPairsIsPositions(yTrue, yPred, 1, 1);
      CountPairsIsPositions(yTrue, yPred, 0, 0);
      CountPairsIsPositions(yTrue, yPred, 0, 1);
      CountPairsIsPositions(yTrue, yPred, 1, 0);
      CountPairsTotal(yTrue, yPred);
      Ok(Confusion(CountPairs(yTrue, yPred, 1, 1), CountPairs(yTrue, yPred, 0, 0),
                   CountPairs(yTrue, yPred, 0, 1), CountPairs(yTrue, yPred, 1, 0)))
  }

  /** `num / den`, or 0 when the denominator is 0 (the code's explicit `else 0`, and
      scikit-learn's `zero_division=0`). */
  function Ratio(num: nat, den: nat): (r: real)
    ensures 0.0 <= r
    ensures num <= den ==> r <= 1.0
    ensures den == 0 ==> r == 0.0
    ensures den > 0 && num > 0 ==> r > 0.0
  {
    if den > 0 then num as real / den as real else 0.0
  }

  /** TPR = TP / (TP + FN): the share of actual frauds flagged, 0 when there are none. */
  function TruePositiveRate(c: Confusion): (r: real)
    ensures 0.0 <= r <= 1.0
    ensures c.tp + c.fn == 0 ==> r == 0.0
    ensures c.tp + c.fn > 0 ==> r * (c.tp + c.fn) as real == c.tp as real
  {
    Ratio(c.tp, c.tp + c.fn)
  }

  /** FPR = FP / (FP + TN): the share of legitimate transactions flagged, 0 when there are none. */
  function FalsePositiveRate(c: Confusion): (r: real)
    ensures 0.0 <= r <= 1.0
    ensures c.fp + c.tn == 0 ==> r == 0.0
    ensures c.fp + c.tn > 0 ==> r * (c.fp + c.tn) as real == c.fp as real
  {
    Ratio(c.fp, c.fp + c.tn)
  }

  /** Positions where truth and prediction agree. */
  function Agreements(yTrue: seq<Label>, yPred: seq<Label>): nat
    requires |yTrue| == |yPred|
  {
    if |yTrue| == 0 then 0
    else
      var n := |yTrue| - 1;
      Agreements(yTrue[..n], yPred[..n]) + (if yTrue[n] == yPred[n] then 1 else 0)
  }

  lemma {:induction false} AgreementsAreDiagonal(yTrue: seq<Label>, yPred: seq<Label>)
    requires |yTrue| == |yPred|
    ensures Agreements(yTrue, yPred) == CountPairs(yTrue, yPred, 1, 1) + CountPairs(yTrue, yPred, 0, 0)
  {
    if |yTrue| > 0 {
      var n := |yTrue| - 1;
      AgreementsAreDiagonal(yTrue[..n], yPred[..n]);
    }
  }

  /** `accuracy_score`: the fraction of positions where prediction equals truth. */
  function AccuracyScore(yTrue: seq<Label>, yPred: seq<Label>): real
    requires |yTrue| == |yPred|
  {
    Ratio(Agreements(yTrue, yPred), |yTrue|)
  }

  /** `precision_score(zero_division=0)`: true positives among predicted positives. */
  function PrecisionScore(yTrue: seq<Label>, yPred: seq<Label>): real
    requires |yTrue| == |yPred|
  {
    Ratio(CountPairs(yTrue, yPred, 1, 1), Occurrences(yPred, 1))
  }

  /** `recall_score(zero_division=0)`: true positives among actual positives. */
  function RecallScore(yTrue: seq<Label>, yPred: seq<Label>): real
    requires |yTrue| == |yPred|
  {
    Ratio(CountPairs(yTrue, yPred, 1, 1), Occurrences(yTrue, 1))
  }

  /** `f1_score(zero_division=0)`, as scikit-learn computes it: 2 TP / (#true positives + #predicted positives). */
  function F1Score(yTrue: seq<Label>, yPred: seq<Label>): real
    requires |yTrue| == |yPred|
  {
    Ratio(2 * CountPairs(yTrue, yPred, 1, 1), Occurrences(yTrue, 1) + Occurrences(yPred, 1))
  }

  /** The harmonic mean 2PR / (P + R), 0 when P + R = 0: the textbook F1. */
  function HarmonicF1(p: real, r: real): real
  {
    if p + r > 0.0 then 2.0 * p * r / (p + r) else 0.0
  }

  /** Everything `compute_all_metrics` returns. `auc` is present exactly when probabilities
      were supplied, as the pair (AUC-ROC, AUC-PR). */
  datatype Report = Report(
    counts: Confusion,
    accuracy: real,
    precision: real,
    recall: real,
    f1: real,
    tpr: real,
    fpr: real,
    auc: Option<(real, real)>)

  /** AUC-ROC and AUC-PR of scores against labels; `None` when scikit-learn raises ValueError. */
  type AucOracle = (seq<Label>, seq<real>) -> Option<(real, real)>

  /** `compute_all_metrics`. */
  function ComputeAllMetrics(yTrue: seq<Label>, yPred: seq<Label>, yProb: Option<seq<real>>,
                             auc: AucOracle): (r: Result<Report>)
    ensures r.Err? <==> ConfusionMatrixComponents(yTrue, yPred).Err?
    ensures r.Err? ==> r.failure == ConfusionMatrixComponents(yTrue, yPred).failure
    ensures r.Ok? ==> r.value.counts == ConfusionMatrixComponents(yTrue, yPred).value
    ensures r.Ok? ==> (r.value.auc.Some? <==> yProb.Some?)
    ensures r.Ok? && yProb.Some? && auc(yTrue, yProb.value).None? ==> r.value.auc == Some((0.0, 0.0))
    ensures r.Ok? && yProb.Some? && auc(yTrue, yProb.value).Some? ==> r.value.auc == auc(yTrue, yProb.value)
    ensures r.Ok? ==> r.value.tpr == RecallScore(yTrue, yPred) && r.value.recall == r.value.tpr
    ensures r.Ok? ==> r.value.precision == Ratio(r.value.counts.tp, r.value.counts.tp + r.value.counts.fp)
    ensures r.Ok? ==> r.value.accuracy == Ratio(r.value.counts.tp + r.value.counts.tn, |yTrue|)
    ensures r.Ok? ==> r.value.f1 == HarmonicF1(r.value.precision, r.value.recall)
    ensures r.Ok? ==> r.value.fpr == Ratio(r.value.counts.fp, r.value.counts.fp + r.value.counts.tn)
    ensures r.Ok? ==> 0.0 <= r.value.tpr <= 1.0 && 0.0 <= r.value.fpr <= 1.0
  {
    var c :- ConfusionMatrixComponents(yTrue, yPred);
    var aucPair :=
      match yProb
      case None => None
      case Some(p) => (match auc(yTrue, p) case None => Some((0.0, 0.0)) case Some(v) => Some(v));
    ScoresAgreeWithCounts(yTrue, yPred);
    F1ScoreIsHarmonicMean(yTrue, yPred);
    Ok(Report(c, AccuracyScore(yTrue, yPred), PrecisionScore(yTrue, yPred), RecallScore(yTrue, yPred),
              F1Score(yTrue, yPred), TruePositiveRate(c), FalsePositiveRate(c), aucPair))
  }

  /** The scikit-learn scores computed on the label sequences agree with the ratios of
      the confusion counts the code derives by hand. */
  lemma ScoresAgreeWithCounts(yTrue: seq<Label>, yPred: seq<Label>)
    requires |yTrue| == |yPred|
    ensures RecallScore(yTrue, yPred) == Ratio(CountPairs(yTrue, yPred, 1, 1), CountPairs(yTrue, yPred, 1, 1) + CountPairs(yTrue, yPred, 1, 0))
    ensures PrecisionScore(yTrue, yPred) == Ratio(CountPairs(yTrue, yPred, 1, 1), CountPairs(yTrue, yPred, 1, 1) + CountPairs(yTrue, yPred, 0, 1))
    ensures AccuracyScore(yTrue, yPred) == Ratio(CountPairs(yTrue, yPred, 1, 1) + CountPairs(yTrue, yPred, 0, 0), |yTrue|)
    ensures F1Score(yTrue, yPred) == Ratio(2 * CountPairs(yTrue, yPred, 1, 1),
                                           2 * CountPairs(yTrue, yPred, 1, 1) + CountPairs(yTrue, yPred, 0, 1) + CountPairs(yTrue, yPred, 1, 0))
  {
    RecallAgrees(yTrue, yPred);
    PrecisionAgrees(yTrue, yPred);
    AccuracyAgrees(yTrue, yPred);
    F1Agrees(yTrue, yPred);
  }

  lemma RecallAgrees(yTrue: seq<Label>, yPred: seq<Label>)
    requires |yTrue| == |yPred|
    ensures RecallScore(yTrue, yPred) == Ratio(CountPairs(yTrue, yPred, 1, 1), CountPairs(yTrue, yPred, 1, 1) + CountPairs(yTrue, yPred, 1, 0))
  {
    TrueLabelSplits(yTrue, yPred, 1);
  }

  lemma PrecisionAgrees(yTrue: seq<Label>, yPred: seq<Label>)
    requires |yTrue| == |yPred|
    ensures PrecisionScore(yTrue, yPred) == Ratio(CountPairs(yTrue, yPred, 1, 1), CountPairs(yTrue, yPred, 1, 1) + CountPairs(yTrue, yPred, 0, 1))
  {
    PredLabelSplits(yTrue, yPred, 1);
  }

  lemma AccuracyAgrees(yTrue: seq<Label>, yPred: seq<Label>)
    requires |yTrue| == |yPred|
    ensures AccuracyScore(yTrue, yPred) == Ratio(CountPairs(yTrue, yPred, 1, 1) + CountPairs(yTrue, yPred, 0, 0), |yTrue|)
  {
    AgreementsAreDiagonal(yTrue, yPred);
  }

  lemma F1Agrees(yTrue: seq<Label>, yPred: seq<Label>)
    requires |yTrue| == |yPred|
    ensures F1Score(yTrue, yPred) == Ratio(2 * CountPairs(yTrue, yPred, 1, 1),
                                           2 * CountPairs(yTrue, yPred, 1, 1) + CountPairs(yTrue, yPred, 0, 1) + CountPairs(yTrue, yPred, 1, 0))
  {
    TrueLabelSplits(yTrue, yPred, 1);
    PredLabelSplits(yTrue, yPred, 1);
  }

  /** scikit-learn's F1 is the harmonic mean of its precision and recall. */
  lemma F1ScoreIsHarmonicMean(yTrue: seq<Label>, yPred: seq<Label>)
    requires |yTrue| == |yPred|
    ensures F1Score(yTrue, yPred) == HarmonicF1(PrecisionScore(yTrue, yPred), RecallScore(yTrue, yPred))
  {
    ScoresAgreeWithCounts(yTrue, yPred);
    F1IsHarmonicMean(CountPairs(yTrue, yPred, 1, 1), CountPairs(yTrue, yPred, 0, 1), CountPairs(yTrue, yPred, 1, 0));
  }

  /** Cancelling a positive factor. */
  lemma CancelPositive(x: real, y: real, z: real)
    requires z > 0.0 && x * z == y * z
    ensures x == y
  {
  }

  /** 2TP / (2TP + FP + FN) is the harmonic mean of precision and recall, and both are 0
      exactly when TP = 0. */
  lemma F1IsHarmonicMean(tp: nat, fp: nat, fn: nat)
    ensures Ratio(2 * tp, 2 * tp + fp + fn) == HarmonicF1(Ratio(tp, tp + fp), Ratio(tp, tp + fn))
  {
    var p, r := Ratio(tp, tp + fp), Ratio(tp, tp + fn);
    if tp > 0 {
      var t, a, b := tp as real, fp as real, fn as real;
      var d1, d2, e := t + a, t + b, 2.0 * t + a + b;
      var x := Ratio(2 * tp, 2 * tp + fp + fn);
      assert p == t / d1 && r == t / d2 && x == (2.0 * t) / e;
      assert p * d1 == t && r * d2 == t && x * e == 2.0 * t;
      var lhs, rhs := x * (p + r), 2.0 * p * r;
      assert lhs * (d1 * d2) == 2.0 * t * t by {
        calc {
          lhs * (d1 * d2);
          x * ((p * d1) * d2 + (r * d2) * d1);
          x * (t * d2 + t * d1);
          (x * e) * t;
          2.0 * t * t;
        }
      }
      assert rhs * (d1 * d2) == 2.0 * t * t by {
        calc {
          rhs * (d1 * d2);
          2.0 * (p * d1) * (r * d2);
          2.0 * t * t;
        }
      }
      assert d1 * d2 > 0.0;
      CancelPositive(lhs, rhs, d1 * d2);
      assert p + r > 0.0;
      assert HarmonicF1(p, r) == rhs / (p + r);
      assert x == rhs / (p + r);
    } else {
      assert p == 0.0 && r == 0.0;
    }
  }

  /** Every ratio in the report is a proportion. */
  lemma ReportBounds(yTrue: seq<Label>, yPred: seq<Label>, yProb: Option<seq<real>>, auc: AucOracle)
    requires |yTrue| == |yPred| && BothClassesOccur(yTrue, yPred)
    ensures ComputeAllMetrics(yTrue, yPred, yProb, auc).Ok?
    ensures var m := ComputeAllMetrics(yTrue, yPred, yProb, auc).value;
            && 0.0 <= m.accuracy <= 1.0 && 0.0 <= m.precision <= 1.0 && 0.0 <= m.recall <= 1.0
            && 0.0 <= m.f1 <= 1.0 && 0.0 <= m.tpr <= 1.0 && 0.0 <= m.fpr <= 1.0
  {
    ScoresAgreeWithCounts(yTrue, yPred);
    CountPairsTotal(yTrue, yPred);
  }

  /** The metrics object: `results` holds the last report (`None` is the initial empty dict). */
  datatype Evaluator = Evaluator(results: Option<Report>)

  /** `compute_all_metrics` on the object: a successful call records its report; a
      failing one raises before `self.results` is assigned. */
  function Evaluate(ev: Evaluator, yTrue: seq<Label>, yPred: seq<Label>, yProb: Option<seq<real>>,
                    auc: AucOracle): (r: (Evaluator, Result<Report>))
    ensures r.1.Ok? ==> r.0.results == Some(r.1.value)
    ensures r.1.Err? ==> r.0 == ev
    ensures r.1 == ComputeAllMetrics(yTrue, yPred, yProb, auc)
  {
    var m := ComputeAllMetrics(yTrue, yPred, yProb, auc);
    if m.Ok? then (Evaluator(Some(m.value)), m) else (ev, m)
  }
}
