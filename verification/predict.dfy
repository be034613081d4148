/** Scoring a transaction or a batch of them with the trained classical model: the
    feature vector handed to the scaler, the 0.5 threshold, and the result records.
    Loading the model and scaler, and the scaled prediction itself, are one oracle. */
module Predict {
  import opened Results

  /** A value of a transaction's JSON object. */
  datatype Value = Num(x: real) | Text(s: string)

  /** A transaction: the JSON object read from the request. */
  type Transaction = map<string, Value>

  /** The columns of the feature vector, in order. */
  const FeatureNames: seq<string> := [
    "amount", "hour", "day_of_week", "is_weekend", "amount_log",
    "customer_tx_count", "merchant_tx_count", "merchant_category_encoded"]

  /** The id reported when a transaction carries none. */
  const UnknownId: Value := Text("unknown")

  /** A transaction is fraud when its fraud probability is strictly above this. */
  const FraudThreshold: real := 0.5

  /** Features read with `float(...)`; the others are read with `int(...)`. */
  predicate IsFloatFeature(name: string)
  {
    name == "amount" || name == "amount_log"
  }

  /** Python's `int(x)` for a float: truncation toward zero. */
  function Truncate(x: real): (r: int)
    ensures 0.0 <= x ==> r as real <= x < r as real + 1.0
    ensures x < 0.0 ==> r as real - 1.0 < x <= r as real
  {
    if x >= 0.0 then x.Floor else -((-x).Floor)
  }

  /** The number a feature contributes to the vector. */
  function Convert(name: string, x: real): real
  {
    if IsFloatFeature(name) then x else Truncate(x) as real
  }

  /** Reads the named features in order; the first absent or non-numeric one raises. */
  function ReadFeatures(t: Transaction, names: seq<string>): (r: Result<seq<real>>)
    ensures r.Ok? <==> forall k :: 0 <= k < |names| ==> names[k] in t && t[names[k]].Num?
    ensures r.Ok? ==> |r.value| == |names|
    ensures r.Ok? ==> forall k :: 0 <= k < |names| ==> r.value[k] == Convert(names[k], t[names[k]].x)
    ensures r.Err? ==> exists k :: 0 <= k < |names| && (names[k] !in t || t[names[k]].Text?)
                                   && (r.failure == MissingField(names[k]) || r.failure == NotANumber(names[k]))
  {
    if |names| == 0 then Ok([])
    else
      var name := names[0];
      if name !in t then Err(MissingField(name))
      else if t[name].Text? then Err(NotANumber(name))
      else
        var rest :- ReadFeatures(t, names[1..]);
        Ok([Convert(name, t[name].x)] + rest)
  }

  /** `preprocess_transaction` up to the scaler: the eight features in their fixed order. */
  function FeatureVector(t: Transaction): (r: Result<seq<real>>)
    ensures r.Ok? <==> forall k :: 0 <= k < |FeatureNames| ==> FeatureNames[k] in t && t[FeatureNames[k]].Num?
    ensures r.Ok? ==> |r.value| == 8
  {
    ReadFeatures(t, FeatureNames)
  }

  /** The transaction has a numeric value under `name`. */
  predicate HasNumber(t: Transaction, name: string)
  {
    name in t && t[name].Num?
  }

  /** The feature vector component by component: amount, hour, day of week, weekend flag,
      log amount, customer and merchant transaction counts, merchant category code. */
  lemma FeatureVectorOrder(t: Transaction)
    requires HasNumber(t, "amount") && HasNumber(t, "hour") && HasNumber(t, "day_of_week")
    requires HasNumber(t, "is_weekend") && HasNumber(t, "amount_log") && HasNumber(t, "customer_tx_count")
    requires HasNumber(t, "merchant_tx_count") && HasNumber(t, "merchant_category_encoded")
    ensures FeatureVector(t).Ok?
    ensures var f := FeatureVector(t).value;
            && f[0] == t["amount"].x
            && f[1] == Truncate(t["hour"].x) as real
            && f[2] == Truncate(t["day_of_week"].x) as real
            && f[3] == Truncate(t["is_weekend"].x) as real
            && f[4] == t["amount_log"].x
            && f[5] == Truncate(t["customer_tx_count"].x) as real
            && f[6] == Truncate(t["merchant_tx_count"].x) as real
            && f[7] == Truncate(t["merchant_category_encoded"].x) as real
  {
    var f := FeatureVector(t).value;
    assert forall k :: 0 <= k < 8 ==> f[k] == Convert(FeatureNames[k], t[FeatureNames[k]].x);
  }

  /** Class-1 probability the scaled model gives a raw feature vector. */
  type ProbabilityOracle = seq<real> -> real

  /** One output record. */
  datatype Prediction = Prediction(transactionId: Value, isFraud: bool, fraudProbability: real)

  /** The request body: one transaction object, or a list of them. */
  datatype Request = Single(t: Transaction) | Batch(ts: seq<Transaction>)

  /** `transaction.get('transaction_id', 'unknown')`. */
  function TransactionId(t: Transaction): (id: Value)
    ensures "transaction_id" in t ==> id == t["transaction_id"]
    ensures "transaction_id" !in t ==> id == Text("unknown")
  {
    if "transaction_id" in t then t["transaction_id"] else UnknownId
  }

  /** The prediction for one transaction. */
  function PredictOne(t: Transaction, prob: ProbabilityOracle): (r: Result<Prediction>)
    ensures r.Ok? <==> FeatureVector(t).Ok?
    ensures r.Ok? ==> && r.value.transactionId == TransactionId(t)
                      && r.value.fraudProbability == prob(FeatureVector(t).value)
                      && (r.value.isFraud <==> r.value.fraudProbability > FraudThreshold)
  {
    var features :- FeatureVector(t);
    var p := prob(features);
    Ok(Prediction(TransactionId(t), p > FraudThreshold, p))
  }

  /** The loop over a batch: one record per transaction, in order; the first transaction
      that cannot be read raises for the whole batch. */
  function PredictBatch(ts: seq<Transaction>, prob: ProbabilityOracle): (r: Result<seq<Prediction>>)
    ensures r.Ok? <==> forall i :: 0 <= i < |ts| ==> FeatureVector(ts[i]).Ok?
    ensures r.Ok? ==> |r.value| == |ts|
    ensures r.Ok? ==> forall i :: 0 <= i < |ts| ==> Ok(r.value[i]) == PredictOne(ts[i], prob)
  {
    if |ts| == 0 then Ok([])
    else
      var head :- PredictOne(ts[0], prob);
      var rest :- PredictBatch(ts[1..], prob);
      assert forall i :: 1 <= i < |ts| ==> ts[i] == ts[1..][i - 1];
      Ok([head] + rest)
  }

  /** `predict_fraud`: a single object is treated as a batch of one. */
  function PredictFraud(request: Request, prob: ProbabilityOracle): (r: Result<seq<Prediction>>)
    ensures request.Single? ==> r == PredictBatch([request.t], prob)
    ensures request.Batch? ==> r == PredictBatch(request.ts, prob)
  {
    match request
    case Single(t) => PredictBatch([t], prob)
    case Batch(ts) => PredictBatch(ts, prob)
  }

  /** Each record carries the transaction's id (or "unknown"), the model's probability
      unchanged, and a fraud flag that is set exactly above 0.5. */
  lemma PredictionRecords(request: Request, prob: ProbabilityOracle, i: int)
    requires PredictFraud(request, prob).Ok?
    requires 0 <= i < |PredictFraud(request, prob).value|
    ensures var ts := if request.Single? then [request.t] else request.ts;
            var rec := PredictFraud(request, prob).value[i];
            && |PredictFraud(request, prob).value| == |ts|
            && rec.transactionId == TransactionId(ts[i])
            && rec.fraudProbability == prob(FeatureVector(ts[i]).value)
            && (rec.isFraud <==> prob(FeatureVector(ts[i]).value) > 0.5)
  {
    var ts := if request.Single? then [request.t] else request.ts;
    assert PredictFraud(request, prob) == PredictBatch(ts, prob);
    assert Ok(PredictFraud(request, prob).value[i]) == PredictOne(ts[i], prob);
  }

  /** A probability of exactly 0.5 is not fraud. */
  lemma HalfIsNotFraud(t: Transaction, prob: ProbabilityOracle)
    requires FeatureVector(t).Ok? && prob(FeatureVector(t).value) == 0.5
    ensures PredictFraud(Single(t), prob).Ok?
    ensures !PredictFraud(Single(t), prob).value[0].isFraud
  {
    assert PredictOne(t, prob).Ok?;
    assert PredictBatch([t], prob).Ok?;
    assert Ok(PredictBatch([t], prob).value[0]) == PredictOne(t, prob);
  }

  /** A batch that succeeds holds, at each position, that transaction's own prediction. */
  lemma BatchAt(ts: seq<Transaction>, prob: ProbabilityOracle, i: int)
    requires PredictBatch(ts, prob).Ok? && 0 <= i < |ts|
    ensures PredictOne(ts[i], prob) == Ok(PredictBatch(ts, prob).value[i])
  {
  }

  /** Predicting a concatenated batch concatenates the predictions: each transaction is
      scored on its own, independent of its neighbours. */
  lemma BatchesConcatenate(a: seq<Transaction>, b: seq<Transaction>, prob: ProbabilityOracle)
    requires PredictBatch(a, prob).Ok? && PredictBatch(b, prob).Ok?
    ensures PredictBatch(a + b, prob) == Ok(PredictBatch(a, prob).value + PredictBatch(b, prob).value)
  {
    var ab := a + b;
    assert PredictBatch(ab, prob).Ok? by {
      forall i | 0 <= i < |ab| ensures FeatureVector(ab[i]).Ok? {
        if i < |a| {
          BatchAt(a, prob, i);
        } else {
          assert ab[i] == b[i - |a|];
          BatchAt(b, prob, i - |a|);
        }
      }
    }
    var r := PredictBatch(ab, prob).value;
    var ra, rb := PredictBatch(a, prob).value, PredictBatch(b, prob).value;
    assert |r| == |ra + rb|;
    forall i | 0 <= i < |ab| ensures r[i] == (ra + rb)[i] {
      BatchAt(ab, prob, i);
      if i < |a| {
        assert ab[i] == a[i];
        BatchAt(a, prob, i);
      } else {
        assert ab[i] == b[i - |a|];
        BatchAt(b, prob, i - |a|);
      }
    }
    assert r == ra + rb;
  }
}
