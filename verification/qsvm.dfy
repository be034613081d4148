/** The QSVM classifier: a ZZ feature map, a fidelity quantum kernel and an SVC on
    the precomputed kernel. The kernel and the SVC are foreign numerics and enter
    the model as oracles; what is modelled is the state the classifier keeps and
    which kernel each call asks for. */
module Qsvm {
  import opened Results
  import opened Matrices

  /** Repetitions and entanglement the classifier uses when the caller gives none. */
  const DefaultReps: int := 2
  const DefaultEntanglement: string := "full"

  /** The configuration of the ZZ feature map: qubits, repetitions, entanglement. */
  datatype FeatureMapConfig = FeatureMapConfig(qubits: int, reps: int, entanglement: string)

  /** What the SVC retains from `fit`: the precomputed training kernel, the labels and C. */
  datatype FittedSvm = FittedSvm(kTrain: Matrix, labels: seq<int>, c: real)

  /** The foreign numerics:
      - `kernel(cfg, X1, X2)` is the fidelity kernel matrix between the rows of X1 and X2
        under the feature map `cfg`;
      - `svmPredict` and `svmProba` are the SVC's predictions and class probabilities
        for a test-versus-train kernel matrix. */
  datatype Oracles = Oracles(
    kernel: (FeatureMapConfig, Matrix, Matrix) -> Matrix,
    svmPredict: (FittedSvm, Matrix) -> seq<int>,
    svmProba: (FittedSvm, Matrix) -> Matrix)

  /** Training data kept after `fit`. */
  datatype Training = Training(xTrain: Matrix, svm: FittedSvm)

  /** A QSVM: its feature map, C, and the training it holds once fitted
      (`None` is the untrained state, `is_trained == False`). */
  datatype Classifier = Classifier(config: FeatureMapConfig, c: real, training: Option<Training>)

  predicate IsTrained(q: Classifier)
  {
    q.training.Some?
  }

  /** A fresh classifier, untrained, with the feature map it was configured with. */
  function NewClassifier(qubits: int, reps: int, entanglement: string, c: real): (q: Classifier)
    ensures !IsTrained(q)
    ensures q.config.qubits == qubits && q.config.reps == reps && q.config.entanglement == entanglement
    ensures q.c == c
  {
    Classifier(FeatureMapConfig(qubits, reps, entanglement), c, None)
  }

  /** `compute_kernel_matrix(X1, X2)`: a missing second argument means the Gram matrix of X1. */
  function ComputeKernelMatrix(o: Oracles, cfg: FeatureMapConfig, x1: Matrix, x2: Option<Matrix>): (k: Matrix)
    ensures x2.None? ==> k == o.kernel(cfg, x1, x1)
    ensures x2.Some? ==> k == o.kernel(cfg, x1, x2.value)
  {
    match x2
    case None => o.kernel(cfg, x1, x1)
    case Some(x) => o.kernel(cfg, x1, x)
  }

  /** `fit`: the SVC is trained on the Gram matrix of the training rows, and the rows
      are kept for later cross kernels. A previous training is discarded. */
  function Fit(q: Classifier, o: Oracles, xTrain: Matrix, yTrain: seq<int>): (r: Classifier)
    ensures IsTrained(r)
    ensures r.config == q.config && r.c == q.c
    ensures r.training.value.xTrain == xTrain
    ensures r.training.value.svm == FittedSvm(o.kernel(q.config, xTrain, xTrain), yTrain, q.c)
  {
    var kTrain := ComputeKernelMatrix(o, q.config, xTrain, None);
    Classifier(q.config, q.c, Some(Training(xTrain, FittedSvm(kTrain, yTrain, q.c))))
  }

  /** The test-versus-train kernel `predict` and `predict_proba` hand to the SVC. */
  function CrossKernel(q: Classifier, o: Oracles, xTest: Matrix): (k: Matrix)
    requires IsTrained(q)
    ensures k == o.kernel(q.config, xTest, q.training.value.xTrain)
  {
    ComputeKernelMatrix(o, q.config, xTest, Some(q.training.value.xTrain))
  }

  /** `predict`: raises before training; otherwise the SVC's labels for the cross kernel. */
  function Predict(q: Classifier, o: Oracles, xTest: Matrix): (r: Result<seq<int>>)
    ensures r.Err? <==> !IsTrained(q)
    ensures r.Err? ==> r.failure == NotTrained
    ensures r.Ok? ==> r.value == o.svmPredict(q.training.value.svm,
                                              o.kernel(q.config, xTest, q.training.value.xTrain))
  {
    if !IsTrained(q) then Err(NotTrained)
    else Ok(o.svmPredict(q.training.value.svm, CrossKernel(q, o, xTest)))
  }

  /** `predict_proba`: raises before training; otherwise the SVC's probabilities for the cross kernel. */
  function PredictProba(q: Classifier, o: Oracles, xTest: Matrix): (r: Result<Matrix>)
    ensures r.Err? <==> !IsTrained(q)
    ensures r.Err? ==> r.failure == NotTrained
    ensures r.Ok? ==> r.value == o.svmProba(q.training.value.svm,
                                            o.kernel(q.config, xTest, q.training.value.xTrain))
  {
    if !IsTrained(q) then Err(NotTrained)
    else Ok(o.svmProba(q.training.value.svm, CrossKernel(q, o, xTest)))
  }

  /** Omitting the second kernel argument is the same as passing the first one again. */
  lemma GramIsSelfCrossKernel(o: Oracles, cfg: FeatureMapConfig, x: Matrix)
    ensures ComputeKernelMatrix(o, cfg, x, None) == ComputeKernelMatrix(o, cfg, x, Some(x))
  {
  }

  /** A fresh classifier refuses to predict, whatever the test data. */
  lemma UntrainedRefuses(o: Oracles, qubits: int, reps: int, entanglement: string, c: real, xTest: Matrix)
    ensures Predict(NewClassifier(qubits, reps, entanglement, c), o, xTest) == Err(NotTrained)
    ensures PredictProba(NewClassifier(qubits, reps, entanglement, c), o, xTest) == Err(NotTrained)
  {
  }

  /** Fit-then-predict: the SVC trained on K(X_train, X_train) is asked about K(X_test, X_train),
      both under the same feature map. */
  lemma FitThenPredict(q: Classifier, o: Oracles, xTrain: Matrix, yTrain: seq<int>, xTest: Matrix)
    ensures Predict(Fit(q, o, xTrain, yTrain), o, xTest)
         == Ok(o.svmPredict(FittedSvm(o.kernel(q.config, xTrain, xTrain), yTrain, q.c),
                            o.kernel(q.config, xTest, xTrain)))
    ensures PredictProba(Fit(q, o, xTrain, yTrain), o, xTest)
         == Ok(o.svmProba(FittedSvm(o.kernel(q.config, xTrain, xTrain), yTrain, q.c),
                          o.kernel(q.config, xTest, xTrain)))
  {
  }

  /** Training is not cumulative: fitting again forgets the earlier fit. */
  lemma RefitForgets(q: Classifier, o: Oracles, x1: Matrix, y1: seq<int>, x2: Matrix, y2: seq<int>)
    ensures Fit(Fit(q, o, x1, y1), o, x2, y2) == Fit(q, o, x2, y2)
  {
  }
}
