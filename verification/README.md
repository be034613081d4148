# Quantum fraud-detection core, modelled in Dafny

This project models the logic of a fraud-detection pipeline that ranks card
transactions with a quantum-kernel support vector machine (QSVM). The quantum
parts are library calls: a Qiskit ZZ feature map, a fidelity quantum kernel,
and a scikit-learn SVC trained on the precomputed kernel. Here they are
uninterpreted function-valued parameters ("oracles"). What the model states,
and proves, is the code around them:

- **Classifier state** (`qsvm.dfy`, module `Qsvm`): a QSVM starts untrained.
  `fit` trains the SVC on the Gram matrix K(X_train, X_train) and keeps X_train.
  `predict` and `predict_proba` raise before training; after it they pass the
  cross kernel K(X_test, X_train) to the SVC. A missing second kernel argument
  means the first one again.
- **Greedy forward feature selection and the selector's life cycle**
  (`feature_selection.dfy`, module `FeatureSelection`). `select_features_greedy`
  is a method with loop invariants, over an abstract subset scorer. Throughout,
  `selected` and `remaining` split 0..n-1 between them. Every accepted feature
  strictly raises the score. Every choice is a best candidate of its round, and
  ties go to the earliest feature in `remaining`. The first round without
  improvement ends the selection. The default for `max_features` and the
  guards of `fit`, `predict` and `predict_proba` are modelled too.
- **Confusion-matrix arithmetic** (`metrics.dfy`, module `Metrics`). TP, TN, FP
  and FN count position pairs, and the derived ratios are exact rationals
  (`real`) with the code's zero-denominator rule. scikit-learn's F1,
  2·TP / (#actual positives + #predicted positives), is proved equal to the
  harmonic mean of its precision and recall.
- **Pipeline steps of the solver** (`solver.dfy`, module `Solver`):
  - top-k columns by variance, applied to both train and test;
  - class-aware sampling, capped at a budget;
  - the precedence of score sources in `evaluate_model`.
- **Prediction service** (`predict.dfy`, module `Predict`): the eight-feature
  vector in its fixed order, the strict 0.5 threshold, the default id
  `"unknown"`, and a single transaction treated as a batch of one.
- **Feature engineering** (`engineering.dfy`, modules `Lexicographic` and
  `Engineering`): the weekend flag, the group-by row counts, the label encoding
  of merchant categories, and the dropped columns.

Shared pieces: `results.dfy` holds `Result`/`Option` for the Python exceptions,
`sequences.dfy` holds occurrence counting, `range(n)` and repetition-freedom,
and `matrices.dfy` holds numpy column and row indexing, including negative
indices and IndexError.

Python semantics are written out where they matter:
- `//` by 2 is floor division, which Dafny's `/` matches for a positive divisor;
- `int(x)` truncates toward zero;
- the slice `a[-n:]` is modelled for every n, including `[-0:]`, which keeps everything;
- `x or y` treats both None and 0 as false;
- `list.remove` removes the first occurrence;
- `QuantumFeatureSelector.fit` stores an explicit feature list before it can raise, so a failing call still changes the stored list (`Step`).

Edge cases, as the code handles them:
- undefined ratios are 0 (`zero_division=0` and the explicit `else 0`);
- unpacking the confusion matrix raises when only one label value occurs;
- AUC failures are swallowed: `compute_all_metrics` substitutes 0.0 and `evaluate_model` ignores them;
- the kernel matrix is used as the library returns it: the code does not symmetrise or clip it, retry backend calls, or memoise kernel entries.

## Model

| member | source | states |
|---|---|---|
| `Matrices.ProjectColumns` | model/qsvm_classifier.py:365 | `X[:, idx]` succeeds exactly when every index is in [-d, d); it then gives each row's entries at the resolved indices, in list order; otherwise it fails with IndexError on an offending index |
| `Matrices.SelectRows` | quantum_solver.py:193-194 | `X[idx]` keeps the width and gives row k = X's row idx[k] |
| `Qsvm.NewClassifier` | model/qsvm_classifier.py:142-176 | a new QSVM is untrained and keeps its qubits, repetitions, entanglement and C |
| `Qsvm.ComputeKernelMatrix` | model/qsvm_classifier.py:114-131 | the kernel of X1 against X2, where a missing X2 means X1 |
| `Qsvm.Fit` | model/qsvm_classifier.py:178-197 | after `fit` the QSVM is trained, keeps X_train, and its SVC was fitted on K(X_train, X_train) with the labels and C; configuration unchanged |
| `Qsvm.Predict` | model/qsvm_classifier.py:201-218 | with the kernel oracle total, fails (NotTrained) exactly when untrained; otherwise it is the SVC's prediction for K(X_test, stored X_train) |
| `Qsvm.PredictProba` | model/qsvm_classifier.py:220-237 | with the kernel oracle total, fails (NotTrained) exactly when untrained; otherwise it is the SVC's probabilities for K(X_test, stored X_train) |
| `Qsvm.GramIsSelfCrossKernel` | model/qsvm_classifier.py:126-127 | omitting X2 equals passing X1 as X2 |
| `Qsvm.UntrainedRefuses` | model/qsvm_classifier.py:175-212 | a freshly built QSVM refuses both kinds of prediction |
| `Qsvm.FitThenPredict` | model/qsvm_classifier.py:189-218 | fit then predict asks the SVC trained on K(X_train, X_train) about K(X_test, X_train) under one feature map |
| `Qsvm.RefitForgets` | model/qsvm_classifier.py:189-197 | fitting twice is the same as fitting once on the second data: training does not accumulate |
| `FeatureSelection.DefaultMaxFeatures` | model/qsvm_classifier.py:278 | a nonzero `max_features` is kept; None or 0 gives min(n_features, 8) |
| `FeatureSelection.SplitIsPermutation` | model/qsvm_classifier.py:301-302 | a split of selected/remaining is a rearrangement of range(n) |
| `FeatureSelection.SelectedBounded` | model/qsvm_classifier.py:301-302 | a split never holds more selected features than range(n) has elements |
| `FeatureSelection.Accept` | model/qsvm_classifier.py:332-335 | accepting f appends it to `selected` and removes exactly f from `remaining`; the split is kept |
| `FeatureSelection.BestCandidate` | model/qsvm_classifier.py:308-330 | a round's winner scores strictly above the current best and no other candidate scores above it; every earlier candidate scores strictly below it; no winner exactly when nobody beats the best |
| `FeatureSelection.WinnerExtendsGreedy` | model/qsvm_classifier.py:328-335 | appending a round's winner keeps strict improvement and the best-earliest choice for every round |
| `FeatureSelection.WinnerKeepsImproving` | model/qsvm_classifier.py:328-332 | appending a candidate that beats the baseline keeps every accepted feature strictly improving |
| `FeatureSelection.WinnerKeepsGreedy` | model/qsvm_classifier.py:318-335 | appending the first best candidate of a round keeps every choice a best, earliest one |
| `FeatureSelection.InitialGreedyState` | model/qsvm_classifier.py:301-303 | before the first round nothing is selected, every feature 0..n-1 remains in ascending order, and 0.0 is the score to beat |
| `FeatureSelection.AcceptWinner` | model/qsvm_classifier.py:328-335 | a round with a winner keeps the split, the strict improvement and the greedy choices, and makes the winner's score the one to beat |
| `FeatureSelection.SelectionFacts` | model/qsvm_classifier.py:301-342 | the selection holds distinct features in 0..n-1, at most n of them |
| `FeatureSelection.NoWinnerNoImprovement` | model/qsvm_classifier.py:337-339 | a round without a winner means no unselected feature improves on the baseline |
| `FeatureSelection.SelectFeaturesGreedy` | model/qsvm_classifier.py:301-342 | the selection is repetition-free and in range; it has at most max_features and at most n_features entries; each step strictly improves the score; each choice is a best candidate, and among ties the smallest index; if fewer than max_features were chosen, no remaining feature improves |
| `FeatureSelection.NewSelector` | model/qsvm_classifier.py:262-280 | a new selector has nothing selected and no QSVM, with the defaulted max_features |
| `FeatureSelection.SelectorSelectGreedy` | model/qsvm_classifier.py:341-342 | the greedy selection is stored in the selector and returned, and nothing else changes; the stored list has the properties of `select_features_greedy`: distinct in-range features, at most max_features, strictly improving, greedy choices, and no remaining feature beats the baseline when fewer than max_features were chosen |
| `FeatureSelection.SubsetClassifier` | model/qsvm_classifier.py:368 | the QSVM `fit` builds is untrained, sized to the feature list, with the selector's C |
| `FeatureSelection.SelectorFit` | model/qsvm_classifier.py:344-369 | an explicit list replaces the stored one; it fails with NoFeaturesSelected exactly when neither exists; it succeeds exactly when a list is stored and all its columns are in bounds, and otherwise with a list fails with IndexOutOfRange naming an out-of-bounds column; on failure the QSVM is unchanged; on success a QSVM is trained on those columns; trained QSVM implies stored list |
| `FeatureSelection.SelectorPredict` | model/qsvm_classifier.py:371-377 | fails before `fit`, and with IndexOutOfRange when a stored feature is not a test column; otherwise it projects the test rows onto the stored features and asks the trained QSVM |
| `FeatureSelection.SelectorPredictProba` | model/qsvm_classifier.py:379-385 | as `predict`, with class probabilities |
| `FeatureSelection.FreshSelectorRefuses` | model/qsvm_classifier.py:371-385 | a new selector refuses both kinds of prediction |
| `FeatureSelection.FitThenPredictUsesSameColumns` | model/qsvm_classifier.py:365-377 | after a successful `fit`, `predict` uses the same columns of X_test as training used of X_train, paired in one kernel |
| `Metrics.CountPairsIsPositions` | model/evaluation_metrics.py:60-72 | the recursive pair count equals the number of positions holding that (true, predicted) pair |
| `Metrics.CountPairsTotal` | model/evaluation_metrics.py:60-72 | the four pair counts add up to the number of examples |
| `Metrics.ConfusionMatrixComponents` | model/evaluation_metrics.py:49-72 | succeeds exactly when the lengths agree and both 0 and 1 occur in y_true or y_pred; TP, TN, FP, FN are the numbers of (1,1), (0,0), (0,1), (1,0) positions; they sum to n > 0 |
| `Metrics.Ratio` | model/evaluation_metrics.py:108-109 | a ratio is 0 on a zero denominator, non-negative, at most 1 when the numerator is at most the denominator, and positive when both are positive |
| `Metrics.ComputeAllMetrics` | model/evaluation_metrics.py:74-122 | fails exactly when the confusion matrix fails; recall = TPR; precision = TP/(TP+FP); accuracy = (TP+TN)/n; F1 is the harmonic mean of precision and recall; FPR = FP/(FP+TN) with the zero-denominator rule; TPR and FPR lie in [0,1]; AUC is present exactly when probabilities are given, and is (0.0, 0.0) when the library raises |
| `Metrics.TruePositiveRate` | model/evaluation_metrics.py:108 | TPR lies in [0,1]; it is 0 when there are no actual positives, and otherwise TPR·(TP+FN) = TP |
| `Metrics.FalsePositiveRate` | model/evaluation_metrics.py:109 | FPR lies in [0,1]; it is 0 when there are no actual negatives, and otherwise FPR·(FP+TN) = FP |
| `Metrics.ScoresAgreeWithCounts` | model/evaluation_metrics.py:101-109 | the scikit-learn scores over label sequences equal the ratios of the confusion counts |
| `Metrics.RecallAgrees` | model/evaluation_metrics.py:103 | recall_score = TP/(TP+FN) |
| `Metrics.PrecisionAgrees` | model/evaluation_metrics.py:102 | precision_score = TP/(TP+FP) |
| `Metrics.AccuracyAgrees` | model/evaluation_metrics.py:101 | accuracy_score = (TP+TN)/n |
| `Metrics.F1Agrees` | model/evaluation_metrics.py:104 | f1_score = 2TP/(2TP+FP+FN) |
| `Metrics.F1ScoreIsHarmonicMean` | model/evaluation_metrics.py:104 | scikit-learn's F1 equals 2PR/(P+R) of its own precision and recall, and 0 when both are 0 |
| `Metrics.F1IsHarmonicMean` | model/evaluation_metrics.py:39-41 | 2TP/(2TP+FP+FN) equals the harmonic mean of TP/(TP+FP) and TP/(TP+FN) |
| `Metrics.ReportBounds` | model/evaluation_metrics.py:96-109 | whenever the confusion matrix is 2x2 the report exists, and its accuracy, precision, recall, F1, TPR and FPR all lie in [0,1] |
| `Metrics.Evaluate` | model/evaluation_metrics.py:121-122 | a successful call records its report in `results`; a failing one leaves the object as it was |
| `Solver.Argsort` | quantum_solver.py:154 | for every variance vector there is an argsort: a rearrangement of the column indices, ascending by variance |
| `Solver.ArgsortFacts` | quantum_solver.py:154 | an argsort lists every column exactly once |
| `Solver.NegativeSliceStart` | quantum_solver.py:154 | `a[-n:]` keeps the last n of d elements for 0 < n <= d, everything for n = 0, and drops the first -n for negative n |
| `Solver.SelectFeatures` | quantum_solver.py:139-163 | with at most n_features columns both matrices and range(d) come back unchanged; otherwise the last n_features argsort positions select the same columns of both matrices |
| `Solver.TopVarianceColumns` | quantum_solver.py:153-157 | for 1 <= n_features < d, the selection is exactly n_features distinct in-range columns, ascending by variance, and no column left out has a larger variance than a chosen one |
| `Solver.ZeroFeaturesKeepsAll` | quantum_solver.py:154 | n_features = 0 selects every column |
| `Solver.Where` | quantum_solver.py:180-181 | `np.where(y == c)[0]` is the ascending list of every position holding c |
| `Solver.Sizes` | quantum_solver.py:184-185 | n_fraud = min(#fraud, max_samples // 2) and n_fraud + n_normal = max_samples |
| `Solver.SampleForQuantum` | quantum_solver.py:166-202 | data within the budget comes back unchanged; otherwise the sample succeeds exactly when the draws are possible, and fails with a negative size when n_fraud < 0; on success it has max_samples distinct rows in the shuffled order, kept paired with their labels, n_fraud of them fraud and n_normal normal |
| `Solver.DrawnLabelsAppend` | quantum_solver.py:194 | `y[a ++ b]` is `y[a] ++ y[b]` |
| `Solver.LabelCountWithout` | quantum_solver.py:194 | taking one position out of a draw removes exactly its label from the label counts |
| `Solver.RemoveAt` | quantum_solver.py:191 | removing one position from a draw leaves the other positions, all still rows of the data |
| `Solver.LabelCountsUnderPermutation` | quantum_solver.py:190-194 | shuffling the drawn positions leaves the count of every label unchanged |
| `Solver.MatchLast` | quantum_solver.py:191 | the last drawn position has a place in any shuffle of the draw, and the rest of the draw is a shuffle of the rest |
| `Solver.DrawnFromPool` | quantum_solver.py:187-188 | a draw from the pool `np.where(y == c)[0]` consists of rows labelled c |
| `Solver.ShuffledInRange` | quantum_solver.py:187-191 | the shuffled sample has max_samples positions, all rows of the data |
| `Solver.ConcatenatedDrawCounts` | quantum_solver.py:187-190 | the fraud draw followed by the normal draw has n_fraud fraud labels and n_normal normal labels |
| `Solver.ShuffledDrawFacts` | quantum_solver.py:187-194 | from the two draws without replacement and the shuffle: max_samples distinct rows, n_fraud of them fraud and n_normal normal |
| `Solver.PoolPrefixesDistinct` | quantum_solver.py:187-190 | draws from the fraud pool and the normal pool never share a row |
| `Solver.ValidDrawsExist` | quantum_solver.py:187-191 | whenever the draws are possible, outcomes of the two draws and the shuffle meeting their constraints exist |
| `Solver.ClassOneColumn` | quantum_solver.py:260 | `p[:, 1]` is each row's second entry, and fails without one |
| `Solver.RankingScores` | quantum_solver.py:258-264 | the AUC scores are predict_proba's class-1 column if the model has it, else the decision function, else the hard predictions |
| `Solver.EvaluateModel` | quantum_solver.py:250-306 | succeeds exactly when the scores and the 2x2 confusion matrix exist; it returns the predictions, the chosen scores, and the four scikit-learn scores of the predictions |
| `Predict.Truncate` | model/predict.py:30 | `int(x)` truncates toward zero |
| `Predict.ReadFeatures` | model/predict.py:28-37 | succeeds exactly when every named field is present and numeric; each feature is converted by float or int; otherwise it fails on a missing or non-numeric field |
| `Predict.FeatureVector` | model/predict.py:28-37 | the vector exists exactly when all eight fields are numeric, and has 8 components |
| `Predict.FeatureVectorOrder` | model/predict.py:28-37 | the components are amount, hour, day_of_week, is_weekend, amount_log, customer_tx_count, merchant_tx_count, merchant_category_encoded, in that order |
| `Predict.TransactionId` | model/predict.py:65 | the id is copied when present, else "unknown" |
| `Predict.PredictOne` | model/predict.py:55-68 | the record has the transaction's id and the model's probability unchanged; it is fraud exactly when that probability is above 0.5 |
| `Predict.PredictBatch` | model/predict.py:54-71 | one record per transaction, in input order, each the single-transaction prediction; fails exactly when some transaction cannot be read |
| `Predict.PredictFraud` | model/predict.py:43-71 | a single object is handled as a batch of one |
| `Predict.PredictionRecords` | model/predict.py:60-68 | record i belongs to transaction i, with its id, its probability and the strict 0.5 threshold |
| `Predict.HalfIsNotFraud` | model/predict.py:61 | a probability of exactly 0.5 is not fraud |
| `Predict.BatchesConcatenate` | model/predict.py:54-71 | predicting a concatenation of batches concatenates their predictions |
| `Engineering.DropMembers` | model/fraud_data_analysis.py:145-146 | dropping keeps exactly the columns not listed |
| `Engineering.EngineeredSchema` | model/fraud_data_analysis.py:119-148 | the result's columns are amount, merchant_id, customer_id, fraud, then the seven added columns; transaction_id, timestamp and merchant_category are gone |
| `Engineering.WeekendFlag` | model/fraud_data_analysis.py:128 | the flag is 0 or 1, and 1 exactly for days 5 and 6 |
| `Engineering.EngineerFeatures` | model/fraud_data_analysis.py:119-148 | one output row per input row; amount, ids and label kept; hour and day of week from the timestamp; weekend flag; log amount; group counts and category code |
| `Engineering.GroupCounts` | model/fraud_data_analysis.py:134-138 | each row's customer count and merchant count are the numbers of rows sharing its customer and its merchant, so at least 1 |
| `Engineering.CodeMonotone` | model/fraud_data_analysis.py:141-142 | a category that sorts earlier gets a smaller code |
| `Engineering.CategoryCode` | model/fraud_data_analysis.py:141-142 | LabelEncoder's code of a category that occurs is below the number of distinct categories |
| `Lexicographic.Less` | model/fraud_data_analysis.py:141-142 | the character-by-character comparison LabelEncoder sorts by holds exactly when the strings agree up to some position where the first has ended while the second has not, or has the smaller character |
| `Lexicographic.FirstCharacterDecides` | model/fraud_data_analysis.py:141-142 | when the first characters differ, they alone decide the order |
| `Lexicographic.DropCommonFirst` | model/fraud_data_analysis.py:141-142 | a common first character shifts the first difference by one |
| `Lexicographic.Irreflexive` | model/fraud_data_analysis.py:141-142 | no string sorts before itself |
| `Lexicographic.Transitive` | model/fraud_data_analysis.py:141-142 | the sort order is transitive |
| `Lexicographic.Total` | model/fraud_data_analysis.py:141-142 | of two different strings, one sorts before the other |
| `Engineering.CategoryEncodingInjective` | model/fraud_data_analysis.py:141-142 | two rows get the same code exactly when they have the same category, and codes follow sorted order |

## Left out

- The Qiskit feature map, the fidelity kernel, the simulator backends and scikit-learn's SVC are foreign floating-point code. They are the `Qsvm.Oracles` parameters; Qiskit's availability check and ImportError are not modelled.
- AUC-ROC and AUC-PR are an oracle returning `None` when the library raises. Printing, plotting and `compare_models` are presentation.
- Configuration and credential loading, the HTTP client and backend discovery are network plumbing. The same goes for dataset loading and synthesis, saving results, `main`, and the other entry points.
- The training script's "quantum" detector, the Kaggle loader, train/test splitting, SMOTE and the StandardScaler are not part of this model.
- `np.var`, the random draws and the shuffle are external. Variances and the argsort numpy returned are parameters. The two draws and the shuffled order are parameters too, constrained only by what `np.random.choice(..., replace=False)` and `np.random.shuffle` guarantee.
- `Predict.PredictOne`: the model and scaler loading, `scaler.transform` and `model.predict_proba` are one probability oracle over the raw feature vector.
- `Predict.ReadFeatures`: text that Python's `float()`/`int()` would parse (such as "12.5") is treated as non-numeric. JSON booleans, which Python reads as 0/1, are not modelled. A field that is neither a number nor text is not modelled. A request that is neither an object nor a list is not modelled.
- `FeatureSelection.SelectFeaturesGreedy`: the subset scorer is total. Failures inside it are not modelled. This includes the IndexError raised when `n_features` exceeds the matrix width, and a QSVM that cannot be trained.
- `Qsvm.Predict`: the kernel oracle is total, so the failure of the fidelity kernel on test rows whose width differs from the stored X_train is not modelled; the same holds for `Qsvm.PredictProba`. Where the code raises there, the model returns the SVC's answer on the oracle's matrix.
- `FeatureSelection.SelectorPredict`: selecting features again after `fit` can leave a stored list of another length than the one the QSVM was trained on. The code then hands the kernel test rows of the new width and training rows of the old one, and Qiskit raises; in the model the kernel oracle is total, so this failure is not modelled. The same holds for `FeatureSelection.SelectorPredictProba`.
- `Qsvm.Fit`: the SVC's own failures, such as a training set with one class, are not modelled: the SVC oracle always trains, so `fit` always leaves the QSVM trained.
- `FeatureSelection.SelectorFit`: because the SVC never fails here, the state the code reaches when it does is not modelled. The code stores the new, untrained QSVM before training it, so after a failing SVC a later `predict` would raise from the QSVM itself rather than from the selector's guard. `Consistent` rules that state out.
- `Metrics.ConfusionMatrixComponents`: labels are restricted to 0 and 1. Other label values are not modelled.
- `Metrics.ComputeAllMetrics`: reports integer-valued TPR/FPR `0` as the real 0.0. The Python int/float distinction is not kept.
- `Solver.EvaluateModel`: the AUC values are only printed and their failures are swallowed, so they are omitted. A length mismatch fails, but the exception scikit-learn raises first is not distinguished.
- `Engineering.EngineeredSchema`: the raw column order is the one of the synthetic table the loader builds. A table read from CSV has the file's column order, which is not modelled.
- `Engineering.EngineerFeatures`: the timestamp arrives as its parsed hour and day of week, and `log1p` is a parameter. Ids are integers. Missing values, which `groupby(...).count()` would skip, are not modelled. The input table is a value, so it is unchanged by construction.
