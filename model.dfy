/**
  `PetModel` (src/model.py): the hyper-parameter rules chosen from the data size,
  the training pipeline around the classifier, and the post-processing of the
  classifier's probability vector. The TF-IDF vectoriser and the random forest
  themselves are foreign code: the model records the configuration they are given
  and takes their probability output as a function.
 */
module Model {
  import opened Wrappers
  import opened Symptoms
  import Text
  import Preprocessing
  import RiskCalculator

  function Min(a: int, b: int): int { if a <= b then a else b }

  function Max(a: int, b: int): int { if a >= b then a else b }

  // ---------------------------------------------------------------------------
  // Hyper-parameters

  /** Arguments given to `TfidfVectorizer` (always with `stop_words='english'`). */
  datatype VectorizerConfig = VectorizerConfig(maxFeatures: nat, ngramLow: nat, ngramHigh: nat, minDf: nat)

  /** `configure_optimized_vectorizer`'s choice for `dataSize` texts. */
  function OptimizedVectorizer(dataSize: nat): (c: VectorizerConfig)
    ensures c.maxFeatures <= dataSize && c.maxFeatures <= 1500
    ensures dataSize > 0 ==> c.maxFeatures > 0
    ensures c.ngramLow == 1 && 2 <= c.ngramHigh <= 3 && 1 <= c.minDf <= 3
    ensures dataSize < 500 ==> c.maxFeatures <= 300
    ensures dataSize < 2000 ==> c.maxFeatures <= 800
  {
    if dataSize < 500 then VectorizerConfig(Min(300, dataSize), 1, 2, 1)
    else if dataSize < 2000 then VectorizerConfig(Min(800, dataSize / 2), 1, 3, 2)
    else VectorizerConfig(Min(1500, dataSize / 3), 1, 3, 3)
  }

  /** More data never means a shorter n-gram range or a smaller `min_df`. */
  lemma VectorizerGrowsWithData(n: nat, m: nat)
    requires n <= m
    ensures OptimizedVectorizer(n).ngramHigh <= OptimizedVectorizer(m).ngramHigh
    ensures OptimizedVectorizer(n).minDf <= OptimizedVectorizer(m).minDf
  {
  }

  /** The feature cap is not monotone: it drops where the middle bracket begins. */
  lemma FeatureCapDropsAtBracket()
    ensures OptimizedVectorizer(499).maxFeatures == 300
    ensures OptimizedVectorizer(500).maxFeatures == 250
  {
  }

  /** Arguments given to `RandomForestClassifier` (always with `random_state=42`). */
  datatype ForestConfig = ForestConfig(nEstimators: nat, maxDepth: nat, minSamplesSplit: nat)

  /** The forest's size, depth and split rule for `n` training rows. */
  function ForestFor(n: nat): (c: ForestConfig)
    ensures 50 <= c.nEstimators <= 200
    ensures 5 <= c.maxDepth <= 20
    ensures c.minSamplesSplit >= 2
  {
    ForestConfig(Min(200, Max(50, n / 10)), Min(20, Max(5, n / 100 + 5)), Max(2, n / 500))
  }

  /** Every forest parameter grows with the data, and saturates at its cap. */
  lemma ForestGrowsWithData(n: nat, m: nat)
    requires n <= m
    ensures ForestFor(n).nEstimators <= ForestFor(m).nEstimators
    ensures ForestFor(n).maxDepth <= ForestFor(m).maxDepth
    ensures ForestFor(n).minSamplesSplit <= ForestFor(m).minSamplesSplit
    ensures m >= 2000 ==> ForestFor(m).nEstimators == 200
    ensures m >= 1500 ==> ForestFor(m).maxDepth == 20
  {
    assert n / 10 <= m / 10 && n / 100 <= m / 100 && n / 500 <= m / 500;
  }

  /** How the accuracy is measured: on a held-out 20% (stratified), or on the
      training rows themselves when there are too few to split. */
  datatype Evaluation = HeldOut(testSize: real) | Resubstitution

  function EvaluationFor(n: nat): (e: Evaluation)
    ensures e.HeldOut? <==> n >= 20
    ensures e.HeldOut? ==> e.testSize == 0.2
  {
    if n >= 20 then HeldOut(0.2) else Resubstitution
  }

  /** The `processed_text` column next to each row's condition. */
  function ProcessedSamples(data: seq<Sample>): (r: seq<Sample>)
    ensures |r| == |data|
    ensures forall i :: 0 <= i < |data| ==>
      r[i] == Sample(Preprocessing.AdvancedTextPreprocessing(data[i].text), data[i].condition)
  {
    seq(|data|, i requires 0 <= i < |data| =>
      Sample(Preprocessing.AdvancedTextPreprocessing(data[i].text), data[i].condition))
  }

  /** The `processed_text` column on its own, one text per row. */
  function TextColumn(data: seq<Sample>): (texts: seq<string>)
    ensures |texts| == |data|
    ensures forall i :: 0 <= i < |data| ==> texts[i] == data[i].text
  {
    seq(|data|, i requires 0 <= i < |data| => data[i].text)
  }

  // ---------------------------------------------------------------------------
  // Post-processing of the probability vector

  /** One entry of `possible_diagnoses`. */
  datatype Prediction = Prediction(condition: string, probability: real, percentage: real, confidenceLevel: string)

  /** What `multi_label_diagnosis` returns. */
  datatype Diagnosis = Diagnosis(
    primary: Prediction,
    possible: seq<Prediction>,
    multiplePossibilities: bool,
    confidenceInterpretation: string,
    recommendations: seq<string>)

  /** The threshold `multi_label_diagnosis` uses when none is passed, as every
      caller in the service does. */
  const DefaultConfidenceThreshold: real := 0.15

  /** The error of a diagnosis asked of a model that was never trained. */
  const Untrained := "AttributeError"

  /** The primary diagnosis when no class passes the threshold. */
  const Uncertain := Prediction("Uncertain", 0.0, 0.0, "Very Low")

  /** The confidence bucket of a probability. */
  function ConfidenceLevel(p: real): (level: string)
    ensures level == "High" <==> p > 0.6
    ensures level == "Medium" <==> 0.3 < p <= 0.6
    ensures level == "Low" <==> p <= 0.3
  {
    if p > 0.6 then "High" else if p > 0.3 then "Medium" else "Low"
  }

  /** Position of a bucket in the order Low < Medium < High. */
  function LevelRank(level: string): nat {
    if level == "High" then 2 else if level == "Medium" then 1 else 0
  }

  /** A higher probability never lands in a lower bucket, and every bucket has a
      reading in the interpretation table. */
  lemma ConfidenceLevelIsMonotone(p: real, q: real)
    requires p <= q
    ensures LevelRank(ConfidenceLevel(p)) <= LevelRank(ConfidenceLevel(q))
    ensures RiskCalculator.InterpretConfidence(ConfidenceLevel(p)) != RiskCalculator.UnknownMeaning
  {
  }

  function MakePrediction(condition: string, p: real): Prediction {
    Prediction(condition, p, p * 100.0, ConfidenceLevel(p))
  }

  /** The classes whose probability reaches the threshold, in class order. */
  function Candidates(classes: seq<string>, probs: seq<real>, threshold: real): seq<Prediction>
    requires |classes| == |probs|
  {
    if classes == [] then []
    else
      var n := |classes| - 1;
      Candidates(classes[..n], probs[..n], threshold)
        + (if probs[n] >= threshold then [MakePrediction(classes[n], probs[n])] else [])
  }

  predicate SortedByProbability(ps: seq<Prediction>) {
    forall i, j :: 0 <= i < j < |ps| ==> ps[i].probability >= ps[j].probability
  }

  predicate DistinctConditions(ps: seq<Prediction>) {
    forall i, j :: 0 <= i < j < |ps| ==> ps[i].condition != ps[j].condition
  }

  predicate Distinct(xs: seq<string>) {
    forall i, j :: 0 <= i < j < |xs| ==> xs[i] != xs[j]
  }

  /** Place `p` before the first entry whose probability is not above its own. */
  function Insert(p: Prediction, sorted: seq<Prediction>): seq<Prediction> {
    if sorted == [] || sorted[0].probability <= p.probability then [p] + sorted
    else [sorted[0]] + Insert(p, sorted[1..])
  }

  /** `predictions.sort(key=probability, reverse=True)`: a stable sort, highest first. */
  function SortByProbability(ps: seq<Prediction>): seq<Prediction> {
    if ps == [] then [] else Insert(ps[0], SortByProbability(ps[1..]))
  }

  lemma {:induction false} InsertPermutes(p: Prediction, s: seq<Prediction>)
    ensures multiset(Insert(p, s)) == multiset(s) + multiset{p}
  {
    if s != [] && s[0].probability > p.probability {
      InsertPermutes(p, s[1..]);
      assert s == [s[0]] + s[1..];
    }
  }

  /** The predictions of probability `v`, in list order. */
  function WithProbability(ps: seq<Prediction>, v: real): seq<Prediction> {
    if ps == [] then [] else (if ps[0].probability == v then [ps[0]] else []) + WithProbability(ps[1..], v)
  }

  lemma WithProbabilityOfCons(h: Prediction, t: seq<Prediction>, v: real)
    ensures WithProbability([h] + t, v) == (if h.probability == v then [h] else []) + WithProbability(t, v)
  {
    assert ([h] + t)[0] == h && ([h] + t)[1..] == t;
  }

  /** Inserting `p` puts it ahead of every prediction of equal probability and
      leaves their order alone. */
  lemma {:induction false} InsertKeepsTies(p: Prediction, s: seq<Prediction>, v: real)
    ensures WithProbability(Insert(p, s), v) == (if p.probability == v then [p] else []) + WithProbability(s, v)
  {
    if s == [] || s[0].probability <= p.probability {
      WithProbabilityOfCons(p, s, v);
    } else {
      InsertKeepsTies(p, s[1..], v);
      WithProbabilityOfCons(s[0], Insert(p, s[1..]), v);
      assert s == [s[0]] + s[1..];
      WithProbabilityOfCons(s[0], s[1..], v);
    }
  }

  /** The sort is stable: predictions of equal probability keep their input order. */
  lemma {:induction false} SortIsStable(ps: seq<Prediction>, v: real)
    ensures WithProbability(SortByProbability(ps), v) == WithProbability(ps, v)
  {
    if ps != [] {
      SortIsStable(ps[1..], v);
      InsertKeepsTies(ps[0], SortByProbability(ps[1..]), v);
    }
  }

  /** The inserted list holds the new prediction and the old ones, nothing else. */
  lemma InsertMembers(p: Prediction, s: seq<Prediction>)
    ensures forall x :: x in Insert(p, s) <==> x == p || x in s
  {
    InsertPermutes(p, s);
    forall x ensures x in Insert(p, s) <==> x == p || x in s {
      assert x in Insert(p, s) <==> x in multiset(Insert(p, s));
      assert x in s <==> x in multiset(s);
    }
  }

  /** A sorted list stays sorted behind a head at least as probable as all of it. */
  lemma ConsSorted(h: Prediction, t: seq<Prediction>)
    requires SortedByProbability(t)
    requires forall k :: 0 <= k < |t| ==> h.probability >= t[k].probability
    ensures SortedByProbability([h] + t)
  {
    var r := [h] + t;
    forall i, j | 0 <= i < j < |r| ensures r[i].probability >= r[j].probability {
      assert r[j] == t[j - 1];
      if i > 0 { assert r[i] == t[i - 1]; }
    }
  }

  /** Distinct conditions stay distinct behind a head of a new condition. */
  lemma ConsDistinct(h: Prediction, t: seq<Prediction>)
    requires DistinctConditions(t)
    requires forall k :: 0 <= k < |t| ==> h.condition != t[k].condition
    ensures DistinctConditions([h] + t)
  {
    var r := [h] + t;
    forall i, j | 0 <= i < j < |r| ensures r[i].condition != r[j].condition {
      assert r[j] == t[j - 1];
      if i > 0 { assert r[i] == t[i - 1]; }
    }
  }

  lemma {:induction false} InsertKeepsOrder(p: Prediction, s: seq<Prediction>)
    requires SortedByProbability(s)
    ensures SortedByProbability(Insert(p, s))
  {
    if s == [] || s[0].probability <= p.probability {
      ConsSorted(p, s);
    } else {
      var rest := s[1..];
      var tail := Insert(p, rest);
      InsertKeepsOrder(p, rest);
      InsertMembers(p, rest);
      forall k | 0 <= k < |tail| ensures s[0].probability >= tail[k].probability {
        var x := tail[k];
        assert x in tail;
        if x != p {
          var m :| 0 <= m < |rest| && rest[m] == x;
          assert s[m + 1] == x;
        }
      }
      ConsSorted(s[0], tail);
    }
  }

  lemma {:induction false} InsertKeepsDistinct(p: Prediction, s: seq<Prediction>)
    requires DistinctConditions(s)
    requires forall x :: x in s ==> x.condition != p.condition
    ensures DistinctConditions(Insert(p, s))
  {
    if s == [] || s[0].probability <= p.probability {
      forall k | 0 <= k < |s| ensures p.condition != s[k].condition {
        assert s[k] in s;
      }
      ConsDistinct(p, s);
    } else {
      var rest := s[1..];
      var tail := Insert(p, rest);
      forall x | x in rest ensures x.condition != p.condition {
        var m :| 0 <= m < |rest| && rest[m] == x;
        assert s[m + 1] == x;
      }
      InsertKeepsDistinct(p, rest);
      InsertMembers(p, rest);
      forall k | 0 <= k < |tail| ensures s[0].condition != tail[k].condition {
        var x := tail[k];
        assert x in tail;
        if x != p {
          var m :| 0 <= m < |rest| && rest[m] == x;
          assert s[m + 1] == x;
        }
      }
      ConsDistinct(s[0], tail);
    }
  }

  lemma {:induction false} SortIsOrdered(ps: seq<Prediction>)
    ensures SortedByProbability(SortByProbability(ps))
  {
    if ps != [] {
      SortIsOrdered(ps[1..]);
      InsertKeepsOrder(ps[0], SortByProbability(ps[1..]));
    }
  }

  lemma {:induction false} SortPermutes(ps: seq<Prediction>)
    ensures multiset(SortByProbability(ps)) == multiset(ps)
  {
    if ps != [] {
      SortPermutes(ps[1..]);
      InsertPermutes(ps[0], SortByProbability(ps[1..]));
      assert ps == [ps[0]] + ps[1..];
    }
  }

  lemma {:induction false} SortKeepsDistinct(ps: seq<Prediction>)
    requires DistinctConditions(ps)
    ensures DistinctConditions(SortByProbability(ps))
  {
    if ps != [] {
      var rest := SortByProbability(ps[1..]);
      assert DistinctConditions(ps[1..]);
      SortKeepsDistinct(ps[1..]);
      SortPermutes(ps[1..]);
      forall x | x in rest ensures x.condition != ps[0].condition {
        assert x in multiset(ps[1..]);
        var k :| 0 <= k < |ps[1..]| && ps[1..][k] == x;
        assert ps[k + 1] == x;
      }
      InsertKeepsDistinct(ps[0], rest);
    }
  }

  /** The sort orders by probability, highest first, and is a permutation. */
  lemma SortIsOrderedPermutation(ps: seq<Prediction>)
    ensures SortedByProbability(SortByProbability(ps))
    ensures multiset(SortByProbability(ps)) == multiset(ps)
    ensures DistinctConditions(ps) ==> DistinctConditions(SortByProbability(ps))
  {
    SortIsOrdered(ps);
    SortPermutes(ps);
    if DistinctConditions(ps) {
      SortKeepsDistinct(ps);
    }
  }

  /** The candidates are exactly the predictions of the classes that reach the threshold. */
  lemma {:induction false} CandidatesAreThePassingClasses(classes: seq<string>, probs: seq<real>, threshold: real)
    requires |classes| == |probs|
    ensures forall x :: x in Candidates(classes, probs, threshold) <==>
      exists i :: 0 <= i < |classes| && probs[i] >= threshold && x == MakePrediction(classes[i], probs[i])
  {
    if classes != [] {
      var n := |classes| - 1;
      var init := Candidates(classes[..n], probs[..n], threshold);
      CandidatesAreThePassingClasses(classes[..n], probs[..n], threshold);
      forall x | x in Candidates(classes, probs, threshold)
        ensures exists i :: 0 <= i < |classes| && probs[i] >= threshold && x == MakePrediction(classes[i], probs[i])
      {
        if x in init {
          var i :| 0 <= i < n && probs[..n][i] >= threshold && x == MakePrediction(classes[..n][i], probs[..n][i]);
          assert probs[i] >= threshold && x == MakePrediction(classes[i], probs[i]);
        } else {
          assert probs[n] >= threshold && x == MakePrediction(classes[n], probs[n]);
        }
      }
      forall i | 0 <= i < |classes| && probs[i] >= threshold
        ensures MakePrediction(classes[i], probs[i]) in Candidates(classes, probs, threshold)
      {
        if i < n {
          assert classes[..n][i] == classes[i] && probs[..n][i] == probs[i];
        }
      }
    }
  }

  /** Distinct class names give candidates of distinct conditions: at most one per class. */
  lemma {:induction false} CandidatesAreDistinct(classes: seq<string>, probs: seq<real>, threshold: real)
    requires |classes| == |probs| && Distinct(classes)
    ensures DistinctConditions(Candidates(classes, probs, threshold))
  {
    if classes != [] {
      var n := |classes| - 1;
      var init := Candidates(classes[..n], probs[..n], threshold);
      assert Distinct(classes[..n]);
      CandidatesAreDistinct(classes[..n], probs[..n], threshold);
      if probs[n] >= threshold {
        CandidatesAreThePassingClasses(classes[..n], probs[..n], threshold);
        var r := Candidates(classes, probs, threshold);
        assert r == init + [MakePrediction(classes[n], probs[n])];
        forall i, j | 0 <= i < j < |r| ensures r[i].condition != r[j].condition {
          assert r[i] == init[i];
          if j == |init| {
            assert r[i] in init;
            var k :| 0 <= k < n && probs[..n][k] >= threshold && r[i] == MakePrediction(classes[..n][k], probs[..n][k]);
            assert r[i].condition == classes[k];
          } else {
            assert r[j] == init[j];
          }
        }
      }
    }
  }

  /** The diagnosis `multi_label_diagnosis` builds from class names and their probabilities. */
  function DiagnosisOf(classes: seq<string>, probs: seq<real>, threshold: real): Diagnosis
    requires |classes| == |probs|
  {
    var possible := SortByProbability(Candidates(classes, probs, threshold));
    var primary := if possible == [] then Uncertain else possible[0];
    Diagnosis(primary, possible, |possible| > 1,
              RiskCalculator.InterpretConfidence(primary.confidenceLevel), [])
  }

  /** Everything `multi_label_diagnosis` promises about its result. */
  lemma DiagnosisProperties(classes: seq<string>, probs: seq<real>, threshold: real)
    requires |classes| == |probs| && Distinct(classes)
    ensures var d := DiagnosisOf(classes, probs, threshold);
      && (forall x :: x in d.possible ==>
            x.probability >= threshold && x.percentage == x.probability * 100.0
            && x.confidenceLevel == ConfidenceLevel(x.probability))
      && (forall x :: x in d.possible <==>
            exists i :: 0 <= i < |classes| && probs[i] >= threshold && x == MakePrediction(classes[i], probs[i]))
      && DistinctConditions(d.possible)
      && SortedByProbability(d.possible)
      && (d.possible == [] ==> d.primary == Uncertain)
      && (d.possible != [] ==>
            d.primary == d.possible[0] && forall x :: x in d.possible ==> x.probability <= d.primary.probability)
      && (d.multiplePossibilities <==> |d.possible| > 1)
      && d.recommendations == []
      && d.confidenceInterpretation == RiskCalculator.InterpretConfidence(d.primary.confidenceLevel)
      && d.confidenceInterpretation != RiskCalculator.UnknownMeaning
  {
    var candidates := Candidates(classes, probs, threshold);
    var possible := SortByProbability(candidates);
    CandidatesAreThePassingClasses(classes, probs, threshold);
    CandidatesAreDistinct(classes, probs, threshold);
    SortIsOrderedPermutation(candidates);
    forall x ensures x in possible <==> x in candidates {
      assert x in possible <==> x in multiset(possible);
      assert x in candidates <==> x in multiset(candidates);
    }
    if possible != [] {
      forall x | x in possible ensures x.probability <= possible[0].probability {
        var k :| 0 <= k < |possible| && possible[k] == x;
      }
      assert possible[0] in possible;
      assert possible[0].confidenceLevel in {"High", "Medium", "Low"};
    }
  }

  // ---------------------------------------------------------------------------
  // The model object

  /** The loop over the probability vector: one prediction per class at or above
      the threshold, in class order. */
  method CollectCandidates(classes: seq<string>, probabilities: seq<real>, confidenceThreshold: real)
    returns (predictions: seq<Prediction>)
    requires |classes| == |probabilities|
    ensures predictions == Candidates(classes, probabilities, confidenceThreshold)
  {
    predictions := [];
    for i := 0 to |probabilities|
      invariant predictions == Candidates(classes[..i], probabilities[..i], confidenceThreshold)
    {
      var prob := probabilities[i];
      var condition := classes[i];
      if prob >= confidenceThreshold {
        predictions := predictions + [Prediction(condition, prob, prob * 100.0, ConfidenceLevel(prob))];
      }
      assert classes[..i + 1][..i] == classes[..i];
      assert probabilities[..i + 1][..i] == probabilities[..i];
    }
    assert classes[..|classes|] == classes && probabilities[..|probabilities|] == probabilities;
  }

  class PetModel {
    var vectorizer: Option<VectorizerConfig>
    var forest: Option<ForestConfig>
    var evaluation: Option<Evaluation>
    /** The rows the vectoriser and the forest are fitted on: `processed_text` and `condition`. */
    var trainingSet: seq<Sample>

    constructor ()
      ensures vectorizer == None && forest == None && evaluation == None && trainingSet == []
    {
      vectorizer, forest, evaluation, trainingSet := None, None, None, [];
    }

    /** `configure_optimized_vectorizer`: the vectoriser depends only on how many texts there are. */
    method ConfigureOptimizedVectorizer(texts: seq<string>) returns (config: VectorizerConfig)
      modifies this`vectorizer
      ensures config == OptimizedVectorizer(|texts|) && vectorizer == Some(config)
    {
      config := OptimizedVectorizer(|texts|);
      vectorizer := Some(config);
    }

    /** `train_improved_model`: drop incomplete rows, augment, normalise the texts,
        then size the vectoriser, the forest and the evaluation split by the row count. */
    method TrainImprovedModel(df: seq<SymptomRow>) returns (trained: bool)
      modifies this
      ensures var data := Preprocessing.AugmentedDataset(DropMissing(df));
        && trainingSet == ProcessedSamples(data)
        && vectorizer == Some(OptimizedVectorizer(|data|))
        && forest == Some(ForestFor(|data|))
        && evaluation == Some(EvaluationFor(|data|))
      ensures trained
    {
      var complete := DropMissing(df);
      var data := Preprocessing.SimpleDataAugmentation(complete);
      trainingSet := ProcessedSamples(data);
      var _ := ConfigureOptimizedVectorizer(TextColumn(trainingSet));
      evaluation := Some(EvaluationFor(|data|));
      forest := Some(ForestFor(|data|));
      trained := true;
    }

    /** `multi_label_diagnosis`: normalise the description, ask the classifier for
        one probability per class, keep the classes at or above the threshold,
        sort them, and pick the primary diagnosis. Before training the vectoriser
        and the forest are `None`, and calling them raises `AttributeError`. */
    method MultiLabelDiagnosis(symptomDescription: string, classes: seq<string>,
                               predictProba: string -> seq<real>,
                               confidenceThreshold: real := DefaultConfidenceThreshold)
      returns (result: Result<Diagnosis, string>)
      requires forall t :: |predictProba(t)| == |classes|
      ensures result.Err? <==> vectorizer.None? || forest.None?
      ensures result.Err? ==> result.error == Untrained
      ensures result.Ok? ==> result.value == DiagnosisOf(classes,
                                    predictProba(Preprocessing.AdvancedTextPreprocessing(symptomDescription)),
                                    confidenceThreshold)
    {
      var cleanedText := Preprocessing.AdvancedTextPreprocessing(symptomDescription);
      if vectorizer.None? || forest.None? {
        return Err(Untrained);
      }
      var probabilities := predictProba(cleanedText);
      var predictions := CollectCandidates(classes, probabilities, confidenceThreshold);
      predictions := SortByProbability(predictions);
      var primary := if |predictions| > 0 then predictions[0] else Uncertain;
      result := Ok(Diagnosis(primary, predictions, |predictions| > 1,
                             RiskCalculator.InterpretConfidence(primary.confidenceLevel), []));
    }
  }
}
