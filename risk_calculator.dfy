/** The confidence-interpretation table of `RiskCalculator` (src/risk_calculator.py). */
module RiskCalculator {

  const HighMeaning := "Strong indication - recommend veterinary consultation"
  const MediumMeaning := "Possible condition - monitor symptoms and consider veterinary advice"
  const LowMeaning := "Uncertain diagnosis - veterinary examination recommended"
  const VeryLowMeaning := "Unable to determine - professional evaluation necessary"
  const UnknownMeaning := "Unknown confidence level"

  /** The four confidence levels the table knows, keyed exactly as written. */
  const Interpretations: map<string, string> := map[
    "High" := HighMeaning,
    "Medium" := MediumMeaning,
    "Low" := LowMeaning,
    "Very Low" := VeryLowMeaning
  ]

  /** `interpret_confidence`: a dictionary lookup with a default; total on every string. */
  function InterpretConfidence(confidenceLevel: string): (meaning: string)
    ensures confidenceLevel == "High" ==> meaning == HighMeaning
    ensures confidenceLevel == "Medium" ==> meaning == MediumMeaning
    ensures confidenceLevel == "Low" ==> meaning == LowMeaning
    ensures confidenceLevel == "Very Low" ==> meaning == VeryLowMeaning
    ensures meaning == UnknownMeaning <==> confidenceLevel !in {"High", "Medium", "Low", "Very Low"}
  {
    if confidenceLevel in Interpretations then Interpretations[confidenceLevel] else UnknownMeaning
  }

  /** Distinct levels get distinct sentences: the reading of a level identifies it. */
  lemma InterpretationIsInjective(a: string, b: string)
    requires a != b
    requires a in Interpretations && b in Interpretations
    ensures InterpretConfidence(a) != InterpretConfidence(b)
  {
    // the four sentences have pairwise different lengths
    assert |HighMeaning| == 53 && |MediumMeaning| == 68;
    assert |LowMeaning| == 56 && |VeryLowMeaning| == 55;
  }

  /** The keys are case-sensitive: a lower-cased level falls through to the default. */
  lemma LookupIsCaseSensitive()
    ensures InterpretConfidence("high") == UnknownMeaning
    ensures InterpretConfidence("very low") == UnknownMeaning
  {
  }
}
