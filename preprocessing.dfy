/** Text normalisation and data augmentation of `Preprocessor` (src/preprocessing.py). */
module Preprocessing {
  import opened Wrappers
  import opened Text
  import opened Symptoms

  // ---------------------------------------------------------------------------
  // Whole-word substitution: `re.sub(rf'\b{w}\b', rep, s)`

  predicate IsWordString(w: string) {
    |w| > 0 && forall k :: 0 <= k < |w| ==> IsWordChar(w[k])
  }

  /** The text of `s` at `i` is `w`: exactly, or up to ASCII case when `ignoreCase`
      (`re.IGNORECASE`, with `w` written in lower case). */
  predicate SegmentMatches(s: string, i: nat, w: string, ignoreCase: bool)
    requires i + |w| <= |s|
  {
    if ignoreCase then Lower(s[i..i + |w|]) == w else s[i..i + |w|] == w
  }

  /** The pattern `\bw\b` matches at `i`: `w` is there and is neither preceded
      nor followed by a word character. */
  predicate WholeWordAt(s: string, i: nat, w: string, ignoreCase: bool) {
    && i + |w| <= |s|
    && SegmentMatches(s, i, w, ignoreCase)
    && (i == 0 || !IsWordChar(s[i - 1]))
    && (i + |w| == |s| || !IsWordChar(s[i + |w|]))
  }

  /** The substitution applied to `s[i..]`, left to right without overlaps, with
      `s[..i]` still visible to the look-behind of `\b`. */
  function ReplaceFrom(s: string, i: nat, w: string, rep: string, ignoreCase: bool): string
    requires IsWordString(w) && i <= |s|
    decreases |s| - i
  {
    if i == |s| then []
    else if WholeWordAt(s, i, w, ignoreCase) then rep + ReplaceFrom(s, i + |w|, w, rep, ignoreCase)
    else [s[i]] + ReplaceFrom(s, i + 1, w, rep, ignoreCase)
  }

  function ReplaceWholeWord(s: string, w: string, rep: string, ignoreCase: bool): string
    requires IsWordString(w)
  {
    ReplaceFrom(s, 0, w, rep, ignoreCase)
  }

  /** Where `w` never stands as a whole word, the substitution changes nothing:
      occurrences inside longer words are left alone. */
  lemma {:induction false} ReplaceWithoutWholeWord(s: string, i: nat, w: string, rep: string, ignoreCase: bool)
    requires IsWordString(w) && i <= |s|
    requires forall j :: i <= j < |s| ==> !WholeWordAt(s, j, w, ignoreCase)
    ensures ReplaceFrom(s, i, w, rep, ignoreCase) == s[i..]
    decreases |s| - i
  {
    if i < |s| {
      ReplaceWithoutWholeWord(s, i + 1, w, rep, ignoreCase);
      assert s[i..] == [s[i]] + s[i + 1..];
    }
  }

  /** A whole-word occurrence is replaced, and the scan resumes after it. */
  lemma ReplaceAtWholeWord(s: string, i: nat, w: string, rep: string, ignoreCase: bool)
    requires IsWordString(w) && i < |s|
    requires WholeWordAt(s, i, w, ignoreCase)
    ensures ReplaceFrom(s, i, w, rep, ignoreCase) == rep + ReplaceFrom(s, i + |w|, w, rep, ignoreCase)
  {
  }

  /** The substitution introduces no characters besides those of `s` and `rep`. */
  lemma {:induction false} CharsOfReplace(s: string, i: nat, w: string, rep: string, ignoreCase: bool)
    requires IsWordString(w) && i <= |s|
    ensures forall c :: c in ReplaceFrom(s, i, w, rep, ignoreCase) ==> c in s || c in rep
    decreases |s| - i
  {
    if i < |s| {
      if WholeWordAt(s, i, w, ignoreCase) {
        CharsOfReplace(s, i + |w|, w, rep, ignoreCase);
      } else {
        CharsOfReplace(s, i + 1, w, rep, ignoreCase);
      }
    }
  }

  // ---------------------------------------------------------------------------
  // advanced_text_preprocessing

  /** The medical abbreviations, in the order they are expanded. */
  const MedicalExpansions: seq<(string, string)> := [
    ("gi", "gastrointestinal"),
    ("dka", "diabetic ketoacidosis"),
    ("uri", "upper respiratory infection"),
    ("uti", "urinary tract infection")
  ]

  /** Lower-case letters and spaces only. */
  predicate IsLowerPhrase(s: string) {
    forall k :: 0 <= k < |s| ==> 'a' <= s[k] <= 'z' || s[k] == ' '
  }

  lemma MedicalExpansionsWellFormed()
    ensures forall k :: 0 <= k < |MedicalExpansions| ==> IsWordString(MedicalExpansions[k].0)
    ensures forall k :: 0 <= k < |MedicalExpansions| ==> IsLowercase(MedicalExpansions[k].1)
    ensures forall k, c :: 0 <= k < |MedicalExpansions| && c in MedicalExpansions[k].1 ==> IsWordChar(c) || c == ' '
  {
    ExpansionsArePhrases();
    forall k | 0 <= k < |MedicalExpansions| ensures IsLowercase(MedicalExpansions[k].1) {
      PhraseShape(MedicalExpansions[k].1);
    }
    forall k, c | 0 <= k < |MedicalExpansions| && c in MedicalExpansions[k].1
      ensures IsWordChar(c) || c == ' '
    {
      PhraseShape(MedicalExpansions[k].1);
    }
  }

  lemma ExpansionsArePhrases()
    ensures forall k :: 0 <= k < |MedicalExpansions| ==> IsLowerPhrase(MedicalExpansions[k].1)
  {
    assert IsLowerPhrase(MedicalExpansions[0].1);
    assert IsLowerPhrase(MedicalExpansions[1].1);
    assert IsLowerPhrase(MedicalExpansions[2].1);
    assert IsLowerPhrase(MedicalExpansions[3].1);
  }

  /** A phrase of lower-case letters and spaces has no capital and no other character. */
  lemma PhraseShape(s: string)
    requires IsLowerPhrase(s)
    ensures IsLowercase(s)
    ensures forall c :: c in s ==> IsWordChar(c) || c == ' '
  {
    forall c | c in s ensures IsWordChar(c) || c == ' ' {
      var j :| 0 <= j < |s| && s[j] == c;
    }
  }

  /** The expansion loop: each abbreviation of `table[from..]` in turn, whole words only. */
  function ExpandFrom(text: string, table: seq<(string, string)>): string
    requires forall k :: 0 <= k < |table| ==> IsWordString(table[k].0)
    decreases |table|
  {
    if table == [] then text
    else ExpandFrom(ReplaceWholeWord(text, table[0].0, table[0].1, false), table[1..])
  }

  function ExpandAbbreviations(text: string): string {
    MedicalExpansionsWellFormed();
    ExpandFrom(text, MedicalExpansions)
  }

  /** `re.sub(r'[^\w\s\-]', ' ', text)`. */
  function PunctuationToSpace(text: string): (r: string)
    ensures |r| == |text|
    ensures forall i :: 0 <= i < |r| ==> IsWordChar(r[i]) || IsSpace(r[i]) || r[i] == '-'
    ensures forall i :: 0 <= i < |r| ==>
      (r[i] == text[i] <==> IsWordChar(text[i]) || IsSpace(text[i]) || text[i] == '-' || text[i] == ' ')
  {
    seq(|text|, i requires 0 <= i < |text| =>
      if IsWordChar(text[i]) || IsSpace(text[i]) || text[i] == '-' then text[i] else ' ')
  }

  /** `advanced_text_preprocessing`: lower-case, expand the abbreviations, turn
      punctuation into spaces, collapse whitespace. */
  function AdvancedTextPreprocessing(text: string): string {
    Collapse(PunctuationToSpace(ExpandAbbreviations(Lower(text))))
  }

  /** Characters the normaliser may leave behind. */
  predicate IsTokenChar(c: char) {
    (IsWordChar(c) && !IsUpper(c)) || c == '-' || c == ' '
  }

  lemma {:induction false} ExpandKeepsChars(text: string, table: seq<(string, string)>)
    requires forall k :: 0 <= k < |table| ==> IsWordString(table[k].0)
    requires forall k, c :: 0 <= k < |table| && c in table[k].1 ==> IsWordChar(c) || c == ' '
    requires forall k :: 0 <= k < |table| ==> IsLowercase(table[k].1)
    ensures forall c :: c in ExpandFrom(text, table) ==> c in text || (IsWordChar(c) && !IsUpper(c)) || c == ' '
    decreases |table|
  {
    if table != [] {
      var once := ReplaceWholeWord(text, table[0].0, table[0].1, false);
      CharsOfReplace(text, 0, table[0].0, table[0].1, false);
      ExpandKeepsChars(once, table[1..]);
      forall c | c in table[0].1 ensures !IsUpper(c) {
        var j :| 0 <= j < |table[0].1| && table[0].1[j] == c;
      }
    }
  }

  /** What `advanced_text_preprocessing` returns is lower-case, holds only word
      characters, `-` and spaces, and is tidy: no leading or trailing space and
      single spaces between words. */
  lemma PreprocessedTextShape(text: string)
    ensures IsLowercase(AdvancedTextPreprocessing(text))
    ensures forall c :: c in AdvancedTextPreprocessing(text) ==> IsTokenChar(c)
    ensures Tidy(AdvancedTextPreprocessing(text))
  {
    var lowered := Lower(text);
    MedicalExpansionsWellFormed();
    var expanded := ExpandAbbreviations(lowered);
    ExpandKeepsChars(lowered, MedicalExpansions);
    var cleaned := PunctuationToSpace(expanded);
    forall c | c in cleaned && !IsSpace(c) ensures IsTokenChar(c) {
      var j :| 0 <= j < |cleaned| && cleaned[j] == c;
      if c != ' ' {
        assert c == expanded[j];
        if c in lowered {
          var m :| 0 <= m < |lowered| && lowered[m] == c;
        }
      }
    }
    CharsOfCollapse(cleaned);
    CollapseIsTidy(cleaned);
    var r := AdvancedTextPreprocessing(text);
    forall i | 0 <= i < |r| ensures !IsUpper(r[i]) {
      assert r[i] in r;
    }
  }

  /** Abbreviations are expanded as whole words only. */
  lemma AbbreviationExamples()
    ensures ReplaceWholeWord("gi upset", "gi", "gastrointestinal", false) == "gastrointestinal upset"
    ensures ReplaceWholeWord("giant", "gi", "gastrointestinal", false) == "giant"
  {
    StandaloneAbbreviationIsExpanded();
    AbbreviationInsideWordIsKept();
  }

  lemma StandaloneAbbreviationIsExpanded()
    ensures ReplaceWholeWord("gi upset", "gi", "gastrointestinal", false) == "gastrointestinal upset"
  {
    var s := "gi upset";
    assert WholeWordAt(s, 0, "gi", false) by {
      assert s[..2] == "gi" && s[2] == ' ';
    }
    forall j | 2 <= j < |s| ensures !WholeWordAt(s, j, "gi", false) {
      if j + 2 <= |s| {
        assert s[j..j + 2][0] == s[j] != 'g';
      }
    }
    ReplaceWithoutWholeWord(s, 2, "gi", "gastrointestinal", false);
    assert s[2..] == " upset";
  }

  lemma AbbreviationInsideWordIsKept()
    ensures ReplaceWholeWord("giant", "gi", "gastrointestinal", false) == "giant"
  {
    var t := "giant";
    assert !IsWordChar(t[2]) == false;
    ReplaceWithoutWholeWord(t, 0, "gi", "gastrointestinal", false);
  }

  // ---------------------------------------------------------------------------
  // simple_data_augmentation

  /** The synonym table, in dictionary order. */
  const Synonyms: seq<(string, string)> := [
    ("vomiting", "throwing up"),
    ("diarrhea", "loose stool"),
    ("assess", "evaluate"),
    ("monitor", "observe"),
    ("implement", "apply")
  ]

  /** Rows at or above this count are not augmented. */
  const AugmentationLimit := 1000

  lemma SynonymKeysAreWords()
    ensures forall k :: 0 <= k < |Synonyms| ==> IsWordString(Synonyms[k].0)
  {
  }

  /** Index of the first synonym key, from `from` on, that occurs as a substring of
      `lowered`; `|Synonyms|` when none does. */
  function FirstKey(lowered: string, from: nat): (k: nat)
    requires from <= |Synonyms|
    ensures from <= k <= |Synonyms|
    ensures forall j :: from <= j < k ==> !Contains(lowered, Synonyms[j].0)
    ensures k < |Synonyms| ==> Contains(lowered, Synonyms[k].0)
    decreases |Synonyms| - from
  {
    if from == |Synonyms| then from
    else if Contains(lowered, Synonyms[from].0) then from
    else FirstKey(lowered, from + 1)
  }

  /** The text after the synonym pass: only the first key found is tried, even
      when its whole-word substitution changes nothing. */
  function AugmentedText(text: string): string {
    var k := FirstKey(Lower(text), 0);
    if k == |Synonyms| then text
    else
      SynonymKeysAreWords();
      ReplaceWholeWord(text, Synonyms[k].0, Synonyms[k].1, true)
  }

  /** The extra row produced for `row`, if its text changed. */
  function AugmentedRow(row: Sample): Option<Sample> {
    var t := AugmentedText(row.text);
    if t != row.text then Some(Sample(t, row.condition)) else None
  }

  /** The augmented rows, in the order of their originals. */
  function Augmentations(rows: seq<Sample>): seq<Sample> {
    if rows == [] then []
    else
      var last := rows[|rows| - 1];
      Augmentations(rows[..|rows| - 1])
        + (match AugmentedRow(last) case Some(a) => [a] case None => [])
  }

  /** The data set `simple_data_augmentation` returns: below the limit, the
      original rows followed by the augmented ones; otherwise the input unchanged. */
  function AugmentedDataset(df: seq<Sample>): seq<Sample> {
    if |df| < AugmentationLimit then df + Augmentations(df) else df
  }

  /** `simple_data_augmentation`. */
  method SimpleDataAugmentation(df: seq<Sample>) returns (out: seq<Sample>)
    ensures out == AugmentedDataset(df)
    ensures |df| <= |out| <= 2 * |df| && out[..|df|] == df
    ensures |df| >= AugmentationLimit ==> out == df
  {
    var augmented: seq<Sample> := [];
    if |df| < AugmentationLimit {
      SynonymKeysAreWords();
      for i := 0 to |df|
        invariant augmented == Augmentations(df[..i])
      {
        var originalText := df[i].text;
        var lowered := Lower(originalText);
        var augmentedText := originalText;
        var j := 0;
        while j < |Synonyms|
          invariant 0 <= j <= |Synonyms|
          invariant FirstKey(lowered, j) == FirstKey(lowered, 0)
          invariant augmentedText == originalText
        {
          if Contains(lowered, Synonyms[j].0) {
            augmentedText := ReplaceWholeWord(originalText, Synonyms[j].0, Synonyms[j].1, true);
            break;
          }
          j := j + 1;
        }
        assert augmentedText == AugmentedText(originalText);
        if augmentedText != originalText {
          augmented := augmented + [Sample(augmentedText, df[i].condition)];
        }
        assert df[..i + 1][..i] == df[..i];
      }
      assert df[..|df|] == df;
    }
    out := df + augmented;
    AugmentationSize(df);
  }

  /** The output keeps every original row in front and at most doubles in size. */
  lemma {:induction false} AugmentationSize(rows: seq<Sample>)
    ensures |Augmentations(rows)| <= |rows|
  {
    if rows != [] {
      AugmentationSize(rows[..|rows| - 1]);
    }
  }

  /** Every augmented row comes from an original row whose text it changed, and
      carries that row's condition. */
  lemma {:induction false} AugmentationsComeFromRows(rows: seq<Sample>)
    ensures forall a :: a in Augmentations(rows) ==>
      exists j :: 0 <= j < |rows| && AugmentedRow(rows[j]) == Some(a)
                  && a.condition == rows[j].condition && a.text != rows[j].text
  {
    if rows != [] {
      var init := rows[..|rows| - 1];
      AugmentationsComeFromRows(init);
      forall a | a in Augmentations(rows)
        ensures exists j :: 0 <= j < |rows| && AugmentedRow(rows[j]) == Some(a)
                            && a.condition == rows[j].condition && a.text != rows[j].text
      {
        if a in Augmentations(init) {
          var j :| 0 <= j < |init| && AugmentedRow(init[j]) == Some(a)
                   && a.condition == init[j].condition && a.text != init[j].text;
          assert rows[j] == init[j];
        } else {
          assert AugmentedRow(rows[|rows| - 1]) == Some(a);
        }
      }
    }
  }

  /** Conversely, every row whose text the synonym pass changes yields an augmented row. */
  lemma {:induction false} ChangedRowsAreAugmented(rows: seq<Sample>, j: nat)
    requires j < |rows| && AugmentedRow(rows[j]).Some?
    ensures AugmentedRow(rows[j]).value in Augmentations(rows)
  {
    var init := rows[..|rows| - 1];
    if j < |rows| - 1 {
      assert init[j] == rows[j];
      ChangedRowsAreAugmented(init, j);
    }
  }

  /** The synonym pass stops at the first key found as a substring, even when its
      whole-word substitution then changes nothing: "vomiting" occurs only inside
      "vomitings", so the row yields nothing although "diarrhea" stands alone. */
  lemma FirstKeyStopsTheScan(condition: string)
    ensures AugmentedRow(Sample("vomitings diarrhea", condition)) == None
  {
    var t := "vomitings diarrhea";
    VomitingIsTheFirstKey();
    VomitingNeverStandsAlone();
    SynonymKeysAreWords();
    assert AugmentedText(t) == ReplaceWholeWord(t, "vomiting", "throwing up", true);
  }

  lemma VomitingIsTheFirstKey()
    ensures FirstKey(Lower("vomitings diarrhea"), 0) == 0 && Synonyms[0].0 == "vomiting"
  {
    var t := "vomitings diarrhea";
    var lowered := Lower(t);
    assert lowered == t;
    assert OccursAt(lowered, "vomiting", 0);
  }

  lemma VomitingNeverStandsAlone()
    ensures IsWordString("vomiting")
    ensures ReplaceWholeWord("vomitings diarrhea", "vomiting", "throwing up", true) == "vomitings diarrhea"
  {
    var t := "vomitings diarrhea";
    SynonymKeysAreWords();
    assert Synonyms[0].0 == "vomiting";
    forall j | 0 <= j < |t| ensures !WholeWordAt(t, j, "vomiting", true) {
      if j > 0 && j + 8 <= |t| {
        assert Lower(t[j..j + 8])[0] == ToLower(t[j]);
      }
    }
    ReplaceWithoutWholeWord(t, 0, "vomiting", "throwing up", true);
  }
}
