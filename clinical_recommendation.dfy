/**
  `ClinicalRecommendation` (src/clinical_recommendation.py): for every condition
  of the symptoms table, collect the lower-cased notes, pull out the phrases that
  follow a clinical verb ("assess hydration", "rule out pancreatitis") and keep up
  to eight distinct ones in a per-condition entry.
 */
module ClinicalRecommendations {
  import opened Wrappers
  import opened Symptoms
  import opened Text

  // ---------------------------------------------------------------------------
  // The rows of one condition

  /** The conditions in order of first appearance (`unique()` without the NaN). */
  function UniqueConditions(data: seq<SymptomRow>): (conds: seq<string>)
    ensures forall i, j :: 0 <= i < j < |conds| ==> conds[i] != conds[j]
    ensures forall c :: c in conds <==> exists i :: 0 <= i < |data| && data[i].condition == Some(c)
  {
    if data == [] then []
    else
      var n := |data| - 1;
      var earlier := UniqueConditions(data[..n]);
      assert forall c :: (exists i :: 0 <= i < n && data[..n][i].condition == Some(c))
                      <==> (exists i :: 0 <= i < n && data[i].condition == Some(c));
      if data[n].condition.Some? && data[n].condition.value !in earlier
      then earlier + [data[n].condition.value]
      else earlier
  }

  /** `[str(t).lower() for t in rows of condition c if notna(t)]`, in row order. */
  function Notes(data: seq<SymptomRow>, c: string): seq<string> {
    if data == [] then []
    else
      var n := |data| - 1;
      Notes(data[..n], c)
        + (if data[n].condition == Some(c) && data[n].text.Some? then [Lower(data[n].text.value)] else [])
  }

  /** A condition has no more notes than there are rows. */
  lemma {:induction false} NotesCount(data: seq<SymptomRow>, c: string)
    ensures |Notes(data, c)| <= |data|
  {
    if data != [] {
      NotesCount(data[..|data| - 1], c);
    }
  }

  /** A note of `c` is exactly the lower-cased text of one of its rows that has one. */
  lemma {:induction false} NotesAreConditionTexts(data: seq<SymptomRow>, c: string)
    ensures forall x :: x in Notes(data, c) <==>
      exists i :: 0 <= i < |data| && data[i].condition == Some(c) && data[i].text.Some?
                  && x == Lower(data[i].text.value)
  {
    if data != [] {
      var n := |data| - 1;
      NotesAreConditionTexts(data[..n], c);
      forall x ensures (x in Notes(data[..n], c) <==>
        exists i :: 0 <= i < n && data[i].condition == Some(c) && data[i].text.Some? && x == Lower(data[i].text.value))
      {
        if x in Notes(data[..n], c) {
          var i :| 0 <= i < n && data[..n][i].condition == Some(c) && data[..n][i].text.Some?
                   && x == Lower(data[..n][i].text.value);
          assert data[i] == data[..n][i];
        }
        if exists i :: 0 <= i < n && data[i].condition == Some(c) && data[i].text.Some? && x == Lower(data[i].text.value) {
          var i :| 0 <= i < n && data[i].condition == Some(c) && data[i].text.Some? && x == Lower(data[i].text.value);
          assert data[..n][i] == data[i];
        }
      }
    }
  }

  /** The notes of `c` are exactly the lower-cased texts of its rows that have one. */
  lemma NotesOfCondition(data: seq<SymptomRow>, c: string)
    ensures |Notes(data, c)| <= |data|
    ensures forall x :: x in Notes(data, c) <==>
      exists i :: 0 <= i < |data| && data[i].condition == Some(c) && data[i].text.Some?
                  && x == Lower(data[i].text.value)
    ensures Notes(data, c) != [] ==> exists i :: 0 <= i < |data| && data[i].condition == Some(c)
  {
    NotesCount(data, c);
    NotesAreConditionTexts(data, c);
    if Notes(data, c) != [] {
      assert Notes(data, c)[0] in Notes(data, c);
    }
  }

  // ---------------------------------------------------------------------------
  // `re.findall(prefix + r'\w+\s?\w*', text)`

  /** The clinical verbs the notes are searched for, in search order. */
  const ActionPrefixes: seq<string> :=
    ["rule out ", "assess ", "monitor ", "evaluate ", "perform ", "implement ", "emphasize "]

  /** The end of the longest run of word characters starting at `i`. */
  function WordRunEnd(s: string, i: nat): (e: nat)
    requires i <= |s|
    ensures i <= e <= |s|
    ensures forall k :: i <= k < e ==> IsWordChar(s[k])
    ensures e < |s| ==> !IsWordChar(s[e])
    decreases |s| - i
  {
    if i < |s| && IsWordChar(s[i]) then WordRunEnd(s, i + 1) else i
  }

  /** Where a match of `prefix\w+\s?\w*` that starts at `i` ends, if one does.
      No backtracking is ever needed: `\w+` takes the whole run, `\s?` one
      whitespace character when there is one, and `\w*` the run after it. */
  function MatchEnd(s: string, prefix: string, i: nat): (e: Option<nat>)
    requires i <= |s|
    ensures e.Some? ==> i + |prefix| < e.value <= |s|
  {
    if !OccursAt(s, prefix, i) then None
    else
      var j := i + |prefix|;
      var first := WordRunEnd(s, j);
      if first == j then None
      else if first < |s| && IsSpace(s[first]) then Some(WordRunEnd(s, first + 1))
      else Some(first)
  }

  /** All non-overlapping matches, scanning left to right from `i`. */
  function FindAll(s: string, prefix: string, i: nat): seq<string>
    requires i <= |s|
    decreases |s| - i
  {
    if i == |s| then []
    else
      match MatchEnd(s, prefix, i)
      case Some(e) => [s[i..e]] + FindAll(s, prefix, e)
      case None => FindAll(s, prefix, i + 1)
  }

  /** What a match looks like: the prefix, one or more word characters, then
      optionally one whitespace character followed by word characters. */
  predicate IsAction(x: string, prefix: string) {
    |x| > |prefix| && x[..|prefix|] == prefix && IsWordChar(x[|prefix|])
    && (forall k :: |prefix| <= k < |x| ==> IsWordChar(x[k]) || IsSpace(x[k]))
    && (forall k, l :: |prefix| <= k < l < |x| && IsSpace(x[k]) ==> !IsSpace(x[l]))
  }

  lemma MatchIsAction(s: string, prefix: string, i: nat)
    requires i <= |s| && MatchEnd(s, prefix, i).Some?
    ensures IsAction(s[i..MatchEnd(s, prefix, i).value], prefix)
    ensures OccursAt(s, s[i..MatchEnd(s, prefix, i).value], i)
  {
    var e := MatchEnd(s, prefix, i).value;
    var x := s[i..e];
    var j := i + |prefix|;
    var first := WordRunEnd(s, j);
    assert x[..|prefix|] == s[i..j];
    forall k, l | |prefix| <= k < l < |x| && IsSpace(x[k]) ensures !IsSpace(x[l]) {
      assert x[k] == s[i + k] && x[l] == s[i + l];
    }
  }

  /** Every match has the shape of the pattern and is a piece of the searched text. */
  lemma {:induction false} FoundActionsAreActions(s: string, prefix: string, i: nat)
    requires i <= |s|
    ensures forall x :: x in FindAll(s, prefix, i) ==> IsAction(x, prefix) && Contains(s, x)
    decreases |s| - i
  {
    if i < |s| {
      match MatchEnd(s, prefix, i)
      case Some(e) =>
        FoundActionsAreActions(s, prefix, e);
        MatchIsAction(s, prefix, i);
        assert OccursAt(s, s[i..e], i);
      case None =>
        FoundActionsAreActions(s, prefix, i + 1);
    }
  }

  /** A text in which the prefix never occurs yields no match. */
  lemma {:induction false} NoPrefixNoAction(s: string, prefix: string, i: nat)
    requires i <= |s|
    requires forall k :: i <= k <= |s| ==> !OccursAt(s, prefix, k)
    ensures FindAll(s, prefix, i) == []
    decreases |s| - i
  {
    if i < |s| {
      NoPrefixNoAction(s, prefix, i + 1);
    }
  }

  /** A prefix followed by a word at the very start of the text is the first match. */
  lemma MatchAtStart(s: string, prefix: string)
    requires OccursAt(s, prefix, 0) && |prefix| < |s| && IsWordChar(s[|prefix|])
    ensures FindAll(s, prefix, 0) != [] && FindAll(s, prefix, 0)[0][..|prefix|] == prefix
  {
    assert WordRunEnd(s, |prefix|) > |prefix|;
    MatchIsAction(s, prefix, 0);
  }

  /** The matches of every pattern, pattern after pattern (`extracted_actions`). */
  function ActionsFor(s: string, prefixes: seq<string>): seq<string> {
    if prefixes == [] then []
    else ActionsFor(s, prefixes[..|prefixes| - 1]) + FindAll(s, prefixes[|prefixes| - 1], 0)
  }

  /** Every extracted phrase starts with one of the clinical verbs and occurs in the text. */
  lemma {:induction false} ExtractedActionsAreActions(s: string, prefixes: seq<string>)
    ensures forall x :: x in ActionsFor(s, prefixes) ==>
      Contains(s, x) && exists p :: p in prefixes && IsAction(x, p)
  {
    if prefixes != [] {
      var n := |prefixes| - 1;
      ExtractedActionsAreActions(s, prefixes[..n]);
      FoundActionsAreActions(s, prefixes[n], 0);
      forall x | x in ActionsFor(s, prefixes) ensures Contains(s, x) && exists p :: p in prefixes && IsAction(x, p) {
        if x in ActionsFor(s, prefixes[..n]) {
          var p :| p in prefixes[..n] && IsAction(x, p);
          assert p in prefixes;
        } else {
          assert IsAction(x, prefixes[n]);
        }
      }
    }
  }

  // ---------------------------------------------------------------------------
  // The per-condition entry

  /** `{'raw_notes_count', 'extracted_actions', 'sample_notes'}`. */
  datatype Entry = Entry(rawNotesCount: nat, extractedActions: seq<string>, sampleNotes: seq<string>)

  function Min(a: int, b: int): int { if a <= b then a else b }

  /** `list(set(actions))[:8]` as far as it is determined: up to eight distinct
      phrases from `actions`, as many as there are when fewer. The order of a
      Python set is not modelled. */
  predicate ChosenFrom(chosen: seq<string>, actions: seq<string>) {
    && (forall i, j :: 0 <= i < j < |chosen| ==> chosen[i] != chosen[j])
    && (forall x :: x in chosen ==> x in actions)
    && |chosen| == Min(8, |set x | x in actions|)
  }

  /** Picks the phrases of one entry. */
  method ChooseActions(actions: seq<string>) returns (chosen: seq<string>)
    ensures ChosenFrom(chosen, actions)
  {
    var pool := set x | x in actions;
    ghost var all := pool;
    chosen := [];
    while |chosen| < 8 && pool != {}
      invariant pool <= all
      invariant |pool| + |chosen| == |all|
      invariant forall x :: x in chosen ==> x in all && x !in pool
      invariant forall i, j :: 0 <= i < j < |chosen| ==> chosen[i] != chosen[j]
      invariant |chosen| <= 8
      decreases |pool|
    {
      var x :| x in pool;
      chosen := chosen + [x];
      pool := pool - {x};
    }
    assert |chosen| == Min(8, |all|);
  }

  /** What the entry of condition `c` holds after an extraction over `data`. */
  predicate EntryFits(entry: Entry, data: seq<SymptomRow>, c: string) {
    var notes := Notes(data, c);
    && entry.rawNotesCount == |notes|
    && entry.sampleNotes == notes[..Min(1, |notes|)]
    && ChosenFrom(entry.extractedActions, ActionsFor(Join(notes), ActionPrefixes))
  }

  /** The phrases kept for a condition come from its own notes: each starts
      with a clinical verb and occurs in the notes joined by spaces. */
  lemma EntryActionsComeFromNotes(entry: Entry, data: seq<SymptomRow>, c: string)
    requires EntryFits(entry, data, c)
    ensures |entry.extractedActions| <= 8 && |entry.sampleNotes| <= 1
    ensures forall x :: x in entry.extractedActions ==>
      Contains(Join(Notes(data, c)), x) && exists p :: p in ActionPrefixes && IsAction(x, p)
    ensures entry.sampleNotes != [] ==> entry.sampleNotes[0] in Notes(data, c)
  {
    ExtractedActionsAreActions(Join(Notes(data, c)), ActionPrefixes);
  }

  /** The body of the loop over conditions: join the notes, run every pattern
      over them and keep up to eight distinct phrases. */
  method EntryFor(data: seq<SymptomRow>, c: string) returns (entry: Entry)
    ensures EntryFits(entry, data, c)
  {
    var allNotes := Notes(data, c);
    var combinedText := Join(allNotes);
    var extractedActions: seq<string> := [];
    for k := 0 to |ActionPrefixes|
      invariant extractedActions == ActionsFor(combinedText, ActionPrefixes[..k])
    {
      assert ActionPrefixes[..k + 1][..k] == ActionPrefixes[..k];
      extractedActions := extractedActions + FindAll(combinedText, ActionPrefixes[k], 0);
    }
    assert ActionPrefixes[..|ActionPrefixes|] == ActionPrefixes;
    var chosen := ChooseActions(extractedActions);
    entry := Entry(|allNotes|, chosen, allNotes[..Min(1, |allNotes|)]);
  }

  class ClinicalRecommendation {
    /** `real_clinical_recommendations`, keyed by condition. */
    var recommendations: map<string, Entry>

    constructor ()
      ensures recommendations == map[]
    {
      recommendations := map[];
    }

    /** `extract_real_clinical_recommendations`: an entry for every condition
        that has at least one note; other keys stay as they were. */
    method ExtractRealClinicalRecommendations(symptomsData: seq<SymptomRow>)
      modifies this
      ensures forall c :: c in recommendations <==>
        c in old(recommendations) || ((exists i :: 0 <= i < |symptomsData| && symptomsData[i].condition == Some(c))
                                      && Notes(symptomsData, c) != [])
      ensures forall c :: c in recommendations ==>
        if Notes(symptomsData, c) != [] then EntryFits(recommendations[c], symptomsData, c)
        else recommendations[c] == old(recommendations)[c]
    {
      var conditions := UniqueConditions(symptomsData);
      for i := 0 to |conditions|
        invariant forall c :: c in recommendations <==>
          c in old(recommendations) || (c in conditions[..i] && Notes(symptomsData, c) != [])
        invariant forall c :: c in recommendations ==>
          if c in conditions[..i] && Notes(symptomsData, c) != [] then EntryFits(recommendations[c], symptomsData, c)
          else recommendations[c] == old(recommendations)[c]
      {
        var condition := conditions[i];
        var allNotes := Notes(symptomsData, condition);
        assert conditions[..i + 1] == conditions[..i] + [condition];
        if allNotes != [] {
          var entry := EntryFor(symptomsData, condition);
          recommendations := recommendations[condition := entry];
        }
      }
      assert conditions[..|conditions|] == conditions;
      forall c | Notes(symptomsData, c) != []
        ensures exists i :: 0 <= i < |symptomsData| && symptomsData[i].condition == Some(c)
      {
        NotesOfCondition(symptomsData, c);
      }
    }
  }
}
