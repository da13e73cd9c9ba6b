/**
  `BreedOverlapAnalyzer` (data/raw/breed_overlap_analysis.py): how far two breed
  lists (a ranked list and the AKC list) name the same breeds. Names are
  normalised, compared exactly as sets, then matched fuzzily with a string
  similarity, and the overlap rate decides whether to merge the two lists.
  `difflib.SequenceMatcher.ratio` is foreign code: the similarity is a parameter.
 */
module BreedOverlap {
  import opened Wrappers
  import opened Text

  // ---------------------------------------------------------------------------
  // Name normalisation

  /** `re.sub(r'[^\w\s]', '', s)`: drop every character that is neither a word
      character nor whitespace. */
  function RemoveSpecial(s: string): (r: string)
    ensures forall c :: c in r <==> c in s && (IsWordChar(c) || IsSpace(c))
    ensures (forall c :: c in s ==> IsWordChar(c) || IsSpace(c)) ==> r == s
  {
    if s == [] then []
    else
      assert s == [s[0]] + s[1..];
      (if IsWordChar(s[0]) || IsSpace(s[0]) then [s[0]] else []) + RemoveSpecial(s[1..])
  }

  /** `normalize_breed_name`: a missing name is empty; otherwise lower-case,
      strip, drop special characters and collapse whitespace. The source's
      `replacements` table maps every word to itself and is never applied. */
  function NormalizeBreedName(name: Option<string>): string {
    match name
    case None => ""
    case Some(s) => Collapse(RemoveSpecial(Strip(Lower(s))))
  }

  /** A normalised name is lower-case, holds only word characters and single
      spaces, and has no leading or trailing space. */
  lemma NormalizedNameShape(name: Option<string>)
    ensures IsLowercase(NormalizeBreedName(name))
    ensures forall c :: c in NormalizeBreedName(name) ==> IsWordChar(c) || c == ' '
    ensures Tidy(NormalizeBreedName(name))
    ensures name.None? ==> NormalizeBreedName(name) == ""
  {
    if name.Some? {
      var lowered := Lower(name.value);
      var stripped := Strip(lowered);
      var kept := RemoveSpecial(stripped);
      assert forall c :: c in stripped ==> c in lowered by {
        var t := TrimStart(lowered);
        forall c | c in stripped ensures c in lowered {
          assert c in t;
        }
      }
      CharsOfCollapse(kept);
      CollapseIsTidy(kept);
      var r := NormalizeBreedName(name);
      forall i | 0 <= i < |r| ensures !IsUpper(r[i]) {
        assert r[i] in r;
        if r[i] != ' ' {
          var m :| 0 <= m < |lowered| && lowered[m] == r[i];
        }
      }
    }
  }

  /** A name already in normal form is its own normalisation. */
  lemma NormalFormIsFixed(s: string)
    requires IsLowercase(s) && Tidy(s)
    requires forall c :: c in s ==> IsWordChar(c) || c == ' '
    ensures NormalizeBreedName(Some(s)) == s
  {
    var lowered := Lower(s);
    assert lowered == s;
    var stripped := Strip(lowered);
    assert stripped == s by { StripOfTidy(s); }
    var kept := RemoveSpecial(stripped);
    assert kept == s by {
      forall c | c in s ensures IsWordChar(c) || IsSpace(c) { }
    }
    assert Collapse(kept) == s by { CollapseOfTidy(s); }
  }

  /** Normalising a normalised name changes nothing. */
  lemma NormalizeIsIdempotent(name: Option<string>)
    ensures NormalizeBreedName(Some(NormalizeBreedName(name))) == NormalizeBreedName(name)
  {
    NormalizedNameShape(name);
    NormalFormIsFixed(NormalizeBreedName(name));
  }

  /** The normalised names of a column's present entries, in order. */
  function PresentNames(column: seq<Option<string>>): (names: seq<string>)
    ensures |names| <= |column|
  {
    if column == [] then []
    else
      var n := |column| - 1;
      PresentNames(column[..n]) + (if column[n].Some? then [NormalizeBreedName(column[n])] else [])
  }

  // ---------------------------------------------------------------------------
  // Exact matches

  /** The set of normalised names of a column, without the empty name. */
  function NameSet(column: seq<Option<string>>): (names: set<string>)
    ensures "" !in names
  {
    (set i | 0 <= i < |column| :: NormalizeBreedName(column[i])) - {""}
  }

  datatype ExactResults = ExactResults(
    exactMatches: set<string>,
    rankedOnly: set<string>,
    akcOnly: set<string>,
    totalRanked: nat,
    totalAkc: nat,
    matchCount: nat)

  /** `find_exact_matches`: the two name sets split into common and one-sided parts. */
  function FindExactMatches(ranked: seq<Option<string>>, akc: seq<Option<string>>): (e: ExactResults)
    ensures e.exactMatches == NameSet(ranked) * NameSet(akc)
    ensures e.rankedOnly == NameSet(ranked) - NameSet(akc)
    ensures e.akcOnly == NameSet(akc) - NameSet(ranked)
    ensures e.totalRanked == |NameSet(ranked)| && e.totalAkc == |NameSet(akc)|
    ensures e.matchCount + |e.rankedOnly| == e.totalRanked
    ensures e.matchCount + |e.akcOnly| == e.totalAkc
    ensures e.matchCount <= e.totalRanked && e.matchCount <= e.totalAkc
  {
    var r := NameSet(ranked);
    var a := NameSet(akc);
    assert r == (r * a) + (r - a) && (r * a) * (r - a) == {};
    assert a == (r * a) + (a - r) && (r * a) * (a - r) == {};
    ExactResults(r * a, r - a, a - r, |r|, |a|, |r * a|)
  }

  // ---------------------------------------------------------------------------
  // Fuzzy matches

  /** `best_match` and `best_score` while scanning the AKC names. */
  datatype Best = Best(name: Option<string>, score: real)

  /** The scan over `akcs` for the ranked name `r`: a candidate replaces the
      current best only when strictly better and at least `threshold`. */
  function BestOver(r: string, akcs: seq<string>, similarity: (string, string) -> real, threshold: real): Best {
    if akcs == [] then Best(None, 0.0)
    else
      var n := |akcs| - 1;
      var before := BestOver(r, akcs[..n], similarity, threshold);
      var s := similarity(r, akcs[n]);
      if s > before.score && s >= threshold then Best(Some(akcs[n]), s) else before
  }

  /** The scan keeps the earliest AKC name of greatest similarity, provided that
      similarity is positive and reaches the threshold; otherwise it keeps none. */
  lemma {:induction false} BestIsEarliestMaximum(r: string, akcs: seq<string>,
                                                 similarity: (string, string) -> real, threshold: real)
    ensures var b := BestOver(r, akcs, similarity, threshold);
      && b.score >= 0.0
      && (b.name.None? <==> b.score == 0.0)
      && (b.name.None? ==> forall k :: 0 <= k < |akcs| ==>
            similarity(r, akcs[k]) < threshold || similarity(r, akcs[k]) <= 0.0)
      && (b.name.Some? ==>
            && b.score >= threshold
            && (forall k :: 0 <= k < |akcs| && similarity(r, akcs[k]) >= threshold ==> similarity(r, akcs[k]) <= b.score)
            && exists i :: 0 <= i < |akcs| && akcs[i] == b.name.value && similarity(r, akcs[i]) == b.score
                 && forall k :: 0 <= k < i ==> similarity(r, akcs[k]) < b.score)
  {
    if akcs != [] {
      var n := |akcs| - 1;
      var init := akcs[..n];
      BestIsEarliestMaximum(r, init, similarity, threshold);
      var before := BestOver(r, init, similarity, threshold);
      var s := similarity(r, akcs[n]);
      assert forall k :: 0 <= k < n ==> akcs[k] == init[k];
      if s > before.score && s >= threshold {
        forall k | 0 <= k < n ensures similarity(r, akcs[k]) < s {
          assert akcs[k] == init[k];
        }
      } else if before.name.Some? {
        var i :| 0 <= i < n && init[i] == before.name.value && similarity(r, init[i]) == before.score
                 && forall k :: 0 <= k < i ==> similarity(r, init[k]) < before.score;
        assert akcs[i] == init[i];
      }
    }
  }

  /** One entry of `find_fuzzy_matches`. */
  datatype FuzzyMatch = FuzzyMatch(rankedBreed: string, akcBreed: string, similarity: real)

  /** The fuzzy matches of the ranked names, in ranked order. `if best_match:`
      also skips a best match that is the empty name. */
  function FuzzyMatchesOf(rankeds: seq<string>, akcs: seq<string>,
                          similarity: (string, string) -> real, threshold: real): seq<FuzzyMatch>
  {
    if rankeds == [] then []
    else
      var n := |rankeds| - 1;
      var best := BestOver(rankeds[n], akcs, similarity, threshold);
      FuzzyMatchesOf(rankeds[..n], akcs, similarity, threshold)
        + (if best.name.Some? && best.name.value != "" then [FuzzyMatch(rankeds[n], best.name.value, best.score)] else [])
  }

  /** Every fuzzy match pairs a ranked name with a non-empty AKC name at least
      `threshold` similar to it, and there is at most one per ranked entry. */
  lemma {:induction false} FuzzyMatchesAreSound(rankeds: seq<string>, akcs: seq<string>,
                                                similarity: (string, string) -> real, threshold: real)
    ensures |FuzzyMatchesOf(rankeds, akcs, similarity, threshold)| <= |rankeds|
    ensures forall m :: m in FuzzyMatchesOf(rankeds, akcs, similarity, threshold) ==>
      && m.rankedBreed in rankeds && m.akcBreed in akcs && m.akcBreed != ""
      && m.similarity == similarity(m.rankedBreed, m.akcBreed)
      && m.similarity >= threshold && m.similarity > 0.0
  {
    if rankeds != [] {
      var n := |rankeds| - 1;
      FuzzyMatchesAreSound(rankeds[..n], akcs, similarity, threshold);
      BestIsEarliestMaximum(rankeds[n], akcs, similarity, threshold);
      forall m | m in FuzzyMatchesOf(rankeds[..n], akcs, similarity, threshold) ensures m.rankedBreed in rankeds {
        assert m.rankedBreed in rankeds[..n];
      }
    }
  }

  /** The matches of a concatenation are the matches of its parts, in order:
      results follow the ranked list and are never merged or deduplicated. */
  lemma {:induction false} FuzzyMatchesOfConcat(rs: seq<string>, ts: seq<string>, akcs: seq<string>,
                                                similarity: (string, string) -> real, threshold: real)
    ensures FuzzyMatchesOf(rs + ts, akcs, similarity, threshold)
         == FuzzyMatchesOf(rs, akcs, similarity, threshold) + FuzzyMatchesOf(ts, akcs, similarity, threshold)
  {
    if ts == [] {
      assert rs + ts == rs;
    } else {
      var n := |ts| - 1;
      FuzzyMatchesOfConcat(rs, ts[..n], akcs, similarity, threshold);
      assert (rs + ts)[..|rs + ts| - 1] == rs + ts[..n];
      assert (rs + ts)[|rs + ts| - 1] == ts[n];
    }
  }

  /** `find_fuzzy_matches`: for every present ranked name, scan the present AKC
      names for the best one. */
  method FindFuzzyMatches(ranked: seq<Option<string>>, akc: seq<Option<string>>,
                          similarity: (string, string) -> real, threshold: real := FuzzyThreshold)
    returns (fuzzyMatches: seq<FuzzyMatch>)
    ensures fuzzyMatches == FuzzyMatchesOf(PresentNames(ranked), PresentNames(akc), similarity, threshold)
  {
    var rankedBreeds := PresentNames(ranked);
    var akcBreeds := PresentNames(akc);
    fuzzyMatches := [];
    for i := 0 to |rankedBreeds|
      invariant fuzzyMatches == FuzzyMatchesOf(rankedBreeds[..i], akcBreeds, similarity, threshold)
    {
      var rankedBreed := rankedBreeds[i];
      var bestMatch: Option<string> := None;
      var bestScore: real := 0.0;
      for j := 0 to |akcBreeds|
        invariant Best(bestMatch, bestScore) == BestOver(rankedBreed, akcBreeds[..j], similarity, threshold)
      {
        var akcBreed := akcBreeds[j];
        var score := similarity(rankedBreed, akcBreed);
        assert akcBreeds[..j + 1][..j] == akcBreeds[..j];
        if score > bestScore && score >= threshold {
          bestScore := score;
          bestMatch := Some(akcBreed);
        }
      }
      assert akcBreeds[..|akcBreeds|] == akcBreeds;
      assert rankedBreeds[..i + 1][..i] == rankedBreeds[..i];
      if bestMatch.Some? && bestMatch.value != "" {
        fuzzyMatches := fuzzyMatches + [FuzzyMatch(rankedBreed, bestMatch.value, bestScore)];
      }
    }
    assert rankedBreeds[..|rankedBreeds|] == rankedBreeds;
  }

  // ---------------------------------------------------------------------------
  // Overlap rate and recommendation

  /** The similarity cut-off `comprehensive_analysis` uses. */
  const FuzzyThreshold: real := 0.8

  /** The overlap rate as the source computes it: exact matches plus fuzzy
      matches, over the number of ranked names, in percent. */
  function AsWrittenOverlapRate(exact: ExactResults, fuzzy: seq<FuzzyMatch>): real
    requires exact.totalRanked > 0
  {
    (exact.matchCount + |fuzzy|) as real / exact.totalRanked as real * 100.0
  }

  /** The rate as written counts every exact match, so it is never below the
      exact-match rate the source prints first. */
  lemma AsWrittenRateCoversExactMatches(exact: ExactResults, fuzzy: seq<FuzzyMatch>)
    requires exact.totalRanked > 0
    ensures AsWrittenOverlapRate(exact, fuzzy) >= exact.matchCount as real / exact.totalRanked as real * 100.0
  {
    DivisionIsMonotone(exact.matchCount as real, (exact.matchCount + |fuzzy|) as real, exact.totalRanked as real);
  }

  /** Fuzzy matching runs over every ranked name, exact ones included, so an
      exactly matched name is counted twice and the rate passes 100%: with the
      same one-name list on both sides (say "beagle") and any similarity that
      scores a name 1.0 against itself, as `SequenceMatcher.ratio` does, the
      rate is 200. */
  lemma OverlapRateCanExceedHundred(breed: string, similarity: (string, string) -> real)
    requires breed != [] && forall k :: 0 <= k < |breed| ==> 'a' <= breed[k] <= 'z'
    requires similarity(breed, breed) == 1.0
    ensures var ranked := [Some(breed)];
      var exact := FindExactMatches(ranked, ranked);
      var fuzzy := FuzzyMatchesOf(PresentNames(ranked), PresentNames(ranked), similarity, FuzzyThreshold);
      exact.totalRanked == 1 && AsWrittenOverlapRate(exact, fuzzy) == 200.0
  {
    OneNameExactMatch(breed);
    OneNameColumn(breed);
    OneNameMatchesItself(breed, similarity);
  }

  /** A one-name list compared with itself has one exact match out of one name. */
  lemma OneNameExactMatch(breed: string)
    requires breed != [] && forall k :: 0 <= k < |breed| ==> 'a' <= breed[k] <= 'z'
    ensures FindExactMatches([Some(breed)], [Some(breed)]).matchCount == 1
    ensures FindExactMatches([Some(breed)], [Some(breed)]).totalRanked == 1
  {
    var e := FindExactMatches([Some(breed)], [Some(breed)]);
    OneNameColumn(breed);
    assert |{breed}| == 1;
    assert e.rankedOnly == {breed} - {breed} == {};
  }

  lemma OneNameColumn(breed: string)
    requires breed != [] && forall k :: 0 <= k < |breed| ==> 'a' <= breed[k] <= 'z'
    ensures NameSet([Some(breed)]) == {breed}
    ensures PresentNames([Some(breed)]) == [breed]
  {
    LowercaseLettersAreNormal(breed);
    ColumnOfOne(Some(breed));
    WithoutEmptyName(breed);
  }

  /** The empty name is the only one a name set drops. */
  lemma WithoutEmptyName(name: string)
    requires name != ""
    ensures {name} - {""} == {name}
  {
    assert "" !in {name};
  }

  lemma ColumnOfOne(name: Option<string>)
    requires name.Some?
    ensures NameSet([name]) == {NormalizeBreedName(name)} - {""}
    ensures PresentNames([name]) == [NormalizeBreedName(name)]
  {
    var column := [name];
    assert (set i | 0 <= i < |column| :: NormalizeBreedName(column[i])) == {NormalizeBreedName(name)} by {
      assert NormalizeBreedName(column[0]) == NormalizeBreedName(name);
    }
    assert column[..0] == [];
  }

  lemma LowercaseLettersAreNormal(breed: string)
    requires breed != [] && forall k :: 0 <= k < |breed| ==> 'a' <= breed[k] <= 'z'
    ensures NormalizeBreedName(Some(breed)) == breed
  {
    assert forall k :: 0 <= k < |breed| ==> !IsSpace(breed[k]) && !IsUpper(breed[k]);
    assert Tidy(breed);
    NormalFormIsFixed(breed);
  }

  lemma OneNameMatchesItself(breed: string, similarity: (string, string) -> real)
    requires breed != [] && similarity(breed, breed) == 1.0
    ensures FuzzyMatchesOf([breed], [breed], similarity, FuzzyThreshold) == [FuzzyMatch(breed, breed, 1.0)]
  {
    var rs := [breed];
    assert rs[..0] == [];
    assert BestOver(breed, rs, similarity, FuzzyThreshold) == Best(Some(breed), 1.0) by {
      assert BestOver(breed, rs[..0], similarity, FuzzyThreshold) == Best(None, 0.0);
      assert similarity(breed, rs[0]) == 1.0;
    }
    assert FuzzyMatchesOf(rs[..0], rs, similarity, FuzzyThreshold) == [];
  }

  /** The ranked names matched by an exact or a fuzzy match, each counted once. */
  function MatchedNames(exact: ExactResults, fuzzy: seq<FuzzyMatch>, rankedNames: set<string>): set<string> {
    rankedNames * (exact.exactMatches + set m | m in fuzzy :: m.rankedBreed)
  }

  /** The overlap rate as a share of the ranked names: every ranked name that
      has an exact or a fuzzy partner counts once. */
  function OverlapRate(exact: ExactResults, fuzzy: seq<FuzzyMatch>, rankedNames: set<string>): (rate: real)
    requires exact.totalRanked == |rankedNames| > 0
    ensures 0.0 <= rate <= 100.0
  {
    var matched := MatchedNames(exact, fuzzy, rankedNames);
    SubsetIsSmaller(matched, rankedNames);
    |matched| as real / |rankedNames| as real * 100.0
  }

  /** The corrected rate is never below the exact-match rate the source prints first. */
  lemma OverlapRateCoversExactMatches(ranked: seq<Option<string>>, akc: seq<Option<string>>, fuzzy: seq<FuzzyMatch>)
    requires NameSet(ranked) != {}
    ensures var exact := FindExactMatches(ranked, akc);
      OverlapRate(exact, fuzzy, NameSet(ranked)) >= exact.matchCount as real / exact.totalRanked as real * 100.0
  {
    var exact := FindExactMatches(ranked, akc);
    var matched := MatchedNames(exact, fuzzy, NameSet(ranked));
    SubsetIsSmaller(exact.exactMatches, matched);
    DivisionIsMonotone(exact.matchCount as real, |matched| as real, exact.totalRanked as real);
  }

  lemma DivisionIsMonotone(a: real, b: real, t: real)
    requires a <= b && t > 0.0
    ensures a / t * 100.0 <= b / t * 100.0
  {
    assert b / t - a / t == (b - a) / t;
  }

  lemma SubsetIsSmaller(a: set<string>, b: set<string>)
    requires a <= b
    ensures |a| <= |b|
  {
    assert b == a + (b - a) && a * (b - a) == {};
  }

  /** `'merge' if rate >= 70 else 'separate' if rate < 50 else 'partial'`. */
  function Recommendation(rate: real): (r: string)
    ensures r == "merge" <==> rate >= 70.0
    ensures r == "separate" <==> rate < 50.0
    ensures r == "partial" <==> 50.0 <= rate < 70.0
  {
    if rate >= 70.0 then "merge" else if rate < 50.0 then "separate" else "partial"
  }

  datatype Analysis = Analysis(exact: ExactResults, fuzzy: seq<FuzzyMatch>, totalOverlapRate: real, recommendation: string)

  /** `comprehensive_analysis`: exact matches, fuzzy matches at 0.8, the overlap
      rate as the source computes it and the recommendation drawn from it. With
      no ranked name the rate is a division by zero, which the model reports as
      an error. */
  method ComprehensiveAnalysis(ranked: seq<Option<string>>, akc: seq<Option<string>>,
                               similarity: (string, string) -> real)
    returns (result: Result<Analysis, string>)
    ensures result.Err? <==> NameSet(ranked) == {}
    ensures result.Ok? ==>
      var exact := FindExactMatches(ranked, akc);
      var fuzzy := FuzzyMatchesOf(PresentNames(ranked), PresentNames(akc), similarity, FuzzyThreshold);
      && result.value.exact == exact
      && result.value.fuzzy == fuzzy
      && result.value.totalOverlapRate == AsWrittenOverlapRate(exact, fuzzy)
      && result.value.totalOverlapRate >= exact.matchCount as real / exact.totalRanked as real * 100.0
      && result.value.recommendation == Recommendation(result.value.totalOverlapRate)
  {
    var exactResults := FindExactMatches(ranked, akc);
    if exactResults.totalRanked == 0 {
      return Err("division by zero");
    }
    var fuzzyResults := FindFuzzyMatches(ranked, akc, similarity, FuzzyThreshold);
    AsWrittenRateCoversExactMatches(exactResults, fuzzyResults);
    var totalOverlapRate := AsWrittenOverlapRate(exactResults, fuzzyResults);
    result := Ok(Analysis(exactResults, fuzzyResults, totalOverlapRate, Recommendation(totalOverlapRate)));
  }

  /** The analysis with the corrected rate: every ranked name with an exact or
      a fuzzy partner counts once, so the rate lies in [0, 100] and never falls
      below the exact-match rate. */
  method CorrectedAnalysis(ranked: seq<Option<string>>, akc: seq<Option<string>>,
                           similarity: (string, string) -> real)
    returns (result: Result<Analysis, string>)
    ensures result.Err? <==> NameSet(ranked) == {}
    ensures result.Ok? ==>
      var exact := FindExactMatches(ranked, akc);
      var fuzzy := FuzzyMatchesOf(PresentNames(ranked), PresentNames(akc), similarity, FuzzyThreshold);
      && result.value.exact == exact
      && result.value.fuzzy == fuzzy
      && result.value.totalOverlapRate == OverlapRate(exact, fuzzy, NameSet(ranked))
      && 0.0 <= result.value.totalOverlapRate <= 100.0
      && result.value.totalOverlapRate >= exact.matchCount as real / exact.totalRanked as real * 100.0
      && result.value.recommendation == Recommendation(result.value.totalOverlapRate)
  {
    var exactResults := FindExactMatches(ranked, akc);
    if exactResults.totalRanked == 0 {
      return Err("division by zero");
    }
    var fuzzyResults := FindFuzzyMatches(ranked, akc, similarity, FuzzyThreshold);
    OverlapRateCoversExactMatches(ranked, akc, fuzzyResults);
    var totalOverlapRate := OverlapRate(exactResults, fuzzyResults, NameSet(ranked));
    result := Ok(Analysis(exactResults, fuzzyResults, totalOverlapRate, Recommendation(totalOverlapRate)));
  }
}
