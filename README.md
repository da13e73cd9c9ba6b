# Pet health: a verified model of the diagnosis pipeline and the mobile store

This project models, in Dafny, the deterministic core of a pet-health assistant:

- the on-device SQLite store of the mobile app (user profile, pets, diagnosis
  history, favourite veterinarians), as a class whose tables are sequences of rows
  with fresh ids and a clock that never goes back (`Tables`, `Database`);
- the code around the classifier: hyper-parameter choice from the data size, the
  training pipeline, and the post-processing of a probability vector into a
  diagnosis with a threshold, confidence buckets, a descending sort and the
  `Uncertain` fallback (`Model`);
- text normalisation and synonym-based data augmentation (`Preprocessing`, with the
  Python string operations it relies on in `Text`);
- the confidence-interpretation table (`RiskCalculator`);
- the extraction of clinical action phrases per condition (`ClinicalRecommendations`);
- the breed-list overlap analysis: name normalisation, exact set matching, fuzzy
  best-match selection and the merge/partial/separate verdict (`BreedOverlap`);
- the request handlers of the diagnosis service: response defaulting, the fixed
  self-test, the veterinary search over OpenStreetMap elements and the phone
  lookup by `place_id` (`Api`).

Foreign code enters as parameters: the classifier's probability output is a
function `string -> seq<real>`, the string similarity of the breed matcher is a
function `(string, string) -> real`, the OpenStreetMap replies are values, the
clock is an `elapsed` argument, and a failing SQL statement is a `fault` argument.

`saveDiagnosis` stores `Unknown` for an absent or empty `risk_level` and null for an
absent or zero `pet_id` (the `||` defaults).

`comprehensive_analysis` reports the overlap rate as the code computes it, which
can pass 100% (see "## Findings"); `BreedOverlap.CorrectedAnalysis` is the same
analysis with the rate that counts every matched ranked name once.

## Model

| member | source | states |
|---|---|---|
| RiskCalculator.InterpretConfidence | src/risk_calculator.py:3-10 | Each of the four known levels maps to its own fixed sentence, and the default sentence comes back exactly when the level is none of the four keys; the lookup is total. |
| RiskCalculator.InterpretationIsInjective | src/risk_calculator.py:4-9 | Two different known levels never get the same sentence. |
| RiskCalculator.LookupIsCaseSensitive | src/risk_calculator.py:10 | Keys match case-sensitively: `high` and `very low` get the default sentence. |
| Symptoms.DropMissingKeepsCompleteRows | src/model.py:39 | Dropping rows with a missing text or condition keeps exactly the complete rows and never adds rows. |
| Text.ToLower | src/preprocessing.py:7 | Lower-casing a character yields no capital, shifts A-Z by 32, leaves everything else alone and preserves the word and whitespace classes. |
| Text.Lower | src/preprocessing.py:7 | A lower-cased string has the same length, no capital letter, and a string without capitals is unchanged. |
| Text.Words | src/preprocessing.py:21 | `str.split()` yields non-empty pieces without whitespace. |
| Text.CharsOfCollapse | src/preprocessing.py:21 | `' '.join(s.split())` contains only spaces and non-space characters of `s`. |
| Text.CollapseIsTidy | src/preprocessing.py:21 | Collapsing whitespace leaves no leading or trailing space and single spaces between words. |
| Text.WordsOfJoin | src/preprocessing.py:21 | Splitting a space-join of words gives the words back. |
| Text.CollapseOfTidy | data/raw/breed_overlap_analysis.py:40 | Collapsing a string that is already tidy changes nothing. |
| Text.TidyWordsStep | data/raw/breed_overlap_analysis.py:40 | A tidy string with a space splits into its first word, one space and a tidy rest whose words follow. |
| Text.CollapseStep | data/raw/breed_overlap_analysis.py:40 | A word, a space and a rest that is its own collapse form a string that is its own collapse. |
| Text.CollapseIdempotent | src/preprocessing.py:21 | Collapsing twice is the same as collapsing once. |
| Text.StripOfTidy | data/raw/breed_overlap_analysis.py:21 | `strip()` leaves a tidy string unchanged. |
| Text.Split | src/api.py:275 | `str.split(sep)` always yields at least one part. |
| Text.JoinOfSplit | src/api.py:275 | Joining the parts of a split with the separator restores the string. |
| Text.SplitOfJoin | src/api.py:275 | Splitting a join of separator-free parts returns those parts. |
| Text.SplitCount | src/api.py:275-276 | A split has one part more than the string has separators. |
| Preprocessing.ReplaceWithoutWholeWord | src/preprocessing.py:18 | Where the abbreviation never stands as a whole word, the substitution changes nothing, so occurrences inside longer words survive. |
| Preprocessing.ReplaceAtWholeWord | src/preprocessing.py:18 | A whole-word occurrence is replaced and the scan resumes after it. |
| Preprocessing.CharsOfReplace | src/preprocessing.py:18 | The substitution introduces no character outside the text and the replacement. |
| Preprocessing.MedicalExpansionsWellFormed | src/preprocessing.py:10-15 | Every abbreviation is a word and every expansion holds lower-case letters and spaces only. |
| Preprocessing.ExpansionsArePhrases | src/preprocessing.py:10-15 | Every expansion in the table is a lower-case phrase of words separated by spaces. |
| Preprocessing.PunctuationToSpace | src/preprocessing.py:20 | The output keeps the length, holds only word characters, whitespace and `-`, and a character is kept exactly when it is one of those. |
| Preprocessing.ExpandKeepsChars | src/preprocessing.py:17-18 | Expanding abbreviations adds only lower-case word characters and spaces. |
| Preprocessing.PreprocessedTextShape | src/preprocessing.py:6-23 | The normalised text is lower-case, holds only word characters, `-` and spaces, and has no leading, trailing or doubled space. |
| Preprocessing.AdvancedTextPreprocessing | src/preprocessing.py:6-23 | `advanced_text_preprocessing`; its contract is stated by `Preprocessing.PreprocessedTextShape` and `Preprocessing.AbbreviationExamples`. |
| Preprocessing.AbbreviationExamples | src/preprocessing.py:17-18 | `gi upset` becomes `gastrointestinal upset` while `giant` stays as it is. |
| Preprocessing.StandaloneAbbreviationIsExpanded | src/preprocessing.py:17-18 | The whole word `gi` in `gi upset` is replaced by `gastrointestinal`. |
| Preprocessing.AbbreviationInsideWordIsKept | src/preprocessing.py:17-18 | `gi` inside `giant` is not a whole word and is kept. |
| Preprocessing.FirstKey | src/preprocessing.py:42-45 | The chosen synonym key is the first in dictionary order that occurs as a substring; none before it does. |
| Preprocessing.SimpleDataAugmentation | src/preprocessing.py:26-56 | The output is the input rows in order followed by their augmentations, between n and 2n rows long, and the input itself at 1000 rows or more. |
| Preprocessing.AugmentationSize | src/preprocessing.py:38-47 | There is at most one augmented row per input row. |
| Preprocessing.AugmentationsComeFromRows | src/preprocessing.py:46-47 | Every augmented row comes from an input row whose text it changes, and it keeps that row's condition. |
| Preprocessing.ChangedRowsAreAugmented | src/preprocessing.py:46-47 | Every row whose text the synonym pass changes does produce an augmented row. |
| Preprocessing.FirstKeyStopsTheScan | src/preprocessing.py:42-45 | The scan stops at the first key found as a substring even when its whole-word substitution changes nothing, so `vomitings diarrhea` yields no row. |
| Preprocessing.VomitingIsTheFirstKey | src/preprocessing.py:42-44 | `vomiting` is the first synonym key and occurs as a substring of `vomitings diarrhea`, so the scan picks it. |
| Preprocessing.VomitingNeverStandsAlone | src/preprocessing.py:44-45 | `vomiting` is not a whole word in `vomitings diarrhea`, so its case-insensitive substitution leaves the text as it is. |
| Model.OptimizedVectorizer | src/model.py:15-28 | The feature cap never exceeds the data size or 1500, is positive for non-empty data, and is at most 300 below 500 texts and 800 below 2000; n-grams are (1,2) or (1,3) and `min_df` lies in 1..3. |
| Model.VectorizerGrowsWithData | src/model.py:17-28 | More data never shortens the n-gram range or lowers `min_df`. |
| Model.FeatureCapDropsAtBracket | src/model.py:17-22 | The feature cap is not monotone: 300 at 499 texts and 250 at 500. |
| Model.ForestFor | src/model.py:54-61 | The forest has 50 to 200 trees, a depth of 5 to 20 and a split size of at least 2. |
| Model.ForestGrowsWithData | src/model.py:54-60 | Every forest parameter is monotone in the row count; trees reach 200 from 2000 rows and depth 20 from 1500. |
| Model.EvaluationFor | src/model.py:47-52 | A held-out 20% split happens exactly when there are at least 20 rows; otherwise the training rows are the test rows. |
| Model.ProcessedSamples | src/model.py:41 | Each row's text is replaced by its normalised text and keeps its condition, row for row. |
| Model.TextColumn | src/model.py:42 | The text column has one entry per row, in row order. |
| Model.ConfidenceLevel | src/model.py:84 | `High` exactly above 0.6, `Medium` exactly in (0.3, 0.6], `Low` exactly at or below 0.3. |
| Model.ConfidenceLevelIsMonotone | src/model.py:84 | A higher probability never gets a lower bucket, and every bucket has an interpretation other than the default. |
| Model.InsertPermutes | src/model.py:92 | Inserting a prediction adds exactly that prediction to the multiset. |
| Model.InsertMembers | src/model.py:92 | After inserting a prediction, a prediction is in the list exactly when it is the new one or was there before. |
| Model.InsertKeepsOrder | src/model.py:92 | Inserting into a list sorted highest first keeps it sorted. |
| Model.InsertKeepsDistinct | src/model.py:92 | Inserting a prediction of a new condition keeps conditions distinct. |
| Model.SortIsOrdered | src/model.py:92 | The sorted list is ordered by probability, highest first. |
| Model.SortPermutes | src/model.py:92 | The sort neither loses nor duplicates a prediction. |
| Model.SortKeepsDistinct | src/model.py:92 | Sorting predictions with distinct conditions keeps them distinct. |
| Model.SortIsOrderedPermutation | src/model.py:92 | The sort returns a permutation ordered by probability, highest first, and keeps conditions distinct. |
| Model.InsertKeepsTies | src/model.py:92 | Inserting a prediction puts it ahead of those of equal probability and keeps their order. |
| Model.SortIsStable | src/model.py:92 | The sort is stable: for every probability, the predictions with it keep their input order. |
| Model.CandidatesAreThePassingClasses | src/model.py:80-91 | A prediction is collected exactly when it is that of a class at or above the threshold. |
| Model.CandidatesAreDistinct | src/model.py:80-91 | Distinct classes give at most one prediction per condition. |
| Model.DiagnosisProperties | src/model.py:80-106 | Possible diagnoses all pass the threshold, carry their percentage and bucket, are distinct and sorted; the primary is the first of them or `Uncertain`; `multiple_possibilities` holds iff there are two or more; recommendations are empty; the interpretation is that of the primary's level and is never the default. |
| Model.DiagnosisOf | src/model.py:80-106 | The post-processing of a probability vector; its contract is stated by `Model.DiagnosisProperties`. |
| Model.PetModel.constructor | src/model.py:8-13 | A new model has no vectoriser, no forest, no evaluation and no training rows. |
| Model.PetModel.ConfigureOptimizedVectorizer | src/model.py:15-36 | The stored vectoriser depends only on the number of texts. |
| Model.PetModel.TrainImprovedModel | src/model.py:38-71 | Training uses the complete rows plus their augmentations, normalised, and sizes the vectoriser, forest and evaluation split by that row count. |
| Model.CollectCandidates | src/model.py:80-90 | The loop over the probability vector yields exactly `Candidates`: one prediction per class at or above the threshold, in class order. |
| Model.PetModel.MultiLabelDiagnosis | src/model.py:73-106 | Before training (no vectoriser or forest) the call fails with `AttributeError`; otherwise the diagnosis is the one `DiagnosisProperties` describes, for the classifier's probabilities on the normalised description; the threshold defaults to 0.15. |
| ClinicalRecommendations.UniqueConditions | src/clinical_recommendation.py:10-12 | The conditions iterated are distinct and are exactly the non-missing conditions of the data. |
| ClinicalRecommendations.NotesCount | src/clinical_recommendation.py:13-14 | A condition never has more notes than there are rows. |
| ClinicalRecommendations.NotesAreConditionTexts | src/clinical_recommendation.py:13-14 | A note of a condition is exactly the lower-cased present text of one of its rows. |
| ClinicalRecommendations.NotesOfCondition | src/clinical_recommendation.py:13-14 | A condition's notes are exactly the lower-cased present texts of its rows. |
| ClinicalRecommendations.WordRunEnd | src/clinical_recommendation.py:19-25 | `\w+` takes the longest run of word characters. |
| ClinicalRecommendations.MatchEnd | src/clinical_recommendation.py:19-25 | A match extends past the verb by at least one character and stays inside the text. |
| ClinicalRecommendations.MatchIsAction | src/clinical_recommendation.py:19-29 | A match is the verb, a word, and at most one whitespace followed by word characters, taken from the text. |
| ClinicalRecommendations.FoundActionsAreActions | src/clinical_recommendation.py:28-29 | Every `findall` result has the pattern's shape and occurs in the searched text. |
| ClinicalRecommendations.NoPrefixNoAction | src/clinical_recommendation.py:28-29 | A text without the verb yields no match. |
| ClinicalRecommendations.MatchAtStart | src/clinical_recommendation.py:28-29 | A verb followed by a word at the start of the text gives the first match. |
| ClinicalRecommendations.ExtractedActionsAreActions | src/clinical_recommendation.py:27-29 | Every extracted phrase starts with one of the clinical verbs and occurs in the joined notes. |
| ClinicalRecommendations.ChooseActions | src/clinical_recommendation.py:32 | The kept phrases are distinct, come from the extracted ones, and number min(8, distinct phrases). |
| ClinicalRecommendations.EntryActionsComeFromNotes | src/clinical_recommendation.py:30-34 | An entry holds at most 8 phrases, each from a clinical verb in its own notes, and at most one sample note, taken from its notes. |
| ClinicalRecommendations.EntryFor | src/clinical_recommendation.py:14-34 | The entry built for a condition holds its note count, its first note, and up to eight distinct phrases chosen from what the seven patterns find, pattern by pattern, in its notes joined by spaces. |
| ClinicalRecommendations.ClinicalRecommendation.constructor | src/clinical_recommendation.py:6-7 | A new extractor has no entries. |
| ClinicalRecommendations.ClinicalRecommendation.ExtractRealClinicalRecommendations | src/clinical_recommendation.py:9-34 | Every condition with at least one note gets an entry with its note count, phrases and first note; conditions without notes and keys not in the data keep their old entry or stay absent. |
| BreedOverlap.RemoveSpecial | data/raw/breed_overlap_analysis.py:37 | Exactly the word and whitespace characters survive; a string of those only is unchanged. |
| BreedOverlap.NormalizedNameShape | data/raw/breed_overlap_analysis.py:15-42 | A normalised name is lower-case, holds only word characters and single inner spaces, and a missing name is empty. |
| BreedOverlap.NormalizeBreedName | data/raw/breed_overlap_analysis.py:15-42 | `normalize_breed_name`; its contract is stated by `BreedOverlap.NormalizedNameShape` and `BreedOverlap.NormalizeIsIdempotent`. |
| BreedOverlap.NormalFormIsFixed | data/raw/breed_overlap_analysis.py:15-42 | A name already in normal form is its own normalisation. |
| BreedOverlap.NormalizeIsIdempotent | data/raw/breed_overlap_analysis.py:15-42 | Normalising a normalised name changes nothing. |
| BreedOverlap.PresentNames | data/raw/breed_overlap_analysis.py:70-71 | Missing entries are skipped, so there are no more names than entries. |
| BreedOverlap.NameSet | data/raw/breed_overlap_analysis.py:50-55 | The empty name is never in a name set. |
| BreedOverlap.FindExactMatches | data/raw/breed_overlap_analysis.py:48-66 | Exact matches are the intersection, the one-sided sets the differences, and match count plus one-sided count equals each total. |
| BreedOverlap.BestIsEarliestMaximum | data/raw/breed_overlap_analysis.py:76-84 | The best match is the earliest AKC name of greatest similarity at or above the threshold and above zero, or none when no name qualifies. |
| BreedOverlap.FuzzyMatchesAreSound | data/raw/breed_overlap_analysis.py:75-90 | At most one match per ranked entry, each pairing a ranked name with a non-empty AKC name whose similarity reaches the threshold. |
| BreedOverlap.FuzzyMatchesOfConcat | data/raw/breed_overlap_analysis.py:75-90 | Matches follow the ranked order and are never merged or deduplicated. |
| BreedOverlap.FindFuzzyMatches | data/raw/breed_overlap_analysis.py:68-92 | The nested scan returns exactly the best match of every present ranked name, in ranked order. |
| BreedOverlap.OneNameColumn | data/raw/breed_overlap_analysis.py:50-55 | A column holding one lower-case name yields exactly that name, as a set and as a list. |
| BreedOverlap.OneNameExactMatch | data/raw/breed_overlap_analysis.py:57-66 | A one-name list compared with itself has one exact match and one ranked name. |
| BreedOverlap.OverlapRateCanExceedHundred | data/raw/breed_overlap_analysis.py:117-118 | With one breed on both sides and any similarity that scores a name 1.0 against itself, the rate as written is 200%. |
| BreedOverlap.AsWrittenOverlapRate | data/raw/breed_overlap_analysis.py:117-118 | The rate as the code computes it; its contract is stated by `BreedOverlap.AsWrittenRateCoversExactMatches` and `BreedOverlap.OverlapRateCanExceedHundred`. |
| BreedOverlap.AsWrittenRateCoversExactMatches | data/raw/breed_overlap_analysis.py:106-118 | The rate as written is never below the exact-match rate printed first. |
| BreedOverlap.OverlapRate | data/raw/breed_overlap_analysis.py:117-118 | The corrected overlap rate always lies between 0 and 100. |
| BreedOverlap.OverlapRateCoversExactMatches | data/raw/breed_overlap_analysis.py:106 | The corrected rate is never below the exact-match rate printed first. |
| BreedOverlap.Recommendation | data/raw/breed_overlap_analysis.py:161 | `merge` exactly at 70% or more, `separate` exactly below 50%, `partial` exactly in between. |
| BreedOverlap.ComprehensiveAnalysis | data/raw/breed_overlap_analysis.py:94-162 | Fails exactly when there is no ranked name (division by zero); otherwise reports the exact and fuzzy results, the rate as the code computes it (exact plus fuzzy matches over ranked names), never below the exact-match rate, and the verdict drawn from that rate. |
| BreedOverlap.CorrectedAnalysis | data/raw/breed_overlap_analysis.py:94-162 | The same analysis with the corrected rate of "## Findings": a rate in [0, 100], never below the exact-match rate, and its verdict. |
| Api.PredictDiagnosis | src/api.py:108-140 | Status 500 exactly when a component is missing or the model fails; otherwise the result's fields with `{}`, `[]`, `False`, `''`, `[]` for missing keys, and the risk level is always null. |
| Api.ResponseCarriesDiagnosis | src/api.py:127-134 | On a model diagnosis no default fires and the response carries it unchanged. |
| Api.TestResultOf | src/api.py:182-196 | A case fails exactly when the model raises, and its input is always recorded. |
| Api.SuccessCount | src/api.py:201 | The success count never exceeds the number of results and equals it iff none failed. |
| Api.TestDiagnosis | src/api.py:170-202 | The five fixed cases are run in order; all succeed exactly when the model succeeds on each. |
| Api.Decimal | src/api.py:243 | An id is written as a non-empty string of digits. |
| Api.PlaceIdSplits | src/api.py:243 | A place id splits back into `osm`, the element type and the id when the type holds no underscore. |
| Api.PlaceId | src/api.py:243 | The `osm_<type>_<id>` place id; its contract is stated by `Api.PlaceIdSplits` and `Api.PlaceIdWithUnderscoreSplitsWider`. |
| Api.PlaceIdWithUnderscoreSplitsWider | src/api.py:275-277 | A type with an underscore makes the place id split into more than three parts. |
| Api.PhoneOf | src/api.py:285-288 | A failed request or an empty element list gives the placeholder phone. |
| Api.VetDetailsOfPlaceId | src/api.py:269-296 | A place id written by the vet search fetches the element it came from; with an underscore in its type the placeholder comes back. |
| Api.VetDetails | src/api.py:269-296 | `get_vet_details`; its contract is stated by `Api.VetDetailsOfPlaceId`, `Api.PhoneOf` and `Api.PhoneTagPriority`. |
| Api.PhoneTagPriority | src/api.py:285-288 | On any non-empty element list, the first element's `phone` wins over its `contact:phone`, which wins over the placeholder; a reply without elements gives the placeholder. |
| Api.VetOf | src/api.py:228-257 | A node without `lat` or `lon` is an error. Otherwise the element gives a result exactly when its coordinates (a node's own, a way's or relation's `center`) are present and non-zero; the result carries the `osm_<type>_<id>` place id, those coordinates, `tags["name"]` or `İsimsiz Veteriner`, and street + " " + city with `''` for a missing tag. |
| Api.TagOr | src/api.py:240-245 | `tags.get(key, default)`: the tag when present, the default otherwise. |
| Api.VetsFailOnMissingCoordinate | src/api.py:228-232 | The search fails exactly when some node lacks `lat` or `lon`. |
| Api.VetsAtMostOnePerElement | src/api.py:227-257 | No element contributes more than one result. |
| Api.VetsAreElementResults | src/api.py:228-257 | Every result has non-zero coordinates and is the result some element gives. |
| Api.VetsComeFromElements | src/api.py:227-257 | The search fails exactly when some node lacks a coordinate; otherwise every result has non-zero coordinates and comes from one element, at most one per element. |
| Api.NearbyVets | src/api.py:205-266 | The response is the first min(20, n) results of the element scan, or its error. |
| Api.VetsOf | src/api.py:228-257 | The element scan of `/nearby_vets`; its contract is stated by `Api.VetsComeFromElements` and `Api.ErrorPersists`. |
| Api.ErrorPersists | src/api.py:264-266 | One failing element fails the whole search. |
| Tables.AppendKeepsChronological | mobile_app/utils/database.ts:121-136 | Inserting a row with the next id at the current time keeps a table in insertion order. |
| Tables.Reverse | mobile_app/utils/database.ts:181 | Reading newest first lists the rows in reverse insertion order. |
| Tables.ReverseIsNewestFirst | mobile_app/utils/database.ts:181 | A table read newest first has non-increasing timestamps and holds every row once. |
| Tables.ReversePermutes | mobile_app/utils/database.ts:181 | Reading newest first loses and duplicates no row: the same multiset of rows. |
| Tables.Take | mobile_app/utils/database.ts:236 | `LIMIT` keeps a prefix of `limit` rows, or all of them when fewer or the limit is negative. |
| Tables.Filter | mobile_app/utils/database.ts:190 | A row survives exactly when it is not deleted. |
| Tables.FilterKeepsChronological | mobile_app/utils/database.ts:190 | Deleting rows keeps the rest in insertion order. |
| Tables.DeleteRemovesExactlyThatId | mobile_app/utils/database.ts:188-196 | Deleting by id removes exactly the rows with that id and changes nothing when no row has it. |
| Tables.NewestPrefix | mobile_app/utils/database.ts:236 | The first rows of a newest-first listing are at least as new as every row left out. |
| Tables.NewestRows | mobile_app/utils/database.ts:233-243 | `ORDER BY created_at DESC LIMIT n` returns min(n, size) rows, newest first, each a table row, none older than a row left out. |
| Database.PetColumns | mobile_app/utils/database.ts:124-135 | Absent optional pet fields are stored as `''` or `0`, present ones as given, never null. |
| Database.DiagnosisColumns | mobile_app/utils/database.ts:214-223 | `pet_id` is null exactly when absent or 0; `risk_level` is `Unknown` exactly when absent, empty or `Unknown`, never empty, otherwise as given; `pet_type`, `symptoms`, `diagnosis`, `confidence_level`, `confidence_percentage` and `recommendations` are stored as given. |
| Database.VetColumns | mobile_app/utils/database.ts:280-288 | `address` and `phone` default to `''`; the other fields are stored as given. |
| Database.UpdatePetRows | mobile_app/utils/database.ts:157-171 | Only rows with that id get the new columns; ids and creation times never change. |
| Database.RemovingKeepsPlacesUnique | mobile_app/utils/database.ts:306-314 | Removing a place keeps the favourites in order and their places unique. |
| Database.RemovingDropsOnlyThatPlace | mobile_app/utils/database.ts:306-314 | Removing a place drops exactly its rows: it becomes absent, and every other place and row stays. |
| Database.RemovingAPlace | mobile_app/utils/database.ts:306-314 | After removing a place it is absent, every other favourite remains and places stay unique. |
| Database.UpsertKeepsOneRowPerPlace | mobile_app/utils/database.ts:276-289 | After insert-or-replace the place has exactly one row with the latest details; other places are untouched. |
| Database.LaterClock | mobile_app/utils/database.ts:119 | Every table that is valid at one time stays valid when the clock is read again later. |
| Database.PetsAppend | mobile_app/utils/database.ts:120-136 | Appending a pet with the next id, created and updated now, keeps the pets table in order with `updated_at` between creation and now. |
| Database.PetsDelete | mobile_app/utils/database.ts:188-196 | Deleting pets by id keeps the remaining pets in order with `updated_at` between creation and now. |
| Database.FavoritesUpsert | mobile_app/utils/database.ts:276-289 | Insert-or-replace keeps the favourites in order and one per place. |
| Database.FavoritesRemove | mobile_app/utils/database.ts:306-314 | Removing a place keeps the favourites in order and one per place. |
| Database.Store.constructor | mobile_app/utils/database.ts:3 | A newly opened store has empty tables and no table created yet. |
| Database.Store.InitDatabase | mobile_app/utils/database.ts:5-67 | Creating the tables again keeps every existing row. |
| Database.Store.SaveUserProfile | mobile_app/utils/database.ts:70-96 | A singleton upsert: the existing profile keeps its id and creation time and gets the new fields and `updated_at`; otherwise one row is inserted with both stamps now; a fault changes nothing. |
| Database.Store.GetUserProfile | mobile_app/utils/database.ts:98-105 | Returns the one profile row, or null when there is none or on error. |
| Database.Store.SavePet | mobile_app/utils/database.ts:108-142 | Appends exactly one pet with a fresh id, created and updated now, with the defaults; a fault changes nothing. |
| Database.Store.UpdatePet | mobile_app/utils/database.ts:144-177 | Rewrites only the rows with that id and reports success even when none has it. |
| Database.Store.GetAllPets | mobile_app/utils/database.ts:179-186 | Every pet once, newest first; `[]` on error. |
| Database.Store.DeletePet | mobile_app/utils/database.ts:188-196 | Removes exactly the pets with that id and reports success whether or not one matched. |
| Database.Store.SaveDiagnosis | mobile_app/utils/database.ts:199-231 | Appends exactly one diagnosis with the `pet_id` and `risk_level` defaults; a fault changes nothing. |
| Database.Store.GetDiagnosisHistory | mobile_app/utils/database.ts:233-243 | The newest `limit` diagnoses (20 when the caller gives none), newest first; a negative limit gives all; `[]` on error. |
| Database.Store.GetAllDiagnoses | mobile_app/utils/database.ts:256-264 | Every diagnosis once, newest first; `[]` on error. |
| Database.Store.DeleteDiagnosis | mobile_app/utils/database.ts:245-253 | Removes exactly the diagnoses with that id and reports success whether or not one matched. |
| Database.Store.AddFavoriteVet | mobile_app/utils/database.ts:267-295 | Insert-or-replace keyed on `place_id`, keeping the places unique. |
| Database.Store.GetFavoriteVets | mobile_app/utils/database.ts:297-304 | Every favourite once, newest first; `[]` on error. |
| Database.Store.RemoveFavoriteVet | mobile_app/utils/database.ts:306-314 | Removes the favourite with that place and nothing else. |
| Database.Store.IsVetFavorite | mobile_app/utils/database.ts:316-327 | True exactly when a favourite has that place id; false on error. |
| Database.Store.ClearAllData | mobile_app/utils/database.ts:329-340 | Empties the diagnoses, favourites, pets and profile in that order; a failure part-way returns false and leaves the tables already emptied empty. |

## Left out

- The classifier and vectoriser (TF-IDF, random forest, the train/test split, `predict_proba`, accuracy and the classification report) are foreign code: the model records the configuration they are given and takes the probability vector as a function.
- Rounding of `probability` and `percentage` (`round(prob, 3)`, `round(prob*100, 1)`) is not modelled; predictions carry the exact probability and `probability * 100`, and are sorted by the exact probability.
- `difflib.SequenceMatcher.ratio` is foreign code: the breed similarity is a parameter.
- Unicode: `str.lower`, `\w`, `\s` and `str.split` are modelled over ASCII only.
- ClinicalRecommendations.ChooseActions: the order of a Python set is not modelled; the kept phrases are some min(8, n) distinct phrases of the extraction.
- pandas, CSV loading (`src/data_loader.py`, `analyze_real_data`), the `src/main.py` script and every `print` of the analysis are left out; rows are sequences of values with `None` for a missing cell.
- The network: the Overpass and OpenStreetMap requests become the element list and reply values; FastAPI routing, CORS, uvicorn, `/`, `/status`, `/health` and `initialize_model` are not modelled, and `HTTPException` detail texts are reduced to the status code or the error string.
- Api.VetOf: the always-null `rating` and `open_now` fields are not represented, a missing `type` or `id` key is not modelled, and JSON nulls are modelled as missing keys.
- Api.PhoneOf: a reply is modelled as either a failed request or a JSON object; other JSON shapes that would raise are not distinguished from a failed request.
- The SQLite engine: SQL parsing, foreign-key enforcement and the order of rows with equal timestamps are not modelled; tables are sequences in insertion order, `new Date().toISOString()` is a clock moved by `elapsed`, and a failing statement is the `fault` argument.
- Database.Store.GetDiagnosisHistory: rows with equal `created_at` are returned newest insert first; SQLite leaves their order unspecified.
- The style sheets of the mobile app have no behaviour and are not part of this model.
- The `replacements` table of `normalize_breed_name` maps every word to itself and is never applied, so it has no counterpart.

## Findings

| source | as written | input that shows it | evidently intended | confidence | as-written member | corrected member |
|---|---|---|---|---|---|---|
| data/raw/breed_overlap_analysis.py:117-118 | the total is the exact match count plus the number of fuzzy matches, but the fuzzy scan runs over every ranked name, exact ones included, so an exactly matched name is counted twice | ranked and AKC lists both `["beagle"]`: one exact match plus one fuzzy match (similarity 1.0) over one ranked name gives 200% | the share of ranked names that have an exact or a fuzzy partner, each counted once, so at most 100% | not executed | BreedOverlap.OverlapRateCanExceedHundred | BreedOverlap.OverlapRate |
