/**
  The request handlers of the diagnosis service (src/api.py): the response built
  around the model's diagnosis, the fixed self-test, the veterinary search over
  OpenStreetMap elements and the phone lookup by `place_id`. The HTTP layer, the
  Overpass and OpenStreetMap requests and the model itself are parameters.
 */
module Api {
  import opened Wrappers
  import opened Text
  import opened Model

  // ---------------------------------------------------------------------------
  // `/predict`

  /** The dictionary the model hands back; `None` is a missing key. */
  datatype RawResult = RawResult(
    primary: Option<Prediction>,
    possible: Option<seq<Prediction>>,
    multiple: Option<bool>,
    interpretation: Option<string>,
    recommendations: Option<seq<string>>)

  /** `DiagnosisResponse`; a `primary` of `None` is the empty dictionary `{}`. */
  datatype DiagnosisResponse = DiagnosisResponse(
    primary: Option<Prediction>,
    possible: seq<Prediction>,
    multiplePossibilities: bool,
    confidenceInterpretation: string,
    recommendations: seq<string>,
    riskLevel: Option<string>)

  /** The dictionary a model diagnosis is returned as: every key present. */
  function AsRaw(d: Diagnosis): RawResult {
    RawResult(Some(d.primary), Some(d.possible), Some(d.multiplePossibilities),
              Some(d.confidenceInterpretation), Some(d.recommendations))
  }

  /** HTTP status of every failure of `/predict`. */
  const InternalError: nat := 500

  /** `predict_diagnosis`: fails with status 500 when the components are not
      loaded or the model raises; otherwise copies the result with a default for
      every missing key. The risk step only passes, so `risk_level` stays null. */
  function PredictDiagnosis(initialized: bool, symptoms: string, diagnose: string -> Result<RawResult, string>)
    : (response: Result<DiagnosisResponse, nat>)
    ensures response.Err? <==> !initialized || diagnose(symptoms).Err?
    ensures response.Err? ==> response.error == InternalError
    ensures response.Ok? ==> response.value.riskLevel == None
    ensures response.Ok? ==>
      var raw := diagnose(symptoms).value;
      && response.value.primary == raw.primary
      && response.value.possible == raw.possible.GetOr([])
      && response.value.multiplePossibilities == raw.multiple.GetOr(false)
      && response.value.confidenceInterpretation == raw.interpretation.GetOr("")
      && response.value.recommendations == raw.recommendations.GetOr([])
  {
    if !initialized then Err(InternalError)
    else
      match diagnose(symptoms)
      case Err(_) => Err(InternalError)
      case Ok(result) =>
        var riskLevel: Option<string> := None;
        Ok(DiagnosisResponse(result.primary, result.possible.GetOr([]), result.multiple.GetOr(false),
                             result.interpretation.GetOr(""), result.recommendations.GetOr([]), riskLevel))
  }

  /** On a diagnosis of the model no default fires: the response carries it unchanged. */
  lemma ResponseCarriesDiagnosis(symptoms: string, d: Diagnosis)
    ensures PredictDiagnosis(true, symptoms, _ => Ok(AsRaw(d)))
      == Ok(DiagnosisResponse(Some(d.primary), d.possible, d.multiplePossibilities,
                              d.confidenceInterpretation, d.recommendations, None))
  {
  }

  // ---------------------------------------------------------------------------
  // `/test`

  const TestCases: seq<string> := [
    "dog vomiting and diarrhea for 3 days not eating",
    "cat difficulty walking limping back leg",
    "visible worms in stool weight loss",
    "excessive scratching red skin patches",
    "cat has had no appetite for a few days"
  ]

  datatype TestResult =
    | Passed(input: string, diagnosis: string, confidence: real, confidenceLevel: string, recommendations: seq<string>)
    | Failed(input: string, error: string)

  datatype TestReport = TestReport(testResults: seq<TestResult>, totalTests: nat, successfulTests: nat)

  /** One case of `test_diagnosis`: the primary's fields, or `Unknown`/0 when
      the primary is missing, or the error the model raised. */
  function TestResultOf(input: string, outcome: Result<RawResult, string>): (r: TestResult)
    ensures r.input == input
    ensures r.Failed? <==> outcome.Err?
  {
    match outcome
    case Err(e) => Failed(input, e)
    case Ok(result) =>
      match result.primary
      case None => Passed(input, "Unknown", 0.0, "Unknown", result.recommendations.GetOr([]))
      case Some(p) => Passed(input, p.condition, p.percentage, p.confidenceLevel, result.recommendations.GetOr([]))
  }

  /** How many results carry no error. */
  function SuccessCount(results: seq<TestResult>): (n: nat)
    ensures n <= |results|
    ensures n == |results| <==> forall i :: 0 <= i < |results| ==> results[i].Passed?
  {
    if results == [] then 0
    else SuccessCount(results[..|results| - 1]) + (if results[|results| - 1].Passed? then 1 else 0)
  }

  /** `test_diagnosis`: run the fixed cases in order and count the successes. */
  method TestDiagnosis(diagnose: string -> Result<RawResult, string>) returns (report: TestReport)
    ensures report.totalTests == |TestCases| == |report.testResults|
    ensures forall i :: 0 <= i < |TestCases| ==>
      report.testResults[i] == TestResultOf(TestCases[i], diagnose(TestCases[i]))
    ensures report.successfulTests == SuccessCount(report.testResults) <= report.totalTests
    ensures report.successfulTests == report.totalTests <==>
      forall i :: 0 <= i < |TestCases| ==> diagnose(TestCases[i]).Ok?
  {
    var results: seq<TestResult> := [];
    for i := 0 to |TestCases|
      invariant |results| == i
      invariant forall k :: 0 <= k < i ==> results[k] == TestResultOf(TestCases[k], diagnose(TestCases[k]))
    {
      var case_ := TestCases[i];
      results := results + [TestResultOf(case_, diagnose(case_))];
    }
    report := TestReport(results, |TestCases|, SuccessCount(results));
  }

  // ---------------------------------------------------------------------------
  // `place_id`

  /** The decimal digits of `n`, as `str` writes an integer. */
  function Decimal(n: nat): (s: string)
    ensures |s| > 0 && forall c :: c in s ==> IsDigit(c)
  {
    var digit := ['0' + (n % 10) as char];
    if n < 10 then digit else Decimal(n / 10) + digit
  }

  /** `f"osm_{element['type']}_{element['id']}"`. */
  function PlaceId(kind: string, id: nat): string {
    "osm_" + kind + "_" + Decimal(id)
  }

  /** A place id splits back into `osm`, the element type and the id, provided
      the type holds no underscore. */
  lemma PlaceIdSplits(kind: string, id: nat)
    requires '_' !in kind
    ensures Split(PlaceId(kind, id), '_') == ["osm", kind, Decimal(id)]
  {
    var parts := ["osm", kind, Decimal(id)];
    assert '_' !in Decimal(id);
    assert JoinWith(parts, '_') == PlaceId(kind, id) by {
      assert JoinWith(parts[2..], '_') == Decimal(id);
      assert parts[1..][1..] == parts[2..];
    }
    SplitOfJoin(parts, '_');
  }

  /** An underscore in the type yields more than three parts. */
  lemma PlaceIdWithUnderscoreSplitsWider(kind: string, id: nat)
    requires '_' in kind
    ensures |Split(PlaceId(kind, id), '_')| > 3
  {
    var head, tail := "osm_", "_" + Decimal(id);
    var s := PlaceId(kind, id);
    assert s == head + kind + tail;
    assert multiset(head)['_'] >= 1 by {
      assert head[3] == '_';
    }
    assert multiset(tail)['_'] >= 1 by {
      assert tail[0] == '_';
    }
    assert multiset(s) == multiset(head) + multiset(kind) + multiset(tail);
    SplitCount(s, '_');
  }

  // ---------------------------------------------------------------------------
  // `/vet_details`

  const NoPhone := "Telefon bilgisi yok"

  /** One element of an OpenStreetMap API reply; `None` is a missing `tags` key. */
  datatype OsmElement = OsmElement(tags: Option<map<string, string>>)

  /** What the OpenStreetMap API request gives: a failure of the request or of
      its JSON, or a reply whose `elements` key may be missing. */
  datatype OsmReply = RequestFailed | Reply(elements: Option<seq<OsmElement>>)

  /** The phone number in a reply: `phone`, else `contact:phone`, else the
      placeholder; an empty element list raises, which also gives the placeholder. */
  function PhoneOf(reply: OsmReply): (phone: string)
    ensures reply.RequestFailed? ==> phone == NoPhone
    ensures reply.Reply? && reply.elements == Some([]) ==> phone == NoPhone
  {
    match reply
    case RequestFailed => NoPhone
    case Reply(elements) =>
      var els := elements.GetOr([OsmElement(Some(map[]))]);
      if els == [] then NoPhone
      else
        var tags := els[0].tags.GetOr(map[]);
        if "phone" in tags then tags["phone"]
        else if "contact:phone" in tags then tags["contact:phone"]
        else NoPhone
  }

  /** `get_vet_details`: split the place id on `_`; anything but three parts is
      answered with the placeholder, otherwise the second and third part name the
      element to fetch. */
  function VetDetails(placeId: string, fetch: (string, string) -> OsmReply): string {
    var parts := Split(placeId, '_');
    if |parts| != 3 then NoPhone else PhoneOf(fetch(parts[1], parts[2]))
  }

  /** The details of a place id written by `/nearby_vets` fetch the element it
      was written from; with an underscore in the type the placeholder comes back. */
  lemma VetDetailsOfPlaceId(kind: string, id: nat, fetch: (string, string) -> OsmReply)
    ensures '_' !in kind ==> VetDetails(PlaceId(kind, id), fetch) == PhoneOf(fetch(kind, Decimal(id)))
    ensures '_' in kind ==> VetDetails(PlaceId(kind, id), fetch) == NoPhone
  {
    if '_' !in kind {
      PlaceIdSplits(kind, id);
    } else {
      PlaceIdWithUnderscoreSplitsWider(kind, id);
    }
  }

  /** Which tag wins: `phone` over `contact:phone` over the placeholder. */
  lemma PhoneTagPriority(tags: map<string, string>, rest: seq<OsmElement>)
    ensures "phone" in tags ==> PhoneOf(Reply(Some([OsmElement(Some(tags))] + rest))) == tags["phone"]
    ensures "phone" !in tags && "contact:phone" in tags ==>
      PhoneOf(Reply(Some([OsmElement(Some(tags))] + rest))) == tags["contact:phone"]
    ensures "phone" !in tags && "contact:phone" !in tags ==>
      PhoneOf(Reply(Some([OsmElement(Some(tags))] + rest))) == NoPhone
    ensures PhoneOf(Reply(None)) == NoPhone
  {
  }

  // ---------------------------------------------------------------------------
  // `/nearby_vets`

  /** The `center` of a way or relation. */
  datatype Center = Center(lat: Option<real>, lon: Option<real>)

  /** One Overpass element; `None` is a missing key. */
  datatype Element = Element(
    kind: string,
    id: nat,
    lat: Option<real>,
    lon: Option<real>,
    center: Option<Center>,
    tags: Option<map<string, string>>)

  /** One entry of `results` (its `rating` and `open_now` are always null). */
  datatype Vet = Vet(placeId: string, name: string, vicinity: string, lat: real, lng: real)

  const NoName := "\U{0130}simsiz Veteriner"

  /** A coordinate Python treats as true: present and not zero. */
  predicate Usable(x: Option<real>) { x.Some? && x.value != 0.0 }

  /** `tags.get(key, default)`. */
  function TagOr(tags: map<string, string>, key: string, default: string): (v: string)
    ensures key in tags ==> v == tags[key]
    ensures key !in tags ==> v == default
  {
    if key in tags then tags[key] else default
  }

  /** The latitude the scan reads: a node's own `lat`, otherwise its `center`'s. */
  function ChosenLat(e: Element): Option<real> {
    if e.kind == "node" then e.lat else if e.center.Some? then e.center.value.lat else None
  }

  /** The longitude the scan reads: a node's own `lon`, otherwise its `center`'s. */
  function ChosenLng(e: Element): Option<real> {
    if e.kind == "node" then e.lon else if e.center.Some? then e.center.value.lon else None
  }

  /** What one element contributes: an error (`KeyError`, turned into status 500)
      for a node without `lat` or `lon`, nothing for a missing or zero coordinate,
      else one result. */
  function VetOf(e: Element): (r: Result<Option<Vet>, string>)
    ensures r.Err? <==> e.kind == "node" && (e.lat.None? || e.lon.None?)
    ensures r.Ok? ==> (r.value.None? <==> !Usable(ChosenLat(e)) || !Usable(ChosenLng(e)))
    ensures r.Ok? && r.value.Some? ==>
      var v := r.value.value;
      var tags := e.tags.GetOr(map[]);
      && v.placeId == PlaceId(e.kind, e.id)
      && v.lat != 0.0 && v.lng != 0.0
      && (e.kind == "node" ==> Some(v.lat) == e.lat && Some(v.lng) == e.lon)
      && (e.kind != "node" ==> e.center.Some? && Some(v.lat) == e.center.value.lat && Some(v.lng) == e.center.value.lon)
      && ("name" in tags ==> v.name == tags["name"])
      && ("name" !in tags ==> v.name == NoName)
      && v.vicinity == TagOr(tags, "addr:street", "") + " " + TagOr(tags, "addr:city", "")
  {
    if e.kind == "node" && e.lat.None? then Err("'lat'")
    else if e.kind == "node" && e.lon.None? then Err("'lon'")
    else
      var lat := ChosenLat(e);
      var lng := ChosenLng(e);
      if !Usable(lat) || !Usable(lng) then Ok(None)
      else
        var tags := e.tags.GetOr(map[]);
        var name := TagOr(tags, "name", NoName);
        var vicinity := TagOr(tags, "addr:street", "") + " " + TagOr(tags, "addr:city", "");
        Ok(Some(Vet(PlaceId(e.kind, e.id), name, vicinity, lat.value, lng.value)))
  }

  /** Every usable element's result, in upstream order; the first failing node
      fails the whole request. */
  function VetsOf(elements: seq<Element>): Result<seq<Vet>, string> {
    if elements == [] then Ok([])
    else
      var n := |elements| - 1;
      match VetsOf(elements[..n])
      case Err(e) => Err(e)
      case Ok(earlier) =>
        match VetOf(elements[n])
        case Err(e) => Err(e)
        case Ok(None) => Ok(earlier)
        case Ok(Some(v)) => Ok(earlier + [v])
  }

  /** The request fails exactly when some node lacks a coordinate. */
  lemma {:induction false} VetsFailOnMissingCoordinate(elements: seq<Element>)
    ensures VetsOf(elements).Err? <==>
      exists i :: 0 <= i < |elements| && elements[i].kind == "node" && (elements[i].lat.None? || elements[i].lon.None?)
  {
    if elements != [] {
      var n := |elements| - 1;
      var init := elements[..n];
      VetsFailOnMissingCoordinate(init);
      assert forall i :: 0 <= i < n ==> init[i] == elements[i];
    }
  }

  /** Each element gives at most one result. */
  lemma {:induction false} VetsAtMostOnePerElement(elements: seq<Element>)
    ensures VetsOf(elements).Ok? ==> |VetsOf(elements).value| <= |elements|
  {
    if elements != [] {
      VetsAtMostOnePerElement(elements[..|elements| - 1]);
    }
  }

  /** Every result has non-zero coordinates and is the result of one of the elements. */
  lemma {:induction false} VetsAreElementResults(elements: seq<Element>)
    ensures VetsOf(elements).Ok? ==> forall v :: v in VetsOf(elements).value ==>
      v.lat != 0.0 && v.lng != 0.0 && exists i :: 0 <= i < |elements| && VetOf(elements[i]) == Ok(Some(v))
  {
    if elements != [] {
      var n := |elements| - 1;
      var init := elements[..n];
      VetsAreElementResults(init);
      if VetsOf(init).Ok? && VetOf(elements[n]).Ok? {
        forall v | v in VetsOf(elements).value
          ensures exists i :: 0 <= i < |elements| && VetOf(elements[i]) == Ok(Some(v))
        {
          if v in VetsOf(init).value {
            var i :| 0 <= i < n && VetOf(init[i]) == Ok(Some(v));
            assert elements[i] == init[i];
          } else {
            assert VetOf(elements[n]) == Ok(Some(v));
          }
        }
      }
    }
  }

  /** Results come from the elements, at most one each, and only from usable
      ones; the request fails exactly when some node lacks a coordinate. */
  lemma VetsComeFromElements(elements: seq<Element>)
    ensures VetsOf(elements).Err? <==>
      exists i :: 0 <= i < |elements| && elements[i].kind == "node" && (elements[i].lat.None? || elements[i].lon.None?)
    ensures VetsOf(elements).Ok? ==> |VetsOf(elements).value| <= |elements|
    ensures VetsOf(elements).Ok? ==> forall v :: v in VetsOf(elements).value ==>
      v.lat != 0.0 && v.lng != 0.0 && exists i :: 0 <= i < |elements| && VetOf(elements[i]) == Ok(Some(v))
  {
    VetsFailOnMissingCoordinate(elements);
    VetsAtMostOnePerElement(elements);
    VetsAreElementResults(elements);
  }

  /** The number of results `/nearby_vets` returns at most. */
  const ResultLimit: nat := 20

  /** `get_nearby_vets` after the Overpass request: collect the results, then
      keep the first twenty. */
  method NearbyVets(elements: seq<Element>) returns (response: Result<seq<Vet>, string>)
    ensures response.Err? <==> VetsOf(elements).Err?
    ensures response.Ok? ==>
      var all := VetsOf(elements).value;
      && |response.value| == (if |all| < ResultLimit then |all| else ResultLimit)
      && response.value == all[..|response.value|]
  {
    var results: seq<Vet> := [];
    for i := 0 to |elements|
      invariant VetsOf(elements[..i]) == Ok(results)
    {
      assert elements[..i + 1][..i] == elements[..i];
      var r := VetOf(elements[i]);
      if r.Err? {
        assert VetsOf(elements[..i + 1]).Err?;
        ErrorPersists(elements, i + 1);
        return Err(r.error);
      }
      if r.value.Some? {
        results := results + [r.value.value];
      }
    }
    assert elements[..|elements|] == elements;
    var limit := if |results| < ResultLimit then |results| else ResultLimit;
    response := Ok(results[..limit]);
  }

  /** A failing prefix makes the whole list fail. */
  lemma {:induction false} ErrorPersists(elements: seq<Element>, k: nat)
    requires k <= |elements| && VetsOf(elements[..k]).Err?
    ensures VetsOf(elements).Err?
    decreases |elements| - k
  {
    if k < |elements| {
      assert elements[..k + 1][..k] == elements[..k];
      ErrorPersists(elements, k + 1);
    } else {
      assert elements[..k] == elements;
    }
  }
}
