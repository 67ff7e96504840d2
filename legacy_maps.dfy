/** The plain-JavaScript map module (js/maps.js): its flattening of a
    directions result, which keeps TRANSIT steps only and uses a smaller
    vehicle taxonomy than the TypeScript service, and the aggregation of
    nearby-search results into recommendations. */
module LegacyMaps {
  import opened Wrappers
  import opened Types
  import opened Provider
  import opened StepOrder
  import opened Selection
  import opened Slices
  import opened Config
  import GoogleMapsService

  // ---------------------------------------------------------------------
  // Directions flattening

  /** `SUBWAY` is a subway, `HEAVY_RAIL` and `COMMUTER_TRAIN` are trains,
      every other kind stays a bus. */
  function LegacyVehicleType(v: VehicleType): (t: SegmentType)
    ensures t != Walk && t != Flight
    ensures t == SegmentType.Subway <==> v == VehicleType.Subway
    ensures t == Train <==> v == HeavyRail || v == CommuterTrain
    ensures t == SegmentType.Bus <==> v != VehicleType.Subway && v != HeavyRail && v != CommuterTrain
  {
    if v == VehicleType.Subway then SegmentType.Subway
    else if v == HeavyRail || v == CommuterTrain then Train
    else SegmentType.Bus
  }

  /** The two taxonomies disagree exactly on `RAIL` and `HIGH_SPEED_TRAIN`,
      which the TypeScript service calls trains and this module buses. */
  lemma TaxonomiesDiffer(v: VehicleType)
    ensures LegacyVehicleType(v) != GoogleMapsService.MapVehicleType(v) <==> v == Rail || v == HighSpeedTrain
    ensures v == Rail || v == HighSpeedTrain ==>
      LegacyVehicleType(v) == SegmentType.Bus && GoogleMapsService.MapVehicleType(v) == Train
  {
  }

  /** The record this module pushes for a transit step. */
  datatype LegacySegment = LegacySegment(
    id: string,
    kind: SegmentType,
    line: string,
    departure: string,
    arrival: string,
    departureTime: string,
    arrivalTime: string,
    duration: string,
    distance: string,
    stops: int,
    headsign: string)

  /** The `TypeError` thrown when the loop body reads a property of a
      missing `transit`, `duration` or `distance`. */
  datatype LegacyError = TypeError

  /** The TRANSIT steps the loop body can read without throwing. */
  predicate WellFormed(step: Step) {
    step.transit.Some? && step.duration.Some? && step.distance.Some?
  }

  /** `route-${index}-${stepIndex}` */
  function SegmentId(route: nat, step: nat): string {
    "route-" + GoogleMapsService.TransitId(route, step)
  }

  function SegmentOf(p: Pos, step: Step): LegacySegment
    requires WellFormed(step)
  {
    var t := step.transit.value;
    LegacySegment(
      id := SegmentId(p.route, p.step),
      kind := LegacyVehicleType(t.line.vehicle),
      line := GoogleMapsService.LineLabel(t.line),
      departure := t.departureStop,
      arrival := t.arrivalStop,
      departureTime := t.departureTime,
      arrivalTime := t.arrivalTime,
      duration := step.duration.value,
      distance := step.distance.value,
      stops := t.numStops,
      headsign := t.headsign)
  }

  /** The body of the innermost `forEach`: nothing for a non-TRANSIT step,
      the pushed segment for a well-formed TRANSIT step, the exception for
      any other TRANSIT step. */
  function LegacyStep(p: Pos, step: Step): (o: Option<Result<LegacySegment, LegacyError>>)
    ensures o.Some? <==> step.travelMode == Transit
    ensures o.Some? ==> (o.value.Success? <==> WellFormed(step))
  {
    if step.travelMode != Transit then None
    else if !WellFormed(step) then Some(Failure(TypeError))
    else Some(Success(SegmentOf(p, step)))
  }

  /** The values of a run of outcomes, or the first failure among them. */
  function AllSucceeded<S, E>(rs: seq<Result<S, E>>): (r: Result<seq<S>, E>)
    ensures r.Success? <==> forall i :: 0 <= i < |rs| ==> rs[i].Success?
    ensures r.Success? ==> |r.value| == |rs| && forall i :: 0 <= i < |rs| ==> rs[i] == Success(r.value[i])
    ensures r.Failure? ==>
      exists i :: 0 <= i < |rs| && rs[i] == Failure(r.error) && forall j :: 0 <= j < i ==> rs[j].Success?
  {
    if rs == [] then Success([])
    else match rs[0]
      case Failure(e) => Failure(e)
      case Success(v) =>
        match AllSucceeded(rs[1..])
        case Failure(e) =>
          assert exists i :: 1 <= i < |rs| && rs[i] == Failure(e) && forall j :: 1 <= j < i ==> rs[j].Success? by {
            var i :| 0 <= i < |rs[1..]| && rs[1..][i] == Failure(e) && forall j :: 0 <= j < i ==> rs[1..][j].Success?;
            assert rs[i + 1] == Failure(e);
            forall j | 1 <= j < i + 1 ensures rs[j].Success? {
              assert rs[j] == rs[1..][j - 1];
            }
          }
          Failure(e)
        case Success(vs) =>
          assert forall i :: 1 <= i < |rs| ==> rs[i] == rs[1..][i - 1];
          Success([v] + vs)
  }

  /** What `parseDirectionsToRoutes` returns for d, or the exception it
      throws: the first failing TRANSIT step in visiting order. */
  function Parse(d: DirectionsResult): Result<seq<LegacySegment>, LegacyError> {
    AllSucceeded(Items(d, LegacyStep))
  }

  /** The positions of the TRANSIT steps of d, in visiting order. */
  function TransitPositions(d: DirectionsResult): seq<Pos> {
    ItemPositions(d, LegacyStep)
  }

  /** `parseDirectionsToRoutes`: the nested loops with LegacyStep as their
      body. The loop pushes into a local array that a throw discards, so
      visiting every step and then taking the first failure returns what
      the source returns. */
  method ParseDirectionsToRoutes(d: DirectionsResult) returns (r: Result<seq<LegacySegment>, LegacyError>)
    ensures r == Parse(d)
  {
    var outcomes := VisitRoutes(d, LegacyStep);
    r := AllSucceeded(outcomes);
  }

  /** Whether every TRANSIT step of d carries transit details, a duration
      and a distance. */
  ghost predicate AllTransitWellFormed(d: DirectionsResult) {
    forall p :: ValidPos(d, p) && StepAt(d, p).travelMode == Transit ==> WellFormed(StepAt(d, p))
  }

  lemma ParseSucceedsWhenWellFormed(d: DirectionsResult)
    requires AllTransitWellFormed(d)
    ensures Parse(d).Success?
  {
    ItemsCharacterized(d, LegacyStep);
    var items := Items(d, LegacyStep);
    var ps := ItemPositions(d, LegacyStep);
    forall k | 0 <= k < |items| ensures items[k].Success? {
      assert LegacyStep(ps[k], StepAt(d, ps[k])) == Some(items[k]);
    }
  }

  lemma WellFormedWhenParseSucceeds(d: DirectionsResult)
    requires Parse(d).Success?
    ensures AllTransitWellFormed(d)
  {
    ItemsCharacterized(d, LegacyStep);
    var items := Items(d, LegacyStep);
    var ps := ItemPositions(d, LegacyStep);
    forall p | ValidPos(d, p) && StepAt(d, p).travelMode == Transit ensures WellFormed(StepAt(d, p)) {
      var k :| 0 <= k < |ps| && ps[k] == p;
      assert LegacyStep(p, StepAt(d, p)) == Some(items[k]);
    }
  }

  /** The parse succeeds exactly when every TRANSIT step carries transit
      details, a duration and a distance; otherwise it throws. */
  lemma ParseSucceedsIff(d: DirectionsResult)
    ensures Parse(d).Success? <==> AllTransitWellFormed(d)
    ensures Parse(d).Failure? ==> Parse(d).error == TypeError
  {
    if AllTransitWellFormed(d) {
      ParseSucceedsWhenWellFormed(d);
    }
    if Parse(d).Success? {
      WellFormedWhenParseSucceeds(d);
    }
  }

  /** A successful parse holds one segment per TRANSIT step, and none for a
      walking or any other step, in strictly increasing (route, leg, step)
      order; the k-th segment is built from the step at the k-th position. */
  lemma ParsedSegments(d: DirectionsResult)
    requires Parse(d).Success?
    ensures |Parse(d).value| == |TransitPositions(d)|
    ensures Increasing(TransitPositions(d))
    ensures forall p :: ValidPos(d, p) && StepAt(d, p).travelMode == Transit ==> p in TransitPositions(d)
    ensures forall k :: 0 <= k < |Parse(d).value| ==>
      var p := TransitPositions(d)[k];
      && ValidPos(d, p)
      && StepAt(d, p).travelMode == Transit
      && WellFormed(StepAt(d, p))
      && Parse(d).value[k] == SegmentOf(p, StepAt(d, p))
  {
    ItemsCharacterized(d, LegacyStep);
    var items := Items(d, LegacyStep);
    var ps := ItemPositions(d, LegacyStep);
    forall k | 0 <= k < |Parse(d).value|
      ensures WellFormed(StepAt(d, ps[k])) && Parse(d).value[k] == SegmentOf(ps[k], StepAt(d, ps[k]))
    {
      assert LegacyStep(ps[k], StepAt(d, ps[k])) == Some(items[k]);
    }
  }

  // ---------------------------------------------------------------------
  // Recommendation aggregation

  /** The callback arguments of a nearby search: its status and results. */
  datatype NearbyReply = NearbyReply(status: string, results: seq<Place>)

  /** `searchNearbyPlaces` resolves the results on `OK` and `[]` otherwise;
      it never rejects. */
  function SearchNearbyPlaces(reply: NearbyReply): seq<Place> {
    if reply.status == "OK" then reply.results else []
  }

  /** `ids.map(id => entries.find(e => e.id === id)?.label or '')` */
  function Labels(entries: seq<Entry>, ids: seq<string>): (r: seq<string>)
    ensures |r| == |ids| && forall i :: 0 <= i < |ids| ==> r[i] == LabelOrEmpty(entries, ids[i])
  {
    seq(|ids|, i requires 0 <= i < |ids| => LabelOrEmpty(entries, ids[i]))
  }

  const DefaultTerms: seq<string> := ["맛집", "관광지", "카페"]

  /** The search terms: the cuisine labels in selection order, then the
      activity labels in selection order, or the three default terms when
      both lists are empty. */
  function SearchTerms(cuisines: seq<string>, activities: seq<string>): (terms: seq<string>)
    ensures cuisines == [] && activities == [] ==> terms == DefaultTerms
    ensures cuisines != [] || activities != [] ==> terms == Labels(Cuisines, cuisines) + Labels(Activities, activities)
  {
    var terms := Labels(Cuisines, cuisines) + Labels(Activities, activities);
    if |terms| == 0 then terms + DefaultTerms else terms
  }

  /** The terms actually searched: `searchTerms.slice(0, 5)`. */
  function Searched(cuisines: seq<string>, activities: seq<string>): seq<string> {
    Take(SearchTerms(cuisines, activities), 5)
  }

  /** What the search for `term` contributes: its first three results. */
  function Contribution(search: (string, string) -> NearbyReply, term: string): seq<Place> {
    Take(SearchNearbyPlaces(search("restaurant", term)), 3)
  }

  /** The accumulator after the loop has searched terms[lo..hi]. */
  function Gathered(terms: seq<string>, lo: nat, hi: nat, search: (string, string) -> NearbyReply): seq<Place>
    requires lo <= hi <= |terms|
    decreases hi
  {
    if hi == lo then [] else Gathered(terms, lo, hi - 1, search) + Contribution(search, terms[hi - 1])
  }

  /** `self.findIndex(p => p.place_id === id)` */
  function FindIndex(acc: seq<Place>, id: Option<string>): (r: int)
    ensures -1 <= r < |acc|
    ensures r >= 0 ==> acc[r].placeId == id && forall j :: 0 <= j < r ==> acc[j].placeId != id
    ensures r == -1 ==> forall j :: 0 <= j < |acc| ==> acc[j].placeId != id
  {
    if acc == [] then -1
    else if acc[0].placeId == id then 0
    else
      var r := FindIndex(acc[1..], id);
      if r == -1 then -1 else r + 1
  }

  /** acc[i] is the first entry of acc with its `place_id`. */
  predicate IsFirst(acc: seq<Place>, i: nat)
    requires i < |acc|
  {
    FindIndex(acc, acc[i].placeId) == i
  }

  /** `acc.filter((place, index, self) => index === self.findIndex(...))`
      over the first n entries. */
  function KeepFirst(acc: seq<Place>, n: nat): seq<Place>
    requires n <= |acc|
  {
    if n == 0 then []
    else KeepFirst(acc, n - 1) + (if IsFirst(acc, n - 1) then [acc[n - 1]] else [])
  }

  function Unique(acc: seq<Place>): seq<Place> {
    KeepFirst(acc, |acc|)
  }

  predicate DistinctIds(s: seq<Place>) {
    forall i, j :: 0 <= i < j < |s| ==> s[i].placeId != s[j].placeId
  }

  /** Every entry of s is the first entry of acc with its `place_id`. */
  predicate AllFirstOccurrences(s: seq<Place>, acc: seq<Place>) {
    forall k :: 0 <= k < |s| ==> var f := FindIndex(acc, s[k].placeId); 0 <= f && acc[f] == s[k]
  }

  /** The entries of s come in the order of their first occurrences in acc. */
  predicate InFirstOccurrenceOrder(s: seq<Place>, acc: seq<Place>) {
    forall k, k' :: 0 <= k < k' < |s| ==> FindIndex(acc, s[k].placeId) < FindIndex(acc, s[k'].placeId)
  }

  /** The accumulator for the given selections and search provider. */
  function Accumulated(cuisines: seq<string>, activities: seq<string>, search: (string, string) -> NearbyReply): seq<Place> {
    var terms := Searched(cuisines, activities);
    Gathered(terms, 0, |terms|, search)
  }

  /** What `getRecommendations` resolves to. */
  function Recommendations(cuisines: seq<string>, activities: seq<string>, search: (string, string) -> NearbyReply): seq<Place> {
    Take(Unique(Accumulated(cuisines, activities, search)), 10)
  }

  /** `getRecommendations`: the term list, the loop over its first five
      terms, then the filter that drops repeated `place_id`s and the cap at
      ten. `search(type, keyword)`
      stands for the nearby search around the given location. */
  method GetRecommendations(state: AppState, search: (string, string) -> NearbyReply) returns (recs: seq<Place>)
    ensures recs == Recommendations(state.selectedCuisines, state.selectedActivities, search)
  {
    var cuisineKeywords := Labels(Cuisines, state.selectedCuisines);
    var activityKeywords := Labels(Activities, state.selectedActivities);
    var searchTerms := cuisineKeywords + activityKeywords;
    if |searchTerms| == 0 {
      searchTerms := searchTerms + DefaultTerms;
    }
    assert searchTerms == SearchTerms(state.selectedCuisines, state.selectedActivities);
    var recommendations := SearchEach(Take(searchTerms, 5), search);
    var uniqueRecommendations := Unique(recommendations);
    recs := Take(uniqueRecommendations, 10);
  }

  /** The `for` loop of `getRecommendations`: each term is searched in
      order with type `restaurant`, and its first three results are pushed. */
  method SearchEach(terms: seq<string>, search: (string, string) -> NearbyReply) returns (recommendations: seq<Place>)
    ensures recommendations == Gathered(terms, 0, |terms|, search)
  {
    recommendations := [];
    for i := 0 to |terms|
      invariant recommendations == Gathered(terms, 0, i, search)
    {
      var results := SearchNearbyPlaces(search("restaurant", terms[i]));
      recommendations := recommendations + Take(results, 3);
    }
  }

  /** The filter keeps the entries it keeps in accumulator order. */
  lemma {:induction false} KeepFirstSubsequence(acc: seq<Place>, n: nat)
    requires n <= |acc|
    ensures IsSubsequence(KeepFirst(acc, n), acc[..n])
  {
    if n > 0 {
      KeepFirstSubsequence(acc, n - 1);
      var k0 := KeepFirst(acc, n - 1);
      assert acc[..n] == acc[..n - 1] + [acc[n - 1]];
      SubsequenceExtend(k0, acc[..n - 1], acc[n - 1]);
      if !IsFirst(acc, n - 1) {
        assert KeepFirst(acc, n) == k0;
      }
    }
  }

  /** Each entry the filter keeps among the first n is the first entry of
      the accumulator with its `place_id`. */
  lemma {:induction false} KeepFirstKeepsFirsts(acc: seq<Place>, n: nat)
    requires n <= |acc|
    ensures forall k :: 0 <= k < |KeepFirst(acc, n)| ==>
      var f := FindIndex(acc, KeepFirst(acc, n)[k].placeId); 0 <= f < n && acc[f] == KeepFirst(acc, n)[k]
  {
    if n > 0 {
      KeepFirstKeepsFirsts(acc, n - 1);
      var k0 := KeepFirst(acc, n - 1);
      if IsFirst(acc, n - 1) {
        assert KeepFirst(acc, n) == k0 + [acc[n - 1]];
      } else {
        assert KeepFirst(acc, n) == k0;
      }
    }
  }

  /** The first entry of each `place_id` among the first n is kept. */
  lemma {:induction false} KeepFirstKeepsEveryId(acc: seq<Place>, n: nat)
    requires n <= |acc|
    ensures forall i :: 0 <= i < n && IsFirst(acc, i) ==> acc[i] in KeepFirst(acc, n)
  {
    if n > 0 {
      KeepFirstKeepsEveryId(acc, n - 1);
      var k0 := KeepFirst(acc, n - 1);
      if IsFirst(acc, n - 1) {
        assert KeepFirst(acc, n) == k0 + [acc[n - 1]];
      } else {
        assert KeepFirst(acc, n) == k0;
      }
    }
  }

  /** The filter keeps entries in the order of their first occurrences,
      so an id returned by an earlier term keeps that term's rank. */
  lemma {:induction false} KeepFirstInFirstOrder(acc: seq<Place>, n: nat)
    requires n <= |acc|
    ensures InFirstOccurrenceOrder(KeepFirst(acc, n), acc)
  {
    if n > 0 {
      KeepFirstInFirstOrder(acc, n - 1);
      var k0 := KeepFirst(acc, n - 1);
      if IsFirst(acc, n - 1) {
        KeepFirstKeepsFirsts(acc, n - 1);
        var k1 := k0 + [acc[n - 1]];
        assert KeepFirst(acc, n) == k1;
        forall k, k' | 0 <= k < k' < |k1|
          ensures FindIndex(acc, k1[k].placeId) < FindIndex(acc, k1[k'].placeId)
        {
          if k' == |k0| {
            assert k1[k] == k0[k] && k1[k'] == acc[n - 1];
          } else {
            assert k1[k] == k0[k] && k1[k'] == k0[k'];
          }
        }
      } else {
        assert KeepFirst(acc, n) == k0;
      }
    }
  }

  /** No two entries the filter keeps share a `place_id`. */
  lemma {:induction false} KeepFirstDistinct(acc: seq<Place>, n: nat)
    requires n <= |acc|
    ensures DistinctIds(KeepFirst(acc, n))
  {
    if n > 0 {
      KeepFirstDistinct(acc, n - 1);
      var k0 := KeepFirst(acc, n - 1);
      if IsFirst(acc, n - 1) {
        KeepFirstKeepsFirsts(acc, n - 1);
        var k1 := k0 + [acc[n - 1]];
        assert KeepFirst(acc, n) == k1;
        forall k | 0 <= k < |k0| ensures k1[k].placeId != acc[n - 1].placeId {
          var f := FindIndex(acc, k0[k].placeId);
          assert f < n - 1 && acc[f] == k0[k];
        }
      } else {
        assert KeepFirst(acc, n) == k0;
      }
    }
  }

  /** The filter keeps exactly the first entry of each `place_id`, in
      accumulator order. */
  lemma UniqueCharacterized(acc: seq<Place>)
    ensures DistinctIds(Unique(acc))
    ensures IsSubsequence(Unique(acc), acc)
    ensures AllFirstOccurrences(Unique(acc), acc)
    ensures InFirstOccurrenceOrder(Unique(acc), acc)
    ensures forall i :: 0 <= i < |acc| && IsFirst(acc, i) ==> acc[i] in Unique(acc)
  {
    KeepFirstDistinct(acc, |acc|);
    KeepFirstInFirstOrder(acc, |acc|);
    KeepFirstKeepsFirsts(acc, |acc|);
    KeepFirstKeepsEveryId(acc, |acc|);
    KeepFirstSubsequence(acc, |acc|);
    assert acc[..|acc|] == acc;
  }

  /** A place returned by an earlier and a later term is kept once, at the
      earlier term's rank: [a, b, a2] with a2 sharing a's id gives [a, b]. */
  lemma DuplicateKeepsEarlierRank(a: Place, b: Place, a2: Place)
    requires a.placeId == a2.placeId && a.placeId != b.placeId
    ensures Unique([a, b, a2]) == [a, b]
  {
    var acc := [a, b, a2];
    assert FindIndex(acc, a.placeId) == 0;
    assert FindIndex(acc[1..], b.placeId) == 0;
    assert FindIndex(acc, b.placeId) == 1;
    assert IsFirst(acc, 0) && IsFirst(acc, 1) && !IsFirst(acc, 2);
    assert KeepFirst(acc, 1) == [a];
    assert KeepFirst(acc, 2) == [a, b];
  }

  /** Every `place_id` of the accumulator has its first entry kept. */
  lemma EveryIdKept(acc: seq<Place>, i: nat)
    requires i < |acc|
    ensures exists k :: 0 <= k < |Unique(acc)| && Unique(acc)[k].placeId == acc[i].placeId
  {
    UniqueCharacterized(acc);
    var f := FindIndex(acc, acc[i].placeId);
    assert IsFirst(acc, f);
    assert acc[f] in Unique(acc);
  }

  /** The result has at most ten entries, no two with the same `place_id`,
      each the first entry of the accumulator with its id, in accumulator
      order; it is a prefix of the deduplicated accumulator, the whole of it
      when that has fewer than ten entries. */
  lemma RecommendationsCharacterized(cuisines: seq<string>, activities: seq<string>, search: (string, string) -> NearbyReply)
    ensures var r := Recommendations(cuisines, activities, search);
      var acc := Accumulated(cuisines, activities, search);
      && |r| <= 10
      && DistinctIds(r)
      && IsSubsequence(r, acc)
      && AllFirstOccurrences(r, acc)
      && InFirstOccurrenceOrder(r, acc)
      && r == Unique(acc)[..|r|]
      && (|r| < 10 ==> r == Unique(acc))
  {
    var acc := Accumulated(cuisines, activities, search);
    var u := Unique(acc);
    var r := Take(u, 10);
    UniqueCharacterized(acc);
    SubsequencePrefix(u, acc, |r|);
    assert AllFirstOccurrences(r, acc) by {
      forall k | 0 <= k < |r| ensures var f := FindIndex(acc, r[k].placeId); 0 <= f && acc[f] == r[k] {
        assert r[k] == u[k];
      }
    }
    assert InFirstOccurrenceOrder(r, acc) by {
      forall k, k' | 0 <= k < k' < |r|
        ensures FindIndex(acc, r[k].placeId) < FindIndex(acc, r[k'].placeId)
      {
        assert r[k] == u[k] && r[k'] == u[k'];
      }
    }
  }

  /** The accumulator over terms[lo..hi] is that over terms[lo..mid]
      followed by that over terms[mid..hi]. */
  lemma {:induction false} GatheredSplit(terms: seq<string>, lo: nat, mid: nat, hi: nat, search: (string, string) -> NearbyReply)
    requires lo <= mid <= hi <= |terms|
    ensures Gathered(terms, lo, hi, search) == Gathered(terms, lo, mid, search) + Gathered(terms, mid, hi, search)
    decreases hi
  {
    if hi > mid {
      GatheredSplit(terms, lo, mid, hi - 1, search);
      var a, b, c := Gathered(terms, lo, mid, search), Gathered(terms, mid, hi - 1, search), Contribution(search, terms[hi - 1]);
      assert (a + b) + c == a + (b + c);
    } else {
      assert Gathered(terms, mid, hi, search) == [];
    }
  }

  /** A search that does not answer `OK` contributes nothing, and the
      searches after it contribute as they would without it. */
  lemma FailedSearchContributesNothing(terms: seq<string>, i: nat, n: nat, search: (string, string) -> NearbyReply)
    requires i < n <= |terms|
    requires search("restaurant", terms[i]).status != "OK"
    ensures Gathered(terms, 0, n, search) == Gathered(terms, 0, i, search) + Gathered(terms, i + 1, n, search)
  {
    GatheredSplit(terms, 0, i, n, search);
    GatheredSplit(terms, i, i + 1, n, search);
  }

  /** Each term contributes at most three results, each one of its own. */
  lemma {:induction false} GatheredFromSearches(terms: seq<string>, lo: nat, hi: nat, search: (string, string) -> NearbyReply)
    requires lo <= hi <= |terms|
    ensures |Gathered(terms, lo, hi, search)| <= 3 * (hi - lo)
    ensures forall x :: x in Gathered(terms, lo, hi, search) ==>
      exists i :: lo <= i < hi && x in Contribution(search, terms[i])
    decreases hi
  {
    if hi > lo {
      GatheredFromSearches(terms, lo, hi - 1, search);
      forall x | x in Gathered(terms, lo, hi, search)
        ensures exists i :: lo <= i < hi && x in Contribution(search, terms[i])
      {
        if x !in Gathered(terms, lo, hi - 1, search) {
          assert x in Contribution(search, terms[hi - 1]);
        }
      }
    }
  }

  /** The accumulator depends on the provider only through its answers for
      type `restaurant` and the given terms. */
  lemma {:induction false} GatheredDependsOnSearchedTerms(terms: seq<string>, lo: nat, hi: nat,
      search: (string, string) -> NearbyReply, search': (string, string) -> NearbyReply)
    requires lo <= hi <= |terms|
    requires forall i :: lo <= i < hi ==> search("restaurant", terms[i]) == search'("restaurant", terms[i])
    ensures Gathered(terms, lo, hi, search) == Gathered(terms, lo, hi, search')
    decreases hi
  {
    if hi > lo {
      GatheredDependsOnSearchedTerms(terms, lo, hi - 1, search, search');
    }
  }

  /** Only the first five terms are searched, each with type `restaurant`:
      two providers that answer those five searches alike give the same
      recommendations, and at most fifteen results are gathered. */
  lemma OnlyFirstFiveSearched(cuisines: seq<string>, activities: seq<string>,
      search: (string, string) -> NearbyReply, search': (string, string) -> NearbyReply)
    requires forall t :: t in Searched(cuisines, activities) ==> search("restaurant", t) == search'("restaurant", t)
    ensures |Searched(cuisines, activities)| <= 5
    ensures Searched(cuisines, activities) == SearchTerms(cuisines, activities)[..|Searched(cuisines, activities)|]
    ensures Recommendations(cuisines, activities, search) == Recommendations(cuisines, activities, search')
    ensures |Accumulated(cuisines, activities, search)| <= 15
  {
    var terms := Searched(cuisines, activities);
    GatheredDependsOnSearchedTerms(terms, 0, |terms|, search, search');
    GatheredFromSearches(terms, 0, |terms|, search);
  }

  /** With nothing selected the three default terms are searched, in
      order. */
  lemma DefaultTermsSearched()
    ensures Searched([], []) == ["맛집", "관광지", "카페"]
  {
    assert |SearchTerms([], [])| == 3;
  }
}
