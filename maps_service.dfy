/** The TypeScript map service (src/services/googleMapsService.ts): flattening
    a directions result into segments, the vehicle and place taxonomies, and
    the normalization of nearby-search results. */
module GoogleMapsService {
  import opened Wrappers
  import opened Text
  import opened Types
  import opened Provider
  import opened StepOrder
  import opened Slices

  /** The provider's vehicle kinds onto the segment types; total, with `bus`
      for every kind not listed. */
  function MapVehicleType(v: VehicleType): (t: SegmentType)
    ensures t != Walk && t != Flight
    ensures t == SegmentType.Subway <==> v == VehicleType.Subway
    ensures t == Train <==> v in {Rail, HeavyRail, HighSpeedTrain, CommuterTrain}
    ensures t == SegmentType.Bus <==>
      v !in {VehicleType.Subway, Rail, HeavyRail, HighSpeedTrain, CommuterTrain}
  {
    match v
    case Bus | IntercityBus => SegmentType.Bus
    case Subway => SegmentType.Subway
    case Rail | HeavyRail | HighSpeedTrain | CommuterTrain => Train
    case _ => SegmentType.Bus
  }

  /** `${routeIndex}-${stepIndex}` */
  function TransitId(route: nat, step: nat): string {
    NatToString(route) + "-" + NatToString(step)
  }

  /** `${routeIndex}-walk-${stepIndex}` */
  function WalkId(route: nat, step: nat): string {
    NatToString(route) + "-walk-" + NatToString(step)
  }

  /** `short_name || name` */
  function LineLabel(line: TransitLine): string {
    if Truthy(line.shortName) then line.shortName.value else line.name
  }

  /** `agencies?.[0]?.name` */
  function FirstAgency(line: TransitLine): Option<string> {
    if |line.agencyNames| > 0 then line.agencyNames[0] else None
  }

  /** The segment pushed for a TRANSIT step with transit details. */
  function TransitSegment(route: nat, stepIndex: nat, step: Step, t: TransitDetails): TransitRoute {
    TransitRoute(
      id := TransitId(route, stepIndex),
      kind := MapVehicleType(t.line.vehicle),
      line := Some(LineLabel(t.line)),
      departure := t.departureStop,
      arrival := t.arrivalStop,
      departureTime := t.departureTime,
      arrivalTime := t.arrivalTime,
      duration := step.duration.GetOr(""),
      distance := step.distance,
      provider := FirstAgency(t.line),
      color := if Truthy(t.line.color) then Some("#" + t.line.color.value) else None)
  }

  /** The segment pushed for a WALKING step. */
  function WalkSegment(route: nat, stepIndex: nat, step: Step): TransitRoute {
    TransitRoute(
      id := WalkId(route, stepIndex),
      kind := Walk,
      line := None,
      departure := step.instructions,
      arrival := "",
      departureTime := "",
      arrivalTime := "",
      duration := step.duration.GetOr(""),
      distance := step.distance,
      provider := None,
      color := None)
  }

  /** The steps the parser emits a segment for. */
  predicate Qualifies(step: Step) {
    (step.travelMode == Transit && step.transit.Some?) || step.travelMode == Walking
  }

  /** The body of the innermost `forEach`: what it pushes for the step at
      position p (the id uses the route index and the step's index within
      its leg). */
  function ToSegment(p: Pos, step: Step): (o: Option<TransitRoute>)
    ensures o.Some? <==> Qualifies(step)
  {
    if step.travelMode == Transit && step.transit.Some? then
      Some(TransitSegment(p.route, p.step, step, step.transit.value))
    else if step.travelMode == Walking then
      Some(WalkSegment(p.route, p.step, step))
    else
      None
  }

  /** The value `parseDirectionsToRoutes` returns for d. */
  function Flatten(d: DirectionsResult): seq<TransitRoute> {
    Items(d, ToSegment)
  }

  /** The positions of the steps behind the segments of Flatten(d). */
  function SourcePositions(d: DirectionsResult): seq<Pos> {
    ItemPositions(d, ToSegment)
  }

  /** `parseDirectionsToRoutes`: the nested loops over routes, legs and steps
      with ToSegment as their body. */
  method ParseDirectionsToRoutes(d: DirectionsResult) returns (routes: seq<TransitRoute>)
    ensures routes == Flatten(d)
  {
    routes := VisitRoutes(d, ToSegment);
  }

  /** Flatten(d) has one segment per qualifying step (a TRANSIT step with
      transit details, or a WALKING step) and none for any other step; the
      segments come in strictly increasing (route, leg, step) order; the k-th
      segment is built from the step at the k-th position. */
  lemma FlattenOrderAndCoverage(d: DirectionsResult)
    ensures |Flatten(d)| == |SourcePositions(d)|
    ensures Increasing(SourcePositions(d))
    ensures forall k :: 0 <= k < |Flatten(d)| ==>
      var p := SourcePositions(d)[k];
      ValidPos(d, p) && Qualifies(StepAt(d, p)) && ToSegment(p, StepAt(d, p)) == Some(Flatten(d)[k])
    ensures forall p :: ValidPos(d, p) && Qualifies(StepAt(d, p)) ==> p in SourcePositions(d)
  {
    ItemsCharacterized(d, ToSegment);
  }

  /** The fields of each emitted segment, by the kind of its step. */
  lemma FlattenSegmentFields(d: DirectionsResult, k: nat)
    requires k < |Flatten(d)|
    ensures |SourcePositions(d)| == |Flatten(d)|
    ensures var p := SourcePositions(d)[k];
      ValidPos(d, p) &&
      var step, seg := StepAt(d, p), Flatten(d)[k];
      && (step.travelMode == Transit ==>
            step.transit.Some? &&
            var t := step.transit.value;
            && seg.id == TransitId(p.route, p.step)
            && seg.kind == MapVehicleType(t.line.vehicle)
            && seg.line == Some(if Truthy(t.line.shortName) then t.line.shortName.value else t.line.name)
            && seg.departure == t.departureStop && seg.arrival == t.arrivalStop
            && seg.departureTime == t.departureTime && seg.arrivalTime == t.arrivalTime)
      && (step.travelMode == Walking ==>
            && seg.id == WalkId(p.route, p.step)
            && seg.kind == Walk && seg.line == None
            && seg.departure == step.instructions && seg.arrival == ""
            && seg.departureTime == "" && seg.arrivalTime == "")
      && (step.travelMode == Transit || step.travelMode == Walking)
      && seg.duration == step.duration.GetOr("") && seg.distance == step.distance
  {
    FlattenOrderAndCoverage(d);
  }

  /** A walking id never equals a transit id, whatever the indices: right
      after the route number, one continues with 'w' and the other with a
      digit. */
  lemma WalkIdNeverTransitId(r: nat, s: nat, r': nat, s': nat)
    ensures WalkId(r, s) != TransitId(r', s')
  {
    var w, t := WalkId(r, s), TransitId(r', s');
    var a, b := NatToString(r), NatToString(r');
    if |a| < |b| {
      assert w[|a|] == '-' && IsDigit(t[|a|]);
    } else if |b| < |a| {
      assert t[|b|] == '-' && IsDigit(w[|b|]);
    } else {
      assert w[|a| + 1] == 'w' && IsDigit(t[|a| + 1]);
    }
  }

  /** Splitting at the first '-': a rendered number contains no '-'. */
  lemma FirstDashSplits(a: string, b: string, x: string, y: string)
    requires forall i :: 0 <= i < |a| ==> IsDigit(a[i])
    requires forall i :: 0 <= i < |b| ==> IsDigit(b[i])
    ensures a + "-" + x == b + "-" + y ==> a == b && x == y
  {
    var u, v := a + "-" + x, b + "-" + y;
    if |a| < |b| {
      assert u[|a|] == '-' && IsDigit(v[|a|]);
    } else if |b| < |a| {
      assert v[|b|] == '-' && IsDigit(u[|b|]);
    } else if u == v {
      assert a == u[..|a|] && b == v[..|b|];
      assert x == u[|a| + 1..] && y == v[|b| + 1..];
    }
  }

  /** Transit ids determine their route and step index. */
  lemma TransitIdInjective(r: nat, s: nat, r': nat, s': nat)
    ensures TransitId(r, s) == TransitId(r', s') ==> r == r' && s == s'
  {
    if TransitId(r, s) == TransitId(r', s') {
      FirstDashSplits(NatToString(r), NatToString(r'), NatToString(s), NatToString(s'));
      NatToStringInjective(r, r');
      NatToStringInjective(s, s');
    }
  }

  /** A walking id is the route number, a dash, and "walk-" before the step
      number. */
  lemma WalkIdAfterDash(r: nat, s: nat)
    ensures WalkId(r, s) == NatToString(r) + "-" + ("walk-" + NatToString(s))
  {
  }

  lemma WalkTailCancels(a: string, b: string)
    ensures "walk-" + a == "walk-" + b ==> a == b
  {
    if "walk-" + a == "walk-" + b {
      assert a == ("walk-" + a)[5..];
      assert b == ("walk-" + b)[5..];
    }
  }

  /** Walking ids determine their route and step index. */
  lemma WalkIdInjective(r: nat, s: nat, r': nat, s': nat)
    ensures WalkId(r, s) == WalkId(r', s') ==> r == r' && s == s'
  {
    if WalkId(r, s) == WalkId(r', s') {
      WalkIdAfterDash(r, s);
      WalkIdAfterDash(r', s');
      FirstDashSplits(NatToString(r), NatToString(r'), "walk-" + NatToString(s), "walk-" + NatToString(s'));
      WalkTailCancels(NatToString(s), NatToString(s'));
      NatToStringInjective(r, r');
      NatToStringInjective(s, s');
    }
  }

  /** Two emitted segments with the same id come from the same route and the
      same step index (possibly in different legs). */
  lemma SegmentIdDeterminesRouteAndStep(d: DirectionsResult, i: nat, j: nat)
    requires i < |Flatten(d)| && j < |Flatten(d)|
    ensures |SourcePositions(d)| == |Flatten(d)|
    ensures Flatten(d)[i].id == Flatten(d)[j].id ==>
      SourcePositions(d)[i].route == SourcePositions(d)[j].route
      && SourcePositions(d)[i].step == SourcePositions(d)[j].step
  {
    FlattenSegmentFields(d, i);
    FlattenSegmentFields(d, j);
    var p, q := SourcePositions(d)[i], SourcePositions(d)[j];
    var a, b := StepAt(d, p), StepAt(d, q);
    if a.travelMode == Transit && b.travelMode == Transit {
      TransitIdInjective(p.route, p.step, q.route, q.step);
    } else if a.travelMode == Walking && b.travelMode == Walking {
      WalkIdInjective(p.route, p.step, q.route, q.step);
    } else if a.travelMode == Walking {
      WalkIdNeverTransitId(p.route, p.step, q.route, q.step);
    } else {
      WalkIdNeverTransitId(q.route, q.step, p.route, p.step);
    }
  }

  /** Ids restart their step number in every leg, so they are unique only
      when no route has more than one leg. */
  lemma IdsUniqueWhenSingleLeg(d: DirectionsResult)
    requires forall r :: 0 <= r < |d.routes| ==> |d.routes[r].legs| <= 1
    ensures forall i, j :: 0 <= i < j < |Flatten(d)| ==> Flatten(d)[i].id != Flatten(d)[j].id
  {
    FlattenOrderAndCoverage(d);
    forall i, j | 0 <= i < j < |Flatten(d)| ensures Flatten(d)[i].id != Flatten(d)[j].id {
      SegmentIdDeterminesRouteAndStep(d, i, j);
      var p, q := SourcePositions(d)[i], SourcePositions(d)[j];
      assert Before(p, q) && p.leg == 0 && q.leg == 0;
    }
  }

  /** A route with two legs, each starting with a walking step: both
      segments get the id "0-walk-0". */
  lemma IdsCollideAcrossLegs()
    ensures var walk := Step(Walking, None, "walk", None, None);
      var d := DirectionsResult([Route([Leg([walk]), Leg([walk])])]);
      |Flatten(d)| == 2 && Flatten(d)[0].id == Flatten(d)[1].id
  {
    var walk := Step(Walking, None, "walk", None, None);
    var w := WalkSegment(0, 0, walk);
    assert ToSegment(Pos(0, 0, 0), walk) == Some(w);
    assert ToSegment(Pos(0, 1, 0), walk) == Some(w);
    TwoSingleStepLegs(Route([Leg([walk]), Leg([walk])]), ToSegment);
  }

  /** `mapPlaceType`: the `includes` tests in order, the first that matches
      deciding the kind. */
  function MapPlaceType(t: string): (k: PlaceKind)
    ensures k == Restaurant <==> Contains(t, "restaurant") || Contains(t, "food")
    ensures k == Hotel <==>
      !(Contains(t, "restaurant") || Contains(t, "food")) && (Contains(t, "lodging") || Contains(t, "hotel"))
    ensures k == Attraction <==>
      && !(Contains(t, "restaurant") || Contains(t, "food"))
      && !(Contains(t, "lodging") || Contains(t, "hotel"))
      && (Contains(t, "point_of_interest") || Contains(t, "tourist"))
    ensures k == Activity <==>
      && !(Contains(t, "restaurant") || Contains(t, "food"))
      && !(Contains(t, "lodging") || Contains(t, "hotel"))
      && !(Contains(t, "point_of_interest") || Contains(t, "tourist"))
  {
    if Contains(t, "restaurant") || Contains(t, "food") then Restaurant
    else if Contains(t, "lodging") || Contains(t, "hotel") then Hotel
    else if Contains(t, "point_of_interest") || Contains(t, "tourist") then Attraction
    else Activity
  }

  /** The place type the dashboard searches for restaurants is classified
      as a restaurant. */
  lemma RestaurantTypeIsRestaurant()
    ensures MapPlaceType("restaurant") == Restaurant
  {
    assert OccursAt("restaurant", "restaurant", 0);
  }

  /** The place type the dashboard searches for attractions is classified
      as an attraction: "tourist_attraction" mentions neither 'f' (so not
      "food"), 'e' (so not "restaurant"), 'l' (so not "lodging") nor 'h' (so
      not "hotel"). */
  lemma TouristAttractionIsAttraction()
    ensures MapPlaceType("tourist_attraction") == Attraction
  {
    var t := "tourist_attraction";
    assert OccursAt(t, "tourist", 0);
    LacksChar(t, "food", 0);
    LacksChar(t, "restaurant", 1);
    LacksChar(t, "lodging", 0);
    LacksChar(t, "hotel", 0);
  }

  /** The first test wins: a type naming both food and lodging is a
      restaurant. */
  lemma RestaurantBeforeHotel()
    ensures MapPlaceType("hotel_restaurant") == Restaurant
  {
    assert OccursAt("hotel_restaurant", "restaurant", 6);
  }

  /** The provider's list without the empty string `||` treats as absent. */
  function FirstType(types: Option<seq<string>>): Option<string> {
    if types.Some? && |types.value| > 0 && types.value[0] != "" then Some(types.value[0]) else None
  }

  /** The `map` callback of `searchNearbyPlaces` for the index-th result of a
      search for `queryType`; each `||` falls back on an absent or falsy
      value (an empty string, a zero). */
  function NormalizePlace(place: Place, index: nat, queryType: string): Recommendation {
    var address := if Truthy(place.vicinity) then place.vicinity.value else "";
    Recommendation(
      id := if Truthy(place.placeId) then place.placeId.value else "place-" + NatToString(index),
      name := if Truthy(place.name) then place.name.value else "Unknown",
      kind := MapPlaceType(queryType),
      category := Some(FirstType(place.types).GetOr(queryType)),
      rating := if place.rating.Some? && place.rating.value != 0.0 then place.rating.value else 0.0,
      reviewCount := place.userRatingsTotal,
      description := address,
      location := Location(address, place.lat.GetOr(0.0), place.lng.GetOr(0.0), None),
      imageUrl := place.photoUrl,
      priceLevel := if place.priceLevel.Some? && place.priceLevel.value != 0 then place.priceLevel.value else 2,
      openNow := place.openNow,
      tags := if place.types.Some? then Some(Take(place.types.value, 3)) else None)
  }

  /** `results.slice(0, 12).map(...)`: at most 12 recommendations, the i-th
      made from the i-th result, all of the searched kind; every one has the
      given id or else `place-<i>`, the given name or else "Unknown", the
      first non-empty type or else the searched type as category, the
      vicinity or else "" as description and as the location's address, the
      given coordinates or else 0, the review count, photo and opening state
      as given, the given non-zero price level or
      else 2, the given rating or else 0, and at most the first three
      provider types as tags. */
  function NormalizeResults(results: seq<Place>, queryType: string): (recs: seq<Recommendation>)
    ensures |recs| <= 12 && |recs| <= |results| && (|recs| == 12 || |recs| == |results|)
    ensures forall i :: 0 <= i < |recs| ==>
      var rec, place := recs[i], results[i];
      && rec.kind == MapPlaceType(queryType)
      && rec.category == Some(if place.types.Some? && |place.types.value| > 0 && place.types.value[0] != ""
                              then place.types.value[0] else queryType)
      && rec.id != "" && rec.name != ""
      && (Truthy(place.placeId) ==> rec.id == place.placeId.value)
      && (!Truthy(place.placeId) ==> rec.id == "place-" + NatToString(i))
      && (Truthy(place.name) ==> rec.name == place.name.value)
      && (!Truthy(place.name) ==> rec.name == "Unknown")
      && (Truthy(place.vicinity) ==> rec.description == place.vicinity.value)
      && (!Truthy(place.vicinity) ==> rec.description == "")
      && rec.location.address == rec.description && rec.location.name.None?
      && rec.location.lat == place.lat.GetOr(0.0) && rec.location.lng == place.lng.GetOr(0.0)
      && rec.priceLevel != 0
      && (place.priceLevel.Some? && place.priceLevel.value != 0 ==> rec.priceLevel == place.priceLevel.value)
      && (!(place.priceLevel.Some? && place.priceLevel.value != 0) ==> rec.priceLevel == 2)
      && rec.rating == place.rating.GetOr(0.0)
      && rec.reviewCount == place.userRatingsTotal && rec.imageUrl == place.photoUrl && rec.openNow == place.openNow
      && (rec.tags.Some? <==> place.types.Some?)
      && (rec.tags.Some? ==>
            && |rec.tags.value| <= 3 && |rec.tags.value| <= |place.types.value|
            && rec.tags.value == place.types.value[..|rec.tags.value|]
            && (|rec.tags.value| == 3 || rec.tags.value == place.types.value))
  {
    var kept := Take(results, 12);
    seq(|kept|, i requires 0 <= i < |kept| => NormalizePlace(kept[i], i, queryType))
  }

  /** The outcome of the nearby search's callback, or the error thrown before
      the search when the places service is missing. A status other than OK,
      or no results, rejects with the status in the message. */
  function CompleteNearbySearch(initialized: bool, status: string, results: Option<seq<Place>>, queryType: string)
    : (r: Result<seq<Recommendation>, string>)
    ensures !initialized ==> r == Failure("Places service not initialized")
    ensures initialized ==> (r.Success? <==> status == "OK" && results.Some?)
    ensures initialized && r.Success? ==> r.value == NormalizeResults(results.value, queryType)
    ensures initialized && r.Failure? ==> r.error == "장소 검색 실패: " + status
  {
    if !initialized then Failure("Places service not initialized")
    else if status == "OK" && results.Some? then Success(NormalizeResults(results.value, queryType))
    else Failure("장소 검색 실패: " + status)
  }
}
