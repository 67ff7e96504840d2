/** The shapes of the map provider's responses that the core reads: a
    directions result (routes of legs of steps) and nearby-search place
    results. Absent JavaScript properties are `None`; an absent array of
    steps or agencies is the empty sequence. Values the source obtains by
    calling into the provider's objects (`lat()`, `getUrl()`, `isOpen()`)
    are given here as the values those calls return. */
module Provider {
  import opened Wrappers

  datatype TravelMode = Transit | Walking | Driving | Bicycling | TwoWheeler

  /** The provider's vehicle taxonomy (`google.maps.VehicleType`). */
  datatype VehicleType =
    | Bus | CableCar | CommuterTrain | Ferry | Funicular | GondolaLift
    | HeavyRail | HighSpeedTrain | IntercityBus | MetroRail | Monorail
    | Other | Rail | ShareTaxi | Subway | Tram | Trolleybus

  datatype TransitLine = TransitLine(
    name: string,
    shortName: Option<string>,
    vehicle: VehicleType,
    color: Option<string>,
    agencyNames: seq<Option<string>>)

  datatype TransitDetails = TransitDetails(
    line: TransitLine,
    departureStop: string,
    arrivalStop: string,
    departureTime: string,
    arrivalTime: string,
    numStops: int,
    headsign: string)

  /** A step; `duration` and `distance` are the `text` of the provider's
      duration and distance objects. */
  datatype Step = Step(
    travelMode: TravelMode,
    transit: Option<TransitDetails>,
    instructions: string,
    duration: Option<string>,
    distance: Option<string>)

  datatype Leg = Leg(steps: seq<Step>)
  datatype Route = Route(legs: seq<Leg>)
  datatype DirectionsResult = DirectionsResult(routes: seq<Route>)

  /** A nearby-search result (`PlaceResult`). */
  datatype Place = Place(
    placeId: Option<string>,
    name: Option<string>,
    types: Option<seq<string>>,
    rating: Option<real>,
    userRatingsTotal: Option<int>,
    vicinity: Option<string>,
    lat: Option<real>,
    lng: Option<real>,
    photoUrl: Option<string>,
    priceLevel: Option<int>,
    openNow: Option<bool>)

  /** JavaScript truthiness of an optional string: present and non-empty. */
  predicate Truthy(s: Option<string>) {
    s.Some? && s.value != ""
  }
}
