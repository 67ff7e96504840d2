/** The application's own records (src/types/index.ts). Numbers that are
    floating point in the source (coordinates, ratings) are `real`. */
module Types {
  import opened Wrappers

  datatype Location = Location(address: string, lat: real, lng: real, name: Option<string>)

  /** A submitted trip. `departureTime` holds the text the source hands to
      `new Date(...)`; the date object itself is not modelled. */
  datatype TripDetails = TripDetails(
    origin: Option<Location>,
    destination: Option<Location>,
    departureTime: Option<string>,
    travelDuration: int)

  datatype SegmentType = Bus | Train | Subway | Flight | Walk

  /** One normalized stage of a journey (`TransitRoute`). The optional
      `price` and `icon` fields are never filled by the core and are omitted. */
  datatype TransitRoute = TransitRoute(
    id: string,
    kind: SegmentType,
    line: Option<string>,
    departure: string,
    arrival: string,
    departureTime: string,
    arrivalTime: string,
    duration: string,
    distance: Option<string>,
    provider: Option<string>,
    color: Option<string>)

  /** 'budget' | 'moderate' | 'luxury' */
  datatype Budget = Economy | Moderate | Luxury
  /** 'relaxed' | 'moderate' | 'fast' */
  datatype Pace = Relaxed | Moderate | Fast

  datatype UserPreferences = UserPreferences(
    cuisines: seq<string>,
    activities: seq<string>,
    budget: Budget,
    pace: Pace,
    accommodationType: Option<string>)

  datatype PlaceKind = Restaurant | Attraction | Hotel | Activity

  datatype Recommendation = Recommendation(
    id: string,
    name: string,
    kind: PlaceKind,
    category: Option<string>,
    rating: real,
    reviewCount: Option<int>,
    description: string,
    location: Location,
    imageUrl: Option<string>,
    priceLevel: int,
    openNow: Option<bool>,
    tags: Option<seq<string>>)
}
