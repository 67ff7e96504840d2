# Trip planner core, modelled in Dafny

The repository is a trip planner with two front ends: a plain-JavaScript
page (`js/`) and a React/TypeScript app (`src/`). Both turn map-provider
responses into the app's own records, and both keep lists of the user's
cuisine and activity preferences. This project models those
transformations and proves properties of them.

- **Directions flattening.** A directions result is a list of routes. A
  route is a list of legs. A leg is a list of steps.
  - `GoogleMapsService.ParseDirectionsToRoutes` models the TypeScript
    parser. It emits a segment for every TRANSIT step with transit details
    and for every WALKING step.
  - `LegacyMaps.ParseDirectionsToRoutes` models the JavaScript parser. It
    emits TRANSIT steps only. It throws on a TRANSIT step that lacks
    transit details, a duration or a distance.
  - Both parsers are the same nested loops (`StepOrder.VisitRoutes`) with
    a different loop body. The ordering and coverage lemmas are proved
    once, for any body (`StepOrder.ItemsCharacterized`).
  - Each segment's structural position `(route, leg, step)` is carried as a
    separate list of positions beside the segments. The segment records
    themselves have no leg field, as in the source.
- **Place normalization** (`GoogleMapsService.NormalizeResults`). It keeps
  at most 12 results, applies the `||` defaults, and classifies the place
  type by ordered substring tests.
- **Recommendation aggregation** (`LegacyMaps.GetRecommendations`). It
  builds the search terms, searches the first five, and takes three
  results from each. It then drops repeated `place_id`s, keeping the first
  of each, and caps the list at ten.
- **Preference lists.**
  - The in-place handlers of `js/ui.js` update a `Config.AppState` object.
  - The functional toggles of the two React panels work on values.
  - All of them share the list operations in `Selection`.

Modules: `Wrappers` (Option, Result), `Text` (decimal rendering,
substring tests), `Types` (src/types/index.ts), `Provider` (the provider
response shapes), `StepOrder`, `Slices` (`slice(0, n)`), `GoogleMapsService`, `Config`, `LegacyMaps`,
`Selection`, `UiState`, `TripInputPanel`, `PreferenceSelector`.

### Two facts about the code that the proofs make explicit

- **Segment ids are not unique.** Both parsers number steps from 0 again
  in every leg (`src/services/googleMapsService.ts:80,86`,
  `js/maps.js:83,96`), and the id has no leg number. Two legs of one route
  can therefore produce the same id.
  `GoogleMapsService.IdsCollideAcrossLegs` gives such an input.
  `GoogleMapsService.IdsUniqueWhenSingleLeg` proves the ids are unique
  when no route has more than one leg.
- **The two vehicle mappings differ.** `js/maps.js:86-93` maps RAIL and
  HIGH_SPEED_TRAIN to `bus`. `src/services/googleMapsService.ts:124-128`
  maps them to `train`. `LegacyMaps.TaxonomiesDiffer` proves these are the
  only vehicle kinds on which the two mappings disagree. The parsers also
  differ in other ways: walking steps, the id format and the throw on a
  malformed step.

## Model

| member | source | states |
|---|---|---|
| GoogleMapsService.MapVehicleType | src/services/googleMapsService.ts:117-131 | total; never `walk` or `flight`; `subway` exactly for SUBWAY; `train` exactly for RAIL, HEAVY_RAIL, HIGH_SPEED_TRAIN, COMMUTER_TRAIN; `bus` for every other kind |
| GoogleMapsService.ToSegment | src/services/googleMapsService.ts:81-109 | the loop body pushes a segment exactly for a TRANSIT step with transit details or a WALKING step |
| GoogleMapsService.ParseDirectionsToRoutes | src/services/googleMapsService.ts:75-115 | the nested loops return `Flatten(d)`, the visit of every step with `ToSegment` as body |
| GoogleMapsService.FlattenOrderAndCoverage | src/services/googleMapsService.ts:78-109 | one segment per qualifying step and none for any other step; positions strictly increasing in (route, leg, step) order; the k-th segment is built from the step at the k-th position |
| GoogleMapsService.FlattenSegmentFields | src/services/googleMapsService.ts:81-108 | a transit segment has the `route-step` id, the mapped type, `short_name` or else `name` as line, and the stops and times; a walking segment has the walk id, no line, the instructions as departure and empty arrival and times; both carry the duration text or "" and the distance |
| GoogleMapsService.WalkIdNeverTransitId | src/services/googleMapsService.ts:86-100 | a walking id never equals a transit id, for any indices |
| GoogleMapsService.TransitIdInjective | src/services/googleMapsService.ts:86 | equal transit ids have equal route and step indices |
| GoogleMapsService.WalkIdInjective | src/services/googleMapsService.ts:100 | equal walking ids have equal route and step indices |
| GoogleMapsService.SegmentIdDeterminesRouteAndStep | src/services/googleMapsService.ts:78-100 | two segments with the same id come from the same route and step index |
| GoogleMapsService.IdsUniqueWhenSingleLeg | src/services/googleMapsService.ts:78-100 | with at most one leg per route, all segment ids differ |
| GoogleMapsService.IdsCollideAcrossLegs | src/services/googleMapsService.ts:79-100 | a route of two legs, each one walking step, yields two segments with the same id |
| GoogleMapsService.MapPlaceType | src/services/googleMapsService.ts:183-188 | restaurant iff the type includes "restaurant" or "food"; hotel iff not that and it includes "lodging" or "hotel"; attraction iff neither and it includes "point_of_interest" or "tourist"; activity otherwise |
| GoogleMapsService.RestaurantTypeIsRestaurant | src/services/googleMapsService.ts:184 | "restaurant" is classified as a restaurant |
| GoogleMapsService.TouristAttractionIsAttraction | src/services/googleMapsService.ts:183-186 | "tourist_attraction" is classified as an attraction |
| GoogleMapsService.RestaurantBeforeHotel | src/services/googleMapsService.ts:184-185 | the first test wins: "hotel_restaurant" is a restaurant |
| GoogleMapsService.NormalizeResults | src/services/googleMapsService.ts:157-174 | at most 12 recommendations, the i-th from the i-th result, of the searched kind; the place id when present, else `place-<i>`; the name when present, else "Unknown"; the first non-empty type, else the searched type, as category; the vicinity or "" as description and as the location's address; coordinates given or 0; rating given or 0; review count, photo and opening state as given; price level given when non-zero, else 2 (also for a zero); tags the first at most 3 types |
| GoogleMapsService.CompleteNearbySearch | src/services/googleMapsService.ts:140-178 | fails before searching when the service is missing; succeeds exactly on status OK with results, with the normalized list; otherwise fails with the status in the message |
| StepOrder.VisitRoutes | src/services/googleMapsService.ts:78-112 | the nested `forEach` loops return `Items(d, f)`, for any loop body f |
| StepOrder.ItemsCharacterized | src/services/googleMapsService.ts:78-80 | for any body: one item per step the body pushes for, in strictly increasing (route, leg, step) order, the k-th item being the body's item for the k-th position, and every such step listed |
| Text.NatToString | src/services/googleMapsService.ts:86 | a non-empty string of decimal digits, one digit exactly below 10 |
| Text.NatToStringInjective | src/services/googleMapsService.ts:86 | different numbers render differently |
| LegacyMaps.LegacyVehicleType | js/maps.js:86-93 | never `walk` or `flight`; `subway` exactly for SUBWAY; `train` exactly for HEAVY_RAIL and COMMUTER_TRAIN; `bus` for every other kind |
| LegacyMaps.TaxonomiesDiffer | js/maps.js:86-93 | the two vehicle mappings differ exactly on RAIL and HIGH_SPEED_TRAIN |
| LegacyMaps.LegacyStep | js/maps.js:84-107 | the loop body acts exactly on TRANSIT steps, and does not throw exactly when the step has transit details, a duration and a distance |
| LegacyMaps.AllSucceeded | js/maps.js:81-111 | success exactly when every outcome succeeds, with their values in order; otherwise the first failure |
| LegacyMaps.ParseDirectionsToRoutes | js/maps.js:78-114 | the nested loops return `Parse(d)`, the first exception or every pushed segment |
| LegacyMaps.ParseSucceedsIff | js/maps.js:84-104 | the parse succeeds exactly when every TRANSIT step has transit details, a duration and a distance; otherwise it fails with a TypeError |
| LegacyMaps.ParsedSegments | js/maps.js:81-107 | on success, one segment per TRANSIT step and none for walking or other steps; strictly increasing (route, leg, step) order; the k-th segment is built from the k-th TRANSIT step |
| LegacyMaps.SearchTerms | js/maps.js:159-176 | the cuisine labels, then the activity labels; the three default terms in order when both lists are empty |
| LegacyMaps.Labels | js/maps.js:159-168 | one label per id, in selection order, "" for an id missing from the table |
| Slices.Take | js/maps.js:179 | a prefix of at most n entries, all of the list when it is shorter |
| LegacyMaps.SearchEach | js/maps.js:179-186 | the loop returns the first three results of each term's search, in term order |
| LegacyMaps.GetRecommendations | js/maps.js:155-194 | the result is `Recommendations` of the selected cuisines and activities |
| LegacyMaps.FindIndex | js/maps.js:190 | the index of the first entry with the id, or -1 when none has it |
| LegacyMaps.KeepFirstSubsequence | js/maps.js:189-191 | the filter keeps entries in accumulator order |
| LegacyMaps.KeepFirstDistinct | js/maps.js:189-191 | no two kept entries share a `place_id` |
| LegacyMaps.KeepFirstKeepsFirsts | js/maps.js:189-191 | every kept entry is the first entry with its `place_id` |
| LegacyMaps.KeepFirstKeepsEveryId | js/maps.js:189-191 | the first entry of every `place_id` is kept |
| LegacyMaps.KeepFirstInFirstOrder | js/maps.js:189-191 | the kept entries come in the order of their first occurrences in the accumulator |
| LegacyMaps.DuplicateKeepsEarlierRank | js/maps.js:189-191 | a place found by an earlier and a later term is kept once, at the earlier rank: [a, b, a'] gives [a, b] |
| LegacyMaps.UniqueCharacterized | js/maps.js:189-191 | the deduplicated list has distinct ids, is a subsequence of the accumulator, holds only first occurrences and every first occurrence, in the order of their first occurrences |
| LegacyMaps.EveryIdKept | js/maps.js:189-191 | every `place_id` of the accumulator appears in the deduplicated list |
| LegacyMaps.RecommendationsCharacterized | js/maps.js:189-193 | at most ten entries, distinct ids, first occurrences only, in the order of their first occurrences, a subsequence of the accumulator, a prefix of the deduplicated list and all of it when shorter than ten |
| LegacyMaps.GatheredSplit | js/maps.js:179-186 | the accumulator over a range of terms is the concatenation over two adjacent sub-ranges |
| LegacyMaps.FailedSearchContributesNothing | js/maps.js:126-131 | a search not answering OK contributes nothing; the later searches contribute as without it |
| LegacyMaps.GatheredFromSearches | js/maps.js:179-182 | each term contributes at most three results, and every gathered result comes from some searched term |
| LegacyMaps.OnlyFirstFiveSearched | js/maps.js:179-182 | at most the first five terms are searched, always with type `restaurant`: providers answering those searches alike give equal results; at most 15 entries are gathered |
| LegacyMaps.DefaultTermsSearched | js/maps.js:174-176 | with nothing selected the searched terms are 맛집, 관광지, 카페 in order |
| Config.FindEntry | js/maps.js:160 | the first entry with the id, or none when no entry has it |
| Config.LabelOrEmpty | js/maps.js:159-162 | the label of the first entry with the id, "" when no entry has it |
| Config.AppState.constructor | js/config.js:66-69 | no cuisine or activity selected; budget and pace "moderate" |
| Selection.Select | js/ui.js:39-42 | an absent id is appended at the end; a present id leaves the list unchanged; the id is in the result |
| UiState.UpdateSelectedPreferences | js/ui.js:37-55 | selecting appends an absent id and leaves a present one; deselecting removes every occurrence; only the list named by `type` changes, any other `type` changes nothing; a duplicate-free list stays duplicate-free |
| UiState.OnButtonClick | js/ui.js:96-100 | a budget click sets the budget only; a pace click sets the pace only; the lists are untouched |
| UiState.SelectThenDeselectRestores | js/ui.js:39-44 | selecting an absent id and then deselecting it restores both lists |
| Selection.WithoutCounts | js/ui.js:44 | removal drops every occurrence and keeps every other element's count |
| Selection.WithoutKeepsOrder | js/ui.js:44 | what remains after removal keeps its relative order |
| Selection.WithoutCharacterized | js/ui.js:44 | removal: counts, order and membership of what remains |
| Selection.SelectThenDeselect | js/ui.js:39-44 | selecting and then removing an absent id restores the list |
| Selection.WithoutKeepsNoDup | js/ui.js:44 | removal keeps a duplicate-free list duplicate-free |
| Selection.ToggleCharacterized | src/components/TripInputPanel.tsx:39-41 | toggling appends an absent item, and removes a present one keeping the others' order and counts |
| Selection.ToggleTwice | src/components/TripInputPanel.tsx:39-41 | toggling an absent item twice restores the list |
| Selection.ToggleKeepsNoDup | src/components/PreferenceSelector.tsx:37 | toggling keeps a duplicate-free list duplicate-free |
| TripInputPanel.ToggleCuisine | src/components/TripInputPanel.tsx:38-43 | only the cuisines change: an absent one is appended, a present one removed with the order of the others kept; duplicate-freedom is kept |
| TripInputPanel.ToggleActivity | src/components/TripInputPanel.tsx:45-50 | the same for activities, the other fields copied |
| TripInputPanel.ToggleTwiceRestores | src/components/TripInputPanel.tsx:38-50 | toggling an absent cuisine or activity twice restores the preferences |
| TripInputPanel.Endpoint | src/components/TripInputPanel.tsx:31-32 | present exactly for a non-empty address, with that address and coordinates 0, 0 |
| TripInputPanel.HandleSubmit | src/components/TripInputPanel.tsx:23-35 | origin and destination as `Endpoint`; a departure exactly when date and time are both non-empty, the date, "T", then the time; the duration passed through |
| PreferenceSelector.Initial | src/components/PreferenceSelector.tsx:29-32 | each state cell starts from the matching initial field |
| PreferenceSelector.ToggleCuisine | src/components/PreferenceSelector.tsx:35-39 | only the cuisine cell changes: append when absent, remove keeping order when present; duplicate-freedom kept |
| PreferenceSelector.ToggleActivity | src/components/PreferenceSelector.tsx:41-45 | only the activities cell changes, as for cuisines |
| PreferenceSelector.Submit | src/components/PreferenceSelector.tsx:51-56 | the record holds exactly the four current cells |
| PreferenceSelector.SubmitRoundTrip | src/components/PreferenceSelector.tsx:29-56 | submitting the untouched state gives back the initial preferences, and the record determines the state |
| PreferenceSelector.ToggleTwiceRestores | src/components/PreferenceSelector.tsx:35-45 | toggling an absent item twice restores its cell |
| PreferenceSelector.TogglesCommute | src/components/PreferenceSelector.tsx:29-45 | a cuisine toggle and an activity toggle commute, since they touch different cells |

## Left out

- The provider calls are not modelled: geocoding, directions, nearby search, place details, map set-up and markers. Their results enter as inputs: a `DirectionsResult` value, a nearby reply of status and results, and, in `getRecommendations`, a search function from type and keyword to a reply.
- The async orchestration in the dashboards and in `js/app.js` is not modelled. Neither is the async part of the preference selector's submit, nor any rendering or DOM code.
- `getRecommendations` also takes a location. The search function stands for the search around it, so the location is not a separate input.
- A search whose promise rejects, which the `try`/`catch` swallows, gives the same empty contribution as a non-OK reply. The model has only the non-OK case.
- LegacyMaps.ParseDirectionsToRoutes: the source throws at the first bad TRANSIT step, part-way through the loops. The model visits every step and then takes the first failure. Pushes are lost on a throw, so the outcome is the same.
- The exception's message and the console output are not modelled.
- A missing nested property other than `transit`, `duration` or `distance` (for example a missing departure stop) is not modelled. Those fields are required in `Provider.TransitDetails`.
- A duration or distance object without `text` is treated like a missing object.
- The TypeScript parser's `leg.steps?.` accepts a missing step list. The model represents that as an empty list of steps. The JavaScript parser would throw on a missing list, and the model cannot express that case.
- Vehicle kinds are the provider's enumeration. The JavaScript comparison of the raw `vehicle.type` string with a value outside that enumeration is not modelled.
- Coordinates and ratings are `real`. NaN, `toFixed` formatting and the `Date` object built from the departure text are not modelled. The departure is the text handed to `new Date`.
- `Config`: the icons, the transit-type colours and the budget and pace option tables are left out; they feed rendering only. Only the cuisine and activity id-to-label lookup matters to the core.
- In `AppState`, only the preference fields are modelled. The map, the services, the markers and the trip details are not.
- `UiState`: the DOM class toggle that produces `isSelected` is not modelled. `isSelected` is a parameter.
- TripInputPanel.HandleSubmit: the form's `useState` initialisation from the incoming trip (lines 17-21) is not modelled. The submitted fields are parameters.
- The `Preference` type of the preference selector is not declared in src/types/index.ts. Its budget and pace are plain strings here.
