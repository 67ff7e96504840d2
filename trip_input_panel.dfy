/** The logic of the React trip input panel
    (src/components/TripInputPanel.tsx): the cuisine and activity toggles,
    which hand a new preferences record to the parent, and the trip record
    built on submit. */
module TripInputPanel {
  import opened Wrappers
  import opened Types
  import opened Selection

  /** `toggleCuisine`: the preferences with `cuisine` toggled in `cuisines`. */
  function ToggleCuisine(prefs: UserPreferences, cuisine: string): (p: UserPreferences)
    ensures p.activities == prefs.activities && p.budget == prefs.budget
    ensures p.pace == prefs.pace && p.accommodationType == prefs.accommodationType
    ensures cuisine !in prefs.cuisines ==> p.cuisines == prefs.cuisines + [cuisine]
    ensures cuisine in prefs.cuisines ==>
      && cuisine !in p.cuisines
      && IsSubsequence(p.cuisines, prefs.cuisines)
      && multiset(p.cuisines) == multiset(prefs.cuisines)[cuisine := 0]
    ensures NoDup(prefs.cuisines) ==> NoDup(p.cuisines)
  {
    ToggleCharacterized(prefs.cuisines, cuisine);
    ToggleKeepsNoDup(prefs.cuisines, cuisine);
    prefs.(cuisines := Toggle(prefs.cuisines, cuisine))
  }

  /** `toggleActivity`: the preferences with `activity` toggled in
      `activities`. */
  function ToggleActivity(prefs: UserPreferences, activity: string): (p: UserPreferences)
    ensures p.cuisines == prefs.cuisines && p.budget == prefs.budget
    ensures p.pace == prefs.pace && p.accommodationType == prefs.accommodationType
    ensures activity !in prefs.activities ==> p.activities == prefs.activities + [activity]
    ensures activity in prefs.activities ==>
      && activity !in p.activities
      && IsSubsequence(p.activities, prefs.activities)
      && multiset(p.activities) == multiset(prefs.activities)[activity := 0]
    ensures NoDup(prefs.activities) ==> NoDup(p.activities)
  {
    ToggleCharacterized(prefs.activities, activity);
    ToggleKeepsNoDup(prefs.activities, activity);
    prefs.(activities := Toggle(prefs.activities, activity))
  }

  /** Toggling an absent cuisine or activity twice gives back the
      preferences the panel started from. */
  lemma ToggleTwiceRestores(prefs: UserPreferences, item: string)
    ensures item !in prefs.cuisines ==> ToggleCuisine(ToggleCuisine(prefs, item), item) == prefs
    ensures item !in prefs.activities ==> ToggleActivity(ToggleActivity(prefs, item), item) == prefs
  {
    if item !in prefs.cuisines {
      ToggleTwice(prefs.cuisines, item);
    }
    if item !in prefs.activities {
      ToggleTwice(prefs.activities, item);
    }
  }

  /** A submitted endpoint: the typed address with the 0,0 placeholder
      coordinates, or null for an empty field. */
  function Endpoint(address: string): (o: Option<Location>)
    ensures o.Some? <==> address != ""
    ensures o.Some? ==> o.value.address == address && o.value.lat == 0.0 && o.value.lng == 0.0
    ensures o.Some? ==> o.value.name.None?
  {
    if address != "" then Some(Location(address, 0.0, 0.0, None)) else None
  }

  /** `handleSubmit`: the trip record built from the form fields. The
      departure is the `${date}T${time}` text given to `new Date`, present
      only when both fields are filled in. */
  function HandleSubmit(origin: string, destination: string, departureDate: string,
                        departureTime: string, duration: int): (t: TripDetails)
    ensures t.origin == Endpoint(origin) && t.destination == Endpoint(destination)
    ensures t.departureTime.Some? <==> departureDate != "" && departureTime != ""
    ensures t.departureTime.Some? ==>
      && |t.departureTime.value| == |departureDate| + 1 + |departureTime|
      && t.departureTime.value[..|departureDate|] == departureDate
      && t.departureTime.value[|departureDate|] == 'T'
      && t.departureTime.value[|departureDate| + 1..] == departureTime
    ensures t.travelDuration == duration
  {
    TripDetails(
      origin := Endpoint(origin),
      destination := Endpoint(destination),
      departureTime := if departureDate != "" && departureTime != "" then Some(departureDate + "T" + departureTime) else None,
      travelDuration := duration)
  }
}
