/** The logic of the React preference selector
    (src/components/PreferenceSelector.tsx): four independent state cells
    seeded from the initial preferences, two functional toggles, and the
    record submitted. The component's `Preference` type is not declared in
    src/types/index.ts, so its budget and pace are kept as plain strings. */
module PreferenceSelector {
  import opened Selection

  /** The submitted record: `{ cuisine, activities, budget, pace }`. */
  datatype Preference = Preference(cuisine: seq<string>, activities: seq<string>, budget: string, pace: string)

  /** The component's `useState` cells. */
  datatype SelectorState = SelectorState(cuisine: seq<string>, activities: seq<string>, budget: string, pace: string)

  /** Each cell starts from the matching field of `initialPreferences`. */
  function Initial(prefs: Preference): (s: SelectorState)
    ensures s.cuisine == prefs.cuisine && s.activities == prefs.activities
    ensures s.budget == prefs.budget && s.pace == prefs.pace
  {
    SelectorState(prefs.cuisine, prefs.activities, prefs.budget, prefs.pace)
  }

  /** `toggleCuisine`: the updater `prev => includes ? filter : [...prev,
      item]` applied to the cuisine cell only. */
  function ToggleCuisine(s: SelectorState, item: string): (t: SelectorState)
    ensures t.activities == s.activities && t.budget == s.budget && t.pace == s.pace
    ensures item !in s.cuisine ==> t.cuisine == s.cuisine + [item]
    ensures item in s.cuisine ==>
      && item !in t.cuisine
      && IsSubsequence(t.cuisine, s.cuisine)
      && multiset(t.cuisine) == multiset(s.cuisine)[item := 0]
    ensures NoDup(s.cuisine) ==> NoDup(t.cuisine)
  {
    ToggleCharacterized(s.cuisine, item);
    ToggleKeepsNoDup(s.cuisine, item);
    s.(cuisine := Toggle(s.cuisine, item))
  }

  /** `toggleActivity`: the same updater on the activities cell only. */
  function ToggleActivity(s: SelectorState, item: string): (t: SelectorState)
    ensures t.cuisine == s.cuisine && t.budget == s.budget && t.pace == s.pace
    ensures item !in s.activities ==> t.activities == s.activities + [item]
    ensures item in s.activities ==>
      && item !in t.activities
      && IsSubsequence(t.activities, s.activities)
      && multiset(t.activities) == multiset(s.activities)[item := 0]
    ensures NoDup(s.activities) ==> NoDup(t.activities)
  {
    ToggleCharacterized(s.activities, item);
    ToggleKeepsNoDup(s.activities, item);
    s.(activities := Toggle(s.activities, item))
  }

  /** The `Preference` record `handleSubmit` passes to `onSubmit`. */
  function Submit(s: SelectorState): (p: Preference)
    ensures p.cuisine == s.cuisine && p.activities == s.activities
    ensures p.budget == s.budget && p.pace == s.pace
  {
    Preference(s.cuisine, s.activities, s.budget, s.pace)
  }

  /** Submitting without touching anything hands back the initial
      preferences, and the submitted record determines the state. */
  lemma SubmitRoundTrip(prefs: Preference, s: SelectorState)
    ensures Submit(Initial(prefs)) == prefs
    ensures Initial(Submit(s)) == s
  {
  }

  /** Toggling an absent item twice restores the cell it was toggled in. */
  lemma ToggleTwiceRestores(s: SelectorState, item: string)
    ensures item !in s.cuisine ==> ToggleCuisine(ToggleCuisine(s, item), item) == s
    ensures item !in s.activities ==> ToggleActivity(ToggleActivity(s, item), item) == s
  {
    if item !in s.cuisine {
      ToggleTwice(s.cuisine, item);
    }
    if item !in s.activities {
      ToggleTwice(s.activities, item);
    }
  }

  /** The two toggles touch different cells, so they commute. */
  lemma TogglesCommute(s: SelectorState, c: string, a: string)
    ensures ToggleActivity(ToggleCuisine(s, c), a) == ToggleCuisine(ToggleActivity(s, a), c)
  {
  }
}
