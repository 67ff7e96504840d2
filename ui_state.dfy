/** The preference handlers of js/ui.js, which update the global `AppState`
    in place: the tag click handler's `updateSelectedPreferences` and the
    budget/pace button click handler of `createButton`. */
module UiState {
  import opened Selection
  import opened Config

  /** `updateSelectedPreferences(id, type, isSelected)`: selecting appends
      an absent id (a present one is left alone), deselecting removes every
      occurrence; `type` picks the list, any other `type` changes nothing. */
  method UpdateSelectedPreferences(state: AppState, id: string, kind: string, isSelected: bool)
    modifies state
    ensures kind == "cuisine" ==>
      && state.selectedCuisines == (if isSelected then Select(old(state.selectedCuisines), id)
                                    else Without(old(state.selectedCuisines), id))
      && state.selectedActivities == old(state.selectedActivities)
    ensures kind == "activity" ==>
      && state.selectedActivities == (if isSelected then Select(old(state.selectedActivities), id)
                                      else Without(old(state.selectedActivities), id))
      && state.selectedCuisines == old(state.selectedCuisines)
    ensures kind != "cuisine" && kind != "activity" ==>
      state.selectedCuisines == old(state.selectedCuisines) && state.selectedActivities == old(state.selectedActivities)
    ensures state.selectedBudget == old(state.selectedBudget) && state.selectedPace == old(state.selectedPace)
    ensures NoDup(old(state.selectedCuisines)) ==> NoDup(state.selectedCuisines)
    ensures NoDup(old(state.selectedActivities)) ==> NoDup(state.selectedActivities)
  {
    if kind == "cuisine" {
      if isSelected {
        if id !in state.selectedCuisines {
          state.selectedCuisines := state.selectedCuisines + [id];
        }
      } else {
        state.selectedCuisines := Without(state.selectedCuisines, id);
      }
      if NoDup(old(state.selectedCuisines)) {
        if isSelected { SelectKeepsNoDup(old(state.selectedCuisines), id); }
        else { WithoutKeepsNoDup(old(state.selectedCuisines), id); }
      }
    } else if kind == "activity" {
      if isSelected {
        if id !in state.selectedActivities {
          state.selectedActivities := state.selectedActivities + [id];
        }
      } else {
        state.selectedActivities := Without(state.selectedActivities, id);
      }
      if NoDup(old(state.selectedActivities)) {
        if isSelected { SelectKeepsNoDup(old(state.selectedActivities), id); }
        else { WithoutKeepsNoDup(old(state.selectedActivities), id); }
      }
    }
  }

  /** The click handler of a budget or pace button: `type` picks the field
      that takes the button's id; any other `type` changes nothing. */
  method OnButtonClick(state: AppState, id: string, kind: string)
    modifies state
    ensures state.selectedBudget == (if kind == "budget" then id else old(state.selectedBudget))
    ensures state.selectedPace == (if kind == "pace" then id else old(state.selectedPace))
    ensures state.selectedCuisines == old(state.selectedCuisines)
    ensures state.selectedActivities == old(state.selectedActivities)
  {
    if kind == "budget" {
      state.selectedBudget := id;
    } else if kind == "pace" {
      state.selectedPace := id;
    }
  }

  /** Selecting an absent tag and then deselecting it restores the list the
      handler started from. */
  method SelectThenDeselectRestores(state: AppState, id: string, kind: string)
    requires kind == "cuisine" || kind == "activity"
    requires kind == "cuisine" ==> id !in state.selectedCuisines
    requires kind == "activity" ==> id !in state.selectedActivities
    modifies state
    ensures state.selectedCuisines == old(state.selectedCuisines)
    ensures state.selectedActivities == old(state.selectedActivities)
  {
    ghost var cuisines, activities := state.selectedCuisines, state.selectedActivities;
    UpdateSelectedPreferences(state, id, kind, true);
    UpdateSelectedPreferences(state, id, kind, false);
    if kind == "cuisine" { SelectThenDeselect(cuisines, id); }
    else { SelectThenDeselect(activities, id); }
  }
}
