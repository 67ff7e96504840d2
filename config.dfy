/** The option tables of the plain-JavaScript app (js/config.js) that the
    core reads, and the preference part of its global `AppState`. Icons are
    presentation and are not modelled. */
module Config {
  import opened Wrappers

  datatype Entry = Entry(id: string, caption: string)

  const Cuisines: seq<Entry> := [
    Entry("korean", "한식"), Entry("japanese", "일식"), Entry("chinese", "중식"),
    Entry("western", "양식"), Entry("italian", "이탈리안"), Entry("french", "프렌치"),
    Entry("mexican", "멕시칸"), Entry("thai", "태국"), Entry("vietnamese", "베트남"),
    Entry("indian", "인도"), Entry("cafe", "카페"), Entry("dessert", "디저트")]

  const Activities: seq<Entry> := [
    Entry("sightseeing", "관광"), Entry("shopping", "쇼핑"), Entry("nature", "자연"),
    Entry("history", "역사"), Entry("culture", "문화"), Entry("art", "예술"),
    Entry("sports", "스포츠"), Entry("leisure", "레저"), Entry("photo", "사진"),
    Entry("food-tour", "맛집투어"), Entry("nightview", "야경"), Entry("theme-park", "테마파크")]

  /** The id `AppState.selectedBudget` and `selectedPace` start with. */
  const DefaultChoice: string := "moderate"

  /** `entries.find(e => e.id === id)`, as the index of the first match. */
  function FindEntry(entries: seq<Entry>, id: string): (r: Option<nat>)
    ensures r.Some? ==> r.value < |entries| && entries[r.value].id == id
    ensures r.Some? ==> forall j :: 0 <= j < r.value ==> entries[j].id != id
    ensures r.None? ==> forall j :: 0 <= j < |entries| ==> entries[j].id != id
  {
    if entries == [] then None
    else if entries[0].id == id then Some(0)
    else match FindEntry(entries[1..], id)
      case None => None
      case Some(i) => Some(i + 1)
  }

  /** `found ? found.label : ''` */
  function LabelOrEmpty(entries: seq<Entry>, id: string): (r: string)
    ensures (forall j :: 0 <= j < |entries| ==> entries[j].id != id) ==> r == ""
    ensures forall i :: 0 <= i < |entries| && entries[i].id == id && (forall j :: 0 <= j < i ==> entries[j].id != id) ==>
      r == entries[i].caption
  {
    match FindEntry(entries, id)
    case Some(i) => entries[i].caption
    case None => ""
  }

  /** The preference fields of the global `AppState` object, which the
      handlers in js/ui.js update in place. The map, the provider services,
      the markers and the trip details are not modelled. */
  class AppState {
    var selectedCuisines: seq<string>
    var selectedActivities: seq<string>
    var selectedBudget: string
    var selectedPace: string

    /** The initial state: nothing selected, moderate budget and pace. */
    constructor ()
      ensures selectedCuisines == [] && selectedActivities == []
      ensures selectedBudget == DefaultChoice && selectedPace == DefaultChoice
    {
      selectedCuisines := [];
      selectedActivities := [];
      selectedBudget := DefaultChoice;
      selectedPace := DefaultChoice;
    }
  }
}
