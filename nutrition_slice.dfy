/** The `nutrition` state slice of the client
    (client/src/app/features/nutritionSlice.js): search results, the food and
    scan last fetched, a most-recent-first search history of at most ten
    items with distinct ids, and the loading and error flags of a search. */
module NutritionSlice {
  import opened Wrappers
  import opened AsyncThunks

  /** A JSON value the slice stores without looking inside. */
  datatype Json = JNull | JBool(b: bool) | JNumber(n: real) | JString(s: string) | JArray(items: seq<Json>) | JObject(fields: map<string, Json>)

  /** A search-history entry; only its `id` is compared (`===` on numbers). */
  datatype HistoryItem = HistoryItem(id: int, food: Json)

  /** The payload of `getNutritionData.fulfilled`; an absent field reads as null. */
  datatype NutritionPayload = NutritionPayload(food: Json, nutrition: Json)

  /** The whole slice as one value. */
  datatype Nutrition = Nutrition(
    searchResults: Json,
    selectedFood: Json,
    nutritionData: Json,
    scanResult: Json,
    searchHistory: seq<HistoryItem>,
    isLoading: bool,
    error: Option<string>)

  /** `initialState` (lines 4-12). */
  const InitialState := Nutrition(JArray([]), JNull, JNull, JNull, [], false, None)

  const MaxHistory := 10

  /** The default message of the `searchFood` thunk (line 21). */
  const SearchFailed := "Search failed"

  predicate HasId(history: seq<HistoryItem>, id: int) {
    exists k :: 0 <= k < |history| && history[k].id == id
  }

  predicate DistinctIds(history: seq<HistoryItem>) {
    forall j, k :: 0 <= j < k < |history| ==> history[j].id != history[k].id
  }

  /** `searchHistory.find(item => item.id === id)`: the first entry with that id. */
  method FindById(history: seq<HistoryItem>, id: int) returns (found: Option<HistoryItem>)
    ensures found.Some? <==> HasId(history, id)
    ensures found.Some? ==> exists k ::
      && 0 <= k < |history|
      && history[k] == found.value
      && history[k].id == id
      && forall j :: 0 <= j < k ==> history[j].id != id
  {
    var k := 0;
    while k < |history|
      invariant 0 <= k <= |history|
      invariant forall j :: 0 <= j < k ==> history[j].id != id
    {
      if history[k].id == id {
        return Some(history[k]);
      }
      k := k + 1;
    }
    return None;
  }

  /** The history after `addToHistory(item)` (lines 60-68): unchanged when an
      entry with the item's id is present; otherwise the item goes in front and,
      should that make more than ten, the last entry is dropped. */
  function AddedToHistory(history: seq<HistoryItem>, item: HistoryItem): (r: seq<HistoryItem>)
    ensures |history| <= MaxHistory ==> |r| <= MaxHistory
    ensures forall k :: 0 <= k < |r| ==> r[k] == item || r[k] in history
  {
    if HasId(history, item.id) then history
    else
      var grown := [item] + history;
      if |grown| > MaxHistory then grown[..|grown| - 1] else grown
  }

  /** An id already in the history leaves it exactly as it was. */
  lemma AddKnownIdUnchanged(history: seq<HistoryItem>, item: HistoryItem)
    requires HasId(history, item.id)
    ensures AddedToHistory(history, item) == history
  {
  }

  /** A new id goes first; the previous entries follow in their order, all of
      them while there is room, all but the oldest once there are ten. */
  lemma AddNewIdInFront(history: seq<HistoryItem>, item: HistoryItem)
    requires !HasId(history, item.id) && |history| <= MaxHistory
    ensures var h := AddedToHistory(history, item);
      && h[0] == item
      && (|history| < MaxHistory ==> h[1..] == history)
      && (|history| == MaxHistory ==> h[1..] == history[..MaxHistory - 1])
  {
    var grown := [item] + history;
    assert grown[1..] == history;
    if |history| == MaxHistory {
      assert grown[..|grown| - 1][1..] == history[..MaxHistory - 1];
    }
  }

  /** The item's id is in the history afterwards, whichever branch was taken. */
  lemma AddedIdPresent(history: seq<HistoryItem>, item: HistoryItem)
    ensures HasId(AddedToHistory(history, item), item.id)
  {
    if !HasId(history, item.id) {
      assert AddedToHistory(history, item)[0] == item;
    }
  }

  /** At most ten entries with distinct ids stay at most ten with distinct ids. */
  lemma AddKeepsHistoryValid(history: seq<HistoryItem>, item: HistoryItem)
    requires |history| <= MaxHistory && DistinctIds(history)
    ensures |AddedToHistory(history, item)| <= MaxHistory
    ensures DistinctIds(AddedToHistory(history, item))
  {
    if !HasId(history, item.id) {
      var grown := [item] + history;
      assert DistinctIds(grown) by {
        forall j, k | 0 <= j < k < |grown|
          ensures grown[j].id != grown[k].id
        {
          if j == 0 {
            assert grown[k] == history[k - 1];
          } else {
            assert grown[j] == history[j - 1] && grown[k] == history[k - 1];
          }
        }
      }
    }
  }

  /** The slice's store: the fields the reducers assign in place. */
  class NutritionStore {
    var searchResults: Json
    var selectedFood: Json
    var nutritionData: Json
    var scanResult: Json
    var searchHistory: seq<HistoryItem>
    var isLoading: bool
    var error: Option<string>

    function State(): Nutrition
      reads this
    {
      Nutrition(searchResults, selectedFood, nutritionData, scanResult, searchHistory, isLoading, error)
    }

    /** What every reachable state satisfies: a short history with distinct ids,
        and no error while a search is loading. */
    predicate Valid()
      reads this
      ensures Valid() ==> forall j, k :: 0 <= j < |searchHistory| && 0 <= k < |searchHistory| && searchHistory[j].id == searchHistory[k].id ==> j == k
    {
      |searchHistory| <= MaxHistory && DistinctIds(searchHistory) && (isLoading ==> error.None?)
    }

    constructor ()
      ensures State() == InitialState && Valid()
    {
      searchResults, selectedFood, nutritionData, scanResult := JArray([]), JNull, JNull, JNull;
      searchHistory, isLoading, error := [], false, None;
    }

    /** `clearError` (lines 54-56). */
    method ClearError()
      modifies this
      ensures State() == old(State()).(error := None)
      ensures old(Valid()) ==> Valid()
    {
      error := None;
    }

    /** `clearSearchResults` (lines 57-59). */
    method ClearSearchResults()
      modifies this
      ensures State() == old(State()).(searchResults := JArray([]))
      ensures old(Valid()) ==> Valid()
    {
      searchResults := JArray([]);
    }

    /** `addToHistory` (lines 60-68): `find`, then `unshift` and `pop`. */
    method AddToHistory(item: HistoryItem)
      modifies this
      ensures State() == old(State()).(searchHistory := AddedToHistory(old(searchHistory), item))
      ensures old(Valid()) ==> Valid()
    {
      var present := FindById(searchHistory, item.id);
      if present.None? {
        searchHistory := [item] + searchHistory;
        if |searchHistory| > MaxHistory {
          searchHistory := searchHistory[..|searchHistory| - 1];
        }
      }
      if old(Valid()) {
        AddKeepsHistoryValid(old(searchHistory), item);
      }
    }

    /** `searchFood.pending` (lines 72-75). */
    method SearchPending()
      modifies this
      ensures State() == old(State()).(isLoading := true, error := None)
      ensures old(Valid()) ==> Valid()
    {
      isLoading := true;
      error := None;
    }

    /** `searchFood.fulfilled` (lines 76-79): the results are replaced wholesale. */
    method SearchFulfilled(results: Json)
      modifies this
      ensures State() == old(State()).(isLoading := false, searchResults := results)
      ensures old(Valid()) ==> Valid()
    {
      isLoading := false;
      searchResults := results;
    }

    /** `searchFood.rejected` (lines 80-83), with the thunk's payload for the
        server message `message` (line 21); the old results stay. */
    method SearchRejected(message: Option<string>)
      modifies this
      ensures State() == old(State()).(isLoading := false, error := Some(RejectPayload(message, SearchFailed)))
      ensures old(Valid()) ==> Valid()
    {
      isLoading := false;
      error := Some(RejectPayload(message, SearchFailed));
    }

    /** `getNutritionData.fulfilled` (lines 84-87). */
    method NutritionDataFulfilled(payload: NutritionPayload)
      modifies this
      ensures State() == old(State()).(selectedFood := payload.food, nutritionData := payload.nutrition)
      ensures old(Valid()) ==> Valid()
    {
      selectedFood := payload.food;
      nutritionData := payload.nutrition;
    }

    /** `scanBarcode.fulfilled` (lines 88-90). */
    method ScanBarcodeFulfilled(payload: Json)
      modifies this
      ensures State() == old(State()).(scanResult := payload)
      ensures old(Valid()) ==> Valid()
    {
      scanResult := payload;
    }
  }
}
