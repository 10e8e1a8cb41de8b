# nutrigen-ai core logic in Dafny

A nutrition-tracking web app: a Flask server that wraps the USDA FoodData
Central API, hands meal planning and chat to a language model, and records
daily meal-logging streaks in Firestore; and a React/Redux client. This project
models the parts of it that make decisions, with I/O removed:

- **Meal-logging streaks** (`MealStreak`, meal_streak.dfy). `log_meal` and
  `get_streak` work over the `mealLogs` collection, here a `map` field of the
  class `MealLogStore`. Days are whole numbers and "today" is an input.
  Pure functions (`NextStreak`, `RecordAfterLog`, `StreakOn`,
  `RecordAfterRead`) say what each route answers and stores. Lemmas cover
  logging twice in a day, runs of consecutive days, missed days, and reading
  the streak.
- **Request checks** (`RouteGuards`, route_guards.dfy). This covers the
  `Authorization: Bearer` rule of `requires_auth`, the guards of `chat` and
  `search_food_route`, and the answers of `get_food_details_route`. Token
  verification and the USDA search are function parameters.
- **USDA response normalisation** (`NutriInsights`, nutri_insights.dfy).
  - `parse_search_results` is a field projection.
  - `parse_food_details` is an imperative loop over a fixed, ordered table of
    name fragments. `ParseFoodDetails` and `StoreMacro` keep its loop, its
    `found` flag and its `break`, and are proved equal to the fold
    `Collect`. Lemmas about `Collect` state which nutrient ends up in which
    field.
  - The name filter of `get_nutrients_by_name` has the same shape.
- **Code-fence stripping** of the language model's meal-plan reply
  (`MealPlanner`, meal_planner.dfy). It rests on a model of Python's
  `strip()` (`PyText`, pytext.dfy) with Python's full white-space set.
- **Client state slices** (`NutritionSlice`, `CoachSlice`, with `AsyncThunks`
  for the thunks' rejection payloads). Each slice is a class whose methods are
  the reducers. Each method's contract gives the whole new state as the old
  state with the assigned fields replaced. `NutritionStore.Valid()` holds
  three things:
  - at most ten history items;
  - distinct ids in the history;
  - no error while a search is loading.

  Every reducer keeps `Valid()`.

The server and client disagree on error bodies. No error body the server
sends has a `message` key. Most carry their text under `error`. The 401 answers
of `requires_auth` go through `handle_auth_error` and carry `code` and
`description` (server/app.py:29-53). The client thunks read
`error.response.data.message` (client/src/app/features/nutritionSlice.js:21,
client/src/app/features/coachSlice.js:17).
- `sendMessage` posts with plain axios (client/src/api/chatService.js:12-22).
  So a rejected chat request always carries the coach thunk's default,
  'Failed to send message'.
- The nutrition thunks go through an axios configuration that is not part of
  this model. What message reaches them depends on it.

`AsyncThunks.RejectPayload` models the client as written, whatever message it
is given.

## Model

| member | source | states |
|---|---|---|
| MealStreak.NextStreak | server/app.py:290-310 | 'already logged' exactly when the stored date is today, with the stored streak as it is (0 when absent); otherwise at least 1: the stored streak plus one when the last log was yesterday, and 1 for no record, no date, an older date or a future date |
| MealStreak.RecordAfterLog | server/app.py:303-320 | a duplicate log leaves the record as it is; any other log stores today's date and the returned streak |
| MealStreak.StreakOn | server/app.py:336-351 | `get_streak` reports 0 for no record or a last log older than yesterday, and otherwise the stored streak (0 when absent), including for a future date |
| MealStreak.RecordAfterRead | server/app.py:344-348 | a stale streak is written back as 0 and the date is kept; nothing else is written |
| MealStreak.LogRecord.Streak | server/app.py:296 | `current_streak` as `data.get('current_streak', 0)` reads it: the stored value, or 0 when absent |
| MealStreak.MealLogStore.constructor | server/app.py:290 | the `mealLogs` collection starts with no records |
| MealStreak.MealLogStore.LogMeal | server/app.py:282-327 | answers `NextStreak` for the user's stored record; the map is unchanged when the meal was already logged today, and otherwise maps the user to (today, returned streak) and leaves every other user's record alone |
| MealStreak.MealLogStore.GetStreak | server/app.py:332-354 | reports `StreakOn` for the user's record and stores `RecordAfterRead` of it; other users untouched |
| MealStreak.LogIsIdempotent | server/app.py:303-304 | a second log on the same day answers 'already logged' with the first log's streak and stores nothing new |
| MealStreak.ConsecutiveDays | server/app.py:305-320 | starting with no record, logging on n consecutive days stores streak n, dated the last day |
| MealStreak.MissedDayResets | server/app.py:305-308 | after a missed day the streak reads 0, and the next log reports 1, whether or not the streak was read first |
| MealStreak.StreakAfterLog | server/app.py:336-351 | after a log on day d, the streak read on d or d+1 is the logged value, and from d+2 on it is 0 |
| MealStreak.ReadIsIdempotent | server/app.py:344-351 | reading the streak twice on one day gives the same answer, and the second read leaves the stored record as the first left it (the stale write-back repeats with the same value) |
| MealStreak.ReadThenLog | server/app.py:303-308 | the decay write never changes what a log on the same day reports |
| RouteGuards.BearerToken | server/app.py:38-45 | 401 `authorization_header_missing` exactly when the header is absent or does not start with "Bearer "; otherwise the token is field 1 of the header split at single spaces |
| RouteGuards.BearerFields | server/app.py:45 | a bearer header always has a second field, and it is the first field of the text after "Bearer " |
| RouteGuards.TokenIsFirstWord | server/app.py:45 | the token is the longest space-free prefix of the text after "Bearer " |
| RouteGuards.BearerTokenRoundTrip | server/app.py:39-45 | "Bearer " plus a space-free token yields exactly that token |
| RouteGuards.FirstFieldOfSpaceless | server/app.py:45 | a string without a space splits into itself alone |
| RouteGuards.Authenticate | server/app.py:37-53 | every rejection is a 401; success exactly when the header passes and verification of its token gives a payload, which becomes the current user; a header that passes but fails verification gives `invalid_token` |
| RouteGuards.HeaderCheckedFirst | server/app.py:39-45 | a rejected header is rejected whatever verification would say |
| RouteGuards.CheckChat | server/app.py:160-166 | 500 exactly when there is no JSON object; 400 'No messages provided' exactly when `messages` is absent, null or empty; otherwise the whole history goes on |
| RouteGuards.ChatAdmitsHistory | server/app.py:162-166 | a non-empty history goes on with the last message's content, or "" when it has none |
| RouteGuards.SearchFood | server/app.py:250-259 | 400 exactly when `q` is missing or empty; 502 exactly when the upstream answer has an `error` or `errors` key; in every other case the parsed search results |
| RouteGuards.NoSearchWithoutQuery | server/app.py:250-252 | without a query the upstream search is not consulted |
| RouteGuards.FoodDetailsRoute | server/app.py:267-278 | 404 on an upstream error; otherwise the parsed food exactly when every nutrient has a name, and 500 when one has none |
| NutriInsights.Summaries | server/NutriInsights.py:70-78 | one summary per food, in order, with `fdcId`→id, `description`→name, `brandOwner`→brand, `dataType`→dataType |
| NutriInsights.ParseSearchResults | server/NutriInsights.py:68-78 | a missing `foods` key gives the empty list; otherwise one entry per food |
| NutriInsights.Nutrients.Set | server/NutriInsights.py:112 | assigning one macro field changes only that field |
| NutriInsights.KeyMatches | server/NutriInsights.py:105 | a row matches when its lower-cased key occurs in the lower-cased name, which needs a name at least as long as the key |
| NutriInsights.MatchFrom | server/NutriInsights.py:104-105 | the row the scan stops at lies at or after `from` and matches the name |
| NutriInsights.Classify | server/NutriInsights.py:104-105 | a name gets a field only when some table row matches it, and it is that row's field |
| NutriInsights.MatchFromFirst | server/NutriInsights.py:104-105 | the scan finds the first table row, from a given one on, whose lower-cased key occurs in the lower-cased name |
| NutriInsights.ClassifyFirstMatch | server/NutriInsights.py:90-105 | a nutrient goes to no macro field exactly when no key matches, and otherwise to the field of the first matching key in table order |
| NutriInsights.InGrams | server/NutriInsights.py:106-110 | calories are never scaled; other fields divide mg by 1000 and µg/ug by 1000000; every other unit is left alone |
| NutriInsights.MacroAmount | server/NutriInsights.py:106-112 | a null amount stores 0; calories and unknown units store the rounded amount; other fields store the amount divided by 1000 (mg) or 1000000 (µg/ug), then rounded |
| NutriInsights.AddNutrient | server/NutriInsights.py:99-118 | a matched nutrient writes only its field, with `MacroAmount`, and leaves the micronutrients alone; an unmatched one leaves every macro field alone and adds `name := Micro(amount, unit)` when it has a non-empty name and an amount, and otherwise changes nothing |
| NutriInsights.Collect | server/NutriInsights.py:98-118 | the loop from a given nutrient on: a failure names a nutrient without a name, and a success means every nutrient has one |
| NutriInsights.FoodDetailsOf | server/NutriInsights.py:120-125 | the returned dictionary copies `fdcId`, `description` and `brandOwner` to `fdcId`, `name` and `brand`; a failure names a nutrient without a name |
| NutriInsights.StoreMacro | server/NutriInsights.py:103-114 | the inner loop matches exactly when `Classify` gives a field, and then writes only that field with the converted, rounded amount (0 for a null amount) |
| NutriInsights.ParseFoodDetails | server/NutriInsights.py:80-125 | the loop returns `FoodDetailsOf`: the fold `Collect` over the nutrients, or failure at a nameless nutrient |
| NutriInsights.NoNutrientsListed | server/NutriInsights.py:81-98 | no nutrients: all five fields 0 and no micronutrients |
| NutriInsights.CollectFails | server/NutriInsights.py:98-105 | the loop fails exactly when some nutrient has no name, and at the first such one |
| NutriInsights.CollectMacro | server/NutriInsights.py:103-114 | each macro field holds the amount of the last nutrient written to it, so later matches overwrite earlier ones, or keeps its starting value when none is |
| NutriInsights.CollectMicro | server/NutriInsights.py:116-118 | a name is a micronutrient exactly when some nutrient with that non-empty name matches no key and has an amount; it holds the amount and lower-cased unit of the last such nutrient |
| NutriInsights.FoodDetailsFields | server/NutriInsights.py:98-118 | the parsed result field by field: failure only at the first nameless nutrient; macros from their last writer or 0; micronutrients exactly the unmatched named nutrients with an amount, so a matched name never appears there |
| NutriInsights.FilterFrom | server/NutriInsights.py:59-66 | the filter loop from a given nutrient on: a failure names a nutrient without `nutrientName`, and a success keeps every name already collected |
| NutriInsights.NutrientsByName | server/NutriInsights.py:56-66 | the filter loop returns `FilterFrom` over the nutrient list |
| NutriInsights.FilterKeeps | server/NutriInsights.py:60-65 | from any point on, the filter adds exactly the nutrients whose name contains the query ignoring case, with the value and unit of the last one so named |
| NutriInsights.FilterFails | server/NutriInsights.py:61 | the filter raises exactly when a nutrient lacks `nutrientName`, at the first one |
| NutriInsights.NutrientsNamed | server/NutriInsights.py:59-66 | `get_nutrients_by_name`: the result's keys are exactly the matching names, each with its last value and unit; failure exactly when a name is missing |
| MealPlanner.StripCodeFence | server/AI/mealPlanner.py:100-105 | the returned text has no white space at either end and is no longer than the reply |
| MealPlanner.DropOpeningFence | server/AI/mealPlanner.py:101-102 | cutting the opening fence never lengthens the text and keeps it trimmed |
| MealPlanner.DropClosingFence | server/AI/mealPlanner.py:103-104 | cutting the closing fence never lengthens the text and keeps it trimmed |
| MealPlanner.StripCodeFenceIsSlice | server/AI/mealPlanner.py:100-105 | the result is a contiguous piece of the reply |
| MealPlanner.StripBounds | server/AI/mealPlanner.py:100 | `strip()` keeps a slice of its argument |
| MealPlanner.DropOpeningBounds | server/AI/mealPlanner.py:101-102 | the text after the opening step is a slice of the text before it |
| MealPlanner.DropClosingBounds | server/AI/mealPlanner.py:103-104 | the text after the closing step is a slice of the text before it |
| MealPlanner.UnopenedBounds | server/AI/mealPlanner.py:100-102 | after trimming and the opening step, the text is still a slice of the reply |
| MealPlanner.UnfencedReplyTrimmed | server/AI/mealPlanner.py:100-105 | a reply with neither fence comes back merely trimmed |
| MealPlanner.BareOpeningFenceKept | server/AI/mealPlanner.py:101 | a leading bare "```" without "json" is not removed |
| MealPlanner.OpeningFenceRemovedOnce | server/AI/mealPlanner.py:101-102 | the opening fence is removed once: a second "```json" after it stays |
| MealPlanner.DropOpeningOfFenced | server/AI/mealPlanner.py:101-102 | a leading "```json" is cut off and what follows is trimmed |
| MealPlanner.DropClosingOfFenced | server/AI/mealPlanner.py:103-104 | a trailing "```" is cut off and what precedes it is trimmed |
| MealPlanner.DropBareClosingFence | server/AI/mealPlanner.py:103-104 | a reply that is only "```" becomes empty |
| MealPlanner.OpenedReply | server/AI/mealPlanner.py:100-104 | for a fenced reply ending in a non-space, the result is the closing step applied to the trimmed rest |
| MealPlanner.ClosedBody | server/AI/mealPlanner.py:103-104 | a trimmed body, white space and "```" lose the fence and the white space |
| MealPlanner.StripCodeFenceOfFenced | server/AI/mealPlanner.py:100-105 | fencing a trimmed body in "```json" … "```", with any white space inside the fences, and stripping gives the body back |
| PyText.IsSpace | server/AI/mealPlanner.py:100 | Python's `isspace()` set: space, tab, newline and carriage return are white space; the backtick, ASCII letters and digits are not |
| PyText.StartsWith | server/AI/mealPlanner.py:101 | `startswith`: the prefix fits and agrees with `s` character by character |
| PyText.EndsWith | server/AI/mealPlanner.py:103 | `endswith`: the suffix fits and agrees with the end of `s` character by character |
| PyText.LStrip | server/AI/mealPlanner.py:100 | `lstrip()` removes exactly a white-space prefix and leaves a non-space first character |
| PyText.RStrip | server/AI/mealPlanner.py:100 | `rstrip()` removes exactly a white-space suffix and leaves a non-space last character |
| PyText.Strip | server/AI/mealPlanner.py:100 | `strip()` leaves no white space at either end and never lengthens |
| PyText.StripIsStripOf | server/AI/mealPlanner.py:100 | `strip()` keeps a slice with only white space around it |
| PyText.StripUnique | server/AI/mealPlanner.py:100 | there is one such slice, so `IsStripOf` determines `strip()` |
| PyText.StripOfStripped | server/AI/mealPlanner.py:102 | stripping a trimmed string gives it back |
| PyText.LStripAppend | server/AI/mealPlanner.py:100 | `lstrip()` of a concatenation reaches the second part only when the first is all white space |
| PyText.RStripTrailingSpace | server/AI/mealPlanner.py:104 | trailing white space does not survive `rstrip()` |
| PyText.StripLeadingSpace | server/AI/mealPlanner.py:102 | leading white space does not survive `strip()` |
| PyText.StripTrailingSpace | server/AI/mealPlanner.py:104 | trailing white space does not survive `strip()` |
| PyText.LowerChar | server/NutriInsights.py:105 | `lower()` on one character: an upper-case ASCII letter becomes its lower-case letter (32 code points on), and every other character is unchanged |
| PyText.Lower | server/NutriInsights.py:105 | `lower()` keeps the length and leaves no upper-case ASCII letter |
| PyText.LowerIdempotent | server/NutriInsights.py:105 | lower-casing twice is lower-casing once |
| PyText.Contains | server/NutriInsights.py:105 | `in`: a contained needle is no longer than the haystack; the empty needle and a prefix are always contained |
| PyText.ContainsIgnoringCase | server/NutriInsights.py:61 | `a.lower() in b.lower()`: a contained needle is no longer than the haystack, and the empty needle is always contained |
| PyText.IgnoresCase | server/NutriInsights.py:61 | lower-casing either argument first does not change the case-insensitive test |
| PyText.ContainsAt | server/NutriInsights.py:105 | the substring test holds exactly when the needle starts at some position |
| PyText.Split | server/app.py:45 | `split(' ')` gives at least one field and no field holds the separator |
| PyText.Join | server/app.py:45 | `sep.join(fields)`, the inverse of `split`: it starts with the first field and is at least one separator per field boundary long |
| PyText.JoinSplit | server/app.py:45 | joining the fields with the separator gives the string back |
| PyText.SplitAfterField | server/app.py:45 | a separator-free piece and a separator split off as the first field |
| PyText.FirstField | server/app.py:45 | the first field is the longest separator-free prefix |
| AsyncThunks.RejectPayload | client/src/app/features/nutritionSlice.js:21 | the server's non-empty message, else the thunk's default |
| AsyncThunks.RejectPayloadNonEmpty | client/src/app/features/coachSlice.js:17 | with a non-empty default the payload is non-empty and is one of the two candidates |
| NutritionSlice.FindById | client/src/app/features/nutritionSlice.js:61 | `find` succeeds exactly when some item has the id, and returns the first such item |
| NutritionSlice.AddedToHistory | client/src/app/features/nutritionSlice.js:60-68 | a history of at most ten stays at most ten, and every entry afterwards is the added item or an entry from before |
| NutritionSlice.AddKnownIdUnchanged | client/src/app/features/nutritionSlice.js:61-62 | an id already present leaves the history unchanged |
| NutritionSlice.AddNewIdInFront | client/src/app/features/nutritionSlice.js:63-66 | a new item becomes element 0 and the previous items follow in order, all of them below ten, all but the oldest at ten |
| NutritionSlice.AddedIdPresent | client/src/app/features/nutritionSlice.js:60-68 | afterwards the item's id is in the history |
| NutritionSlice.AddKeepsHistoryValid | client/src/app/features/nutritionSlice.js:60-68 | at most ten items with distinct ids stay at most ten with distinct ids |
| NutritionSlice.NutritionStore.Valid | client/src/app/features/nutritionSlice.js:60-83 | the slice's invariant: at most ten history items with distinct ids, so an id picks at most one entry, and no error while a search is loading |
| NutritionSlice.NutritionStore.constructor | client/src/app/features/nutritionSlice.js:4-12 | the initial state, which satisfies `Valid()` |
| NutritionSlice.NutritionStore.ClearError | client/src/app/features/nutritionSlice.js:54-56 | only `error` changes, to null |
| NutritionSlice.NutritionStore.ClearSearchResults | client/src/app/features/nutritionSlice.js:57-59 | only `searchResults` changes, to [] |
| NutritionSlice.NutritionStore.AddToHistory | client/src/app/features/nutritionSlice.js:60-68 | only `searchHistory` changes, to `AddedToHistory` of the old one; `Valid()` is kept |
| NutritionSlice.NutritionStore.SearchPending | client/src/app/features/nutritionSlice.js:72-75 | only `isLoading := true` and `error := null` |
| NutritionSlice.NutritionStore.SearchFulfilled | client/src/app/features/nutritionSlice.js:76-79 | only `isLoading := false` and `searchResults :=` the payload |
| NutritionSlice.NutritionStore.SearchRejected | client/src/app/features/nutritionSlice.js:80-83 | only `isLoading := false` and `error :=` the server message or 'Search failed'; results untouched |
| NutritionSlice.NutritionStore.NutritionDataFulfilled | client/src/app/features/nutritionSlice.js:84-87 | only `selectedFood` and `nutritionData` change; `isLoading` and `error` untouched |
| NutritionSlice.NutritionStore.ScanBarcodeFulfilled | client/src/app/features/nutritionSlice.js:88-90 | only `scanResult` changes |
| CoachSlice.ApologyText | client/src/app/features/coachSlice.js:62 | the apology is the fixed opening, the payload and ")" |
| CoachSlice.ApologyPayload | client/src/app/features/coachSlice.js:62 | reading an apology back gives a text of the right length |
| CoachSlice.ApologyRoundTrip | client/src/app/features/coachSlice.js:62 | the payload can be read back from the apology |
| CoachSlice.ApologyInjective | client/src/app/features/coachSlice.js:62 | different errors give different apologies |
| CoachSlice.ApologyShowsPayload | client/src/app/features/coachSlice.js:62 | the apology contains the error text |
| CoachSlice.CoachStore.constructor | client/src/app/features/coachSlice.js:4-8 | the initial state ([], false, null) |
| CoachSlice.CoachStore.AddUserMessage | client/src/app/features/coachSlice.js:26-28 | the message is appended at the end; nothing else changes |
| CoachSlice.CoachStore.ClearError | client/src/app/features/coachSlice.js:29-31 | only `error := null` |
| CoachSlice.CoachStore.SetTyping | client/src/app/features/coachSlice.js:32-34 | only `isTyping :=` the payload |
| CoachSlice.CoachStore.ClearChat | client/src/app/features/coachSlice.js:35-37 | only the transcript is emptied |
| CoachSlice.CoachStore.ResetChat | client/src/app/features/coachSlice.js:38-42 | the state becomes the initial state |
| CoachSlice.CoachStore.SendPending | client/src/app/features/coachSlice.js:46-49 | `isTyping := true` and `error := null`; the transcript is untouched |
| CoachSlice.CoachStore.SendFulfilled | client/src/app/features/coachSlice.js:50-56 | `isTyping := false` and exactly one assistant message with the reply appended; every earlier message keeps its place |
| CoachSlice.CoachStore.SendRejected | client/src/app/features/coachSlice.js:57-64 | `isTyping := false`, `error :=` the payload ('Failed to send message' by default), and exactly one assistant message, the apology for that payload, appended |

## Left out

- Flask routing, CORS, OPTIONS preflight answers and JSON (de)serialisation. Only the decisions are modelled. A request body, query parameter or header is an `Option` value.
- Firestore. The `mealLogs` collection is a `map` from user id to record. The `entries` sub-collection append (server/app.py:322) and the other document fields a `merge=True` write would keep are not modelled.
- The clock and date parsing (`datetime.utcnow()`, `strptime`, `.date()`). Days are integers, and a date that is absent, null or empty is `None`. A date string that does not parse (the route's 500) is not modelled.
- `verify_custom_token`. It is a parameter that returns None where the real function raises.
- The USDA HTTP calls (`search_food`, `get_food_details`, `list_foods`, `get_multiple_foods`). Their parsed answers are the inputs. Network failures (the routes' 500) are not modelled.
- The meal-plan prompt and the language-model call (server/AI/mealPlanner.py:10-99). `get_ai_response` is not part of this model.
- NutriInsights.MacroAmount: `round(value, 2)` is the parameter `round2`, so nothing is stated about rounding itself. Amounts are exact reals, not floats.
- NutriInsights.AddNutrient: the micronutrient text `f"{value} {unit}"` is kept as the pair `Micro(value, unit)`. Python's float-to-text formatting is not modelled.
- NutriInsights.SearchResponse, NutriInsights.FoodDetails: `foods` (server/NutriInsights.py:69) and `foodNutrients` (server/NutriInsights.py:58, 98) are read as absent or a list. A key that is present but null makes the Python loop raise `TypeError`, which the route answers with 500. That case is not expressible in the model.
- NutriInsights.FoodNutrient: a null `unitName` makes `.lower()` raise at line 101. The model reads `unitName` as a string, with absent as "", so that crash is not modelled.
- NutriInsights.Collect: a `nutrient` object that is present but null (`None.get`) counts the same as a missing name, an error at that index.
- PyText.Lower, PyText.LowerChar, PyText.ContainsIgnoringCase: `str.lower()` is modelled for ASCII letters only. A non-ASCII letter in a nutrient name or query is compared unchanged, so the query "É" does not match the name "é" (server/NutriInsights.py:61). The length bound of `ContainsIgnoringCase` relies on this: Python's "İ".lower() is two characters long.
- RouteGuards.CheckChat: a `content` that is present but null passes through as null in the source. The model reads it as absent, giving "". A `messages` value that is not a list is not modelled, nor is a list whose last element is not an object (e.g. `["hi"]`), where `.get` raises at server/app.py:167 and the route answers 500.
- NutritionSlice.HistoryItem: ids are integers compared with `===`. Payload ids of other JSON types are not modelled. An absent field of a `getNutritionData` payload reads as null, not `undefined`.
- CoachSlice.CoachStore.SendRejected: the payload is always the thunk's string. A rejection without `rejectWithValue`, shown as "(undefined)", is not modelled.
- The rejected actions of `getNutritionData` and `scanBarcode` (client/src/app/features/nutritionSlice.js:33, 45) have no reducer in the slice. They leave the state unchanged, and their default strings never reach it.
- Redux Toolkit and axios plumbing (`createAsyncThunk`, chatService, nutritionService) and all React components.
- Concurrency. This covers overlapping requests that read and write the same streak document, and thunk responses that arrive out of order.
