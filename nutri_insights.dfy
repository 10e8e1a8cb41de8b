/** Normalisation of USDA FoodData Central responses (server/NutriInsights.py):
    the projection of search hits, the classification of a food's nutrients
    into the five macro fields and a micronutrient table, and the
    name filter of `get_nutrients_by_name`. The HTTP calls that fetch the JSON
    are not modelled: the parsed JSON is the input. */
module NutriInsights {
  import opened Wrappers
  import opened PyText

  // ---------------------------------------------------------------------
  // parse_search_results
  // ---------------------------------------------------------------------

  /** One element of `foods` in a search response; an absent key is None. */
  datatype Food = Food(fdcId: Option<int>, description: Option<string>, brandOwner: Option<string>, dataType: Option<string>)

  /** A search response: its `foods` list (None when the key is absent) and
      whether it carries an `error` or an `errors` key. */
  datatype SearchResponse = SearchResponse(foods: Option<seq<Food>>, hasError: bool, hasErrors: bool)

  /** The entry the server sends back for one hit. */
  datatype FoodSummary = FoodSummary(id: Option<int>, name: Option<string>, brand: Option<string>, dataType: Option<string>)

  /** One summary per food, in the same order, fields renamed. */
  function Summaries(foods: seq<Food>): (r: seq<FoodSummary>)
    ensures |r| == |foods|
    ensures forall i :: 0 <= i < |foods| ==>
      && r[i].id == foods[i].fdcId
      && r[i].name == foods[i].description
      && r[i].brand == foods[i].brandOwner
      && r[i].dataType == foods[i].dataType
  {
    if foods == [] then []
    else
      var f := foods[0];
      [FoodSummary(f.fdcId, f.description, f.brandOwner, f.dataType)] + Summaries(foods[1..])
  }

  /** `parse_search_results`: a missing `foods` key reads as the empty list. */
  function ParseSearchResults(response: SearchResponse): (r: seq<FoodSummary>)
    ensures response.foods.None? ==> r == []
    ensures response.foods.Some? ==> |r| == |response.foods.value|
  {
    Summaries(response.foods.GetOr([]))
  }

  // ---------------------------------------------------------------------
  // parse_food_details
  // ---------------------------------------------------------------------

  datatype Macro = Calories | Protein | Fat | Carbs | Fiber

  /** `nutrient_map`, in its insertion order: the first matching key wins. */
  const NutrientTable: seq<(string, Macro)> := [
    ("Energy", Calories),
    ("Protein", Protein),
    ("Total lipid (fat)", Fat),
    ("Carbohydrate, by difference", Carbs),
    ("Fiber, total dietary", Fiber)
  ]

  /** One element of `foodNutrients`: `nutrient.name` (None when the name, or
      the whole `nutrient` object, is absent or null), `amount` (a JSON null is
      None; an absent key has already been read as 0) and `unitName` (an
      absent key has already been read as ""). */
  datatype FoodNutrient = FoodNutrient(name: Option<string>, amount: Option<real>, unitName: string)

  datatype FoodDetails = FoodDetails(fdcId: Option<int>, description: Option<string>, brandOwner: Option<string>, foodNutrients: seq<FoodNutrient>)

  /** A micronutrient entry: the text "<value> <unit>" kept as its two parts. */
  datatype Micro = Micro(value: real, unit: string)

  datatype Nutrients = Nutrients(calories: real, protein: real, fat: real, carbs: real, fiber: real, micronutrients: map<string, Micro>) {

    function Get(m: Macro): real {
      match m
      case Calories => calories
      case Protein => protein
      case Fat => fat
      case Carbs => carbs
      case Fiber => fiber
    }

    /** `nutrients[mapped_key] = v`: one macro field changes, nothing else. */
    function Set(m: Macro, v: real): (n: Nutrients)
      ensures n.Get(m) == v
      ensures forall o :: o != m ==> n.Get(o) == Get(o)
      ensures n.micronutrients == micronutrients
    {
      match m
      case Calories => this.(calories := v)
      case Protein => this.(protein := v)
      case Fat => this.(fat := v)
      case Carbs => this.(carbs := v)
      case Fiber => this.(fiber := v)
    }
  }

  /** The dictionary `parse_food_details` starts from (lines 81-88). */
  const NoNutrients := Nutrients(0.0, 0.0, 0.0, 0.0, 0.0, map[])

  datatype ParsedFood = ParsedFood(fdcId: Option<int>, name: Option<string>, brand: Option<string>, nutrients: Nutrients)

  /** Row `k` of the table matches `name`: its key, lower-cased, occurs in the
      lower-cased name. */
  predicate KeyMatches(name: string, k: nat)
    requires k < |NutrientTable|
    ensures KeyMatches(name, k) ==> |NutrientTable[k].0| <= |name|
  {
    ContainsIgnoringCase(name, NutrientTable[k].0)
  }

  /** The first row at or after `from` that matches `name`. */
  function MatchFrom(name: string, from: nat): (r: Option<nat>)
    requires from <= |NutrientTable|
    ensures r.Some? ==> from <= r.value < |NutrientTable| && KeyMatches(name, r.value)
    decreases |NutrientTable| - from
  {
    if from == |NutrientTable| then None
    else if KeyMatches(name, from) then Some(from)
    else MatchFrom(name, from + 1)
  }

  /** The macro field a nutrient of this name goes to, if any: that of the
      first matching row. */
  function Classify(name: string): (r: Option<Macro>)
    ensures r.Some? ==> exists k :: 0 <= k < |NutrientTable| && KeyMatches(name, k) && NutrientTable[k].1 == r.value
  {
    match MatchFrom(name, 0)
    case None => None
    case Some(k) => Some(NutrientTable[k].1)
  }

  /** `MatchFrom` finds the first matching row at or after `from`. */
  lemma {:induction false} MatchFromFirst(name: string, from: nat)
    requires from <= |NutrientTable|
    ensures var r := MatchFrom(name, from);
      && (r.Some? ==> from <= r.value < |NutrientTable| && KeyMatches(name, r.value))
      && (forall k :: from <= k < |NutrientTable| && (r.None? || k < r.value) ==> !KeyMatches(name, k))
    decreases |NutrientTable| - from
  {
    if from < |NutrientTable| && !KeyMatches(name, from) {
      MatchFromFirst(name, from + 1);
    }
  }

  /** A nutrient goes to no macro field exactly when no table key occurs in its
      name, and otherwise to the field of the first key that does. */
  lemma ClassifyFirstMatch(name: string)
    ensures Classify(name).None? <==> forall k :: 0 <= k < |NutrientTable| ==> !KeyMatches(name, k)
    ensures Classify(name).Some? ==> exists k ::
      && 0 <= k < |NutrientTable|
      && KeyMatches(name, k)
      && NutrientTable[k].1 == Classify(name).value
      && forall j :: 0 <= j < k ==> !KeyMatches(name, j)
  {
    MatchFromFirst(name, 0);
  }

  /** Lines 106-110: an amount in mg or µg (or ug) is converted to grams,
      except for calories; any other unit is left alone. */
  function InGrams(m: Macro, amount: real, unit: string): (r: real)
    ensures m == Calories ==> r == amount
    ensures m != Calories && unit == "mg" ==> r * 1000.0 == amount
    ensures m != Calories && (unit == "µg" || unit == "ug") ==> r * 1000000.0 == amount
    ensures unit != "mg" && unit != "µg" && unit != "ug" ==> r == amount
  {
    if m != Calories && unit == "mg" then amount / 1000.0
    else if m != Calories && (unit == "µg" || unit == "ug") then amount / 1000000.0
    else amount
  }

  /** Line 112: what a matched nutrient stores in its field; `round2` stands
      for Python's `round(value, 2)`. */
  function MacroAmount(m: Macro, amount: Option<real>, unit: string, round2: real -> real): (r: real)
    ensures amount.None? ==> r == 0.0
    ensures amount.Some? && (m == Calories || (unit != "mg" && unit != "µg" && unit != "ug")) ==> r == round2(amount.value)
    ensures amount.Some? && m != Calories && unit == "mg" ==> r == round2(amount.value / 1000.0)
    ensures amount.Some? && m != Calories && (unit == "µg" || unit == "ug") ==> r == round2(amount.value / 1000000.0)
  {
    if amount.None? then 0.0 else round2(InGrams(m, amount.value, unit))
  }

  /** A classifier of nutrient names: `Classify` in the server. The fold below
      is stated for any classifier, so that its lemmas need not look inside
      the table. */
  type Classifier = string -> Option<Macro>

  /** One turn of the loop of lines 98-118 for a nutrient called `name` that
      goes to field `field`, if any. */
  function AddNutrient(acc: Nutrients, name: string, field: Option<Macro>, n: FoodNutrient, round2: real -> real): (r: Nutrients)
    ensures field.Some? ==> r.Get(field.value) == MacroAmount(field.value, n.amount, Lower(n.unitName), round2)
    ensures field.Some? ==> r.micronutrients == acc.micronutrients
    ensures forall o :: field != Some(o) ==> r.Get(o) == acc.Get(o)
    ensures field.None? && name != "" && n.amount.Some? ==>
      r.micronutrients == acc.micronutrients[name := Micro(n.amount.value, Lower(n.unitName))]
    ensures field.None? && (name == "" || n.amount.None?) ==> r == acc
  {
    var unit := Lower(n.unitName);
    match field
    case Some(m) => acc.Set(m, MacroAmount(m, n.amount, unit, round2))
    case None =>
      if name != "" && n.amount.Some? then acc.(micronutrients := acc.micronutrients[name := Micro(n.amount.value, unit)])
      else acc
  }

  /** The loop from nutrient `from` on; a nutrient without a name makes
      `nutrient_name.lower()` raise, reported as its index. */
  function Collect(acc: Nutrients, ns: seq<FoodNutrient>, from: nat, classify: Classifier, round2: real -> real): (r: Result<Nutrients, nat>)
    requires from <= |ns|
    ensures r.Failure? ==> from <= r.error < |ns| && ns[r.error].name.None?
    ensures r.Success? ==> forall j :: from <= j < |ns| ==> ns[j].name.Some?
    decreases |ns| - from
  {
    if from == |ns| then Success(acc)
    else
      match ns[from].name
      case None => Failure(from)
      case Some(name) => Collect(AddNutrient(acc, name, classify(name), ns[from], round2), ns, from + 1, classify, round2)
  }

  /** The value `parse_food_details` returns, or the index of the nutrient
      whose missing name makes it raise. */
  function FoodDetailsOf(food: FoodDetails, round2: real -> real): (r: Result<ParsedFood, nat>)
    ensures r.Success? ==> r.value.fdcId == food.fdcId && r.value.name == food.description && r.value.brand == food.brandOwner
    ensures r.Failure? ==> r.error < |food.foodNutrients| && food.foodNutrients[r.error].name.None?
  {
    match Collect(NoNutrients, food.foodNutrients, 0, Classify, round2)
    case Success(n) => Success(ParsedFood(food.fdcId, food.description, food.brandOwner, n))
    case Failure(i) => Failure(i)
  }

  /** `parse_food_details`: one pass over `foodNutrients`. A nutrient without
      a name raises; one that no table key matches goes to the micronutrients
      when it has a name and an amount. */
  method ParseFoodDetails(food: FoodDetails, round2: real -> real) returns (r: Result<ParsedFood, nat>)
    ensures r == FoodDetailsOf(food, round2)
  {
    var nutrients := NoNutrients;
    var ns := food.foodNutrients;
    var i := 0;
    while i < |ns|
      invariant 0 <= i <= |ns|
      invariant Collect(nutrients, ns, i, Classify, round2) == Collect(NoNutrients, ns, 0, Classify, round2)
    {
      var nutrient := ns[i];
      if nutrient.name.None? {
        return Failure(i);
      }
      var name := nutrient.name.value;
      var unit := Lower(nutrient.unitName);
      ghost var before := nutrients;
      var found;
      nutrients, found := StoreMacro(nutrients, name, nutrient.amount, unit, round2);
      if !found && name != "" && nutrient.amount.Some? {
        nutrients := nutrients.(micronutrients := nutrients.micronutrients[name := Micro(nutrient.amount.value, unit)]);
      }
      assert nutrients == AddNutrient(before, name, Classify(name), nutrient, round2);
      CollectStep(before, ns, i, Classify, round2);
      i := i + 1;
    }
    r := Success(ParsedFood(food.fdcId, food.description, food.brandOwner, nutrients));
  }

  /** The inner loop of `parse_food_details` (lines 100-114): the table rows are
      tried in order, and the first whose key occurs in the name, ignoring
      case, receives the converted and rounded amount. */
  method StoreMacro(nutrients: Nutrients, name: string, amount: Option<real>, unit: string, round2: real -> real)
    returns (updated: Nutrients, found: bool)
    ensures found <==> Classify(name).Some?
    ensures found ==> updated == nutrients.Set(Classify(name).value, MacroAmount(Classify(name).value, amount, unit, round2))
    ensures !found ==> updated == nutrients
  {
    updated, found := nutrients, false;
    var value := amount;
    var k := 0;
    while k < |NutrientTable|
      invariant 0 <= k <= |NutrientTable|
      invariant MatchFrom(name, k) == MatchFrom(name, 0)
    {
      var (key, field) := NutrientTable[k];
      if Contains(Lower(name), Lower(key)) {
        if field != Calories && value.Some? {
          if unit == "mg" {
            value := Some(value.value / 1000.0);
          } else if unit == "µg" || unit == "ug" {
            value := Some(value.value / 1000000.0);
          }
        }
        updated := updated.Set(field, if value.Some? then round2(value.value) else 0.0);
        found := true;
        break;
      }
      k := k + 1;
    }
  }

  /** One unfolding of `Collect` at a named nutrient. */
  lemma CollectStep(acc: Nutrients, ns: seq<FoodNutrient>, i: nat, classify: Classifier, round2: real -> real)
    requires i < |ns| && ns[i].name.Some?
    ensures var name := ns[i].name.value;
      Collect(acc, ns, i, classify, round2) == Collect(AddNutrient(acc, name, classify(name), ns[i], round2), ns, i + 1, classify, round2)
  {
  }

  /** A food with no `foodNutrients` has all five fields 0 and no micronutrients. */
  lemma NoNutrientsListed(food: FoodDetails, round2: real -> real)
    requires food.foodNutrients == []
    ensures FoodDetailsOf(food, round2) == Success(ParsedFood(food.fdcId, food.description, food.brandOwner, NoNutrients))
  {
  }

  /** Parsing fails exactly when some nutrient has no name, and then at the
      first such nutrient. */
  lemma {:induction false} CollectFails(acc: Nutrients, ns: seq<FoodNutrient>, from: nat, classify: Classifier, round2: real -> real)
    requires from <= |ns|
    ensures Collect(acc, ns, from, classify, round2).Failure? <==> exists j :: from <= j < |ns| && ns[j].name.None?
    ensures Collect(acc, ns, from, classify, round2).Failure? ==>
      var i := Collect(acc, ns, from, classify, round2).error;
      from <= i < |ns| && ns[i].name.None? && forall j :: from <= j < i ==> ns[j].name.Some?
    decreases |ns| - from
  {
    if from < |ns| && ns[from].name.Some? {
      var name := ns[from].name.value;
      CollectFails(AddNutrient(acc, name, classify(name), ns[from], round2), ns, from + 1, classify, round2);
    }
  }

  /** Nutrient `n` is one that writes macro field `m`. */
  predicate Writes(n: FoodNutrient, m: Macro, classify: Classifier) {
    n.name.Some? && classify(n.name.value) == Some(m)
  }

  /** Each macro field ends up with the value of the last nutrient that writes
      it (a later match overwrites an earlier one), or keeps its value when
      none does. */
  lemma {:induction false} CollectMacro(acc: Nutrients, ns: seq<FoodNutrient>, from: nat, classify: Classifier, round2: real -> real, m: Macro)
    requires from <= |ns| && Collect(acc, ns, from, classify, round2).Success?
    ensures (forall j :: from <= j < |ns| ==> !Writes(ns[j], m, classify)) ==>
      Collect(acc, ns, from, classify, round2).value.Get(m) == acc.Get(m)
    ensures forall j :: from <= j < |ns| && Writes(ns[j], m, classify) && (forall j' :: j < j' < |ns| ==> !Writes(ns[j'], m, classify)) ==>
      Collect(acc, ns, from, classify, round2).value.Get(m) == MacroAmount(m, ns[j].amount, Lower(ns[j].unitName), round2)
    decreases |ns| - from
  {
    if from < |ns| {
      var name := ns[from].name.value;
      CollectMacro(AddNutrient(acc, name, classify(name), ns[from], round2), ns, from + 1, classify, round2, m);
    }
  }

  /** Nutrient `n` supplies micronutrient `key`: it has that non-empty name,
      goes to no macro field, and has an amount. */
  predicate Supplies(n: FoodNutrient, key: string, classify: Classifier) {
    n.name == Some(key) && key != "" && classify(key).None? && n.amount.Some?
  }

  /** A name is in the micronutrient map exactly when some nutrient supplies
      it, and holds the amount and lower-cased unit of the last one that does. */
  lemma {:induction false} CollectMicro(acc: Nutrients, ns: seq<FoodNutrient>, from: nat, classify: Classifier, round2: real -> real, key: string)
    requires from <= |ns| && Collect(acc, ns, from, classify, round2).Success?
    ensures key in Collect(acc, ns, from, classify, round2).value.micronutrients <==>
      key in acc.micronutrients || exists j :: from <= j < |ns| && Supplies(ns[j], key, classify)
    ensures (forall j :: from <= j < |ns| ==> !Supplies(ns[j], key, classify)) && key in acc.micronutrients ==>
      Collect(acc, ns, from, classify, round2).value.micronutrients[key] == acc.micronutrients[key]
    ensures forall j :: from <= j < |ns| && Supplies(ns[j], key, classify) && (forall j' :: j < j' < |ns| ==> !Supplies(ns[j'], key, classify)) ==>
      Collect(acc, ns, from, classify, round2).value.micronutrients[key] == Micro(ns[j].amount.value, Lower(ns[j].unitName))
    decreases |ns| - from
  {
    if from < |ns| {
      var name := ns[from].name.value;
      CollectMicro(AddNutrient(acc, name, classify(name), ns[from], round2), ns, from + 1, classify, round2, key);
    }
  }

  /** The result of `parse_food_details`, field by field: macro fields from the
      last nutrient that writes them (0 when none does), micronutrients from the
      nutrients that match no row, so a matched name never appears there; and
      parsing fails exactly at the first nutrient without a name. */
  lemma FoodDetailsFields(food: FoodDetails, round2: real -> real, m: Macro, key: string)
    ensures var ns := food.foodNutrients;
      var r := FoodDetailsOf(food, round2);
      && (r.Failure? <==> exists j :: 0 <= j < |ns| && ns[j].name.None?)
      && (r.Failure? ==> 0 <= r.error < |ns| && ns[r.error].name.None? && forall j :: 0 <= j < r.error ==> ns[j].name.Some?)
    ensures FoodDetailsOf(food, round2).Success? ==>
      var ns := food.foodNutrients;
      var n := FoodDetailsOf(food, round2).value.nutrients;
      && ((forall j :: 0 <= j < |ns| ==> !Writes(ns[j], m, Classify)) ==> n.Get(m) == 0.0)
      && (forall j :: 0 <= j < |ns| && Writes(ns[j], m, Classify) && (forall j' :: j < j' < |ns| ==> !Writes(ns[j'], m, Classify)) ==>
            n.Get(m) == MacroAmount(m, ns[j].amount, Lower(ns[j].unitName), round2))
      && (key in n.micronutrients <==> exists j :: 0 <= j < |ns| && Supplies(ns[j], key, Classify))
      && (key in n.micronutrients ==> Classify(key).None?)
  {
    CollectFails(NoNutrients, food.foodNutrients, 0, Classify, round2);
    if FoodDetailsOf(food, round2).Success? {
      FoodDetailsMacro(food, round2, m);
      FoodDetailsMicro(food, round2, key);
    }
  }

  /** The macro half of `FoodDetailsFields`. */
  lemma FoodDetailsMacro(food: FoodDetails, round2: real -> real, m: Macro)
    requires FoodDetailsOf(food, round2).Success?
    ensures var ns := food.foodNutrients;
      var n := FoodDetailsOf(food, round2).value.nutrients;
      && ((forall j :: 0 <= j < |ns| ==> !Writes(ns[j], m, Classify)) ==> n.Get(m) == 0.0)
      && (forall j :: 0 <= j < |ns| && Writes(ns[j], m, Classify) && (forall j' :: j < j' < |ns| ==> !Writes(ns[j'], m, Classify)) ==>
            n.Get(m) == MacroAmount(m, ns[j].amount, Lower(ns[j].unitName), round2))
  {
    CollectMacro(NoNutrients, food.foodNutrients, 0, Classify, round2, m);
  }

  /** The micronutrient half of `FoodDetailsFields`. */
  lemma FoodDetailsMicro(food: FoodDetails, round2: real -> real, key: string)
    requires FoodDetailsOf(food, round2).Success?
    ensures var ns := food.foodNutrients;
      var n := FoodDetailsOf(food, round2).value.nutrients;
      && (key in n.micronutrients <==> exists j :: 0 <= j < |ns| && Supplies(ns[j], key, Classify))
      && (key in n.micronutrients ==> Classify(key).None?)
  {
    CollectMicro(NoNutrients, food.foodNutrients, 0, Classify, round2, key);
  }

  // ---------------------------------------------------------------------
  // get_nutrients_by_name
  // ---------------------------------------------------------------------

  /** One element of `foodNutrients` as `get_nutrients_by_name` reads it. */
  datatype NamedNutrient = NamedNutrient(nutrientName: Option<string>, value: Option<real>, unitName: Option<string>)

  datatype Reading = Reading(value: Option<real>, unit: Option<string>)

  /** The filter loop from nutrient `from` on; a nutrient without a
      `nutrientName` raises, reported as its index. */
  function FilterFrom(acc: map<string, Reading>, ns: seq<NamedNutrient>, query: string, from: nat): (r: Result<map<string, Reading>, nat>)
    requires from <= |ns|
    ensures r.Failure? ==> from <= r.error < |ns| && ns[r.error].nutrientName.None?
    ensures r.Success? ==> acc.Keys <= r.value.Keys
    decreases |ns| - from
  {
    if from == |ns| then Success(acc)
    else
      match ns[from].nutrientName
      case None => Failure(from)
      case Some(name) =>
        var next := if ContainsIgnoringCase(name, query) then acc[name := Reading(ns[from].value, ns[from].unitName)] else acc;
        FilterFrom(next, ns, query, from + 1)
  }

  /** `get_nutrients_by_name` once the food's nutrient list is fetched. */
  method NutrientsByName(ns: seq<NamedNutrient>, query: string) returns (r: Result<map<string, Reading>, nat>)
    ensures r == FilterFrom(map[], ns, query, 0)
  {
    var result: map<string, Reading> := map[];
    var i := 0;
    while i < |ns|
      invariant 0 <= i <= |ns|
      invariant FilterFrom(result, ns, query, i) == FilterFrom(map[], ns, query, 0)
    {
      var nutrient := ns[i];
      if nutrient.nutrientName.None? {
        return Failure(i);
      }
      var name := nutrient.nutrientName.value;
      if Contains(Lower(name), Lower(query)) {
        result := result[name := Reading(nutrient.value, nutrient.unitName)];
      }
      i := i + 1;
    }
    r := Success(result);
  }

  /** Nutrient `n` is kept for `query`: its name contains the query, ignoring case. */
  predicate Kept(n: NamedNutrient, query: string, key: string) {
    n.nutrientName == Some(key) && ContainsIgnoringCase(key, query)
  }

  /** The filter keeps exactly the nutrients whose name contains the query,
      keyed by name, each with the value and unit of the last such nutrient. */
  lemma {:induction false} FilterKeeps(acc: map<string, Reading>, ns: seq<NamedNutrient>, query: string, from: nat, key: string)
    requires from <= |ns| && FilterFrom(acc, ns, query, from).Success?
    ensures key in FilterFrom(acc, ns, query, from).value <==>
      key in acc || exists j :: from <= j < |ns| && Kept(ns[j], query, key)
    ensures (forall j :: from <= j < |ns| ==> !Kept(ns[j], query, key)) && key in acc ==>
      FilterFrom(acc, ns, query, from).value[key] == acc[key]
    ensures forall j :: from <= j < |ns| && Kept(ns[j], query, key) && (forall j' :: j < j' < |ns| ==> !Kept(ns[j'], query, key)) ==>
      FilterFrom(acc, ns, query, from).value[key] == Reading(ns[j].value, ns[j].unitName)
    decreases |ns| - from
  {
    if from < |ns| {
      var name := ns[from].nutrientName.value;
      var next := if ContainsIgnoringCase(name, query) then acc[name := Reading(ns[from].value, ns[from].unitName)] else acc;
      FilterKeeps(next, ns, query, from + 1, key);
    }
  }

  /** The filter fails exactly when some nutrient has no name, at the first one. */
  lemma {:induction false} FilterFails(acc: map<string, Reading>, ns: seq<NamedNutrient>, query: string, from: nat)
    requires from <= |ns|
    ensures FilterFrom(acc, ns, query, from).Failure? <==> exists j :: from <= j < |ns| && ns[j].nutrientName.None?
    ensures FilterFrom(acc, ns, query, from).Failure? ==>
      var i := FilterFrom(acc, ns, query, from).error;
      from <= i < |ns| && ns[i].nutrientName.None? && forall j :: from <= j < i ==> ns[j].nutrientName.Some?
    decreases |ns| - from
  {
    if from < |ns| && ns[from].nutrientName.Some? {
      var name := ns[from].nutrientName.value;
      var next := if ContainsIgnoringCase(name, query) then acc[name := Reading(ns[from].value, ns[from].unitName)] else acc;
      FilterFails(next, ns, query, from + 1);
    }
  }

  /** `get_nutrients_by_name` keeps exactly the nutrients whose name contains
      the query, ignoring case, each under its name with the value and unit of
      the last one so named; it fails exactly when a nutrient has no name. */
  lemma NutrientsNamed(ns: seq<NamedNutrient>, query: string, key: string)
    ensures FilterFrom(map[], ns, query, 0).Failure? <==> exists j :: 0 <= j < |ns| && ns[j].nutrientName.None?
    ensures FilterFrom(map[], ns, query, 0).Success? ==>
      var r := FilterFrom(map[], ns, query, 0).value;
      && (key in r <==> exists j :: 0 <= j < |ns| && Kept(ns[j], query, key))
      && forall j :: 0 <= j < |ns| && Kept(ns[j], query, key) && (forall j' :: j < j' < |ns| ==> !Kept(ns[j'], query, key)) ==>
           r[key] == Reading(ns[j].value, ns[j].unitName)
  {
    FilterFails(map[], ns, query, 0);
    if FilterFrom(map[], ns, query, 0).Success? {
      FilterKeeps(map[], ns, query, 0, key);
    }
  }
}
