/**
 * app/utils/nutrition_utils.py: `check_nutrition_exists`, which reads one
 * field of a nutrition-API result and hides the text the free API tier
 * sends instead of a number.  `fetch_nutrition` (an HTTP request) is not
 * part of this model: its first result reaches the handlers as a map.
 */
module NutritionUtils {
  import opened Wrappers
  import opened Text
  import opened Entities

  /** What the API sends for a field of a paid tier. */
  const PremiumOnly: string := "Only available for premium subscribers."

  const NotAvailable: JsonValue := JString("N/A")

  /** A value `check_nutrition_exists` replaces by "N/A". */
  predicate IsPremiumOnly(v: JsonValue) {
    v.JString? && Lower(v.s) == Lower(PremiumOnly)
  }

  /** `food_nutrition.get(key)`, None standing for a missing key. */
  function Get(food: map<string, JsonValue>, key: string): Option<JsonValue> {
    if key in food then Some(food[key]) else None
  }

  /**
   * `check_nutrition_exists(key, food)`: "N/A" for a missing key or for the
   * premium placeholder in any letter case; otherwise the stored value as it
   * is, a JSON null included.
   */
  function CheckNutritionExists(key: string, food: map<string, JsonValue>): (r: JsonValue)
    ensures key !in food ==> r == NotAvailable
    ensures key in food && IsPremiumOnly(food[key]) ==> r == NotAvailable
    ensures key in food && !IsPremiumOnly(food[key]) ==> r == food[key]
  {
    var got := Get(food, key);
    if got.Some? && IsPremiumOnly(got.value) then NotAvailable
    else if got.Some? then got.value
    else NotAvailable
  }

  /** The placeholder never comes through, in any letter case. */
  lemma PlaceholderNeverSurvives(key: string, food: map<string, JsonValue>)
    ensures !IsPremiumOnly(CheckNutritionExists(key, food))
  {
    if !(key in food && !IsPremiumOnly(food[key])) {
      assert |Lower("N/A")| != |Lower(PremiumOnly)|;
    }
  }

  /** The helper yields null only for a key the API answered with null. */
  lemma CheckNutritionExistsNotNull(key: string, food: map<string, JsonValue>)
    ensures CheckNutritionExists(key, food) == JNull <==> key in food && food[key] == JNull
  {
    if key in food && food[key] == JNull {
      assert !food[key].JString?;
    }
  }

  /** A second pass over an already sanitised value changes nothing. */
  lemma CheckNutritionExistsIdempotent(key: string, food: map<string, JsonValue>)
    ensures CheckNutritionExists(key, food[key := CheckNutritionExists(key, food)])
            == CheckNutritionExists(key, food)
  {
    var v := CheckNutritionExists(key, food);
    PlaceholderNeverSurvives(key, food);
    var again := food[key := v];
    assert key in again && again[key] == v;
    assert !IsPremiumOnly(again[key]);
  }
}
