/**
 * backend/app/utils/nutrition_utils.py: the backend's own copy of
 * `check_nutrition_exists`.  Its `fetch_nutrition` (an HTTP request) is not
 * part of this model.
 */
module BackendNutritionUtils {
  import opened Text
  import opened Entities
  import NutritionUtils

  const PremiumOnly: string := "Only available for premium subscribers."

  /**
   * `check_nutrition_exists(key, food)`, read key first: a missing key gives
   * "N/A"; a string equal to the placeholder ignoring case gives "N/A";
   * anything else present, a JSON null included, is returned unchanged.  It
   * answers exactly as the copy under app/ does.
   */
  function CheckNutritionExists(key: string, food: map<string, JsonValue>): (r: JsonValue)
    ensures r == NutritionUtils.CheckNutritionExists(key, food)
  {
    if key !in food then JString("N/A")
    else match food[key]
      case JString(s) =>
        SamePlaceholder();
        if Lower(s) == Lower(PremiumOnly) then JString("N/A") else food[key]
      case _ => food[key]
  }

  /** Both copies hide the same text. */
  lemma SamePlaceholder()
    ensures PremiumOnly == NutritionUtils.PremiumOnly
  {
  }

  /** A key present with a null value is answered with null, not "N/A". */
  lemma NullIsKept(key: string, food: map<string, JsonValue>)
    requires key in food && food[key] == JNull
    ensures CheckNutritionExists(key, food) == JNull
    ensures CheckNutritionExists(key, food) != JString("N/A")
  {
  }
}
