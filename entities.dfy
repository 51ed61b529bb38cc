/**
 * The records the handlers read and write, as the ORM models declare them.
 * Ids are uuid4 strings or auto-increment integers in the source; here
 * every id is a natural number handed out by the store, so a fresh id is
 * one the store has not used yet.
 */
module Entities {
  import opened Wrappers

  type Id = nat

  /** A JSON value as the nutrition API or a request body carries it. */
  datatype JsonValue =
    | JNull
    | JBool(b: bool)
    | JNumber(literal: string)
    | JString(s: string)

  /** `UserProduct.status`; the store keeps the string "active" or "expired". */
  datatype Status = Active | Expired
  {
    function Name(): string {
      match this
      case Active => "active"
      case Expired => "expired"
    }
  }

  /** One inventory row (`userProducts`). */
  datatype InventoryRow = InventoryRow(
    id: Id,
    userId: Id,
    productId: Id,
    quantity: int,
    expiryDate: string,
    status: Status,
    notes: string,
    addedAt: string,
    updatedAt: string)

  /** One catalog product (`products`) as the warehouse and inventory handlers use it. */
  datatype CatalogProduct = CatalogProduct(
    id: Id,
    name: string,
    category: string,
    barcode: string,
    nutritionId: Option<Id>,
    addedAt: string,
    /** None until the warehouse update route first sets it. */
    updatedAt: Option<string>)

  /** One nutrition row: its id and the columns the handler wrote, by column name. */
  datatype NutritionRow = NutritionRow(id: Id, columns: map<string, JsonValue>)

  /** The columns of the `Nutrition` class in app/models/nutrition_model.py, the one the app's handlers import. */
  const NutritionModelColumns: set<string> := {
    "id", "energy_kcal", "carbohydrate", "total_sugars", "fiber", "protein", "saturated_fat",
    "vitamin_a", "vitamin_c", "potassium", "iron", "calcium", "sodium", "cholesterol", "addedAt"}

  /** The columns of the `Nutrition` class in app/models/nutrition.py, the one app/routes/product.py imports. */
  const NutritionColumns: set<string> := {"id", "protein", "carbohydrate", "fat", "fiber", "calories"}

  /**
   * `row.<column>` on an instance of a class with the given columns: an
   * AttributeError for a name the class does not declare, else the stored
   * value (null for a column never written).
   */
  function Attr(row: NutritionRow, schema: set<string>, column: string): (r: Result<JsonValue>)
    ensures r.Err? <==> column !in schema
    ensures r.Err? ==> r.failure.Crash?
    ensures column in schema ==> r == Ok(if column in row.columns then row.columns[column] else JNull)
  {
    if column !in schema then Err(Crash("AttributeError: '" + column + "'"))
    else if column in row.columns then Ok(row.columns[column])
    else Ok(JNull)
  }

  /**
   * `{key: row.<key> for key in keys}` built in key order: the AttributeError
   * of the first key the class does not declare, else every key with its
   * stored value.
   */
  function NutritionDict(row: NutritionRow, schema: set<string>, keys: seq<string>): (r: Result<map<string, JsonValue>>)
    ensures r.Ok? <==> forall i :: 0 <= i < |keys| ==> keys[i] in schema
    ensures r.Err? ==> r.failure.Crash?
    ensures r.Ok? ==> forall k :: k in r.value <==> k in keys
    ensures r.Ok? ==> forall k :: k in r.value ==> Ok(r.value[k]) == Attr(row, schema, k)
  {
    if keys == [] then Ok(map[])
    else match Attr(row, schema, keys[0])
      case Err(f) => Err(f)
      case Ok(v) =>
        match NutritionDict(row, schema, keys[1..])
        case Err(f) => Err(f)
        case Ok(rest) => Ok(rest[keys[0] := v])
  }

  datatype NotificationType = Info | Warning | Error
  {
    function Name(): string {
      match this
      case Info => "info"
      case Warning => "warning"
      case Error => "error"
    }
  }

  /** One notification (`notifications`), with the `read` flag the handlers use. */
  datatype Notification = Notification(
    id: Id,
    userId: Id,
    message: string,
    kind: NotificationType,
    createdAt: string,
    read: bool)

  /** One account (`users`). */
  datatype User = User(
    id: Id,
    name: string,
    email: string,
    password: string,
    dob: string,
    createdAt: string)

  /** The decoded access-token payload a handler finds in `request.state.user`. */
  datatype Claims = Claims(userId: Option<Id>, email: Option<string>)
}
