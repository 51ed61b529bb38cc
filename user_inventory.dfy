/**
 * app/routers/user_inventory.py: the user-inventory routes.  They read the
 * caller from `request.state.user`, the decoded token the access-token
 * middleware stored (None when the token did not decode), and act on the
 * same inventory rows as the service in app/services/user_product_service.py.
 *
 * The clock is a parameter: `now` is the reading the expiry date is computed
 * from, `stamp` the `isoformat()` of the reading used for `addedAt` and
 * `updatedAt`.
 */
module UserInventory {
  import opened Wrappers
  import opened Text
  import opened Timestamps
  import opened Entities
  import opened Store
  import opened ProductUtils
  import opened ProductService
  import opened UserProductService

  /** `access_token.get("userId")` on a request whose token decoded to None. */
  const NoClaims: string := "AttributeError: 'NoneType' object has no attribute 'get'"

  /** `datetime.utcnow() + timedelta(seconds=20)` past the last representable instant. */
  const ExpiryOverflow: string := "OverflowError: date value out of range"

  /** `quantity` is NOT NULL, so a row with a null quantity cannot be committed. */
  const NullQuantity: string := "IntegrityError: NOT NULL constraint failed: userProducts.quantity"

  const AllFieldsRequired: string := "All fields are required: name, quantity, and expiryDate."

  function NotInWarehouse(name: string): string {
    "Product '" + name + "' does not exist in warehouse. Please add it first."
  }

  /** `AddUserProductRequest`: the fields the handler reads; category, expiryDate and isScannedProduct are ignored. */
  datatype AddUserProductRequest = AddUserProductRequest(name: Option<string>, quantity: Option<int>, notes: Option<string>)

  datatype AddReply = AddReply(productId: Id, name: string, quantity: int, expiryDate: string)

  /** The expiry date the handler stores whatever the client sent: twenty seconds after `now`. */
  function ExpiryFrom(now: DateTime): Option<DateTime>
    requires Valid(now)
  {
    AddSeconds(now, 20)
  }

  /** Every guard of `add_user_product` passes. */
  predicate Admitted(users: seq<User>, products: seq<CatalogProduct>, state: Option<Claims>,
                     req: AddUserProductRequest, now: DateTime)
    requires Valid(now)
  {
    && state.Some? && ExpiryFrom(now).Some?
    && UserExists(users, state.value.userId)
    && TruthyText(req.name)
    && FindByName(products, req.name.value).Some?
    && req.quantity.Some?
  }

  /**
   * `add_user_product`.  The guards run in this order: no decoded token,
   * the expiry computation, the user, the name, the catalog product, and
   * (at commit) the quantity; only a request passing all of them adds a row.
   */
  method AddUserProduct(db: Db, state: Option<Claims>, req: AddUserProductRequest, now: DateTime, stamp: string)
    returns (r: Result<AddReply>)
    requires db.Valid() && Valid(now)
    modifies db`rows, db`nextId
    ensures db.Valid()
    ensures r.Ok? <==> Admitted(old(db.users), old(db.products), state, req, now)
    ensures r.Err? ==> db.rows == old(db.rows)
    ensures state.None? ==> r == Err(Crash(NoClaims))
    ensures state.Some? && ExpiryFrom(now).None? ==> r == Err(Crash(ExpiryOverflow))
    ensures state.Some? && ExpiryFrom(now).Some? && !UserExists(db.users, state.value.userId) ==>
      r == Err(Http(404, UnknownUser))
    ensures state.Some? && ExpiryFrom(now).Some? && UserExists(db.users, state.value.userId) && !TruthyText(req.name) ==>
      r == Err(Http(400, AllFieldsRequired))
    ensures state.Some? && ExpiryFrom(now).Some? && UserExists(db.users, state.value.userId) && TruthyText(req.name)
            && FindByName(db.products, req.name.value).None? ==>
      r == Err(Http(404, NotInWarehouse(req.name.value)))
    ensures state.Some? && ExpiryFrom(now).Some? && UserExists(db.users, state.value.userId) && TruthyText(req.name)
            && FindByName(db.products, req.name.value).Some? && req.quantity.None? ==>
      r == Err(Crash(NullQuantity))
    ensures r.Ok? ==>
      var pid := db.products[FindByName(db.products, req.name.value).value].id;
      var expiry := IsoFormat(ExpiryFrom(now).value);
      var notes := if TruthyText(req.notes) then req.notes.value else "";
      && db.rows == old(db.rows) + [NewRow(old(db.nextId), state.value.userId.value, pid, req.quantity.value, expiry, notes, stamp)]
      && r.value == AddReply(pid, Title(req.name.value), req.quantity.value, expiry)
  {
    if state.None? {
      return Err(Crash(NoClaims));
    }
    var user := state.value.userId;
    var expiry := ExpiryFrom(now);
    if expiry.None? {
      return Err(Crash(ExpiryOverflow));
    }
    var expiryDate := IsoFormat(expiry.value);
    var notes := if TruthyText(req.notes) then req.notes.value else "";
    if !UserExists(db.users, user) {
      return Err(Http(404, UnknownUser));
    }
    if !TruthyText(req.name) {
      return Err(Http(400, AllFieldsRequired));
    }
    var name := req.name.value;
    var found := FindByName(db.products, name);
    if found.None? {
      return Err(Http(404, NotInWarehouse(name)));
    }
    var productId := db.products[found.value].id;
    if req.quantity.None? {
      return Err(Crash(NullQuantity));
    }
    var row := AddRow(db, user.value, productId, req.quantity.value, expiryDate, notes, stamp);
    r := Ok(AddReply(productId, Title(name), req.quantity.value, expiryDate));
  }

  /**
   * A row the add route stores is picked by the expiry scanner at time `u`
   * exactly when `u` is later than twenty seconds after its creation; in
   * particular a scan at the creation instant leaves it alone.
   */
  lemma AddedRowExpiresAfterTwentySeconds(now: DateTime, u: DateTime, row: InventoryRow)
    requires Valid(now) && Valid(u) && ExpiryFrom(now).Some?
    requires row.status == Active && row.expiryDate == IsoFormat(ExpiryFrom(now).value)
    ensures IsDue(row, IsoFormat(u)) <==> Before(ExpiryFrom(now).value, u)
    ensures !IsDue(row, IsoFormat(now))
  {
    var expiry := ExpiryFrom(now).value;
    IsoFormatOrder(expiry, u);
    IsoFormatOrder(expiry, now);
    IsoFormatOrder(now, expiry);
    LexLessAsymmetric(IsoFormat(now), IsoFormat(expiry));
  }

  // ---------------------------------------------------------------- get_user_products

  /** The nutrition keys the inventory routes copy, in the order they read them. */
  const InventoryNutritionKeys: seq<string> := ["protein", "carbohydrate", "fat", "fiber", "calories"]

  /** `get_user_products`: the caller's rows in store order, each listed as the service lists it. */
  method GetUserProducts(db: Db, state: Option<Claims>) returns (r: Result<seq<Entry>>)
    ensures state.None? ==> r == Err(Crash(NoClaims))
    ensures state.Some? ==>
      r == EntriesOf(OwnedRows(db.rows, state.value.userId), db.products, db.nutrition,
                     NutritionModelColumns, InventoryNutritionKeys)
  {
    if state.None? {
      return Err(Crash(NoClaims));
    }
    var owned := OwnedRows(db.rows, state.value.userId);
    r := ListEntries(db, owned, NutritionModelColumns, InventoryNutritionKeys);
  }

  /** "fat" is not a column of the `Nutrition` class the router imports. */
  lemma FatUndeclared()
    ensures InventoryNutritionKeys[2] == "fat" && "fat" !in NutritionModelColumns
  {
    assert |"fat"| == 3;
  }

  /**
   * As written, the inventory listing fails exactly when one of the listed
   * rows references a catalog product that has a nutrition row; otherwise
   * it lists every row with null nutrition.
   */
  lemma InventoryListingFails(rows: seq<InventoryRow>, products: seq<CatalogProduct>, nutrition: seq<NutritionRow>)
    ensures var r := EntriesOf(rows, products, nutrition, NutritionModelColumns, InventoryNutritionKeys);
      && (r.Ok? <==> forall i :: 0 <= i < |rows| ==> !HasNutrition(rows[i], products, nutrition))
      && (r.Ok? ==> |r.value| == |rows| && forall i :: 0 <= i < |rows| ==> r.value[i].nutrition.None?)
  {
    FatUndeclared();
    EntriesOfAt(rows, products, nutrition, NutritionModelColumns, InventoryNutritionKeys);
  }

  /** The nutrition row of the row's catalog product, when both exist. */
  function NutritionRowOf(row: InventoryRow, products: seq<CatalogProduct>, nutrition: seq<NutritionRow>)
    : Option<NutritionRow>
  {
    match FindProduct(products, row.productId)
    case None => None
    case Some(k) =>
      match FindNutrition(nutrition, products[k].nutritionId)
      case None => None
      case Some(n) => Some(nutrition[n])
  }

  /** The row's catalog product exists and has a nutrition row. */
  predicate HasNutrition(row: InventoryRow, products: seq<CatalogProduct>, nutrition: seq<NutritionRow>) {
    NutritionRowOf(row, products, nutrition).Some?
  }

  /** The columns the inventory routes evidently expect: those of the nutrition table plus fat and calories. */
  const InventoryNutritionColumns: set<string> := NutritionModelColumns + {"fat", "calories"}

  /**
   * The listing the route evidently intends: with `fat` and `calories`
   * declared it never fails, and a row with a nutrition row lists exactly
   * the five keys, each with the value stored in that row (null for a
   * column never written).
   */
  lemma IntendedInventoryListing(rows: seq<InventoryRow>, products: seq<CatalogProduct>, nutrition: seq<NutritionRow>)
    ensures var r := EntriesOf(rows, products, nutrition, InventoryNutritionColumns, InventoryNutritionKeys);
      && r.Ok? && |r.value| == |rows|
      && (forall i :: 0 <= i < |rows| ==> (r.value[i].nutrition.Some? <==> HasNutrition(rows[i], products, nutrition)))
      && (forall i, k :: 0 <= i < |rows| && r.value[i].nutrition.Some? ==>
            (k in r.value[i].nutrition.value <==> k in InventoryNutritionKeys))
      && (forall i :: 0 <= i < |rows| && r.value[i].nutrition.Some? ==>
            var n := NutritionRowOf(rows[i], products, nutrition).value;
            forall k :: k in r.value[i].nutrition.value ==>
              r.value[i].nutrition.value[k] == if k in n.columns then n.columns[k] else JNull)
  {
    var keys := InventoryNutritionKeys;
    DeclaredKeysNeverFail(rows, products, nutrition, InventoryNutritionColumns, keys);
    EntriesOfAt(rows, products, nutrition, InventoryNutritionColumns, keys);
    forall i | 0 <= i < |rows|
      ensures var e := EntryFor(rows[i], products, nutrition, InventoryNutritionColumns, keys);
        e.Ok? && e.value.nutrition.Some? ==> HasNutrition(rows[i], products, nutrition)
    {
      EntryNutrition(rows[i], products, nutrition, InventoryNutritionColumns, keys);
    }
  }

  // ---------------------------------------------------------------- update / delete

  /** `update_user_product`: the service's update for the caller, with the same guards and messages. */
  method UpdateUserProduct(db: Db, state: Option<Claims>, productId: Id, req: UpdateRequest, now: string)
    returns (r: Result<UpdateReply>)
    modifies db`rows
    ensures state.None? ==> r == Err(Crash(NoClaims)) && db.rows == old(db.rows)
    ensures state.Some? ==>
      match UpdateTarget(old(db.rows), state.value.userId, productId, req)
      case Err(f) => r == Err(f) && db.rows == old(db.rows)
      case Ok(k) =>
        var row := Revised(old(db.rows)[k], req, now);
        && db.rows == old(db.rows)[k := row]
        && r == Ok(UpdateReply(row.productId, row.quantity, row.expiryDate, row.notes))
  {
    if state.None? {
      return Err(Crash(NoClaims));
    }
    r := UpdateUserProductData(db, state.value.userId, productId, req, now);
  }

  /** `delete_user_product`: the service's delete for the caller. */
  method DeleteUserProduct(db: Db, state: Option<Claims>, productId: Id) returns (r: Result<string>)
    modifies db`rows
    ensures state.None? ==> r == Err(Crash(NoClaims)) && db.rows == old(db.rows)
    ensures state.Some? && FindUserProduct(old(db.rows), state.value.userId, productId).None? ==>
      r == Err(Http(404, NotInInventory(productId))) && db.rows == old(db.rows)
    ensures state.Some? && FindUserProduct(old(db.rows), state.value.userId, productId).Some? ==>
      var k := FindUserProduct(old(db.rows), state.value.userId, productId).value;
      && r == Ok("Product removed from user inventory successfully.")
      && db.rows == old(db.rows)[..k] + old(db.rows)[k + 1..]
  {
    if state.None? {
      return Err(Crash(NoClaims));
    }
    r := DeleteUserProductData(db, state.value.userId, productId);
  }

  // ---------------------------------------------------------------- get_product_by_barcode

  /** `query(Product).filter(Product.barcode == barcode).first()` */
  function FindByBarcode(products: seq<CatalogProduct>, barcode: string): (r: Option<nat>)
    ensures r.Some? ==> r.value < |products| && products[r.value].barcode == barcode
    ensures r.Some? ==> forall i :: 0 <= i < r.value ==> products[i].barcode != barcode
    ensures r.None? <==> forall i :: 0 <= i < |products| ==> products[i].barcode != barcode
  {
    FirstIndex(products, (p: CatalogProduct) => p.barcode == barcode)
  }

  datatype BarcodeReply = BarcodeReply(productName: string, category: string, nutrition: map<string, JsonValue>)

  const ProductNotFound: string := "Product not found."

  /** `nutrition if nutrition else {}` when no nutrition row was found and `nutrition` was never assigned. */
  const UnboundNutrition: string := "UnboundLocalError: local variable 'nutrition' referenced before assignment"

  /**
   * `get_product_by_barcode` as written: the nutrition row is read through
   * a class with the given columns, and `nutrition` is only assigned when a
   * nutrition row was found.
   */
  function GetProductByBarcode(products: seq<CatalogProduct>, nutrition: seq<NutritionRow>, schema: set<string>,
                               barcode: string): (r: Result<BarcodeReply>)
    ensures r.IsHttp(404) <==> FindByBarcode(products, barcode).None?
    ensures r.Ok? ==>
      var p := products[FindByBarcode(products, barcode).value];
      r.value.productName == p.name && r.value.category == p.category
  {
    match FindByBarcode(products, barcode)
    case None => Err(Http(404, ProductNotFound))
    case Some(k) =>
      var p := products[k];
      match FindNutrition(nutrition, p.nutritionId)
      case None => Err(Crash(UnboundNutrition))
      case Some(n) =>
        match NutritionDict(nutrition[n], schema, InventoryNutritionKeys)
        case Err(f) => Err(f)
        case Ok(d) => Ok(BarcodeReply(p.name, p.category, d))
  }

  /**
   * With the `Nutrition` class the router imports, a barcode that names a
   * product never gets an answer: it fails on `fat`, or on the unassigned
   * `nutrition` when the product has no nutrition row.
   */
  lemma BarcodeLookupAlwaysFails(products: seq<CatalogProduct>, nutrition: seq<NutritionRow>, barcode: string)
    ensures GetProductByBarcode(products, nutrition, NutritionModelColumns, barcode).Err?
    ensures FindByBarcode(products, barcode).Some? ==>
      GetProductByBarcode(products, nutrition, NutritionModelColumns, barcode).failure.Crash?
  {
    FatUndeclared();
  }

  /**
   * The lookup the route evidently intends: 404 for an unknown barcode,
   * otherwise the product's name and category with its five nutrition
   * values, or an empty object when it has no nutrition row.
   */
  function LookupByBarcode(products: seq<CatalogProduct>, nutrition: seq<NutritionRow>, barcode: string)
    : (r: Result<BarcodeReply>)
    ensures FindByBarcode(products, barcode).None? ==> r == Err(Http(404, ProductNotFound))
    ensures r.Ok? ==> r.value.productName == products[FindByBarcode(products, barcode).value].name
  {
    match FindByBarcode(products, barcode)
    case None => Err(Http(404, ProductNotFound))
    case Some(k) =>
      var p := products[k];
      match FindNutrition(nutrition, p.nutritionId)
      case None => Ok(BarcodeReply(p.name, p.category, map[]))
      case Some(n) =>
        match NutritionDict(nutrition[n], InventoryNutritionColumns, InventoryNutritionKeys)
        case Err(f) => Err(f)
        case Ok(d) => Ok(BarcodeReply(p.name, p.category, d))
  }

  lemma LookupByBarcodeAnswers(products: seq<CatalogProduct>, nutrition: seq<NutritionRow>, barcode: string)
    ensures var r := LookupByBarcode(products, nutrition, barcode);
      && (r.Err? <==> FindByBarcode(products, barcode).None?)
      && (r.Err? ==> r == Err(Http(404, ProductNotFound)))
      && (r.Ok? ==>
            var p := products[FindByBarcode(products, barcode).value];
            && r.value.productName == p.name && r.value.category == p.category
            && (r.value.nutrition == map[] <==> FindNutrition(nutrition, p.nutritionId).None?)
            && (FindNutrition(nutrition, p.nutritionId).Some? ==>
                  forall key :: key in r.value.nutrition <==> key in InventoryNutritionKeys)
            && (FindNutrition(nutrition, p.nutritionId).Some? ==>
                  var n := nutrition[FindNutrition(nutrition, p.nutritionId).value];
                  forall key :: key in r.value.nutrition ==>
                    r.value.nutrition[key] == if key in n.columns then n.columns[key] else JNull))
  {
    match FindByBarcode(products, barcode)
    case None =>
    case Some(k) =>
      var p := products[k];
      match FindNutrition(nutrition, p.nutritionId)
      case None =>
      case Some(n) =>
        assert forall i :: 0 <= i < |InventoryNutritionKeys| ==> InventoryNutritionKeys[i] in InventoryNutritionColumns;
        var d := NutritionDict(nutrition[n], InventoryNutritionColumns, InventoryNutritionKeys).value;
        assert "protein" in d;
  }
}
