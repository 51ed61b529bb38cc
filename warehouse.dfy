/**
 * app/routers/warehouse.py: the shared product catalog.  Adding a product
 * stores a nutrition row built from the nutrition API's first result and
 * then the product; the catalog can be listed with a name filter, updated
 * and deleted together with the inventory rows that reference it.
 *
 * The nutrition API (`fetch_nutrition`) is a parameter: the list of result
 * objects it returns.  `generate_product_barcode` needs the hash function
 * `sha`; clock readings are parameters.
 */
module Warehouse {
  import opened Wrappers
  import opened Text
  import opened Entities
  import opened Store
  import opened ProductUtils
  import NutritionUtils
  import opened UserProductService

  const NoClaims: string := "AttributeError: 'NoneType' object has no attribute 'get'"
  const AllFieldsRequired: string := "All fields are required: productName, userId, and expiryDate."
  const NameTooShort: string := "Product name must be at least 3 characters long."
  const NoApiResult: string := "IndexError: list index out of range"

  /** `AddProductRequest`; the optional barcode is never read. */
  datatype AddProductRequest = AddProductRequest(productName: string, category: string)

  datatype AddProductReply = AddProductReply(productId: Id, name: string)

  /** The keyword arguments `Nutrition(**nutrition_data)` receives, in order. */
  const NutritionKwargs: seq<string> := ["protein", "carbohydrate", "fat", "fiber", "calories", "addedAt"]

  /** `nutrition_data`: the five nutrient values and the time of the add, under the constructor's keywords. */
  function NutritionData(protein: JsonValue, carbohydrate: JsonValue, fat: JsonValue, fiber: JsonValue,
                         calories: JsonValue, addedAt: string): map<string, JsonValue>
  {
    map["protein" := protein, "carbohydrate" := carbohydrate, "fat" := fat, "fiber" := fiber,
        "calories" := calories, "addedAt" := JString(addedAt)]
  }

  /** Each nutrient is `check_nutrition_exists` of its key in the first API result. */
  function ApiNutrition(food: map<string, JsonValue>, stamp: string): map<string, JsonValue> {
    NutritionData(
      NutritionUtils.CheckNutritionExists("protein_g", food),
      NutritionUtils.CheckNutritionExists("carbohydrates_total_g", food),
      NutritionUtils.CheckNutritionExists("fat_total_g", food),
      NutritionUtils.CheckNutritionExists("fiber_g", food),
      NutritionUtils.CheckNutritionExists("calories", food),
      stamp)
  }

  /** The row holds exactly the constructor's keywords, each with its own value. */
  lemma NutritionDataShape(protein: JsonValue, carbohydrate: JsonValue, fat: JsonValue, fiber: JsonValue,
                           calories: JsonValue, addedAt: string)
    ensures var r := NutritionData(protein, carbohydrate, fat, fiber, calories, addedAt);
      && (forall k :: k in r <==> k in NutritionKwargs)
      && r["protein"] == protein && r["carbohydrate"] == carbohydrate && r["fat"] == fat
      && r["fiber"] == fiber && r["calories"] == calories && r["addedAt"] == JString(addedAt)
  {
  }

  /**
   * A mapped class's constructor: the TypeError of the first keyword that
   * is not one of its columns.
   */
  function FirstUndeclared(schema: set<string>, kwargs: seq<string>): (r: Option<string>)
    ensures r.None? <==> forall i :: 0 <= i < |kwargs| ==> kwargs[i] in schema
    ensures r.Some? ==> r.value in kwargs && r.value !in schema
  {
    if kwargs == [] then None
    else if kwargs[0] !in schema then Some(kwargs[0])
    else FirstUndeclared(schema, kwargs[1..])
  }

  function InvalidKeyword(key: string): string {
    "TypeError: '" + key + "' is an invalid keyword argument for Nutrition"
  }

  /**
   * A NOT NULL column without a default that the new row leaves unset or
   * null: committing such a row raises an IntegrityError.
   */
  predicate MissesRequired(required: set<string>, data: map<string, JsonValue>) {
    exists c :: c in required && (c !in data || data[c] == JNull)
  }

  const NullColumn: string := "IntegrityError: a NOT NULL column of the nutrition row has no value"

  /** `product_barcode if product_barcode else "N/A"` */
  function StoredBarcode(name: string, sha: string -> Digest): (r: string)
    ensures r == Barcode(name, sha)
  {
    var code := Barcode(name, sha);
    BarcodeNeverEmpty(name, sha);
    if code != "" then code else "N/A"
  }

  /** The guards of `add_product` before the nutrition API is called, in the handler's order. */
  function AddGuard(users: seq<User>, state: Option<Claims>, req: AddProductRequest): (r: Result<Id>)
    ensures r.Ok? <==> state.Some? && req.productName != "" && |req.productName| >= 3
                       && UserExists(users, state.value.userId)
    ensures r.Ok? ==> state.value.userId == Some(r.value)
    ensures state.Some? && (req.productName == "" || state.value.userId.None?) ==> r == Err(Http(400, AllFieldsRequired))
    ensures state.Some? && req.productName != "" && state.value.userId.Some? && |req.productName| < 3 ==>
      r == Err(Http(400, NameTooShort))
    ensures state.Some? && |req.productName| >= 3 && state.value.userId.Some? && !UserExists(users, state.value.userId) ==>
      r == Err(Http(404, UnknownUser))
  {
    if state.None? then Err(Crash(NoClaims))
    else if req.productName == "" || state.value.userId.None? then Err(Http(400, AllFieldsRequired))
    else if |req.productName| < 3 then Err(Http(400, NameTooShort))
    else if !UserExists(users, state.value.userId) then Err(Http(404, UnknownUser))
    else Ok(state.value.userId.value)
  }

  /**
   * `add_product`, where `schema` is the column set of the `Nutrition`
   * class the router imports and `required` its NOT NULL columns without a
   * default: the guards, the first API result, the nutrition row (built,
   * then committed), then the product referencing it.
   */
  method AddProduct(db: Db, state: Option<Claims>, req: AddProductRequest, api: seq<map<string, JsonValue>>,
                    sha: string -> Digest, schema: set<string>, required: set<string>, stamp: string)
    returns (r: Result<AddProductReply>)
    requires db.Valid()
    modifies db`nutrition, db`products, db`nextId
    ensures db.Valid()
    ensures AddGuard(old(db.users), state, req).Err? ==>
      r == Err(AddGuard(old(db.users), state, req).failure) && unchanged(db)
    ensures AddGuard(old(db.users), state, req).Ok? && api == [] ==> r == Err(Crash(NoApiResult)) && unchanged(db)
    ensures AddGuard(old(db.users), state, req).Ok? && api != [] && FirstUndeclared(schema, NutritionKwargs).Some? ==>
      r == Err(Crash(InvalidKeyword(FirstUndeclared(schema, NutritionKwargs).value))) && unchanged(db)
    ensures AddGuard(old(db.users), state, req).Ok? && api != [] && FirstUndeclared(schema, NutritionKwargs).None?
            && MissesRequired(required, ApiNutrition(api[0], stamp)) ==>
      r == Err(Crash(NullColumn)) && unchanged(db)
    ensures r.Ok? <==>
      AddGuard(old(db.users), state, req).Ok? && api != [] && FirstUndeclared(schema, NutritionKwargs).None?
      && !MissesRequired(required, ApiNutrition(api[0], stamp))
    ensures r.Ok? ==>
      var nid := old(db.nextId);
      && db.nutrition == old(db.nutrition) + [NutritionRow(nid, ApiNutrition(api[0], stamp))]
      && db.products == old(db.products) +
           [CatalogProduct(nid + 1, req.productName, req.category, Barcode(req.productName, sha), Some(nid), stamp, None)]
      && r.value == AddProductReply(nid + 1, Title(req.productName))
  {
    var barcode := StoredBarcode(req.productName, sha);
    var guard := AddGuard(db.users, state, req);
    if guard.Err? {
      return Err(guard.failure);
    }
    if api == [] {
      return Err(Crash(NoApiResult));
    }
    var data := ApiNutrition(api[0], stamp);
    var undeclared := FirstUndeclared(schema, NutritionKwargs);
    if undeclared.Some? {
      return Err(Crash(InvalidKeyword(undeclared.value)));
    }
    if MissesRequired(required, data) {
      return Err(Crash(NullColumn));
    }
    var pid := StoreProduct(db, data, req.productName, req.category, barcode, stamp);
    r := Ok(AddProductReply(pid, Title(req.productName)));
  }

  /** The two commits of `add_product`: the nutrition row, then the product referencing it. */
  method StoreProduct(db: Db, data: map<string, JsonValue>, name: string, category: string, barcode: string,
                      stamp: string)
    returns (pid: Id)
    requires db.Valid()
    modifies db`nutrition, db`products, db`nextId
    ensures db.Valid()
    ensures pid == old(db.nextId) + 1 && db.nextId == pid + 1
    ensures db.nutrition == old(db.nutrition) + [NutritionRow(old(db.nextId), data)]
    ensures db.products == old(db.products) + [CatalogProduct(pid, name, category, barcode, Some(old(db.nextId)), stamp, None)]
  {
    var nid := db.NewId();
    db.nutrition := db.nutrition + [NutritionRow(nid, data)];
    pid := db.NewId();
    db.products := db.products + [CatalogProduct(pid, name, category, barcode, Some(nid), stamp, None)];
  }

  /**
   * With the `Nutrition` class the router imports, which has no `fat`
   * column, the constructor always raises: no request ever adds a product.
   */
  lemma AddProductNeverSucceeds()
    ensures FirstUndeclared(NutritionModelColumns, NutritionKwargs) == Some("fat")
  {
    var rest := NutritionKwargs[2..];
    assert rest[0] == "fat" && |"fat"| == 3;
    assert FirstUndeclared(NutritionModelColumns, rest) == Some("fat");
    assert NutritionKwargs[1..][1..] == rest;
    assert NutritionKwargs[0] in NutritionModelColumns && NutritionKwargs[1] in NutritionModelColumns;
  }

  /** The NOT NULL columns of the nutritions table: all but the defaulted id. */
  const NutritionModelRequired: set<string> := NutritionModelColumns - {"id"}

  /**
   * Declaring `fat` and `calories` on that class would not be enough: the
   * row the route builds leaves `energy_kcal` (and nine other NOT NULL
   * columns) unset, so its commit raises whatever the API returned.
   */
  lemma WiderClassStillFails(food: map<string, JsonValue>, stamp: string)
    ensures FirstUndeclared(NutritionModelColumns + {"fat", "calories"}, NutritionKwargs).None?
    ensures MissesRequired(NutritionModelRequired, ApiNutrition(food, stamp))
  {
    assert "energy_kcal" in NutritionModelRequired && "energy_kcal" !in ApiNutrition(food, stamp);
  }

  /**
   * The nutrition table the add route evidently writes: exactly its own
   * keywords (the table of app/models/nutrition.py with an `addedAt`
   * column), every one of them NOT NULL.
   */
  const IntendedNutritionRequired: set<string> := {"protein", "carbohydrate", "fat", "fiber", "calories", "addedAt"}
  const IntendedNutritionColumns: set<string> := IntendedNutritionRequired + {"id"}

  /**
   * With that table, every request that passes the guards and gets an API
   * result without null nutrient values stores its nutrition row and its
   * product, whose barcode reads back as the normalised name's prefix and
   * hash.
   */
  lemma IntendedAddProduct(name: string, sha: string -> Digest, food: map<string, JsonValue>, stamp: string)
    requires forall k :: k in food && food[k] == JNull ==>
      k != "protein_g" && k != "carbohydrates_total_g" && k != "fat_total_g" && k != "fiber_g" && k != "calories"
    ensures FirstUndeclared(IntendedNutritionColumns, NutritionKwargs).None?
    ensures !MissesRequired(IntendedNutritionRequired, ApiNutrition(food, stamp))
    ensures ParseBarcode(Barcode(name, sha)) == Some((Take(Normalize(name), 3), sha(Normalize(name))[..8]))
  {
    BarcodeParts(name, sha);
    IntendedRowComplete(food, stamp);
  }

  lemma IntendedRowComplete(food: map<string, JsonValue>, stamp: string)
    requires forall k :: k in food && food[k] == JNull ==>
      k != "protein_g" && k != "carbohydrates_total_g" && k != "fat_total_g" && k != "fiber_g" && k != "calories"
    ensures !MissesRequired(IntendedNutritionRequired, ApiNutrition(food, stamp))
  {
    NutritionUtils.CheckNutritionExistsNotNull("protein_g", food);
    NutritionUtils.CheckNutritionExistsNotNull("carbohydrates_total_g", food);
    NutritionUtils.CheckNutritionExistsNotNull("fat_total_g", food);
    NutritionUtils.CheckNutritionExistsNotNull("fiber_g", food);
    NutritionUtils.CheckNutritionExistsNotNull("calories", food);
    NoNullNutrient(NutritionUtils.CheckNutritionExists("protein_g", food),
                   NutritionUtils.CheckNutritionExists("carbohydrates_total_g", food),
                   NutritionUtils.CheckNutritionExists("fat_total_g", food),
                   NutritionUtils.CheckNutritionExists("fiber_g", food),
                   NutritionUtils.CheckNutritionExists("calories", food), stamp);
  }

  /** A row whose five nutrients are all non-null sets every required column. */
  lemma NoNullNutrient(protein: JsonValue, carbohydrate: JsonValue, fat: JsonValue, fiber: JsonValue,
                       calories: JsonValue, stamp: string)
    requires protein != JNull && carbohydrate != JNull && fat != JNull && fiber != JNull && calories != JNull
    ensures !MissesRequired(IntendedNutritionRequired, NutritionData(protein, carbohydrate, fat, fiber, calories, stamp))
  {
    NutritionDataShape(protein, carbohydrate, fat, fiber, calories, stamp);
    var data := NutritionData(protein, carbohydrate, fat, fiber, calories, stamp);
    forall c | c in IntendedNutritionRequired
      ensures c in data && data[c] != JNull
    {
      assert c in NutritionKwargs;
    }
  }

  /**
   * The same request with a null nutrient value from the API is refused at
   * the commit even with the intended table.
   */
  lemma IntendedAddProductNullValue(food: map<string, JsonValue>, stamp: string)
    requires "protein_g" in food && food["protein_g"] == JNull
    ensures MissesRequired(IntendedNutritionRequired, ApiNutrition(food, stamp))
  {
    NutritionUtils.CheckNutritionExistsNotNull("protein_g", food);
    assert "protein" in IntendedNutritionRequired && ApiNutrition(food, stamp)["protein"] == JNull;
  }

  // ---------------------------------------------------------------- get_products

  /** One listed catalog product. */
  datatype ListedProduct = ListedProduct(id: Id, name: string, category: string, barcode: string,
                                         nutrition: Option<map<string, JsonValue>>)

  /**
   * `Product.name.ilike(f"%{name}%")` when a name is given, else every
   * product.  The name is put into the pattern as it is, so a `%` or `_` in
   * it acts as a wildcard.
   */
  function Selected(products: seq<CatalogProduct>, name: Option<string>): (r: seq<CatalogProduct>)
    ensures !TruthyText(name) ==> r == products
    ensures TruthyText(name) ==> forall p :: p in r <==> p in products && ILike(p.name, "%" + name.value + "%")
  {
    if TruthyText(name) then Filter(products, (p: CatalogProduct) => ILike(p.name, "%" + name.value + "%"))
    else products
  }

  /** A name without wildcards selects exactly the products whose name contains it, ignoring case. */
  lemma SelectedByLiteral(products: seq<CatalogProduct>, name: string)
    requires name != [] && Literal(name)
    ensures forall p :: p in Selected(products, Some(name)) <==> p in products && ContainsIgnoringCase(p.name, name)
  {
    forall p | p in products {
      ILikeContains(p.name, name);
    }
  }

  /** The name "_" is a wildcard: it selects every product with a non-empty name. */
  lemma SelectedByUnderscore(products: seq<CatalogProduct>)
    ensures forall p :: p in Selected(products, Some("_")) <==> p in products && p.name != []
  {
    assert "%" + "_" + "%" == "%_%";
    forall p | p in products && p.name != [] {
      UnderscoreMatchesAny(p.name);
    }
    forall p | p in products && p.name == [] ensures !ILike(p.name, "%_%") {
      assert Lower(p.name) == [];
      assert Lower("%_%") == "%_%";
      assert "%_%"[1..] == "_%";
    }
  }

  /** `nutrition.protein` on the None a missing nutrition row gives. */
  const NoNutritionRow: string := "AttributeError: 'NoneType' object has no attribute 'protein'"

  /** The loop body of `get_products` for one product. */
  function ListedFor(p: CatalogProduct, nutrition: seq<NutritionRow>, schema: set<string>): (r: Result<ListedProduct>)
    ensures p.nutritionId.None? ==> r == Ok(ListedProduct(p.id, p.name, p.category, p.barcode, None))
    ensures p.nutritionId.Some? && FindNutrition(nutrition, p.nutritionId).None? ==> r == Err(Crash(NoNutritionRow))
    ensures r.Ok? ==> r.value.id == p.id && r.value.name == p.name && r.value.barcode == p.barcode
  {
    if p.nutritionId.None? then Ok(ListedProduct(p.id, p.name, p.category, p.barcode, None))
    else match FindNutrition(nutrition, p.nutritionId)
      case None => Err(Crash(NoNutritionRow))
      case Some(n) =>
        match NutritionDict(nutrition[n], schema, InventoryKeys)
        case Err(f) => Err(f)
        case Ok(d) => Ok(ListedProduct(p.id, p.name, p.category, p.barcode, Some(d)))
  }

  const InventoryKeys: seq<string> := ["protein", "carbohydrate", "fat", "fiber", "calories"]

  /** The listed products in order, or the first failure. */
  function ListingOf(products: seq<CatalogProduct>, nutrition: seq<NutritionRow>, schema: set<string>)
    : (r: Result<seq<ListedProduct>>)
    ensures r.Ok? ==> |r.value| == |products|
  {
    if products == [] then Ok([])
    else
      match ListingOf(products[..|products| - 1], nutrition, schema)
      case Err(f) => Err(f)
      case Ok(ls) =>
        match ListedFor(products[|products| - 1], nutrition, schema)
        case Err(f) => Err(f)
        case Ok(l) => Ok(ls + [l])
  }

  lemma {:induction false} ListingOfAt(products: seq<CatalogProduct>, nutrition: seq<NutritionRow>, schema: set<string>)
    ensures var r := ListingOf(products, nutrition, schema);
      && (r.Ok? <==> forall i :: 0 <= i < |products| ==> ListedFor(products[i], nutrition, schema).Ok?)
      && (r.Ok? ==> |r.value| == |products|)
      && (r.Ok? ==> forall i :: 0 <= i < |products| ==> r.value[i] == ListedFor(products[i], nutrition, schema).value)
  {
    if products != [] {
      var init := products[..|products| - 1];
      ListingOfAt(init, nutrition, schema);
      assert forall i :: 0 <= i < |init| ==> init[i] == products[i];
    }
  }

  lemma {:induction false} ListingOfFailedPrefix(products: seq<CatalogProduct>, n: nat, nutrition: seq<NutritionRow>,
                                                 schema: set<string>)
    requires n <= |products|
    requires ListingOf(products[..n], nutrition, schema).Err?
    ensures ListingOf(products, nutrition, schema) == ListingOf(products[..n], nutrition, schema)
    decreases |products| - n
  {
    if n < |products| {
      assert products[..n + 1][..n] == products[..n];
      ListingOfFailedPrefix(products, n + 1, nutrition, schema);
    } else {
      assert products[..n] == products;
    }
  }

  /** `get_products`; `schema` is the column set of the `Nutrition` class the router imports. */
  method GetProducts(db: Db, name: Option<string>, schema: set<string>) returns (r: Result<seq<ListedProduct>>)
    ensures r == ListingOf(Selected(db.products, name), db.nutrition, schema)
  {
    var products := Selected(db.products, name);
    var result: seq<ListedProduct> := [];
    var i := 0;
    while i < |products|
      invariant 0 <= i <= |products|
      invariant ListingOf(products[..i], db.nutrition, schema) == Ok(result)
    {
      assert products[..i + 1][..i] == products[..i];
      var listed := ListedFor(products[i], db.nutrition, schema);
      if listed.Err? {
        ListingOfFailedPrefix(products, i + 1, db.nutrition, schema);
        return Err(listed.failure);
      }
      result := result + [listed.value];
      i := i + 1;
    }
    assert products[..i] == products;
    r := Ok(result);
  }

  /**
   * With the `Nutrition` class the router imports, listing fails as soon as
   * one selected product has a nutrition id (a missing row, or the
   * undeclared `fat`); otherwise every selected product is listed, in
   * store order, with null nutrition.
   */
  lemma ListingFailsOnNutrition(products: seq<CatalogProduct>, nutrition: seq<NutritionRow>)
    ensures var r := ListingOf(products, nutrition, NutritionModelColumns);
      && (r.Ok? <==> forall i :: 0 <= i < |products| ==> products[i].nutritionId.None?)
      && (r.Ok? ==> |r.value| == |products| && forall i :: 0 <= i < |products| ==>
            r.value[i] == ListedProduct(products[i].id, products[i].name, products[i].category, products[i].barcode, None))
  {
    assert |"fat"| == 3;
    assert InventoryKeys[2] == "fat" && "fat" !in NutritionModelColumns;
    ListingOfAt(products, nutrition, NutritionModelColumns);
  }

  /**
   * With a `Nutrition` class that declares the five nutrient columns, listing
   * fails only on a product whose nutrition row is missing; otherwise every
   * selected product is listed in store order, a product with a nutrition id
   * with the stored values of exactly those five columns.
   */
  lemma IntendedListing(products: seq<CatalogProduct>, nutrition: seq<NutritionRow>)
    ensures var r := ListingOf(products, nutrition, IntendedNutritionColumns);
      && (r.Ok? <==> forall i :: 0 <= i < |products| ==>
            products[i].nutritionId.None? || FindNutrition(nutrition, products[i].nutritionId).Some?)
      && (r.Ok? ==> forall i :: 0 <= i < |products| ==>
            && r.value[i].id == products[i].id
            && r.value[i].category == products[i].category
            && (r.value[i].nutrition.None? <==> products[i].nutritionId.None?)
            && (r.value[i].nutrition.Some? ==> forall k :: k in r.value[i].nutrition.value <==> k in InventoryKeys)
            && (r.value[i].nutrition.Some? ==>
                  var row := nutrition[FindNutrition(nutrition, products[i].nutritionId).value];
                  forall k :: k in r.value[i].nutrition.value ==>
                    Ok(r.value[i].nutrition.value[k]) == Attr(row, IntendedNutritionColumns, k)))
  {
    assert forall i :: 0 <= i < |InventoryKeys| ==> InventoryKeys[i] in IntendedNutritionColumns;
    ListingOfAt(products, nutrition, IntendedNutritionColumns);
  }

  // ---------------------------------------------------------------- update_product

  /** `UpdateProductRequest` */
  datatype UpdateProductRequest = UpdateProductRequest(name: Option<string>, category: Option<string>,
                                                       barcode: Option<string>)

  datatype UpdateProductReply = UpdateProductReply(productId: Id, name: string)

  function NoSuchProduct(id: Id): string {
    "Product with ID " + DecimalText(id) + " does not exist."
  }

  const NullName: string := "AttributeError: 'NoneType' object has no attribute 'lower'"
  const NoProductChanges: string := "No changes detected. Please provide new values for name or category."

  /** The "no changes" rule as written: the same name ignoring case, or the same category. */
  predicate Unchanged(p: CatalogProduct, name: string, category: Option<string>) {
    Lower(p.name) == Lower(name) || category == Some(p.category)
  }

  /**
   * The guards of `update_product` in order; Ok carries the product's position.
   * The source's "Product ID mismatch" check (app/routers/warehouse.py:159-163)
   * has no branch here: the product was looked up by exact id equality, so its
   * id always equals the requested one and that check never fires.
   */
  function UpdateProductTarget(products: seq<CatalogProduct>, state: Option<Claims>, id: Id, req: UpdateProductRequest)
    : (r: Result<nat>)
    ensures r.Ok? ==> Some(r.value) == FindProduct(products, id)
    ensures state.Some? && FindProduct(products, id).None? ==> r == Err(Http(404, NoSuchProduct(id)))
    ensures state.Some? && FindProduct(products, id).Some? && req.name.None? ==> r == Err(Crash(NullName))
    ensures r.Ok? <==>
      && state.Some? && FindProduct(products, id).Some? && req.name.Some?
      && !Unchanged(products[FindProduct(products, id).value], req.name.value, req.category)
  {
    if state.None? then Err(Crash(NoClaims))
    else match FindProduct(products, id)
      case None => Err(Http(404, NoSuchProduct(id)))
      case Some(k) =>
        if req.name.None? then Err(Crash(NullName))
        else if Unchanged(products[k], req.name.value, req.category) then Err(Http(400, NoProductChanges))
        else Ok(k)
  }

  /**
   * Because the rule uses `or`, an update is accepted only when it changes
   * both the name (ignoring case) and the category: changing one of them
   * alone is refused as "no changes".
   */
  lemma UpdateNeedsBothChanged(products: seq<CatalogProduct>, state: Claims, id: Id, req: UpdateProductRequest)
    requires FindProduct(products, id).Some? && req.name.Some?
    ensures var p := products[FindProduct(products, id).value];
      UpdateProductTarget(products, Some(state), id, req).Ok? <==>
        Lower(p.name) != Lower(req.name.value) && req.category != Some(p.category)
    ensures var p := products[FindProduct(products, id).value];
      req.category == Some(p.category) ==> UpdateProductTarget(products, Some(state), id, req) == Err(Http(400, NoProductChanges))
  {
  }

  /** The product after the update: a falsy new value keeps the stored one. */
  function RevisedProduct(p: CatalogProduct, req: UpdateProductRequest, now: string): (r: CatalogProduct)
    ensures r.id == p.id && r.nutritionId == p.nutritionId && r.addedAt == p.addedAt && r.updatedAt == Some(now)
    ensures !TruthyText(req.category) ==> r.category == p.category
    ensures !TruthyText(req.barcode) ==> r.barcode == p.barcode
    ensures TruthyText(req.name) ==> r.name == Title(req.name.value)
  {
    p.(name := if TruthyText(req.name) then Title(req.name.value) else p.name,
       category := if TruthyText(req.category) then req.category.value else p.category,
       barcode := if TruthyText(req.barcode) then req.barcode.value else p.barcode,
       updatedAt := Some(now))
  }

  /** `update_product` */
  method UpdateProduct(db: Db, state: Option<Claims>, id: Id, req: UpdateProductRequest, now: string)
    returns (r: Result<UpdateProductReply>)
    modifies db`products
    ensures match UpdateProductTarget(old(db.products), state, id, req)
      case Err(f) => r == Err(f) && db.products == old(db.products)
      case Ok(k) =>
        var p := RevisedProduct(old(db.products)[k], req, now);
        && db.products == old(db.products)[k := p]
        && r == Ok(UpdateProductReply(p.id, Title(p.name)))
  {
    var target := UpdateProductTarget(db.products, state, id, req);
    if target.Err? {
      return Err(target.failure);
    }
    var k := target.value;
    var p := db.products[k];
    p := p.(name := if TruthyText(req.name) then Title(req.name.value) else p.name);
    p := p.(category := if TruthyText(req.category) then req.category.value else p.category);
    p := p.(barcode := if TruthyText(req.barcode) then req.barcode.value else p.barcode);
    p := p.(updatedAt := Some(now));
    db.products := db.products[k := p];
    r := Ok(UpdateProductReply(p.id, Title(p.name)));
  }

  // ---------------------------------------------------------------- delete_product

  /** The inventory rows that do not reference the product. */
  function RowsWithout(rows: seq<InventoryRow>, id: Id): seq<InventoryRow> {
    Filter(rows, (row: InventoryRow) => row.productId != id)
  }

  /** `delete_product`: every inventory row referencing the product goes, then the product. */
  method DeleteProduct(db: Db, state: Option<Claims>, id: Id) returns (r: Result<string>)
    modifies db`rows, db`products
    ensures state.None? ==> r == Err(Crash(NoClaims)) && unchanged(db)
    ensures state.Some? && FindProduct(old(db.products), id).None? ==>
      r == Err(Http(404, NoSuchProduct(id))) && unchanged(db)
    ensures state.Some? && FindProduct(old(db.products), id).Some? ==>
      var k := FindProduct(old(db.products), id).value;
      && r == Ok("Product deleted successfully")
      && db.rows == RowsWithout(old(db.rows), id)
      && db.products == old(db.products)[..k] + old(db.products)[k + 1..]
  {
    if state.None? {
      return Err(Crash(NoClaims));
    }
    var found := FindProduct(db.products, id);
    if found.None? {
      return Err(Http(404, NoSuchProduct(id)));
    }
    db.rows := RowsWithout(db.rows, id);
    var k := found.value;
    db.products := db.products[..k] + db.products[k + 1..];
    r := Ok("Product deleted successfully");
  }

  /**
   * The cascade: no remaining row references the product, every row that
   * did not reference it survives, and the count drops by the number of
   * rows that did.
   */
  lemma DeleteCascades(rows: seq<InventoryRow>, id: Id)
    ensures forall row :: row in RowsWithout(rows, id) ==> row.productId != id
    ensures forall row :: row in rows && row.productId != id ==> row in RowsWithout(rows, id)
    ensures |RowsWithout(rows, id)| == |rows| - Count(rows, (row: InventoryRow) => row.productId == id)
  {
    CountComplement(rows, id);
    FilterCount(rows, (row: InventoryRow) => row.productId != id);
  }

  lemma {:induction false} CountComplement(rows: seq<InventoryRow>, id: Id)
    ensures Count(rows, (row: InventoryRow) => row.productId != id) + Count(rows, (row: InventoryRow) => row.productId == id) == |rows|
  {
    if rows != [] {
      CountComplement(rows[1..], id);
    }
  }
}
