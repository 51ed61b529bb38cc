/**
 * app/routes/product.py: adding a product a user owns, with its nutrition
 * row, and listing the caller's products of one name.  The nutrition API
 * (`fetch_nutrition`) is a parameter: the list of results it returned.
 */
module ProductRoutes {
  import opened Wrappers
  import opened Text
  import opened Entities
  import opened Store
  import opened BackendStore
  import NutritionUtils

  // ---------------------------------------------------------------- add

  /** The request body, with the expiry date backend/app/schemas/product.py declares. */
  datatype AddRequest = AddRequest(productName: string, expiryDate: string)

  datatype AddReply = AddReply(message: string, productId: Id, name: string, expiryDate: string)

  const NoClaims: string := "AttributeError: 'NoneType' object has no attribute 'get'"
  const AllFieldsRequired: string := "All fields are required: productName, userId, and expiryDate."
  const NameTooShort: string := "Product name must be at least 3 characters long."
  const NoSuchUser: string := "User with the provided userId does not exist."
  const NoApiResult: string := "IndexError: list index out of range"
  /** The NOT NULL nutrient columns refuse a null value at commit. */
  const NullNutrient: string := "IntegrityError: Column cannot be null"
  const DefaultCategory: string := "Other"
  const ProductAdded: string := "Product added successfully"

  /** The guards of `add_product` before the nutrition API is called, in the handler's order. */
  function AddGuard(users: seq<User>, state: Option<Claims>, req: AddRequest): (r: Result<Id>)
    ensures state.None? ==> r == Err(Crash(NoClaims))
    ensures state.Some? && (req.productName == "" || state.value.userId.None? || req.expiryDate == "") ==>
      r == Err(Http(400, AllFieldsRequired))
    ensures (state.Some? && req.productName != "" && state.value.userId.Some? && req.expiryDate != ""
             && |req.productName| < 3) ==> r == Err(Http(400, NameTooShort))
    ensures (state.Some? && |req.productName| >= 3 && state.value.userId.Some? && req.expiryDate != ""
             && !UserExists(users, state.value.userId)) ==> r == Err(Http(404, NoSuchUser))
    ensures r.Ok? <==>
      && state.Some? && |req.productName| >= 3 && req.expiryDate != ""
      && UserExists(users, state.value.userId)
    ensures r.Ok? ==> state.value.userId == Some(r.value)
  {
    if state.None? then Err(Crash(NoClaims))
    else if req.productName == "" || state.value.userId.None? || req.expiryDate == "" then
      Err(Http(400, AllFieldsRequired))
    else if |req.productName| < 3 then Err(Http(400, NameTooShort))
    else if !UserExists(users, state.value.userId) then Err(Http(404, NoSuchUser))
    else Ok(state.value.userId.value)
  }

  /** The keyword arguments of the `Nutrition` constructor, all of them columns of app/models/nutrition.py. */
  const NutrientKeys: seq<string> := ["protein", "carbohydrate", "fat", "fiber", "calories"]

  /** `nutrition_data` with the five values given. */
  function Nutrients(protein: JsonValue, carbohydrate: JsonValue, fat: JsonValue, fiber: JsonValue,
                     calories: JsonValue): map<string, JsonValue>
  {
    map["protein" := protein, "carbohydrate" := carbohydrate, "fat" := fat, "fiber" := fiber, "calories" := calories]
  }

  /** `nutrition_data` from the first API result: each value sanitised under the API's own key. */
  function FoodNutrients(food: map<string, JsonValue>): map<string, JsonValue> {
    Nutrients(
      NutritionUtils.CheckNutritionExists("protein_g", food),
      NutritionUtils.CheckNutritionExists("carbohydrates_total_g", food),
      NutritionUtils.CheckNutritionExists("fat_total_g", food),
      NutritionUtils.CheckNutritionExists("fiber_g", food),
      NutritionUtils.CheckNutritionExists("calories", food))
  }

  /** The row holds exactly the five constructor keywords, each with its own value, and they are its columns. */
  lemma NutrientsShape(protein: JsonValue, carbohydrate: JsonValue, fat: JsonValue, fiber: JsonValue,
                       calories: JsonValue)
    ensures var r := Nutrients(protein, carbohydrate, fat, fiber, calories);
      && (forall k :: k in r <==> k in NutrientKeys)
      && (forall k :: k in r ==> k in NutritionColumns)
      && r["protein"] == protein && r["carbohydrate"] == carbohydrate && r["fat"] == fat
      && r["fiber"] == fiber && r["calories"] == calories
  {
  }

  predicate HasNull(data: map<string, JsonValue>) {
    exists k :: k in data && data[k] == JNull
  }

  /**
   * `add_product`: the guards, the first API result, the nutrition row,
   * then the product referencing it, owned by the caller, in category
   * "Other", with the client's expiry date.
   */
  method AddProduct(db: BackendDb, state: Option<Claims>, req: AddRequest, api: seq<map<string, JsonValue>>)
    returns (r: Result<AddReply>)
    requires db.Valid()
    modifies db`nutrition, db`products, db`nextId
    ensures db.Valid()
    ensures AddGuard(old(db.users), state, req).Err? ==>
      r == Err(AddGuard(old(db.users), state, req).failure) && unchanged(db)
    ensures AddGuard(old(db.users), state, req).Ok? && api == [] ==> r == Err(Crash(NoApiResult)) && unchanged(db)
    ensures AddGuard(old(db.users), state, req).Ok? && api != [] && HasNull(FoodNutrients(api[0])) ==>
      r == Err(Crash(NullNutrient)) && unchanged(db)
    ensures r.Ok? <==> AddGuard(old(db.users), state, req).Ok? && api != [] && !HasNull(FoodNutrients(api[0]))
    ensures r.Ok? ==>
      var nid := old(db.nextId);
      var uid := AddGuard(old(db.users), state, req).value;
      && db.nutrition == old(db.nutrition) + [NutritionRow(nid, FoodNutrients(api[0]))]
      && db.products == old(db.products) +
           [OwnedProduct(nid + 1, req.productName, DefaultCategory, uid, req.expiryDate, Some(nid))]
      && r.value == AddReply(ProductAdded, nid + 1, Title(req.productName), req.expiryDate)
  {
    var guard := AddGuard(db.users, state, req);
    if guard.Err? {
      return Err(guard.failure);
    }
    if api == [] {
      return Err(Crash(NoApiResult));
    }
    var data := FoodNutrients(api[0]);
    if HasNull(data) {
      return Err(Crash(NullNutrient));
    }
    var pid := StoreProduct(db, data, req.productName, guard.value, req.expiryDate);
    r := Ok(AddReply(ProductAdded, pid, Title(req.productName), req.expiryDate));
  }

  /** The two commits of `add_product`: the nutrition row, then the product referencing it. */
  method StoreProduct(db: BackendDb, data: map<string, JsonValue>, name: string, user: Id, expiryDate: string)
    returns (pid: Id)
    requires db.Valid()
    modifies db`nutrition, db`products, db`nextId
    ensures db.Valid()
    ensures pid == old(db.nextId) + 1 && db.nextId == pid + 1
    ensures db.nutrition == old(db.nutrition) + [NutritionRow(old(db.nextId), data)]
    ensures db.products == old(db.products) + [OwnedProduct(pid, name, DefaultCategory, user, expiryDate, Some(old(db.nextId)))]
  {
    var nid := db.NewId();
    db.nutrition := db.nutrition + [NutritionRow(nid, data)];
    pid := db.NewId();
    db.products := db.products + [OwnedProduct(pid, name, DefaultCategory, user, expiryDate, Some(nid))];
  }

  // ---------------------------------------------------------------- list

  const NoUserId: string := "Access token is missing or invalid."
  const NotSignedUp: string := "User doesn't exist. Please sign up first."
  const NoProductName: string :=
    "You haven't entered product name in query. Please provide 'productName' as a query parameter."
  const NoNutritionRow: string := "AttributeError: 'NoneType' object has no attribute 'protein'"

  datatype ListedProduct = ListedProduct(id: Id, name: string, expiryDate: string, category: string,
                                         nutrition: Option<map<string, JsonValue>>)

  /** The guards of `get_products`, in the handler's order; the product name on success. */
  function ListGuard(users: seq<User>, state: Option<Claims>, productName: Option<string>): (r: Result<(Id, string)>)
    ensures state.None? ==> r == Err(Crash(NoClaims))
    ensures state.Some? && state.value.userId.None? ==> r == Err(Http(401, NoUserId))
    ensures state.Some? && state.value.userId.Some? && !UserExists(users, state.value.userId) ==>
      r == Err(Http(404, NotSignedUp))
    ensures state.Some? && UserExists(users, state.value.userId) && (productName.None? || productName.value == "") ==>
      r == Err(Http(400, NoProductName))
    ensures r.Ok? <==>
      state.Some? && UserExists(users, state.value.userId) && productName.Some? && productName.value != ""
    ensures r.Ok? ==> r.value == (state.value.userId.value, productName.value)
  {
    if state.None? then Err(Crash(NoClaims))
    else if state.value.userId.None? then Err(Http(401, NoUserId))
    else if !UserExists(users, state.value.userId) then Err(Http(404, NotSignedUp))
    else if productName.None? || productName.value == "" then Err(Http(400, NoProductName))
    else Ok((state.value.userId.value, productName.value))
  }

  /** `filter(Product.name == product_name, Product.userId == user_id)` */
  function Owned(products: seq<OwnedProduct>, name: string, user: Id): (r: seq<OwnedProduct>)
    ensures forall p :: p in r <==> p in products && p.name == name && p.userId == user
  {
    Filter(products, (p: OwnedProduct) => p.name == name && p.userId == user)
  }

  /** The loop body of `get_products` for one product. */
  function ListedFor(p: OwnedProduct, nutrition: seq<NutritionRow>): (r: Result<ListedProduct>)
    ensures r.Ok? <==> p.nutritionId.None? || FindNutrition(nutrition, p.nutritionId).Some?
    ensures r.Err? ==> r.failure == Crash(NoNutritionRow)
    ensures r.Ok? ==> r.value.id == p.id && r.value.name == p.name && r.value.expiryDate == p.expiryDate
                      && r.value.category == p.category
    ensures r.Ok? ==> (r.value.nutrition.None? <==> p.nutritionId.None?)
    ensures r.Ok? && p.nutritionId.Some? ==>
      forall k :: k in r.value.nutrition.value <==> k in NutrientKeys
  {
    if p.nutritionId.None? then Ok(ListedProduct(p.id, p.name, p.expiryDate, p.category, None))
    else match FindNutrition(nutrition, p.nutritionId)
      case None => Err(Crash(NoNutritionRow))
      case Some(n) =>
        var d := NutritionDict(nutrition[n], NutritionColumns, NutrientKeys);
        assert d.Ok?;
        Ok(ListedProduct(p.id, p.name, p.expiryDate, p.category, Some(d.value)))
  }

  /** The listed products in order, or the first failure. */
  function ListingOf(products: seq<OwnedProduct>, nutrition: seq<NutritionRow>): (r: Result<seq<ListedProduct>>)
    ensures r.Ok? ==> |r.value| == |products|
  {
    if products == [] then Ok([])
    else
      match ListingOf(products[..|products| - 1], nutrition)
      case Err(f) => Err(f)
      case Ok(ls) =>
        match ListedFor(products[|products| - 1], nutrition)
        case Err(f) => Err(f)
        case Ok(l) => Ok(ls + [l])
  }

  lemma {:induction false} ListingOfAt(products: seq<OwnedProduct>, nutrition: seq<NutritionRow>)
    ensures var r := ListingOf(products, nutrition);
      && (r.Ok? <==> forall i :: 0 <= i < |products| ==> ListedFor(products[i], nutrition).Ok?)
      && (r.Ok? ==> |r.value| == |products|)
      && (r.Ok? ==> forall i :: 0 <= i < |products| ==> r.value[i] == ListedFor(products[i], nutrition).value)
  {
    if products != [] {
      var init := products[..|products| - 1];
      ListingOfAt(init, nutrition);
      assert forall i :: 0 <= i < |init| ==> init[i] == products[i];
    }
  }

  lemma {:induction false} ListingOfFailedPrefix(products: seq<OwnedProduct>, n: nat, nutrition: seq<NutritionRow>)
    requires n <= |products|
    requires ListingOf(products[..n], nutrition).Err?
    ensures ListingOf(products, nutrition) == ListingOf(products[..n], nutrition)
    decreases |products| - n
  {
    if n < |products| {
      assert products[..n + 1][..n] == products[..n];
      ListingOfFailedPrefix(products, n + 1, nutrition);
    } else {
      assert products[..n] == products;
    }
  }

  /** `get_products` */
  method GetProducts(db: BackendDb, state: Option<Claims>, productName: Option<string>)
    returns (r: Result<seq<ListedProduct>>)
    ensures ListGuard(db.users, state, productName).Err? ==> r == Err(ListGuard(db.users, state, productName).failure)
    ensures ListGuard(db.users, state, productName).Ok? ==>
      var (user, name) := ListGuard(db.users, state, productName).value;
      r == ListingOf(Owned(db.products, name, user), db.nutrition)
  {
    var guard := ListGuard(db.users, state, productName);
    if guard.Err? {
      return Err(guard.failure);
    }
    var products := Owned(db.products, guard.value.1, guard.value.0);
    var result: seq<ListedProduct> := [];
    var i := 0;
    while i < |products|
      invariant 0 <= i <= |products|
      invariant ListingOf(products[..i], db.nutrition) == Ok(result)
    {
      assert products[..i + 1][..i] == products[..i];
      var listed := ListedFor(products[i], db.nutrition);
      if listed.Err? {
        ListingOfFailedPrefix(products, i + 1, db.nutrition);
        return Err(listed.failure);
      }
      result := result + [listed.value];
      i := i + 1;
    }
    assert products[..i] == products;
    r := Ok(result);
  }

  /**
   * A listing shows only the caller's products with exactly the asked-for
   * name, one entry per such product; it fails only on a product whose
   * nutrition row is missing.
   */
  lemma ListingShowsOwnProducts(products: seq<OwnedProduct>, nutrition: seq<NutritionRow>, name: string, user: Id)
    ensures var owned := Owned(products, name, user);
      var r := ListingOf(owned, nutrition);
      && (r.Ok? <==> forall i :: 0 <= i < |owned| ==>
            owned[i].nutritionId.None? || FindNutrition(nutrition, owned[i].nutritionId).Some?)
      && (r.Ok? ==> |r.value| == |owned|)
      && (r.Ok? ==> forall i :: 0 <= i < |r.value| ==>
            r.value[i].name == name && exists p :: p in products && p.id == r.value[i].id && p.userId == user)
  {
    var owned := Owned(products, name, user);
    ListingOfAt(owned, nutrition);
    var r := ListingOf(owned, nutrition);
    if r.Ok? {
      forall i | 0 <= i < |r.value|
        ensures r.value[i].name == name && exists p :: p in products && p.id == r.value[i].id && p.userId == user
      {
        assert owned[i] in owned;
      }
    }
  }
}
