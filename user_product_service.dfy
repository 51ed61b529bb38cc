/**
 * app/services/user_product_service.py: creating, listing, updating and
 * deleting a user's inventory rows, and adding many at once.
 *
 * The creation path calls `add_product_to_inventory` when the product
 * name is not in the catalog and imports it from
 * app/services/product_service.py, which defines no such function (its only
 * function is `check_product_expiry`), so as written that import fails
 * when the module loads.  The model runs the creation path as if some
 * definition were supplied and takes what it does to the catalog as the
 * parameter `insert`: it may insert one product, insert nothing or raise,
 * and it touches nothing but the catalog.  Clock readings are parameters.
 */
module UserProductService {
  import opened Wrappers
  import opened Text
  import opened Timestamps
  import opened Entities
  import opened Store
  import opened ProductUtils

  // ---------------------------------------------------------------- lookups

  /** `query(Product).filter(Product.name == name).first()`, names compared exactly. */
  function FindByName(products: seq<CatalogProduct>, name: string): (r: Option<nat>)
    ensures r.Some? ==> r.value < |products| && products[r.value].name == name
    ensures r.Some? ==> forall i :: 0 <= i < r.value ==> products[i].name != name
    ensures r.None? <==> forall i :: 0 <= i < |products| ==> products[i].name != name
  {
    FirstIndex(products, (p: CatalogProduct) => p.name == name)
  }

  /** `query(UserProduct).filter(UserProduct.userId == user_id).all()`; a null user id matches no row. */
  function OwnedRows(rows: seq<InventoryRow>, user: Option<Id>): (r: seq<InventoryRow>)
    ensures |r| <= |rows|
    ensures forall x :: x in r <==> x in rows && Some(x.userId) == user
  {
    if rows == [] then []
    else if Some(rows[0].userId) == user then [rows[0]] + OwnedRows(rows[1..], user)
    else OwnedRows(rows[1..], user)
  }

  // ---------------------------------------------------------------- order_by(addedAt.desc())

  /** No row is followed by one added later. */
  predicate NewestFirst(s: seq<InventoryRow>) {
    forall i, j :: 0 <= i < j < |s| ==> !LexLess(s[i].addedAt, s[j].addedAt)
  }

  /** Puts x in front of the first row added no later than x. */
  function Insert(x: InventoryRow, s: seq<InventoryRow>): (r: seq<InventoryRow>)
    requires NewestFirst(s)
    ensures NewestFirst(r)
    ensures multiset(r) == multiset(s) + multiset{x}
    ensures |r| == |s| + 1
    ensures r[0] == x || (s != [] && r[0] == s[0])
  {
    if s == [] then [x]
    else if !LexLess(x.addedAt, s[0].addedAt) then
      NewestFirstCons(x, s);
      [x] + s
    else
      var rest := Insert(x, s[1..]);
      HeadStaysAhead(x, s, rest);
      NewestFirstCons(s[0], rest);
      assert s == [s[0]] + s[1..];
      [s[0]] + rest
  }

  /** The head of s stays ahead of whatever leads the rest once x has gone into it. */
  lemma HeadStaysAhead(x: InventoryRow, s: seq<InventoryRow>, rest: seq<InventoryRow>)
    requires NewestFirst(s) && s != [] && LexLess(x.addedAt, s[0].addedAt)
    requires rest != [] && (rest[0] == x || (|s| > 1 && rest[0] == s[1]))
    ensures !LexLess(s[0].addedAt, rest[0].addedAt)
  {
    if rest[0] == x {
      LexLessAsymmetric(x.addedAt, s[0].addedAt);
    } else {
      assert !LexLess(s[0].addedAt, s[1].addedAt);
    }
  }

  /** A row added no earlier than the head of a newest-first sequence can go in front of it. */
  lemma NewestFirstCons(x: InventoryRow, s: seq<InventoryRow>)
    requires NewestFirst(s)
    requires s != [] ==> !LexLess(x.addedAt, s[0].addedAt)
    ensures NewestFirst([x] + s)
  {
    forall j | 0 < j < |s|
      ensures !LexLess(x.addedAt, s[j].addedAt)
    {
      NotLessTransitive(x.addedAt, s[0].addedAt, s[j].addedAt);
    }
  }

  /**
   * The query's `order_by(UserProduct.addedAt.desc())`: the same rows, the
   * most recently added first.  SQL leaves the order of rows added at the
   * same instant open; this model keeps them in store order.
   */
  function SortNewestFirst(s: seq<InventoryRow>): (r: seq<InventoryRow>)
    ensures NewestFirst(r)
    ensures multiset(r) == multiset(s)
    ensures |r| == |s|
  {
    if s == [] then []
    else
      assert s == [s[0]] + s[1..];
      Insert(s[0], SortNewestFirst(s[1..]))
  }

  // ---------------------------------------------------------------- create_user_product

  /** What `add_product_to_inventory` does to the catalog when it is called. */
  datatype CatalogInsert =
    /** It inserts this product (under a fresh id). */
    | Inserts(product: CatalogProduct)
    /** It returns without inserting anything. */
    | InsertsNothing
    /** It raises. */
    | Raises(reason: string)

  /** The reply of a successful creation. */
  datatype CreateReply = CreateReply(productId: Id, name: string, quantity: int, expiryDate: string)

  const UnknownUser: string := "User with the provided userId does not exist."

  /** The row `create_user_product` builds. */
  function NewRow(id: Id, user: Id, productId: Id, quantity: int, expiryDate: string, notes: string,
                  now: string): (r: InventoryRow)
    ensures r.status == Active && r.addedAt == now && r.updatedAt == now
  {
    InventoryRow(id, user, productId, quantity, expiryDate, Active, notes, now, now)
  }

  /** `add_notification_to_db` has no `productName` parameter, so the scanned-product branch raises. */
  const ScanNotifyCrash: string := "TypeError: add_notification_to_db() got an unexpected keyword argument 'productName'"

  /** A row whose productId is None cannot be committed: the column is NOT NULL. */
  const NullProductCrash: string := "IntegrityError: userProducts.productId may not be NULL"

  /** The tables `create_user_product` writes, with the id counter. */
  datatype Tables = Tables(products: seq<CatalogProduct>, rows: seq<InventoryRow>, nextId: Id)

  function TablesOf(db: Db): Tables
    reads db
  {
    Tables(db.products, db.rows, db.nextId)
  }

  /**
   * Whether the product name leads to a catalog product: it is already
   * there, or `add_product_to_inventory` inserts a product of that name.
   */
  predicate Resolves(t: Tables, name: string, insert: CatalogInsert) {
    FindByName(t.products, name).Some? || (insert.Inserts? && insert.product.name == name)
  }

  /** A missing name found after appending one product: it is the new one exactly when it has that name. */
  lemma {:induction false} FindByNameAppend(products: seq<CatalogProduct>, p: CatalogProduct, name: string)
    requires FindByName(products, name).None?
    ensures FindByName(products + [p], name) == if p.name == name then Some(|products|) else None
  {
    if products != [] {
      assert (products + [p])[1..] == products[1..] + [p];
      FindByNameAppend(products[1..], p, name);
    }
  }

  /** The tables after the product is resolved, and the product's position in the catalog then. */
  datatype Resolution = Resolution(tables: Tables, found: Option<nat>)

  /**
   * Lines 39-48 on values: an existing product is used as is; otherwise the
   * insert hook runs (raising, inserting nothing, or inserting one product
   * under a fresh id) and the name is looked up again, which finds the new
   * product exactly when it carries the name (ResolveFinds).  The inventory
   * is never touched, and the name is found exactly when it resolves.
   */
  function Resolve(t: Tables, name: string, insert: CatalogInsert): (r: Result<Resolution>)
    ensures FindByName(t.products, name).Some? ==> r == Ok(Resolution(t, FindByName(t.products, name)))
    ensures FindByName(t.products, name).None? ==>
      match insert
      case Raises(reason) => r == Err(Crash(reason))
      case InsertsNothing => r == Ok(Resolution(t, None))
      case Inserts(p) => r.Ok? && r.value.tables == Tables(t.products + [p.(id := t.nextId)], t.rows, t.nextId + 1)
    ensures r.Ok? ==> (r.value.found.Some? <==> Resolves(t, name, insert))
  {
    var found := FindByName(t.products, name);
    if found.Some? then Ok(Resolution(t, found))
    else
      match insert
      case Raises(reason) => Err(Crash(reason))
      case InsertsNothing => Ok(Resolution(t, None))
      case Inserts(p) =>
        Ok(Resolution(Tables(t.products + [p.(id := t.nextId)], t.rows, t.nextId + 1),
                      if p.name == name then Some(|t.products|) else None))
  }

  /** What Resolve reports as found is where the name sits in the catalog it leaves. */
  lemma ResolveFinds(t: Tables, name: string, insert: CatalogInsert)
    ensures var r := Resolve(t, name, insert);
      r.Ok? ==> r.value.found == FindByName(r.value.tables.products, name)
  {
    if FindByName(t.products, name).None? && insert.Inserts? {
      FindByNameAppend(t.products, insert.product.(id := t.nextId), name);
    }
  }

  /** Lines 39-48: the store ends up as Resolve says, and the answer is its position. */
  method ResolveProduct(db: Db, name: string, insert: CatalogInsert) returns (r: Result<Option<nat>>)
    requires db.Valid()
    modifies db`products, db`nextId
    ensures db.Valid()
    ensures match Resolve(old(TablesOf(db)), name, insert)
      case Err(f) => r == Err(f) && TablesOf(db) == old(TablesOf(db))
      case Ok(res) => r == Ok(res.found) && TablesOf(db) == res.tables
  {
    var found := FindByName(db.products, name);
    if found.Some? {
      return Ok(found);
    }
    match insert {
      case Raises(reason) =>
        return Err(Crash(reason));
      case InsertsNothing =>
      case Inserts(p) =>
        var pid := db.NewId();
        FindByNameAppend(db.products, p.(id := pid), name);
        db.products := db.products + [p.(id := pid)];
    }
    r := Ok(FindByName(db.products, name));
  }

  /** `db.add(UserProduct(**new_product)); db.commit()`: the new row gets a fresh id. */
  method AddRow(db: Db, user: Id, productId: Id, quantity: int, expiryDate: string, notes: string, now: string)
    returns (row: InventoryRow)
    requires db.Valid()
    modifies db`rows, db`nextId
    ensures db.Valid()
    ensures db.nextId == old(db.nextId) + 1
    ensures row == NewRow(old(db.nextId), user, productId, quantity, expiryDate, notes, now)
    ensures db.rows == old(db.rows) + [row]
  {
    var id := db.NewId();
    row := NewRow(id, user, productId, quantity, expiryDate, notes, now);
    db.rows := db.rows + [row];
  }

  /** The tables after one creation, and what it answers. */
  datatype Created = Created(tables: Tables, result: Result<CreateReply>)

  /** `create_user_product` for a known user, on values; CreateEffect states what it does. */
  function Create(t: Tables, user: Id, name: string, quantity: int, expiryDate: string, notes: string,
                  scanned: bool, insert: CatalogInsert, now: string): Created
  {
    match Resolve(t, name, insert)
    case Err(f) => Created(t, Err(f))
    case Ok(res) =>
      match res.found
      case None => Created(res.tables, Err(Crash(NullProductCrash)))
      case Some(k) =>
        var t1 := res.tables;
        var pid := t1.products[k].id;
        var row := NewRow(t1.nextId, user, pid, quantity, expiryDate, notes, now);
        Created(Tables(t1.products, t1.rows + [row], t1.nextId + 1),
                if scanned then Err(Crash(ScanNotifyCrash)) else Ok(CreateReply(pid, name, quantity, expiryDate)))
  }

  /**
   * `create_user_product` for a known user, on values.  The catalog only
   * changes when the name is missing and the insert hook inserts; a name
   * that does not resolve commits no row and raises (the hook's own error,
   * or the NOT NULL productId); a name that resolves commits exactly one
   * active row with a fresh id, referencing the product of that name,
   * after which a scanned item raises and an unscanned one replies.
   */
  lemma CreateEffect(t: Tables, user: Id, name: string, quantity: int, expiryDate: string, notes: string,
                     scanned: bool, insert: CatalogInsert, now: string)
    ensures var r := Create(t, user, name, quantity, expiryDate, notes, scanned, insert, now);
      && (FindByName(t.products, name).Some? || !insert.Inserts? ==> r.tables.products == t.products)
      && (FindByName(t.products, name).None? && insert.Inserts? ==>
      r.tables.products == t.products + [insert.product.(id := t.nextId)])
      && (!Resolves(t, name, insert) ==>
      && r.tables.rows == t.rows
      && r.result == Err(Crash(if insert.Raises? then insert.reason else NullProductCrash)))
      && (Resolves(t, name, insert) ==>
      && |r.tables.rows| == |t.rows| + 1 && r.tables.rows[..|t.rows|] == t.rows
      && var row := r.tables.rows[|t.rows|];
      && row == NewRow(row.id, user, row.productId, quantity, expiryDate, notes, now)
      && t.nextId <= row.id < r.tables.nextId
      && FindByName(r.tables.products, name).Some?
      && r.tables.products[FindByName(r.tables.products, name).value].id == row.productId
      && r.result == if scanned then Err(Crash(ScanNotifyCrash))
                     else Ok(CreateReply(row.productId, name, quantity, expiryDate)))
      && (t.nextId <= r.tables.nextId)
  {
    ResolveFinds(t, name, insert);
  }

  /**
   * `create_user_product`: 404 for an unknown user with nothing changed;
   * otherwise the catalog, the inventory and the id counter end up as
   * Create says, and the notification log is untouched.
   */
  method CreateUserProduct(db: Db, user: Id, name: string, quantity: int, expiryDate: string, notes: string,
                           scanned: bool, insert: CatalogInsert, now: string)
    returns (r: Result<CreateReply>)
    requires db.Valid()
    modifies db
    ensures db.Valid()
    ensures db.users == old(db.users) && db.nutrition == old(db.nutrition)
    ensures db.notifications == old(db.notifications)
    ensures !UserExists(old(db.users), Some(user)) ==>
      r == Err(Http(404, UnknownUser)) && db.products == old(db.products) && db.rows == old(db.rows)
    ensures UserExists(old(db.users), Some(user)) ==>
      Created(TablesOf(db), r) == Create(old(TablesOf(db)), user, name, quantity, expiryDate, notes, scanned, insert, now)
  {
    if !UserExists(db.users, Some(user)) {
      return Err(Http(404, UnknownUser));
    }
    var resolved := ResolveProduct(db, name, insert);
    if resolved.Err? {
      return Err(resolved.failure);
    }
    var found := resolved.value;
    if found.None? {
      return Err(Crash(NullProductCrash));
    }
    var productId := db.products[found.value].id;
    var row := AddRow(db, user, productId, quantity, expiryDate, notes, now);
    if scanned {
      return Err(Crash(ScanNotifyCrash));
    }
    r := Ok(CreateReply(productId, name, quantity, expiryDate));
  }

  // ---------------------------------------------------------------- update_user_product_data

  /** The fields of the update body; None is an absent or null field. */
  datatype UpdateRequest = UpdateRequest(quantity: Option<int>, expiryDate: Option<string>, notes: Option<string>)

  datatype UpdateReply = UpdateReply(productId: Id, quantity: int, expiryDate: string, notes: string)

  function NotInInventory(productId: Id): string {
    "Product with ID " + DecimalText(productId) + " does not exist in user inventory."
  }

  const BothRequired: string := "Both quantity and expiryDate are required for update."
  const NoChanges: string := "No changes detected. Please provide new values for quantity or expiryDate."

  /**
   * The update guards, in the order the handler checks them: the user's row
   * for this product, then both fields present, then at least one of them
   * different from what is stored.  Ok carries the row's position.
   */
  function UpdateTarget(rows: seq<InventoryRow>, user: Option<Id>, productId: Id, req: UpdateRequest): (r: Result<nat>)
    ensures r.IsHttp(404) <==> FindUserProduct(rows, user, productId).None?
    ensures r.Ok? ==> Some(r.value) == FindUserProduct(rows, user, productId)
    ensures r.Ok? ==> req.quantity.Some? && req.expiryDate.Some?
    ensures r.Ok? ==> rows[r.value].quantity != req.quantity.value || rows[r.value].expiryDate != req.expiryDate.value
    ensures r.Err? ==> r.failure.Http? && r.failure.status in {400, 404}
    ensures var found := FindUserProduct(rows, user, productId);
      r.Ok? <==> (found.Some? && req.quantity.Some? && req.expiryDate.Some?
        && (rows[found.value].quantity != req.quantity.value || rows[found.value].expiryDate != req.expiryDate.value))
    ensures FindUserProduct(rows, user, productId).Some? && (req.quantity.None? || req.expiryDate.None?) ==>
      r == Err(Http(400, BothRequired))
    ensures var found := FindUserProduct(rows, user, productId);
      found.Some? && req.quantity.Some? && req.expiryDate.Some?
        && rows[found.value].quantity == req.quantity.value && rows[found.value].expiryDate == req.expiryDate.value ==>
      r == Err(Http(400, NoChanges))
  {
    match FindUserProduct(rows, user, productId)
    case None => Err(Http(404, NotInInventory(productId)))
    case Some(k) =>
      if req.quantity.None? || req.expiryDate.None? then Err(Http(400, BothRequired))
      else if rows[k].quantity == req.quantity.value && rows[k].expiryDate == req.expiryDate.value then
        Err(Http(400, NoChanges))
      else Ok(k)
  }

  /** Python truthiness of the optional fields: None, 0 and "" are false. */
  predicate Truthy(v: Option<int>) { v.Some? && v.value != 0 }
  predicate TruthyText(v: Option<string>) { v.Some? && v.value != "" }

  /** The row after the update: a falsy new value keeps the stored one; `updatedAt` is refreshed. */
  function Revised(row: InventoryRow, req: UpdateRequest, now: string): (r: InventoryRow)
    ensures r.id == row.id && r.userId == row.userId && r.productId == row.productId
    ensures r.status == row.status && r.addedAt == row.addedAt && r.updatedAt == now
    ensures !Truthy(req.quantity) ==> r.quantity == row.quantity
    ensures !TruthyText(req.expiryDate) ==> r.expiryDate == row.expiryDate
    ensures !TruthyText(req.notes) ==> r.notes == row.notes
  {
    row.(quantity := if Truthy(req.quantity) then req.quantity.value else row.quantity,
         expiryDate := if TruthyText(req.expiryDate) then req.expiryDate.value else row.expiryDate,
         notes := if TruthyText(req.notes) then req.notes.value else row.notes,
         updatedAt := now)
  }

  /**
   * A body that repeats the stored quantity and expiry date is refused as
   * "No changes" even when it brings new notes; and a body whose only
   * difference is a falsy value (quantity 0 or an empty date) passes the
   * guard yet leaves that field as it was.
   */
  lemma NotesAloneAreNoChange(rows: seq<InventoryRow>, user: Id, productId: Id, notes: string, now: string)
    requires FindUserProduct(rows, Some(user), productId).Some?
    ensures var k := FindUserProduct(rows, Some(user), productId).value;
      var req := UpdateRequest(Some(rows[k].quantity), Some(rows[k].expiryDate), Some(notes));
      UpdateTarget(rows, Some(user), productId, req) == Err(Http(400, NoChanges))
  {
  }

  lemma FalsyQuantityKeepsStored(rows: seq<InventoryRow>, user: Id, productId: Id, now: string)
    requires FindUserProduct(rows, Some(user), productId).Some?
    ensures var k := FindUserProduct(rows, Some(user), productId).value;
      var req := UpdateRequest(Some(0), Some(rows[k].expiryDate), None);
      rows[k].quantity != 0 ==>
        UpdateTarget(rows, Some(user), productId, req) == Ok(k)
        && Revised(rows[k], req, now) == rows[k].(updatedAt := now)
  {
  }

  /** `update_user_product_data` */
  method UpdateUserProductData(db: Db, user: Option<Id>, productId: Id, req: UpdateRequest, now: string)
    returns (r: Result<UpdateReply>)
    modifies db`rows
    ensures match UpdateTarget(old(db.rows), user, productId, req)
      case Err(f) => r == Err(f) && db.rows == old(db.rows)
      case Ok(k) =>
        var row := Revised(old(db.rows)[k], req, now);
        && db.rows == old(db.rows)[k := row]
        && r == Ok(UpdateReply(row.productId, row.quantity, row.expiryDate, row.notes))
  {
    var target := UpdateTarget(db.rows, user, productId, req);
    if target.Err? {
      return Err(target.failure);
    }
    var k := target.value;
    var row := db.rows[k];
    row := row.(quantity := if Truthy(req.quantity) then req.quantity.value else row.quantity);
    row := row.(expiryDate := if TruthyText(req.expiryDate) then req.expiryDate.value else row.expiryDate);
    row := row.(notes := if TruthyText(req.notes) then req.notes.value else row.notes);
    row := row.(updatedAt := now);
    db.rows := db.rows[k := row];
    r := Ok(UpdateReply(row.productId, row.quantity, row.expiryDate, row.notes));
  }

  // ---------------------------------------------------------------- delete_user_product_data

  /** `delete_user_product_data`: 404 when the user has no row for this product, else that row goes. */
  method DeleteUserProductData(db: Db, user: Option<Id>, productId: Id) returns (r: Result<string>)
    modifies db`rows
    ensures FindUserProduct(old(db.rows), user, productId).None? ==>
      r == Err(Http(404, NotInInventory(productId))) && db.rows == old(db.rows)
    ensures FindUserProduct(old(db.rows), user, productId).Some? ==>
      var k := FindUserProduct(old(db.rows), user, productId).value;
      && r == Ok("Product removed from user inventory successfully.")
      && db.rows == old(db.rows)[..k] + old(db.rows)[k + 1..]
  {
    var found := FindUserProduct(db.rows, user, productId);
    if found.None? {
      return Err(Http(404, NotInInventory(productId)));
    }
    var k := found.value;
    db.rows := db.rows[..k] + db.rows[k + 1..];
    r := Ok("Product removed from user inventory successfully.");
  }

  /**
   * Deleting removes exactly the matched row: every other row stays, in
   * order, and the user's row for this product, if it had only one, is gone.
   */
  lemma DeleteRemovesOne(rows: seq<InventoryRow>, k: nat)
    requires k < |rows|
    ensures var after := rows[..k] + rows[k + 1..];
      && |after| == |rows| - 1
      && multiset(after) + multiset{rows[k]} == multiset(rows)
      && (forall i :: 0 <= i < k ==> after[i] == rows[i])
      && (forall i :: k < i < |rows| ==> after[i - 1] == rows[i])
  {
    var before, rest := rows[..k], rows[k + 1..];
    assert rows == before + [rows[k]] + rest;
    assert multiset(rows) == multiset(before) + multiset{rows[k]} + multiset(rest);
    var after := before + rest;
    forall i | k < i < |rows| ensures after[i - 1] == rows[i]
    {
      assert after[i - 1] == rest[i - 1 - k];
    }
  }

  // ---------------------------------------------------------------- get_user_product_list

  /**
   * One listed inventory entry.  `quantity` is None where the entry has no
   * "quantity" key (the placeholder for a missing catalog product), and
   * `nutrition` is None where the reply carries null.
   */
  datatype Entry = Entry(
    id: Id,
    name: string,
    category: string,
    quantity: Option<int>,
    expiryDate: string,
    nutrition: Option<map<string, JsonValue>>,
    addedAt: string,
    status: Status,
    notes: string,
    updatedAt: string)

  /** The entry of a row whose catalog product is gone. */
  function Placeholder(row: InventoryRow): Entry {
    Entry(row.productId, "Unknown Product", "Unknown Category", None, row.expiryDate, None,
          row.addedAt, row.status, row.notes, row.updatedAt)
  }

  /** The nutrition keys `get_user_product_list` copies, in the order it reads them. */
  const ServiceNutritionKeys: seq<string> := [
    "energy_kcal", "carbohydrate", "total_sugars", "fiber", "protein", "saturated_fat",
    "vitamin_a", "vitamin_c", "potassium", "iron", "calcium", "sodium", "cholesterol"]

  /**
   * The loop body of a listing: the catalog product the row references and
   * its nutrition row, read through a class with the given columns; the
   * AttributeError of the first listed key the class lacks, when there is a
   * nutrition row to read.
   */
  function EntryFor(row: InventoryRow, products: seq<CatalogProduct>, nutrition: seq<NutritionRow>,
                    schema: set<string>, keys: seq<string>): (r: Result<Entry>)
    ensures FindProduct(products, row.productId).None? ==> r == Ok(Placeholder(row))
    ensures r.Ok? && FindProduct(products, row.productId).Some? ==>
      var p := products[FindProduct(products, row.productId).value];
      && r.value.id == p.id == row.productId && r.value.name == p.name && r.value.category == p.category
      && r.value.quantity == Some(row.quantity)
      && (r.value.nutrition.Some? <==> FindNutrition(nutrition, p.nutritionId).Some?)
    ensures r.Ok? ==>
      && r.value.expiryDate == row.expiryDate && r.value.addedAt == row.addedAt
      && r.value.status == row.status && r.value.notes == row.notes && r.value.updatedAt == row.updatedAt
    ensures r.Err? <==>
      && FindProduct(products, row.productId).Some?
      && FindNutrition(nutrition, products[FindProduct(products, row.productId).value].nutritionId).Some?
      && exists i :: 0 <= i < |keys| && keys[i] !in schema
  {
    match FindProduct(products, row.productId)
    case None => Ok(Placeholder(row))
    case Some(k) =>
      var p := products[k];
      var facts :=
        match FindNutrition(nutrition, p.nutritionId)
        case None => Ok(None)
        case Some(n) =>
          match NutritionDict(nutrition[n], schema, keys)
          case Err(f) => Err(f)
          case Ok(d) => Ok(Some(d));
      match facts
      case Err(f) => Err(f)
      case Ok(d) =>
        Ok(Entry(p.id, p.name, p.category, Some(row.quantity), row.expiryDate, d,
                 row.addedAt, row.status, row.notes, row.updatedAt))
  }

  /** The entries of the rows in order, or the first row's failure. */
  function EntriesOf(rows: seq<InventoryRow>, products: seq<CatalogProduct>, nutrition: seq<NutritionRow>,
                     schema: set<string>, keys: seq<string>): (r: Result<seq<Entry>>)
    ensures r.Ok? ==> |r.value| == |rows|
  {
    Collect(rows, (row: InventoryRow) => EntryFor(row, products, nutrition, schema, keys))
  }

  /** The listing has one entry per row, in the rows' order, and fails only where a row's entry does. */
  lemma EntriesOfAt(rows: seq<InventoryRow>, products: seq<CatalogProduct>,
                    nutrition: seq<NutritionRow>, schema: set<string>, keys: seq<string>)
    ensures var r := EntriesOf(rows, products, nutrition, schema, keys);
      && (r.Ok? <==> forall i :: 0 <= i < |rows| ==> EntryFor(rows[i], products, nutrition, schema, keys).Ok?)
      && (r.Ok? ==> |r.value| == |rows|)
      && (r.Ok? ==> forall i :: 0 <= i < |rows| ==>
            r.value[i] == EntryFor(rows[i], products, nutrition, schema, keys).value)
  {
    CollectAt(rows, (row: InventoryRow) => EntryFor(row, products, nutrition, schema, keys));
  }

  /** An entry's nutrition is the dictionary of its product's nutrition row. */
  lemma EntryNutrition(row: InventoryRow, products: seq<CatalogProduct>, nutrition: seq<NutritionRow>,
                       schema: set<string>, keys: seq<string>)
    ensures var r := EntryFor(row, products, nutrition, schema, keys);
      r.Ok? && r.value.nutrition.Some? ==>
        && FindProduct(products, row.productId).Some?
        && var p := products[FindProduct(products, row.productId).value];
        && FindNutrition(nutrition, p.nutritionId).Some?
        && Ok(r.value.nutrition.value) == NutritionDict(nutrition[FindNutrition(nutrition, p.nutritionId).value], schema, keys)
  {
  }

  /** A listing that reads only declared columns never fails. */
  lemma DeclaredKeysNeverFail(rows: seq<InventoryRow>, products: seq<CatalogProduct>,
                              nutrition: seq<NutritionRow>, schema: set<string>, keys: seq<string>)
    requires forall i :: 0 <= i < |keys| ==> keys[i] in schema
    ensures EntriesOf(rows, products, nutrition, schema, keys).Ok?
  {
    EntriesOfAt(rows, products, nutrition, schema, keys);
  }

  /** The listing loop over already selected rows. */
  method ListEntries(db: Db, rows: seq<InventoryRow>, schema: set<string>, keys: seq<string>)
    returns (r: Result<seq<Entry>>)
    ensures r == EntriesOf(rows, db.products, db.nutrition, schema, keys)
  {
    var products, nutrition := db.products, db.nutrition;
    var entries: seq<Entry> := [];
    var i := 0;
    while i < |rows|
      invariant 0 <= i <= |rows|
      invariant EntriesOf(rows[..i], products, nutrition, schema, keys) == Ok(entries)
    {
      assert rows[..i + 1][..i] == rows[..i];
      var e := EntryFor(rows[i], products, nutrition, schema, keys);
      if e.Err? {
        CollectFailedPrefix(rows, i + 1, (row: InventoryRow) => EntryFor(row, products, nutrition, schema, keys));
        return Err(e.failure);
      }
      entries := entries + [e.value];
      i := i + 1;
    }
    assert rows[..i] == rows;
    r := Ok(entries);
  }

  /** The caller's rows as `get_user_product_list` orders them. */
  function ListedRows(rows: seq<InventoryRow>, user: Option<Id>): seq<InventoryRow> {
    SortNewestFirst(OwnedRows(rows, user))
  }

  /** `get_user_product_list` */
  method GetUserProductList(db: Db, user: Option<Id>) returns (r: seq<Entry>)
    ensures Ok(r) == EntriesOf(ListedRows(db.rows, user), db.products, db.nutrition,
                               NutritionModelColumns, ServiceNutritionKeys)
  {
    var owned := ListedRows(db.rows, user);
    DeclaredKeysNeverFail(owned, db.products, db.nutrition, NutritionModelColumns, ServiceNutritionKeys);
    var listed := ListEntries(db, owned, NutritionModelColumns, ServiceNutritionKeys);
    r := listed.value;
  }

  /**
   * What the service's listing promises: one entry per row of the caller,
   * newest `addedAt` first, each entry carrying its row's fields, and the
   * placeholder for a row whose catalog product is gone.
   */
  lemma ServiceListing(rows: seq<InventoryRow>, products: seq<CatalogProduct>, nutrition: seq<NutritionRow>,
                       user: Option<Id>)
    ensures var listed := ListedRows(rows, user);
      var r := EntriesOf(listed, products, nutrition, NutritionModelColumns, ServiceNutritionKeys);
      && r.Ok?
      && |r.value| == |listed| == |OwnedRows(rows, user)|
      && (forall i :: 0 <= i < |listed| ==> listed[i] in rows && Some(listed[i].userId) == user)
      && (forall i, j :: 0 <= i < j < |listed| ==> !LexLess(r.value[i].addedAt, r.value[j].addedAt))
      && (forall i :: 0 <= i < |listed| && FindProduct(products, listed[i].productId).None? ==>
            r.value[i] == Placeholder(listed[i]))
  {
    var listed := ListedRows(rows, user);
    DeclaredKeysNeverFail(listed, products, nutrition, NutritionModelColumns, ServiceNutritionKeys);
    EntriesOfAt(listed, products, nutrition, NutritionModelColumns, ServiceNutritionKeys);
    forall i | 0 <= i < |listed|
      ensures listed[i] in rows && Some(listed[i].userId) == user
    {
      assert listed[i] in multiset(OwnedRows(rows, user));
    }
  }

  // ---------------------------------------------------------------- add_mass_user_products

  /**
   * One element of the `products` list, a dict: the values under
   * "productName", "quantity" and "expiryDate" (None when absent or null),
   * under "notes" (default ""), and the truth of "is_scanned_product".
   */
  datatype MassItem = MassItem(productName: Option<string>, quantity: Option<int>, expiryDate: Option<string>,
                               notes: string, scanned: bool)

  /** The "product" echoed back with a failure. */
  datatype Echo = Echo(productName: Option<string>, quantity: Option<int>, expiryDate: Option<string>)

  /** One element of "failed"; `product` is None only for the unknown-user failure. */
  datatype FailedItem = FailedItem(product: Option<Echo>, reason: string)

  datatype MassReply = MassReply(success: seq<CreateReply>, failed: seq<FailedItem>)

  /** Where one item ended up. */
  datatype ItemOutcome = Succeeded(reply: CreateReply) | Failed(item: FailedItem)

  function EchoOf(item: MassItem): Echo {
    Echo(item.productName, item.quantity, item.expiryDate)
  }

  /** `product_name and quantity and expiry_date` are all truthy. */
  predicate Complete(item: MassItem) {
    TruthyText(item.productName) && Truthy(item.quantity) && TruthyText(item.expiryDate)
  }

  const MissingFields: string := "Missing required fields"

  /** `str(e)`: an HTTPException prints as "<status>: <detail>", any other exception as its message. */
  function ExceptionText(f: Failure): string {
    match f
    case Http(status, detail) =>
      (if status < 0 then "-" + DecimalText(-status) else DecimalText(status)) + ": " + detail
    case Crash(reason) => reason
  }

  /** The "success" list: the replies of the items that succeeded, in input order. */
  function Successes(outcomes: seq<ItemOutcome>): (r: seq<CreateReply>)
    ensures |r| <= |outcomes|
  {
    if outcomes == [] then []
    else
      var last := outcomes[|outcomes| - 1];
      Successes(outcomes[..|outcomes| - 1]) + (if last.Succeeded? then [last.reply] else [])
  }

  /** The "failed" list: the failures of the other items, in input order. */
  function Failures(outcomes: seq<ItemOutcome>): (r: seq<FailedItem>)
    ensures |r| <= |outcomes|
  {
    if outcomes == [] then []
    else
      var last := outcomes[|outcomes| - 1];
      Failures(outcomes[..|outcomes| - 1]) + (if last.Failed? then [last.item] else [])
  }

  /** One more outcome extends exactly one of the two lists. */
  lemma ListsAppend(outcomes: seq<ItemOutcome>, o: ItemOutcome)
    ensures Successes(outcomes + [o]) == Successes(outcomes) + if o.Succeeded? then [o.reply] else []
    ensures Failures(outcomes + [o]) == Failures(outcomes) + if o.Failed? then [o.item] else []
  {
    assert (outcomes + [o])[..|outcomes|] == outcomes;
  }

  /** Each item lands in exactly one of the two lists. */
  lemma {:induction false} Partition(outcomes: seq<ItemOutcome>)
    ensures |Successes(outcomes)| + |Failures(outcomes)| == |outcomes|
    ensures (forall i :: 0 <= i < |outcomes| ==> outcomes[i].Succeeded?) ==> Successes(outcomes) == Replies(outcomes)
  {
    if outcomes != [] {
      var init := outcomes[..|outcomes| - 1];
      Partition(init);
      assert forall i :: 0 <= i < |init| ==> init[i] == outcomes[i];
    }
  }

  /** The replies of outcomes that all succeeded. */
  function Replies(outcomes: seq<ItemOutcome>): (r: seq<CreateReply>)
    requires forall i :: 0 <= i < |outcomes| ==> outcomes[i].Succeeded?
    ensures |r| == |outcomes| && forall i :: 0 <= i < |r| ==> r[i] == outcomes[i].reply
  {
    if outcomes == [] then [] else Replies(outcomes[..|outcomes| - 1]) + [outcomes[|outcomes| - 1].reply]
  }

  /**
   * What the outcome of one item can be: an incomplete item fails with
   * "Missing required fields"; only a complete, unscanned item succeeds,
   * with a reply echoing its values; every failure echoes the item.
   */
  predicate Answers(item: MassItem, o: ItemOutcome) {
    && (!Complete(item) ==> o == Failed(FailedItem(Some(EchoOf(item)), MissingFields)))
    && (o.Succeeded? ==>
          && Complete(item) && !item.scanned
          && o.reply.name == item.productName.value && o.reply.quantity == item.quantity.value
          && o.reply.expiryDate == item.expiryDate.value)
    && (o.Failed? ==> o.item.product == Some(EchoOf(item)))
  }

  /** The row committed for an item: this user's active row with the item's values, created at `at`. */
  predicate RowFor(row: InventoryRow, user: Id, item: MassItem, at: string) {
    && row.userId == user && row.status == Active
    && Some(row.quantity) == item.quantity && Some(row.expiryDate) == item.expiryDate
    && row.notes == item.notes && row.addedAt == at
  }

  /**
   * The tables after one item, where the item ended up, and whether its
   * commit failed, which leaves the session needing a rollback.
   */
  datatype Handled = Handled(tables: Tables, outcome: ItemOutcome, sessionFailed: bool)

  /** Where a complete item ends up when its creation answered `res`. */
  function OutcomeOf(item: MassItem, res: Result<CreateReply>): ItemOutcome {
    match res
    case Ok(reply) => Succeeded(reply)
    case Err(f) => Failed(FailedItem(Some(EchoOf(item)), ExceptionText(f)))
  }

  /**
   * One turn of the bulk loop for a known user, on values: an incomplete
   * item fails and changes nothing; a complete one goes through Create.
   * The inventory keeps its rows and gains at most one, always this user's;
   * a failed commit adds no row.
   */
  function ItemStep(t: Tables, user: Id, item: MassItem, insert: CatalogInsert, now: string): (r: Handled)
    ensures Answers(item, r.outcome)
    ensures !Complete(item) ==> r.tables == t
    ensures |t.rows| <= |r.tables.rows| <= |t.rows| + 1 && r.tables.rows[..|t.rows|] == t.rows
    ensures forall x :: |t.rows| <= x < |r.tables.rows| ==> r.tables.rows[x].userId == user
    ensures r.sessionFailed ==> Complete(item) && r.tables.rows == t.rows
  {
    if !Complete(item) then Handled(t, Failed(FailedItem(Some(EchoOf(item)), MissingFields)), false)
    else
      CreateEffect(t, user, item.productName.value, item.quantity.value, item.expiryDate.value,
                   item.notes, item.scanned, insert, now);
      var c := Create(t, user, item.productName.value, item.quantity.value, item.expiryDate.value,
                      item.notes, item.scanned, insert, now);
      Handled(c.tables, OutcomeOf(item, c.result), c.result == Err(Crash(NullProductCrash)))
  }

  /**
   * A complete item whose name resolves always commits one row with its
   * values, and then succeeds exactly when it is not scanned: a scanned one
   * fails with the notification error although its row stays.  A name
   * already in the catalog leaves the catalog as it is.  The session stays usable.
   */
  lemma ItemStepResolved(t: Tables, user: Id, item: MassItem, insert: CatalogInsert, now: string)
    requires Complete(item) && Resolves(t, item.productName.value, insert)
    ensures var r := ItemStep(t, user, item, insert, now);
      && |r.tables.rows| == |t.rows| + 1
      && RowFor(r.tables.rows[|t.rows|], user, item, now)
      && (r.outcome.Succeeded? <==> !item.scanned)
      && (item.scanned ==> r.outcome == Failed(FailedItem(Some(EchoOf(item)), ScanNotifyCrash)))
      && (FindByName(t.products, item.productName.value).Some? ==> r.tables.products == t.products)
      && !r.sessionFailed
  {
  }

  /**
   * A complete item whose name does not resolve fails and commits nothing;
   * unless the insert hook raised, it failed at the commit of a row with no
   * productId, so the session is left failed.
   */
  lemma ItemStepUnresolved(t: Tables, user: Id, item: MassItem, insert: CatalogInsert, now: string)
    requires Complete(item) && !Resolves(t, item.productName.value, insert)
    ensures var r := ItemStep(t, user, item, insert, now);
      && r.tables.rows == t.rows && r.outcome.Failed?
      && (!insert.Raises? ==> r.sessionFailed && r.outcome.item.reason == NullProductCrash)
  {
  }

  /** The tables after the bulk loop, where each item ended up, and whether the session has failed. */
  datatype Run = Run(tables: Tables, outcomes: seq<ItemOutcome>, sessionFailed: bool)

  /** `str(e)` of the error every query raises on a session whose commit failed and was not rolled back. */
  const PendingRollback: string :=
    "PendingRollbackError: This Session's transaction has been rolled back due to a previous exception during flush."

  /**
   * The bulk loop over the first k items for a known user, on values, in
   * input order.  Nothing rolls the session back, so once a commit has
   * failed, the first query of `create_user_product` raises for every later
   * complete item; incomplete items are still refused before any query.
   */
  function MassRun(t: Tables, user: Id, items: seq<MassItem>, inserts: seq<CatalogInsert>, clock: seq<string>,
                   k: nat): (r: Run)
    requires |inserts| == |items| && |clock| == |items| && k <= |items|
    ensures |r.outcomes| == k
  {
    if k == 0 then Run(t, [], false)
    else Turn(MassRun(t, user, items, inserts, clock, k - 1), user, items[k - 1], inserts[k - 1], clock[k - 1])
  }

  /** One turn of the bulk loop: the next item's outcome is appended after the earlier ones. */
  function Turn(prev: Run, user: Id, item: MassItem, insert: CatalogInsert, now: string): (r: Run)
    ensures |r.outcomes| == |prev.outcomes| + 1 && r.outcomes[..|prev.outcomes|] == prev.outcomes
    ensures prev.sessionFailed ==> r.sessionFailed
  {
    if prev.sessionFailed && Complete(item) then
      Run(prev.tables, prev.outcomes + [Failed(FailedItem(Some(EchoOf(item)), PendingRollback))], true)
    else
      var h := ItemStep(prev.tables, user, item, insert, now);
      Run(h.tables, prev.outcomes + [h.outcome], prev.sessionFailed || h.sessionFailed)
  }

  /**
   * What the bulk loop does to the inventory: the rows already there stay
   * first and untouched, at most one row is added per item, and every added
   * row belongs to this user.
   */
  lemma {:induction false} MassRunRows(t: Tables, user: Id, items: seq<MassItem>, inserts: seq<CatalogInsert>,
                                       clock: seq<string>, k: nat)
    requires |inserts| == |items| && |clock| == |items| && k <= |items|
    ensures var r := MassRun(t, user, items, inserts, clock, k);
      && |t.rows| <= |r.tables.rows| <= |t.rows| + k
      && r.tables.rows[..|t.rows|] == t.rows
      && (forall x :: |t.rows| <= x < |r.tables.rows| ==> r.tables.rows[x].userId == user)
  {
    if k > 0 {
      var prev := MassRun(t, user, items, inserts, clock, k - 1);
      MassRunRows(t, user, items, inserts, clock, k - 1);
      if prev.sessionFailed && Complete(items[k - 1]) {
      } else {
        var h := ItemStep(prev.tables, user, items[k - 1], inserts[k - 1], clock[k - 1]);
        RowsKeepPrefix(t.rows, prev.tables.rows, h.tables.rows);
        forall x | |t.rows| <= x < |h.tables.rows|
          ensures h.tables.rows[x].userId == user
        {
          if x < |prev.tables.rows| {
            assert h.tables.rows[x] == prev.tables.rows[x];
          }
        }
      }
    }
  }

  /** A prefix of a prefix is a prefix. */
  lemma RowsKeepPrefix(a: seq<InventoryRow>, b: seq<InventoryRow>, c: seq<InventoryRow>)
    requires |a| <= |b| <= |c| && b[..|a|] == a && c[..|b|] == b
    ensures c[..|a|] == a
  {
    assert c[..|a|] == c[..|b|][..|a|];
  }

  /** Every item of the bulk loop is answered as Answers says. */
  lemma {:induction false} MassRunAnswers(t: Tables, user: Id, items: seq<MassItem>, inserts: seq<CatalogInsert>,
                                          clock: seq<string>, k: nat)
    requires |inserts| == |items| && |clock| == |items| && k <= |items|
    ensures var r := MassRun(t, user, items, inserts, clock, k);
      forall i :: 0 <= i < k ==> Answers(items[i], r.outcomes[i])
  {
    if k > 0 {
      var prev := MassRun(t, user, items, inserts, clock, k - 1);
      MassRunAnswers(t, user, items, inserts, clock, k - 1);
      if prev.sessionFailed && Complete(items[k - 1]) {
        AnswersExtend(items, prev.outcomes, Failed(FailedItem(Some(EchoOf(items[k - 1])), PendingRollback)));
      } else {
        var h := ItemStep(prev.tables, user, items[k - 1], inserts[k - 1], clock[k - 1]);
        AnswersExtend(items, prev.outcomes, h.outcome);
      }
    }
  }

  /** Answering one more item keeps every earlier answer. */
  lemma AnswersExtend(items: seq<MassItem>, outcomes: seq<ItemOutcome>, o: ItemOutcome)
    requires |outcomes| < |items|
    requires forall i :: 0 <= i < |outcomes| ==> Answers(items[i], outcomes[i])
    requires Answers(items[|outcomes|], o)
    ensures forall i :: 0 <= i < |outcomes| + 1 ==> Answers(items[i], (outcomes + [o])[i])
  {
  }

  /**
   * Once a commit has failed at item k, the session stays failed: no later
   * item changes the tables, and every later complete item fails with the
   * pending-rollback error.
   */
  lemma {:induction false} FailedSessionFailsRest(t: Tables, user: Id, items: seq<MassItem>, inserts: seq<CatalogInsert>,
                                                  clock: seq<string>, k: nat, m: nat)
    requires |inserts| == |items| && |clock| == |items| && k <= m <= |items|
    requires MassRun(t, user, items, inserts, clock, k).sessionFailed
    ensures var r := MassRun(t, user, items, inserts, clock, m);
      && r.sessionFailed
      && r.tables == MassRun(t, user, items, inserts, clock, k).tables
      && forall j :: k <= j < m && Complete(items[j]) ==>
           r.outcomes[j] == Failed(FailedItem(Some(EchoOf(items[j])), PendingRollback))
  {
    if k < m {
      FailedSessionFailsRest(t, user, items, inserts, clock, k, m - 1);
      var prev := MassRun(t, user, items, inserts, clock, m - 1);
      if !Complete(items[m - 1]) {
        var h := ItemStep(prev.tables, user, items[m - 1], inserts[m - 1], clock[m - 1]);
        assert h.tables == prev.tables && !h.sessionFailed;
      }
      TurnKeeps(prev, user, items[m - 1], inserts[m - 1], clock[m - 1], items, k);
    }
  }

  /**
   * The commit that fails is that of a complete item whose name does not
   * resolve while the hook raises nothing; from then on the rest of the
   * bulk add commits nothing and fails every complete item.
   */
  lemma UnresolvedItemFailsRest(t: Tables, user: Id, items: seq<MassItem>, inserts: seq<CatalogInsert>,
                                clock: seq<string>, k: nat)
    requires |inserts| == |items| && |clock| == |items| && k < |items|
    requires Complete(items[k]) && !inserts[k].Raises?
    requires !MassRun(t, user, items, inserts, clock, k).sessionFailed
    requires !Resolves(MassRun(t, user, items, inserts, clock, k).tables, items[k].productName.value, inserts[k])
    ensures var r := MassRun(t, user, items, inserts, clock, |items|);
      && r.tables.rows == MassRun(t, user, items, inserts, clock, k).tables.rows
      && r.outcomes[k].Failed? && r.outcomes[k].item.reason == NullProductCrash
      && forall j :: k < j < |items| && Complete(items[j]) ==>
           r.outcomes[j] == Failed(FailedItem(Some(EchoOf(items[j])), PendingRollback))
  {
    var prev := MassRun(t, user, items, inserts, clock, k);
    ItemStepUnresolved(prev.tables, user, items[k], inserts[k], clock[k]);
    FailedSessionFailsRest(t, user, items, inserts, clock, k + 1, |items|);
    OutcomeStays(t, user, items, inserts, clock, k, |items|);
  }

  /** A turn keeps the outcomes already there, indexed by their items. */
  lemma TurnKeeps(prev: Run, user: Id, item: MassItem, insert: CatalogInsert, now: string, items: seq<MassItem>, k: nat)
    requires k <= |prev.outcomes| < |items|
    requires forall j :: k <= j < |prev.outcomes| && Complete(items[j]) ==>
      prev.outcomes[j] == Failed(FailedItem(Some(EchoOf(items[j])), PendingRollback))
    requires prev.sessionFailed && item == items[|prev.outcomes|]
    ensures var r := Turn(prev, user, item, insert, now);
      forall j :: k <= j < |r.outcomes| && Complete(items[j]) ==>
        r.outcomes[j] == Failed(FailedItem(Some(EchoOf(items[j])), PendingRollback))
  {
    var r := Turn(prev, user, item, insert, now);
    forall j | k <= j < |r.outcomes| && Complete(items[j])
      ensures r.outcomes[j] == Failed(FailedItem(Some(EchoOf(items[j])), PendingRollback))
    {
      if j < |prev.outcomes| {
        assert r.outcomes[j] == r.outcomes[..|prev.outcomes|][j];
      }
    }
  }

  /** Later items never change an earlier outcome. */
  lemma {:induction false} OutcomeStays(t: Tables, user: Id, items: seq<MassItem>, inserts: seq<CatalogInsert>,
                                        clock: seq<string>, k: nat, m: nat)
    requires |inserts| == |items| && |clock| == |items| && k < m <= |items|
    ensures MassRun(t, user, items, inserts, clock, m).outcomes[k] == MassRun(t, user, items, inserts, clock, k + 1).outcomes[k]
  {
    if k + 1 < m {
      OutcomeStays(t, user, items, inserts, clock, k, m - 1);
      var r := MassRun(t, user, items, inserts, clock, m);
      assert r.outcomes[k] == r.outcomes[..m - 1][k];
    }
  }

  /** Every item is complete, unscanned and names a product already in the catalog. */
  predicate AllKnown(t: Tables, items: seq<MassItem>) {
    forall i :: 0 <= i < |items| ==>
      Complete(items[i]) && !items[i].scanned && FindByName(t.products, items[i].productName.value).Some?
  }

  /**
   * When every item is complete, unscanned and already in the catalog, the
   * catalog is untouched, every item succeeds, nothing fails, and the
   * inventory gains one row per item, in input order, each as RowFor says.
   */
  lemma MassAddAllKnown(t: Tables, user: Id, items: seq<MassItem>, inserts: seq<CatalogInsert>, clock: seq<string>)
    requires |inserts| == |items| && |clock| == |items|
    requires AllKnown(t, items)
    ensures var r := MassRun(t, user, items, inserts, clock, |items|);
      && r.tables.products == t.products
      && |r.tables.rows| == |t.rows| + |items|
      && r.tables.rows[..|t.rows|] == t.rows
      && (forall i :: 0 <= i < |items| ==> r.outcomes[i].Succeeded?)
      && Failures(r.outcomes) == []
      && forall i :: 0 <= i < |items| ==> RowFor(r.tables.rows[|t.rows| + i], user, items[i], clock[i])
  {
    MassKnown(t, user, items, inserts, clock, |items|);
    AllSucceededNoFailures(MassRun(t, user, items, inserts, clock, |items|).outcomes);
  }

  /**
   * After the first k items of an all-known list: the catalog as it was,
   * one row per item after the rows already there, each as RowFor says,
   * every outcome a success, and the session still usable.
   */
  predicate KnownSoFar(t: Tables, user: Id, items: seq<MassItem>, clock: seq<string>, k: nat, r: Run)
    requires |clock| == |items| && k <= |items|
  {
    && r.tables.products == t.products
    && !r.sessionFailed
    && |r.outcomes| == k
    && |r.tables.rows| == |t.rows| + k
    && r.tables.rows[..|t.rows|] == t.rows
    && (forall i :: 0 <= i < k ==> r.outcomes[i].Succeeded?)
    && forall i :: 0 <= i < k ==> RowFor(r.tables.rows[|t.rows| + i], user, items[i], clock[i])
  }

  /** One more known item keeps KnownSoFar. */
  lemma KnownStep(t: Tables, user: Id, items: seq<MassItem>, inserts: seq<CatalogInsert>, clock: seq<string>,
                  k: nat, prev: Run)
    requires |inserts| == |items| && |clock| == |items| && 0 < k <= |items|
    requires AllKnown(t, items) && KnownSoFar(t, user, items, clock, k - 1, prev)
    ensures KnownSoFar(t, user, items, clock, k, Turn(prev, user, items[k - 1], inserts[k - 1], clock[k - 1]))
  {
    ItemStepResolved(prev.tables, user, items[k - 1], inserts[k - 1], clock[k - 1]);
    var h := ItemStep(prev.tables, user, items[k - 1], inserts[k - 1], clock[k - 1]);
    assert Turn(prev, user, items[k - 1], inserts[k - 1], clock[k - 1]) == Run(h.tables, prev.outcomes + [h.outcome], false);
    RowsKeepPrefix(t.rows, prev.tables.rows, h.tables.rows);
    RowsForExtend(t.rows, prev.tables.rows, h.tables.rows, user, items, clock);
    SucceededExtend(prev.outcomes, h.outcome);
  }

  lemma {:induction false} MassKnown(t: Tables, user: Id, items: seq<MassItem>, inserts: seq<CatalogInsert>,
                                     clock: seq<string>, k: nat)
    requires |inserts| == |items| && |clock| == |items| && k <= |items|
    requires AllKnown(t, items)
    ensures KnownSoFar(t, user, items, clock, k, MassRun(t, user, items, inserts, clock, k))
  {
    if k > 0 {
      MassKnown(t, user, items, inserts, clock, k - 1);
      KnownStep(t, user, items, inserts, clock, k, MassRun(t, user, items, inserts, clock, k - 1));
    }
  }

  /** Committing the next item's row keeps the rows committed for the earlier ones. */
  lemma RowsForExtend(base: seq<InventoryRow>, prev: seq<InventoryRow>, next: seq<InventoryRow>, user: Id,
                      items: seq<MassItem>, clock: seq<string>)
    requires |base| <= |prev| && |prev| - |base| < |items| && |clock| == |items|
    requires |next| == |prev| + 1 && next[..|prev|] == prev
    requires forall i :: 0 <= i < |prev| - |base| ==> RowFor(prev[|base| + i], user, items[i], clock[i])
    requires RowFor(next[|prev|], user, items[|prev| - |base|], clock[|prev| - |base|])
    ensures forall i :: 0 <= i < |next| - |base| ==> RowFor(next[|base| + i], user, items[i], clock[i])
  {
    forall i | 0 <= i < |next| - |base|
      ensures RowFor(next[|base| + i], user, items[i], clock[i])
    {
      if i < |prev| - |base| {
        assert next[|base| + i] == prev[|base| + i];
      }
    }
  }

  /** One more success keeps "every outcome succeeded". */
  lemma SucceededExtend(outcomes: seq<ItemOutcome>, o: ItemOutcome)
    requires forall i :: 0 <= i < |outcomes| ==> outcomes[i].Succeeded?
    requires o.Succeeded?
    ensures forall i :: 0 <= i < |outcomes| + 1 ==> (outcomes + [o])[i].Succeeded?
  {
  }

  /** Outcomes that all succeeded leave "failed" empty. */
  lemma AllSucceededNoFailures(outcomes: seq<ItemOutcome>)
    requires forall i :: 0 <= i < |outcomes| ==> outcomes[i].Succeeded?
    ensures Failures(outcomes) == []
  {
    Partition(outcomes);
  }

  /**
   * The body of the loop for one item: an incomplete item fails without
   * touching the store; a complete one goes through `create_user_product`,
   * and whatever it raises becomes the failure's reason.  `sessionFailed`
   * says whether that was the failed commit of a row without a productId.
   */
  method AddItem(db: Db, user: Id, item: MassItem, insert: CatalogInsert, now: string)
    returns (o: ItemOutcome, sessionFailed: bool)
    requires db.Valid() && UserExists(db.users, Some(user))
    modifies db
    ensures db.Valid()
    ensures db.users == old(db.users) && db.nutrition == old(db.nutrition)
    ensures db.notifications == old(db.notifications)
    ensures Handled(TablesOf(db), o, sessionFailed) == ItemStep(old(TablesOf(db)), user, item, insert, now)
  {
    if !Complete(item) {
      return Failed(FailedItem(Some(EchoOf(item)), MissingFields)), false;
    }
    var res := CreateUserProduct(db, user, item.productName.value, item.quantity.value, item.expiryDate.value,
                                 item.notes, item.scanned, insert, now);
    o := OutcomeOf(item, res);
    sessionFailed := res == Err(Crash(NullProductCrash));
  }

  /**
   * One turn of the bulk loop on the store: on a failed session a complete
   * item fails at its first query, otherwise it goes through AddItem.
   */
  method BulkTurn(db: Db, user: Id, item: MassItem, insert: CatalogInsert, now: string, sessionFailed: bool,
                  ghost outcomes: seq<ItemOutcome>)
    returns (o: ItemOutcome, failedAfter: bool)
    requires db.Valid() && UserExists(db.users, Some(user))
    modifies db
    ensures db.Valid()
    ensures db.users == old(db.users) && db.nutrition == old(db.nutrition)
    ensures db.notifications == old(db.notifications)
    ensures Run(TablesOf(db), outcomes + [o], failedAfter)
      == Turn(Run(old(TablesOf(db)), outcomes, sessionFailed), user, item, insert, now)
  {
    if sessionFailed && Complete(item) {
      return Failed(FailedItem(Some(EchoOf(item)), PendingRollback)), true;
    }
    var failedNow;
    o, failedNow := AddItem(db, user, item, insert, now);
    failedAfter := sessionFailed || failedNow;
  }

  /**
   * `add_mass_user_products`.  `inserts[i]` is what `add_product_to_inventory`
   * does if item i needs it, `clock[i]` the time item i is created at.  An
   * unknown user gets one failure and nothing changes; otherwise the store
   * ends up as MassRun says and the reply lists its outcomes.  The session
   * is not rolled back after a failed commit: the loop keeps going, and every
   * later complete item fails on its first query.
   */
  method AddMassUserProducts(db: Db, user: Option<Id>, items: seq<MassItem>, inserts: seq<CatalogInsert>,
                             clock: seq<string>)
    returns (r: MassReply)
    requires db.Valid()
    requires |inserts| == |items| && |clock| == |items|
    modifies db
    ensures db.Valid()
    ensures db.users == old(db.users) && db.nutrition == old(db.nutrition)
    ensures db.notifications == old(db.notifications)
    ensures !UserExists(old(db.users), user) ==>
      r == MassReply([], [FailedItem(None, "User does not exist")])
      && db.products == old(db.products) && db.rows == old(db.rows)
    ensures UserExists(old(db.users), user) ==>
      var run := MassRun(old(TablesOf(db)), user.value, items, inserts, clock, |items|);
      TablesOf(db) == run.tables && r == MassReply(Successes(run.outcomes), Failures(run.outcomes))
  {
    if !UserExists(db.users, user) {
      return MassReply([], [FailedItem(None, "User does not exist")]);
    }
    ghost var t0 := TablesOf(db);
    ghost var outcomes: seq<ItemOutcome> := [];
    var success: seq<CreateReply> := [];
    var failed: seq<FailedItem> := [];
    var sessionFailed := false;
    var i := 0;
    while i < |items|
      invariant 0 <= i <= |items|
      invariant db.Valid()
      invariant db.users == old(db.users) && db.nutrition == old(db.nutrition)
      invariant db.notifications == old(db.notifications)
      invariant Run(TablesOf(db), outcomes, sessionFailed) == MassRun(t0, user.value, items, inserts, clock, i)
      invariant success == Successes(outcomes) && failed == Failures(outcomes)
    {
      var o;
      o, sessionFailed := BulkTurn(db, user.value, items[i], inserts[i], clock[i], sessionFailed, outcomes);
      match o {
        case Succeeded(reply) => success := success + [reply];
        case Failed(f) => failed := failed + [f];
      }
      ListsAppend(outcomes, o);
      outcomes := outcomes + [o];
      i := i + 1;
    }
    r := MassReply(success, failed);
  }

  /** With a known user, every item is answered exactly once, and an incomplete item always shows up under "failed". */
  lemma MassAddAccounts(t: Tables, user: Id, items: seq<MassItem>, inserts: seq<CatalogInsert>, clock: seq<string>)
    requires |inserts| == |items| && |clock| == |items|
    ensures var outcomes := MassRun(t, user, items, inserts, clock, |items|).outcomes;
      && |Successes(outcomes)| + |Failures(outcomes)| == |items|
      && ((exists i :: 0 <= i < |items| && !Complete(items[i])) ==> |Failures(outcomes)| > 0)
  {
    var outcomes := MassRun(t, user, items, inserts, clock, |items|).outcomes;
    MassRunAnswers(t, user, items, inserts, clock, |items|);
    Partition(outcomes);
    if exists i :: 0 <= i < |items| && !Complete(items[i]) {
      var i :| 0 <= i < |items| && !Complete(items[i]);
      FailuresHas(outcomes, i);
    }
  }

  lemma {:induction false} FailuresHas(outcomes: seq<ItemOutcome>, i: nat)
    requires i < |outcomes| && outcomes[i].Failed?
    ensures outcomes[i].item in Failures(outcomes)
  {
    var init := outcomes[..|outcomes| - 1];
    if i < |outcomes| - 1 {
      FailuresHas(init, i);
    }
  }
}
