/**
 * The tables behind backend/app/routes/auth.py and app/routes/product.py:
 * accounts, products that belong to one user and carry their own expiry
 * date (app/models/product.py), and nutrition rows with the five columns
 * of app/models/nutrition.py.  As in the inventory store, each table is a
 * sequence in query order and a counter hands out fresh ids.
 */
module BackendStore {
  import opened Wrappers
  import opened Entities

  /** One row of the `product` table. */
  datatype OwnedProduct = OwnedProduct(
    id: Id,
    name: string,
    category: string,
    userId: Id,
    expiryDate: string,
    nutritionId: Option<Id>)

  class BackendDb {
    var users: seq<User>
    var products: seq<OwnedProduct>
    var nutrition: seq<NutritionRow>
    /** Every id handed out so far is below this. */
    var nextId: Id

    ghost predicate Valid()
      reads this
    {
      && (forall i :: 0 <= i < |users| ==> users[i].id < nextId)
      && (forall i :: 0 <= i < |products| ==> products[i].id < nextId)
      && (forall i :: 0 <= i < |nutrition| ==> nutrition[i].id < nextId)
    }

    constructor ()
      ensures Valid()
      ensures users == [] && products == [] && nutrition == [] && nextId == 1
    {
      users, products, nutrition := [], [], [];
      nextId := 1;
    }

    /** A fresh primary key: no row of any table has it. */
    method NewId() returns (id: Id)
      requires Valid()
      modifies this`nextId
      ensures Valid()
      ensures id == old(nextId) && nextId == id + 1
    {
      id := nextId;
      nextId := nextId + 1;
    }
  }
}
