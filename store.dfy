/**
 * The relational store the handlers share, held in memory: one sequence per
 * table in the order a query without ORDER BY returns its rows, and a
 * counter that stands in for uuid4 and auto-increment ids.  A method that
 * changes a table reassigns its sequence; committing is not modelled
 * separately because every modelled handler commits what it changed.
 */
module Store {
  import opened Wrappers
  import opened Entities

  /** `query.filter(p).first()`: the position of the first element satisfying p. */
  function FirstIndex<T>(s: seq<T>, p: T -> bool): (r: Option<nat>)
    ensures r.Some? ==> r.value < |s| && p(s[r.value])
    ensures r.Some? ==> forall j :: 0 <= j < r.value ==> !p(s[j])
    ensures r.None? <==> forall j :: 0 <= j < |s| ==> !p(s[j])
  {
    if s == [] then None
    else if p(s[0]) then Some(0)
    else match FirstIndex(s[1..], p)
      case None => None
      case Some(k) => Some(k + 1)
  }

  /**
   * A loop that builds one result per element and stops at the first
   * failure: all the results in order, or that failure.
   */
  function Collect<T, U>(s: seq<T>, f: T -> Result<U>): (r: Result<seq<U>>)
    ensures r.Ok? ==> |r.value| == |s|
  {
    if s == [] then Ok([])
    else
      match Collect(s[..|s| - 1], f)
      case Err(e) => Err(e)
      case Ok(us) =>
        match f(s[|s| - 1])
        case Err(e) => Err(e)
        case Ok(u) => Ok(us + [u])
  }

  /** Collect succeeds exactly when every element does, and then holds each element's result at its position. */
  lemma {:induction false} CollectAt<T, U>(s: seq<T>, f: T -> Result<U>)
    ensures var r := Collect(s, f);
      && (r.Ok? <==> forall i :: 0 <= i < |s| ==> f(s[i]).Ok?)
      && (r.Ok? ==> forall i :: 0 <= i < |s| ==> r.value[i] == f(s[i]).value)
  {
    if s != [] {
      var init := s[..|s| - 1];
      CollectAt(init, f);
      assert forall i :: 0 <= i < |init| ==> init[i] == s[i];
    }
  }

  /** Once a prefix fails, the whole collection fails the same way. */
  lemma {:induction false} CollectFailedPrefix<T, U>(s: seq<T>, n: nat, f: T -> Result<U>)
    requires n <= |s| && Collect(s[..n], f).Err?
    ensures Collect(s, f) == Collect(s[..n], f)
    decreases |s| - n
  {
    if n < |s| {
      assert s[..n + 1][..n] == s[..n];
      CollectFailedPrefix(s, n + 1, f);
    } else {
      assert s[..n] == s;
    }
  }

  /** `query.filter(p).all()`: the elements satisfying p, in store order. */
  function Filter<T>(s: seq<T>, p: T -> bool): (r: seq<T>)
    ensures |r| <= |s|
    ensures forall x :: x in r ==> x in s && p(x)
    ensures forall x :: x in s && p(x) ==> x in r
  {
    if s == [] then []
    else if p(s[0]) then [s[0]] + Filter(s[1..], p)
    else Filter(s[1..], p)
  }

  /** Number of elements satisfying p: `func.count()` under a filter. */
  function Count<T>(s: seq<T>, p: T -> bool): (n: nat)
    ensures n <= |s|
  {
    if s == [] then 0 else (if p(s[0]) then 1 else 0) + Count(s[1..], p)
  }

  lemma {:induction false} FilterCount<T>(s: seq<T>, p: T -> bool)
    ensures |Filter(s, p)| == Count(s, p)
  {
    if s != [] { FilterCount(s[1..], p); }
  }

  lemma {:induction false} FilterAppend<T>(a: seq<T>, b: seq<T>, p: T -> bool)
    ensures Filter(a + b, p) == Filter(a, p) + Filter(b, p)
  {
    if a == [] {
      assert a + b == b;
    } else {
      var ab := a + b;
      assert ab[0] == a[0] && ab[1..] == a[1..] + b;
      FilterAppend(a[1..], b, p);
      var rest := Filter(a[1..], p) + Filter(b, p);
      assert Filter(ab[1..], p) == rest;
      if p(a[0]) {
        assert Filter(ab, p) == [a[0]] + rest;
        assert Filter(a, p) == [a[0]] + Filter(a[1..], p);
        assert [a[0]] + rest == ([a[0]] + Filter(a[1..], p)) + Filter(b, p);
      } else {
        assert Filter(ab, p) == rest;
        assert Filter(a, p) == Filter(a[1..], p);
      }
    }
  }

  lemma {:induction false} CountAppend<T>(a: seq<T>, b: seq<T>, p: T -> bool)
    ensures Count(a + b, p) == Count(a, p) + Count(b, p)
  {
    if a == [] {
      assert a + b == b;
    } else {
      assert (a + b)[0] == a[0] && (a + b)[1..] == a[1..] + b;
      CountAppend(a[1..], b, p);
    }
  }

  function UserIds(users: seq<User>): set<Id> {
    set u | u in users :: u.id
  }

  /** `db.query(User).filter_by(id=user_id).first()` is not None. */
  predicate UserExists(users: seq<User>, id: Option<Id>) {
    id.Some? && exists u :: u in users && u.id == id.value
  }

  /** `query(Nutrition).filter(Nutrition.id == id).first()`; a null id matches no row. */
  function FindNutrition(nutrition: seq<NutritionRow>, id: Option<Id>): (r: Option<nat>)
    ensures r.Some? ==> r.value < |nutrition| && Some(nutrition[r.value].id) == id
    ensures r.Some? ==> forall i :: 0 <= i < r.value ==> Some(nutrition[i].id) != id
    ensures r.None? <==> forall i :: 0 <= i < |nutrition| ==> Some(nutrition[i].id) != id
  {
    if nutrition == [] then None
    else if Some(nutrition[0].id) == id then Some(0)
    else match FindNutrition(nutrition[1..], id)
      case None => None
      case Some(k) => Some(k + 1)
  }

  class Db {
    var users: seq<User>
    var products: seq<CatalogProduct>
    var nutrition: seq<NutritionRow>
    var rows: seq<InventoryRow>
    var notifications: seq<Notification>
    /** Every id handed out so far is below this. */
    var nextId: Id

    ghost predicate Valid()
      reads this
    {
      && (forall i :: 0 <= i < |users| ==> users[i].id < nextId)
      && (forall i :: 0 <= i < |products| ==> products[i].id < nextId)
      && (forall i :: 0 <= i < |nutrition| ==> nutrition[i].id < nextId)
      && (forall i :: 0 <= i < |rows| ==> rows[i].id < nextId)
      && (forall i :: 0 <= i < |notifications| ==> notifications[i].id < nextId)
    }

    constructor ()
      ensures Valid()
      ensures users == [] && products == [] && nutrition == [] && rows == [] && notifications == []
      ensures nextId == 1
    {
      users, products, nutrition, rows, notifications := [], [], [], [], [];
      nextId := 1;
    }

    /** A fresh primary key: no row of any table has it. */
    method NewId() returns (id: Id)
      requires Valid()
      modifies this`nextId
      ensures Valid()
      ensures id == old(nextId) && nextId == id + 1
    {
      id := nextId;
      nextId := nextId + 1;
    }
  }
}
