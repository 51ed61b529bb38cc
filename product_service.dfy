/**
 * app/services/product_service.py: one run of the expiry scanner.
 *
 * The run selects, in store order, the inventory rows that are still
 * active and whose expiry date sorts before the run's timestamp.  For each
 * of them in turn it looks the catalog product up, marks the row expired,
 * pushes a live alert to the row's user, appends a warning to the
 * notification log (whose commit also writes the row) and commits again.
 * Nothing isolates one row from the next: a row whose catalog product is
 * gone raises, and the run stops there with the earlier rows committed and
 * that row not.
 *
 * `now` is the run's `utcnow().isoformat()`, `sendOk(j)` whether the push
 * for the j-th selected row reaches its socket, and `loggedAt(j)` the clock
 * reading `add_notification_to_db` stamps the j-th notification with.
 */
module ProductService {
  import opened Wrappers
  import opened Timestamps
  import opened Entities
  import opened Store
  import opened ProductUtils
  import opened NotificationService

  /** The query's filter: `status == "active"` and `expiryDate < current_time` as strings. */
  predicate IsDue(row: InventoryRow, now: string) {
    row.status == Active && LexLess(row.expiryDate, now)
  }

  /** The positions, from `start` on, of the rows the query returns, in store order. */
  function DueFrom(rows: seq<InventoryRow>, now: string, start: nat): (r: seq<nat>)
    requires start <= |rows|
    ensures forall k :: 0 <= k < |r| ==> start <= r[k] < |rows|
    decreases |rows| - start
  {
    if start == |rows| then []
    else if IsDue(rows[start], now) then [start] + DueFrom(rows, now, start + 1)
    else DueFrom(rows, now, start + 1)
  }

  lemma DueFromSpec(rows: seq<InventoryRow>, now: string, start: nat)
    requires start <= |rows|
    ensures var r := DueFrom(rows, now, start);
      && (forall k :: 0 <= k < |r| ==> IsDue(rows[r[k]], now))
      && (forall i :: start <= i < |rows| && IsDue(rows[i], now) ==> i in r)
      && (forall a, b :: 0 <= a < b < |r| ==> r[a] < r[b])
  {
    DueFromSound(rows, now, start);
    DueFromComplete(rows, now, start);
    DueFromIncreasing(rows, now, start);
  }

  lemma {:induction false} DueFromSound(rows: seq<InventoryRow>, now: string, start: nat)
    requires start <= |rows|
    ensures forall k :: 0 <= k < |DueFrom(rows, now, start)| ==> IsDue(rows[DueFrom(rows, now, start)[k]], now)
    decreases |rows| - start
  {
    if start < |rows| {
      DueFromSound(rows, now, start + 1);
      var rest := DueFrom(rows, now, start + 1);
      var r := DueFrom(rows, now, start);
      if IsDue(rows[start], now) {
        assert r == [start] + rest;
        forall k | 0 <= k < |r|
          ensures IsDue(rows[r[k]], now)
        {
          if k > 0 {
            assert r[k] == rest[k - 1];
            assert IsDue(rows[rest[k - 1]], now);
          } else {
            assert r[0] == start;
          }
        }
      } else {
        assert r == rest;
      }
    }
  }

  lemma {:induction false} DueFromComplete(rows: seq<InventoryRow>, now: string, start: nat)
    requires start <= |rows|
    ensures var r := DueFrom(rows, now, start);
      forall i :: start <= i < |rows| && IsDue(rows[i], now) ==> i in r
    decreases |rows| - start
  {
    if start < |rows| {
      DueFromComplete(rows, now, start + 1);
      var rest := DueFrom(rows, now, start + 1);
      var r := DueFrom(rows, now, start);
      if IsDue(rows[start], now) {
        assert r == [start] + rest;
        forall i | start <= i < |rows| && IsDue(rows[i], now)
          ensures i in r
        {
          if i > start { assert i in rest; } else { assert r[0] == i; }
        }
      }
    }
  }

  lemma {:induction false} DueFromIncreasing(rows: seq<InventoryRow>, now: string, start: nat)
    requires start <= |rows|
    ensures forall a, b :: 0 <= a < b < |DueFrom(rows, now, start)| ==> DueFrom(rows, now, start)[a] < DueFrom(rows, now, start)[b]
    decreases |rows| - start
  {
    if start < |rows| {
      DueFromIncreasing(rows, now, start + 1);
      var rest := DueFrom(rows, now, start + 1);
      var r := DueFrom(rows, now, start);
      if IsDue(rows[start], now) {
        assert r == [start] + rest;
        forall a, b | 0 <= a < b < |r|
          ensures r[a] < r[b]
        {
          assert r[b] == rest[b - 1] && start + 1 <= rest[b - 1];
          if a > 0 {
            assert r[a] == rest[a - 1];
          } else {
            assert r[0] == start;
          }
        }
      } else {
        assert r == rest;
      }
    }
  }

  /** The query: the positions of the rows it returns, in store order. */
  function DueIndices(rows: seq<InventoryRow>, now: string): (r: seq<nat>)
    ensures Selection(rows, r)
  {
    DueFrom(rows, now, 0)
  }

  /**
   * A run selects exactly the active rows whose expiry date sorts strictly
   * before the run's timestamp, each once, in store order.
   */
  lemma DueIndicesSpec(rows: seq<InventoryRow>, now: string)
    ensures var r := DueIndices(rows, now);
      && (forall k :: 0 <= k < |r| ==> r[k] < |rows| && rows[r[k]].status == Active && LexLess(rows[r[k]].expiryDate, now))
      && (forall i :: 0 <= i < |rows| && rows[i].status == Active && LexLess(rows[i].expiryDate, now) ==> i in r)
      && (forall a, b :: 0 <= a < b < |r| ==> r[a] < r[b])
  {
    DueFromSpec(rows, now, 0);
  }

  /** Positions into `rows`, as the query returns them. */
  predicate Selection(rows: seq<InventoryRow>, due: seq<nat>) {
    forall m :: 0 <= m < |due| ==> due[m] < |rows|
  }

  /** `product.status = "expired"; product.updatedAt = current_time` */
  function Expire(row: InventoryRow, now: string): InventoryRow {
    row.(status := Expired, updatedAt := now)
  }

  /** The store after the due rows before position `p` have been expired. */
  function ExpireDueBefore(rows: seq<InventoryRow>, now: string, p: nat): (r: seq<InventoryRow>)
    ensures |r| == |rows|
  {
    seq(|rows|, i requires 0 <= i < |rows| =>
      if i < p && IsDue(rows[i], now) then Expire(rows[i], now) else rows[i])
  }

  /** The store after a run that handled every selected row. */
  function ExpireDue(rows: seq<InventoryRow>, now: string): (r: seq<InventoryRow>)
    ensures |r| == |rows|
  {
    ExpireDueBefore(rows, now, |rows|)
  }

  /**
   * A selected row ends expired, stamped with the run's time, with every
   * other column kept; any other row is left exactly as it was, and a row
   * that expires at the very instant of the run is not selected.
   */
  lemma ExpireDueEffect(rows: seq<InventoryRow>, now: string, i: nat)
    requires i < |rows|
    ensures IsDue(rows[i], now) ==>
      ExpireDue(rows, now)[i] == rows[i].(status := Expired, updatedAt := now)
    ensures !IsDue(rows[i], now) ==> ExpireDue(rows, now)[i] == rows[i]
    ensures rows[i].expiryDate == now ==> ExpireDue(rows, now)[i] == rows[i]
  {
    LexLessIrreflexive(now);
  }

  /** A second run at the same timestamp selects nothing. */
  lemma SecondRunSelectsNothing(rows: seq<InventoryRow>, now: string)
    ensures DueIndices(ExpireDue(rows, now), now) == []
  {
    var after := ExpireDue(rows, now);
    assert forall i :: 0 <= i < |after| ==> !IsDue(after[i], now);
    NothingDue(after, now, 0);
  }

  lemma {:induction false} NothingDue(rows: seq<InventoryRow>, now: string, start: nat)
    requires start <= |rows|
    requires forall i :: start <= i < |rows| ==> !IsDue(rows[i], now)
    ensures DueFrom(rows, now, start) == []
    decreases |rows| - start
  {
    if start < |rows| {
      NothingDue(rows, now, start + 1);
    }
  }

  function ExpiryMessage(name: string): string {
    "Product " + name + " has expired"
  }

  /** The catalog name of a product; only read where the product exists. */
  function NameAt(products: seq<CatalogProduct>, productId: Id): string {
    match FindProduct(products, productId)
    case Some(k) => products[k].name
    case None => ""
  }

  /** The dict pushed to the row's user. */
  function AlertFor(row: InventoryRow, name: string, now: string): Frame {
    ExpiryAlert(ExpiryMessage(name), name, row.expiryDate, now)
  }

  /** The warning `add_notification_to_db` appends for the row. */
  function NoticeFor(row: InventoryRow, name: string, id: Id, at: string): Notification {
    Notification(id, row.userId, ExpiryMessage(name), Warning, at, false)
  }

  /** The steps for one handled row, in the order the loop body takes them. */
  function RowSteps(i: nat, row: InventoryRow, name: string, id: Id, now: string, at: string): seq<Step> {
    [MarkExpired(i), Push(row.userId, AlertFor(row, name, now)), Persist(NoticeFor(row, name, id, at)), Commit]
  }

  datatype ScanOutcome =
    | Completed
    /** `product_details.name` on None: the run raised at this row. */
    | Stopped(row: nat)

  /**
   * How many selected rows, counting from the j-th, the loop gets through:
   * the position of the first one whose catalog product is gone, or the
   * number of selected rows if there is none.
   */
  function FirstMissing(products: seq<CatalogProduct>, rows: seq<InventoryRow>, due: seq<nat>, j: nat): (k: nat)
    requires Selection(rows, due) && j <= |due|
    ensures j <= k <= |due|
    ensures forall m :: j <= m < k ==> FindProduct(products, rows[due[m]].productId).Some?
    ensures k < |due| ==> FindProduct(products, rows[due[k]].productId).None?
    decreases |due| - j
  {
    if j == |due| || FindProduct(products, rows[due[j]].productId).None? then j
    else FirstMissing(products, rows, due, j + 1)
  }

  /** Where the loop is about to look, as a store position. */
  function Bound(due: seq<nat>, j: nat, n: nat): nat {
    if j < |due| then due[j] else n
  }

  /**
   * Expiring the next selected row moves the boundary to the selected row
   * after it: no due row lies strictly between two consecutive selected ones.
   */
  lemma ExpireNextDue(rows: seq<InventoryRow>, now: string, j: nat)
    requires j < |DueIndices(rows, now)|
    ensures var due := DueIndices(rows, now);
      var before := ExpireDueBefore(rows, now, due[j]);
      before[due[j]] == rows[due[j]]
      && before[due[j] := Expire(rows[due[j]], now)]
         == ExpireDueBefore(rows, now, Bound(due, j + 1, |rows|))
  {
    var due := DueIndices(rows, now);
    DueIndicesSpec(rows, now);
    var i := due[j];
    var before := ExpireDueBefore(rows, now, i);
    var b := Bound(due, j + 1, |rows|);
    var target := ExpireDueBefore(rows, now, b);
    assert i < b;
    forall x | 0 <= x < |rows|
      ensures before[i := Expire(rows[i], now)][x] == target[x]
    {
      if x != i && IsDue(rows[x], now) && i < x {
        var kx :| 0 <= kx < |due| && due[kx] == x;
        assert j < kx;
      }
    }
  }

  /** Before the loop starts, no row is expired yet. */
  lemma ExpireNoneYet(rows: seq<InventoryRow>, now: string)
    ensures ExpireDueBefore(rows, now, Bound(DueIndices(rows, now), 0, |rows|)) == rows
  {
    var due := DueIndices(rows, now);
    DueIndicesSpec(rows, now);
    var b := Bound(due, 0, |rows|);
    forall x | 0 <= x < |rows| && IsDue(rows[x], now)
      ensures b <= x
    {
      var kx :| 0 <= kx < |due| && due[kx] == x;
      if kx > 0 {
        assert due[0] < due[kx];
      }
    }
  }

  /** The warnings a run appends for its first k selected rows, ids counting up from `firstId`. */
  function Notices(rows: seq<InventoryRow>, products: seq<CatalogProduct>, due: seq<nat>,
                   firstId: Id, loggedAt: nat -> string, k: nat): (r: seq<Notification>)
    requires Selection(rows, due) && k <= |due|
    ensures |r| == k
  {
    if k == 0 then []
    else
      var row := rows[due[k - 1]];
      Notices(rows, products, due, firstId, loggedAt, k - 1)
        + [NoticeFor(row, NameAt(products, row.productId), firstId + (k - 1), loggedAt(k - 1))]
  }

  /**
   * The steps a run takes for its first k selected rows, four per row in
   * query order: the row is marked expired, then the alert goes to the
   * row's user, then its warning is persisted (with the row) and the
   * session is committed.
   */
  function Steps(rows: seq<InventoryRow>, products: seq<CatalogProduct>, due: seq<nat>,
                 firstId: Id, now: string, loggedAt: nat -> string, k: nat): (r: seq<Step>)
    requires Selection(rows, due) && k <= |due|
    ensures |r| == 4 * k
  {
    if k == 0 then []
    else
      var row := rows[due[k - 1]];
      Steps(rows, products, due, firstId, now, loggedAt, k - 1)
        + RowSteps(due[k - 1], row, NameAt(products, row.productId), firstId + (k - 1), now, loggedAt(k - 1))
  }

  /**
   * The m-th warning a run appends is for the m-th selected row: it goes
   * to that row's user, is an unread "warning" naming the row's catalog
   * product, and carries the m-th fresh id.
   */
  lemma {:induction false} NoticesAt(rows: seq<InventoryRow>, products: seq<CatalogProduct>, due: seq<nat>,
                                     firstId: Id, loggedAt: nat -> string, k: nat, m: nat)
    requires Selection(rows, due) && k <= |due| && m < k
    ensures var n := Notices(rows, products, due, firstId, loggedAt, k)[m];
      var row := rows[due[m]];
      && n.id == firstId + m && n.userId == row.userId && n.kind == Warning && n.kind.Name() == "warning"
      && n.message == "Product " + NameAt(products, row.productId) + " has expired"
      && n.createdAt == loggedAt(m) && !n.read
  {
    if m < k - 1 {
      NoticesAt(rows, products, due, firstId, loggedAt, k - 1, m);
    }
  }

  /**
   * The m-th group of four steps in a run's journal is for the m-th
   * selected row, in query order: the row is marked expired, then the alert
   * naming its product, expiry date and the run's time goes to the row's
   * user, then the row's warning is persisted (with the row) and the
   * session is committed.
   */
  lemma {:induction false} StepsAt(rows: seq<InventoryRow>, products: seq<CatalogProduct>, due: seq<nat>,
                                   firstId: Id, now: string, loggedAt: nat -> string, k: nat, m: nat)
    requires Selection(rows, due) && k <= |due| && m < k
    ensures var row := rows[due[m]];
      var name := NameAt(products, row.productId);
      Steps(rows, products, due, firstId, now, loggedAt, k)[4 * m..4 * m + 4] ==
        [MarkExpired(due[m]),
         Push(row.userId, ExpiryAlert("Product " + name + " has expired", name, row.expiryDate, now)),
         Persist(Notices(rows, products, due, firstId, loggedAt, k)[m]),
         Commit]
  {
    var prev := Steps(rows, products, due, firstId, now, loggedAt, k - 1);
    var row := rows[due[k - 1]];
    var last := RowSteps(due[k - 1], row, NameAt(products, row.productId), firstId + (k - 1), now, loggedAt(k - 1));
    assert Steps(rows, products, due, firstId, now, loggedAt, k) == prev + last;
    AppendSlices(prev, last, 4 * m);
    if m < k - 1 {
      StepsAt(rows, products, due, firstId, now, loggedAt, k - 1, m);
      NoticesPrefix(rows, products, due, firstId, loggedAt, k, m);
    }
  }

  /** A four-step window of `a + b` lies in `a` when it starts before `|a|`, and is `b` when it starts there. */
  lemma AppendSlices(a: seq<Step>, b: seq<Step>, lo: nat)
    requires |a| % 4 == 0 && |b| == 4 && lo % 4 == 0 && lo <= |a|
    ensures lo < |a| ==> (a + b)[lo..lo + 4] == a[lo..lo + 4]
    ensures lo == |a| ==> (a + b)[lo..lo + 4] == b
  {
    if lo < |a| {
      assert (a + b)[lo..lo + 4] == a[lo..lo + 4];
    } else {
      assert (a + b)[lo..lo + 4] == b;
    }
  }

  lemma NoticesPrefix(rows: seq<InventoryRow>, products: seq<CatalogProduct>, due: seq<nat>,
                      firstId: Id, loggedAt: nat -> string, k: nat, m: nat)
    requires Selection(rows, due) && k <= |due| && m < k - 1
    ensures Notices(rows, products, due, firstId, loggedAt, k)[m] == Notices(rows, products, due, firstId, loggedAt, k - 1)[m]
  {
  }

  /** The registry and socket log after the pushes for the first k selected rows. */
  function Pushes(w: Wire, rows: seq<InventoryRow>, products: seq<CatalogProduct>, due: seq<nat>,
                  now: string, sendOk: nat -> bool, k: nat): Wire
    requires Selection(rows, due) && k <= |due|
  {
    if k == 0 then w
    else
      var row := rows[due[k - 1]];
      Deliver(Pushes(w, rows, products, due, now, sendOk, k - 1),
              row.userId, AlertFor(row, NameAt(products, row.productId), now), sendOk(k - 1))
  }

  /**
   * What a run does to the registry and the sockets: it never adds or
   * re-points an entry and keeps every entry when every push succeeds;
   * it writes at most one frame per handled row, each an expiry alert
   * stamped with the run's time; and when every push succeeds, every
   * handled row whose user was connected has its alert on that user's
   * socket.
   */
  lemma PushesEffect(w: Wire, rows: seq<InventoryRow>, products: seq<CatalogProduct>,
                      due: seq<nat>, now: string, sendOk: nat -> bool, k: nat)
    requires Selection(rows, due) && k <= |due|
    ensures var r := Pushes(w, rows, products, due, now, sendOk, k);
      && r.connections.Keys <= w.connections.Keys
      && (forall key :: key in r.connections ==> r.connections[key] == w.connections[key])
      && ((forall m :: 0 <= m < k ==> sendOk(m)) ==> r.connections == w.connections)
      && |w.sent| <= |r.sent| <= |w.sent| + k
      && r.sent[..|w.sent|] == w.sent
      && (forall x :: |w.sent| <= x < |r.sent| ==>
            r.sent[x].frame.ExpiryAlert? && r.sent[x].frame.timestamp == now
            && r.sent[x].frame.message == ExpiryMessage(r.sent[x].frame.productName))
      && ((forall m :: 0 <= m < k ==> sendOk(m)) ==>
            forall m :: 0 <= m < k && Some(rows[due[m]].userId) in w.connections ==>
              var row := rows[due[m]];
              Delivery(w.connections[Some(row.userId)], AlertFor(row, NameAt(products, row.productId), now))
                in r.sent)
  {
    PushesRegistry(w, rows, products, due, now, sendOk, k);
    PushesLog(w, rows, products, due, now, sendOk, k);
    PushesReach(w, rows, products, due, now, sendOk, k);
  }

  lemma {:induction false} PushesRegistry(w: Wire, rows: seq<InventoryRow>, products: seq<CatalogProduct>,
                                          due: seq<nat>, now: string, sendOk: nat -> bool, k: nat)
    requires Selection(rows, due) && k <= |due|
    ensures var r := Pushes(w, rows, products, due, now, sendOk, k);
      && r.connections.Keys <= w.connections.Keys
      && (forall key :: key in r.connections ==> r.connections[key] == w.connections[key])
      && ((forall m :: 0 <= m < k ==> sendOk(m)) ==> r.connections == w.connections)
  {
    if k > 0 {
      var prev := Pushes(w, rows, products, due, now, sendOk, k - 1);
      var row := rows[due[k - 1]];
      PushesRegistry(w, rows, products, due, now, sendOk, k - 1);
      DeliverEffect(prev, row.userId, AlertFor(row, NameAt(products, row.productId), now), sendOk(k - 1));
    }
  }

  lemma {:induction false} PushesLog(w: Wire, rows: seq<InventoryRow>, products: seq<CatalogProduct>,
                                     due: seq<nat>, now: string, sendOk: nat -> bool, k: nat)
    requires Selection(rows, due) && k <= |due|
    ensures var r := Pushes(w, rows, products, due, now, sendOk, k);
      && |w.sent| <= |r.sent| <= |w.sent| + k
      && r.sent[..|w.sent|] == w.sent
      && (forall x :: |w.sent| <= x < |r.sent| ==>
            r.sent[x].frame.ExpiryAlert? && r.sent[x].frame.timestamp == now
            && r.sent[x].frame.message == ExpiryMessage(r.sent[x].frame.productName))
  {
    if k > 0 {
      var prev := Pushes(w, rows, products, due, now, sendOk, k - 1);
      var row := rows[due[k - 1]];
      var r := Pushes(w, rows, products, due, now, sendOk, k);
      PushesLog(w, rows, products, due, now, sendOk, k - 1);
      DeliverEffect(prev, row.userId, AlertFor(row, NameAt(products, row.productId), now), sendOk(k - 1));
      assert r.sent[..|prev.sent|] == prev.sent;
      assert r.sent[..|w.sent|] == r.sent[..|prev.sent|][..|w.sent|];
      forall x | |w.sent| <= x < |r.sent|
        ensures r.sent[x].frame.ExpiryAlert? && r.sent[x].frame.timestamp == now
        ensures r.sent[x].frame.message == ExpiryMessage(r.sent[x].frame.productName)
      {
        if x < |prev.sent| {
          assert r.sent[x] == prev.sent[x];
        }
      }
    }
  }

  lemma {:induction false} PushesReach(w: Wire, rows: seq<InventoryRow>, products: seq<CatalogProduct>,
                                       due: seq<nat>, now: string, sendOk: nat -> bool, k: nat)
    requires Selection(rows, due) && k <= |due|
    ensures var r := Pushes(w, rows, products, due, now, sendOk, k);
      (forall m :: 0 <= m < k ==> sendOk(m)) ==>
        && r.connections == w.connections
        && forall m :: 0 <= m < k && Some(rows[due[m]].userId) in w.connections ==>
             var row := rows[due[m]];
             Delivery(w.connections[Some(row.userId)], AlertFor(row, NameAt(products, row.productId), now))
               in r.sent
  {
    if k > 0 && forall m :: 0 <= m < k ==> sendOk(m) {
      var prev := Pushes(w, rows, products, due, now, sendOk, k - 1);
      var r := Pushes(w, rows, products, due, now, sendOk, k);
      PushesReach(w, rows, products, due, now, sendOk, k - 1);
      var row := rows[due[k - 1]];
      DeliverEffect(prev, row.userId, AlertFor(row, NameAt(products, row.productId), now), sendOk(k - 1));
      forall m | 0 <= m < k - 1 && Some(rows[due[m]].userId) in w.connections
        ensures Delivery(w.connections[Some(rows[due[m]].userId)],
                         AlertFor(rows[due[m]], NameAt(products, rows[due[m]].productId), now)) in r.sent
      {
        var d := Delivery(w.connections[Some(rows[due[m]].userId)],
                          AlertFor(rows[due[m]], NameAt(products, rows[due[m]].productId), now));
        var x :| 0 <= x < |prev.sent| && prev.sent[x] == d;
        assert r.sent[x] == d;
      }
    }
  }

  /** Everything a run writes: the inventory, the log and its id counter, the registry and sockets, the journal. */
  datatype ScanState = ScanState(
    rows: seq<InventoryRow>,
    notifications: seq<Notification>,
    nextId: Id,
    wire: Wire,
    trace: seq<Step>)

  /** One turn of the loop, for the selected row at store position i, whose product is called `name`. */
  function ProcessRow(s: ScanState, i: nat, name: string, now: string, ok: bool, at: string): (r: ScanState)
    requires i < |s.rows|
    ensures |r.rows| == |s.rows|
  {
    var row := s.rows[i];
    ScanState(
      s.rows[i := Expire(row, now)],
      s.notifications + [NoticeFor(row, name, s.nextId, at)],
      s.nextId + 1,
      Deliver(s.wire, row.userId, AlertFor(row, name, now), ok),
      s.trace + RowSteps(i, row, name, s.nextId, now, at))
  }

  /**
   * One turn expires exactly the handled row, appends one warning for that
   * row's owner to the log, and uses one notification id.
   */
  lemma ProcessRowEffect(s: ScanState, i: nat, name: string, now: string, ok: bool, at: string)
    requires i < |s.rows|
    ensures var r := ProcessRow(s, i, name, now, ok, at);
      && r.rows[i].status == Expired && (forall x :: 0 <= x < |s.rows| && x != i ==> r.rows[x] == s.rows[x])
      && |r.notifications| == |s.notifications| + 1 && r.notifications[..|s.notifications|] == s.notifications
      && r.notifications[|s.notifications|].userId == s.rows[i].userId && r.nextId == s.nextId + 1
  {
  }

  /** The state after the loop has gone through the first j selected rows. */
  function ScanFold(s0: ScanState, products: seq<CatalogProduct>, due: seq<nat>, now: string,
                    sendOk: nat -> bool, loggedAt: nat -> string, j: nat): (r: ScanState)
    requires Selection(s0.rows, due) && j <= |due|
    ensures |r.rows| == |s0.rows|
  {
    if j == 0 then s0
    else
      var s := ScanFold(s0, products, due, now, sendOk, loggedAt, j - 1);
      var i := due[j - 1];
      ProcessRow(s, i, NameAt(products, s.rows[i].productId), now, sendOk(j - 1), loggedAt(j - 1))
  }

  /**
   * The state after j turns of the loop, in closed form: the selected rows
   * before the (j+1)-th are expired, the log has gained the j warnings,
   * j ids are used, the registry and sockets are those after the j pushes,
   * and the journal has gained the j rows' steps.
   */
  function Closed(rows0: seq<InventoryRow>, log0: seq<Notification>, id0: Id, wire0: Wire, trace0: seq<Step>,
                  products: seq<CatalogProduct>, now: string, sendOk: nat -> bool,
                  loggedAt: nat -> string, j: nat): ScanState
    requires j <= |DueIndices(rows0, now)|
  {
    var due := DueIndices(rows0, now);
    ScanState(ExpireDueBefore(rows0, now, Bound(due, j, |rows0|)),
              log0 + Notices(rows0, products, due, id0, loggedAt, j),
              id0 + j,
              Pushes(wire0, rows0, products, due, now, sendOk, j),
              trace0 + Steps(rows0, products, due, id0, now, loggedAt, j))
  }

  /** One more turn of the loop moves the closed form from j - 1 to j. */
  lemma ClosedStep(rows0: seq<InventoryRow>, log0: seq<Notification>, id0: Id, wire0: Wire, trace0: seq<Step>,
                   products: seq<CatalogProduct>, now: string, sendOk: nat -> bool,
                   loggedAt: nat -> string, j: nat)
    requires 0 < j <= |DueIndices(rows0, now)|
    ensures var i := DueIndices(rows0, now)[j - 1];
      var s := Closed(rows0, log0, id0, wire0, trace0, products, now, sendOk, loggedAt, j - 1);
      i < |s.rows| && s.rows[i] == rows0[i]
      && ProcessRow(s, i, NameAt(products, rows0[i].productId), now, sendOk(j - 1), loggedAt(j - 1))
         == Closed(rows0, log0, id0, wire0, trace0, products, now, sendOk, loggedAt, j)
  {
    var due := DueIndices(rows0, now);
    ExpireNextDue(rows0, now, j - 1);
    var i := due[j - 1];
    var s := Closed(rows0, log0, id0, wire0, trace0, products, now, sendOk, loggedAt, j - 1);
    var r := ProcessRow(s, i, NameAt(products, rows0[i].productId), now, sendOk(j - 1), loggedAt(j - 1));
    var c := Closed(rows0, log0, id0, wire0, trace0, products, now, sendOk, loggedAt, j);
    assert r.rows == c.rows;
    assert r.notifications == c.notifications;
    assert r.trace == c.trace;
  }

  lemma {:induction false} ScanFoldClosed(rows0: seq<InventoryRow>, log0: seq<Notification>, id0: Id, wire0: Wire,
                                          trace0: seq<Step>, products: seq<CatalogProduct>, now: string, sendOk: nat -> bool,
                                          loggedAt: nat -> string, j: nat)
    requires j <= |DueIndices(rows0, now)|
    ensures ScanFold(ScanState(rows0, log0, id0, wire0, trace0), products, DueIndices(rows0, now), now, sendOk, loggedAt, j)
      == Closed(rows0, log0, id0, wire0, trace0, products, now, sendOk, loggedAt, j)
  {
    if j == 0 {
      ExpireNoneYet(rows0, now);
    } else {
      ScanFoldClosed(rows0, log0, id0, wire0, trace0, products, now, sendOk, loggedAt, j - 1);
      ClosedStep(rows0, log0, id0, wire0, trace0, products, now, sendOk, loggedAt, j);
    }
  }

  /** The scanner's view of the store, the registry and the journal. */
  ghost function Snapshot(db: Db, reg: Registry, journal: Journal): ScanState
    reads db, reg, journal
  {
    ScanState(db.rows, db.notifications, db.nextId, reg.State(), journal.steps)
  }

  /**
   * The loop body for the selected row at store position i, whose catalog
   * product is called `name`: mark it expired, push the alert, append and
   * commit the warning, then commit again.  The push and the warning record
   * their own steps, so the journal follows the order of the calls.
   */
  method HandleRow(db: Db, reg: Registry, journal: Journal, i: nat, name: string, now: string, ok: bool, at: string)
    requires db.Valid() && i < |db.rows|
    modifies db, reg, journal
    ensures db.Valid()
    ensures db.users == old(db.users) && db.products == old(db.products) && db.nutrition == old(db.nutrition)
    ensures Snapshot(db, reg, journal) == ProcessRow(old(Snapshot(db, reg, journal)), i, name, now, ok, at)
  {
    var row := db.rows[i];
    db.rows := db.rows[i := Expire(row, now)];
    journal.Record(MarkExpired(i));
    assert forall x :: 0 <= x < |db.rows| ==> db.rows[x].id == old(db.rows[x].id);
    reg.Send(row.userId, AlertFor(row, name, now), ok, journal);
    var notice := AddNotification(db, journal, row.userId, ExpiryMessage(name), Warning, at);
    journal.Record(Commit);
  }

  /**
   * `check_product_expiry`: one run.  With `due` the rows the query
   * selects and k the number of them the loop gets through, the run
   * completes iff k reaches the end of the selection; exactly the selected
   * rows before the stopping point are expired; the log gains exactly the
   * k warnings; the registry and sockets are those after the k pushes; the
   * journal gains the k rows' steps; and the catalog, users and nutrition
   * tables are untouched.
   */
  method CheckProductExpiry(db: Db, reg: Registry, journal: Journal, now: string,
                            sendOk: nat -> bool, loggedAt: nat -> string)
    returns (outcome: ScanOutcome)
    requires db.Valid()
    modifies db, reg, journal
    ensures db.Valid()
    ensures var rows0 := old(db.rows);
      var due := DueIndices(rows0, now);
      var k := FirstMissing(db.products, rows0, due, 0);
      && outcome == (if k == |due| then Completed else Stopped(due[k]))
      && db.rows == ExpireDueBefore(rows0, now, Bound(due, k, |rows0|))
      && db.notifications == old(db.notifications) + Notices(rows0, db.products, due, old(db.nextId), loggedAt, k)
      && db.nextId == old(db.nextId) + k
      && reg.State() == Pushes(old(reg.State()), rows0, db.products, due, now, sendOk, k)
      && journal.steps == old(journal.steps) + Steps(rows0, db.products, due, old(db.nextId), now, loggedAt, k)
    ensures db.users == old(db.users) && db.products == old(db.products) && db.nutrition == old(db.nutrition)
  {
    ghost var rows0 := db.rows;
    ghost var products := db.products;
    ghost var start := Snapshot(db, reg, journal);
    var due := DueIndices(db.rows, now);
    var j := 0;
    while j < |due|
      invariant j <= |due|
      invariant db.Valid()
      invariant db.users == old(db.users) && db.products == products && db.nutrition == old(db.nutrition)
      invariant FirstMissing(products, rows0, due, j) == FirstMissing(products, rows0, due, 0)
      invariant Snapshot(db, reg, journal) == ScanFold(start, products, due, now, sendOk, loggedAt, j)
      decreases |due| - j
    {
      ScanFoldClosed(rows0, start.notifications, start.nextId, start.wire, start.trace, products, now, sendOk, loggedAt, j);
      ExpireNextDue(rows0, now, j);
      var i := due[j];
      var found := FindProduct(db.products, db.rows[i].productId);
      if found.None? {
        outcome := Stopped(i);
        return;
      }
      var name := db.products[found.value].name;
      ghost var before := Snapshot(db, reg, journal);
      assert name == NameAt(products, before.rows[i].productId);
      HandleRow(db, reg, journal, i, name, now, sendOk(j), loggedAt(j));
      j := j + 1;
    }
    ScanFoldClosed(rows0, start.notifications, start.nextId, start.wire, start.trace, products, now, sendOk, loggedAt, j);
    outcome := Completed;
  }
}
