/**
 * The location routes: `POST /update`, through which a cart reports its
 * position, and `GET /history/:cartId`, which reads the location history
 * back. Both run behind `authMiddleware`; the request they receive is the
 * `AuthedRequest` it produced.
 */
module LocationRoute {
  import opened Js
  import opened CartModel
  import HistoryModel
  import opened Events
  import opened Http
  import opened Auth
  import opened Store
  import opened Presence

  /** A report that passed every check before the first write. */
  datatype Report = Report(latitude: real, longitude: real, accuracy: Value)

  datatype Screened = Rejected(resp: Response) | Accepted(report: Report)

  /**
   * The checks `POST /update` makes before it writes anything, in source
   * order: only carts may report (403); both coordinates must be truthy,
   * so 0 is refused (400); and the log line calls `toFixed` on both
   * coordinates and on a truthy accuracy, which throws unless they are
   * numbers (500 from the catch block).
   */
  function Screen(req: AuthedRequest, body: Object): (r: Screened)
    ensures UserType(req) != "cart" <==> r == Rejected(Fail(403, "Only carts can update location"))
    ensures UserType(req) == "cart" && (!Truthy(Get(body, Latitude)) || !Truthy(Get(body, Longitude))) <==>
              r == Rejected(Fail(400, "Latitude and longitude are required"))
    ensures r.Accepted? <==>
              && UserType(req) == "cart"
              && Get(body, Latitude).Num? && Get(body, Latitude).n != 0.0
              && Get(body, Longitude).Num? && Get(body, Longitude).n != 0.0
              && (Truthy(Get(body, Accuracy)) ==> Get(body, Accuracy).Num?)
    ensures r.Accepted? ==> r.report == Report(Get(body, Latitude).n, Get(body, Longitude).n, Get(body, Accuracy))
    ensures r.Rejected? ==> r.resp.status in {400, 403, 500}
  {
    var latitude, longitude, accuracy := Get(body, Latitude), Get(body, Longitude), Get(body, Accuracy);
    if UserType(req) != "cart" then Rejected(Fail(403, "Only carts can update location"))
    else if !Truthy(latitude) || !Truthy(longitude) then Rejected(Fail(400, "Latitude and longitude are required"))
    else if !latitude.Num? || !longitude.Num? || (Truthy(accuracy) && !accuracy.Num?) then Rejected(ServerError)
    else Accepted(Report(latitude.n, longitude.n, accuracy))
  }

  /** `accuracy || null` for an accuracy that is a number whenever it is truthy. */
  function StoredAccuracy(accuracy: Value): (r: Option<real>)
    ensures r.Some? <==> Truthy(accuracy) && accuracy.Num?
    ensures r.Some? ==> r.value == accuracy.n && r.value != 0.0
  {
    if Truthy(accuracy) && accuracy.Num? then Some(accuracy.n) else None
  }

  /**
   * The cart row after an accepted report at time `now` (lines 38-43):
   * the location columns hold the report, `lastSeen` and the location
   * timestamp are `now`, and the cart is online.
   */
  function Ingest(c: CartRow, report: Report, now: Millis): (r: CartRow)
    ensures WellFormed(r) && r.isOnline && r.lastSeen == Some(now)
    ensures r.lastLocationLatitude == Some(report.latitude) && r.lastLocationLongitude == Some(report.longitude)
    ensures r.lastLocationAccuracy == StoredAccuracy(report.accuracy) && r.lastLocationTimestamp == Some(now)
    ensures r.(isOnline := c.isOnline, lastSeen := c.lastSeen,
               lastLocationLatitude := c.lastLocationLatitude, lastLocationLongitude := c.lastLocationLongitude,
               lastLocationAccuracy := c.lastLocationAccuracy, lastLocationTimestamp := c.lastLocationTimestamp) == c
  {
    c.(lastLocationLatitude := Some(report.latitude),
       lastLocationLongitude := Some(report.longitude),
       lastLocationAccuracy := StoredAccuracy(report.accuracy),
       lastLocationTimestamp := Some(now),
       lastSeen := Some(now),
       isOnline := true)
  }

  /** The `location` object of the success response: the columns as stored. */
  function StoredLocation(c: CartRow): Object
  {
    map[
      Latitude := OfReal(c.lastLocationLatitude),
      Longitude := OfReal(c.lastLocationLongitude),
      Accuracy := OfReal(c.lastLocationAccuracy),
      Timestamp := OfDate(c.lastLocationTimestamp)]
  }

  /** The `cart-status-changed` broadcast sent once the row is saved, only for a cart that was offline. */
  function CameOnline(c: CartRow, now: Millis): (r: seq<Emission>)
    ensures |r| <= 1 && (r != [] <==> !c.isOnline)
    ensures r != [] ==> r[0] == Broadcast(CartStatusChanged(c.cartId, c.name, true, Some(now)))
  {
    if !c.isOnline then [Broadcast(CartStatusChanged(c.cartId, c.name, true, Some(now)))] else []
  }

  /** The broadcasts of an accepted report, in emission order. */
  function IngestEvents(c: CartRow, report: Report, now: Millis): (r: seq<Emission>)
    ensures |r| == if c.isOnline then 1 else 2
    ensures r[|r| - 1] == Broadcast(LocationUpdate(c.cartId, c.name, report.latitude, report.longitude, report.accuracy, now, true))
    ensures |r| == 2 <==> !c.isOnline
    ensures |r| == 2 ==> r[0] == Broadcast(CartStatusChanged(c.cartId, c.name, true, Some(now)))
    ensures r[..|r| - 1] == CameOnline(c, now)
  {
    var first := CameOnline(c, now);
    var r := first + [Broadcast(LocationUpdate(c.cartId, c.name, report.latitude, report.longitude, report.accuracy, now, true))];
    assert r[..|r| - 1] == first;
    r
  }

  /** A row of the table is found by its cart id. */
  lemma FoundInTable(carts: seq<CartRow>, c: CartRow)
    requires c in carts
    ensures IndexOf(carts, c.cartId).Some?
  {
    var i :| 0 <= i < |carts| && carts[i] == c;
    assert carts[i].cartId == c.cartId;
  }

  /**
   * Lines 35-59 of an accepted report: the loaded row takes the report's
   * location and the instant `now` as its last location and `lastSeen`,
   * goes online and is saved; a cart that was offline is announced.
   */
  method SaveIngested(db: Db, io: Io, loaded: CartRow, report: Report, now: Millis) returns (cart: CartRow)
    requires db.Valid() && loaded in db.carts
    modifies db, io
    ensures cart == Ingest(loaded, report, now)
    ensures db.Valid()
    ensures var i := IndexOf(old(db.carts), loaded.cartId).value;
      old(db.carts)[i] == loaded && db.carts == old(db.carts)[i := cart]
    ensures db.history == old(db.history) && db.nextHistoryId == old(db.nextHistoryId) && db.nextCartId == old(db.nextCartId)
    ensures io.log == old(io.log) + CameOnline(loaded, now)
  {
    cart := loaded;
    var timestamp := now;
    var wasOffline := !cart.isOnline;
    cart := cart.(lastLocationLatitude := Some(report.latitude));
    cart := cart.(lastLocationLongitude := Some(report.longitude));
    cart := cart.(lastLocationAccuracy := StoredAccuracy(report.accuracy));
    cart := cart.(lastLocationTimestamp := Some(timestamp));
    cart := cart.(lastSeen := Some(now));
    cart := cart.(isOnline := true);

    FoundInTable(db.carts, loaded);
    var i := IndexOf(db.carts, cart.cartId).value;
    IndexOfInTable(db.carts, loaded, i);
    assert cart == Ingest(db.carts[i], report, now);
    IngestKeepsTable(db.carts, i, report, now, db.nextCartId);
    db.SaveCart(i, cart);

    if wasOffline {
      io.Emit(CartStatusChanged(cart.cartId, cart.name, true, cart.lastSeen));
    }
  }

  /**
   * `POST /update`. Rejected requests change nothing. An accepted report
   * replaces the cart's row by `Ingest` of it, appends one history row,
   * emits `IngestEvents` and answers 200 with the stored location. The
   * three `new Date()` reads of the handler and the history default are
   * the one instant `now`. The handler's store calls are `cart.save()`
   * (save 0) and `LocationHistory.create` (save 1); either failing is
   * caught and answered 500, after whatever the earlier steps did. The
   * handler runs no query, so `QueryFails` and a later save index do not
   * apply to it.
   */
  method UpdateLocation(db: Db, io: Io, req: AuthedRequest, body: Object, now: Millis, fault: StoreFault)
    returns (resp: Response)
    requires db.Valid()
    requires req.CartRequest? ==> req.cart in db.carts
    modifies db, io
    ensures db.Valid()
    ensures db.nextCartId == old(db.nextCartId)
    ensures Screen(req, body).Rejected? || fault == SaveFails(0) ==>
              && resp == (if Screen(req, body).Rejected? then Screen(req, body).resp else ServerError)
              && db.carts == old(db.carts) && db.history == old(db.history)
              && db.nextHistoryId == old(db.nextHistoryId)
              && io.log == old(io.log)
    ensures Screen(req, body).Accepted? && fault != SaveFails(0) ==>
              var report := Screen(req, body).report;
              var i := IndexOf(old(db.carts), req.cart.cartId).value;
              var updated := Ingest(req.cart, report, now);
              && old(db.carts)[i] == req.cart
              && db.carts == old(db.carts)[i := updated]
              && (fault == SaveFails(1) ==>
                    && resp == ServerError
                    && db.history == old(db.history) && db.nextHistoryId == old(db.nextHistoryId)
                    && io.log == old(io.log) + CameOnline(req.cart, now))
              && (fault != SaveFails(1) ==>
                    && db.history == old(db.history) + [HistoryModel.Inserted(old(db.nextHistoryId), req.cart.cartId,
                                                          report.latitude, report.longitude, StoredAccuracy(report.accuracy), now)]
                    && db.nextHistoryId == old(db.nextHistoryId) + 1
                    && io.log == old(io.log) + IngestEvents(req.cart, report, now)
                    && resp == Response(200, LocatedBody("Location updated successfully", StoredLocation(updated))))
  {
    var screened := Screen(req, body);
    if screened.Rejected? {
      return screened.resp;
    }
    var report := screened.report;

    // cart.save()
    if fault == SaveFails(0) {
      return ServerError;
    }
    var cart := SaveIngested(db, io, req.cart, report, now);

    // LocationHistory.create(...)
    if fault == SaveFails(1) {
      return ServerError;
    }
    var row := HistoryModel.Inserted(db.nextHistoryId, cart.cartId, report.latitude, report.longitude,
                                     StoredAccuracy(report.accuracy), now);
    db.AppendHistory(row);

    io.Emit(LocationUpdate(cart.cartId, cart.name, report.latitude, report.longitude, report.accuracy, now, true));
    assert io.log == old(io.log) + IngestEvents(req.cart, report, now);

    resp := Response(200, LocatedBody("Location updated successfully", map[
      Latitude := OfReal(cart.lastLocationLatitude),
      Longitude := OfReal(cart.lastLocationLongitude),
      Accuracy := OfReal(cart.lastLocationAccuracy),
      Timestamp := OfDate(cart.lastLocationTimestamp)]));
  }

  /** With unique ids, the row found for `c`'s id is `c` itself. */
  lemma IndexOfInTable(carts: seq<CartRow>, c: CartRow, i: nat)
    requires UniqueCartIds(carts) && c in carts
    requires IndexOf(carts, c.cartId) == Some(i)
    ensures carts[i] == c
  {
    var j :| 0 <= j < |carts| && carts[j] == c;
    IndexOfUnique(carts, j);
  }

  /** Replacing a row by its ingested form keeps every table invariant. */
  lemma IngestKeepsTable(carts: seq<CartRow>, i: nat, report: Report, now: Millis, nextId: nat)
    requires TableValid(carts, nextId) && i < |carts|
    ensures TableValid(carts[i := Ingest(carts[i], report, now)], nextId)
  {
    var r := carts[i := Ingest(carts[i], report, now)];
    assert forall j :: 0 <= j < |carts| ==> r[j].cartId == carts[j].cartId && r[j].id == carts[j].id;
  }

  /**
   * What the cart sees in the response is what every later reader sees:
   * the serialised row's `lastLocation` holds the same four values as the
   * response's `location`.
   */
  lemma IngestReported(c: CartRow, report: Report, now: Millis)
    ensures Serialized(Ingest(c, report, now))[LastLocation] == Obj(StoredLocation(Ingest(c, report, now)))
  {
    SerializedLocation(Ingest(c, report, now));
  }

  /** A cart that has just reported is not demoted by a sweep whose cutoff is not after the report. */
  lemma IngestSurvivesSweep(c: CartRow, report: Report, now: Millis, cutoff: Millis)
    requires cutoff <= now
    ensures !Expired(Ingest(c, report, now), cutoff)
    ensures Settle(Ingest(c, report, now), cutoff) == Ingest(c, report, now)
  {
  }

  // ---------------------------------------------------------------------
  // GET /history/:cartId

  const DefaultHistoryLimit: nat := 100

  /**
   * `GET /history/:cartId`. The query parameters arrive already parsed:
   * `limit` is absent or the integer `parseInt` makes of it, and a date
   * bound is absent (or empty) or an instant. The `where` object is built
   * step by step and the answer is the serialised result of the history
   * query. The query fails, and the catch answers 500, when the store
   * fails or when `limit` is negative, which the database refuses as a
   * `LIMIT`. The handler saves nothing, so only `QueryFails` applies.
   */
  method GetHistory(db: Db, cartId: string, limit: Option<int>, startDate: Option<Millis>, endDate: Option<Millis>,
                    fault: StoreFault)
    returns (resp: Response)
    ensures fault == QueryFails || (limit.Some? && limit.value < 0) ==> resp == ServerError
    ensures fault != QueryFails && !(limit.Some? && limit.value < 0) ==>
      var n := if limit.Some? then limit.value as nat else DefaultHistoryLimit;
      resp == Response(200, JsonList(HistoryModel.SerializedList(
                HistoryModel.Query(db.history, HistoryModel.Where(cartId, startDate, endDate), n))))
  {
    var n := if limit.None? then DefaultHistoryLimit as int else limit.value;
    var where := HistoryModel.Where(cartId, None, None);
    if startDate.Some? || endDate.Some? {
      if startDate.Some? {
        where := where.(from := startDate);
      }
      if endDate.Some? {
        where := where.(until := endDate);
      }
    }
    if fault == QueryFails || n < 0 {
      return ServerError;
    }
    var history := HistoryModel.Query(db.history, where, n as nat);
    resp := Response(200, JsonList(HistoryModel.SerializedList(history)));
  }

  /**
   * The answer contains only that cart's rows inside the window, newest
   * first, at most `limit` of them (100 by default), each serialised.
   */
  lemma HistoryAnswer(rows: seq<HistoryModel.HistoryRow>, cartId: string, limit: Option<nat>,
                      startDate: Option<Millis>, endDate: Option<Millis>)
    ensures var n := if limit.Some? then limit.value else DefaultHistoryLimit;
      var q := HistoryModel.Query(rows, HistoryModel.Where(cartId, startDate, endDate), n);
      && |q| <= n
      && HistoryModel.NewestFirst(q)
      && (forall i :: 0 <= i < |q| ==>
            && q[i] in rows && q[i].cartId == cartId
            && (startDate.Some? ==> q[i].timestamp >= startDate.value)
            && (endDate.Some? ==> q[i].timestamp <= endDate.value))
  {
    var n := if limit.Some? then limit.value else DefaultHistoryLimit;
    HistoryModel.QueryMatches(rows, HistoryModel.Where(cartId, startDate, endDate), n);
  }
}
