/**
 * The socket.io side of presence: `cart-connect` binds a cart to the
 * socket it connected on and marks it online, `disconnect` undoes the
 * binding and marks the cart offline, `get-all-carts` sends the table to
 * the asking socket, and a sweep every minute sets offline the carts not
 * seen for five minutes. The socket service announces presence under the
 * event name `cart-status-change`.
 */
module SocketService {
  import opened Js
  import opened CartModel
  import opened Events
  import opened Store
  import opened Presence
  import opened Sweep

  /** The stale check (run every minute) demotes carts not seen for five minutes. */
  const StaleAfter: nat := 5 * 60 * 1000

  /** What `const { cartId } = data` and the falsy check make of a `cart-connect` payload. */
  datatype Identification =
    | Anonymous                 // no truthy `cartId`: "Cart ID required"
    | Unreadable                // destructuring throws, or the lookup cannot take the value: "Connection failed"
    | Claimed(cartId: string)   // a cart id to look up

  /**
   * Destructuring `undefined` or `null` throws; any other non-object has
   * no `cartId` property. A truthy `cartId` that is not a string is taken
   * to make the `findOne` query fail.
   */
  function Identify(data: Value): (r: Identification)
    ensures r == Unreadable <==>
              data == Undefined || data == Null
              || (data.Obj? && Truthy(Get(data.fields, CartId)) && !Get(data.fields, CartId).Str?)
    ensures r.Claimed? <==> data.Obj? && Get(data.fields, CartId).Str? && Get(data.fields, CartId).s != ""
    ensures r.Claimed? ==> r.cartId == Get(data.fields, CartId).s && r.cartId != ""
  {
    if data == Undefined || data == Null then Unreadable
    else
      var cartId := if data.Obj? then Get(data.fields, CartId) else Undefined;
      if !Truthy(cartId) then Anonymous
      else if cartId.Str? then Claimed(cartId.s)
      else Unreadable
  }

  /**
   * The `error` message `cart-connect` sends back to its socket, in the
   * order the handler checks: no cart id, then the lookup, then the
   * save. `None` means the cart connected.
   */
  function ConnectError(carts: seq<CartRow>, data: Value, fault: StoreFault): (r: Option<string>)
    ensures r == Some("Cart ID required") <==> Identify(data) == Anonymous
    ensures r == Some("Cart not found") <==>
              Identify(data).Claimed? && fault != QueryFails && IndexOf(carts, Identify(data).cartId).None?
    ensures r.None? <==>
              Identify(data).Claimed? && fault != QueryFails && fault != SaveFails(0) && IndexOf(carts, Identify(data).cartId).Some?
    ensures r.Some? ==> r.value in {"Cart ID required", "Cart not found", "Connection failed"}
  {
    match Identify(data)
    case Anonymous => Some("Cart ID required")
    case Unreadable => Some("Connection failed")
    case Claimed(cartId) =>
      if fault == QueryFails then Some("Connection failed")
      else if IndexOf(carts, cartId).None? then Some("Cart not found")
      else if fault == SaveFails(0) then Some("Connection failed")
      else None
  }

  /** `isActive` plays no part in `cart-connect`: a deactivated cart connects like any other. */
  lemma {:induction false} ConnectIgnoresIsActive(carts: seq<CartRow>, i: nat, active: bool, data: Value, fault: StoreFault)
    requires i < |carts|
    ensures ConnectError(carts[i := carts[i].(isActive := active)], data, fault) == ConnectError(carts, data, fault)
  {
    var d := carts[i := carts[i].(isActive := active)];
    if Identify(data).Claimed? {
      var id := Identify(data).cartId;
      IndexOfSameIds(carts, d, id);
    }
  }

  /** Two tables with the same cart ids in the same order find a cart id at the same position. */
  lemma {:induction false} IndexOfSameIds(a: seq<CartRow>, b: seq<CartRow>, cartId: string)
    requires |a| == |b| && forall k :: 0 <= k < |a| ==> a[k].cartId == b[k].cartId
    ensures IndexOf(a, cartId) == IndexOf(b, cartId)
  {
    if |a| > 0 && a[|a| - 1].cartId != cartId {
      IndexOfSameIds(a[..|a| - 1], b[..|b| - 1], cartId);
    }
  }

  /** Setting a row's presence (online or offline, seen at `now`) keeps every table invariant. */
  lemma PresenceKeepsTable(carts: seq<CartRow>, i: nat, online: bool, now: Millis, nextId: nat)
    requires TableValid(carts, nextId) && i < |carts|
    ensures TableValid(carts[i := carts[i].(isOnline := online, lastSeen := Some(now))], nextId)
  {
    var r := carts[i := carts[i].(isOnline := online, lastSeen := Some(now))];
    assert forall j :: 0 <= j < |carts| ==> r[j].cartId == carts[j].cartId && r[j].id == carts[j].id;
  }

  /** A cart that has just connected is not stale for the next five minutes. */
  lemma ConnectedNotStale(c: CartRow, connectedAt: Millis, now: Millis)
    requires now <= connectedAt + StaleAfter
    ensures !Expired(c.(isOnline := true, lastSeen := Some(connectedAt)), now - StaleAfter)
  {
  }

  /**
   * `setupSocketIO(io)`: the module-level `connectedCarts` map and the
   * `cartId` the handlers store on each socket that identified itself.
   */
  class SocketServer {
    const io: Io
    /** `connectedCarts`: cart id to the id of the socket it last connected on. */
    var connectedCarts: map<string, SocketId>
    /** `socket.cartId` of every open socket that identified itself as a cart. */
    var identified: map<SocketId, string>

    constructor(io: Io)
      ensures this.io == io && connectedCarts == map[] && identified == map[]
    {
      this.io := io;
      connectedCarts := map[];
      identified := map[];
    }

    /**
     * `cart-connect` on `socket` with payload `data` at time `now`. Errors
     * go to that socket only and change nothing. On success the cart is
     * online and seen at `now`, this socket is the cart's binding (the last
     * connect wins), and `cart-status-change` with `isOnline: true` is
     * broadcast, whether or not the cart was already online.
     */
    method CartConnect(db: Db, socket: SocketId, data: Value, now: Millis, fault: StoreFault)
      requires db.Valid()
      modifies db, this, io
      ensures db.Valid()
      ensures db.history == old(db.history) && db.nextCartId == old(db.nextCartId) && db.nextHistoryId == old(db.nextHistoryId)
      ensures ConnectError(old(db.carts), data, fault).Some? ==>
                && io.log == old(io.log) + [ToSocket(socket, ErrorReply(ConnectError(old(db.carts), data, fault).value))]
                && db.carts == old(db.carts)
                && connectedCarts == old(connectedCarts) && identified == old(identified)
      ensures ConnectError(old(db.carts), data, fault).None? ==>
                var cartId := Identify(data).cartId;
                var i := IndexOf(old(db.carts), cartId).value;
                && db.carts == old(db.carts)[i := old(db.carts)[i].(isOnline := true, lastSeen := Some(now))]
                && connectedCarts == old(connectedCarts)[cartId := socket]
                && identified == old(identified)[socket := cartId]
                && io.log == old(io.log) + [Broadcast(CartStatusChange(cartId, true, Some(now)))]
    {
      var error := ConnectError(db.carts, data, fault);
      if error.Some? {
        io.EmitTo(socket, ErrorReply(error.value));
        return;
      }
      var cartId := Identify(data).cartId;
      var i := IndexOf(db.carts, cartId).value;
      var cart := db.carts[i];
      cart := cart.(isOnline := true);
      cart := cart.(lastSeen := Some(now));
      PresenceKeepsTable(db.carts, i, true, now, db.nextCartId);
      db.SaveCart(i, cart);

      connectedCarts := connectedCarts[cartId := socket];
      identified := identified[socket := cartId];

      io.Emit(CartStatusChange(cartId, true, cart.lastSeen));
    }

    /**
     * `disconnect` of `socket` at time `now`. A socket that never
     * identified changes nothing. Otherwise the cart's binding is removed,
     * even when another socket has bound the cart since; then, if the
     * cart still exists, it is set offline and seen at `now`, and
     * `cart-status-change` with `isOnline: false` is broadcast. Store
     * errors are swallowed after the binding is gone.
     */
    method Disconnect(db: Db, socket: SocketId, now: Millis, fault: StoreFault)
      requires db.Valid()
      modifies db, this, io
      ensures db.Valid()
      ensures db.history == old(db.history) && db.nextCartId == old(db.nextCartId) && db.nextHistoryId == old(db.nextHistoryId)
      ensures socket !in old(identified) ==>
                && db.carts == old(db.carts) && io.log == old(io.log)
                && connectedCarts == old(connectedCarts) && identified == old(identified)
      ensures socket in old(identified) ==>
                var cartId := old(identified)[socket];
                && connectedCarts == old(connectedCarts) - {cartId}
                && identified == old(identified) - {socket}
                && (fault == QueryFails || fault == SaveFails(0) || IndexOf(old(db.carts), cartId).None? ==>
                      db.carts == old(db.carts) && io.log == old(io.log))
                && (fault != QueryFails && fault != SaveFails(0) && IndexOf(old(db.carts), cartId).Some? ==>
                      var i := IndexOf(old(db.carts), cartId).value;
                      && db.carts == old(db.carts)[i := old(db.carts)[i].(isOnline := false, lastSeen := Some(now))]
                      && io.log == old(io.log) + [Broadcast(CartStatusChange(cartId, false, Some(now)))])
    {
      if socket !in identified {
        return;
      }
      var cartId := identified[socket];
      connectedCarts := connectedCarts - {cartId};
      // The socket is closed: its `cartId` goes with it.
      identified := identified - {socket};

      if fault == QueryFails {
        return;
      }
      var found := IndexOf(db.carts, cartId);
      if found.None? {
        return;
      }
      var i := found.value;
      var cart := db.carts[i];
      cart := cart.(isOnline := false);
      cart := cart.(lastSeen := Some(now));
      if fault == SaveFails(0) {
        return;
      }
      PresenceKeepsTable(db.carts, i, false, now, db.nextCartId);
      db.SaveCart(i, cart);

      io.Emit(CartStatusChange(cartId, false, cart.lastSeen));
    }

    /**
     * `get-all-carts`: the table without passwords, sent to the asking
     * socket only; "Failed to fetch carts" to that socket when the query
     * fails. Nothing else changes.
     */
    method GetAllCarts(db: Db, socket: SocketId, fault: StoreFault)
      modifies io
      ensures fault == QueryFails ==> io.log == old(io.log) + [ToSocket(socket, ErrorReply("Failed to fetch carts"))]
      ensures fault != QueryFails ==> io.log == old(io.log) + [ToSocket(socket, AllCarts(PublicList(db.carts)))]
    {
      if fault == QueryFails {
        io.EmitTo(socket, ErrorReply("Failed to fetch carts"));
        return;
      }
      var carts := PublicList(db.carts);
      io.EmitTo(socket, AllCarts(carts));
    }

    /**
     * The stale check at time `now`: every cart online and last seen
     * before `now - 300000` is set offline (its `lastSeen` is kept) and one
     * `cart-status-change` with `isOnline: false` is broadcast for it, in
     * table order. A failing query changes nothing; a failing save stops
     * the loop. The bindings are not touched.
     */
    method CheckStale(db: Db, now: Millis, fault: StoreFault)
      requires db.Valid()
      modifies db, io
      ensures db.Valid()
      ensures var found := Found(old(db.carts), now - StaleAfter);
        var n := Completed(fault, |found|);
        && db.carts == Demote(old(db.carts), now - StaleAfter, FirstIds(found, n))
        && io.log == old(io.log) + Notices(found, StaleCheck, n)
      ensures fault == Healthy ==> db.carts == SweepRows(old(db.carts), now - StaleAfter)
      ensures db.history == old(db.history) && db.nextCartId == old(db.nextCartId) && db.nextHistoryId == old(db.nextHistoryId)
    {
      var fiveMinutesAgo := now - StaleAfter;
      if fault == QueryFails {
        DemoteNone(db.carts, fiveMinutesAgo);
        return;
      }
      ghost var s := db.carts;
      var staleCarts := Found(db.carts, fiveMinutesAgo);
      SaveOffline(db, io, staleCarts, fiveMinutesAgo, fault, StaleCheck);
      if fault == Healthy {
        DemoteAll(s, fiveMinutesAgo);
      }
      DemoteKeepsTable(s, fiveMinutesAgo, FirstIds(staleCarts, Completed(fault, |staleCarts|)), db.nextCartId);
    }
  }
}
