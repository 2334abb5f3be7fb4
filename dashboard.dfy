/**
 * The admin dashboard's copy of the cart list: the objects it last
 * received, updated in place by its socket listeners. `all-carts` replaces
 * the list, `location-update` and `cart-status-changed` rewrite the entry
 * whose `cartId` matches (`prevCarts.map` with an object spread). No
 * other event name is listened to.
 */
module Dashboard {
  import opened Js
  import opened Events

  /** The `lastLocation` that `updateCartLocation` builds: the event's coordinates and its timestamp. */
  function LocationOf(data: Object): Value
  {
    var location := Get(data, Location);
    Obj(map[
      Latitude := Field(location, Latitude),
      Longitude := Field(location, Longitude),
      Accuracy := Field(location, Accuracy),
      Timestamp := Get(data, Timestamp)])
  }

  /**
   * `{ ...cart, lastLocation, lastSeen: data.timestamp, isOnline: data.isOnline }`;
   * a property absent from `data` reads as `undefined` and is written so.
   */
  function Located(cart: Object, data: Object): Object
  {
    cart[LastLocation := LocationOf(data)][LastSeen := Get(data, Timestamp)][IsOnline := Get(data, IsOnline)]
  }

  /** `{ ...cart, isOnline: data.isOnline, lastSeen: data.lastSeen }`. */
  function WithStatus(cart: Object, data: Object): Object
  {
    cart[IsOnline := Get(data, IsOnline)][LastSeen := Get(data, LastSeen)]
  }

  /** `cart.cartId === data.cartId`, on the values the dashboard holds. */
  predicate SameCart(cart: Object, data: Object)
  {
    Get(cart, CartId) == Get(data, CartId)
  }

  /** `updateCartLocation(data)`. */
  function UpdateCartLocation(carts: seq<Object>, data: Object): (r: seq<Object>)
    ensures |r| == |carts|
  {
    seq(|carts|, i requires 0 <= i < |carts| => if SameCart(carts[i], data) then Located(carts[i], data) else carts[i])
  }

  /** `updateCartStatus(data)`. */
  function UpdateCartStatus(carts: seq<Object>, data: Object): (r: seq<Object>)
    ensures |r| == |carts|
  {
    seq(|carts|, i requires 0 <= i < |carts| => if SameCart(carts[i], data) then WithStatus(carts[i], data) else carts[i])
  }

  /**
   * A `location-update` rewrites only the entries with the event's cart
   * id: they get the event's location and timestamp as `lastLocation`
   * and `lastSeen`, its `isOnline`, and keep every other property.
   */
  lemma LocationUpdateAt(carts: seq<Object>, data: Object, i: nat)
    requires i < |carts|
    ensures var r := UpdateCartLocation(carts, data);
      && (!SameCart(carts[i], data) ==> r[i] == carts[i])
      && (SameCart(carts[i], data) ==>
            && r[i].Keys == carts[i].Keys + {LastLocation, LastSeen, IsOnline}
            && r[i][LastSeen] == Get(data, Timestamp) && r[i][IsOnline] == Get(data, IsOnline)
            && Field(r[i][LastLocation], Latitude) == Field(Get(data, Location), Latitude)
            && Field(r[i][LastLocation], Longitude) == Field(Get(data, Location), Longitude)
            && Field(r[i][LastLocation], Accuracy) == Field(Get(data, Location), Accuracy)
            && Field(r[i][LastLocation], Timestamp) == Get(data, Timestamp)
            && (forall k :: k in carts[i] && k !in {LastLocation, LastSeen, IsOnline} ==> r[i][k] == carts[i][k]))
  {
  }

  /**
   * A `cart-status-changed` sets only `isOnline` and `lastSeen` of the
   * entries with the event's cart id; `lastLocation` and every other
   * property are kept.
   */
  lemma StatusUpdateAt(carts: seq<Object>, data: Object, i: nat)
    requires i < |carts|
    ensures var r := UpdateCartStatus(carts, data);
      && (!SameCart(carts[i], data) ==> r[i] == carts[i])
      && (SameCart(carts[i], data) ==>
            && r[i].Keys == carts[i].Keys + {IsOnline, LastSeen}
            && r[i][IsOnline] == Get(data, IsOnline) && r[i][LastSeen] == Get(data, LastSeen)
            && Get(r[i], LastLocation) == Get(carts[i], LastLocation)
            && (forall k :: k in carts[i] && k != IsOnline && k != LastSeen ==> r[i][k] == carts[i][k]))
  {
  }

  /** An event for a cart id the list does not hold leaves the list as it was. */
  lemma UnknownCartIgnored(carts: seq<Object>, data: Object)
    requires forall i :: 0 <= i < |carts| ==> !SameCart(carts[i], data)
    ensures UpdateCartLocation(carts, data) == carts
    ensures UpdateCartStatus(carts, data) == carts
  {
    assert forall i :: 0 <= i < |carts| ==> UpdateCartLocation(carts, data)[i] == carts[i];
    assert forall i :: 0 <= i < |carts| ==> UpdateCartStatus(carts, data)[i] == carts[i];
  }

  /** Applying the same status event twice gives the list that applying it once gives. */
  lemma StatusIdempotent(carts: seq<Object>, data: Object)
    ensures UpdateCartStatus(UpdateCartStatus(carts, data), data) == UpdateCartStatus(carts, data)
  {
    var once := UpdateCartStatus(carts, data);
    var twice := UpdateCartStatus(once, data);
    forall i | 0 <= i < |carts| ensures twice[i] == once[i] {
      assert Get(once[i], CartId) == Get(carts[i], CartId);
      if SameCart(carts[i], data) {
        assert WithStatus(once[i], data) == once[i];
      }
    }
  }

  /** Applying the same location event twice gives the list that applying it once gives. */
  lemma LocationIdempotent(carts: seq<Object>, data: Object)
    ensures UpdateCartLocation(UpdateCartLocation(carts, data), data) == UpdateCartLocation(carts, data)
  {
    var once := UpdateCartLocation(carts, data);
    var twice := UpdateCartLocation(once, data);
    forall i | 0 <= i < |carts| ensures twice[i] == once[i] {
      assert Get(once[i], CartId) == Get(carts[i], CartId);
      if SameCart(carts[i], data) {
        assert Located(once[i], data) == once[i];
      }
    }
  }

  /** The listeners registered on lines 43-53, applied to an event under its name. */
  function Listen(carts: seq<Object>, name: string, data: Object): (r: seq<Object>)
    ensures |r| == |carts|
    ensures name != "location-update" && name != "cart-status-changed" ==> r == carts
  {
    if name == "location-update" then UpdateCartLocation(carts, data)
    else if name == "cart-status-changed" then UpdateCartStatus(carts, data)
    else carts
  }

  /**
   * What the dashboard on socket `me` does with one emission: an
   * `all-carts` snapshot sent to it replaces the list; a reply to another
   * socket never reaches it.
   */
  function Receive(me: SocketId, carts: seq<Object>, em: Emission): (r: seq<Object>)
    ensures em.ToSocket? && em.socket == me && em.reply.AllCarts? ==> r == em.reply.carts
    ensures em.ToSocket? && (em.socket != me || em.reply.ErrorReply?) ==> r == carts
    ensures em.Broadcast? && em.event.CartStatusChange? ==> r == carts
    ensures em.Broadcast? && em.event.LocationUpdate? ==> r == UpdateCartLocation(carts, Payload(em.event))
    ensures em.Broadcast? && em.event.CartStatusChanged? ==> r == UpdateCartStatus(carts, Payload(em.event))
  {
    match em
    case ToSocket(to, AllCarts(snapshot)) => if to == me then snapshot else carts
    case ToSocket(_, ErrorReply(_)) => carts
    case Broadcast(e) => Listen(carts, EventName(e), Payload(e))
  }

  /** The emissions received in order, oldest first. */
  function ReceiveAll(me: SocketId, carts: seq<Object>, ems: seq<Emission>): (r: seq<Object>)
    ensures (forall i :: 0 <= i < |ems| ==> !(ems[i].ToSocket? && ems[i].socket == me && ems[i].reply.AllCarts?)) ==>
              |r| == |carts|
  {
    if ems == [] then carts else Receive(me, ReceiveAll(me, carts, ems[..|ems| - 1]), ems[|ems| - 1])
  }

  /** Receiving one more emission continues from the list the earlier ones left. */
  lemma ReceiveAllSnoc(me: SocketId, carts: seq<Object>, ems: seq<Emission>, em: Emission)
    ensures ReceiveAll(me, carts, ems + [em]) == Receive(me, ReceiveAll(me, carts, ems), em)
  {
    assert (ems + [em])[..|ems|] == ems;
  }

  /** A snapshot sent to this dashboard wipes out whatever was received before it. */
  lemma {:induction false} SnapshotReplaces(me: SocketId, carts: seq<Object>, ems: seq<Emission>, snapshot: seq<Object>)
    ensures ReceiveAll(me, carts, ems + [ToSocket(me, AllCarts(snapshot))]) == snapshot
  {
    ReceiveAllSnoc(me, carts, ems, ToSocket(me, AllCarts(snapshot)));
  }

  // ---------------------------------------------------------------------
  // The listener as evidently intended: presence broadcasts of the socket
  // service arrive as `cart-status-change`, and are applied like
  // `cart-status-changed`.

  function ListenCorrected(carts: seq<Object>, name: string, data: Object): seq<Object>
  {
    if name == "location-update" then UpdateCartLocation(carts, data)
    else if name == "cart-status-changed" || name == "cart-status-change" then UpdateCartStatus(carts, data)
    else carts
  }

  function ReceiveCorrected(me: SocketId, carts: seq<Object>, em: Emission): (r: seq<Object>)
    ensures em.Broadcast? && em.event.CartStatusChange? ==> r == UpdateCartStatus(carts, Payload(em.event))
    ensures !(em.Broadcast? && em.event.CartStatusChange?) ==> r == Receive(me, carts, em)
  {
    match em
    case ToSocket(to, AllCarts(snapshot)) => if to == me then snapshot else carts
    case ToSocket(_, ErrorReply(_)) => carts
    case Broadcast(e) => ListenCorrected(carts, EventName(e), Payload(e))
  }

  function ReceiveAllCorrected(me: SocketId, carts: seq<Object>, ems: seq<Emission>): seq<Object>
  {
    if ems == [] then carts else ReceiveCorrected(me, ReceiveAllCorrected(me, carts, ems[..|ems| - 1]), ems[|ems| - 1])
  }

  lemma ReceiveAllCorrectedSnoc(me: SocketId, carts: seq<Object>, ems: seq<Emission>, em: Emission)
    ensures ReceiveAllCorrected(me, carts, ems + [em]) == ReceiveCorrected(me, ReceiveAllCorrected(me, carts, ems), em)
  {
    assert (ems + [em])[..|ems|] == ems;
  }
}
