/**
 * What the backend sends over socket.io: broadcasts to every connected
 * client (`io.emit`) and replies to a single socket (`socket.emit`). Each
 * kind is a constructor of its own; `EventName` gives the exact event name
 * it is emitted under and `Payload` the object the client receives.
 */
module Events {
  import opened Js

  type SocketId = string

  datatype Event =
      /** `cart-status-changed`, emitted by location ingest and by the 60 s status monitor. */
    | CartStatusChanged(cartId: string, name: string, isOnline: bool, lastSeen: Option<Millis>)
      /** `cart-status-change`, emitted by the socket service (connect, disconnect, 5 min sweep). */
    | CartStatusChange(cartId: string, isOnline: bool, lastSeen: Option<Millis>)
      /** `location-update`; `accuracy` is echoed exactly as the cart sent it. */
    | LocationUpdate(cartId: string, name: string, latitude: real, longitude: real,
                     accuracy: Value, timestamp: Millis, isOnline: bool)

  /** The three kinds go out under three different names. */
  function EventName(e: Event): (r: string)
    ensures r == "cart-status-changed" <==> e.CartStatusChanged?
    ensures r == "cart-status-change" <==> e.CartStatusChange?
    ensures r == "location-update" <==> e.LocationUpdate?
  {
    match e
    case CartStatusChanged(_, _, _, _) => "cart-status-changed"
    case CartStatusChange(_, _, _) => "cart-status-change"
    case LocationUpdate(_, _, _, _, _, _, _) => "location-update"
  }

  /**
   * The payload as the client reads it after JSON transport: a property
   * whose value is `undefined` is dropped by `JSON.stringify`. A date is
   * kept as the instant it names (`Date`), not as the ISO string the wire
   * carries, as in the serialisers. Every payload names the cart and its
   * presence; only `cart-status-change` omits the name, and only
   * `location-update` carries a location instead of `lastSeen`.
   */
  function Payload(e: Event): (r: Object)
    ensures Get(r, CartId) == Str(e.cartId) && Get(r, IsOnline) == Bool(e.isOnline)
    ensures Name in r <==> !e.CartStatusChange?
    ensures LastSeen in r <==> !e.LocationUpdate?
    ensures !e.LocationUpdate? ==> r[LastSeen] == OfDate(e.lastSeen)
    ensures e.LocationUpdate? ==>
              && Get(r, Timestamp) == Date(e.timestamp)
              && Field(Get(r, Location), Latitude) == Num(e.latitude)
              && Field(Get(r, Location), Longitude) == Num(e.longitude)
              && Field(Get(r, Location), Accuracy) == e.accuracy
  {
    match e
    case CartStatusChanged(cartId, name, isOnline, lastSeen) =>
      map[CartId := Str(cartId), Name := Str(name), IsOnline := Bool(isOnline), LastSeen := OfDate(lastSeen)]
    case CartStatusChange(cartId, isOnline, lastSeen) =>
      map[CartId := Str(cartId), IsOnline := Bool(isOnline), LastSeen := OfDate(lastSeen)]
    case LocationUpdate(cartId, name, latitude, longitude, accuracy, timestamp, isOnline) =>
      var location := map[Latitude := Num(latitude), Longitude := Num(longitude)];
      map[CartId := Str(cartId), Name := Str(name),
          Location := Obj(if accuracy == Undefined then location else location[Accuracy := accuracy]),
          Timestamp := Date(timestamp), IsOnline := Bool(isOnline)]
  }

  /** Messages sent to one socket only. */
  datatype Reply =
    | ErrorReply(message: string)      // "error"
    | AllCarts(carts: seq<Object>)     // "all-carts"

  datatype Emission = Broadcast(event: Event) | ToSocket(socket: SocketId, reply: Reply)

  /** The socket.io server; `log` is everything it has emitted, oldest first. */
  class Io {
    var log: seq<Emission>

    constructor()
      ensures log == []
    {
      log := [];
    }

    /** `io.emit(name, payload)`. */
    method Emit(e: Event)
      modifies this
      ensures log == old(log) + [Broadcast(e)]
    {
      log := log + [Broadcast(e)];
    }

    /** `socket.emit(name, payload)`. */
    method EmitTo(socket: SocketId, r: Reply)
      modifies this
      ensures log == old(log) + [ToSocket(socket, r)]
    {
      log := log + [ToSocket(socket, r)];
    }
  }
}
