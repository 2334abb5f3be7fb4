/**
 * JavaScript values as the backend and the dashboard see them: request
 * bodies, socket payloads, the objects the serialisers build and the
 * dashboard's list of carts. An object is a finite map from property names
 * to values; a property that is not in the map reads as `undefined`.
 * Property names are drawn from the fixed vocabulary the system uses
 * (`Key`, each constructor standing for the camel-case name it spells).
 */
module Js {

  datatype Option<T> = None | Some(value: T)

  /** Milliseconds since the epoch, as `Date.prototype.getTime` gives them. */
  type Millis = int

  datatype Key =
    | Id | CartId | Password | Name | Description | IsActive | IsOnline
    | LastLocationLatitude | LastLocationLongitude | LastLocationAccuracy
    | LastLocationTimestamp | LastSeen | LastLocation
    | Latitude | Longitude | Accuracy | Timestamp | Location

  /** A Date is kept as its time value; on the wire it is its ISO string. */
  datatype Value =
    | Undefined
    | Null
    | Bool(b: bool)
    | Num(n: real)
    | Str(s: string)
    | Date(t: Millis)
    | Obj(fields: map<Key, Value>)

  type Object = map<Key, Value>

  /** Property access `o.k`. */
  function Get(o: Object, k: Key): Value
  {
    if k in o then o[k] else Undefined
  }

  /** Property access `v.k` on a value that is expected to be an object. */
  function Field(v: Value, k: Key): Value
  {
    if v.Obj? then Get(v.fields, k) else Undefined
  }

  /** JavaScript truthiness (`if (v)`, `!v`, `v || d`). NaN is not modelled. */
  predicate Truthy(v: Value)
  {
    match v
    case Undefined => false
    case Null => false
    case Bool(b) => b
    case Num(n) => n != 0.0
    case Str(s) => s != ""
    case Date(_) => true
    case Obj(_) => true
  }

  /** A nullable DOUBLE column as the value `this.get()` gives for it. */
  function OfReal(o: Option<real>): Value
  {
    match o
    case None => Null
    case Some(r) => Num(r)
  }

  /** A nullable DATE column as the value `this.get()` gives for it. */
  function OfDate(o: Option<Millis>): Value
  {
    match o
    case None => Null
    case Some(t) => Date(t)
  }
}
