/**
 * The `carts` table (the `Cart` model): its columns, the invariants every
 * row keeps, the defaults of a new row, the password hooks and the
 * `toJSON` serialiser that turns the flat location columns into one nested
 * `lastLocation` object and drops the password.
 */
module CartModel {
  import opened Js

  datatype CartRow = CartRow(
    id: nat,                              // auto-increment primary key
    cartId: string,                       // unique, not null
    password: string,                     // stored hash
    name: string,
    description: string,
    isActive: bool,                       // authorisation gate
    isOnline: bool,                       // presence
    lastLocationLatitude: Option<real>,
    lastLocationLongitude: Option<real>,
    lastLocationAccuracy: Option<real>,
    lastLocationTimestamp: Option<Millis>,
    lastSeen: Option<Millis>)

    /** The four flat columns that `toJSON` folds into `lastLocation`. */
  const FlatLocationKeys: set<Key> := {LastLocationLatitude, LastLocationLongitude, LastLocationAccuracy, LastLocationTimestamp}

  /** The keys `toJSON` removes from the attribute bag. */
  const HiddenKeys: set<Key> := FlatLocationKeys + {Password}

  /** The properties of `this.get()`: one per column. */
  const Columns: set<Key> := {Id, CartId, Password, Name, Description, IsActive, IsOnline,
                              LastLocationLatitude, LastLocationLongitude, LastLocationAccuracy,
                              LastLocationTimestamp, LastSeen}

  /** The value of one column of the row, as the JSON reader sees it (null for a null column). */
  function Column(c: CartRow, k: Key): Value
  {
    match k
    case Id => Num(c.id as real)
    case CartId => Str(c.cartId)
    case Password => Str(c.password)
    case Name => Str(c.name)
    case Description => Str(c.description)
    case IsActive => Bool(c.isActive)
    case IsOnline => Bool(c.isOnline)
    case LastLocationLatitude => OfReal(c.lastLocationLatitude)
    case LastLocationLongitude => OfReal(c.lastLocationLongitude)
    case LastLocationAccuracy => OfReal(c.lastLocationAccuracy)
    case LastLocationTimestamp => OfDate(c.lastLocationTimestamp)
    case LastSeen => OfDate(c.lastSeen)
    case _ => Undefined
  }

  /** `this.get()`: the row as a plain object, one property per column. */
  function Attributes(c: CartRow): Object
  {
    map k | k in Columns :: Column(c, k)
  }

  /** The columns a query loads with `attributes: { exclude: [Password] }`. */
  function PublicAttributes(c: CartRow): Object
  {
    Attributes(c) - {Password}
  }

  /** The nested object `toJSON` builds when both coordinates are non-null. */
  function LocationObject(values: Object): Value
  {
    Obj(map[
      Latitude := Get(values, LastLocationLatitude),
      Longitude := Get(values, LastLocationLongitude),
      Accuracy := Get(values, LastLocationAccuracy),
      Timestamp := Get(values, LastLocationTimestamp)
    ])
  }

  /**
   * `Cart.prototype.toJSON` on the attribute bag `values`: adds
   * `lastLocation` (an object when neither coordinate is null, otherwise
   * null), then deletes the four flat location keys and `password`.
   * Every other property is copied unchanged.
   */
  function ToJson(values: Object): (r: Object)
    ensures Password !in r && LastLocation in r
    ensures forall k :: k in FlatLocationKeys ==> k !in r
  {
    var lastLocation :=
      if Get(values, LastLocationLatitude) != Null && Get(values, LastLocationLongitude) != Null
      then LocationObject(values)
      else Null;
    values[LastLocation := lastLocation] - HiddenKeys
  }

  /**
   * The rest of what `toJSON` promises: it copies every other property
   * unchanged, and `lastLocation` is the nested object exactly when both
   * coordinates are non-null.
   */
  lemma ToJsonShape(values: Object)
    ensures var r := ToJson(values);
      && r.Keys == (values.Keys - HiddenKeys) + {LastLocation}
      && (forall k :: k in values && k !in HiddenKeys && k != LastLocation ==> r[k] == values[k])
      && (Get(values, LastLocationLatitude) != Null && Get(values, LastLocationLongitude) != Null ==>
            r[LastLocation] == LocationObject(values))
      && (Get(values, LastLocationLatitude) == Null || Get(values, LastLocationLongitude) == Null ==>
            r[LastLocation] == Null)
  {
  }

  /** What a client receives for one row of `Cart.findAll`/`findOne`. */
  function Serialized(c: CartRow): (r: Object)
    ensures Password !in r && LastLocation in r
    ensures forall k :: k in FlatLocationKeys ==> k !in r
  {
    ToJson(PublicAttributes(c))
  }

  /**
   * `res.json(carts)` / `socket.emit("all-carts", carts)`: the whole table,
   * one element per row in table order. No element carries the password
   * or a flat location column, and each gives back its row, password
   * aside, when the row is well formed.
   */
  function PublicList(carts: seq<CartRow>): (r: seq<Object>)
    ensures |r| == |carts|
    ensures forall i :: 0 <= i < |carts| ==> r[i] == Serialized(carts[i])
    ensures forall i :: 0 <= i < |carts| ==>
              && Password !in r[i] && LastLocation in r[i]
              && (forall k :: k in FlatLocationKeys ==> k !in r[i])
              && (WellFormed(carts[i]) ==> FromJson(r[i], carts[i].password) == Some(carts[i]))
  {
    PublicListShape(carts);
    seq(|carts|, i requires 0 <= i < |carts| => Serialized(carts[i]))
  }

  lemma PublicListShape(carts: seq<CartRow>)
    ensures forall i :: 0 <= i < |carts| ==>
              && Password !in Serialized(carts[i]) && LastLocation in Serialized(carts[i])
              && (forall k :: k in FlatLocationKeys ==> k !in Serialized(carts[i]))
              && (WellFormed(carts[i]) ==> FromJson(Serialized(carts[i]), carts[i].password) == Some(carts[i]))
  {
    forall i | 0 <= i < |carts|
      ensures Password !in Serialized(carts[i]) && LastLocation in Serialized(carts[i])
      ensures forall k :: k in FlatLocationKeys ==> k !in Serialized(carts[i])
      ensures WellFormed(carts[i]) ==> FromJson(Serialized(carts[i]), carts[i].password) == Some(carts[i])
    {
      if WellFormed(carts[i]) {
        SerializedRoundTrip(carts[i]);
      }
    }
  }

  /**
   * Invariant of every stored row: an online cart has been seen, and the
   * location columns are written together (both coordinates or none; no
   * accuracy or timestamp without coordinates).
   */
  predicate WellFormed(c: CartRow)
  {
    && (c.isOnline ==> c.lastSeen.Some?)
    && (c.lastLocationLatitude.Some? <==> c.lastLocationLongitude.Some?)
    && (c.lastLocationLatitude.None? ==>
          c.lastLocationAccuracy.None? && c.lastLocationTimestamp.None?)
  }

  /** The `unique: true` constraint on `cart_id`. */
  predicate UniqueCartIds(carts: seq<CartRow>)
  {
    forall i, j :: 0 <= i < j < |carts| ==> carts[i].cartId != carts[j].cartId
  }

  /** The primary keys are distinct and below the next auto-increment value. */
  predicate KeysBelow(carts: seq<CartRow>, nextId: nat)
  {
    && (forall i :: 0 <= i < |carts| ==> carts[i].id < nextId)
    && (forall i, j :: 0 <= i < j < |carts| ==> carts[i].id != carts[j].id)
  }

  predicate TableValid(carts: seq<CartRow>, nextId: nat)
  {
    && UniqueCartIds(carts)
    && KeysBelow(carts, nextId)
    && (forall i :: 0 <= i < |carts| ==> WellFormed(carts[i]))
  }

  /** `Cart.findOne({ where: { cartId } })`: the position of the row, if any. */
  function IndexOf(carts: seq<CartRow>, cartId: string): (r: Option<nat>)
    ensures r.Some? ==> r.value < |carts| && carts[r.value].cartId == cartId
    ensures r.None? ==> forall i :: 0 <= i < |carts| ==> carts[i].cartId != cartId
  {
    if |carts| == 0 then None
    else if carts[|carts| - 1].cartId == cartId then Some(|carts| - 1)
    else IndexOf(carts[..|carts| - 1], cartId)
  }

  /** With unique cart ids the row found is the only one with that id. */
  lemma {:induction false} IndexOfUnique(carts: seq<CartRow>, i: nat)
    requires UniqueCartIds(carts) && i < |carts|
    ensures IndexOf(carts, carts[i].cartId) == Some(i)
  {
  }

  /**
   * A new row as `Cart.create` stores it: the schema defaults
   * (`isActive = true`, `isOnline = false`, null location and last-seen)
   * and the password already passed through the `beforeCreate` hook.
   */
  function NewCart(id: nat, cartId: string, password: string, name: string, description: string): (r: CartRow)
    ensures WellFormed(r) && r.isActive && !r.isOnline && r.lastSeen.None?
    ensures r.lastLocationLatitude.None? && r.lastLocationLongitude.None?
    ensures r.id == id && r.cartId == cartId && r.password == password
    ensures r.name == name && r.description == description
  {
    CartRow(id, cartId, password, name, description, true, false, None, None, None, None, None)
  }

  /** The `beforeCreate` hook: a non-empty password is replaced by its hash. */
  function HashOnCreate(newPassword: string, hash: string -> string): (r: string)
    ensures newPassword != "" ==> r == hash(newPassword)
    ensures newPassword == "" ==> r == ""
  {
    if newPassword != "" then hash(newPassword) else newPassword
  }

  /**
   * The `beforeUpdate` hook: the password is hashed again exactly when the
   * new value differs from the stored one (`cart.changed(Password)`).
   */
  function HashOnUpdate(stored: string, newPassword: string, hash: string -> string): (r: string)
    ensures newPassword == stored ==> r == stored
    ensures newPassword != stored ==> r == hash(newPassword)
  {
    if newPassword != stored then hash(newPassword) else stored
  }

  // ---------------------------------------------------------------------
  // Reading a serialised cart back: `toJSON` loses only the password.

  function NatOf(v: Value): Option<nat>
  {
    if v.Num? && v.n >= 0.0 && v.n.Floor as real == v.n then Some(v.n.Floor as nat) else None
  }

  function RealOf(v: Value): Option<Option<real>>
  {
    match v
    case Null => Some(None)
    case Num(r) => Some(Some(r))
    case _ => None
  }

  function DateOf(v: Value): Option<Option<Millis>>
  {
    match v
    case Null => Some(None)
    case Date(t) => Some(Some(t))
    case _ => None
  }

  /**
   * Rebuild a row from a serialised cart and the password that `toJSON`
   * dropped; `None` when the object does not have the serialised shape.
   */
  function FromJson(j: Object, password: string): Option<CartRow>
  {
    var id := NatOf(Get(j, Id));
    var cartId := Get(j, CartId);
    var name := Get(j, Name);
    var description := Get(j, Description);
    var isActive := Get(j, IsActive);
    var isOnline := Get(j, IsOnline);
    var lastSeen := DateOf(Get(j, LastSeen));
    var loc := Get(j, LastLocation);
    if id.None? || !cartId.Str? || !name.Str? || !description.Str?
       || !isActive.Bool? || !isOnline.Bool? || lastSeen.None?
    then None
    else if loc == Null then
      Some(CartRow(id.value, cartId.s, password, name.s, description.s, isActive.b,
                   isOnline.b, None, None, None, None, lastSeen.value))
    else
      var lat := Field(loc, Latitude);
      var lng := Field(loc, Longitude);
      var acc := RealOf(Field(loc, Accuracy));
      var ts := DateOf(Field(loc, Timestamp));
      if !lat.Num? || !lng.Num? || acc.None? || ts.None? then None
      else
        Some(CartRow(id.value, cartId.s, password, name.s, description.s, isActive.b,
                     isOnline.b, Some(lat.n), Some(lng.n), acc.value, ts.value, lastSeen.value))
  }

  /** Every column other than the password and the flat location columns is copied from the row. */
  lemma SerializedCopies(c: CartRow, k: Key)
    requires k in Columns && k !in HiddenKeys
    ensures Get(Serialized(c), k) == Column(c, k)
  {
    var values := PublicAttributes(c);
    assert k in values && values[k] == Column(c, k);
    ToJsonShape(values);
  }

  /** The properties of a serialised row, one per key. */
  lemma SerializedFields(c: CartRow)
    ensures Get(Serialized(c), Id) == Num(c.id as real)
    ensures Get(Serialized(c), CartId) == Str(c.cartId)
    ensures Get(Serialized(c), Name) == Str(c.name)
    ensures Get(Serialized(c), Description) == Str(c.description)
    ensures Get(Serialized(c), IsActive) == Bool(c.isActive)
    ensures Get(Serialized(c), IsOnline) == Bool(c.isOnline)
    ensures Get(Serialized(c), LastSeen) == OfDate(c.lastSeen)
  {
    SerializedCopies(c, Id);
    SerializedCopies(c, CartId);
    SerializedCopies(c, Name);
    SerializedCopies(c, Description);
    SerializedCopies(c, IsActive);
    SerializedCopies(c, IsOnline);
    SerializedCopies(c, LastSeen);
  }

  /** Round trip: a well-formed row is recovered from its serialised form and its password. */
  lemma SerializedRoundTrip(c: CartRow)
    requires WellFormed(c)
    ensures FromJson(Serialized(c), c.password) == Some(c)
  {
    SerializedFields(c);
    SerializedLocation(c);
    ToJsonShape(PublicAttributes(c));
    FromJsonReads(Serialized(c), c);
  }

  /** `FromJson` reads back every column of a well-formed row from an object with the serialised properties. */
  lemma FromJsonReads(j: Object, c: CartRow)
    requires WellFormed(c)
    requires Get(j, Id) == Num(c.id as real) && Get(j, CartId) == Str(c.cartId)
    requires Get(j, Name) == Str(c.name) && Get(j, Description) == Str(c.description)
    requires Get(j, IsActive) == Bool(c.isActive) && Get(j, IsOnline) == Bool(c.isOnline)
    requires Get(j, LastSeen) == OfDate(c.lastSeen)
    requires LastLocation in j
    requires j[LastLocation] ==
      if c.lastLocationLatitude.Some? && c.lastLocationLongitude.Some?
      then Obj(map[
             Latitude := Num(c.lastLocationLatitude.value),
             Longitude := Num(c.lastLocationLongitude.value),
             Accuracy := OfReal(c.lastLocationAccuracy),
             Timestamp := OfDate(c.lastLocationTimestamp)])
      else Null
    ensures FromJson(j, c.password) == Some(c)
  {
    assert (c.id as real).Floor == c.id;
    assert NatOf(Get(j, Id)) == Some(c.id);
    assert DateOf(Get(j, LastSeen)) == Some(c.lastSeen);
    var loc := Get(j, LastLocation);
    if c.lastLocationLatitude.Some? {
      assert Field(loc, Latitude) == Num(c.lastLocationLatitude.value);
      assert Field(loc, Longitude) == Num(c.lastLocationLongitude.value);
      assert RealOf(Field(loc, Accuracy)) == Some(c.lastLocationAccuracy);
      assert DateOf(Field(loc, Timestamp)) == Some(c.lastLocationTimestamp);
    } else {
      assert loc == Null;
    }
  }

  /**
   * Row-level reading of `toJSON`: the serialised cart has a `lastLocation`
   * object exactly when both coordinate columns are set, and it holds the
   * four column values; otherwise `lastLocation` is null, even when accuracy
   * or timestamp are set.
   */
  lemma SerializedLocation(c: CartRow)
    ensures Serialized(c)[LastLocation] ==
      if c.lastLocationLatitude.Some? && c.lastLocationLongitude.Some?
      then Obj(map[
             Latitude := Num(c.lastLocationLatitude.value),
             Longitude := Num(c.lastLocationLongitude.value),
             Accuracy := OfReal(c.lastLocationAccuracy),
             Timestamp := OfDate(c.lastLocationTimestamp)])
      else Null
  {
    var values := PublicAttributes(c);
    assert Get(values, LastLocationLatitude) == OfReal(c.lastLocationLatitude);
    assert Get(values, LastLocationLongitude) == OfReal(c.lastLocationLongitude);
    assert Get(values, LastLocationAccuracy) == OfReal(c.lastLocationAccuracy);
    assert Get(values, LastLocationTimestamp) == OfDate(c.lastLocationTimestamp);
  }

  /** Excluding the password from the query makes no difference to the output. */
  lemma ExcludeIsRedundant(c: CartRow)
    ensures ToJson(Attributes(c)) == ToJson(PublicAttributes(c))
  {
    var a := ToJson(Attributes(c));
    var b := ToJson(PublicAttributes(c));
    assert a.Keys == b.Keys;
    forall k | k in a ensures a[k] == b[k] {
      if k == LastLocation {
        assert Get(Attributes(c), LastLocationLatitude) == Get(PublicAttributes(c), LastLocationLatitude);
        assert Get(Attributes(c), LastLocationLongitude) == Get(PublicAttributes(c), LastLocationLongitude);
        assert LocationObject(Attributes(c)) == LocationObject(PublicAttributes(c));
      }
    }
  }
}
