/**
 * The cart administration routes: list, create, update and delete behind
 * `authMiddleware, adminOnly`, and get-one behind `authMiddleware` alone.
 * Every store error is answered 500 "Server error": `QueryFails` fails
 * the handler's lookup and `SaveFails(k)` its `k`-th write, counted from
 * 0; a fault at a write the handler does not make has no effect. Password
 * hashing is the parameter `hash`; signature checking is the parameter
 * `verify`.
 */
module CartsRoute {
  import opened Js
  import opened CartModel
  import HistoryModel
  import opened Http
  import opened Auth
  import opened Store
  import opened Presence

  /** The `cart` object of the create and update responses: four columns, no password. */
  function Summary(c: CartRow): (r: Object)
    ensures Password !in r && r.Keys == {CartId, Name, Description, IsActive}
    ensures r[CartId] == Str(c.cartId) && r[Name] == Str(c.name)
    ensures r[Description] == Str(c.description) && r[IsActive] == Bool(c.isActive)
  {
    map[CartId := Str(c.cartId), Name := Str(c.name), Description := Str(c.description), IsActive := Bool(c.isActive)]
  }

  /** `LocationHistory.destroy({ where: { cartId } })`: the rows of other carts, in order. */
  function Purged(rows: seq<HistoryModel.HistoryRow>, cartId: string): (r: seq<HistoryModel.HistoryRow>)
    ensures |r| <= |rows|
  {
    if rows == [] then []
    else
      var rest := Purged(rows[..|rows| - 1], cartId);
      var last := rows[|rows| - 1];
      if last.cartId == cartId then rest else rest + [last]
  }

  /** Purging removes exactly the rows of that cart: every other row stays. */
  lemma {:induction false} PurgedMembers(rows: seq<HistoryModel.HistoryRow>, cartId: string)
    ensures forall x :: x in Purged(rows, cartId) <==> x in rows && x.cartId != cartId
  {
    if rows != [] {
      assert rows == rows[..|rows| - 1] + [rows[|rows| - 1]];
      PurgedMembers(rows[..|rows| - 1], cartId);
    }
  }

  /** The history left after a purge keeps its id invariants. */
  lemma {:induction false} PurgedKeepsHistory(rows: seq<HistoryModel.HistoryRow>, cartId: string, nextId: nat)
    requires HistoryValid(rows, nextId)
    ensures HistoryValid(Purged(rows, cartId), nextId)
  {
    if rows != [] {
      var init := rows[..|rows| - 1];
      var last := rows[|rows| - 1];
      assert HistoryValid(init, nextId) by {
        assert forall i :: 0 <= i < |init| ==> init[i] == rows[i];
      }
      var rest := Purged(init, cartId);
      PurgedKeepsHistory(init, cartId, nextId);
      if last.cartId != cartId {
        assert forall i :: 0 <= i < |rest| ==> rest[i].id != last.id by {
          PurgedMembers(init, cartId);
          forall i | 0 <= i < |rest| ensures rest[i].id != last.id {
            assert rest[i] in init;
            var k :| 0 <= k < |init| && init[k] == rest[i];
            assert rows[k] == rest[i];
          }
        }
        AppendKeepsHistory(rest, last, nextId);
      }
    }
  }

  /** A row with a fresh id below the counter can be appended to a valid history. */
  lemma AppendKeepsHistory(rows: seq<HistoryModel.HistoryRow>, row: HistoryModel.HistoryRow, nextId: nat)
    requires HistoryValid(rows, nextId) && row.id < nextId
    requires forall i :: 0 <= i < |rows| ==> rows[i].id != row.id
    ensures HistoryValid(rows + [row], nextId)
  {
  }

  /** Removing one row keeps the cart table's invariants. */
  lemma RemoveKeepsTable(carts: seq<CartRow>, i: nat, nextId: nat)
    requires TableValid(carts, nextId) && i < |carts|
    ensures TableValid(carts[..i] + carts[i + 1..], nextId)
  {
    var r := carts[..i] + carts[i + 1..];
    assert forall j :: 0 <= j < |r| ==> r[j] == carts[if j < i then j else j + 1];
  }

  /** Appending a row with the next id and a fresh cart id keeps the cart table's invariants. */
  lemma AppendKeepsTable(carts: seq<CartRow>, c: CartRow, nextId: nat)
    requires TableValid(carts, nextId) && WellFormed(c) && c.id == nextId
    requires IndexOf(carts, c.cartId).None?
    ensures TableValid(carts + [c], nextId + 1)
  {
  }

  /** A new cart is served without a password and with a null `lastLocation`. */
  lemma NewCartDefaults(id: nat, cartId: string, password: string, name: string, description: string)
    ensures var j := Serialized(NewCart(id, cartId, password, name, description));
      && Password !in j && j[LastLocation] == Null
  {
    SerializedLocation(NewCart(id, cartId, password, name, description));
  }

  /** `name || ""`: a falsy value becomes the empty string; a truthy one must be a string. */
  function OrEmpty(v: Value): (r: Option<string>)
    ensures !Truthy(v) ==> r == Some("")
    ensures Truthy(v) ==> (r.Some? <==> v.Str?) && (v.Str? ==> r == Some(v.s))
  {
    if !Truthy(v) then Some("") else if v.Str? then Some(v.s) else None
  }

  /**
   * The row `cart.save()` stores after the update's assignments, or `None`
   * when one of them has a type the column does not take (the save fails).
   * A field left `undefined` keeps its value; the password is assigned only
   * when truthy and then passes through the `beforeUpdate` hook.
   */
  function Patched(c: CartRow, body: Object, hash: string -> string): (r: Option<CartRow>)
    ensures r.None? <==>
              (Get(body, Name) != Undefined && !Get(body, Name).Str?)
              || (Get(body, Description) != Undefined && !Get(body, Description).Str?)
              || (Get(body, IsActive) != Undefined && !Get(body, IsActive).Bool?)
              || (Truthy(Get(body, Password)) && !Get(body, Password).Str?)
    ensures r.Some? ==>
              var p := r.value;
              && p.(name := c.name, description := c.description, isActive := c.isActive, password := c.password) == c
              && p.name == (if Get(body, Name) == Undefined then c.name else Get(body, Name).s)
              && p.description == (if Get(body, Description) == Undefined then c.description else Get(body, Description).s)
              && p.isActive == (if Get(body, IsActive) == Undefined then c.isActive else Get(body, IsActive).b)
              && p.password == (if Truthy(Get(body, Password)) then HashOnUpdate(c.password, Get(body, Password).s, hash) else c.password)
  {
    var name, description, isActive, password := Get(body, Name), Get(body, Description), Get(body, IsActive), Get(body, Password);
    if (name != Undefined && !name.Str?) || (description != Undefined && !description.Str?)
       || (isActive != Undefined && !isActive.Bool?) || (Truthy(password) && !password.Str?)
    then None
    else
      Some(c.(name := if name == Undefined then c.name else name.s,
              description := if description == Undefined then c.description else description.s,
              isActive := if isActive == Undefined then c.isActive else isActive.b,
              password := if Truthy(password) then HashOnUpdate(c.password, password.s, hash) else c.password))
  }

  /** An update never touches the cart id, the key, presence or location, so the table stays valid. */
  lemma PatchedKeepsTable(carts: seq<CartRow>, i: nat, body: Object, hash: string -> string, nextId: nat)
    requires TableValid(carts, nextId) && i < |carts| && Patched(carts[i], body, hash).Some?
    ensures TableValid(carts[i := Patched(carts[i], body, hash).value], nextId)
  {
    var r := carts[i := Patched(carts[i], body, hash).value];
    assert forall j :: 0 <= j < |carts| ==> r[j].cartId == carts[j].cartId && r[j].id == carts[j].id;
  }

  /** An empty body changes nothing. */
  lemma PatchedEmpty(c: CartRow, hash: string -> string)
    ensures Patched(c, map[], hash) == Some(c)
  {
  }

  /** The stored password changes only for a truthy new password that differs from the stored hash. */
  lemma PatchedPassword(c: CartRow, body: Object, hash: string -> string)
    requires Patched(c, body, hash).Some?
    ensures Patched(c, body, hash).value.password != c.password ==>
              Truthy(Get(body, Password)) && Get(body, Password).s != c.password
  {
  }

  /**
   * Lines 72-75 on the loaded row: each given field is assigned in turn;
   * `refused` records an assignment the column would not take, which
   * makes the following save fail.
   */
  method AssignFields(loaded: CartRow, body: Object, hash: string -> string) returns (cart: CartRow, refused: bool)
    ensures refused <==> Patched(loaded, body, hash).None?
    ensures !refused ==> cart == Patched(loaded, body, hash).value
  {
    cart := loaded;
    var name, description, isActive, password := Get(body, Name), Get(body, Description), Get(body, IsActive), Get(body, Password);
    refused := false;
    if name != Undefined {
      if name.Str? { cart := cart.(name := name.s); } else { refused := true; }
    }
    if description != Undefined {
      if description.Str? { cart := cart.(description := description.s); } else { refused := true; }
    }
    if isActive != Undefined {
      if isActive.Bool? { cart := cart.(isActive := isActive.b); } else { refused := true; }
    }
    if Truthy(password) {
      // The `beforeUpdate` hook hashes the new value when it differs from the stored one.
      if password.Str? { cart := cart.(password := HashOnUpdate(cart.password, password.s, hash)); } else { refused := true; }
    }
  }

  /** `GET /`: the whole table without passwords. */
  method ListCarts(db: Db, header: Option<string>, verify: string -> Option<Claims>, fault: StoreFault)
    returns (resp: Response)
    ensures AdminGate(header, verify, db.carts).Deny? ==> resp == AdminGate(header, verify, db.carts).resp
    ensures AdminGate(header, verify, db.carts).Next? ==>
              resp == if fault == QueryFails then ServerError else Response(200, JsonList(PublicList(db.carts)))
  {
    var gate := AdminGate(header, verify, db.carts);
    if gate.Deny? {
      return gate.resp;
    }
    if fault == QueryFails {
      return ServerError;
    }
    var carts := PublicList(db.carts);
    resp := Response(200, JsonList(carts));
  }

  /**
   * `POST /`: 400 unless `cartId` and `password` are truthy; 400 when the
   * cart id is taken; otherwise one new row with the schema defaults, the
   * hashed password and name and description defaulting to "", answered
   * 201 with its summary. A store error, or a value the columns do not
   * take, gives 500; every refusal leaves the table as it was.
   */
  method CreateCart(db: Db, header: Option<string>, verify: string -> Option<Claims>, body: Object,
                    hash: string -> string, fault: StoreFault)
    returns (resp: Response)
    requires db.Valid()
    modifies db
    ensures db.Valid()
    ensures db.history == old(db.history) && db.nextHistoryId == old(db.nextHistoryId)
    ensures resp.status != 201 ==> db.carts == old(db.carts) && db.nextCartId == old(db.nextCartId)
    ensures AdminGate(header, verify, old(db.carts)).Deny? ==> resp == AdminGate(header, verify, old(db.carts)).resp
    ensures AdminGate(header, verify, old(db.carts)).Next? ==>
              var cartId, password := Get(body, CartId), Get(body, Password);
              && (!Truthy(cartId) || !Truthy(password) ==> resp == Fail(400, "Cart ID and password are required"))
              && ((Truthy(cartId) && Truthy(password) && cartId.Str? && fault != QueryFails
                   && IndexOf(old(db.carts), cartId.s).Some?) ==> resp == Fail(400, "Cart ID already exists"))
              && ((Truthy(cartId) && Truthy(password) && (!cartId.Str? || fault == QueryFails)) ==> resp == ServerError)
              && ((Truthy(cartId) && Truthy(password) && cartId.Str? && fault != QueryFails
                   && IndexOf(old(db.carts), cartId.s).None? && resp.status != 201) ==> resp == ServerError)
              && (resp.status == 201 <==>
                    && cartId.Str? && cartId.s != "" && password.Str? && password.s != ""
                    && fault != QueryFails && fault != SaveFails(0) && IndexOf(old(db.carts), cartId.s).None?
                    && OrEmpty(Get(body, Name)).Some? && OrEmpty(Get(body, Description)).Some?)
              && (resp.status == 201 ==>
                    var c := NewCart(old(db.nextCartId), cartId.s, HashOnCreate(password.s, hash),
                                     OrEmpty(Get(body, Name)).value, OrEmpty(Get(body, Description)).value);
                    && db.carts == old(db.carts) + [c] && db.nextCartId == old(db.nextCartId) + 1
                    && resp == Response(201, CartBody("Cart created successfully", Summary(c))))
  {
    var gate := AdminGate(header, verify, db.carts);
    if gate.Deny? {
      return gate.resp;
    }
    var cartId, password, name, description := Get(body, CartId), Get(body, Password), Get(body, Name), Get(body, Description);
    if !Truthy(cartId) || !Truthy(password) {
      return Fail(400, "Cart ID and password are required");
    }
    if !cartId.Str? || fault == QueryFails {
      // `findOne` fails on a cart id that is not a string, or on a store error.
      return ServerError;
    }
    if IndexOf(db.carts, cartId.s).Some? {
      return Fail(400, "Cart ID already exists");
    }
    var storedName, storedDescription := OrEmpty(name), OrEmpty(description);
    if !password.Str? || storedName.None? || storedDescription.None? || fault == SaveFails(0) {
      // bcrypt refuses a non-string password; the columns refuse non-strings; or the insert fails.
      return ServerError;
    }
    var cart := NewCart(db.nextCartId, cartId.s, HashOnCreate(password.s, hash), storedName.value, storedDescription.value);
    NewCartDefaults(db.nextCartId, cartId.s, HashOnCreate(password.s, hash), storedName.value, storedDescription.value);
    AppendKeepsTable(db.carts, cart, db.nextCartId);
    db.AddCart(cart);
    resp := Response(201, CartBody("Cart created successfully", Summary(cart)));
  }

  /**
   * `PUT /:cartId`: 404 for an unknown cart; otherwise the given fields
   * are assigned one by one on the loaded row and it is saved, answered
   * with its summary. The cart id, presence and location never change.
   */
  method UpdateCart(db: Db, header: Option<string>, verify: string -> Option<Claims>, cartId: string,
                    body: Object, hash: string -> string, fault: StoreFault)
    returns (resp: Response)
    requires db.Valid()
    modifies db
    ensures db.Valid()
    ensures db.history == old(db.history) && db.nextHistoryId == old(db.nextHistoryId) && db.nextCartId == old(db.nextCartId)
    ensures resp.status != 200 ==> db.carts == old(db.carts)
    ensures AdminGate(header, verify, old(db.carts)).Deny? ==> resp == AdminGate(header, verify, old(db.carts)).resp
    ensures AdminGate(header, verify, old(db.carts)).Next? ==>
              && (fault == QueryFails ==> resp == ServerError)
              && (fault != QueryFails && IndexOf(old(db.carts), cartId).None? ==> resp == Fail(404, "Cart not found"))
              && (fault != QueryFails && IndexOf(old(db.carts), cartId).Some? ==>
                    var i := IndexOf(old(db.carts), cartId).value;
                    var patched := Patched(old(db.carts)[i], body, hash);
                    && (patched.None? || fault == SaveFails(0) ==> resp == ServerError)
                    && (patched.Some? && fault != SaveFails(0) ==>
                          && db.carts == old(db.carts)[i := patched.value]
                          && resp == Response(200, CartBody("Cart updated successfully", Summary(patched.value)))))
  {
    var gate := AdminGate(header, verify, db.carts);
    if gate.Deny? {
      return gate.resp;
    }
    if fault == QueryFails {
      return ServerError;
    }
    var found := IndexOf(db.carts, cartId);
    if found.None? {
      return Fail(404, "Cart not found");
    }
    var i := found.value;
    var cart, refused := AssignFields(db.carts[i], body, hash);
    if refused || fault == SaveFails(0) {
      return ServerError;
    }
    PatchedKeepsTable(db.carts, i, body, hash, db.nextCartId);
    db.SaveCart(i, cart);
    resp := Response(200, CartBody("Cart updated successfully", Summary(cart)));
  }

  /**
   * `DELETE /:cartId`: 404 for an unknown cart; otherwise every history
   * row of the cart is destroyed, then the cart. A failure of the second
   * step leaves the history already purged.
   */
  method DeleteCart(db: Db, header: Option<string>, verify: string -> Option<Claims>, cartId: string,
                    fault: StoreFault)
    returns (resp: Response)
    requires db.Valid()
    modifies db
    ensures db.Valid()
    ensures db.nextHistoryId == old(db.nextHistoryId) && db.nextCartId == old(db.nextCartId)
    ensures AdminGate(header, verify, old(db.carts)).Deny? ==>
              resp == AdminGate(header, verify, old(db.carts)).resp
              && db.carts == old(db.carts) && db.history == old(db.history)
    ensures AdminGate(header, verify, old(db.carts)).Next? ==>
              && (fault == QueryFails ==> resp == ServerError && db.carts == old(db.carts) && db.history == old(db.history))
              && (fault != QueryFails && IndexOf(old(db.carts), cartId).None? ==>
                    resp == Fail(404, "Cart not found") && db.carts == old(db.carts) && db.history == old(db.history))
              && (fault != QueryFails && IndexOf(old(db.carts), cartId).Some? ==>
                    var i := IndexOf(old(db.carts), cartId).value;
                    && (fault == SaveFails(0) ==> resp == ServerError && db.carts == old(db.carts) && db.history == old(db.history))
                    && (fault == SaveFails(1) ==>
                          resp == ServerError && db.carts == old(db.carts) && db.history == Purged(old(db.history), cartId))
                    && (fault != SaveFails(0) && fault != SaveFails(1) ==>
                          && db.history == Purged(old(db.history), cartId)
                          && db.carts == old(db.carts)[..i] + old(db.carts)[i + 1..]
                          && resp == Response(200, MessageBody("Cart deleted successfully"))))
  {
    var gate := AdminGate(header, verify, db.carts);
    if gate.Deny? {
      return gate.resp;
    }
    if fault == QueryFails {
      return ServerError;
    }
    var found := IndexOf(db.carts, cartId);
    if found.None? {
      return Fail(404, "Cart not found");
    }
    if fault == SaveFails(0) {
      return ServerError;
    }
    PurgedKeepsHistory(db.history, cartId, db.nextHistoryId);
    db.SetHistory(Purged(db.history, cartId));
    if fault == SaveFails(1) {
      return ServerError;
    }
    var i := found.value;
    RemoveKeepsTable(db.carts, i, db.nextCartId);
    db.RemoveCart(i);
    resp := Response(200, MessageBody("Cart deleted successfully"));
  }

  /** `GET /:cartId` (any authenticated caller): the serialised cart, or 404. */
  method GetCart(db: Db, header: Option<string>, verify: string -> Option<Claims>, cartId: string, fault: StoreFault)
    returns (resp: Response)
    ensures Authenticate(header, verify, db.carts).Deny? ==> resp == Authenticate(header, verify, db.carts).resp
    ensures Authenticate(header, verify, db.carts).Next? ==>
              && (fault == QueryFails ==> resp == ServerError)
              && (fault != QueryFails && IndexOf(db.carts, cartId).None? ==> resp == Fail(404, "Cart not found"))
              && (fault != QueryFails && IndexOf(db.carts, cartId).Some? ==>
                    resp == Response(200, Json(Serialized(db.carts[IndexOf(db.carts, cartId).value]))))
  {
    var auth := Authenticate(header, verify, db.carts);
    if auth.Deny? {
      return auth.resp;
    }
    if fault == QueryFails {
      return ServerError;
    }
    var found := IndexOf(db.carts, cartId);
    if found.None? {
      return Fail(404, "Cart not found");
    }
    resp := Response(200, Json(Serialized(db.carts[found.value])));
  }

  /** Deleting a cart leaves every other cart and the history of every other cart untouched. */
  lemma DeleteKeepsOthers(carts: seq<CartRow>, history: seq<HistoryModel.HistoryRow>, cartId: string, i: nat)
    requires UniqueCartIds(carts) && IndexOf(carts, cartId) == Some(i)
    ensures forall c :: c in carts[..i] + carts[i + 1..] <==> c in carts && c.cartId != cartId
    ensures forall h :: h in Purged(history, cartId) <==> h in history && h.cartId != cartId
  {
    PurgedMembers(history, cartId);
    var r := carts[..i] + carts[i + 1..];
    assert forall j :: 0 <= j < |r| ==> r[j] == carts[if j < i then j else j + 1];
    forall c | c in carts && c.cartId != cartId ensures c in r {
      var k :| 0 <= k < |carts| && carts[k] == c;
      assert k != i;
      if k < i { assert r[k] == c; } else { assert r[k - 1] == c; }
    }
  }
}
