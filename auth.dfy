/**
 * The authentication middleware and the admin gate. Signature checking is
 * abstracted as a verifier that maps a token string to its claims, or to
 * `None` when `jwt.verify` throws.
 */
module Auth {
  import opened Js
  import opened CartModel
  import opened Http

  /** The decoded token, distinguished by its `type` claim. */
  datatype Claims =
    | CartClaims(cartId: string)
    | AdminClaims(username: string)
    | OtherClaims(tokenType: string)

  /** A request that passed the middleware: what it set as `req.cart`/`req.admin`, and `req.token`. */
  datatype AuthedRequest =
    | CartRequest(cart: CartRow, token: string)
    | AdminRequest(username: string, token: string)

  /** `req.userType`. */
  function UserType(r: AuthedRequest): string
  {
    if r.CartRequest? then "cart" else "admin"
  }

  datatype AuthOutcome = Next(req: AuthedRequest) | Deny(resp: Response)

  const BearerPrefix := "Bearer "

  /** The pattern `pat` occurs in `s` at position `i`. */
  predicate OccursAt(s: string, pat: string, i: nat)
  {
    i + |pat| <= |s| && s[i..i + |pat|] == pat
  }

  /**
   * `s.replace(pat, rep)` with a string pattern: only the first occurrence
   * is replaced, so the result is `s` itself or one `pat` shorter and one
   * `rep` longer.
   */
  function ReplaceFirst(s: string, pat: string, rep: string): (r: string)
    requires pat != ""
    ensures r == s || (|pat| <= |s| && |r| == |s| - |pat| + |rep|)
    decreases |s|
  {
    if |s| < |pat| then s
    else if s[..|pat|] == pat then rep + s[|pat|..]
    else [s[0]] + ReplaceFirst(s[1..], pat, rep)
  }

  /** Dropping the first character shifts every occurrence one place to the left. */
  lemma OccursShift(s: string, pat: string, j: nat)
    requires |s| > 0
    ensures OccursAt(s, pat, j + 1) <==> OccursAt(s[1..], pat, j)
  {
    if j + 1 + |pat| <= |s| {
      assert s[1..][j..j + |pat|] == s[j + 1..j + 1 + |pat|];
    }
  }

  /** With an occurrence at `i` and none before it, exactly that occurrence is replaced. */
  lemma {:induction false} ReplaceFirstAt(s: string, pat: string, rep: string, i: nat)
    requires pat != ""
    requires OccursAt(s, pat, i)
    requires forall j :: 0 <= j < i ==> !OccursAt(s, pat, j)
    ensures ReplaceFirst(s, pat, rep) == s[..i] + rep + s[i + |pat|..]
    decreases i
  {
    if i == 0 {
      assert s[..|pat|] == s[0..|pat|];
      assert s[..0] + rep + s[|pat|..] == rep + s[|pat|..];
    } else {
      var t := s[1..];
      assert ReplaceFirst(s, pat, rep) == [s[0]] + ReplaceFirst(t, pat, rep) by {
        assert !OccursAt(s, pat, 0);
        assert s[0..|pat|] == s[..|pat|];
      }
      assert ReplaceFirst(t, pat, rep) == t[..i - 1] + rep + t[i - 1 + |pat|..] by {
        forall j | 0 <= j < i - 1 ensures !OccursAt(t, pat, j) {
          OccursShift(s, pat, j);
        }
        OccursShift(s, pat, i - 1);
        ReplaceFirstAt(t, pat, rep, i - 1);
      }
      assert s[..i] == [s[0]] + t[..i - 1];
      assert s[i + |pat|..] == t[i - 1 + |pat|..];
    }
  }

  /** Without an occurrence the string is returned unchanged. */
  lemma {:induction false} ReplaceFirstNone(s: string, pat: string, rep: string)
    requires pat != ""
    requires forall j :: 0 <= j <= |s| ==> !OccursAt(s, pat, j)
    ensures ReplaceFirst(s, pat, rep) == s
    decreases |s|
  {
    if |s| >= |pat| {
      assert !OccursAt(s, pat, 0);
      forall j | 0 <= j <= |s| - 1 ensures !OccursAt(s[1..], pat, j) {
        OccursShift(s, pat, j);
      }
      ReplaceFirstNone(s[1..], pat, rep);
      assert s == [s[0]] + s[1..];
    }
  }

  /** `req.header("Authorization")?.replace("Bearer ", "")`: a token exactly when there is a header, never longer than it. */
  function Token(header: Option<string>): (r: Option<string>)
    ensures r.Some? <==> header.Some?
    ensures header.Some? ==> |r.value| <= |header.value|
  {
    match header
    case None => None
    case Some(h) => Some(ReplaceFirst(h, BearerPrefix, ""))
  }

  /** The usual header `Bearer <t>` yields `t`. */
  lemma BearerToken(t: string)
    ensures Token(Some(BearerPrefix + t)) == Some(t)
  {
    var h := BearerPrefix + t;
    assert h[..|BearerPrefix|] == BearerPrefix;
    assert "" + h[|BearerPrefix|..] == t;
  }

  /** `Cart.findOne({ where: { cartId, isActive: true } })`. */
  function ActiveCart(carts: seq<CartRow>, cartId: string): (r: Option<CartRow>)
    ensures r.Some? ==> r.value in carts && r.value.cartId == cartId && r.value.isActive
    ensures r.None? && UniqueCartIds(carts) ==> forall c :: c in carts && c.cartId == cartId ==> !c.isActive
    ensures UniqueCartIds(carts) ==> forall c :: c in carts && c.cartId == cartId && c.isActive ==> r == Some(c)
  {
    match IndexOf(carts, cartId)
    case None => None
    case Some(i) =>
      assert UniqueCartIds(carts) ==> forall j :: 0 <= j < |carts| && carts[j].cartId == cartId ==> j == i;
      if carts[i].isActive then Some(carts[i]) else None
  }

  /**
   * `authMiddleware`: no token (absent header or empty after stripping)
   * gives 401 "No token provided"; a token that does not verify gives 401
   * "Please authenticate"; a cart token passes only for an existing active
   * cart (401 "Cart not found or inactive" otherwise); an admin token
   * passes without a lookup; any other type gives 401 "Invalid token type".
   */
  function Authenticate(header: Option<string>, verify: string -> Option<Claims>, carts: seq<CartRow>): (r: AuthOutcome)
    ensures r.Deny? ==> r.resp.status == 401
    ensures (Token(header).None? || Token(header) == Some("")) <==> r == Deny(Fail(401, "No token provided"))
    ensures r.Next? ==> Token(header) == Some(r.req.token) && r.req.token != ""
    ensures r.Next? && r.req.CartRequest? ==>
              verify(r.req.token) == Some(CartClaims(r.req.cart.cartId))
              && r.req.cart in carts && r.req.cart.isActive
    ensures r.Next? && r.req.AdminRequest? ==> verify(r.req.token) == Some(AdminClaims(r.req.username))
    ensures forall t: string, c: CartRow ::
              (Token(header) == Some(t) && t != "" && verify(t) == Some(CartClaims(c.cartId))
               && c in carts && c.isActive && UniqueCartIds(carts)) ==> r == Next(CartRequest(c, t))
    ensures forall t, u :: Token(header) == Some(t) && t != "" && verify(t) == Some(AdminClaims(u)) ==>
              r == Next(AdminRequest(u, t))
    ensures forall t :: Token(header) == Some(t) && t != "" && (verify(t).None? || verify(t).value.OtherClaims?) ==>
              r.Deny?
  {
    match Token(header)
    case None => Deny(Fail(401, "No token provided"))
    case Some(t) =>
      if t == "" then Deny(Fail(401, "No token provided"))
      else match verify(t)
        case None => Deny(Fail(401, "Please authenticate"))
        case Some(CartClaims(id)) =>
          (match ActiveCart(carts, id)
           case None => Deny(Fail(401, "Cart not found or inactive"))
           case Some(c) => Next(CartRequest(c, t)))
        case Some(AdminClaims(u)) => Next(AdminRequest(u, t))
        case Some(OtherClaims(_)) => Deny(Fail(401, "Invalid token type"))
  }

  /** `adminOnly`: 403 unless `req.userType` is "admin". */
  function AdminOnly(req: AuthedRequest): (r: Option<Response>)
    ensures r.None? <==> UserType(req) == "admin"
    ensures r.Some? ==> r.value == Fail(403, "Admin access required")
  {
    if UserType(req) != "admin" then Some(Fail(403, "Admin access required")) else None
  }

  /** `authMiddleware, adminOnly` in sequence, as the admin routes mount them. */
  function AdminGate(header: Option<string>, verify: string -> Option<Claims>, carts: seq<CartRow>): (r: AuthOutcome)
    ensures r.Next? ==> r.req.AdminRequest?
    ensures r.Next? <==> Authenticate(header, verify, carts).Next? && Authenticate(header, verify, carts).req.AdminRequest?
    ensures Authenticate(header, verify, carts).Next? && Authenticate(header, verify, carts).req.CartRequest? ==>
              r == Deny(Fail(403, "Admin access required"))
  {
    match Authenticate(header, verify, carts)
    case Deny(resp) => Deny(resp)
    case Next(req) =>
      match AdminOnly(req)
      case Some(resp) => Deny(resp)
      case None => Next(req)
  }
}
