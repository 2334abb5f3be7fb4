/**
 * The loop both sweeps run over the carts their query selected: for each
 * one, in the order found, `cart.isOnline = false`, `await cart.save()`,
 * then a broadcast. A failing save ends the loop (the caller's catch
 * block swallows the error).
 */
module Sweep {
  import opened Js
  import opened CartModel
  import opened Events
  import opened Store
  import opened Presence

  /** Which sweep runs the loop: the 60 s status monitor or the socket service's 5 min stale check. */
  datatype Monitor = StatusMonitor | StaleCheck

  /**
   * The broadcast for a cart a sweep set offline: the status monitor sends
   * `cart-status-changed` with the cart's name, the stale check
   * `cart-status-change` without it; both carry the stored `lastSeen`.
   */
  function Notice(m: Monitor, c: CartRow): (e: Event)
    ensures !e.LocationUpdate? && e.cartId == c.cartId && !e.isOnline && e.lastSeen == c.lastSeen
    ensures e.CartStatusChanged? <==> m == StatusMonitor
  {
    match m
    case StatusMonitor => CartStatusChanged(c.cartId, c.name, false, c.lastSeen)
    case StaleCheck => CartStatusChange(c.cartId, false, c.lastSeen)
  }

  /** What a client receives for a demoted cart: its id, offline, and the stored `lastSeen`. */
  lemma NoticePayload(m: Monitor, c: CartRow)
    ensures EventName(Notice(m, c)) == if m == StatusMonitor then "cart-status-changed" else "cart-status-change"
    ensures Payload(Notice(m, c))[CartId] == Str(c.cartId) && Payload(Notice(m, c))[IsOnline] == Bool(false)
    ensures Payload(Notice(m, c))[LastSeen] == OfDate(c.lastSeen)
    ensures (Name in Payload(Notice(m, c))) <==> m == StatusMonitor
  {
  }

  /** The broadcasts for the first `n` demoted rows, one per row in the order they were found. */
  function Notices(rows: seq<CartRow>, monitor: Monitor, n: nat): (r: seq<Emission>)
    requires n <= |rows|
    ensures |r| == n
  {
    if n == 0 then [] else Notices(rows, monitor, n - 1) + [Broadcast(Notice(monitor, rows[n - 1]))]
  }

  /** The `i`-th broadcast is about the `i`-th demoted row. */
  lemma {:induction false} NoticesAt(rows: seq<CartRow>, monitor: Monitor, n: nat, i: nat)
    requires i < n <= |rows|
    ensures Notices(rows, monitor, n)[i] == Broadcast(Notice(monitor, rows[i]))
  {
    if i < n - 1 {
      NoticesAt(rows, monitor, n - 1, i);
    }
  }

  /** While the sweep runs, the `j`-th selected cart id is still in the table. */
  lemma SelectedStillThere(s: seq<CartRow>, cutoff: Millis, j: nat, current: seq<CartRow>)
    requires j < |Found(s, cutoff)|
    requires current == Demote(s, cutoff, FirstIds(Found(s, cutoff), j))
    ensures IndexOf(current, Found(s, cutoff)[j].cartId).Some?
  {
    var f := Found(s, cutoff);
    FoundMembers(s, cutoff);
    assert f[j] in f;
    var k :| 0 <= k < |s| && s[k] == f[j];
    DemoteAt(s, cutoff, FirstIds(f, j), k);
    assert current[k].cartId == s[k].cartId;
  }

  /**
   * One iteration of a sweep: the row found by the `j`-th selected cart id
   * is that selected row, not yet saved, and flipping its `isOnline` makes
   * it saved too.
   */
  lemma SweepStep(s: seq<CartRow>, cutoff: Millis, j: nat, current: seq<CartRow>, i: nat)
    requires UniqueCartIds(s) && j < |Found(s, cutoff)|
    requires current == Demote(s, cutoff, FirstIds(Found(s, cutoff), j))
    requires IndexOf(current, Found(s, cutoff)[j].cartId) == Some(i)
    ensures i < |current| && current[i] == Found(s, cutoff)[j]
    ensures current[i := current[i].(isOnline := false)] == Demote(s, cutoff, FirstIds(Found(s, cutoff), j + 1))
  {
    var f := Found(s, cutoff);
    FoundMembers(s, cutoff);
    assert f[j] in f;
    var k :| 0 <= k < |s| && s[k] == f[j];
    IndexOfUnique(s, k);
    FoundFresh(s, cutoff, j);
    DemoteAt(s, cutoff, FirstIds(f, j), i);
    assert current[i].cartId == s[i].cartId;
    assert s[i] == f[j];
    DemoteStep(s, cutoff, FirstIds(f, j), i);
  }

  /**
   * The body of a sweep for the `j`-th selected row: the row is looked up by
   * its cart id, only its `isOnline` is written, and then the `Notice` of the
   * row as loaded is broadcast when `out` is present.
   */
  method SaveOne(db: Db, out: Io?, found: seq<CartRow>, ghost s: seq<CartRow>, ghost cutoff: Millis,
                 monitor: Monitor, j: nat, ghost log0: seq<Emission>)
    requires UniqueCartIds(s) && found == Found(s, cutoff) && j < |found|
    requires db.carts == Demote(s, cutoff, FirstIds(found, j))
    requires out != null ==> out.log == log0 + Notices(found, monitor, j)
    modifies db, out
    ensures db.carts == Demote(s, cutoff, FirstIds(found, j + 1))
    ensures out != null ==> out.log == log0 + Notices(found, monitor, j + 1)
    ensures db.history == old(db.history) && db.nextCartId == old(db.nextCartId)
    ensures db.nextHistoryId == old(db.nextHistoryId)
  {
    var cart := found[j];
    SelectedStillThere(s, cutoff, j, db.carts);
    var i := IndexOf(db.carts, cart.cartId).value;
    SweepStep(s, cutoff, j, db.carts, i);
    db.carts := db.carts[i := db.carts[i].(isOnline := false)];
    if out != null {
      out.Emit(Notice(monitor, cart));
    }
  }

  /** The table after the first `j` selected rows were saved offline. */
  ghost predicate Swept(carts: seq<CartRow>, s: seq<CartRow>, cutoff: Millis, found: seq<CartRow>, j: nat)
    requires j <= |found|
  {
    carts == Demote(s, cutoff, FirstIds(found, j))
  }

  /**
   * The loop over `found`, the rows of the table `s` that the query
   * selected with `cutoff`, saving one row per iteration with `SaveOne`.
   * The save of the `k`-th row fails under `SaveFails(k)`, which ends the
   * loop before that row; a failing query never reaches the loop.
   */
  method SaveOffline(db: Db, out: Io?, found: seq<CartRow>, ghost cutoff: Millis, fault: StoreFault,
                     monitor: Monitor)
    requires UniqueCartIds(db.carts) && found == Found(db.carts, cutoff)
    requires fault != QueryFails
    modifies db, out
    ensures var n := Completed(fault, |found|);
      && db.carts == Demote(old(db.carts), cutoff, FirstIds(found, n))
      && (out != null ==> out.log == old(out.log) + Notices(found, monitor, n))
    ensures db.history == old(db.history) && db.nextCartId == old(db.nextCartId)
    ensures db.nextHistoryId == old(db.nextHistoryId)
  {
    ghost var s := db.carts;
    ghost var n := Completed(fault, |found|);
    ghost var log0 := if out != null then out.log else [];
    DemoteNone(s, cutoff);
    assert Swept(db.carts, s, cutoff, found, 0);
    var j := 0;
    while j < |found|
      invariant j <= n
      invariant Swept(db.carts, s, cutoff, found, j)
      invariant out != null ==> out.log == log0 + Notices(found, monitor, j)
      invariant db.history == old(db.history) && db.nextCartId == old(db.nextCartId)
      invariant db.nextHistoryId == old(db.nextHistoryId)
    {
      if fault == SaveFails(j) {
        // `cart.save()` throws and the loop is left.
        break;
      }
      SaveOne(db, out, found, s, cutoff, monitor, j, log0);
      assert Swept(db.carts, s, cutoff, found, j + 1);
      j := j + 1;
    }
    assert j == n;
  }
}
