/**
 * How the dashboard's list follows the backend's cart table. A list
 * mirrors the table when it holds the same carts in the same order, each
 * with the table's `cartId`, `isOnline` and `lastSeen`. A snapshot
 * establishes the mirror and every `cart-status-changed` or
 * `location-update` the backend broadcasts preserves it; the socket
 * service's `cart-status-change` broadcasts are not listened to, so after
 * a connect, a disconnect or a stale check the list is out of date until
 * the next snapshot.
 */
module Mirror {
  import opened Js
  import opened CartModel
  import opened Events
  import opened Presence
  import opened Sweep
  import opened Dashboard
  import LocationRoute
  import SocketService
  import StatusService

  /** One entry of the list shows the presence of one row. */
  predicate Shows(entry: Object, c: CartRow)
  {
    Get(entry, CartId) == Str(c.cartId) && Get(entry, IsOnline) == Bool(c.isOnline) && Get(entry, LastSeen) == OfDate(c.lastSeen)
  }

  predicate Mirrors(view: seq<Object>, carts: seq<CartRow>)
  {
    |view| == |carts| && forall i :: 0 <= i < |carts| ==> Shows(view[i], carts[i])
  }

  /** `all-carts` (and the initial `GET /`) sends a list that mirrors the table. */
  lemma SnapshotMirrors(carts: seq<CartRow>)
    ensures Mirrors(PublicList(carts), carts)
  {
    forall i | 0 <= i < |carts| ensures Shows(PublicList(carts)[i], carts[i]) {
      SerializedFields(carts[i]);
    }
  }

  /**
   * A status payload for the cart of row `i` moves the mirror to the
   * table where that row has the payload's presence.
   */
  lemma StatusMirrored(view: seq<Object>, carts: seq<CartRow>, i: nat, data: Object, c: CartRow)
    requires Mirrors(view, carts) && UniqueCartIds(carts) && i < |carts|
    requires c.cartId == carts[i].cartId
    requires Get(data, CartId) == Str(c.cartId) && Get(data, IsOnline) == Bool(c.isOnline) && Get(data, LastSeen) == OfDate(c.lastSeen)
    ensures Mirrors(UpdateCartStatus(view, data), carts[i := c])
  {
    var r := UpdateCartStatus(view, data);
    forall j | 0 <= j < |carts| ensures Shows(r[j], carts[i := c][j]) {
      if j != i {
        assert carts[j].cartId != carts[i].cartId;
        assert !SameCart(view[j], data);
      }
    }
  }

  /** A location payload for the cart of row `i`, likewise, with `timestamp` as the new `lastSeen`. */
  lemma LocationMirrored(view: seq<Object>, carts: seq<CartRow>, i: nat, data: Object, c: CartRow)
    requires Mirrors(view, carts) && UniqueCartIds(carts) && i < |carts|
    requires c.cartId == carts[i].cartId
    requires Get(data, CartId) == Str(c.cartId) && Get(data, IsOnline) == Bool(c.isOnline) && Get(data, Timestamp) == OfDate(c.lastSeen)
    ensures Mirrors(UpdateCartLocation(view, data), carts[i := c])
  {
    var r := UpdateCartLocation(view, data);
    forall j | 0 <= j < |carts| ensures Shows(r[j], carts[i := c][j]) {
      if j != i {
        assert carts[j].cartId != carts[i].cartId;
        assert !SameCart(view[j], data);
      }
    }
  }

  /** Both broadcasts of an accepted `POST /update` keep the mirror in step with the table. */
  lemma IngestMirrored(me: SocketId, view: seq<Object>, carts: seq<CartRow>, i: nat, report: LocationRoute.Report, now: Millis)
    requires Mirrors(view, carts) && UniqueCartIds(carts) && i < |carts|
    ensures Mirrors(ReceiveAll(me, view, LocationRoute.IngestEvents(carts[i], report, now)),
                    carts[i := LocationRoute.Ingest(carts[i], report, now)])
  {
    var c := carts[i];
    var updated := LocationRoute.Ingest(c, report, now);
    var events := LocationRoute.IngestEvents(c, report, now);
    if c.isOnline {
      var last := events[0];
      assert ReceiveAll(me, view, events) == Receive(me, view, last) by {
        assert events == [] + [last];
        ReceiveAllSnoc(me, view, [], last);
      }
      LocationMirrored(view, carts, i, Payload(last.event), updated);
    } else {
      var first, last := events[0], events[1];
      var online := c.(isOnline := true, lastSeen := Some(now));
      assert ReceiveAll(me, view, events) == Receive(me, Receive(me, view, first), last) by {
        assert events == [first] + [last];
        ReceiveAllSnoc(me, view, [first], last);
        assert [first] == [] + [first];
        ReceiveAllSnoc(me, view, [], first);
      }
      assert Mirrors(Receive(me, view, first), carts[i := online]) by {
        StatusMirrored(view, carts, i, Payload(first.event), online);
      }
      assert carts[i := online][i := updated] == carts[i := updated];
      LocationMirrored(Receive(me, view, first), carts[i := online], i, Payload(last.event), updated);
    }
  }

  /**
   * A sweep that has saved the first `n` selected rows has broadcast one
   * notice for each; a listener that applies both presence event names
   * mirrors the table through the whole sweep.
   */
  lemma {:induction false} SweepMirroredCorrected(me: SocketId, view: seq<Object>, s: seq<CartRow>, cutoff: Millis, monitor: Monitor, n: nat)
    requires Mirrors(view, s) && UniqueCartIds(s) && n <= |Found(s, cutoff)|
    ensures Mirrors(ReceiveAllCorrected(me, view, Notices(Found(s, cutoff), monitor, n)),
                    Demote(s, cutoff, FirstIds(Found(s, cutoff), n)))
  {
    var f := Found(s, cutoff);
    if n == 0 {
      DemoteNone(s, cutoff);
    } else {
      var j := n - 1;
      var earlier := Notices(f, monitor, j);
      var em := Broadcast(Notice(monitor, f[j]));
      assert Mirrors(ReceiveCorrected(me, ReceiveAllCorrected(me, view, earlier), em), Demote(s, cutoff, FirstIds(f, n))) by {
        SweepMirroredCorrected(me, view, s, cutoff, monitor, j);
        SweepNoticeMirrored(me, ReceiveAllCorrected(me, view, earlier), s, cutoff, monitor, j);
      }
      assert ReceiveAllCorrected(me, view, Notices(f, monitor, n)) == ReceiveCorrected(me, ReceiveAllCorrected(me, view, earlier), em) by {
        assert Notices(f, monitor, n) == earlier + [em];
        ReceiveAllCorrectedSnoc(me, view, earlier, em);
      }
    }
  }

  /** The broadcast for the `j`-th selected row moves the mirror from `j` demoted rows to `j + 1`. */
  lemma SweepNoticeMirrored(me: SocketId, before: seq<Object>, s: seq<CartRow>, cutoff: Millis, monitor: Monitor, j: nat)
    requires UniqueCartIds(s) && j < |Found(s, cutoff)|
    requires Mirrors(before, Demote(s, cutoff, FirstIds(Found(s, cutoff), j)))
    ensures Mirrors(ReceiveCorrected(me, before, Broadcast(Notice(monitor, Found(s, cutoff)[j]))),
                    Demote(s, cutoff, FirstIds(Found(s, cutoff), j + 1)))
  {
    var current := Demote(s, cutoff, FirstIds(Found(s, cutoff), j));
    SelectedStillThere(s, cutoff, j, current);
    var i := IndexOf(current, Found(s, cutoff)[j].cartId).value;
    SweepStep(s, cutoff, j, current, i);
    DemoteKeepsIds(s, cutoff, FirstIds(Found(s, cutoff), j));
    NoticeMirrored(me, before, current, i, monitor);
  }

  /** One sweep broadcast, heard by the corrected listener, follows the demotion of its row. */
  lemma NoticeMirrored(me: SocketId, view: seq<Object>, carts: seq<CartRow>, i: nat, monitor: Monitor)
    requires Mirrors(view, carts) && UniqueCartIds(carts) && i < |carts|
    ensures Mirrors(ReceiveCorrected(me, view, Broadcast(Notice(monitor, carts[i]))), carts[i := carts[i].(isOnline := false)])
  {
    var e := Notice(monitor, carts[i]);
    NoticePayload(monitor, carts[i]);
    assert ReceiveCorrected(me, view, Broadcast(e)) == UpdateCartStatus(view, Payload(e));
    StatusMirrored(view, carts, i, Payload(e), carts[i].(isOnline := false));
  }

  /** Demoting changes no cart id, so the ids stay unique. */
  lemma DemoteKeepsIds(s: seq<CartRow>, cutoff: Millis, ids: set<string>)
    requires UniqueCartIds(s)
    ensures UniqueCartIds(Demote(s, cutoff, ids))
  {
    DemoteEach(s, cutoff, ids);
  }

  /** The status monitor's notices are `cart-status-changed`, which the dashboard applies as written. */
  lemma {:induction false} MonitorNoticesHeard(me: SocketId, view: seq<Object>, f: seq<CartRow>, n: nat)
    requires n <= |f|
    ensures ReceiveAll(me, view, Notices(f, StatusMonitor, n)) == ReceiveAllCorrected(me, view, Notices(f, StatusMonitor, n))
  {
    if n > 0 {
      MonitorNoticesHeard(me, view, f, n - 1);
      var e := Broadcast(Notice(StatusMonitor, f[n - 1]));
      ReceiveAllSnoc(me, view, Notices(f, StatusMonitor, n - 1), e);
      ReceiveAllCorrectedSnoc(me, view, Notices(f, StatusMonitor, n - 1), e);
    }
  }

  /** The 60 s monitor keeps the dashboard in step even as written. */
  lemma MonitorMirrored(me: SocketId, view: seq<Object>, s: seq<CartRow>, cutoff: Millis, n: nat)
    requires Mirrors(view, s) && UniqueCartIds(s) && n <= |Found(s, cutoff)|
    ensures Mirrors(ReceiveAll(me, view, Notices(Found(s, cutoff), StatusMonitor, n)),
                    Demote(s, cutoff, FirstIds(Found(s, cutoff), n)))
  {
    SweepMirroredCorrected(me, view, s, cutoff, StatusMonitor, n);
    MonitorNoticesHeard(me, view, Found(s, cutoff), n);
  }

  /**
   * As written: a cart that disconnects is offline in the table, but the
   * `cart-status-change` the socket service broadcasts is ignored and the
   * dashboard still shows it online.
   */
  lemma DisconnectLeavesViewStale(me: SocketId)
    ensures var c := NewCart(1, "cart-1", "hash", "", "").(isOnline := true, lastSeen := Some(0));
      var view := PublicList([c]);
      var after := [c.(isOnline := false, lastSeen := Some(1))];
      && Mirrors(view, [c])
      && Receive(me, view, Broadcast(CartStatusChange("cart-1", false, Some(1)))) == view
      && !Mirrors(Receive(me, view, Broadcast(CartStatusChange("cart-1", false, Some(1)))), after)
  {
    var c := NewCart(1, "cart-1", "hash", "", "").(isOnline := true, lastSeen := Some(0));
    SnapshotMirrors([c]);
    var view := PublicList([c]);
    assert Get(view[0], IsOnline) == Bool(true);
  }

  /**
   * Corrected: with the listener applying `cart-status-change` too, the
   * connect and disconnect broadcasts move the mirror to the table the
   * socket service leaves.
   */
  lemma PresenceMirroredCorrected(me: SocketId, view: seq<Object>, carts: seq<CartRow>, i: nat, online: bool, now: Millis)
    requires Mirrors(view, carts) && UniqueCartIds(carts) && i < |carts|
    ensures Mirrors(ReceiveCorrected(me, view, Broadcast(CartStatusChange(carts[i].cartId, online, Some(now)))),
                    carts[i := carts[i].(isOnline := online, lastSeen := Some(now))])
  {
    var e := CartStatusChange(carts[i].cartId, online, Some(now));
    StatusMirrored(view, carts, i, Payload(e), carts[i].(isOnline := online, lastSeen := Some(now)));
  }

  /** A healthy 60 s sweep leaves nothing for a 5 min stale check at the same instant. */
  lemma MonitorPreemptsStaleCheck(s: seq<CartRow>, now: Millis)
    ensures Found(SweepRows(s, now - StatusService.InactivityThreshold), now - SocketService.StaleAfter) == []
  {
    SweepCoversEarlierCutoffs(s, now - StatusService.InactivityThreshold, now - SocketService.StaleAfter);
  }
}
