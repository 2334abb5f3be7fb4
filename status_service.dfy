/**
 * `CartStatusService`, the inactivity monitor: every 30 s it sets offline
 * each cart that is online but has not reported for a minute, and
 * broadcasts `cart-status-changed` for it. Timer scheduling is modelled
 * by the set of intervals the runtime keeps alive; when a tick runs is
 * not modelled.
 */
module StatusService {
  import opened Js
  import opened CartModel
  import opened Events
  import opened Store
  import opened Presence
  import opened Sweep

  /** The monitor (run every 30 s) demotes carts not seen for a minute. */
  const InactivityThreshold: nat := 60 * 1000

  class CartStatusService {
    /** The socket.io server, or null when none was given. */
    var io: Io?
    var intervalId: Option<nat>
    /** The intervals the runtime keeps firing (`setInterval` adds one, `clearInterval` removes one). */
    var running: set<nat>

    constructor(io: Io?)
      ensures this.io == io && intervalId == None && running == {}
    {
      this.io := io;
      intervalId := None;
      running := {};
    }

    /**
     * `checkInactiveCarts` at time `now`. With a healthy store every cart
     * that was online and last seen before `now - 60000` is set offline
     * (only `isOnline` changes) and one `cart-status-changed` with its
     * stored `lastSeen` is broadcast for it, in table order; nothing else
     * changes. A failing query changes nothing; a save failing at the
     * `k`-th selected cart stops the loop after `k` carts. No error escapes.
     */
    method CheckInactiveCarts(db: Db, now: Millis, fault: StoreFault)
      requires db.Valid()
      modifies db, io
      ensures db.Valid()
      ensures var found := Found(old(db.carts), now - InactivityThreshold);
        var n := Completed(fault, |found|);
        && db.carts == Demote(old(db.carts), now - InactivityThreshold, FirstIds(found, n))
        && (io != null ==> io.log == old(io.log) + Notices(found, StatusMonitor, n))
      ensures fault == Healthy ==> db.carts == SweepRows(old(db.carts), now - InactivityThreshold)
      ensures db.history == old(db.history) && db.nextCartId == old(db.nextCartId) && db.nextHistoryId == old(db.nextHistoryId)
      ensures io == old(io) && intervalId == old(intervalId) && running == old(running)
    {
      var inactivityTime := now - InactivityThreshold;
      if fault == QueryFails {
        DemoteNone(db.carts, inactivityTime);
        return;
      }
      ghost var s := db.carts;
      var inactiveCarts := Found(db.carts, inactivityTime);
      SaveOffline(db, io, inactiveCarts, inactivityTime, fault, StatusMonitor);
      if fault == Healthy {
        DemoteAll(s, inactivityTime);
      }
      DemoteKeepsTable(s, inactivityTime, FirstIds(inactiveCarts, Completed(fault, |inactiveCarts|)), db.nextCartId);
    }

    /** `start`: sweep once now, then keep a fresh interval `timer` firing every 30 s. */
    method Start(db: Db, now: Millis, fault: StoreFault, timer: nat)
      requires db.Valid()
      requires timer !in running
      modifies this, db, io
      ensures db.Valid()
      ensures intervalId == Some(timer) && running == old(running) + {timer} && io == old(io)
      ensures var found := Found(old(db.carts), now - InactivityThreshold);
        var n := Completed(fault, |found|);
        && db.carts == Demote(old(db.carts), now - InactivityThreshold, FirstIds(found, n))
        && (io != null ==> io.log == old(io.log) + Notices(found, StatusMonitor, n))
    {
      CheckInactiveCarts(db, now, fault);
      running := running + {timer};
      intervalId := Some(timer);
    }

    /** `stop`: clear the interval and reset `intervalId`; a no-op when not started. */
    method Stop()
      modifies this
      ensures io == old(io)
      ensures old(intervalId).None? ==> intervalId == None && running == old(running)
      ensures old(intervalId).Some? ==> intervalId == None && running == old(running) - {old(intervalId).value}
    {
      if intervalId.Some? {
        running := running - {intervalId.value};
        intervalId := None;
      }
    }
  }

  /** After a healthy sweep a second one at the same instant selects nothing, so it changes and emits nothing. */
  lemma SecondCheckIsQuiet(s: seq<CartRow>, now: Millis, fault: StoreFault)
    ensures var second := Found(SweepRows(s, now - InactivityThreshold), now - InactivityThreshold);
      && second == []
      && Demote(SweepRows(s, now - InactivityThreshold), now - InactivityThreshold,
                FirstIds(second, Completed(fault, |second|))) == SweepRows(s, now - InactivityThreshold)
      && Notices(second, StatusMonitor, Completed(fault, |second|)) == []
  {
    var cutoff := now - InactivityThreshold;
    NothingFoundAfterSweep(s, cutoff);
    DemoteNone(SweepRows(s, cutoff), cutoff);
  }
}
