/**
 * The demotion rule shared by the two sweeps (the 60 s status monitor and
 * the socket service's 5 min stale check): a cart that is online and whose
 * `lastSeen` is strictly before the cutoff is set offline, and nothing
 * else about it changes. A null `lastSeen` never compares below the
 * cutoff, as in SQL.
 */
module Presence {
  import opened Js
  import opened CartModel

  /** `where: { isOnline: true, lastSeen: { [Op.lt]: cutoff } }`. */
  predicate Expired(c: CartRow, cutoff: Millis)
    ensures Expired(c, cutoff) ==> c.isOnline && c.lastSeen.Some?  // a null `lastSeen` is never below the cutoff
  {
    c.isOnline && c.lastSeen.Some? && c.lastSeen.value < cutoff
  }

  /** What a sweep does to one row: `cart.isOnline = false` when it was selected. */
  function Settle(c: CartRow, cutoff: Millis): (r: CartRow)
    ensures !Expired(r, cutoff)
    ensures r == (if Expired(c, cutoff) then c.(isOnline := false) else c)
  {
    if Expired(c, cutoff) then c.(isOnline := false) else c
  }

  /** The table after a complete sweep with `cutoff`. */
  function SweepRows(s: seq<CartRow>, cutoff: Millis): (r: seq<CartRow>)
    ensures |r| == |s|
    ensures forall i :: 0 <= i < |s| ==> !Expired(r[i], cutoff)
    ensures forall i :: 0 <= i < |s| && !Expired(s[i], cutoff) ==> r[i] == s[i]
    ensures forall i :: 0 <= i < |s| && Expired(s[i], cutoff) ==> r[i] == s[i].(isOnline := false)
  {
    seq(|s|, i requires 0 <= i < |s| => Settle(s[i], cutoff))
  }

  /** `findAll` of the sweep: the selected rows in table order. */
  function Found(s: seq<CartRow>, cutoff: Millis): (r: seq<CartRow>)
    ensures |r| <= |s|
  {
    if s == [] then []
    else
      var init := s[..|s| - 1];
      var last := s[|s| - 1];
      Found(init, cutoff) + (if Expired(last, cutoff) then [last] else [])
  }

  /** The sweep selects exactly the rows of the table that are expired. */
  lemma {:induction false} FoundMembers(s: seq<CartRow>, cutoff: Millis)
    ensures forall x :: x in Found(s, cutoff) <==> x in s && Expired(x, cutoff)
  {
    if s != [] {
      var init := s[..|s| - 1];
      assert s == init + [s[|s| - 1]];
      FoundMembers(init, cutoff);
    }
  }

  /** Each selected row is found exactly as often as it occurs in the table; nothing else is. */
  lemma {:induction false} FoundCounts(s: seq<CartRow>, cutoff: Millis, x: CartRow)
    ensures multiset(Found(s, cutoff))[x] == if Expired(x, cutoff) then multiset(s)[x] else 0
  {
    if s != [] {
      var init := s[..|s| - 1];
      assert s == init + [s[|s| - 1]];
      FoundCounts(init, cutoff, x);
    }
  }

  /** After a full sweep nothing is selected any more, so a second sweep finds nothing. */
  lemma NothingFoundAfterSweep(s: seq<CartRow>, cutoff: Millis)
    ensures Found(SweepRows(s, cutoff), cutoff) == []
  {
    SweepCoversEarlierCutoffs(s, cutoff, cutoff);
  }

  /** Nor does a sweep with an earlier cutoff: everything it would select was demoted already. */
  lemma {:induction false} SweepCoversEarlierCutoffs(s: seq<CartRow>, cutoff: Millis, earlier: Millis)
    requires earlier <= cutoff
    ensures Found(SweepRows(s, cutoff), earlier) == []
  {
    if s != [] {
      var init := s[..|s| - 1];
      var r := SweepRows(s, cutoff);
      assert r[..|s| - 1] == SweepRows(init, cutoff);
      SweepCoversEarlierCutoffs(init, cutoff, earlier);
    }
  }

  /** A second sweep at the same cutoff changes nothing. */
  lemma SweepIdempotent(s: seq<CartRow>, cutoff: Millis)
    ensures SweepRows(SweepRows(s, cutoff), cutoff) == SweepRows(s, cutoff)
  {
  }

  /** A sweep keeps every table invariant: ids, keys and well-formed rows. */
  lemma SweepKeepsTable(s: seq<CartRow>, cutoff: Millis, nextId: nat)
    requires TableValid(s, nextId)
    ensures TableValid(SweepRows(s, cutoff), nextId)
  {
    var r := SweepRows(s, cutoff);
    assert forall i :: 0 <= i < |s| ==> r[i].cartId == s[i].cartId && r[i].id == s[i].id;
  }

  /**
   * A store failure injected into a sweep: the `findAll` query fails, or
   * the `save` of the `k`-th selected cart (counting from 0) fails.
   */
  datatype StoreFault = Healthy | QueryFails | SaveFails(k: nat)

  /** How many selected carts a sweep saves before `fault` stops it (a failed save aborts the loop). */
  function Completed(fault: StoreFault, found: nat): (r: nat)
    ensures r <= found
    ensures fault == Healthy ==> r == found
    ensures fault == QueryFails ==> r == 0
    ensures fault.SaveFails? ==> r == if fault.k < found then fault.k else found
  {
    match fault
    case Healthy => found
    case QueryFails => 0
    case SaveFails(k) => if k < found then k else found
  }

  /** The cart ids of the first `n` rows. */
  function FirstIds(rows: seq<CartRow>, n: nat): set<string>
    requires n <= |rows|
  {
    if n == 0 then {} else FirstIds(rows, n - 1) + {rows[n - 1].cartId}
  }

  /** An id is among the first `n` exactly when one of the first `n` rows has it. */
  lemma {:induction false} FirstIdsMembers(rows: seq<CartRow>, n: nat)
    requires n <= |rows|
    ensures forall x :: x in FirstIds(rows, n) <==> exists i :: 0 <= i < n && rows[i].cartId == x
  {
    if n > 0 {
      FirstIdsMembers(rows, n - 1);
    }
  }

  /** One row once the sweep has saved the selected rows whose ids are in `ids`. */
  function DemoteRow(c: CartRow, cutoff: Millis, ids: set<string>): CartRow
  {
    if c.cartId in ids then Settle(c, cutoff) else c
  }

  /**
   * The table after the sweep has saved the selected rows whose ids are in
   * `ids`: those rows are settled, every other row is as it was.
   */
  function Demote(s: seq<CartRow>, cutoff: Millis, ids: set<string>): (r: seq<CartRow>)
    ensures |r| == |s|
  {
    if s == [] then []
    else Demote(s[..|s| - 1], cutoff, ids) + [DemoteRow(s[|s| - 1], cutoff, ids)]
  }

  /** Row `i` of a partly saved table. */
  lemma {:induction false} DemoteAt(s: seq<CartRow>, cutoff: Millis, ids: set<string>, i: nat)
    requires i < |s|
    ensures Demote(s, cutoff, ids)[i] == DemoteRow(s[i], cutoff, ids)
    decreases |s|
  {
    if i < |s| - 1 {
      DemoteAt(s[..|s| - 1], cutoff, ids, i);
    }
  }

  /** Every row of a partly saved table, at once. */
  lemma DemoteEach(s: seq<CartRow>, cutoff: Millis, ids: set<string>)
    ensures forall i :: 0 <= i < |s| ==> Demote(s, cutoff, ids)[i] == DemoteRow(s[i], cutoff, ids)
  {
    forall i | 0 <= i < |s| ensures Demote(s, cutoff, ids)[i] == DemoteRow(s[i], cutoff, ids) {
      DemoteAt(s, cutoff, ids, i);
    }
  }

  /** Saving one more selected row (not yet saved) flips just that row's `isOnline`. */
  lemma DemoteStep(s: seq<CartRow>, cutoff: Millis, ids: set<string>, i: nat)
    requires UniqueCartIds(s) && i < |s|
    requires Expired(s[i], cutoff) && s[i].cartId !in ids
    ensures Demote(s, cutoff, ids)[i] == s[i]
    ensures Demote(s, cutoff, ids + {s[i].cartId}) == Demote(s, cutoff, ids)[i := s[i].(isOnline := false)]
  {
    DemoteEach(s, cutoff, ids);
    DemoteEach(s, cutoff, ids + {s[i].cartId});
  }

  /** Once every selected row is saved, the table is the full sweep. */
  lemma DemoteAll(s: seq<CartRow>, cutoff: Millis)
    ensures Demote(s, cutoff, FirstIds(Found(s, cutoff), |Found(s, cutoff)|)) == SweepRows(s, cutoff)
  {
    var f := Found(s, cutoff);
    var ids := FirstIds(f, |f|);
    FoundMembers(s, cutoff);
    FirstIdsMembers(f, |f|);
    DemoteEach(s, cutoff, ids);
    forall i | 0 <= i < |s| && Expired(s[i], cutoff) ensures s[i].cartId in ids {
      assert s[i] in f;
      var k :| 0 <= k < |f| && f[k] == s[i];
    }
  }

  /** Nothing saved yet: the table as it was. */
  lemma DemoteNone(s: seq<CartRow>, cutoff: Millis)
    ensures Demote(s, cutoff, {}) == s
  {
    DemoteEach(s, cutoff, {});
  }

  /** Demoting keeps every table invariant. */
  lemma DemoteKeepsTable(s: seq<CartRow>, cutoff: Millis, ids: set<string>, nextId: nat)
    requires TableValid(s, nextId)
    ensures TableValid(Demote(s, cutoff, ids), nextId)
  {
    var r := Demote(s, cutoff, ids);
    DemoteEach(s, cutoff, ids);
    assert forall i :: 0 <= i < |s| ==> r[i].cartId == s[i].cartId && r[i].id == s[i].id;
  }

  /** The rows selected from a table with unique cart ids have unique cart ids. */
  lemma {:induction false} FoundUnique(s: seq<CartRow>, cutoff: Millis)
    requires UniqueCartIds(s)
    ensures UniqueCartIds(Found(s, cutoff))
  {
    if s != [] {
      var init := s[..|s| - 1];
      var last := s[|s| - 1];
      assert UniqueCartIds(init);
      FoundUnique(init, cutoff);
      var f := Found(init, cutoff);
      FoundMembers(init, cutoff);
      forall x | x in f ensures x.cartId != last.cartId {
        var i :| 0 <= i < |init| && init[i] == x;
      }
    }
  }

  /** The `j`-th selected row is not among the rows selected before it. */
  lemma FoundFresh(s: seq<CartRow>, cutoff: Millis, j: nat)
    requires UniqueCartIds(s) && j < |Found(s, cutoff)|
    ensures Found(s, cutoff)[j].cartId !in FirstIds(Found(s, cutoff), j)
  {
    var f := Found(s, cutoff);
    FoundUnique(s, cutoff);
    FirstIdsMembers(f, j);
  }
}
