/**
 * The `location_history` table (the `LocationHistory` model): one row per
 * accepted location report, its `toJSON` serialiser that nests the
 * coordinates under `location`, and the history query of
 * `GET /history/:cartId` (filter by cart and time window, newest first,
 * at most `limit` rows).
 */
module HistoryModel {
  import opened Js

  /**
   * Latitude and longitude are NOT NULL columns, accuracy is nullable and
   * the timestamp defaults to the insertion time, so it is never null.
   */
  datatype HistoryRow = HistoryRow(
    id: nat,
    cartId: string,
    latitude: real,
    longitude: real,
    accuracy: Option<real>,
    timestamp: Millis)

  /** A row inserted at time `now` by `LocationHistory.create`, which leaves the timestamp to its default. */
  function Inserted(id: nat, cartId: string, latitude: real, longitude: real, accuracy: Option<real>, now: Millis): (h: HistoryRow)
    ensures h.timestamp == now && h.cartId == cartId && h.id == id
    ensures h.latitude == latitude && h.longitude == longitude && h.accuracy == accuracy
  {
    HistoryRow(id, cartId, latitude, longitude, accuracy, now)
  }

  /** `this.get()`: the row as a plain object. */
  function Attributes(h: HistoryRow): Object
  {
    map[
      Id := Num(h.id as real),
      CartId := Str(h.cartId),
      Latitude := Num(h.latitude),
      Longitude := Num(h.longitude),
      Accuracy := OfReal(h.accuracy),
      Timestamp := Date(h.timestamp)
    ]
  }

  const FlatKeys: set<Key> := {Latitude, Longitude, Accuracy}

  /**
   * `LocationHistory.prototype.toJSON` on the attribute bag: adds
   * `location = {latitude, longitude, accuracy}` and deletes the three flat
   * keys; everything else is copied.
   */
  function ToJson(values: Object): (r: Object)
    ensures r.Keys == (values.Keys - FlatKeys) + {Location}
    ensures forall k :: k in FlatKeys ==> k !in r
    ensures forall k :: k in values && k !in FlatKeys && k != Location ==> r[k] == values[k]
    ensures Field(r[Location], Latitude) == Get(values, Latitude)
    ensures Field(r[Location], Longitude) == Get(values, Longitude)
    ensures Field(r[Location], Accuracy) == Get(values, Accuracy)
    ensures r[Location].Obj? && r[Location].fields.Keys == {Latitude, Longitude, Accuracy}
  {
    var location := Obj(map[
      Latitude := Get(values, Latitude),
      Longitude := Get(values, Longitude),
      Accuracy := Get(values, Accuracy)]);
    values[Location := location] - FlatKeys
  }

  /** What a client receives for one row of the history query. */
  function Serialized(h: HistoryRow): (r: Object)
    ensures Location in r && (forall k :: k in FlatKeys ==> k !in r)
    ensures Get(r, Id) == Num(h.id as real) && Get(r, CartId) == Str(h.cartId) && Get(r, Timestamp) == Date(h.timestamp)
  {
    ToJson(Attributes(h))
  }

  /**
   * `res.json(history)`: one element per row, in order, each with the
   * coordinates under `location` and no flat coordinate key, and each
   * giving back its row.
   */
  function SerializedList(rows: seq<HistoryRow>): (r: seq<Object>)
    ensures |r| == |rows|
    ensures forall i :: 0 <= i < |rows| ==> r[i] == Serialized(rows[i])
    ensures forall i :: 0 <= i < |rows| ==>
              && Location in r[i] && (forall k :: k in FlatKeys ==> k !in r[i])
              && FromJson(r[i]) == Some(rows[i])
  {
    SerializedListShape(rows);
    seq(|rows|, i requires 0 <= i < |rows| => Serialized(rows[i]))
  }

  lemma SerializedListShape(rows: seq<HistoryRow>)
    ensures forall i :: 0 <= i < |rows| ==>
              && Location in Serialized(rows[i]) && (forall k :: k in FlatKeys ==> k !in Serialized(rows[i]))
              && FromJson(Serialized(rows[i])) == Some(rows[i])
  {
    forall i | 0 <= i < |rows|
      ensures Location in Serialized(rows[i]) && (forall k :: k in FlatKeys ==> k !in Serialized(rows[i]))
      ensures FromJson(Serialized(rows[i])) == Some(rows[i])
    {
      SerializedRoundTrip(rows[i]);
    }
  }

  /** Rebuild a row from its serialised object (`None` if the shape is wrong). */
  function FromJson(j: Object): Option<HistoryRow>
  {
    var id := Get(j, Id);
    var cartId := Get(j, CartId);
    var ts := Get(j, Timestamp);
    var loc := Get(j, Location);
    var lat := Field(loc, Latitude);
    var lng := Field(loc, Longitude);
    var acc := Field(loc, Accuracy);
    if !id.Num? || id.n < 0.0 || id.n.Floor as real != id.n || !cartId.Str? || !ts.Date?
       || !lat.Num? || !lng.Num? || !(acc.Null? || acc.Num?)
    then None
    else Some(HistoryRow(id.n.Floor as nat, cartId.s, lat.n, lng.n,
                         if acc.Num? then Some(acc.n) else None, ts.t))
  }

  /** `id`, `cartId` and `timestamp` pass through and `location` holds the coordinates: the serialised row determines the row. */
  lemma SerializedRoundTrip(h: HistoryRow)
    ensures FromJson(Serialized(h)) == Some(h)
  {
    var j := Serialized(h);
    assert j == Attributes(h)[Location := j[Location]] - FlatKeys;
    assert Get(j, Id) == Num(h.id as real);
    assert (h.id as real).Floor == h.id;
    assert Get(j, CartId) == Str(h.cartId);
    assert Get(j, Timestamp) == Date(h.timestamp);
    var loc := Get(j, Location);
    assert Field(loc, Latitude) == Num(h.latitude);
    assert Field(loc, Longitude) == Num(h.longitude);
    assert Field(loc, Accuracy) == OfReal(h.accuracy);
  }

  /**
   * A row created by `LocationHistory.create` without a timestamp is served
   * back with the insertion time as `timestamp` and the given coordinates,
   * a missing accuracy as null, under `location`.
   */
  lemma InsertedServed(id: nat, cartId: string, latitude: real, longitude: real, accuracy: Option<real>, now: Millis)
    ensures var j := Serialized(Inserted(id, cartId, latitude, longitude, accuracy, now));
      && Get(j, CartId) == Str(cartId) && Get(j, Timestamp) == Date(now)
      && Field(Get(j, Location), Latitude) == Num(latitude)
      && Field(Get(j, Location), Longitude) == Num(longitude)
      && Field(Get(j, Location), Accuracy) == (if accuracy.Some? then Num(accuracy.value) else Null)
  {
  }

  // ---------------------------------------------------------------------
  // The history query.

  /** The `where` object of the query: `cartId`, then optional `Op.gte`/`Op.lte` bounds. */
  datatype Where = Where(cartId: string, from: Option<Millis>, until: Option<Millis>)

  /** Without bounds every row of the cart matches; an inverted window matches nothing. */
  predicate Matches(w: Where, h: HistoryRow)
    ensures w.from.None? && w.until.None? ==> (Matches(w, h) <==> h.cartId == w.cartId)
    ensures w.from.Some? && w.until.Some? && w.from.value > w.until.value ==> !Matches(w, h)
    ensures Matches(w, h) ==> h.cartId == w.cartId
  {
    && h.cartId == w.cartId
    && (w.from.Some? ==> h.timestamp >= w.from.value)
    && (w.until.Some? ==> h.timestamp <= w.until.value)
  }

  /** The rows of the table that satisfy `where`, in table order. */
  function Filter(rows: seq<HistoryRow>, w: Where): (r: seq<HistoryRow>)
    ensures |r| <= |rows|
    ensures forall x :: x in r <==> x in rows && Matches(w, x)
    ensures forall i :: 0 <= i < |r| ==> Matches(w, r[i])
  {
    if rows == [] then []
    else
      var rest := Filter(rows[..|rows| - 1], w);
      var last := rows[|rows| - 1];
      assert rows == rows[..|rows| - 1] + [last];
      if Matches(w, last) then rest + [last] else rest
  }

  /** Each matching row occurs in the result as often as in the table; no other row occurs. */
  lemma {:induction false} FilterCounts(rows: seq<HistoryRow>, w: Where, x: HistoryRow)
    ensures multiset(Filter(rows, w))[x] == if Matches(w, x) then multiset(rows)[x] else 0
  {
    if rows != [] {
      var init := rows[..|rows| - 1];
      assert rows == init + [rows[|rows| - 1]];
      FilterCounts(init, w, x);
    }
  }

  /** Filtering keeps table order: the matches of a prefix come before those of what follows. */
  lemma {:induction false} FilterAppend(a: seq<HistoryRow>, b: seq<HistoryRow>, w: Where)
    ensures Filter(a + b, w) == Filter(a, w) + Filter(b, w)
  {
    if b != [] {
      var init := b[..|b| - 1];
      var last := b[|b| - 1];
      assert b == init + [last];
      assert (a + b)[..|a + b| - 1] == a + init;
      FilterAppend(a, init, w);
    } else {
      assert a + b == a;
    }
  }

  /** `order: [["timestamp", "DESC"]]`. */
  predicate NewestFirst(s: seq<HistoryRow>)
  {
    forall i, j :: 0 <= i < j < |s| ==> s[i].timestamp >= s[j].timestamp
  }

  function Insert(x: HistoryRow, s: seq<HistoryRow>): (r: seq<HistoryRow>)
    requires NewestFirst(s)
    ensures NewestFirst(r)
    ensures multiset(r) == multiset(s) + multiset{x}
    ensures |r| == |s| + 1
  {
    if s == [] || x.timestamp >= s[0].timestamp then
      InsertFront(x, s);
      [x] + s
    else
      var tail := Insert(x, s[1..]);
      InsertBehind(x, s, tail);
      [s[0]] + tail
  }

  /** A row at least as new as the head goes in front. */
  lemma InsertFront(x: HistoryRow, s: seq<HistoryRow>)
    requires NewestFirst(s) && (s == [] || x.timestamp >= s[0].timestamp)
    ensures NewestFirst([x] + s)
  {
    var r := [x] + s;
    forall i, j | 0 <= i < j < |r| ensures r[i].timestamp >= r[j].timestamp {
      if i == 0 {
        assert r[j] == s[j - 1];
        assert s[0].timestamp >= s[j - 1].timestamp || j == 1;
      }
    }
  }

  /** An older row goes behind the head, into the tail. */
  lemma InsertBehind(x: HistoryRow, s: seq<HistoryRow>, tail: seq<HistoryRow>)
    requires NewestFirst(s) && s != [] && x.timestamp < s[0].timestamp
    requires NewestFirst(tail) && multiset(tail) == multiset(s[1..]) + multiset{x}
    ensures NewestFirst([s[0]] + tail)
    ensures multiset([s[0]] + tail) == multiset(s) + multiset{x}
  {
    assert s == [s[0]] + s[1..];
    var r := [s[0]] + tail;
    forall j | 0 <= j < |tail| ensures s[0].timestamp >= tail[j].timestamp {
      assert tail[j] in multiset(tail);
      if tail[j] != x {
        assert tail[j] in multiset(s[1..]);
        var k :| 0 <= k < |s[1..]| && s[1..][k] == tail[j];
        assert s[k + 1] == tail[j];
      }
    }
    forall i, j | 0 <= i < j < |r| ensures r[i].timestamp >= r[j].timestamp {
      if i == 0 {
        assert r[j] == tail[j - 1];
      } else {
        assert r[i] == tail[i - 1] && r[j] == tail[j - 1];
      }
    }
  }

  /** The rows ordered newest first (ties keep no particular order in the store). */
  function SortNewestFirst(s: seq<HistoryRow>): (r: seq<HistoryRow>)
    ensures NewestFirst(r)
    ensures multiset(r) == multiset(s)
    ensures |r| == |s|
  {
    if s == [] then []
    else
      assert s == [s[0]] + s[1..];
      Insert(s[0], SortNewestFirst(s[1..]))
  }

  function Min(a: nat, b: nat): nat { if a <= b then a else b }

  /** `LocationHistory.findAll({ where, order: timestamp DESC, limit })`. */
  function Query(rows: seq<HistoryRow>, w: Where, limit: nat): (r: seq<HistoryRow>)
    ensures |r| <= limit && |r| <= |Filter(rows, w)|
    ensures |r| < limit ==> |r| == |Filter(rows, w)|
  {
    SortNewestFirst(Filter(rows, w))[..Min(limit, |Filter(rows, w)|)]
  }

  /** The matching rows beyond the limit, which the query leaves out. */
  function Dropped(rows: seq<HistoryRow>, w: Where, limit: nat): seq<HistoryRow>
  {
    SortNewestFirst(Filter(rows, w))[Min(limit, |Filter(rows, w)|)..]
  }

  /**
   * The query returns only rows of that cart inside the window, newest
   * first, and at most `limit` of them.
   */
  lemma QueryMatches(rows: seq<HistoryRow>, w: Where, limit: nat)
    ensures var q := Query(rows, w, limit);
      && (forall i :: 0 <= i < |q| ==> q[i] in rows && Matches(w, q[i]))
      && NewestFirst(q)
      && |q| == Min(limit, |Filter(rows, w)|) <= limit
  {
    var f := Filter(rows, w);
    var sorted := SortNewestFirst(f);
    var q := Query(rows, w, limit);
    forall i | 0 <= i < |q| ensures q[i] in rows && Matches(w, q[i]) {
      assert q[i] == sorted[i];
      assert q[i] in multiset(sorted);
      assert q[i] in multiset(f);
    }
  }

  /**
   * Nothing matching is lost or invented: the returned rows and the rows
   * dropped by the limit are together exactly the matching rows, and no
   * dropped row is newer than a returned one.
   */
  lemma QueryKeepsNewest(rows: seq<HistoryRow>, w: Where, limit: nat)
    ensures multiset(Query(rows, w, limit)) + multiset(Dropped(rows, w, limit)) == multiset(Filter(rows, w))
    ensures forall x, y :: x in Query(rows, w, limit) && y in Dropped(rows, w, limit) ==> x.timestamp >= y.timestamp
  {
    var f := Filter(rows, w);
    var sorted := SortNewestFirst(f);
    var n := Min(limit, |f|);
    SplitSorted(sorted, n);
  }

  lemma SplitSorted(s: seq<HistoryRow>, n: nat)
    requires NewestFirst(s) && n <= |s|
    ensures multiset(s[..n]) + multiset(s[n..]) == multiset(s)
    ensures forall x, y :: x in s[..n] && y in s[n..] ==> x.timestamp >= y.timestamp
  {
    assert s == s[..n] + s[n..];
    forall x, y | x in s[..n] && y in s[n..] ensures x.timestamp >= y.timestamp {
      var i :| 0 <= i < n && s[..n][i] == x;
      var j :| 0 <= j < |s| - n && s[n..][j] == y;
      assert s[i] == x && s[n + j] == y;
    }
  }
}
