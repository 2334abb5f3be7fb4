/**
 * The database as the handlers see it: the `carts` and `location_history`
 * tables (rows in insertion order) and their auto-increment counters.
 */
module Store {
  import opened CartModel
  import opened HistoryModel

  /** History ids are distinct and below the next auto-increment value. */
  predicate HistoryValid(rows: seq<HistoryRow>, nextId: nat)
  {
    && (forall i :: 0 <= i < |rows| ==> rows[i].id < nextId)
    && (forall i, j :: 0 <= i < j < |rows| ==> rows[i].id != rows[j].id)
  }

  class Db {
    var carts: seq<CartRow>
    var history: seq<HistoryRow>
    var nextCartId: nat
    var nextHistoryId: nat

    ghost predicate Valid()
      reads this
    {
      TableValid(carts, nextCartId) && HistoryValid(history, nextHistoryId)
    }

    constructor()
      ensures Valid()
      ensures carts == [] && history == []
    {
      carts, history := [], [];
      nextCartId, nextHistoryId := 1, 1;
    }

    /** `cart.save()` of the row at index `i`: only that row changes. */
    method SaveCart(i: nat, c: CartRow)
      requires Valid() && i < |carts| && TableValid(carts[i := c], nextCartId)
      modifies this
      ensures Valid()
      ensures carts == old(carts)[i := c]
      ensures history == old(history) && nextCartId == old(nextCartId) && nextHistoryId == old(nextHistoryId)
    {
      carts := carts[i := c];
    }

    /** `Cart.create`: the row takes the next id and is appended. */
    method AddCart(c: CartRow)
      requires Valid() && c.id == nextCartId && TableValid(carts + [c], nextCartId + 1)
      modifies this
      ensures Valid()
      ensures carts == old(carts) + [c] && nextCartId == old(nextCartId) + 1
      ensures history == old(history) && nextHistoryId == old(nextHistoryId)
    {
      carts := carts + [c];
      nextCartId := nextCartId + 1;
    }

    /** `cart.destroy()` of the row at index `i`. */
    method RemoveCart(i: nat)
      requires Valid() && i < |carts| && TableValid(carts[..i] + carts[i + 1..], nextCartId)
      modifies this
      ensures Valid()
      ensures carts == old(carts)[..i] + old(carts)[i + 1..]
      ensures history == old(history) && nextCartId == old(nextCartId) && nextHistoryId == old(nextHistoryId)
    {
      carts := carts[..i] + carts[i + 1..];
    }

    /** `LocationHistory.destroy`: the history becomes `rows`. */
    method SetHistory(rows: seq<HistoryRow>)
      requires Valid() && HistoryValid(rows, nextHistoryId)
      modifies this
      ensures Valid()
      ensures history == rows
      ensures carts == old(carts) && nextCartId == old(nextCartId) && nextHistoryId == old(nextHistoryId)
    {
      history := rows;
    }

    /** `LocationHistory.create`: the row takes the next id and is appended. */
    method AppendHistory(row: HistoryRow)
      requires Valid() && row.id == nextHistoryId
      modifies this
      ensures Valid()
      ensures history == old(history) + [row] && nextHistoryId == old(nextHistoryId) + 1
      ensures carts == old(carts) && nextCartId == old(nextCartId)
    {
      history := history + [row];
      nextHistoryId := nextHistoryId + 1;
    }
  }
}
