/**
 * The cart controller: one cart (created on the first successful add) whose
 * line list is merged into, filtered and updated in place. The bicycle
 * collection is passed in as the set of existing bicycle ids; line ids are
 * drawn from a counter, standing for the ids the database assigns.
 */
module CartStore {
  import opened ShopTypes

  datatype Outcome =
    | Done
      /** "Invalid request data" */
    | InvalidRequest
      /** "Bicycle not found" */
    | BicycleNotFound
      /** "Cart not found" */
    | CartNotFound
      /** "Quantity must be at least 1." */
    | QuantityTooLow
      /** "Item not found in cart" */
    | ItemNotFound

  /** A line holds the same bicycle with identical options, in the same order (the serialized comparison). */
  predicate SameConfiguration(item: CartItem, bicycleId: string, options: seq<Pick>) {
    item.bicycle == bicycleId && item.options == options
  }

  /** The position of the first line with that configuration (`cart.items.find`). */
  function MatchIndex(items: seq<CartItem>, bicycleId: string, options: seq<Pick>): (r: Option<nat>)
    ensures r.Some? ==> r.value < |items| && SameConfiguration(items[r.value], bicycleId, options)
                        && forall j :: 0 <= j < r.value ==> !SameConfiguration(items[j], bicycleId, options)
    ensures r.None? ==> forall j :: 0 <= j < |items| ==> !SameConfiguration(items[j], bicycleId, options)
  {
    if items == [] then None
    else if SameConfiguration(items[0], bicycleId, options) then Some(0)
    else
      match MatchIndex(items[1..], bicycleId, options)
      case None => None
      case Some(k) => Some(k + 1)
  }

  /**
   * The line list after adding `quantity` units of a configuration: the first
   * matching line grows, or a new line with id `freshId` is appended.
   */
  function AddOrMerge(items: seq<CartItem>, bicycleId: string, options: seq<Pick>, quantity: int, freshId: nat): (r: seq<CartItem>)
    ensures TotalQuantity(r) == TotalQuantity(items) + quantity
    ensures MatchIndex(items, bicycleId, options).Some? ==> |r| == |items|
    ensures MatchIndex(items, bicycleId, options).None? ==> |r| == |items| + 1 && r[|items|] == CartItem(freshId, bicycleId, options, quantity)
    ensures forall j :: 0 <= j < |items| ==>
              r[j] == items[j] ||
              (MatchIndex(items, bicycleId, options) == Some(j) && r[j] == items[j].(quantity := items[j].quantity + quantity))
  {
    match MatchIndex(items, bicycleId, options)
    case Some(k) =>
      var line := items[k].(quantity := items[k].quantity + quantity);
      TotalQuantityReplace(items, k, line);
      items[k := line]
    case None =>
      var line := CartItem(freshId, bicycleId, options, quantity);
      TotalQuantityAppend(items, [line]);
      assert TotalQuantity([line]) == quantity by { assert [line][..0] == []; }
      items + [line]
  }

  /** The line list without the lines whose id is `id`, in their original order. */
  function WithoutItem(items: seq<CartItem>, id: nat): (r: seq<CartItem>)
    ensures |r| <= |items|
  {
    if items == [] then []
    else if items[0].id == id then WithoutItem(items[1..], id)
    else [items[0]] + WithoutItem(items[1..], id)
  }

  /** Exactly the lines whose id differs are kept. */
  lemma {:induction false} WithoutItemMembers(items: seq<CartItem>, id: nat)
    ensures forall x :: x in WithoutItem(items, id) <==> x in items && x.id != id
  {
    if items != [] {
      WithoutItemMembers(items[1..], id);
      assert forall x :: x in items <==> x == items[0] || x in items[1..];
    }
  }

  /** Removing lines keeps the remaining ids distinct. */
  lemma {:induction false} WithoutItemDistinct(items: seq<CartItem>, id: nat)
    requires DistinctIds(items)
    ensures DistinctIds(WithoutItem(items, id))
  {
    if items != [] {
      var rest := items[1..];
      assert DistinctIds(rest) by {
        forall i, j | 0 <= i < j < |rest| ensures rest[i].id != rest[j].id {
          assert rest[i] == items[i + 1] && rest[j] == items[j + 1];
        }
      }
      WithoutItemDistinct(rest, id);
      if items[0].id != id {
        var r := WithoutItem(rest, id);
        WithoutItemMembers(rest, id);
        forall j | 0 <= j < |r| ensures r[j].id != items[0].id {
          assert r[j] in rest;
        }
        assert WithoutItem(items, id) == [items[0]] + r;
      }
    }
  }

  /** Removing distributes over concatenation. */
  lemma {:induction false} WithoutItemAppend(a: seq<CartItem>, b: seq<CartItem>, id: nat)
    ensures WithoutItem(a + b, id) == WithoutItem(a, id) + WithoutItem(b, id)
  {
    if a != [] {
      assert (a + b)[1..] == a[1..] + b;
      WithoutItemAppend(a[1..], b, id);
    } else {
      assert a + b == b;
    }
  }

  /** Removing an id that no line carries leaves the line list as it is. */
  lemma {:induction false} RemoveAbsentId(items: seq<CartItem>, id: nat)
    requires forall x :: x in items ==> x.id != id
    ensures WithoutItem(items, id) == items
  {
    if items != [] {
      assert items[0] in items;
      assert forall x :: x in items[1..] ==> x in items;
      RemoveAbsentId(items[1..], id);
    }
  }

  /** With distinct ids, no other line carries the id of line `k`. */
  lemma OthersCarryOtherIds(items: seq<CartItem>, k: nat)
    requires DistinctIds(items) && k < |items|
    ensures forall x :: x in items[..k] ==> x.id != items[k].id
    ensures forall x :: x in items[k + 1..] ==> x.id != items[k].id
  {
    forall x | x in items[..k] ensures x.id != items[k].id {
      var i :| 0 <= i < k && items[..k][i] == x;
    }
    forall x | x in items[k + 1..] ensures x.id != items[k].id {
      var i :| 0 <= i < |items| - k - 1 && items[k + 1..][i] == x;
      assert x == items[k + 1 + i];
    }
  }

  /** When no other line carries the id of line `k`, removing that id removes exactly line `k`. */
  lemma RemoveOnlyCarrier(items: seq<CartItem>, k: nat)
    requires k < |items|
    requires forall x :: x in items[..k] ==> x.id != items[k].id
    requires forall x :: x in items[k + 1..] ==> x.id != items[k].id
    ensures WithoutItem(items, items[k].id) == items[..k] + items[k + 1..]
  {
    RemoveAbsentId(items[..k], items[k].id);
    RemoveAbsentId(items[k + 1..], items[k].id);
    SplitAround(items, k);
    SpliceOut(items[..k], items[k], items[k + 1..]);
  }

  /** A line list is the lines before `k`, line `k`, and the lines after it. */
  lemma SplitAround(items: seq<CartItem>, k: nat)
    requires k < |items|
    ensures items == items[..k] + [items[k]] + items[k + 1..]
  {
  }

  /** Removing the id of `x`, when neither side carries it, leaves the two sides joined. */
  lemma SpliceOut(before: seq<CartItem>, x: CartItem, after: seq<CartItem>)
    requires WithoutItem(before, x.id) == before && WithoutItem(after, x.id) == after
    ensures WithoutItem(before + [x] + after, x.id) == before + after
  {
    assert WithoutItem([x], x.id) == [] by {
      assert [x][1..] == [];
    }
    WithoutItemAppend(before, [x], x.id);
    WithoutItemAppend(before + [x], after, x.id);
  }

  /** With distinct ids, removing a line's id removes exactly that line and keeps the others in order. */
  lemma RemovePresentId(items: seq<CartItem>, k: nat)
    requires DistinctIds(items) && k < |items|
    ensures WithoutItem(items, items[k].id) == items[..k] + items[k + 1..]
  {
    OthersCarryOtherIds(items, k);
    RemoveOnlyCarrier(items, k);
  }

  /** Removing a present line lowers the unit count by exactly that line's quantity. */
  lemma RemovePresentIdTotal(items: seq<CartItem>, k: nat)
    requires DistinctIds(items) && k < |items|
    ensures TotalQuantity(WithoutItem(items, items[k].id)) == TotalQuantity(items) - items[k].quantity
  {
    RemovePresentId(items, k);
    TotalQuantitySplit(items, k);
    TotalQuantityAppend(items[..k], items[k + 1..]);
  }

  /** The position of the first line with id `id` (`cart.items.find`). */
  function IndexOfId(items: seq<CartItem>, id: nat): (r: Option<nat>)
    ensures r.Some? ==> r.value < |items| && items[r.value].id == id && forall j :: 0 <= j < r.value ==> items[j].id != id
    ensures r.None? ==> forall x :: x in items ==> x.id != id
  {
    if items == [] then None
    else if items[0].id == id then Some(0)
    else
      match IndexOfId(items[1..], id)
      case None => None
      case Some(k) => Some(k + 1)
  }

  /** Where the scan for a matching line stops is the first match, or the end when there is none. */
  lemma ScanFindsMatch(items: seq<CartItem>, bicycleId: string, options: seq<Pick>, k: nat)
    requires k <= |items| && (k < |items| ==> SameConfiguration(items[k], bicycleId, options))
    requires forall j :: 0 <= j < k ==> !SameConfiguration(items[j], bicycleId, options)
    ensures k < |items| ==> MatchIndex(items, bicycleId, options) == Some(k)
    ensures k == |items| ==> MatchIndex(items, bicycleId, options) == None
  {
  }

  /** With the match at `k`, or none when `k` is past the end, the merge grows line `k` or appends a line. */
  lemma MergeOrAppend(items: seq<CartItem>, bicycleId: string, options: seq<Pick>, quantity: int, freshId: nat, k: nat)
    requires k <= |items|
    requires k < |items| ==> MatchIndex(items, bicycleId, options) == Some(k)
    requires k == |items| ==> MatchIndex(items, bicycleId, options) == None
    ensures k < |items| ==> AddOrMerge(items, bicycleId, options, quantity, freshId)
                            == items[k := items[k].(quantity := items[k].quantity + quantity)]
    ensures k == |items| ==> AddOrMerge(items, bicycleId, options, quantity, freshId)
                             == items + [CartItem(freshId, bicycleId, options, quantity)]
  {
  }

  /** The lines a store may hold: distinct ids below the counter, and positive quantities. */
  predicate LinesValid(items: seq<CartItem>, nextId: nat) {
    && DistinctIds(items)
    && (forall i :: 0 <= i < |items| ==> items[i].id < nextId)
    && forall i :: 0 <= i < |items| ==> items[i].quantity >= 1
  }

  /** Adding a positive quantity to one line keeps the lines valid. */
  lemma MergeLineKeepsValid(items: seq<CartItem>, k: nat, quantity: int, nextId: nat)
    requires LinesValid(items, nextId) && k < |items| && quantity >= 1
    ensures LinesValid(items[k := items[k].(quantity := items[k].quantity + quantity)], nextId)
  {
  }

  /** Appending a positive line with the counter's id keeps the lines valid once the counter advances. */
  lemma AppendLineKeepsValid(items: seq<CartItem>, line: CartItem, nextId: nat)
    requires LinesValid(items, nextId) && line.id == nextId && line.quantity >= 1
    ensures LinesValid(items + [line], nextId + 1)
  {
  }

  /**
   * The merge step of `addToCart`: scan for the first line with the same
   * configuration, grow it, or append a line carrying the counter's id.
   */
  method MergeInto(items: seq<CartItem>, nextId: nat, bicycleId: string, options: seq<Pick>, quantity: int)
    returns (lines: seq<CartItem>, next: nat)
    requires LinesValid(items, nextId) && quantity >= 1
    ensures lines == AddOrMerge(items, bicycleId, options, quantity, nextId)
    ensures LinesValid(lines, next)
  {
    var k := 0;
    while k < |items| && !SameConfiguration(items[k], bicycleId, options)
      invariant 0 <= k <= |items|
      invariant forall j :: 0 <= j < k ==> !SameConfiguration(items[j], bicycleId, options)
    {
      k := k + 1;
    }
    ScanFindsMatch(items, bicycleId, options, k);
    MergeOrAppend(items, bicycleId, options, quantity, nextId, k);
    if k < |items| {
      MergeLineKeepsValid(items, k, quantity, nextId);
      lines, next := items[k := items[k].(quantity := items[k].quantity + quantity)], nextId;
    } else {
      AppendLineKeepsValid(items, CartItem(nextId, bicycleId, options, quantity), nextId);
      lines, next := items + [CartItem(nextId, bicycleId, options, quantity)], nextId + 1;
    }
  }

  class Store {
    var hasCart: bool
    var items: seq<CartItem>
    var nextId: nat

    ghost predicate Valid()
      reads this
    {
      && (!hasCart ==> items == [])
      && LinesValid(items, nextId)
    }

    /** No cart exists yet. */
    constructor ()
      ensures Valid() && !hasCart && items == []
    {
      hasCart, items, nextId := false, [], 0;
    }

    /** `addToCart`: validate the request, then merge into a matching line or append a new one. */
    method AddToCart(bicycles: set<string>, bicycleId: string, options: OptionsField, quantity: int) returns (out: Outcome)
      requires Valid()
      modifies this
      ensures Valid()
      ensures (bicycleId == "" || !options.Array? || quantity < 1) ==>
                out == InvalidRequest && unchanged(this)
      ensures !(bicycleId == "" || !options.Array? || quantity < 1) && bicycleId !in bicycles ==>
                out == BicycleNotFound && unchanged(this)
      ensures !(bicycleId == "" || !options.Array? || quantity < 1) && bicycleId in bicycles ==>
                && out == Done && hasCart
                && items == AddOrMerge(old(items), bicycleId, options.picks, quantity, old(nextId))
    {
      if bicycleId == "" || !options.Array? || quantity < 1 {
        return InvalidRequest;
      }
      if bicycleId !in bicycles {
        return BicycleNotFound;
      }
      hasCart := true;
      items, nextId := MergeInto(items, nextId, bicycleId, options.picks, quantity);
      out := Done;
    }

    /** `removeCartItem`: keep the lines whose id differs. */
    method RemoveCartItem(id: nat) returns (out: Outcome)
      requires Valid()
      modifies this
      ensures Valid()
      ensures !old(hasCart) ==> out == CartNotFound && unchanged(this)
      ensures old(hasCart) ==> out == Done && hasCart && nextId == old(nextId) && items == WithoutItem(old(items), id)
    {
      if !hasCart {
        return CartNotFound;
      }
      WithoutItemDistinct(items, id);
      WithoutItemMembers(items, id);
      items := WithoutItem(items, id);
      out := Done;
    }

    /** `updateCartItem`: set the quantity of the line with that id. */
    method UpdateCartItem(id: nat, quantity: int) returns (out: Outcome)
      requires Valid()
      modifies this
      ensures Valid()
      ensures quantity < 1 ==> out == QuantityTooLow && unchanged(this)
      ensures quantity >= 1 && !old(hasCart) ==> out == CartNotFound && unchanged(this)
      ensures quantity >= 1 && old(hasCart) && IndexOfId(old(items), id).None? ==> out == ItemNotFound && unchanged(this)
      ensures quantity >= 1 && old(hasCart) && IndexOfId(old(items), id).Some? ==>
                && out == Done && hasCart && nextId == old(nextId)
                && var k := IndexOfId(old(items), id).value;
                   items == old(items)[k := old(items)[k].(quantity := quantity)]
    {
      if quantity < 1 {
        return QuantityTooLow;
      }
      if !hasCart {
        return CartNotFound;
      }
      var found := IndexOfId(items, id);
      if found.None? {
        return ItemNotFound;
      }
      var k := found.value;
      items := items[k := items[k].(quantity := quantity)];
      out := Done;
    }
  }
}
