/**
 * The cart page: the per-line quantity edits, the guard of the Save action,
 * the condition that disables the Save button, the order total and the cart
 * badge. Prices are whole amounts in the smallest currency unit.
 */
module CartView {
  import opened ShopTypes
  import opened QuantityText
  import CartStore

  /**
   * An entry of the edits map: the line's quantity as loaded (a number), or
   * the text last typed into its input.
   */
  datatype EditValue = Num(n: int) | Text(s: string)

  /** Typed text always passed the quantity input rule. */
  predicate WellFormedEdit(e: EditValue) {
    e.Text? ==> AcceptsQuantityInput(e.s)
  }

  predicate WellFormedEdits(edits: map<nat, EditValue>) {
    forall id :: id in edits ==> WellFormedEdit(edits[id])
  }

  /** The ids of a cart's lines. */
  function Ids(items: seq<CartItem>): (ids: set<nat>)
    ensures forall id :: id in ids <==> exists k :: 0 <= k < |items| && items[k].id == id
  {
    if items == [] then {} else Ids(items[..|items| - 1]) + {items[|items| - 1].id}
  }

  // ---------------------------------------------------------------------------
  // The edits map

  /** The edits map as loaded: every line's id mapped to its quantity, a later line overwriting an earlier one. */
  function InitialEdits(items: seq<CartItem>): map<nat, EditValue> {
    if items == [] then map[]
    else InitialEdits(items[..|items| - 1])[items[|items| - 1].id := Num(items[|items| - 1].quantity)]
  }

  /** The loop that fills `initialQuantities`. */
  method InitialQuantities(items: seq<CartItem>) returns (edits: map<nat, EditValue>)
    ensures edits == InitialEdits(items)
  {
    edits := map[];
    var k := 0;
    while k < |items|
      invariant 0 <= k <= |items|
      invariant edits == InitialEdits(items[..k])
    {
      assert items[..k + 1][..k] == items[..k];
      edits := edits[items[k].id := Num(items[k].quantity)];
      k := k + 1;
    }
    assert items[..|items|] == items;
  }

  /** The loaded map has exactly the line ids as keys, holds numbers only, and with distinct ids maps each line to its own quantity. */
  lemma InitialEditsSpec(items: seq<CartItem>)
    ensures InitialEdits(items).Keys == Ids(items)
    ensures WellFormedEdits(InitialEdits(items))
    ensures forall id :: id in InitialEdits(items) ==> InitialEdits(items)[id].Num?
    ensures DistinctIds(items) ==> forall k :: 0 <= k < |items| ==> InitialEdits(items)[items[k].id] == Num(items[k].quantity)
  {
    InitialEditsKeys(items);
    InitialEditsNumbers(items);
    if DistinctIds(items) {
      InitialEditsValues(items);
    }
  }

  /** The loaded map's keys are the line ids. */
  lemma {:induction false} InitialEditsKeys(items: seq<CartItem>)
    ensures InitialEdits(items).Keys == Ids(items)
  {
    if items != [] {
      InitialEditsKeys(items[..|items| - 1]);
    }
  }

  /** The loaded map holds numbers only. */
  lemma {:induction false} InitialEditsNumbers(items: seq<CartItem>)
    ensures forall id :: id in InitialEdits(items) ==> InitialEdits(items)[id].Num?
  {
    if items != [] {
      InitialEditsNumbers(items[..|items| - 1]);
    }
  }

  /** With distinct ids, each line's id maps to that line's quantity. */
  lemma {:induction false} InitialEditsValues(items: seq<CartItem>)
    requires DistinctIds(items)
    ensures forall k :: 0 <= k < |items| ==> items[k].id in InitialEdits(items) && InitialEdits(items)[items[k].id] == Num(items[k].quantity)
  {
    if items != [] {
      var init := items[..|items| - 1];
      DistinctIdsInit(items);
      InitialEditsValues(init);
      forall k | 0 <= k < |items| - 1 ensures init[k] == items[k] {
      }
    }
  }

  /** The lines before the last have distinct ids, none of them the last line's. */
  lemma DistinctIdsInit(items: seq<CartItem>)
    requires items != [] && DistinctIds(items)
    ensures DistinctIds(items[..|items| - 1])
    ensures forall k :: 0 <= k < |items| - 1 ==> items[k].id != items[|items| - 1].id
  {
  }

  /** `handleQuantityChange(itemId, value)`: store the text only when the input rule accepts it. */
  function EditQuantity(edits: map<nat, EditValue>, id: nat, value: string): (r: map<nat, EditValue>)
    ensures AcceptsQuantityInput(value) ==> id in r && r[id] == Text(value)
    ensures !AcceptsQuantityInput(value) ==> r == edits
    ensures forall other :: other != id ==> (other in r <==> other in edits) && (other in r ==> r[other] == edits[other])
    ensures WellFormedEdits(edits) ==> WellFormedEdits(r)
  {
    if value == "" || IsPositiveDecimal(value) then edits[id := Text(value)] else edits
  }

  // ---------------------------------------------------------------------------
  // Saving a quantity

  /**
   * The guard of `handleSaveQuantity` and the quantity it sends: nothing
   * when the edit is missing, empty, zero or below one; otherwise its value.
   */
  function SaveRequest(edit: Option<EditValue>): (r: Option<int>)
    requires edit.Some? ==> WellFormedEdit(edit.value)
    ensures r.Some? ==> r.value >= 1
    ensures r.None? <==> edit.None? || edit.value == Text("") || (edit.value.Num? && edit.value.n < 1)
    ensures edit.Some? && edit.value.Num? && r.Some? ==> r.value == edit.value.n
    ensures edit.Some? && edit.value.Text? && r.Some? ==> DecimalText(r.value) == edit.value.s
  {
    match edit
    case None => None
    case Some(Num(n)) => if n < 1 then None else Some(n)  // `!newQuantity` (0) is already below one
    case Some(Text(s)) =>
      if s == "" then None
      else
        TextOfValue(s);
        Some(DecimalValue(s))
  }

  /**
   * The Save button's `disabled` condition as written: a missing or empty
   * edit, or an edit strictly equal to the line's quantity. A typed text is
   * never strictly equal to a number. Whenever it disables Save, saving would
   * send nothing or the quantity the line already has.
   */
  function SaveDisabled(edit: Option<EditValue>, current: int): (disabled: bool)
    requires edit.Some? ==> WellFormedEdit(edit.value)
    ensures disabled ==> SaveRequest(edit).None? || SaveRequest(edit) == Some(current)
    ensures edit.None? || edit == Some(Text("")) || edit == Some(Num(0)) || edit == Some(Num(current)) ==> disabled
    ensures edit.Some? && edit.value.Text? && edit.value.s != "" ==> !disabled
  {
    match edit
    case None => true
    case Some(Num(n)) => n == 0 || n == current
    case Some(Text(s)) => s == ""
  }

  /** Retyping a line's own quantity leaves Save enabled, although saving would send that same quantity. */
  lemma RetypedQuantityEnablesSave()
    ensures !SaveDisabled(Some(Text("2")), 2)
    ensures SaveRequest(Some(Text("2"))) == Some(2)
  {
    assert DecimalValue("2") == DecimalValue("") * 10 + 2;
  }

  /** After a text edit is saved, the line holds the value it denotes, and Save stays enabled. */
  lemma SaveStaysEnabledAfterSaving(s: string)
    requires IsPositiveDecimal(s)
    ensures SaveRequest(Some(Text(s))).Some?
    ensures !SaveDisabled(Some(Text(s)), SaveRequest(Some(Text(s))).value)
  {
  }

  /**
   * The Save button's condition compared by the number an edit denotes:
   * Save is enabled exactly when saving would send a quantity that differs
   * from the line's.
   */
  function SaveDisabledByValue(edit: Option<EditValue>, current: int): (disabled: bool)
    requires edit.Some? ==> WellFormedEdit(edit.value)
    ensures !disabled <==> SaveRequest(edit).Some? && SaveRequest(edit).value != current
  {
    match edit
    case None => true
    case Some(Num(n)) => n < 1 || n == current
    case Some(Text(s)) =>
      if s == "" then true
      else
        PositiveDecimalAtLeastOne(s);
        DecimalValue(s) == current
  }

  // ---------------------------------------------------------------------------
  // The total and the badge

  /** A line as the page shows it: the cart line and the price of its bicycle, if the bicycle is still there. */
  datatype ViewLine = ViewLine(item: CartItem, price: Option<int>)

  /** `price * quantity` with a missing price counting as 0. */
  function LineAmount(l: ViewLine): int {
    (if l.price.Some? then l.price.value else 0) * l.item.quantity
  }

  /** `totalPrice`: the sum of the line amounts. */
  function TotalPrice(lines: seq<ViewLine>): int {
    if lines == [] then 0 else TotalPrice(lines[..|lines| - 1]) + LineAmount(lines[|lines| - 1])
  }

  function Items(lines: seq<ViewLine>): (items: seq<CartItem>)
    ensures |items| == |lines| && forall k :: 0 <= k < |lines| ==> items[k] == lines[k].item
  {
    if lines == [] then [] else Items(lines[..|lines| - 1]) + [lines[|lines| - 1].item]
  }

  lemma {:induction false} TotalPriceAppend(a: seq<ViewLine>, b: seq<ViewLine>)
    ensures TotalPrice(a + b) == TotalPrice(a) + TotalPrice(b)
    decreases |b|
  {
    if b == [] {
      assert a + b == a;
    } else {
      assert (a + b)[..|a + b| - 1] == a + b[..|b| - 1];
      TotalPriceAppend(a, b[..|b| - 1]);
    }
  }

  /** With non-negative prices and quantities the total is never negative. */
  lemma {:induction false} TotalPriceNonNegative(lines: seq<ViewLine>)
    requires forall l :: l in lines ==> l.item.quantity >= 0 && (l.price.Some? ==> l.price.value >= 0)
    ensures TotalPrice(lines) >= 0
  {
    if lines != [] {
      assert lines[|lines| - 1] in lines;
      TotalPriceNonNegative(lines[..|lines| - 1]);
    }
  }

  /** When every bicycle costs `price`, the total is `price` times the number of units. */
  lemma {:induction false} UniformPriceTotal(lines: seq<ViewLine>, price: int)
    requires forall k :: 0 <= k < |lines| ==> lines[k].price == Some(price)
    ensures TotalPrice(lines) == price * TotalQuantity(Items(lines))
  {
    if lines != [] {
      var init, last := lines[..|lines| - 1], lines[|lines| - 1];
      UniformPriceTotal(init, price);
      UnitsOfLastLine(lines);
      assert LineAmount(last) == price * last.item.quantity;
      Distribute(price, TotalQuantity(Items(init)), last.item.quantity, TotalPrice(init), LineAmount(last));
    }
  }

  lemma UnitsOfLastLine(lines: seq<ViewLine>)
    requires lines != []
    ensures TotalQuantity(Items(lines)) == TotalQuantity(Items(lines[..|lines| - 1])) + lines[|lines| - 1].item.quantity
  {
    assert Items(lines)[..|lines| - 1] == Items(lines[..|lines| - 1]);
  }

  lemma Distribute(p: int, a: int, b: int, x: int, y: int)
    requires x == p * a && y == p * b
    ensures x + y == p * (a + b)
  {
  }

  /** The badge after a remove or a save: the number of units in the returned cart. */
  function BadgeAfterChange(items: seq<CartItem>): (n: int)
    ensures (forall x :: x in items ==> x.quantity >= 1) ==> n >= |items|
  {
    QuantitiesBound(items);
    TotalQuantity(items)
  }

  lemma {:induction false} QuantitiesBound(items: seq<CartItem>)
    ensures (forall x :: x in items ==> x.quantity >= 1) ==> TotalQuantity(items) >= |items|
  {
    if items != [] {
      QuantitiesBound(items[..|items| - 1]);
      assert forall x :: x in items[..|items| - 1] ==> x in items;
      assert items[|items| - 1] in items;
    }
  }

  /** The badge set when the page loads, as written: the number of lines. */
  function InitialBadge(items: seq<CartItem>): nat {
    |items|
  }

  /**
   * One line of two units shows a badge of 1 on load. Retyping "2" leaves
   * Save enabled; saving sends 2, the line is set to 2, and the badge then
   * shows 2 for the same cart.
   */
  lemma InitialBadgeCountsLines()
    ensures var items := [CartItem(0, "b", [], 2)];
            var sent := SaveRequest(Some(Text("2")));
            && InitialBadge(items) == 1
            && !SaveDisabled(Some(Text("2")), 2)
            && sent == Some(2)
            && var saved := items[0 := items[0].(quantity := sent.value)];
               saved == items && BadgeAfterChange(saved) == 2
  {
    var items := [CartItem(0, "b", [], 2)];
    assert DecimalValue("2") == DecimalValue("") * 10 + 2;
    assert items[..0] == [];
  }

  /** Lines of at least one unit: the load badge agrees with the unit count exactly when every line holds one unit. */
  lemma {:induction false} InitialBadgeAgreesOnlyForSingleUnits(items: seq<CartItem>)
    requires forall x :: x in items ==> x.quantity >= 1
    ensures InitialBadge(items) == BadgeAfterChange(items) <==> forall x :: x in items ==> x.quantity == 1
  {
    if items != [] {
      var init := items[..|items| - 1];
      var last := items[|items| - 1];
      assert forall x :: x in init ==> x in items;
      assert last in items;
      InitialBadgeAgreesOnlyForSingleUnits(init);
      QuantitiesBound(init);
      assert forall x :: x in items ==> x in init || x == last;
    }
  }

  /**
   * The load badge as intended is `BadgeAfterChange` of the loaded lines, the
   * unit count every later update shows. Counted that way, removing a line
   * lowers the badge by exactly that line's quantity.
   */
  lemma LoadBadgeConsistentWithRemove(items: seq<CartItem>, k: nat)
    requires DistinctIds(items) && k < |items|
    ensures BadgeAfterChange(CartStore.WithoutItem(items, items[k].id)) == BadgeAfterChange(items) - items[k].quantity
  {
    CartStore.RemovePresentIdTotal(items, k);
  }

  /**
   * Counted by lines, the load badge of a cart holding a two-unit line and a
   * one-unit line is 2; removing the two-unit line then shows 1, not 2 - 2.
   */
  lemma LoadBadgeInconsistentWithRemove()
    ensures var items := [CartItem(0, "b", [], 2), CartItem(1, "b", [], 1)];
            BadgeAfterChange(CartStore.WithoutItem(items, 0)) != InitialBadge(items) - items[0].quantity
  {
    var items := [CartItem(0, "b", [], 2), CartItem(1, "b", [], 1)];
    assert CartStore.WithoutItem(items, 0) == [items[1]] by {
      assert items[1..][1..] == [];
    }
    assert [items[1]][..0] == [];
  }
}
