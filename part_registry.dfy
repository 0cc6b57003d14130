/**
 * The part-option controller: the registry of part options keyed by id,
 * with adding (and its defaults), removing, flipping the stock flag and
 * replacing the restrictions. Ids are drawn from a counter, standing for the
 * ids the database assigns.
 */
module PartRegistry {
  import opened ShopTypes

  /** `in_stock` becomes `out_of_stock` and the other way round. */
  function Toggle(s: Stock): (t: Stock)
    ensures t != s
  {
    if s == InStock then OutOfStock else InStock
  }

  /** The stock field of a request: empty (absent or falsy) means `in_stock`; any text outside the enum fails validation. */
  function StockFromText(text: string): (r: Option<Stock>)
    ensures r == None <==> text != "" && text != "in_stock" && text != "out_of_stock"
    ensures r == Some(OutOfStock) <==> text == "out_of_stock"
  {
    if text == "" || text == "in_stock" then Some(InStock)
    else if text == "out_of_stock" then Some(OutOfStock)
    else None
  }

  /** The registry with the stock of `id` flipped, when `id` is present. */
  function ToggledAt(options: map<nat, PartOption>, id: nat): (r: map<nat, PartOption>)
    ensures r.Keys == options.Keys
    ensures forall k :: k in r && k != id ==> r[k] == options[k]
    ensures id in options ==> r[id].stock != options[id].stock
                              && r[id] == options[id].(stock := r[id].stock)
  {
    if id in options then options[id := options[id].(stock := Toggle(options[id].stock))] else options
  }

  /** Flipping the same option twice restores the registry. */
  lemma ToggleTwiceRestores(options: map<nat, PartOption>, id: nat)
    ensures ToggledAt(ToggledAt(options, id), id) == options
  {
    if id in options {
      var once := ToggledAt(options, id);
      assert Toggle(Toggle(options[id].stock)) == options[id].stock;
      assert ToggledAt(once, id)[id] == options[id];
    }
  }

  datatype AddResult = Created(id: nat) | ValidationFailed

  class Registry {
    var options: map<nat, PartOption>
    var nextId: nat

    ghost predicate Valid()
      reads this
    {
      forall id :: id in options ==> id < nextId
    }

    constructor ()
      ensures Valid() && options == map[]
    {
      options, nextId := map[], 0;
    }

    /**
     * `addOption`: a missing or empty category or value, or a stock outside
     * the enum, fails validation; otherwise a fresh id gets the option, with
     * stock `in_stock` and no restrictions unless given.
     */
    method AddOption(category: string, value: string, stock: string, restrictions: Option<Restrictions>) returns (r: AddResult)
      requires Valid()
      modifies this
      ensures Valid()
      ensures (category == "" || value == "" || StockFromText(stock).None?) ==> r == ValidationFailed && unchanged(this)
      ensures !(category == "" || value == "" || StockFromText(stock).None?) ==>
                && r == Created(old(nextId))
                && old(nextId) !in old(options)
                && options == old(options)[old(nextId) := PartOption(category, value, StockFromText(stock).value,
                                                                        if restrictions.Some? then restrictions.value else [])]
    {
      var s := StockFromText(stock);
      if category == "" || value == "" || s.None? {
        return ValidationFailed;
      }
      var rules: Restrictions := if restrictions.Some? then restrictions.value else [];
      r := Created(nextId);
      options := options[nextId := PartOption(category, value, s.value, rules)];
      nextId := nextId + 1;
    }

    /** `removeOption`: delete exactly `id`; report whether it existed ("Part option not found" otherwise). */
    method RemoveOption(id: nat) returns (found: bool)
      requires Valid()
      modifies this
      ensures Valid()
      ensures found == (id in old(options))
      ensures options == old(options) - {id} && nextId == old(nextId)
    {
      found := id in options;
      if !found {
        return;
      }
      options := options - {id};
    }

    /** `toggleStock`: flip the stock of `id`; a missing id changes nothing. */
    method ToggleStock(id: nat) returns (found: bool)
      requires Valid()
      modifies this
      ensures Valid()
      ensures found == (id in old(options))
      ensures options == ToggledAt(old(options), id) && nextId == old(nextId)
    {
      found := id in options;
      if !found {
        return;
      }
      var option := options[id];
      options := options[id := option.(stock := if option.stock == InStock then OutOfStock else InStock)];
    }

    /** `updateRestrictions`: replace the restrictions of `id`, keeping its category, value and stock; a missing id changes nothing. */
    method UpdateRestrictions(id: nat, restrictions: Option<Restrictions>) returns (found: bool)
      requires Valid()
      modifies this
      ensures Valid()
      ensures found == (id in old(options))
      ensures !found ==> unchanged(this)
      ensures found ==> && options.Keys == old(options).Keys && nextId == old(nextId)
                        && (forall k :: k in options && k != id ==> options[k] == old(options)[k])
                        && options[id].category == old(options)[id].category
                        && options[id].value == old(options)[id].value
                        && options[id].stock == old(options)[id].stock
                        && options[id].restrictions == if restrictions.Some? then restrictions.value else []
    {
      found := id in options;
      if !found {
        return;
      }
      var rules: Restrictions := if restrictions.Some? then restrictions.value else [];
      options := options[id := options[id].(restrictions := rules)];
    }
  }
}
