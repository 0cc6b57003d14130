/**
 * The records shared by the storefront's server and client: part options with
 * their restriction entries, the (category, value) selections a buyer makes,
 * the raw `options` field of a request, and cart lines.
 */
module ShopTypes {

  datatype Option<T> = None | Some(value: T)

  /** The `stock` enum of a part option. */
  datatype Stock = InStock | OutOfStock

  /**
   * One entry of a `restrictions` object: choosing the option that carries it
   * forbids every value in `forbidden` for the category `category`.
   */
  datatype Rule = Rule(category: string, forbidden: seq<string>)

  /** The keys of a restrictions object are distinct. */
  predicate DistinctRuleCategories(rules: seq<Rule>) {
    forall i, j :: 0 <= i < j < |rules| ==> rules[i].category != rules[j].category
  }

  /**
   * A restrictions object, as its entries in insertion order (the order in
   * which the source enumerates them). An absent object is the empty list.
   */
  type Restrictions = rules: seq<Rule> | DistinctRuleCategories(rules) witness []

  /** The values `rules` forbids in `category`; none when no entry names it. */
  function Forbidden(rules: seq<Rule>, category: string): (vs: seq<string>)
    ensures (forall r :: r in rules ==> r.category != category) ==> vs == []
    ensures vs != [] ==> exists r :: r in rules && r.category == category && r.forbidden == vs
    ensures forall k ::
              (0 <= k < |rules| && rules[k].category == category && forall j :: 0 <= j < k ==> rules[j].category != category)
              ==> vs == rules[k].forbidden
  {
    if rules == [] then []
    else if rules[0].category == category then rules[0].forbidden
    else
      var vs := Forbidden(rules[1..], category);
      assert forall k :: 1 <= k < |rules| ==> rules[k] == rules[1..][k - 1];
      vs
  }

  /** In a restrictions object the list for a named category is that entry's list. */
  lemma ForbiddenIsEntry(rules: seq<Rule>, k: nat)
    requires DistinctRuleCategories(rules) && k < |rules|
    ensures Forbidden(rules, rules[k].category) == rules[k].forbidden
  {
  }

  /** A part option of the registry. */
  datatype PartOption = PartOption(category: string, value: string, stock: Stock, restrictions: Restrictions)

  /** One `{category, value}` selection, as sent in a request or kept in a cart line. */
  datatype Pick = Pick(category: string, value: string)

  /**
   * The `options` field of a request body: `Absent` is a missing or falsy
   * value, `NotAnArray` a truthy value that is not an array.
   */
  datatype OptionsField = Absent | NotAnArray | Array(picks: seq<Pick>)

  /** A cart line: a bicycle, its configured options in order, and a quantity. */
  datatype CartItem = CartItem(id: nat, bicycle: string, options: seq<Pick>, quantity: int)

  /** The number of units in a cart: the sum of its line quantities. */
  function TotalQuantity(items: seq<CartItem>): int {
    if items == [] then 0 else TotalQuantity(items[..|items| - 1]) + items[|items| - 1].quantity
  }

  /** The line ids of a cart are pairwise distinct. */
  predicate DistinctIds(items: seq<CartItem>) {
    forall i, j :: 0 <= i < j < |items| ==> items[i].id != items[j].id
  }

  lemma {:induction false} TotalQuantityAppend(a: seq<CartItem>, b: seq<CartItem>)
    ensures TotalQuantity(a + b) == TotalQuantity(a) + TotalQuantity(b)
    decreases |b|
  {
    if b == [] {
      assert a + b == a;
    } else {
      var b' := b[..|b| - 1];
      assert (a + b)[..|a + b| - 1] == a + b';
      TotalQuantityAppend(a, b');
    }
  }

  /** The unit count splits around any line. */
  lemma TotalQuantitySplit(items: seq<CartItem>, k: nat)
    requires k < |items|
    ensures TotalQuantity(items) == TotalQuantity(items[..k]) + items[k].quantity + TotalQuantity(items[k + 1..])
  {
    var before, line, after := items[..k], [items[k]], items[k + 1..];
    assert items == before + line + after;
    TotalQuantityAppend(before + line, after);
    TotalQuantityAppend(before, line);
    assert TotalQuantity(line) == items[k].quantity by { assert line[..0] == []; }
  }

  /** Replacing one line changes the unit count by the difference of the two quantities. */
  lemma TotalQuantityReplace(items: seq<CartItem>, k: nat, x: CartItem)
    requires k < |items|
    ensures TotalQuantity(items[k := x]) == TotalQuantity(items) - items[k].quantity + x.quantity
  {
    var r := items[k := x];
    TotalQuantitySplit(items, k);
    TotalQuantitySplit(r, k);
    assert r[..k] == items[..k] && r[k + 1..] == items[k + 1..];
  }
}
