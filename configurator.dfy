/**
 * The bicycle page's configuration logic: the customization (category to
 * chosen value, in insertion order), the selection rule that clears the
 * categories a newly chosen option forbids, the filter that decides which
 * values a category offers, the completeness gate of the Add-to-Cart button,
 * the quantity input rule, and the match-and-merge against the current cart.
 * Restrictions are applied only in the direction they are declared: the
 * option that carries an entry forbids values elsewhere.
 */
module Configurator {
  import opened ShopTypes
  import opened QuantityText
  import CartStore

  /** One value of a category as the page receives it. */
  datatype OfferedValue = OfferedValue(value: string, stock: Stock, restrictions: Restrictions)

  /** A category of the bicycle with its values, in order. */
  datatype CategoryOptions = CategoryOptions(category: string, values: seq<OfferedValue>)

  datatype Bicycle = Bicycle(id: string, options: seq<CategoryOptions>)

  /** A message shown when choosing `chosen` clears the value `cleared` of `category`. */
  datatype Notice = RestrictionNotice(chosen: string, category: string, cleared: string)

  /** A customization together with the notices produced while computing it. */
  datatype Update = Update(customization: seq<Pick>, notices: seq<Notice>)

  /** One entry of a rendered selector. */
  datatype Choice = Choice(value: string, caption: string, disabled: bool)

  // ---------------------------------------------------------------------------
  // The customization object

  /** The categories of a customization, in order. */
  function Categories(cust: seq<Pick>): (cs: seq<string>)
    ensures |cs| == |cust| && forall i :: 0 <= i < |cust| ==> cs[i] == cust[i].category
  {
    if cust == [] then [] else [cust[0].category] + Categories(cust[1..])
  }

  predicate Distinct(xs: seq<string>) {
    forall i, j :: 0 <= i < j < |xs| ==> xs[i] != xs[j]
  }

  /** `customization[category]`. */
  function Lookup(cust: seq<Pick>, category: string): (r: Option<string>)
    ensures r.None? <==> category !in Categories(cust)
    ensures r.Some? ==> Pick(category, r.value) in cust
  {
    if cust == [] then None
    else if cust[0].category == category then Some(cust[0].value)
    else Lookup(cust[1..], category)
  }

  /** `{...cust, [category]: value}`: overwrite the entry in place, or append a new one. */
  function Assign(cust: seq<Pick>, category: string, value: string): (r: seq<Pick>)
    ensures forall c :: Lookup(r, c) == if c == category then Some(value) else Lookup(cust, c)
    ensures forall p :: p in r ==> p in cust || p == Pick(category, value)
    ensures category in Categories(cust) ==> Categories(r) == Categories(cust)
    ensures category !in Categories(cust) ==> r == cust + [Pick(category, value)]
  {
    if cust == [] then [Pick(category, value)]
    else if cust[0].category == category then [Pick(category, value)] + cust[1..]
    else [cust[0]] + Assign(cust[1..], category, value)
  }

  /** Assigning a category keeps the customization's keys distinct. */
  lemma {:induction false} AssignKeepsDistinct(cust: seq<Pick>, category: string, value: string)
    requires Distinct(Categories(cust))
    ensures Distinct(Categories(Assign(cust, category, value)))
  {
    if category !in Categories(cust) {
      var r := Assign(cust, category, value);
      assert Categories(r) == Categories(cust) + [category] by {
        assert forall i :: 0 <= i < |r| ==> Categories(r)[i] == r[i].category;
      }
    }
  }

  // ---------------------------------------------------------------------------
  // Looking up an option of the bicycle

  /** `bicycle.options.find(opt => opt.category === category)`. */
  function FindGroup(groups: seq<CategoryOptions>, category: string): (r: Option<CategoryOptions>)
    ensures r.Some? ==> r.value in groups && r.value.category == category
    ensures r.None? ==> forall g :: g in groups ==> g.category != category
  {
    if groups == [] then None
    else if groups[0].category == category then Some(groups[0])
    else FindGroup(groups[1..], category)
  }

  /** `values.find(val => val.value === value)`. */
  function FindValue(values: seq<OfferedValue>, value: string): (r: Option<OfferedValue>)
    ensures r.Some? ==> r.value in values && r.value.value == value
    ensures r.None? ==> forall o :: o in values ==> o.value != value
  {
    if values == [] then None
    else if values[0].value == value then Some(values[0])
    else FindValue(values[1..], value)
  }

  /** The option record the page consults for a (category, value) choice. */
  function FindOffered(bike: Bicycle, category: string, value: string): (r: Option<OfferedValue>)
    ensures r.Some? ==> r.value.value == value
    ensures r.Some? ==> exists g :: g in bike.options && g.category == category && r.value in g.values
    ensures r.None? <==>
              (FindGroup(bike.options, category).None? ||
               forall o :: o in FindGroup(bike.options, category).value.values ==> o.value != value)
  {
    match FindGroup(bike.options, category)
    case None => None
    case Some(g) => FindValue(g.values, value)
  }

  // ---------------------------------------------------------------------------
  // Choosing a value: `handleRestrictions`

  /** Category `c` holds a value that `rules` forbids. */
  predicate Clears(cust: seq<Pick>, rules: seq<Rule>, c: string) {
    Lookup(cust, c).Some? && Lookup(cust, c).value in Forbidden(rules, c)
  }

  /** The restriction entries applied in order: each clears its category when that category's current value is forbidden. */
  function ClearForbidden(cust: seq<Pick>, chosen: string, rules: seq<Rule>): (u: Update)
    ensures Categories(u.customization) == Categories(cust)
    decreases |rules|
  {
    if rules == [] then Update(cust, [])
    else
      var c := rules[0].category;
      var current := Lookup(cust, c);
      if current.Some? && current.value in rules[0].forbidden then
        var rest := ClearForbidden(Assign(cust, c, ""), chosen, rules[1..]);
        Update(rest.customization, [RestrictionNotice(chosen, c, current.value)] + rest.notices)
      else
        ClearForbidden(cust, chosen, rules[1..])
  }

  /** The customization after choosing `value` for `category`, with the notices it produces. */
  function Select(bike: Bicycle, cust: seq<Pick>, category: string, value: string): Update {
    var chosen := Assign(cust, category, value);
    match FindOffered(bike, category, value)
    case None => Update(chosen, [])
    case Some(o) => ClearForbidden(chosen, value, o.restrictions)
  }

  /** The state updater passed to `setCustomization` in `handleRestrictions`. */
  method HandleRestrictions(bike: Bicycle, prev: seq<Pick>, category: string, selectedValue: string)
    returns (next: seq<Pick>, notices: seq<Notice>)
    ensures Update(next, notices) == Select(bike, prev, category, selectedValue)
  {
    next := Assign(prev, category, selectedValue);
    notices := [];
    var selected := FindOffered(bike, category, selectedValue);
    if selected.None? {
      return;
    }
    var rules := selected.value.restrictions;
    var k := 0;
    assert rules[0..] == rules;
    while k < |rules|
      invariant 0 <= k <= |rules|
      invariant Pending(next, notices, selectedValue, rules, k, Select(bike, prev, category, selectedValue))
    {
      PendingStep(next, notices, selectedValue, rules, k, Select(bike, prev, category, selectedValue));
      var restricted := rules[k].category;
      var current := Lookup(next, restricted);
      if current.Some? && current.value in rules[k].forbidden {
        notices := notices + [RestrictionNotice(selectedValue, restricted, current.value)];
        next := Assign(next, restricted, "");
      }
      k := k + 1;
    }
    assert rules[k..] == [];
  }

  /** Applying entries `k..` to `next`, after the notices so far, still yields `target`. */
  ghost predicate Pending(next: seq<Pick>, notices: seq<Notice>, chosen: string, rules: seq<Rule>, k: nat, target: Update)
    requires k <= |rules|
  {
    var rest := ClearForbidden(next, chosen, rules[k..]);
    Update(rest.customization, notices + rest.notices) == target
  }

  /** One pass of the loop in `handleRestrictions` keeps the pending result. */
  lemma PendingStep(next: seq<Pick>, notices: seq<Notice>, chosen: string, rules: seq<Rule>, k: nat, target: Update)
    requires k < |rules| && Pending(next, notices, chosen, rules, k, target)
    ensures var c := rules[k].category;
            var current := Lookup(next, c);
            if current.Some? && current.value in rules[k].forbidden
            then Pending(Assign(next, c, ""), notices + [RestrictionNotice(chosen, c, current.value)], chosen, rules, k + 1, target)
            else Pending(next, notices, chosen, rules, k + 1, target)
  {
    assert rules[k..][1..] == rules[k + 1..];
    var c := rules[k].category;
    var current := Lookup(next, c);
    if current.Some? && current.value in rules[k].forbidden {
      var n := RestrictionNotice(chosen, c, current.value);
      var rest := ClearForbidden(Assign(next, c, ""), chosen, rules[k + 1..]);
      assert notices + ([n] + rest.notices) == (notices + [n]) + rest.notices;
    }
  }

  /** After the first entry is applied, the remaining entries clear exactly the other categories the whole list clears. */
  lemma ClearsAfterFirst(cust: seq<Pick>, rules: seq<Rule>, c: string)
    requires rules != [] && DistinctRuleCategories(rules)
    ensures var c0 := rules[0].category;
            var cust1 := if Clears(cust, rules, c0) then Assign(cust, c0, "") else cust;
            Clears(cust1, rules[1..], c) == (c != c0 && Clears(cust, rules, c))
  {
    var c0 := rules[0].category;
    assert forall r :: r in rules[1..] ==> r.category != c0;
  }

  /** A category ends up `""` exactly when its value was forbidden; every other category keeps its value. */
  lemma {:induction false} ClearForbiddenLookup(cust: seq<Pick>, chosen: string, rules: seq<Rule>, c: string)
    requires DistinctRuleCategories(rules)
    ensures Lookup(ClearForbidden(cust, chosen, rules).customization, c)
            == if Clears(cust, rules, c) then Some("") else Lookup(cust, c)
    decreases |rules|
  {
    if rules != [] {
      var c0 := rules[0].category;
      var cust1 := if Clears(cust, rules, c0) then Assign(cust, c0, "") else cust;
      ClearsAfterFirst(cust, rules, c);
      RestDistinct(rules);
      ClearForbiddenLookup(cust1, chosen, rules[1..], c);
    }
  }

  /** Every notice quotes the chosen value, a cleared category and the value that category held. */
  lemma {:induction false} ClearForbiddenNoticeContent(cust: seq<Pick>, chosen: string, rules: seq<Rule>, n: Notice)
    requires DistinctRuleCategories(rules)
    requires n in ClearForbidden(cust, chosen, rules).notices
    ensures n.chosen == chosen && Clears(cust, rules, n.category) && Lookup(cust, n.category) == Some(n.cleared)
    decreases |rules|
  {
    var c0 := rules[0].category;
    var cust1 := if Clears(cust, rules, c0) then Assign(cust, c0, "") else cust;
    var u1 := ClearForbidden(cust1, chosen, rules[1..]);
    if n in u1.notices {
      RestDistinct(rules);
      ClearForbiddenNoticeContent(cust1, chosen, rules[1..], n);
      ClearsAfterFirst(cust, rules, n.category);
    }
  }

  /** Every cleared category gets a notice. */
  lemma {:induction false} ClearForbiddenNoticeFor(cust: seq<Pick>, chosen: string, rules: seq<Rule>, c: string)
    requires DistinctRuleCategories(rules)
    requires Clears(cust, rules, c)
    ensures RestrictionNotice(chosen, c, Lookup(cust, c).value) in ClearForbidden(cust, chosen, rules).notices
    decreases |rules|
  {
    var c0 := rules[0].category;
    if c != c0 {
      var cust1 := if Clears(cust, rules, c0) then Assign(cust, c0, "") else cust;
      ClearsAfterFirst(cust, rules, c);
      RestDistinct(rules);
      assert Lookup(cust1, c) == Lookup(cust, c);
      ClearForbiddenNoticeFor(cust1, chosen, rules[1..], c);
      LaterNoticesKept(cust, chosen, rules, RestrictionNotice(chosen, c, Lookup(cust, c).value));
    }
  }

  /** The entries after the first have distinct categories too. */
  lemma RestDistinct(rules: seq<Rule>)
    requires rules != [] && DistinctRuleCategories(rules)
    ensures DistinctRuleCategories(rules[1..])
  {
    forall i, j | 0 <= i < j < |rules| - 1
      ensures rules[1..][i].category != rules[1..][j].category
    {
      assert rules[1..][i] == rules[i + 1] && rules[1..][j] == rules[j + 1];
    }
  }

  /** The notices of the remaining entries are among the notices of the whole list. */
  lemma LaterNoticesKept(cust: seq<Pick>, chosen: string, rules: seq<Rule>, n: Notice)
    requires rules != []
    requires var c0 := rules[0].category;
             var cust1 := if Clears(cust, rules, c0) then Assign(cust, c0, "") else cust;
             n in ClearForbidden(cust1, chosen, rules[1..]).notices
    ensures n in ClearForbidden(cust, chosen, rules).notices
  {
  }

  /** No two notices name the same category. */
  predicate DistinctNoticeCategories(ns: seq<Notice>) {
    forall i, j :: 0 <= i < j < |ns| ==> ns[i].category != ns[j].category
  }

  /** No category gets two notices. */
  lemma {:induction false} ClearForbiddenNoticesDistinct(cust: seq<Pick>, chosen: string, rules: seq<Rule>)
    requires DistinctRuleCategories(rules)
    ensures DistinctNoticeCategories(ClearForbidden(cust, chosen, rules).notices)
    decreases |rules|
  {
    if rules != [] {
      var c0 := rules[0].category;
      var cust1 := if Clears(cust, rules, c0) then Assign(cust, c0, "") else cust;
      var ns := ClearForbidden(cust, chosen, rules).notices;
      var ns1 := ClearForbidden(cust1, chosen, rules[1..]).notices;
      RestDistinct(rules);
      ClearForbiddenNoticesDistinct(cust1, chosen, rules[1..]);
      if Clears(cust, rules, c0) {
        assert ns == [RestrictionNotice(chosen, c0, Lookup(cust, c0).value)] + ns1;
        forall j | 0 <= j < |ns1| ensures ns1[j].category != c0 {
          LaterNoticesSkipFirst(cust, chosen, rules, ns1[j]);
        }
        NoticeBeforeDistinct(RestrictionNotice(chosen, c0, Lookup(cust, c0).value), ns1);
      }
    }
  }

  /** A notice for a category the later notices do not mention keeps the categories distinct. */
  lemma NoticeBeforeDistinct(n: Notice, ns: seq<Notice>)
    requires DistinctNoticeCategories(ns)
    requires forall j :: 0 <= j < |ns| ==> ns[j].category != n.category
    ensures DistinctNoticeCategories([n] + ns)
  {
    var all := [n] + ns;
    forall i, j | 0 <= i < j < |all| ensures all[i].category != all[j].category {
      assert all[j] == ns[j - 1];
      if i > 0 {
        assert all[i] == ns[i - 1];
      }
    }
  }

  /** Once the first entry has cleared its category, the remaining entries give no notice for it. */
  lemma LaterNoticesSkipFirst(cust: seq<Pick>, chosen: string, rules: seq<Rule>, n: Notice)
    requires rules != [] && DistinctRuleCategories(rules)
    requires Clears(cust, rules, rules[0].category)
    requires n in ClearForbidden(Assign(cust, rules[0].category, ""), chosen, rules[1..]).notices
    ensures n.category != rules[0].category
  {
    var cust1 := Assign(cust, rules[0].category, "");
    RestDistinct(rules);
    ClearForbiddenNoticeContent(cust1, chosen, rules[1..], n);
    ClearsAfterFirst(cust, rules, n.category);
  }

  /** Choosing a value whose option has no restriction entries changes no other category and produces no notice. */
  lemma ChoiceWithoutRestrictions(bike: Bicycle, cust: seq<Pick>, category: string, value: string)
    requires FindOffered(bike, category, value).None? || FindOffered(bike, category, value).value.restrictions == []
    ensures Select(bike, cust, category, value).notices == []
    ensures forall c :: Lookup(Select(bike, cust, category, value).customization, c)
                        == if c == category then Some(value) else Lookup(cust, c)
  {
  }

  /** Choosing keeps every chosen category, adds `category` if new, and keeps the keys distinct. */
  lemma SelectShape(bike: Bicycle, cust: seq<Pick>, category: string, value: string)
    requires Distinct(Categories(cust))
    ensures var r := Select(bike, cust, category, value).customization;
            && Distinct(Categories(r))
            && forall c :: c in Categories(r) <==> c in Categories(cust) || c == category
  {
    AssignKeepsDistinct(cust, category, value);
    var a := Assign(cust, category, value);
    forall c ensures c in Categories(a) <==> c in Categories(cust) || c == category {
      assert (Lookup(a, c).None? <==> c !in Categories(a));
    }
  }

  /** What choosing a value does to any one category `c`, in terms of the chosen option's entries. */
  lemma SelectSpec(bike: Bicycle, cust: seq<Pick>, category: string, value: string, o: OfferedValue, c: string)
    requires FindOffered(bike, category, value) == Some(o)
    ensures var chosen := Assign(cust, category, value);
            Lookup(Select(bike, cust, category, value).customization, c)
            == if Clears(chosen, o.restrictions, c) then Some("")
               else if c == category then Some(value)
               else Lookup(cust, c)
  {
    ClearForbiddenLookup(Assign(cust, category, value), value, o.restrictions, c);
  }

  // ---------------------------------------------------------------------------
  // Offering values: the filter of `renderOptions`

  /** The selected option `p` lists `value` under `restrictions[category]`. */
  predicate ForbidsVia(bike: Bicycle, p: Pick, category: string, value: string) {
    match FindOffered(bike, p.category, p.value)
    case None => false
    case Some(o) => value in Forbidden(o.restrictions, category)
  }

  /** Some currently selected option forbids `value` in `category`. */
  predicate Blocked(bike: Bicycle, cust: seq<Pick>, category: string, value: string) {
    exists i :: 0 <= i < |cust| && ForbidsVia(bike, cust[i], category, value)
  }

  /** The entry a selector shows for a value: out-of-stock values are labelled and disabled. */
  function ChoiceFor(o: OfferedValue): Choice {
    if o.stock == OutOfStock then Choice(o.value, o.value + " (Out of Stock)", true)
    else Choice(o.value, o.value, false)
  }

  /** The choices a category offers: its values in order, less those a selected option forbids. */
  function Offered(bike: Bicycle, cust: seq<Pick>, category: string, values: seq<OfferedValue>): (r: seq<Choice>)
    ensures |r| <= |values|
  {
    if values == [] then []
    else
      var head := if Blocked(bike, cust, category, values[0].value) then [] else [ChoiceFor(values[0])];
      head + Offered(bike, cust, category, values[1..])
  }

  /** Every offered choice is the entry of a value of the category that no selected option forbids. */
  lemma {:induction false} OfferedFrom(bike: Bicycle, cust: seq<Pick>, category: string, values: seq<OfferedValue>, ch: Choice)
    requires ch in Offered(bike, cust, category, values)
    ensures exists o :: o in values && ch == ChoiceFor(o) && !Blocked(bike, cust, category, o.value)
  {
    if ch != ChoiceFor(values[0]) || Blocked(bike, cust, category, values[0].value) {
      OfferedFrom(bike, cust, category, values[1..], ch);
      var o :| o in values[1..] && ch == ChoiceFor(o) && !Blocked(bike, cust, category, o.value);
      assert o in values;
    }
  }

  /**
   * Every offered choice shows a value of the category that nothing forbids,
   * and is disabled and captioned "(Out of Stock)" exactly when that value is
   * out of stock.
   */
  lemma OfferedChoicesLabelled(bike: Bicycle, cust: seq<Pick>, category: string, values: seq<OfferedValue>, ch: Choice)
    requires ch in Offered(bike, cust, category, values)
    ensures exists o :: o in values && !Blocked(bike, cust, category, o.value) && ch.value == o.value &&
                        (ch.disabled <==> o.stock == OutOfStock) &&
                        ch.caption == if o.stock == OutOfStock then o.value + " (Out of Stock)" else o.value
  {
    OfferedFrom(bike, cust, category, values, ch);
  }

  /** A value is offered exactly when no selected option forbids it. */
  lemma OfferedIff(bike: Bicycle, cust: seq<Pick>, category: string, values: seq<OfferedValue>, o: OfferedValue)
    requires o in values
    ensures ChoiceFor(o) in Offered(bike, cust, category, values) <==> !Blocked(bike, cust, category, o.value)
  {
    if !Blocked(bike, cust, category, o.value) {
      OfferedIfUnblocked(bike, cust, category, values, o);
    }
    if ChoiceFor(o) in Offered(bike, cust, category, values) {
      OfferedFrom(bike, cust, category, values, ChoiceFor(o));
      var o' :| o' in values && ChoiceFor(o) == ChoiceFor(o') && !Blocked(bike, cust, category, o'.value);
      assert o'.value == o.value;
    }
  }

  lemma {:induction false} OfferedIfUnblocked(bike: Bicycle, cust: seq<Pick>, category: string, values: seq<OfferedValue>, o: OfferedValue)
    requires o in values && !Blocked(bike, cust, category, o.value)
    ensures ChoiceFor(o) in Offered(bike, cust, category, values)
  {
    if values[0] != o {
      OfferedIfUnblocked(bike, cust, category, values[1..], o);
    }
  }

  /** The values of a category (`values.map(opt => opt.value)`). */
  function ValuesOf(values: seq<OfferedValue>): (vs: seq<string>)
    ensures |vs| == |values| && forall i :: 0 <= i < |values| ==> vs[i] == values[i].value
  {
    if values == [] then [] else [values[0].value] + ValuesOf(values[1..])
  }

  /** `vs.filter(v => !forbidden.includes(v))`. */
  function Without(vs: seq<string>, forbidden: seq<string>): (r: seq<string>)
    ensures forall v :: v in r <==> v in vs && v !in forbidden
  {
    if vs == [] then []
    else (if vs[0] in forbidden then [] else [vs[0]]) + Without(vs[1..], forbidden)
  }

  /** `values.filter(o => valid.includes(o.value)).map(...)`. */
  function Keep(values: seq<OfferedValue>, valid: seq<string>): seq<Choice> {
    if values == [] then []
    else (if values[0].value in valid then [ChoiceFor(values[0])] else []) + Keep(values[1..], valid)
  }

  /** Keeping the values listed in `valid` is the filter when `valid` lists exactly the values nothing forbids. */
  lemma {:induction false} KeepIsOffered(bike: Bicycle, cust: seq<Pick>, category: string, values: seq<OfferedValue>, valid: seq<string>)
    requires forall o :: o in values ==> (o.value in valid <==> !Blocked(bike, cust, category, o.value))
    ensures Keep(values, valid) == Offered(bike, cust, category, values)
  {
    if values != [] {
      KeepIsOffered(bike, cust, category, values[1..], valid);
    }
  }

  /**
   * `renderOptions(category, values)`: nothing for an empty category;
   * otherwise start from all the category's values, drop those each selected
   * option forbids, and build the selector entries.
   */
  method RenderOptions(bike: Bicycle, cust: seq<Pick>, category: string, values: seq<OfferedValue>)
    returns (choices: Option<seq<Choice>>)
    ensures values == [] ==> choices == None
    ensures values != [] ==> choices == Some(Offered(bike, cust, category, values))
  {
    if |values| == 0 {
      return None;
    }
    var validValues := ValuesOf(values);
    var i := 0;
    assert cust[..0] == [];
    while i < |cust|
      invariant 0 <= i <= |cust|
      invariant Survivors(bike, cust[..i], category, values, validValues)
    {
      var selected := FindOffered(bike, cust[i].category, cust[i].value);
      NarrowStep(bike, cust, i, category, values, validValues);
      if selected.Some? {
        validValues := Without(validValues, Forbidden(selected.value.restrictions, category));
      }
      i := i + 1;
    }
    assert cust[..|cust|] == cust;
    ValidValuesOfValues(bike, cust, category, values, validValues);
    KeepIsOffered(bike, cust, category, values, validValues);
    choices := Some(Keep(values, validValues));
  }

  /** `valid` lists exactly the value names of the category that no selection of `cust` forbids. */
  ghost predicate Survivors(bike: Bicycle, cust: seq<Pick>, category: string, values: seq<OfferedValue>, valid: seq<string>) {
    forall v :: v in valid <==> v in ValuesOf(values) && !Blocked(bike, cust, category, v)
  }

  /** One pass of the narrowing loop: dropping what selection `i` forbids keeps the survivors exact. */
  lemma NarrowStep(bike: Bicycle, cust: seq<Pick>, i: nat, category: string, values: seq<OfferedValue>, valid: seq<string>)
    requires i < |cust| && Survivors(bike, cust[..i], category, values, valid)
    ensures var selected := FindOffered(bike, cust[i].category, cust[i].value);
            Survivors(bike, cust[..i + 1], category, values,
                      if selected.Some? then Without(valid, Forbidden(selected.value.restrictions, category)) else valid)
  {
    BlockedPrefixStep(bike, cust, i, category);
  }

  /** One more selection forbids what the shorter prefix forbids, plus what that selection forbids. */
  lemma BlockedPrefixStep(bike: Bicycle, cust: seq<Pick>, i: nat, category: string)
    requires i < |cust|
    ensures forall v :: Blocked(bike, cust[..i + 1], category, v) <==>
                        Blocked(bike, cust[..i], category, v) || ForbidsVia(bike, cust[i], category, v)
  {
    forall v ensures Blocked(bike, cust[..i + 1], category, v) <==>
                     Blocked(bike, cust[..i], category, v) || ForbidsVia(bike, cust[i], category, v) {
      assert forall j :: 0 <= j < i ==> cust[..i + 1][j] == cust[..i][j];
      assert cust[..i + 1][i] == cust[i];
    }
  }

  /** Membership among the surviving value names decides each value of the category. */
  lemma ValidValuesOfValues(bike: Bicycle, cust: seq<Pick>, category: string, values: seq<OfferedValue>, valid: seq<string>)
    requires Survivors(bike, cust, category, values, valid)
    ensures forall o :: o in values ==> (o.value in valid <==> !Blocked(bike, cust, category, o.value))
  {
    forall o | o in values ensures o.value in valid <==> !Blocked(bike, cust, category, o.value) {
      var k :| 0 <= k < |values| && values[k] == o;
      assert ValuesOf(values)[k] == o.value;
    }
  }

  /** A value that a sub-selection forbids is forbidden by the whole selection. */
  lemma BlockedBySubset(bike: Bicycle, fewer: seq<Pick>, cust: seq<Pick>, category: string, v: string)
    requires forall p :: p in fewer ==> p in cust
    ensures Blocked(bike, fewer, category, v) ==> Blocked(bike, cust, category, v)
  {
    if Blocked(bike, fewer, category, v) {
      var j :| 0 <= j < |fewer| && ForbidsVia(bike, fewer[j], category, v);
      assert fewer[j] in cust;
      var i :| 0 <= i < |cust| && cust[i] == fewer[j];
    }
  }

  /** Dropping selections never hides a value: every value offered before is still offered. */
  lemma FewerSelectionsOfferMore(bike: Bicycle, cust: seq<Pick>, fewer: seq<Pick>, category: string, values: seq<OfferedValue>, o: OfferedValue)
    requires forall p :: p in fewer ==> p in cust
    requires o in values && ChoiceFor(o) in Offered(bike, cust, category, values)
    ensures ChoiceFor(o) in Offered(bike, fewer, category, values)
  {
    OfferedIff(bike, cust, category, values, o);
    OfferedIff(bike, fewer, category, values, o);
    BlockedBySubset(bike, fewer, cust, category, o.value);
  }

  /** A category cleared to `""`, a value no option of that category has, forbids nothing. */
  lemma BlockedAfterClearing(bike: Bicycle, cust: seq<Pick>, cleared: string, category: string, v: string)
    requires FindOffered(bike, cleared, "").None?
    ensures Blocked(bike, Assign(cust, cleared, ""), category, v) ==> Blocked(bike, cust, category, v)
  {
    var after := Assign(cust, cleared, "");
    if Blocked(bike, after, category, v) {
      var j :| 0 <= j < |after| && ForbidsVia(bike, after[j], category, v);
      assert after[j] in after;
      assert after[j] in cust;
      var i :| 0 <= i < |cust| && cust[i] == after[j];
    }
  }

  /** Clearing a category to `""` never hides a value. */
  lemma ClearingOffersMore(bike: Bicycle, cust: seq<Pick>, cleared: string, category: string, values: seq<OfferedValue>, o: OfferedValue)
    requires FindOffered(bike, cleared, "").None?
    requires o in values && ChoiceFor(o) in Offered(bike, cust, category, values)
    ensures ChoiceFor(o) in Offered(bike, Assign(cust, cleared, ""), category, values)
  {
    OfferedIff(bike, cust, category, values, o);
    OfferedIff(bike, Assign(cust, cleared, ""), category, values, o);
    BlockedAfterClearing(bike, cust, cleared, category, o.value);
  }

  // ---------------------------------------------------------------------------
  // The Add-to-Cart gate: `isFormValid`

  /** The categories of the bicycle, in order. */
  function GroupCategories(groups: seq<CategoryOptions>): (cs: seq<string>)
    ensures |cs| == |groups| && forall i :: 0 <= i < |groups| ==> cs[i] == groups[i].category
  {
    if groups == [] then [] else [groups[0].category] + GroupCategories(groups[1..])
  }

  /**
   * `quantity > 0` on the quantity text: a digit string compares by the number
   * it denotes; any other text (which the input rule never stores) is not positive.
   */
  predicate QuantityPositive(quantity: string) {
    AllDigits(quantity) && DecimalValue(quantity) > 0
  }

  /** `isFormValid`: a quantity is given, and as many categories are chosen as the bicycle has, none of them cleared. */
  predicate IsFormValid(bike: Bicycle, cust: seq<Pick>, quantity: string) {
    && quantity != ""
    && QuantityPositive(quantity)
    && |cust| == |bike.options|
    && forall p :: p in cust ==> p.value != ""
  }

  /** Every category of the bicycle holds a value that is not `""`. */
  predicate Complete(bike: Bicycle, cust: seq<Pick>) {
    forall c :: c in GroupCategories(bike.options) ==> Lookup(cust, c).Some? && Lookup(cust, c).value != ""
  }

  /** A sequence without repetitions has as many distinct elements as it has positions. */
  lemma {:induction false} DistinctCard(xs: seq<string>)
    requires Distinct(xs)
    ensures |set x | x in xs| == |xs|
  {
    if xs != [] {
      var rest := xs[1..];
      assert Distinct(rest);
      DistinctCard(rest);
      assert (set x | x in xs) == {xs[0]} + (set x | x in rest);
      assert xs[0] !in (set x | x in rest);
    }
  }

  /** A subset of a finite set with as many elements is the whole set. */
  lemma SubsetSameSize(a: set<string>, b: set<string>)
    requires a <= b && |a| == |b|
    ensures a == b
  {
    assert a * b == a && a + b == b;
    assert |b - a| == 0;
  }

  /** Two repetition-free sequences, the first drawn from the second, have equal lengths exactly when they hold the same elements. */
  lemma SameCountSameElements(xs: seq<string>, ys: seq<string>)
    requires Distinct(xs) && Distinct(ys)
    requires forall x :: x in xs ==> x in ys
    ensures |xs| == |ys| <==> forall y :: y in ys ==> y in xs
  {
    var a := set x | x in xs;
    var b := set y | y in ys;
    DistinctCard(xs);
    DistinctCard(ys);
    if |xs| == |ys| {
      SubsetSameSize(a, b);
      forall y | y in ys ensures y in xs {
        assert y in b;
      }
    }
    if forall y :: y in ys ==> y in xs {
      assert a == b;
    }
  }

  /** A customization whose keys are distinct has every chosen value at the lookup of its category. */
  lemma {:induction false} LookupOfDistinct(cust: seq<Pick>, k: nat)
    requires Distinct(Categories(cust)) && k < |cust|
    ensures Lookup(cust, cust[k].category) == Some(cust[k].value)
  {
    if k > 0 {
      assert Categories(cust[1..]) == Categories(cust)[1..];
      assert cust[0].category != cust[k].category by { assert Categories(cust)[0] != Categories(cust)[k]; }
      LookupOfDistinct(cust[1..], k - 1);
    }
  }

  /**
   * Under the page's invariants (distinct keys, keys among the bicycle's
   * categories, an accepted quantity text), the gate opens exactly when a
   * quantity is given and every category holds a non-empty value.
   */
  lemma FormValidIffComplete(bike: Bicycle, cust: seq<Pick>, quantity: string)
    requires Distinct(GroupCategories(bike.options)) && Distinct(Categories(cust))
    requires forall c :: c in Categories(cust) ==> c in GroupCategories(bike.options)
    requires AcceptsQuantityInput(quantity)
    ensures IsFormValid(bike, cust, quantity) <==> quantity != "" && Complete(bike, cust)
  {
    SameCountSameElements(Categories(cust), GroupCategories(bike.options));
    if quantity != "" {
      PositiveDecimalAtLeastOne(quantity);
    }
    if IsFormValid(bike, cust, quantity) {
      forall c | c in GroupCategories(bike.options) ensures Lookup(cust, c).Some? && Lookup(cust, c).value != "" {
        var k :| 0 <= k < |cust| && Categories(cust)[k] == c;
        LookupOfDistinct(cust, k);
      }
    }
    if quantity != "" && Complete(bike, cust) {
      forall p | p in cust ensures p.value != "" {
        var k :| 0 <= k < |cust| && cust[k] == p;
        LookupOfDistinct(cust, k);
        assert Categories(cust)[k] == p.category;
      }
    }
  }

  // ---------------------------------------------------------------------------
  // Adding to the cart: match an existing line, or send a new one

  /** The client's line match: same bicycle, same number of options, pairwise equal category and value. */
  predicate SameLine(item: CartItem, bicycleId: string, options: seq<Pick>) {
    && item.bicycle == bicycleId
    && |item.options| == |options|
    && forall i :: 0 <= i < |item.options| ==>
         item.options[i].category == options[i].category && item.options[i].value == options[i].value
  }

  /** The client's match is the server's: both compare bicycle and options, in order. */
  lemma SameLineIsSameConfiguration(item: CartItem, bicycleId: string, options: seq<Pick>)
    ensures SameLine(item, bicycleId, options) <==> CartStore.SameConfiguration(item, bicycleId, options)
  {
    if SameLine(item, bicycleId, options) {
      assert forall i :: 0 <= i < |options| ==> item.options[i] == options[i];
    }
  }

  /** `currentCart.items.find(...)`: the first line the client matches. */
  function FindExisting(items: seq<CartItem>, bicycleId: string, options: seq<Pick>): (r: Option<CartItem>)
    ensures r.Some? ==> r.value in items && SameLine(r.value, bicycleId, options)
    ensures r.None? ==> forall x :: x in items ==> !SameLine(x, bicycleId, options)
  {
    if items == [] then None
    else if SameLine(items[0], bicycleId, options) then Some(items[0])
    else FindExisting(items[1..], bicycleId, options)
  }

  /** The request `handleAddToCart` sends. */
  datatype AddPlan =
    | UpdateExisting(itemId: nat, quantity: int)
    | AddNew(bicycleId: string, options: seq<Pick>, quantity: int)

  /** What `handleAddToCart` sends for `quantity` units of the configuration `cust`, given the cart it fetched. */
  function PlanAddToCart(items: seq<CartItem>, bicycleId: string, cust: seq<Pick>, quantity: string): (plan: AddPlan)
    requires IsPositiveDecimal(quantity)
    ensures plan.quantity >= 1 || plan.UpdateExisting?
    ensures plan.AddNew? ==> plan == AddNew(bicycleId, cust, DecimalValue(quantity))
  {
    PositiveDecimalAtLeastOne(quantity);
    match FindExisting(items, bicycleId, cust)
    case Some(item) => UpdateExisting(item.id, item.quantity + DecimalValue(quantity))
    case None => AddNew(bicycleId, cust, DecimalValue(quantity))
  }

  /** The server's line list after it carries out a plan (the update path as `updateCartItem` does it). */
  function ApplyPlan(items: seq<CartItem>, plan: AddPlan, freshId: nat): seq<CartItem> {
    match plan
    case UpdateExisting(id, q) =>
      (match CartStore.IndexOfId(items, id)
       case Some(k) => if q >= 1 then items[k := items[k].(quantity := q)] else items
       case None => items)
    case AddNew(b, opts, q) => CartStore.AddOrMerge(items, b, opts, q, freshId)
  }

  /** The first line the client matches is the first line the server matches. */
  lemma {:induction false} FindExistingIsMatchIndex(items: seq<CartItem>, bicycleId: string, options: seq<Pick>)
    ensures FindExisting(items, bicycleId, options).None? <==> CartStore.MatchIndex(items, bicycleId, options).None?
    ensures FindExisting(items, bicycleId, options).Some? ==>
              FindExisting(items, bicycleId, options).value == items[CartStore.MatchIndex(items, bicycleId, options).value]
  {
    if items != [] {
      SameLineIsSameConfiguration(items[0], bicycleId, options);
      FindExistingIsMatchIndex(items[1..], bicycleId, options);
    }
  }

  /**
   * When the fetched cart is the server's cart (distinct ids, positive
   * quantities), the client's plan has the effect of the server's own merge:
   * updating the matched line to the summed quantity, or appending a new line.
   */
  lemma PlanAgreesWithServerMerge(items: seq<CartItem>, bicycleId: string, cust: seq<Pick>, quantity: string, freshId: nat)
    requires IsPositiveDecimal(quantity)
    requires DistinctIds(items) && forall x :: x in items ==> x.quantity >= 1
    ensures ApplyPlan(items, PlanAddToCart(items, bicycleId, cust, quantity), freshId)
            == CartStore.AddOrMerge(items, bicycleId, cust, DecimalValue(quantity), freshId)
  {
    var m := CartStore.MatchIndex(items, bicycleId, cust);
    if m.Some? {
      IndexOfDistinctId(items, m.value);
      assert items[m.value] in items;
    }
    PlanMatchesMerge(items, bicycleId, cust, quantity, freshId);
  }

  /** The plan's effect, once the matched line's id is known to find that line. */
  lemma PlanMatchesMerge(items: seq<CartItem>, bicycleId: string, cust: seq<Pick>, quantity: string, freshId: nat)
    requires IsPositiveDecimal(quantity)
    requires var m := CartStore.MatchIndex(items, bicycleId, cust);
             m.Some? ==> CartStore.IndexOfId(items, items[m.value].id) == m && items[m.value].quantity >= 1
    ensures ApplyPlan(items, PlanAddToCart(items, bicycleId, cust, quantity), freshId)
            == CartStore.AddOrMerge(items, bicycleId, cust, DecimalValue(quantity), freshId)
  {
    FindExistingIsMatchIndex(items, bicycleId, cust);
    PositiveDecimalAtLeastOne(quantity);
    var q := DecimalValue(quantity);
    match CartStore.MatchIndex(items, bicycleId, cust)
    case None =>
      assert PlanAddToCart(items, bicycleId, cust, quantity) == AddNew(bicycleId, cust, q);
    case Some(k) =>
      assert PlanAddToCart(items, bicycleId, cust, quantity) == UpdateExisting(items[k].id, items[k].quantity + q);
      UpdateMatchesMerge(items, bicycleId, cust, k, q, freshId);
  }

  /** Updating the matched line to the summed quantity is the server's merge. */
  lemma UpdateMatchesMerge(items: seq<CartItem>, bicycleId: string, cust: seq<Pick>, k: nat, q: int, freshId: nat)
    requires CartStore.MatchIndex(items, bicycleId, cust) == Some(k)
    requires CartStore.IndexOfId(items, items[k].id) == Some(k) && items[k].quantity >= 1 && q >= 1
    ensures ApplyPlan(items, UpdateExisting(items[k].id, items[k].quantity + q), freshId)
            == CartStore.AddOrMerge(items, bicycleId, cust, q, freshId)
  {
  }

  /** With distinct ids, looking a line's id up finds that line. */
  lemma IndexOfDistinctId(items: seq<CartItem>, k: nat)
    requires DistinctIds(items) && k < |items|
    ensures CartStore.IndexOfId(items, items[k].id) == Some(k)
  {
    assert items[k] in items;
  }

  // ---------------------------------------------------------------------------
  // The page state

  /** The bicycle page: the loaded bicycle, the customization and the quantity text. */
  class Session {
    const bike: Bicycle
    var customization: seq<Pick>
    var quantity: string

    ghost predicate Valid()
      reads this
    {
      && Distinct(Categories(customization))
      && (forall c :: c in Categories(customization) ==> c in GroupCategories(bike.options))
      && AcceptsQuantityInput(quantity)
    }

    /** Nothing chosen, quantity `"1"`. */
    constructor (bike: Bicycle)
      ensures Valid() && this.bike == bike && customization == [] && quantity == "1"
    {
      this.bike := bike;
      customization := [];
      quantity := "1";
    }

    /** `handleQuantityChange`: store the text only when the input rule accepts it. */
    method HandleQuantityChange(value: string)
      requires Valid()
      modifies this
      ensures Valid()
      ensures customization == old(customization)
      ensures quantity == if AcceptsQuantityInput(value) then value else old(quantity)
    {
      if value == "" || IsPositiveDecimal(value) {
        quantity := value;
      }
    }

    /** A selector's `onChange`: choose `value` for `category` and return the restriction notices shown. */
    method Choose(category: string, value: string) returns (notices: seq<Notice>)
      requires Valid() && category in GroupCategories(bike.options)
      modifies this
      ensures Valid()
      ensures quantity == old(quantity)
      ensures Update(customization, notices) == Select(bike, old(customization), category, value)
    {
      SelectShape(bike, customization, category, value);
      customization, notices := HandleRestrictions(bike, customization, category, value);
    }
  }
}
