/**
 * The server-side cart validator (`validateCartItem`): checks the shape of the
 * `options` field, then examines every selection in order and reports the
 * first one that is unknown, out of stock, or whose restrictions forbid the
 * value chosen in another category. The registry is the part-option
 * collection in its natural order.
 */
module CartValidation {
  import opened ShopTypes

  datatype Verdict =
    | Accepted
      /** "options field is required" */
    | OptionsRequired
      /** "options cannot be empty" */
    | OptionsEmpty
      /** no registry entry has the selection's (category, value) */
    | InvalidSelection(pick: Pick)
      /** the selection's option is out of stock */
    | OutOfStockSelection(pick: Pick)
      /** `pick`'s option forbids the value `other` selects in its category */
    | Incompatible(pick: Pick, other: Pick)

  /** The registry lookup `findOne({category, value})`: the first entry with the selection's pair. */
  function FindOption(registry: seq<PartOption>, p: Pick): (r: Option<PartOption>)
    ensures r.Some? ==> r.value in registry && r.value.category == p.category && r.value.value == p.value
    ensures r.None? ==> forall o :: o in registry ==> o.category != p.category || o.value != p.value
  {
    if registry == [] then None
    else if registry[0].category == p.category && registry[0].value == p.value then Some(registry[0])
    else FindOption(registry[1..], p)
  }

  /** `options.find(opt => opt.category === category)`: the first selection in that category. */
  function SelectedIn(picks: seq<Pick>, category: string): (r: Option<Pick>)
    ensures r.Some? ==> r.value in picks && r.value.category == category
    ensures r.None? ==> forall p :: p in picks ==> p.category != category
  {
    if picks == [] then None
    else if picks[0].category == category then Some(picks[0])
    else SelectedIn(picks[1..], category)
  }

  /** The selection `SelectedIn` finds is the first one of its category. */
  lemma {:induction false} SelectedInIsFirst(picks: seq<Pick>, category: string, k: nat)
    requires k < |picks| && picks[k].category == category
    requires forall j :: 0 <= j < k ==> picks[j].category != category
    ensures SelectedIn(picks, category) == Some(picks[k])
    decreases k
  {
    if k > 0 {
      SelectedInIsFirst(picks[1..], category, k - 1);
    }
  }

  /** The selection that the first entry of `rules` forbids, taking each category's first selection. */
  function RuleConflict(rules: seq<Rule>, picks: seq<Pick>): (r: Option<Pick>)
    ensures r.Some? ==> r.value in picks
    ensures r.Some? ==> exists k :: 0 <= k < |rules| && SelectedIn(picks, rules[k].category) == r
                                    && r.value.value in rules[k].forbidden
    ensures r.None? ==> forall k :: 0 <= k < |rules| && SelectedIn(picks, rules[k].category).Some? ==>
                                      SelectedIn(picks, rules[k].category).value.value !in rules[k].forbidden
  {
    if rules == [] then None
    else
      var s := SelectedIn(picks, rules[0].category);
      if s.Some? && s.value.value in rules[0].forbidden then s
      else
        assert forall k :: 0 <= k < |rules| - 1 ==> rules[1..][k] == rules[k + 1];
        RuleConflict(rules[1..], picks)
  }

  /** What the loop over the selections reports for `p`, or None to go on to the next one. */
  function Fault(registry: seq<PartOption>, picks: seq<Pick>, p: Pick): Option<Verdict> {
    match FindOption(registry, p)
    case None => Some(InvalidSelection(p))
    case Some(o) =>
      if o.stock == OutOfStock then Some(OutOfStockSelection(p))
      else
        match RuleConflict(o.restrictions, picks)
        case Some(q) => Some(Incompatible(p, q))
        case None => None
  }

  /** The verdict of examining `picks[i..]` in order, stopping at the first fault. */
  function FirstFault(registry: seq<PartOption>, picks: seq<Pick>, i: nat): (v: Verdict)
    requires i <= |picks|
    ensures !v.OptionsRequired? && !v.OptionsEmpty?
    decreases |picks| - i
  {
    if i == |picks| then Accepted
    else
      match Fault(registry, picks, picks[i])
      case Some(v) => v
      case None => FirstFault(registry, picks, i + 1)
  }

  /** `FirstFault` accepts exactly when no selection faults, and otherwise reports the first fault. */
  lemma FirstFaultIsFirst(registry: seq<PartOption>, picks: seq<Pick>, i: nat)
    requires i <= |picks|
    ensures FirstFault(registry, picks, i) == Accepted <==>
              forall j :: i <= j < |picks| ==> Fault(registry, picks, picks[j]) == None
    ensures FirstFault(registry, picks, i) != Accepted ==>
              exists k :: i <= k < |picks| && Fault(registry, picks, picks[k]) == Some(FirstFault(registry, picks, i))
                          && forall j :: i <= j < k ==> Fault(registry, picks, picks[j]) == None
  {
    FirstFaultAccepts(registry, picks, i);
    FirstFaultReports(registry, picks, i);
  }

  /** `FirstFault` accepts exactly when no selection from `i` on faults. */
  lemma {:induction false} FirstFaultAccepts(registry: seq<PartOption>, picks: seq<Pick>, i: nat)
    requires i <= |picks|
    ensures FirstFault(registry, picks, i) == Accepted <==>
              forall j :: i <= j < |picks| ==> Fault(registry, picks, picks[j]) == None
    decreases |picks| - i
  {
    if i < |picks| && Fault(registry, picks, picks[i]) == None {
      FirstFaultAccepts(registry, picks, i + 1);
    }
  }

  /** A verdict other than acceptance is the fault of the first selection from `i` on that faults. */
  lemma {:induction false} FirstFaultReports(registry: seq<PartOption>, picks: seq<Pick>, i: nat)
    requires i <= |picks|
    ensures FirstFault(registry, picks, i) != Accepted ==>
              exists k :: i <= k < |picks| && Fault(registry, picks, picks[k]) == Some(FirstFault(registry, picks, i))
                          && forall j :: i <= j < k ==> Fault(registry, picks, picks[j]) == None
    decreases |picks| - i
  {
    if i < |picks| {
      if Fault(registry, picks, picks[i]) == None {
        FirstFaultReports(registry, picks, i + 1);
      } else {
        assert Fault(registry, picks, picks[i]) == Some(FirstFault(registry, picks, i));
      }
    }
  }

  /** The decision `validateCartItem` takes on a request's `options` field. */
  function Validate(field: OptionsField, registry: seq<PartOption>): (v: Verdict)
    ensures v == OptionsRequired <==> field.Absent?
    ensures v == OptionsEmpty <==> field.NotAnArray? || field == Array([])
    ensures v == Accepted <==> field.Array? && field.picks != []
                               && forall p :: p in field.picks ==> Fault(registry, field.picks, p) == None
  {
    match field
    case Absent => OptionsRequired
    case NotAnArray => OptionsEmpty
    case Array(picks) =>
      if picks == [] then OptionsEmpty
      else
        FirstFaultIsFirst(registry, picks, 0);
        FirstFault(registry, picks, 0)
  }

  /** The middleware itself: the loop over the selections, with `CheckRestrictions` as its inner loop. */
  method ValidateCartItem(field: OptionsField, registry: seq<PartOption>) returns (v: Verdict)
    ensures v == Validate(field, registry)
  {
    if field.Absent? {
      return OptionsRequired;
    }
    if field.NotAnArray? || field.picks == [] {
      return OptionsEmpty;
    }
    var picks := field.picks;
    var i := 0;
    while i < |picks|
      invariant 0 <= i <= |picks|
      invariant FirstFault(registry, picks, i) == FirstFault(registry, picks, 0)
    {
      var p := picks[i];
      var found := FindOption(registry, p);
      if found.None? {
        return InvalidSelection(p);
      }
      var o := found.value;
      if o.stock == OutOfStock {
        return OutOfStockSelection(p);
      }
      KnownFaultAt(registry, picks, i, o);
      var conflict := CheckRestrictions(o.restrictions, picks);
      if conflict.Some? {
        return Incompatible(p, conflict.value);
      }
      i := i + 1;
    }
    return Accepted;
  }

  /** The inner loop over one option's restriction entries: the first selection an entry forbids. */
  method CheckRestrictions(rules: seq<Rule>, picks: seq<Pick>) returns (conflict: Option<Pick>)
    ensures conflict == RuleConflict(rules, picks)
  {
    var k := 0;
    while k < |rules|
      invariant 0 <= k <= |rules|
      invariant RuleConflict(rules[k..], picks) == RuleConflict(rules, picks)
    {
      RuleConflictStep(rules, picks, k);
      var selected := SelectedIn(picks, rules[k].category);
      if selected.Some? && selected.value.value in rules[k].forbidden {
        return selected;
      }
      k := k + 1;
    }
    return None;
  }

  /** At a known, in-stock selection the loop stops with its first conflict, or goes on to the next selection. */
  lemma KnownFaultAt(registry: seq<PartOption>, picks: seq<Pick>, i: nat, o: PartOption)
    requires i < |picks| && FindOption(registry, picks[i]) == Some(o) && o.stock == InStock
    ensures RuleConflict(o.restrictions, picks).None? ==> FirstFault(registry, picks, i) == FirstFault(registry, picks, i + 1)
    ensures RuleConflict(o.restrictions, picks).Some? ==>
              FirstFault(registry, picks, i) == Incompatible(picks[i], RuleConflict(o.restrictions, picks).value)
  {
  }

  /** Entry `k` is checked first, then the entries after it. */
  lemma RuleConflictStep(rules: seq<Rule>, picks: seq<Pick>, k: nat)
    requires k < |rules|
    ensures var s := SelectedIn(picks, rules[k].category);
            RuleConflict(rules[k..], picks)
            == if s.Some? && s.value.value in rules[k].forbidden then s else RuleConflict(rules[k + 1..], picks)
  {
    assert rules[k..][1..] == rules[k + 1..];
  }

  /** The first selection that fails decides the verdict; the selections after it are not examined. */
  lemma FirstFailureDecides(registry: seq<PartOption>, picks: seq<Pick>, k: nat)
    requires k < |picks|
    requires Fault(registry, picks, picks[k]).Some?
    requires forall j :: 0 <= j < k ==> Fault(registry, picks, picks[j]) == None
    ensures Validate(Array(picks), registry) == Fault(registry, picks, picks[k]).value
  {
    FirstFaultIsFirst(registry, picks, 0);
  }

  /** An unknown selection is reported as invalid, naming its value and category. */
  lemma UnknownSelectionRejected(registry: seq<PartOption>, picks: seq<Pick>, k: nat)
    requires k < |picks|
    requires forall o :: o in registry ==> o.category != picks[k].category || o.value != picks[k].value
    requires forall j :: 0 <= j < k ==> Fault(registry, picks, picks[j]) == None
    ensures Validate(Array(picks), registry) == InvalidSelection(picks[k])
  {
    FirstFailureDecides(registry, picks, k);
  }

  /**
   * The stock check runs before the restriction check: an out-of-stock
   * selection is reported as such even when its restrictions also forbid
   * another selected value.
   */
  lemma StockCheckPrecedesRestrictions(registry: seq<PartOption>, picks: seq<Pick>, k: nat, o: PartOption)
    requires k < |picks|
    requires FindOption(registry, picks[k]) == Some(o) && o.stock == OutOfStock
    requires forall j :: 0 <= j < k ==> Fault(registry, picks, picks[j]) == None
    ensures Validate(Array(picks), registry) == OutOfStockSelection(picks[k])
  {
    FirstFailureDecides(registry, picks, k);
  }

  /** A known, in-stock option with no restriction entries never makes a selection fail. */
  lemma UnrestrictedOptionNeverFails(registry: seq<PartOption>, picks: seq<Pick>, p: Pick, o: PartOption)
    requires FindOption(registry, p) == Some(o) && o.stock == InStock && o.restrictions == []
    ensures Fault(registry, picks, p) == None
  {
  }

  /** Whether `p` is known, in stock, and its option forbids no selected value. */
  predicate Compatible(registry: seq<PartOption>, picks: seq<Pick>, p: Pick) {
    FindOption(registry, p).Some? && FindOption(registry, p).value.stock == InStock &&
    forall q :: q in picks ==> q.value !in Forbidden(FindOption(registry, p).value.restrictions, q.category)
  }

  /** A compatible selection never faults. */
  lemma CompatibleNeverFaults(registry: seq<PartOption>, picks: seq<Pick>, p: Pick)
    requires Compatible(registry, picks, p)
    ensures Fault(registry, picks, p) == None
  {
  }

  /**
   * A request is accepted whenever it has a selection and every selection is
   * known, in stock, and forbids no value selected in another category.
   */
  lemma AcceptedWhenCompatible(registry: seq<PartOption>, picks: seq<Pick>)
    requires picks != []
    requires forall p :: p in picks ==> Compatible(registry, picks, p)
    ensures Validate(Array(picks), registry) == Accepted
  {
    forall p | p in picks ensures Fault(registry, picks, p) == None {
      CompatibleNeverFaults(registry, picks, p);
    }
  }

  /**
   * An incompatibility names two selections of the request: the first, whose
   * option is known and in stock, forbids the value of the second, which is
   * the first selection of its category.
   */
  lemma IncompatibleNamesBoth(registry: seq<PartOption>, picks: seq<Pick>)
    requires Validate(Array(picks), registry).Incompatible?
    ensures var v := Validate(Array(picks), registry);
            v.pick in picks && v.other in picks && SelectedIn(picks, v.other.category) == Some(v.other) &&
            FindOption(registry, v.pick).Some? && FindOption(registry, v.pick).value.stock == InStock &&
            v.other.value in Forbidden(FindOption(registry, v.pick).value.restrictions, v.other.category)
  {
    FirstFaultIsFirst(registry, picks, 0);
    var v := Validate(Array(picks), registry);
    var i :| 0 <= i < |picks| && Fault(registry, picks, picks[i]) == Some(v);
    var rules := FindOption(registry, picks[i]).value.restrictions;
    var k :| 0 <= k < |rules| && SelectedIn(picks, rules[k].category) == Some(v.other) && v.other.value in rules[k].forbidden;
    ForbiddenIsEntry(rules, k);
  }

  /** The first selection of a category is the one a restriction entry is checked against. */
  lemma {:induction false} SelectedInPrefix(picks: seq<Pick>, more: seq<Pick>, category: string)
    requires SelectedIn(picks, category).Some?
    ensures SelectedIn(picks + more, category) == SelectedIn(picks, category)
    decreases |picks|
  {
    if picks[0].category != category {
      assert (picks + more)[1..] == picks[1..] + more;
      SelectedInPrefix(picks[1..], more, category);
    }
  }

  /** Two selection lists that agree on the first selection of every category meet the same restriction conflicts. */
  lemma {:induction false} RuleConflictDependsOnFirstSelections(rules: seq<Rule>, a: seq<Pick>, b: seq<Pick>)
    requires forall c :: SelectedIn(a, c) == SelectedIn(b, c)
    ensures RuleConflict(rules, a) == RuleConflict(rules, b)
    decreases |rules|
  {
    if rules != [] {
      RuleConflictDependsOnFirstSelections(rules[1..], a, b);
    }
  }

  /**
   * A restriction is caught whichever of the two selections comes first:
   * when `a`'s option forbids `b`'s value and `b`'s option forbids nothing
   * in the pair, both orders are rejected as the same incompatibility of `a`.
   */
  lemma ConflictCaughtInEitherOrder(registry: seq<PartOption>, a: Pick, b: Pick, oa: PartOption, ob: PartOption)
    requires a.category != b.category
    requires FindOption(registry, a) == Some(oa) && oa.stock == InStock
    requires FindOption(registry, b) == Some(ob) && ob.stock == InStock
    requires b.value in Forbidden(oa.restrictions, b.category)
    requires RuleConflict(ob.restrictions, [a, b]) == None
    ensures Validate(Array([a, b]), registry) == Validate(Array([b, a]), registry)
    ensures Validate(Array([a, b]), registry).Incompatible? && Validate(Array([a, b]), registry).pick == a
  {
    SwapKeepsFirstSelections(a, b);
    RuleConflictDependsOnFirstSelections(ob.restrictions, [a, b], [b, a]);
    RuleConflictDependsOnFirstSelections(oa.restrictions, [a, b], [b, a]);
    ForbiddenSelectionConflicts(oa.restrictions, [a, b], b);
    var q := RuleConflict(oa.restrictions, [a, b]).value;
    KnownFault(registry, [a, b], a, oa);
    KnownFault(registry, [b, a], a, oa);
    KnownFault(registry, [b, a], b, ob);
    FirstFaultOfPair(registry, a, b);
    FirstFaultOfPair(registry, b, a);
  }

  /** Two selections of different categories are each the first of their category, in either order. */
  lemma SwapKeepsFirstSelections(a: Pick, b: Pick)
    requires a.category != b.category
    ensures forall c :: SelectedIn([a, b], c) == SelectedIn([b, a], c)
  {
    forall c ensures SelectedIn([a, b], c) == SelectedIn([b, a], c) {
      assert [a, b][1..] == [b] && [b, a][1..] == [a];
    }
  }

  /** The loop body on a known, in-stock selection reports its option's first restriction conflict. */
  lemma KnownFault(registry: seq<PartOption>, picks: seq<Pick>, p: Pick, o: PartOption)
    requires FindOption(registry, p) == Some(o) && o.stock == InStock
    ensures RuleConflict(o.restrictions, picks).None? ==> Fault(registry, picks, p) == None
    ensures RuleConflict(o.restrictions, picks).Some? ==>
              Fault(registry, picks, p) == Some(Incompatible(p, RuleConflict(o.restrictions, picks).value))
  {
  }

  /** Two selections are examined in order: the first one's fault, else the second one's, else acceptance. */
  lemma FirstFaultOfPair(registry: seq<PartOption>, x: Pick, y: Pick)
    ensures Validate(Array([x, y]), registry)
            == match Fault(registry, [x, y], x)
               case Some(v) => v
               case None => (match Fault(registry, [x, y], y) case Some(v) => v case None => Accepted)
  {
    assert FirstFault(registry, [x, y], 2) == Accepted;
    assert FirstFault(registry, [x, y], 1) == match Fault(registry, [x, y], y) case Some(v) => v case None => Accepted;
    assert Validate(Array([x, y]), registry) == FirstFault(registry, [x, y], 0);
  }

  /** If an entry forbids the first selection of its category, the entries report some conflict. */
  lemma {:induction false} ForbiddenSelectionConflicts(rules: seq<Rule>, picks: seq<Pick>, b: Pick)
    requires SelectedIn(picks, b.category) == Some(b)
    requires b.value in Forbidden(rules, b.category)
    ensures RuleConflict(rules, picks).Some?
    decreases |rules|
  {
    if rules[0].category != b.category {
      var s := SelectedIn(picks, rules[0].category);
      if !(s.Some? && s.value.value in rules[0].forbidden) {
        ForbiddenSelectionConflicts(rules[1..], picks, b);
      }
    }
  }
}
