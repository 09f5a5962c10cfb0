/**
 The evaluator interface, the recount of one namespace by one evaluator, and the merge of
 all evaluators' measurements into one usage list.
 */
module Evaluators {
  import opened Names
  import opened Sums
  import opened ResourceLists
  import opened Objects

  /** What the quota engine calls on an evaluator; a None result is an error. */
  datatype Evaluator = Evaluator(
    groupResource: GroupResource,
    handles: Operation -> bool,
    matchingResources: seq<ResourceName> -> seq<ResourceName>,
    scopeMatches: (Selector, Object) -> Option<bool>,
    constraints: (set<ResourceName>, Object) -> bool,
    usage: Object -> Option<ResourceList>)
  {
    predicate Accepts(name: ResourceName) {
      name in matchingResources([name])
    }

    /** The obligations on an evaluator. The core evaluators meet them (module CoreEvaluators). */
    ghost predicate Valid() {
      && (forall names, n :: n in matchingResources(names) <==> n in names && Accepts(n))
      && (forall o, k :: usage(o).Some? && k in usage(o).value ==> Accepts(k))
      // an update it charges cannot move the object into or out of a scope
      && (handles(Update) ==> forall s, o, o' :: scopeMatches(s, o) == scopeMatches(s, o'))
    }

    lemma MatchingNames(names: seq<ResourceName>)
      requires Valid()
      ensures forall n :: n in matchingResources(names) <==> n in names && Accepts(n)
    {
    }
  }

  // ----- one evaluator, one namespace -----

  datatype UsageStatsOptions = UsageStatsOptions(
    scopes: seq<ScopeName>, resources: seq<ResourceName>, scopeSelector: seq<Selector>)

  // The recount asks about plain scopes without an operator.
  function RecountChecks(scopes: seq<ScopeName>, selectors: seq<Selector>): seq<Selector> {
    seq(|scopes|, i requires 0 <= i < |scopes| => Selector(scopes[i], NoOperator, [])) + selectors
  }

  // None as soon as one check fails to evaluate; there is no early exit on a mismatch.
  function AllMatch(e: Evaluator, checks: seq<Selector>, o: Object): (r: Option<bool>)
    ensures r.None? <==> exists i :: 0 <= i < |checks| && e.scopeMatches(checks[i], o).None?
    ensures r.Some? ==> (r.value <==> forall i | 0 <= i < |checks| :: e.scopeMatches(checks[i], o) == Some(true))
  {
    if checks == [] then Some(true)
    else match (e.scopeMatches(checks[0], o), AllMatch(e, checks[1..], o)) {
      case (None, _) => assert e.scopeMatches(checks[0], o).None?; None
      case (_, None) =>
        assert exists i :: 0 <= i < |checks[1..]| && e.scopeMatches(checks[1..][i], o).None?;
        None
      case (Some(first), Some(rest)) => Some(first && rest)
    }
  }

  /**
   The usage of the listed objects. A check that fails to evaluate ends the count and keeps
   what was counted so far, without an error; only a failing usage function is an error.
   */
  function Recount(e: Evaluator, checks: seq<Selector>, items: seq<Object>): Option<ResourceList> {
    if items == [] then Some(map[])
    else match AllMatch(e, checks, items[0]) {
      case None => Some(map[])
      case Some(false) => Recount(e, checks, items[1..])
      case Some(true) =>
        match (e.usage(items[0]), Recount(e, checks, items[1..])) {
          case (Some(u), Some(rest)) => Some(Plus(u, rest))
          case _ => None
        }
    }
  }

  // What one object contributes to a resource.
  function Contribution(e: Evaluator, checks: seq<Selector>, o: Object, name: ResourceName): int {
    if AllMatch(e, checks, o) == Some(true) && e.usage(o).Some? then Amount(e.usage(o).value, name) else 0
  }

  ghost predicate Countable(e: Evaluator, checks: seq<Selector>, items: seq<Object>) {
    forall o | o in items :: AllMatch(e, checks, o).Some? && (AllMatch(e, checks, o) == Some(true) ==> e.usage(o).Some?)
  }

  /** With parsing selectors, the count is the sum over matching objects, only under accepted names. */
  lemma {:induction false} RecountIsSum(e: Evaluator, checks: seq<Selector>, items: seq<Object>, name: ResourceName)
    requires e.Valid() && Countable(e, checks, items)
    ensures Recount(e, checks, items).Some?
    ensures Amount(Recount(e, checks, items).value, name) == Sum(items, o => Contribution(e, checks, o, name))
    ensures forall k | k in Recount(e, checks, items).value :: e.Accepts(k)
  {
    if items != [] {
      RecountIsSum(e, checks, items[1..], name);
    }
  }

  lemma {:induction false} RecountAccepted(e: Evaluator, checks: seq<Selector>, items: seq<Object>)
    requires e.Valid() && Recount(e, checks, items).Some?
    ensures forall k | k in Recount(e, checks, items).value :: e.Accepts(k)
  {
    if items != [] && AllMatch(e, checks, items[0]).Some? {
      RecountAccepted(e, checks, items[1..]);
    }
  }

  function Zeros(names: seq<ResourceName>): ResourceList {
    map n | n in names :: 0
  }

  /** CalculateUsageStats: every tracked resource starts at zero, matching objects are added. */
  method CalculateUsageStats(e: Evaluator, options: UsageStatsOptions, listed: Option<seq<Object>>)
    returns (used: Option<ResourceList>)
    ensures used.Some? <==>
      listed.Some? && Recount(e, RecountChecks(options.scopes, options.scopeSelector), listed.value).Some?
    ensures used.Some? ==>
      var recount := Recount(e, RecountChecks(options.scopes, options.scopeSelector), listed.value);
      used.value == Plus(Zeros(options.resources), recount.value)
  {
    if listed.None? {
      return None;
    }
    ghost var checks := RecountChecks(options.scopes, options.scopeSelector);
    var items := listed.value;
    var result := Zeros(options.resources);
    for n := 0 to |items|
      invariant Recount(e, checks, items).Some? <==> Recount(e, checks, items[n..]).Some?
      invariant Recount(e, checks, items).Some? ==>
        Plus(Zeros(options.resources), Recount(e, checks, items).value)
          == Plus(result, Recount(e, checks, items[n..]).value)
    {
      var item := items[n];
      assert items[n..][0] == item && items[n..][1..] == items[n + 1..];
      var matches := MatchesScopes(e, options.scopes, options.scopeSelector, item);
      if matches.None? {
        PlusLaws(result, map[], map[]);
        return Some(result);
      }
      if matches.value {
        var usage := e.usage(item);
        if usage.None? {
          return None;
        }
        if Recount(e, checks, items[n + 1..]).Some? {
          PlusLaws(result, usage.value, Recount(e, checks, items[n + 1..]).value);
        }
        result := Add(result, usage.value);
      }
    }
    PlusLaws(result, map[], map[]);
    return Some(result);
  }

  // The two scope loops inside CalculateUsageStats.
  method MatchesScopes(e: Evaluator, scopes: seq<ScopeName>, selectors: seq<Selector>, item: Object)
    returns (r: Option<bool>)
    ensures r == AllMatch(e, RecountChecks(scopes, selectors), item)
  {
    ghost var checks := RecountChecks(scopes, selectors);
    var matches := true;
    for i := 0 to |scopes|
      invariant forall j | 0 <= j < i :: e.scopeMatches(checks[j], item).Some?
      invariant matches <==> forall j | 0 <= j < i :: e.scopeMatches(checks[j], item) == Some(true)
    {
      var inner := e.scopeMatches(Selector(scopes[i], NoOperator, []), item);
      assert inner == e.scopeMatches(checks[i], item);
      if inner.None? {
        return None;
      }
      if !inner.value {
        matches := false;
      }
    }
    for i := 0 to |selectors|
      invariant forall j | 0 <= j < |scopes| + i :: e.scopeMatches(checks[j], item).Some?
      invariant matches <==> forall j | 0 <= j < |scopes| + i :: e.scopeMatches(checks[j], item) == Some(true)
    {
      var inner := e.scopeMatches(selectors[i], item);
      assert inner == e.scopeMatches(checks[|scopes| + i], item);
      if inner.None? {
        return None;
      }
      matches := matches && inner.value;
    }
    return Some(matches);
  }

  // ----- one namespace, all evaluators -----

  // What listing a kind in the namespace at hand returns; None while the lister is not synced.
  type Listing = GroupResource -> Option<seq<Object>>

  function Measured(e: Evaluator, checks: seq<Selector>, listing: Listing): Option<ResourceList> {
    match listing(e.groupResource) {
      case None => None
      case Some(items) => Recount(e, checks, items)
    }
  }

  function Share(e: Evaluator, checks: seq<Selector>, listing: Listing, name: ResourceName): int {
    match Measured(e, checks, listing) {
      case None => 0
      case Some(used) => Amount(used, name)
    }
  }

  ghost predicate AnyAccepts(es: seq<Evaluator>, name: ResourceName) {
    exists e :: e in es && e.Accepts(name)
  }

  ghost predicate NoneFails(es: seq<Evaluator>, checks: seq<Selector>, listing: Listing, name: ResourceName) {
    forall e | e in es && e.Accepts(name) :: Measured(e, checks, listing).Some?
  }

  // Some evaluator measures the resource and none that measures it failed.
  ghost predicate Measurable(es: seq<Evaluator>, checks: seq<Selector>, listing: Listing, name: ResourceName) {
    AnyAccepts(es, name) && NoneFails(es, checks, listing, name)
  }

  /** The meaning of a usage calculation: it does not mention the order of the evaluators. */
  ghost predicate IsUsage(es: seq<Evaluator>, checks: seq<Selector>, listing: Listing,
                          hard: set<ResourceName>, usage: ResourceList) {
    && (forall k :: k in usage <==> k in hard && Measurable(es, checks, listing, k))
    && (forall k | k in usage :: usage[k] == Sum(es, e => Share(e, checks, listing, k)))
  }

  ghost predicate SomeFailure(es: seq<Evaluator>, checks: seq<Selector>, listing: Listing, hard: set<ResourceName>) {
    exists k :: k in hard && !NoneFails(es, checks, listing, k)
  }

  method PotentialResources(evaluators: seq<Evaluator>, names: seq<ResourceName>) returns (potential: seq<ResourceName>)
    requires forall e | e in evaluators :: e.Valid()
    ensures forall k :: k in potential <==> k in names && AnyAccepts(evaluators, k)
  {
    potential := [];
    for i := 0 to |evaluators|
      invariant forall k :: k in potential <==> k in names && AnyAccepts(evaluators[..i], k)
    {
      OneMore(evaluators, i);
      var more := evaluators[i].matchingResources(names);
      evaluators[i].MatchingNames(names);
      potential := potential + more;
    }
    assert evaluators[..|evaluators|] == evaluators;
  }

  lemma OneMore(es: seq<Evaluator>, i: nat)
    requires i < |es|
    ensures es[..i + 1] == es[..i] + [es[i]]
    ensures forall k :: AnyAccepts(es[..i + 1], k) <==> AnyAccepts(es[..i], k) || es[i].Accepts(k)
    ensures forall checks, listing, k ::
      NoneFails(es[..i + 1], checks, listing, k) <==>
      NoneFails(es[..i], checks, listing, k) && (es[i].Accepts(k) ==> Measured(es[i], checks, listing).Some?)
  {
    assert forall e :: e in es[..i + 1] <==> e in es[..i] || e == es[i];
    assert es[i] in es[..i + 1];
  }

  // The state of CalculateUsage after the evaluators in done had their turn.
  ghost predicate Progress(es: seq<Evaluator>, done: seq<Evaluator>, checks: seq<Selector>, listing: Listing,
                           hard: set<ResourceName>, matched: seq<ResourceName>, usage: ResourceList)
  {
    && (forall k :: k in matched <==> k in hard && AnyAccepts(es, k) && NoneFails(done, checks, listing, k))
    && (forall k | k in matched :: k in usage <==> AnyAccepts(done, k))
    && (forall k | k in matched :: Amount(usage, k) == Sum(done, e => Share(e, checks, listing, k)))
  }

  // One turn: a failing evaluator takes its resources out, any other adds what it measured.
  lemma Turn(es: seq<Evaluator>, i: nat, checks: seq<Selector>, listing: Listing, hard: set<ResourceName>,
             matched: seq<ResourceName>, usage: ResourceList, matched': seq<ResourceName>, usage': ResourceList)
    requires i < |es| && es[i].Valid()
    requires Progress(es, es[..i], checks, listing, hard, matched, usage)
    requires forall k ::
      k in matched' <==> k in matched && (es[i].Accepts(k) ==> Measured(es[i], checks, listing).Some?)
    requires forall k | k in matched' ::
      && (k in usage' <==> k in usage || es[i].Accepts(k))
      && Amount(usage', k) == Amount(usage, k) + Share(es[i], checks, listing, k)
    ensures Progress(es, es[..i + 1], checks, listing, hard, matched', usage')
  {
    OneMore(es, i);
    forall k | k in matched'
      ensures Amount(usage', k) == Sum(es[..i + 1], e => Share(e, checks, listing, k))
    {
      SumAppend(es[..i], es[i], e => Share(e, checks, listing, k));
    }
  }

  // One turn of CalculateUsage.
  method MeasureWith(evaluator: Evaluator, scopes: seq<ScopeName>, selectors: seq<Selector>, listing: Listing,
                     matched: seq<ResourceName>, newUsage: ResourceList)
    returns (matched': seq<ResourceName>, newUsage': ResourceList, failed: bool)
    requires evaluator.Valid()
    ensures var checks := RecountChecks(scopes, selectors);
      && (failed <==> Measured(evaluator, checks, listing).None? && exists k :: k in matched && evaluator.Accepts(k))
      && (forall k :: k in matched' <==>
        k in matched && (evaluator.Accepts(k) ==> Measured(evaluator, checks, listing).Some?))
      && (forall k | k in matched' ::
            && (k in newUsage' <==> k in newUsage || evaluator.Accepts(k))
            && Amount(newUsage', k) == Amount(newUsage, k) + Share(evaluator, checks, listing, k))
  {
    ghost var checks := RecountChecks(scopes, selectors);
    matched', newUsage', failed := matched, newUsage, false;
    var intersection := evaluator.matchingResources(matched);
    evaluator.MatchingNames(matched);
    UnacceptedShare(evaluator, checks, listing);
    if |intersection| == 0 {
      assert forall k | k in matched :: k !in intersection;
      return;
    }
    assert intersection[0] in intersection;
    var options := UsageStatsOptions(scopes, intersection, selectors);
    var stats := CalculateUsageStats(evaluator, options, listing(evaluator.groupResource));
    if stats.None? {
      matched' := Difference(matched, intersection);
      assert forall k :: k in matched' <==> k in NameSet(matched');
      return matched', newUsage, true;
    }
    newUsage' := Add(newUsage, stats.value);
    AddedShare(evaluator, checks, listing, intersection, stats.value);
  }

  /** CalculateUsage; errors counts the evaluators whose failure was remembered. */
  method CalculateUsage(scopes: seq<ScopeName>, hardLimits: ResourceList, evaluators: seq<Evaluator>,
                        selectors: seq<Selector>, listing: Listing)
    returns (newUsage: ResourceList, errors: nat)
    requires forall e | e in evaluators :: e.Valid()
    ensures IsUsage(evaluators, RecountChecks(scopes, selectors), listing, hardLimits.Keys, newUsage)
    ensures errors > 0 <==> SomeFailure(evaluators, RecountChecks(scopes, selectors), listing, hardLimits.Keys)
  {
    ghost var checks := RecountChecks(scopes, selectors);
    var hardResources := ResourceNames(hardLimits);
    assert forall k :: k in hardResources <==> k in NameSet(hardResources);
    var potential := PotentialResources(evaluators, hardResources);
    var matched := Intersection(hardResources, potential);
    assert forall k :: k in matched <==> k in NameSet(matched);

    errors, newUsage := 0, map[];
    StartUsage(evaluators, checks, listing, hardLimits.Keys, matched);
    hide Progress;
    hide SomeFailure;
    for i := 0 to |evaluators|
      invariant Progress(evaluators, evaluators[..i], checks, listing, hardLimits.Keys, matched, newUsage)
      invariant errors > 0 <==> SomeFailure(evaluators[..i], checks, listing, hardLimits.Keys)
    {
      ghost var matched0, usage0 := matched, newUsage;
      var failed;
      matched, newUsage, failed := MeasureWith(evaluators[i], scopes, selectors, listing, matched, newUsage);
      Turn(evaluators, i, checks, listing, hardLimits.Keys, matched0, usage0, matched, newUsage);
      FailureTurn(evaluators, i, checks, listing, hardLimits.Keys, matched0, usage0);
      if failed {
        errors := errors + 1;
      }
    }
    assert evaluators[..|evaluators|] == evaluators;
    FinishUsage(evaluators, checks, listing, hardLimits.Keys, matched, newUsage);
    newUsage := Mask(newUsage, matched);
  }

  lemma StartUsage(es: seq<Evaluator>, checks: seq<Selector>, listing: Listing, hard: set<ResourceName>,
                   matched: seq<ResourceName>)
    requires forall k :: k in matched <==> k in hard && AnyAccepts(es, k)
    ensures Progress(es, es[..0], checks, listing, hard, matched, map[])
    ensures !SomeFailure(es[..0], checks, listing, hard)
  {
  }

  lemma FinishUsage(es: seq<Evaluator>, checks: seq<Selector>, listing: Listing, hard: set<ResourceName>,
                    matched: seq<ResourceName>, usage: ResourceList)
    requires Progress(es, es, checks, listing, hard, matched, usage)
    ensures IsUsage(es, checks, listing, hard, Only(usage, NameSet(matched)))
  {
    assert forall k :: k in matched <==> k in NameSet(matched);
  }

  // A failure not remembered yet is one for a resource that is still matched.
  lemma FailureTurn(es: seq<Evaluator>, i: nat, checks: seq<Selector>, listing: Listing, hard: set<ResourceName>,
                    matched: seq<ResourceName>, usage: ResourceList)
    requires i < |es| && Progress(es, es[..i], checks, listing, hard, matched, usage)
    ensures SomeFailure(es[..i + 1], checks, listing, hard) <==>
      || SomeFailure(es[..i], checks, listing, hard)
      || (Measured(es[i], checks, listing).None? && exists k :: k in matched && es[i].Accepts(k))
  {
    OneMore(es, i);
  }

  lemma AddedShare(e: Evaluator, checks: seq<Selector>, listing: Listing, names: seq<ResourceName>, used: ResourceList)
    requires e.Valid() && Measured(e, checks, listing).Some?
    requires used == Plus(Zeros(names), Measured(e, checks, listing).value)
    ensures forall k :: Amount(used, k) == Share(e, checks, listing, k)
    ensures forall k :: k in used ==> k in names || e.Accepts(k)
    ensures forall k | k in names :: k in used
  {
    RecountAccepted(e, checks, listing(e.groupResource).value);
  }

  lemma UnacceptedShare(e: Evaluator, checks: seq<Selector>, listing: Listing)
    requires e.Valid()
    ensures forall k | !e.Accepts(k) :: Share(e, checks, listing, k) == 0
  {
    if Measured(e, checks, listing).Some? {
      RecountAccepted(e, checks, listing(e.groupResource).value);
    }
  }

  // ----- the registry, whose Go map is listed in an arbitrary order -----

  function InOrder(evaluators: map<GroupResource, Evaluator>, order: seq<GroupResource>): seq<Evaluator>
    requires forall g | g in order :: g in evaluators
  {
    seq(|order|, i requires 0 <= i < |order| => evaluators[order[i]])
  }

  ghost predicate IsOrderOf(order: seq<GroupResource>, evaluators: map<GroupResource, Evaluator>) {
    Distinct(order) && forall g :: g in order <==> g in evaluators
  }

  function Registered(items: seq<Evaluator>): map<GroupResource, Evaluator> {
    if items == [] then map[]
    else
      var last := items[|items| - 1];
      Registered(items[..|items| - 1])[last.groupResource := last]
  }

  predicate LastOfKind(items: seq<Evaluator>, i: nat)
    requires i < |items|
  {
    forall j | i < j < |items| :: items[j].groupResource != items[i].groupResource
  }

  lemma {:induction false} RegisteredMeans(items: seq<Evaluator>)
    ensures forall g :: g in Registered(items) <==> exists e :: e in items && e.groupResource == g
    ensures forall i | 0 <= i < |items| && LastOfKind(items, i) :: Registered(items)[items[i].groupResource] == items[i]
    ensures forall g | g in Registered(items) ::
      Registered(items)[g].groupResource == g && Registered(items)[g] in items
  {
    if items != [] {
      var front := items[..|items| - 1];
      RegisteredMeans(front);
      assert items == front + [items[|items| - 1]];
      forall i | 0 <= i < |front| && LastOfKind(items, i) ensures LastOfKind(front, i) {
      }
    }
  }

  class SimpleRegistry {
    var evaluators: map<GroupResource, Evaluator>

    ghost predicate Valid()
      reads this
    {
      forall g | g in evaluators :: evaluators[g].groupResource == g && evaluators[g].Valid()
    }

    // A later evaluator for the same kind replaces an earlier one.
    constructor (items: seq<Evaluator>)
      requires forall e | e in items :: e.Valid()
      ensures Valid()
      ensures forall g :: g in evaluators <==> exists e :: e in items && e.groupResource == g
      ensures forall i | 0 <= i < |items| && LastOfKind(items, i) :: evaluators[items[i].groupResource] == items[i]
    {
      var result: map<GroupResource, Evaluator> := map[];
      for i := 0 to |items|
        invariant result == Registered(items[..i])
      {
        assert items[..i + 1][..i] == items[..i];
        result := result[items[i].groupResource := items[i]];
      }
      assert items[..|items|] == items;
      RegisteredMeans(items);
      evaluators := result;
    }

    method Add(e: Evaluator)
      requires Valid() && e.Valid()
      modifies this
      ensures Valid() && evaluators == old(evaluators)[e.groupResource := e]
    {
      evaluators := evaluators[e.groupResource := e];
    }

    method Remove(e: Evaluator)
      requires Valid()
      modifies this
      ensures Valid() && evaluators == old(evaluators) - {e.groupResource}
    {
      evaluators := evaluators - {e.groupResource};
    }

    method Get(g: GroupResource) returns (e: Option<Evaluator>)
      ensures e == if g in evaluators then Some(evaluators[g]) else None
    {
      if g in evaluators {
        return Some(evaluators[g]);
      }
      return None;
    }

    method List() returns (result: seq<Evaluator>)
      requires Valid()
      ensures exists order :: IsOrderOf(order, evaluators) && result == InOrder(evaluators, order)
    {
      result := [];
      ghost var order: seq<GroupResource> := [];
      var keys := evaluators.Keys;
      while keys != {}
        invariant keys <= evaluators.Keys
        invariant Distinct(order) && forall g :: g in order <==> g in evaluators.Keys - keys
        invariant result == InOrder(evaluators, order)
        decreases keys
      {
        var g :| g in keys;
        assert g !in order;
        result := result + [evaluators[g]];
        order := order + [g];
        keys := keys - {g};
      }
      assert IsOrderOf(order, evaluators);
    }
  }

  lemma {:induction false} SumInOrder(evaluators: map<GroupResource, Evaluator>, order: seq<GroupResource>,
                                      f: Evaluator -> int)
    requires forall g | g in order :: g in evaluators
    ensures Sum(InOrder(evaluators, order), f) == Sum(order, g => if g in evaluators then f(evaluators[g]) else 0)
  {
    if order != [] {
      SumInOrder(evaluators, order[1..], f);
      assert InOrder(evaluators, order)[1..] == InOrder(evaluators, order[1..]);
    }
  }

  /**
   However the registry's map happens to be listed, a namespace's usage is the same list and
   fails in the same situations, also when some of the evaluators fail.
   */
  lemma UsageInAnyOrder(evaluators: map<GroupResource, Evaluator>, order: seq<GroupResource>,
                        order': seq<GroupResource>, checks: seq<Selector>, listing: Listing,
                        hard: set<ResourceName>, usage: ResourceList, usage': ResourceList)
    requires IsOrderOf(order, evaluators) && IsOrderOf(order', evaluators)
    requires IsUsage(InOrder(evaluators, order), checks, listing, hard, usage)
    requires IsUsage(InOrder(evaluators, order'), checks, listing, hard, usage')
    ensures usage == usage'
    ensures SomeFailure(InOrder(evaluators, order), checks, listing, hard)
       <==> SomeFailure(InOrder(evaluators, order'), checks, listing, hard)
  {
    SameMembers(evaluators, order, order');
    forall k ensures k in usage <==> k in usage' {
      SameMeasurable(InOrder(evaluators, order), InOrder(evaluators, order'), checks, listing, k);
    }
    forall k | k in usage ensures usage[k] == usage'[k] {
      var f := e => Share(e, checks, listing, k);
      SumInOrder(evaluators, order, f);
      SumInOrder(evaluators, order', f);
      SumAnyOrder(order, order', g => if g in evaluators then f(evaluators[g]) else 0);
    }
  }

  lemma SameMeasurable(es: seq<Evaluator>, es': seq<Evaluator>, checks: seq<Selector>, listing: Listing,
                       k: ResourceName)
    requires forall e :: e in es <==> e in es'
    ensures Measurable(es, checks, listing, k) <==> Measurable(es', checks, listing, k)
  {
  }

  lemma SameMembers(evaluators: map<GroupResource, Evaluator>, order: seq<GroupResource>, order': seq<GroupResource>)
    requires IsOrderOf(order, evaluators) && IsOrderOf(order', evaluators)
    ensures forall e :: e in InOrder(evaluators, order) <==> e in InOrder(evaluators, order')
  {
    forall e | e in InOrder(evaluators, order) ensures e in InOrder(evaluators, order') {
      var i :| 0 <= i < |order| && evaluators[order[i]] == e;
      assert order[i] in order';
      var j :| 0 <= j < |order'| && order'[j] == order[i];
      assert InOrder(evaluators, order')[j] == e;
    }
    forall e | e in InOrder(evaluators, order') ensures e in InOrder(evaluators, order) {
      var i :| 0 <= i < |order'| && evaluators[order'[i]] == e;
      assert order'[i] in order;
      var j :| 0 <= j < |order| && order[j] == order'[i];
      assert InOrder(evaluators, order)[j] == e;
    }
  }
}
