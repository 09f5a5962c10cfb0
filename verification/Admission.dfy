/** The admission decision for one request against the quotas of its account. */
module Admission {
  import opened Names
  import opened ResourceLists
  import opened Objects
  import opened Evaluators

  /** A quota as admission sees it: the account-wide totals, under the namespace of the request. */
  datatype Quota = Quota(
    name: string,
    version: nat,
    namespace: string,
    scopes: seq<ScopeName>,
    selectors: seq<Selector>,
    hard: ResourceList,
    used: ResourceList)

  // The order in which a batch takes the locks of its quotas, and then checks them.
  function SortedByName(quotas: seq<Quota>): seq<Quota> {
    Sort(quotas, (q: Quota) => q.name)
  }

  // The previous object of an update; persisted when it carries a resource version.
  datatype Previous = NoPrevious | Existing(before: Object, persisted: bool)

  datatype Request = Request(
    kind: GroupResource,
    operation: Operation,
    item: Object,
    previous: Previous,
    dryRun: bool)

  datatype Reason =
    | ScopeUnreadable
    | MissingConstraints(quota: string)
    | StatusUnknown(quota: string)
    | UsageUnreadable
    | NegativeUsage
    | PreviousMissing
    | Exceeded(quota: string)
    | ReadFailed
    | WriteFailed

  datatype Decision = Admitted(quotas: seq<Quota>) | Refused(reason: Reason)

  // ----- one quota -----

  function AdmissionChecks(q: Quota): seq<Selector> {
    seq(|q.scopes|, i requires 0 <= i < |q.scopes| => Selector(q.scopes[i], Exists, [])) + q.selectors
  }

  function Restricted(e: Evaluator, q: Quota): set<ResourceName> {
    set k | k in q.hard && e.Accepts(k)
  }

  predicate HasUsageStats(q: Quota, restricted: set<ResourceName>) {
    forall k | k in q.hard && k in restricted :: k in q.used
  }

  datatype Screening = Skipped | Interesting | Fault(reason: Reason)

  function Screen(e: Evaluator, q: Quota, o: Object): Screening {
    match AllMatch(e, AdmissionChecks(q), o)
    case None => Fault(ScopeUnreadable)
    case Some(inScope) =>
      if Restricted(e, q) == {} || !inScope then Skipped
      else if !e.constraints(Restricted(e, q), o) then Fault(MissingConstraints(q.name))
      else if !HasUsageStats(q, Restricted(e, q)) then Fault(StatusUnknown(q.name))
      else Interesting
  }

  // Every name the request touches and the quota limits stays within the limit.
  predicate Fits(q: Quota, delta: ResourceList) {
    forall k | k in delta && k in q.hard :: Amount(q.used, k) + delta[k] <= q.hard[k]
  }

  function Charge(q: Quota, delta: ResourceList): Quota {
    q.(used := Plus(q.used, Only(delta, q.hard.Keys)))
  }

  // ----- the whole request -----

  datatype Delta = Delta(amounts: ResourceList) | NoDelta(reason: Reason)

  // What the request adds: its usage, or on an update of a stored object the increase over before.
  function DeltaOf(e: Evaluator, r: Request): Delta {
    match e.usage(r.item)
    case None => NoDelta(UsageUnreadable)
    case Some(usage) =>
      if !Nonnegative(usage) then NoDelta(NegativeUsage)
      else if r.operation != Update then Delta(usage)
      else match r.previous {
        case NoPrevious => NoDelta(PreviousMissing)
        case Existing(old_, persisted) =>
          if !persisted then Delta(usage)
          else match e.usage(old_) {
            case None => NoDelta(UsageUnreadable)
            case Some(earlier) => Delta(Monus(usage, earlier))
          }
      }
  }

  predicate NoChange(delta: ResourceList) {
    forall k | k in delta :: delta[k] == 0
  }

  function FirstFault(e: Evaluator, quotas: seq<Quota>, o: Object): Option<Reason> {
    if quotas == [] then None
    else if Screen(e, quotas[0], o).Fault? then Some(Screen(e, quotas[0], o).reason)
    else FirstFault(e, quotas[1..], o)
  }

  predicate Overruns(e: Evaluator, q: Quota, o: Object, delta: ResourceList) {
    Screen(e, q, o) == Interesting && !Fits(q, delta)
  }

  function FirstOverrun(e: Evaluator, quotas: seq<Quota>, o: Object, delta: ResourceList): Option<string> {
    if quotas == [] then None
    else if Overruns(e, quotas[0], o, delta) then Some(quotas[0].name)
    else FirstOverrun(e, quotas[1..], o, delta)
  }

  function ChargeInteresting(e: Evaluator, q: Quota, o: Object, delta: ResourceList): Quota {
    if Screen(e, q, o) == Interesting then Charge(q, delta) else q
  }

  function ChargeAll(e: Evaluator, quotas: seq<Quota>, o: Object, delta: ResourceList): seq<Quota> {
    seq(|quotas|, i requires 0 <= i < |quotas| => ChargeInteresting(e, quotas[i], o, delta))
  }

  // The specification of CheckRequest.
  function Decide(e: Evaluator, quotas: seq<Quota>, r: Request): Decision {
    if !e.handles(r.operation) then Admitted(quotas)
    else match FirstFault(e, quotas, r.item)
      case Some(reason) => Refused(reason)
      case None =>
        match DeltaOf(e, r)
        case NoDelta(reason) => Refused(reason)
        case Delta(delta) =>
          if NoChange(delta) then Admitted(quotas)
          else match FirstOverrun(e, quotas, r.item, delta)
            case Some(name) => Refused(Exceeded(name))
            case None => Admitted(ChargeAll(e, quotas, r.item, delta))
  }

  // ----- what the decision means -----

  lemma {:induction false} FirstFaultNone(e: Evaluator, quotas: seq<Quota>, o: Object)
    ensures FirstFault(e, quotas, o).None? <==> forall i | 0 <= i < |quotas| :: !Screen(e, quotas[i], o).Fault?
  {
    if quotas != [] {
      FirstFaultNone(e, quotas[1..], o);
      assert forall i | 0 < i < |quotas| :: quotas[i] == quotas[1..][i - 1];
    }
  }

  lemma {:induction false} FirstOverrunNone(e: Evaluator, quotas: seq<Quota>, o: Object, delta: ResourceList)
    ensures FirstOverrun(e, quotas, o, delta).None? <==>
      forall i | 0 <= i < |quotas| :: !Overruns(e, quotas[i], o, delta)
  {
    if quotas != [] {
      FirstOverrunNone(e, quotas[1..], o, delta);
      assert forall i | 0 < i < |quotas| :: quotas[i] == quotas[1..][i - 1];
    }
  }

  /**
   When a handled request is admitted: no quota is faulty, and a nonzero delta fits every
   quota that applies. Nothing else matters, not even the order of the quotas.
   */
  lemma AdmittedExactly(e: Evaluator, quotas: seq<Quota>, r: Request)
    requires e.handles(r.operation)
    ensures Decide(e, quotas, r).Admitted? <==>
      && (forall i | 0 <= i < |quotas| :: !Screen(e, quotas[i], r.item).Fault?)
      && DeltaOf(e, r).Delta?
      && (NoChange(DeltaOf(e, r).amounts) ||
          forall i | 0 <= i < |quotas| ::
            Screen(e, quotas[i], r.item) == Interesting ==> Fits(quotas[i], DeltaOf(e, r).amounts))
  {
    FirstFaultNone(e, quotas, r.item);
    if DeltaOf(e, r).Delta? {
      FirstOverrunNone(e, quotas, r.item, DeltaOf(e, r).amounts);
    }
  }

  // A plain scope of the quota, asked for as existing, or one of its selectors is answered in this way.
  ghost predicate SomeCheck(e: Evaluator, q: Quota, o: Object, answer: Option<bool>) {
    || (exists scope | scope in q.scopes :: e.scopeMatches(Selector(scope, Exists, []), o) == answer)
    || (exists s | s in q.selectors :: e.scopeMatches(s, o) == answer)
  }

  /**
   How a quota stands to an object, from the evaluator's own answers: a scope that cannot be read is
   a fault; otherwise the quota is skipped when a scope does not match or it limits nothing that is
   measured; otherwise an object that lacks what the limited resources oblige it to is a fault, and
   so is a limited and measured resource without a usage number.
   */
  lemma ScreenExactly(e: Evaluator, q: Quota, o: Object)
    ensures var counted := set k | k in q.hard && k in e.matchingResources([k]);
      var skipped := SomeCheck(e, q, o, Some(false)) || counted == {};
      && (Screen(e, q, o) == Fault(ScopeUnreadable) <==> SomeCheck(e, q, o, None))
      && (Screen(e, q, o) == Skipped <==> !SomeCheck(e, q, o, None) && skipped)
      && (Screen(e, q, o) == Fault(MissingConstraints(q.name)) <==>
            !SomeCheck(e, q, o, None) && !skipped && !e.constraints(counted, o))
      && (Screen(e, q, o) == Fault(StatusUnknown(q.name)) <==>
            && !SomeCheck(e, q, o, None) && !skipped && e.constraints(counted, o)
            && exists k :: k in counted && k !in q.used)
      && (Screen(e, q, o) == Interesting <==>
            && !SomeCheck(e, q, o, None) && !skipped && e.constraints(counted, o)
            && forall k :: k in counted ==> k in q.used)
  {
    var counted := set k | k in q.hard && k in e.matchingResources([k]);
    assert Restricted(e, q) == counted;
    SomeCheckIs(e, q, o, None);
    SomeCheckIs(e, q, o, Some(false));
    assert AllMatch(e, AdmissionChecks(q), o).None? <==> SomeCheck(e, q, o, None);
    hide SomeCheck;
    var checks := AdmissionChecks(q);
    if AllMatch(e, checks, o) == Some(false) {
      var i :| 0 <= i < |checks| && e.scopeMatches(checks[i], o) != Some(true);
      match e.scopeMatches(checks[i], o) {
        case None =>
        case Some(answer) => assert !answer;
      }
    }
  }

  lemma SomeCheckIs(e: Evaluator, q: Quota, o: Object, answer: Option<bool>)
    ensures SomeCheck(e, q, o, answer) <==>
      exists i :: 0 <= i < |AdmissionChecks(q)| && e.scopeMatches(AdmissionChecks(q)[i], o) == answer
  {
    var checks := AdmissionChecks(q);
    assert forall i | 0 <= i < |q.scopes| :: checks[i] == Selector(q.scopes[i], Exists, []) && q.scopes[i] in q.scopes;
    assert forall i | 0 <= i < |q.selectors| :: checks[|q.scopes| + i] == q.selectors[i];
    assert forall i | |q.scopes| <= i < |checks| :: checks[i] == q.selectors[i - |q.scopes|];
  }

  /**
   What a request adds: an object whose usage cannot be read or is negative is refused; a create,
   and an update of an object that was never stored, add the object's usage; an update of a stored
   object adds under every name what the usage rose by, and nothing where it fell.
   */
  lemma DeltaExactly(e: Evaluator, r: Request)
    ensures e.usage(r.item) == None ==> DeltaOf(e, r) == NoDelta(UsageUnreadable)
    ensures e.usage(r.item).Some? && (exists k :: k in e.usage(r.item).value && e.usage(r.item).value[k] < 0) ==>
      DeltaOf(e, r) == NoDelta(NegativeUsage)
    ensures e.usage(r.item).Some? && (forall k :: k in e.usage(r.item).value ==> e.usage(r.item).value[k] >= 0) ==>
      var usage := e.usage(r.item).value;
      && (r.operation != Update || (r.previous.Existing? && !r.previous.persisted) ==> DeltaOf(e, r) == Delta(usage))
      && (r.operation == Update && r.previous == NoPrevious ==> DeltaOf(e, r) == NoDelta(PreviousMissing))
      && (r.operation == Update && r.previous.Existing? && r.previous.persisted ==>
            if e.usage(r.previous.before) == None then DeltaOf(e, r) == NoDelta(UsageUnreadable)
            else
              && DeltaOf(e, r).Delta?
              && forall k ::
                   var rise := Amount(usage, k) - Amount(e.usage(r.previous.before).value, k);
                   Amount(DeltaOf(e, r).amounts, k) == if k in usage && rise > 0 then rise else 0)
  {
  }

  // Charging it would put a limited name that the request touches over its limit.
  ghost predicate WouldExceed(q: Quota, delta: ResourceList) {
    exists k :: k in delta && k in q.hard && Amount(q.used, k) + delta[k] > q.hard[k]
  }

  lemma OverrunsExactly(e: Evaluator, q: Quota, o: Object, delta: ResourceList)
    ensures Overruns(e, q, o, delta) <==> Screen(e, q, o) == Interesting && WouldExceed(q, delta)
  {
  }

  // The first faulty quota.
  ghost predicate FaultsFirst(e: Evaluator, quotas: seq<Quota>, o: Object, i: nat) {
    && i < |quotas| && Screen(e, quotas[i], o).Fault?
    && forall j | 0 <= j < i :: !Screen(e, quotas[j], o).Fault?
  }

  lemma {:induction false} FaultAt(e: Evaluator, quotas: seq<Quota>, o: Object, i: nat)
    requires FaultsFirst(e, quotas, o, i)
    ensures FirstFault(e, quotas, o) == Some(Screen(e, quotas[i], o).reason)
  {
    if i > 0 {
      assert !Screen(e, quotas[0], o).Fault?;
      FaultAt(e, quotas[1..], o, i - 1);
    }
  }

  lemma SomeFaultsFirst(e: Evaluator, quotas: seq<Quota>, o: Object) returns (i: nat)
    requires FirstFault(e, quotas, o).Some?
    ensures FaultsFirst(e, quotas, o, i)
  {
    FirstFaultNone(e, quotas, o);
    i := 0;
    while !Screen(e, quotas[i], o).Fault?
      invariant i < |quotas| && forall j | 0 <= j < i :: !Screen(e, quotas[j], o).Fault?
      decreases |quotas| - i
    {
      i := i + 1;
    }
  }

  /**
   Why a handled request is refused: by the fault of the first quota that has one; without a fault
   because its delta is unknown; and with a delta that is not zero because the first quota that it
   would exceed says so, in this order.
   */
  lemma RefusedExactly(e: Evaluator, quotas: seq<Quota>, r: Request, reason: Reason)
    requires e.handles(r.operation)
    ensures Decide(e, quotas, r) == Refused(reason) <==>
      var noFault := forall j | 0 <= j < |quotas| :: !Screen(e, quotas[j], r.item).Fault?;
      || (exists i: nat :: FaultsFirst(e, quotas, r.item, i) && Screen(e, quotas[i], r.item) == Fault(reason))
      || (noFault && DeltaOf(e, r) == NoDelta(reason))
      || (noFault && DeltaOf(e, r).Delta?
          && var delta := DeltaOf(e, r).amounts;
             && (exists k :: k in delta && delta[k] != 0)
             && exists i :: 0 <= i < |quotas| && reason == Exceeded(quotas[i].name)
                  && Overruns(e, quotas[i], r.item, delta)
                  && forall j | 0 <= j < i :: !Overruns(e, quotas[j], r.item, delta))
  {
    FirstFaultNone(e, quotas, r.item);
    hide FaultsFirst;
    hide Screen;
    hide DeltaOf;
    hide Overruns;
    hide ChargeAll;
    forall i: nat | FaultsFirst(e, quotas, r.item, i) { FaultAt(e, quotas, r.item, i); }
    if FirstFault(e, quotas, r.item).Some? {
      var i := SomeFaultsFirst(e, quotas, r.item);
    }
    if DeltaOf(e, r).Delta? {
      FirstOverrunAt(e, quotas, r.item, DeltaOf(e, r).amounts);
    }
  }

  lemma {:induction false} FirstOverrunAt(e: Evaluator, quotas: seq<Quota>, o: Object, delta: ResourceList)
    ensures FirstOverrun(e, quotas, o, delta).Some? ==>
      exists i :: 0 <= i < |quotas| && FirstOverrun(e, quotas, o, delta) == Some(quotas[i].name)
        && Overruns(e, quotas[i], o, delta) && forall j | 0 <= j < i :: !Overruns(e, quotas[j], o, delta)
    ensures forall i | 0 <= i < |quotas| && Overruns(e, quotas[i], o, delta)
              && (forall j | 0 <= j < i :: !Overruns(e, quotas[j], o, delta)) ::
      FirstOverrun(e, quotas, o, delta) == Some(quotas[i].name)
  {
    forall i | 0 <= i < |quotas| && Overruns(e, quotas[i], o, delta)
               && (forall j | 0 <= j < i :: !Overruns(e, quotas[j], o, delta))
      ensures FirstOverrun(e, quotas, o, delta) == Some(quotas[i].name)
    {
      OverrunAt(e, quotas, o, delta, i);
    }
    FirstOverrunNone(e, quotas, o, delta);
    if FirstOverrun(e, quotas, o, delta).Some? {
      var i := LeastOverrun(e, quotas, o, delta);
    }
  }

  lemma {:induction false} LeastOverrun(e: Evaluator, quotas: seq<Quota>, o: Object, delta: ResourceList)
    returns (i: nat)
    requires exists j :: 0 <= j < |quotas| && Overruns(e, quotas[j], o, delta)
    ensures i < |quotas| && Overruns(e, quotas[i], o, delta)
    ensures forall j | 0 <= j < i :: !Overruns(e, quotas[j], o, delta)
  {
    i := 0;
    while !Overruns(e, quotas[i], o, delta)
      invariant i < |quotas| && forall j | 0 <= j < i :: !Overruns(e, quotas[j], o, delta)
      decreases |quotas| - i
    {
      i := i + 1;
    }
  }

  // Nothing but the usage numbers differs.
  predicate SameQuota(q: Quota, q': Quota) {
    q' == q.(used := q'.used)
  }

  predicate SameQuotas(quotas: seq<Quota>, quotas': seq<Quota>) {
    |quotas| == |quotas'| && forall i | 0 <= i < |quotas| :: SameQuota(quotas[i], quotas'[i])
  }

  // The owner's part of a quota: what it is called, which objects it covers, and what it limits.
  predicate SameTerms(q: Quota, q': Quota) {
    q'.name == q.name && q'.scopes == q.scopes && q'.selectors == q.selectors && q'.hard == q.hard
  }

  // Usage only grows, and whatever grew is limited and within its limit.
  ghost predicate GrewWithinHard(q: Quota, q': Quota) {
    forall k ::
      && Amount(q.used, k) <= Amount(q'.used, k)
      && (Amount(q.used, k) < Amount(q'.used, k) ==> k in q.hard && Amount(q'.used, k) <= q.hard[k])
  }

  /** An admitted request never pushes usage over a limit, and touches nothing but usage, in place. */
  lemma AdmittedGrowsWithinHard(e: Evaluator, quotas: seq<Quota>, r: Request)
    requires Decide(e, quotas, r).Admitted?
    ensures SameQuotas(quotas, Decide(e, quotas, r).quotas)
    ensures forall i | 0 <= i < |quotas| :: GrewWithinHard(quotas[i], Decide(e, quotas, r).quotas[i])
  {
    if e.handles(r.operation) {
      AdmittedExactly(e, quotas, r);
      DeltaNonnegative(e, r);
      forall i | 0 <= i < |quotas| ensures GrewWithinHard(quotas[i], Decide(e, quotas, r).quotas[i]) {
        var q := quotas[i];
        var delta := DeltaOf(e, r).amounts;
        if !NoChange(delta) && Screen(e, q, r.item) == Interesting {
          ChargeWithinHard(q, delta);
        }
      }
    }
  }

  lemma DeltaNonnegative(e: Evaluator, r: Request)
    ensures DeltaOf(e, r).Delta? ==> Nonnegative(DeltaOf(e, r).amounts)
  {
  }

  lemma ChargeWithinHard(q: Quota, delta: ResourceList)
    requires Nonnegative(delta) && Fits(q, delta)
    ensures GrewWithinHard(q, Charge(q, delta))
  {
    forall k
      ensures Amount(Charge(q, delta).used, k) == Amount(q.used, k) + if k in q.hard then Amount(delta, k) else 0
    {
    }
  }

  // ----- the implementation -----

  method Matches(e: Evaluator, q: Quota, item: Object) returns (r: Option<bool>)
    requires e.Valid()
    ensures r == match AllMatch(e, AdmissionChecks(q), item)
                 case None => None
                 case Some(inScope) => Some(Restricted(e, q) != {} && inScope)
  {
    var names := ResourceNames(q.hard);
    var matched := e.matchingResources(names);
    e.MatchingNames(names);
    assert forall k :: k in matched <==> k in Restricted(e, q) by {
      assert forall k :: k in names <==> k in NameSet(names);
    }
    var matchResource := |matched| > 0;
    assert matchResource <==> Restricted(e, q) != {} by {
      if matchResource { assert matched[0] in matched; }
    }
    var checks := AdmissionChecks(q);
    var matchScope := true;
    for i := 0 to |checks|
      invariant forall j | 0 <= j < i :: e.scopeMatches(checks[j], item).Some?
      invariant matchScope <==> forall j | 0 <= j < i :: e.scopeMatches(checks[j], item) == Some(true)
    {
      var inner := e.scopeMatches(checks[i], item);
      if inner.None? {
        return None;
      }
      matchScope := matchScope && inner.value;
    }
    return Some(matchResource && matchScope);
  }

  // The increasing list of the numbers below upTo that are chosen.
  ghost predicate Lists(indexes: seq<nat>, chosen: nat -> bool, upTo: nat) {
    && (forall n, m | 0 <= n < m < |indexes| :: indexes[n] < indexes[m])
    && (forall j :: j in indexes <==> 0 <= j < upTo && chosen(j))
  }

  lemma ListsOneMore(indexes: seq<nat>, chosen: nat -> bool, upTo: nat)
    requires Lists(indexes, chosen, upTo)
    ensures Lists(if chosen(upTo) then indexes + [upTo] else indexes, chosen, upTo + 1)
  {
    assert forall n | 0 <= n < |indexes| :: indexes[n] in indexes;
  }

  function IsInteresting(e: Evaluator, quotas: seq<Quota>, o: Object): nat -> bool {
    (j: nat) => j < |quotas| && Screen(e, quotas[j], o) == Interesting
  }

  ghost predicate InterestingIndexes(e: Evaluator, quotas: seq<Quota>, o: Object, upTo: nat, indexes: seq<nat>) {
    Lists(indexes, IsInteresting(e, quotas, o), upTo)
  }

  lemma {:induction false} OverrunAt(e: Evaluator, quotas: seq<Quota>, o: Object, delta: ResourceList, i: nat)
    requires i < |quotas| && Overruns(e, quotas[i], o, delta)
    requires forall j | 0 <= j < i :: !Overruns(e, quotas[j], o, delta)
    ensures FirstOverrun(e, quotas, o, delta) == Some(quotas[i].name)
  {
    if i > 0 {
      assert !Overruns(e, quotas[0], o, delta);
      OverrunAt(e, quotas[1..], o, delta, i - 1);
    }
  }

  // One round of the first loop: does the quota apply, and may it be charged?
  method ScreenOne(e: Evaluator, q: Quota, o: Object) returns (screening: Screening)
    requires e.Valid()
    ensures screening == Screen(e, q, o)
  {
    var matches := Matches(e, q, o);
    if matches.None? {
      return Fault(ScopeUnreadable);
    }
    if !matches.value {
      return Skipped;
    }
    var restricted := Restricted(e, q);
    if !e.constraints(restricted, o) {
      return Fault(MissingConstraints(q.name));
    }
    if !HasUsageStats(q, restricted) {
      return Fault(StatusUnknown(q.name));
    }
    return Interesting;
  }

  lemma {:induction false} FirstFaultAppend(e: Evaluator, quotas: seq<Quota>, q: Quota, o: Object)
    ensures FirstFault(e, quotas + [q], o) ==
      if FirstFault(e, quotas, o).Some? then FirstFault(e, quotas, o)
      else match Screen(e, q, o) case Fault(reason) => Some(reason) case _ => None
  {
    if quotas == [] {
      assert [q][1..] == [];
    } else {
      FirstFaultAppend(e, quotas[1..], q, o);
      assert (quotas + [q])[1..] == quotas[1..] + [q];
    }
  }

  lemma {:induction false} FirstFaultStays(e: Evaluator, quotas: seq<Quota>, n: nat, o: Object)
    requires n <= |quotas| && FirstFault(e, quotas[..n], o).Some?
    ensures FirstFault(e, quotas, o) == FirstFault(e, quotas[..n], o)
  {
    if n > 0 && !Screen(e, quotas[0], o).Fault? {
      assert quotas[..n][1..] == quotas[1..][..n - 1];
      FirstFaultStays(e, quotas[1..], n - 1, o);
    }
  }

  // The first loop of CheckRequest: which quotas apply, or the first fault.
  method FindInteresting(e: Evaluator, quotas: seq<Quota>, o: Object) returns (fault: Option<Reason>, indexes: seq<nat>)
    requires e.Valid()
    ensures fault == FirstFault(e, quotas, o)
    ensures fault.None? ==> InterestingIndexes(e, quotas, o, |quotas|, indexes)
  {
    indexes := [];
    ghost var chosen := IsInteresting(e, quotas, o);
    for i := 0 to |quotas|
      invariant FirstFault(e, quotas[..i], o) == None
      invariant Lists(indexes, chosen, i)
    {
      var screening := ScreenOne(e, quotas[i], o);
      FirstFaultAppend(e, quotas[..i], quotas[i], o);
      assert quotas[..i + 1] == quotas[..i] + [quotas[i]];
      if screening.Fault? {
        FirstFaultStays(e, quotas, i + 1, o);
        return Some(screening.reason), [];
      }
      assert chosen(i) <==> screening == Interesting;
      ListsOneMore(indexes, chosen, i);
      if screening == Interesting {
        indexes := indexes + [i];
      }
    }
    assert quotas[..|quotas|] == quotas;
    return None, indexes;
  }

  // One round of the last loop: the new usage under the requested names must stay within hard.
  method ChargeOne(q: Quota, delta: ResourceList) returns (charged: Option<Quota>)
    ensures charged == if Fits(q, delta) then Some(Charge(q, delta)) else None
  {
    var hardResources := ResourceNames(q.hard);
    var requested := Mask(delta, hardResources);
    var newUsage := Add(q.used, requested);
    var requestedNames := ResourceNames(requested);
    var masked := Mask(newUsage, requestedNames);
    var allowed, exceeded := LessThanOrEqual(masked, q.hard);
    MaskedWithin(q, delta, masked);
    return if allowed then Some(q.(used := newUsage)) else None;
  }

  // The copy of the quotas in which those numbered in done have been charged.
  function Touched(quotas: seq<Quota>, done: seq<nat>, charge: Quota -> Quota): seq<Quota> {
    seq(|quotas|, j requires 0 <= j < |quotas| => if j in done then charge(quotas[j]) else quotas[j])
  }

  lemma TouchedOneMore(quotas: seq<Quota>, done: seq<nat>, charge: Quota -> Quota, index: nat)
    requires index < |quotas| && index !in done
    ensures Touched(quotas, done, charge)[index] == quotas[index]
    ensures Touched(quotas, done + [index], charge) == Touched(quotas, done, charge)[index := charge(quotas[index])]
  {
    assert forall j: nat :: j in done + [index] <==> j in done || j == index;
  }

  predicate AllFit(quotas: seq<Quota>, done: seq<nat>, delta: ResourceList) {
    forall j | j in done :: j < |quotas| && Fits(quotas[j], delta)
  }

  lemma OverrunFound(e: Evaluator, quotas: seq<Quota>, o: Object, indexes: seq<nat>, delta: ResourceList, n: nat)
    requires InterestingIndexes(e, quotas, o, |quotas|, indexes) && n < |indexes|
    requires AllFit(quotas, indexes[..n], delta)
    requires indexes[n] < |quotas| && !Fits(quotas[indexes[n]], delta)
    ensures FirstOverrun(e, quotas, o, delta) == Some(quotas[indexes[n]].name)
  {
    var index, interesting := indexes[n], IsInteresting(e, quotas, o);
    assert index in indexes && interesting(index);
    forall j | 0 <= j < index ensures !Overruns(e, quotas[j], o, delta) {
      if interesting(j) {
        assert j in indexes;
        var m :| 0 <= m < |indexes| && indexes[m] == j;
        assert m < n && indexes[..n][m] == j;
      }
    }
    OverrunAt(e, quotas, o, delta, index);
  }

  lemma AllCharged(e: Evaluator, quotas: seq<Quota>, o: Object, indexes: seq<nat>, delta: ResourceList)
    requires InterestingIndexes(e, quotas, o, |quotas|, indexes) && AllFit(quotas, indexes, delta)
    ensures FirstOverrun(e, quotas, o, delta) == None
    ensures Touched(quotas, indexes, q => Charge(q, delta)) == ChargeAll(e, quotas, o, delta)
  {
    var interesting := IsInteresting(e, quotas, o);
    assert forall j | 0 <= j < |quotas| :: interesting(j) <==> j in indexes;
    FirstOverrunNone(e, quotas, o, delta);
  }

  // The last loop of CheckRequest: charge the interesting quotas of a copy, one after the other.
  method ChargeQuotas(e: Evaluator, quotas: seq<Quota>, o: Object, indexes: seq<nat>, delta: ResourceList)
    returns (d: Decision)
    requires InterestingIndexes(e, quotas, o, |quotas|, indexes)
    ensures d == match FirstOverrun(e, quotas, o, delta)
                 case Some(name) => Refused(Exceeded(name))
                 case None => Admitted(ChargeAll(e, quotas, o, delta))
  {
    var out := quotas;
    ghost var charge := q => Charge(q, delta);
    assert Touched(quotas, [], charge) == quotas;
    for n := 0 to |indexes|
      invariant out == Touched(quotas, indexes[..n], charge)
      invariant AllFit(quotas, indexes[..n], delta)
    {
      var index := indexes[n];
      assert index in indexes && indexes[..n + 1] == indexes[..n] + [index];
      TouchedOneMore(quotas, indexes[..n], charge, index);
      var charged := ChargeOne(out[index], delta);
      if charged.None? {
        OverrunFound(e, quotas, o, indexes, delta, n);
        return Refused(Exceeded(quotas[index].name));
      }
      out := out[index := charged.value];
    }
    assert indexes[..|indexes|] == indexes;
    AllCharged(e, quotas, o, indexes, delta);
    return Admitted(out);
  }

  lemma MaskedWithin(q: Quota, delta: ResourceList, masked: ResourceList)
    requires masked == Only(Plus(q.used, Only(delta, q.hard.Keys)), Only(delta, q.hard.Keys).Keys)
    ensures Within(masked, q.hard) <==> Fits(q, delta)
  {
    var requested := Only(delta, q.hard.Keys);
    assert masked.Keys == requested.Keys;
    forall k | k in requested ensures masked[k] == Amount(q.used, k) + delta[k] {
    }
  }

  method CheckRequest(e: Evaluator, quotas: seq<Quota>, r: Request) returns (d: Decision)
    requires e.Valid()
    ensures d == Decide(e, quotas, r)
  {
    if !e.handles(r.operation) {
      return Admitted(quotas);
    }
    var fault, indexes := FindInteresting(e, quotas, r.item);
    if fault.Some? {
      return Refused(fault.value);
    }
    var usage := e.usage(r.item);
    if usage.None? {
      return Refused(UsageUnreadable);
    }
    var delta := usage.value;
    var negative := IsNegative(delta);
    if |negative| > 0 {
      return Refused(NegativeUsage);
    }
    if r.operation == Update {
      if r.previous.NoPrevious? {
        return Refused(PreviousMissing);
      }
      if r.previous.persisted {
        var before := e.usage(r.previous.before);
        if before.None? {
          return Refused(UsageUnreadable);
        }
        delta := SubtractWithNonNegativeResult(delta, before.value);
      }
    }
    var zero := IsZero(delta);
    if zero {
      return Admitted(quotas);
    }
    d := ChargeQuotas(e, quotas, r.item, indexes, delta);
  }
}
