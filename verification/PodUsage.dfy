/** What a pod charges to a quota, and which scopes it is in. */
module PodUsage {
  import opened Sums
  import opened ResourceLists
  import opened Objects
  import opened Pods

  // ----- resource names -----

  const REQUESTS_PREFIX := "requests."
  const LIMITS_PREFIX := "limits."
  const HUGE_PAGES_PREFIX := "hugepages-"
  const DEFAULT_NAMESPACE_PREFIX := "kubernetes.io/"
  const EPHEMERAL_STORAGE := "ephemeral-storage"
  const PODS := "pods"
  const POD_COUNT := "count/pods"
  const REQUESTS_CPU := REQUESTS_PREFIX + CPU
  const REQUESTS_MEMORY := REQUESTS_PREFIX + MEMORY
  const REQUESTS_EPHEMERAL_STORAGE := REQUESTS_PREFIX + EPHEMERAL_STORAGE
  const LIMITS_CPU := LIMITS_PREFIX + CPU
  const LIMITS_MEMORY := LIMITS_PREFIX + MEMORY
  const LIMITS_EPHEMERAL_STORAGE := LIMITS_PREFIX + EPHEMERAL_STORAGE

  predicate OccursAt(s: string, part: string, i: int) {
    0 <= i <= |s| - |part| && s[i..i + |part|] == part
  }

  predicate Contains(s: string, part: string) {
    exists i | 0 <= i <= |s| :: OccursAt(s, part, i)
  }

  predicate IsNativeResource(name: ResourceName) {
    !Contains(name, "/") || Contains(name, DEFAULT_NAMESPACE_PREFIX)
  }

  // Whether a name passes the API's qualified-name syntax is left to the caller.
  type Qualified = string -> bool

  predicate IsExtendedResourceName(name: ResourceName, qualified: Qualified) {
    !IsNativeResource(name) && !(REQUESTS_PREFIX <= name) && qualified(REQUESTS_PREFIX + name)
  }

  predicate IsExtendedResourceNameForQuota(name: ResourceName) {
    !IsNativeResource(name) && REQUESTS_PREFIX <= name
  }

  predicate Compute(name: ResourceName) {
    name == CPU || name == MEMORY || name == EPHEMERAL_STORAGE
  }

  // The names a pod evaluator measures.
  predicate PodAccepts(name: ResourceName) {
    || name == POD_COUNT
    || name == PODS
    || Compute(name)
    || name == REQUESTS_CPU || name == REQUESTS_MEMORY || name == REQUESTS_EPHEMERAL_STORAGE
    || name == LIMITS_CPU || name == LIMITS_MEMORY || name == LIMITS_EPHEMERAL_STORAGE
    || HUGE_PAGES_PREFIX <= name
    || REQUESTS_PREFIX + HUGE_PAGES_PREFIX <= name
    || IsExtendedResourceNameForQuota(name)
  }

  lemma ContainsInSuffix(prefix: string, s: string, part: string)
    requires part != [] && forall i | 0 <= i < |prefix| :: prefix[i] != part[0]
    ensures Contains(prefix + s, part) <==> Contains(s, part)
  {
    if Contains(prefix + s, part) {
      var i :| 0 <= i <= |prefix + s| && OccursAt(prefix + s, part, i);
      assert (prefix + s)[i..i + |part|][0] == part[0];
      var j := i - |prefix|;
      assert s[j..j + |part|] == (prefix + s)[i..i + |part|];
      assert OccursAt(s, part, j);
    }
    if Contains(s, part) {
      var j :| 0 <= j <= |s| && OccursAt(s, part, j);
      var i := j + |prefix|;
      assert s[j..j + |part|] == (prefix + s)[i..i + |part|];
      assert OccursAt(prefix + s, part, i);
    }
  }

  lemma ContainsExactly(s: string, part: string)
    ensures Contains(s, part) <==> exists before: string, after: string :: s == before + part + after
  {
    if Contains(s, part) {
      var i :| 0 <= i <= |s| && OccursAt(s, part, i);
      assert s == s[..i] + part + s[i + |part|..];
    }
    if before: string, after: string :| s == before + part + after {
      assert s[|before|..|before| + |part|] == part;
      assert OccursAt(s, part, |before|);
    }
  }

  /**
   An extended resource has a slash and is not one of Kubernetes' own; a container names it without
   the prefix under which a quota does.
   */
  lemma ExtendedExactly(name: ResourceName, qualified: Qualified)
    ensures var foreign :=
        && (exists before: string, after: string :: name == before + "/" + after)
        && !(exists before: string, after: string :: name == before + "kubernetes.io/" + after);
      && (IsExtendedResourceName(name, qualified) <==>
            foreign && !("requests." <= name) && qualified("requests." + name))
      && (IsExtendedResourceNameForQuota(name) <==> foreign && "requests." <= name)
  {
    ContainsExactly(name, "/");
    ContainsExactly(name, DEFAULT_NAMESPACE_PREFIX);
  }

  /** The names a quota can limit for pods. */
  lemma PodAcceptsExactly(name: ResourceName)
    ensures PodAccepts(name) <==>
      || name in ["count/pods", "pods", "cpu", "memory", "ephemeral-storage"]
      || name in ["requests.cpu", "requests.memory", "requests.ephemeral-storage"]
      || name in ["limits.cpu", "limits.memory", "limits.ephemeral-storage"]
      || "hugepages-" <= name || "requests.hugepages-" <= name
      || IsExtendedResourceNameForQuota(name)
  {
    assert REQUESTS_PREFIX + HUGE_PAGES_PREFIX == "requests.hugepages-";
    assert REQUESTS_CPU == "requests.cpu" && REQUESTS_MEMORY == "requests.memory";
    assert REQUESTS_EPHEMERAL_STORAGE == "requests.ephemeral-storage";
    assert LIMITS_CPU == "limits.cpu" && LIMITS_MEMORY == "limits.memory";
    assert LIMITS_EPHEMERAL_STORAGE == "limits.ephemeral-storage";
  }

  /** Prefixing an extended resource with "requests." never turns it into a native name. */
  lemma ExtendedStaysExtended(name: ResourceName, qualified: Qualified)
    requires IsExtendedResourceName(name, qualified)
    ensures IsExtendedResourceNameForQuota(REQUESTS_PREFIX + name)
  {
    ContainsInSuffix(REQUESTS_PREFIX, name, "/");
    ContainsInSuffix(REQUESTS_PREFIX, name, DEFAULT_NAMESPACE_PREFIX);
  }

  // ----- the compute usage of summed requests and limits -----

  function Lookup(list: ResourceList, name: ResourceName): Option<int> {
    if name in list then Some(list[name]) else None
  }

  predicate ByPrefix(name: ResourceName, qualified: Qualified) {
    HUGE_PAGES_PREFIX <= name || IsExtendedResourceName(name, qualified)
  }

  function FixedAmount(requests: ResourceList, limits: ResourceList, name: ResourceName): Option<int> {
    if name == PODS then Some(1)
    else if Compute(name) then Lookup(requests, name)
    else if name == REQUESTS_CPU then Lookup(requests, CPU)
    else if name == REQUESTS_MEMORY then Lookup(requests, MEMORY)
    else if name == REQUESTS_EPHEMERAL_STORAGE then Lookup(requests, EPHEMERAL_STORAGE)
    else if name == LIMITS_CPU then Lookup(limits, CPU)
    else if name == LIMITS_MEMORY then Lookup(limits, MEMORY)
    else if name == LIMITS_EPHEMERAL_STORAGE then Lookup(limits, EPHEMERAL_STORAGE)
    else None
  }

  function PrefixAmount(requests: ResourceList, name: ResourceName, qualified: Qualified): Option<int> {
    if HUGE_PAGES_PREFIX <= name then Lookup(requests, name)
    else if REQUESTS_PREFIX <= name && ByPrefix(name[|REQUESTS_PREFIX|..], qualified)
    then Lookup(requests, name[|REQUESTS_PREFIX|..])
    else None
  }

  // The amount charged under a name, read off the name itself.
  function ComputeAmount(requests: ResourceList, limits: ResourceList, name: ResourceName,
                         qualified: Qualified): Option<int> {
    if FixedAmount(requests, limits, name).Some? then FixedAmount(requests, limits, name)
    else PrefixAmount(requests, name, qualified)
  }

  // A name under "requests." is the prefix and what it prefixes.
  lemma PrefixedName(rest: string)
    ensures ("requests." + rest)[0] == 'r' && ("requests." + rest)[9..] == rest
    ensures forall other: string :: "requests." + rest == "requests." + other <==> rest == other
  {
    forall other: string ensures "requests." + rest == "requests." + other <==> rest == other {
      assert ("requests." + other)[9..] == other;
    }
  }

  lemma LimitName(rest: string)
    ensures ("limits." + rest)[0] == 'l' && ("limits." + rest)[7..] == rest
    ensures forall other: string :: "limits." + rest == "limits." + other <==> rest == other
  {
    forall other: string ensures "limits." + rest == "limits." + other <==> rest == other {
      assert ("limits." + other)[7..] == other;
    }
  }

  /**
   What a pod's summed requests and limits amount to, name by name: every pod counts once; cpu,
   memory and ephemeral storage count by request under two names and by limit under one.
   */
  lemma FixedAmounts(requests: ResourceList, limits: ResourceList, resource: ResourceName, qualified: Qualified)
    requires resource == "cpu" || resource == "memory" || resource == "ephemeral-storage"
    ensures ComputeAmount(requests, limits, "pods", qualified) == Some(1)
    ensures ComputeAmount(requests, limits, resource, qualified) == Lookup(requests, resource)
    ensures ComputeAmount(requests, limits, "requests." + resource, qualified) == Lookup(requests, resource)
    ensures ComputeAmount(requests, limits, "limits." + resource, qualified) == Lookup(limits, resource)
  {
    PrefixedName(resource);
    LimitName(resource);
    assert resource[0] in {'c', 'm', 'e'};
    assert PODS[0] == 'p' && CPU[0] == 'c' && MEMORY[0] == 'm' && EPHEMERAL_STORAGE[0] == 'e';
    ComputeNotByPrefix(resource, qualified);
  }

  /**
   Huge pages count by request under two names, extended resources by request under the prefixed
   name, and no other name counts.
   */
  lemma PrefixedAmounts(requests: ResourceList, limits: ResourceList, rest: string, qualified: Qualified)
    ensures ComputeAmount(requests, limits, "hugepages-" + rest, qualified) == Lookup(requests, "hugepages-" + rest)
    ensures ComputeAmount(requests, limits, "requests." + ("hugepages-" + rest), qualified)
         == Lookup(requests, "hugepages-" + rest)
    ensures IsExtendedResourceName(rest, qualified) ==>
      ComputeAmount(requests, limits, "requests." + rest, qualified) == Lookup(requests, rest)
  {
    var pages := "hugepages-" + rest;
    PrefixedName(pages);
    PrefixedName(rest);
    assert pages[0] == 'h' && HUGE_PAGES_PREFIX <= pages;
    FixedNotByPrefix(requests, limits, pages, qualified);
    if IsExtendedResourceName(rest, qualified) {
      FixedNotByPrefix(requests, limits, rest, qualified);
    }
    hide FixedAmount;
    hide IsExtendedResourceName;
  }

  lemma ComputeAmountAccepted(requests: ResourceList, limits: ResourceList, name: ResourceName, qualified: Qualified)
    requires ComputeAmount(requests, limits, name, qualified).Some?
    ensures PodAccepts(name)
  {
    if REQUESTS_PREFIX <= name {
      var rest := name[|REQUESTS_PREFIX|..];
      assert name == REQUESTS_PREFIX + rest;
      if IsExtendedResourceName(rest, qualified) {
        ExtendedStaysExtended(rest, qualified);
      }
    }
  }

  // A name that is charged by prefix is not one of the fixed names, with or without "requests.".
  lemma ComputeNotByPrefix(name: ResourceName, qualified: Qualified)
    requires Compute(name)
    ensures !ByPrefix(name, qualified)
  {
    assert forall i | 0 <= i < |name| :: name[i] != '/';
    assert name[0] != HUGE_PAGES_PREFIX[0];
    assert forall i :: OccursAt(name, "/", i) ==> name[i..i + 1][0] == name[i];
  }

  lemma FixedNotByPrefix(requests: ResourceList, limits: ResourceList, resource: ResourceName, qualified: Qualified)
    requires ByPrefix(resource, qualified)
    ensures FixedAmount(requests, limits, REQUESTS_PREFIX + resource) == None
    ensures HUGE_PAGES_PREFIX <= resource ==> FixedAmount(requests, limits, resource) == None
  {
    var name := REQUESTS_PREFIX + resource;
    assert name[|REQUESTS_PREFIX|..] == resource;
    assert name[0] == 'r';
    ComputeNotByPrefixAll(qualified);
    if HUGE_PAGES_PREFIX <= resource {
      assert resource[0] == 'h';
    }
    assert REQUESTS_CPU[|REQUESTS_PREFIX|..] == CPU;
    assert REQUESTS_MEMORY[|REQUESTS_PREFIX|..] == MEMORY;
    assert REQUESTS_EPHEMERAL_STORAGE[|REQUESTS_PREFIX|..] == EPHEMERAL_STORAGE;
  }

  lemma ComputeNotByPrefixAll(qualified: Qualified)
    ensures forall name | Compute(name) :: !ByPrefix(name, qualified)
  {
    forall name | Compute(name) ensures !ByPrefix(name, qualified) {
      ComputeNotByPrefix(name, qualified);
    }
  }

  predicate Writes(resource: ResourceName, name: ResourceName, qualified: Qualified) {
    || (HUGE_PAGES_PREFIX <= resource && name == resource)
    || (ByPrefix(resource, qualified) && name == REQUESTS_PREFIX + resource)
  }

  lemma PrefixStep(requests: ResourceList, done: set<ResourceName>, resource: ResourceName, name: ResourceName,
                   qualified: Qualified)
    requires resource in requests && resource !in done
    ensures PrefixAmount(Only(requests, done + {resource}), name, qualified) ==
      if Writes(resource, name, qualified)
      then Some(requests[resource])
      else PrefixAmount(Only(requests, done), name, qualified)
  {
    if REQUESTS_PREFIX <= name {
      assert name == REQUESTS_PREFIX + name[|REQUESTS_PREFIX|..];
      assert name[0] == 'r';
    }
    assert (REQUESTS_PREFIX + resource)[|REQUESTS_PREFIX|..] == resource;
    assert (REQUESTS_PREFIX + resource)[0] == 'r';
  }

  ghost function AmountSoFar(requests: ResourceList, limits: ResourceList, done: set<ResourceName>, name: ResourceName,
                             qualified: Qualified): Option<int>
  {
    if FixedAmount(requests, limits, name).Some? then FixedAmount(requests, limits, name)
    else PrefixAmount(Only(requests, done), name, qualified)
  }

  /** podComputeUsageHelper: fixed names first, then one pass over the requests for prefixed names. */
  method PodComputeUsageHelper(requests: ResourceList, limits: ResourceList, qualified: Qualified)
    returns (result: ResourceList)
    ensures forall name :: Lookup(result, name) == ComputeAmount(requests, limits, name, qualified)
  {
    result := FixedUsage(requests, limits);
    var names := requests.Keys;
    while names != {}
      invariant names <= requests.Keys
      invariant forall name ::
        Lookup(result, name) == AmountSoFar(requests, limits, requests.Keys - names, name, qualified)
      decreases names
    {
      var resource :| resource in names;
      ghost var done := requests.Keys - names;
      names := names - {resource};
      var request := requests[resource];
      ghost var before := result;
      if HUGE_PAGES_PREFIX <= resource {
        result := result[resource := request][REQUESTS_PREFIX + resource := request];
      }
      if IsExtendedResourceName(resource, qualified) {
        result := result[REQUESTS_PREFIX + resource := request];
      }
      assert requests.Keys - names == done + {resource};
      forall name ensures Lookup(result, name) == AmountSoFar(requests, limits, done + {resource}, name, qualified) {
        PrefixStep(requests, done, resource, name, qualified);
        if ByPrefix(resource, qualified) {
          FixedNotByPrefix(requests, limits, resource, qualified);
        }
        assert Lookup(result, name)
          == if Writes(resource, name, qualified) then Some(request) else Lookup(before, name);
      }
    }
    assert Only(requests, requests.Keys - names) == requests;
  }

  method FixedUsage(requests: ResourceList, limits: ResourceList) returns (result: ResourceList)
    ensures forall name :: Lookup(result, name) == FixedAmount(requests, limits, name)
  {
    result := map[PODS := 1];
    result := ChargeCompute(result, requests, limits, CPU);
    result := ChargeCompute(result, requests, limits, MEMORY);
    result := ChargeCompute(result, requests, limits, EPHEMERAL_STORAGE);
  }

  // The block podComputeUsageHelper repeats for cpu, memory and ephemeral storage.
  method ChargeCompute(start: ResourceList, requests: ResourceList, limits: ResourceList, name: ResourceName)
    returns (result: ResourceList)
    ensures forall n ::
      Lookup(result, n) == if (n == name || n == REQUESTS_PREFIX + name) && name in requests then Some(requests[name])
      else if n == LIMITS_PREFIX + name && name in limits then Some(limits[name])
      else Lookup(start, n)
  {
    result := start;
    assert |REQUESTS_PREFIX| == 9 && |LIMITS_PREFIX| == 7;
    if name in requests {
      result := result[name := requests[name]][REQUESTS_PREFIX + name := requests[name]];
    }
    if name in limits {
      result := result[LIMITS_PREFIX + name := limits[name]];
    }
  }

  // ----- the whole pod -----

  function Candidates(requests: ResourceList): set<ResourceName> {
    {PODS, REQUESTS_CPU, REQUESTS_MEMORY, REQUESTS_EPHEMERAL_STORAGE,
     LIMITS_CPU, LIMITS_MEMORY, LIMITS_EPHEMERAL_STORAGE}
    + requests.Keys + set r | r in requests :: REQUESTS_PREFIX + r
  }

  function ComputeUsage(requests: ResourceList, limits: ResourceList, qualified: Qualified): ResourceList {
    map n | n in Candidates(requests) && ComputeAmount(requests, limits, n, qualified).Some? ::
      ComputeAmount(requests, limits, n, qualified).value
  }

  lemma ComputeUsageLookup(requests: ResourceList, limits: ResourceList, name: ResourceName, qualified: Qualified)
    ensures Lookup(ComputeUsage(requests, limits, qualified), name) == ComputeAmount(requests, limits, name, qualified)
  {
    if REQUESTS_PREFIX <= name {
      assert name == REQUESTS_PREFIX + name[|REQUESTS_PREFIX|..];
    }
  }

  function SumOfLists(cs: seq<Container>, side: Side): ResourceList {
    if cs == [] then map[] else Plus(SumOfLists(cs[..|cs| - 1], side), side.Of(cs[|cs| - 1]))
  }

  function MaxOfLists(start: ResourceList, cs: seq<Container>, side: Side): ResourceList {
    if cs == [] then start else Larger(MaxOfLists(start, cs[..|cs| - 1], side), side.Of(cs[|cs| - 1]))
  }

  // App containers run together, init containers one after the other before them.
  function Effective(pod: Pod, side: Side): ResourceList {
    MaxOfLists(SumOfLists(pod.containers, side), pod.initContainers, side)
  }

  lemma {:induction false} SumOfListsAmount(cs: seq<Container>, side: Side, name: ResourceName)
    ensures name in SumOfLists(cs, side) <==> exists i :: 0 <= i < |cs| && name in side.Of(cs[i])
    ensures Amount(SumOfLists(cs, side), name) == Sum(cs, c => Amount(side.Of(c), name))
  {
    if cs != [] {
      var front := cs[..|cs| - 1];
      SumOfListsAmount(front, side, name);
      SumAppend(front, cs[|cs| - 1], c => Amount(side.Of(c), name));
      assert cs == front + [cs[|cs| - 1]];
    }
  }

  /**
   The effective amount is the largest of the app containers' sum and every init container that
   names the resource.
   */
  lemma {:induction false} MaxOfListsAmount(start: ResourceList, cs: seq<Container>, side: Side, name: ResourceName)
    ensures name in MaxOfLists(start, cs, side) <==>
      name in start || exists i :: 0 <= i < |cs| && name in side.Of(cs[i])
    ensures name in start ==> MaxOfLists(start, cs, side)[name] >= start[name]
    ensures forall i | 0 <= i < |cs| && name in side.Of(cs[i]) ::
      MaxOfLists(start, cs, side)[name] >= side.Of(cs[i])[name]
    ensures name in MaxOfLists(start, cs, side) ==>
      || (name in start && MaxOfLists(start, cs, side)[name] == start[name])
      || exists i ::
           0 <= i < |cs| && name in side.Of(cs[i]) && MaxOfLists(start, cs, side)[name] == side.Of(cs[i])[name]
  {
    if cs != [] {
      var front := cs[..|cs| - 1];
      MaxOfListsAmount(start, front, side, name);
      assert forall i | 0 <= i < |front| :: cs[i] == front[i];
    }
  }

  /**
   The amount a pod is charged for under a name, request by request and limit by limit: the app
   containers' sum or some init container's amount, and at least each of them.
   */
  lemma EffectiveAmount(pod: Pod, side: Side, name: ResourceName)
    ensures name in Effective(pod, side) <==>
      exists c :: c in pod.containers + pod.initContainers && name in side.Of(c)
    ensures var apps, inits := pod.containers, pod.initContainers;
      var sum := Sum(apps, c => Amount(side.Of(c), name));
      var named := exists i :: 0 <= i < |apps| && name in side.Of(apps[i]);
      name in Effective(pod, side) ==>
        && (named ==> Effective(pod, side)[name] >= sum)
        && (forall i | 0 <= i < |inits| && name in side.Of(inits[i]) ::
              Effective(pod, side)[name] >= side.Of(inits[i])[name])
        && ((named && Effective(pod, side)[name] == sum)
            || exists i :: 0 <= i < |inits| && name in side.Of(inits[i])
                 && Effective(pod, side)[name] == side.Of(inits[i])[name])
  {
    var apps, inits := pod.containers, pod.initContainers;
    SumOfListsAmount(apps, side, name);
    MaxOfListsAmount(SumOfLists(apps, side), inits, side, name);
    assert forall i | 0 <= i < |apps| :: (apps + inits)[i] == apps[i];
    assert forall i | 0 <= i < |inits| :: (apps + inits)[|apps| + i] == inits[i];
  }

  // Terminal pods and pods past their deletion grace period are not charged for compute.
  predicate QuotaV1Pod(pod: Pod, now: int) {
    && pod.phase != PodFailed && pod.phase != PodSucceeded
    && !(pod.deletionTimestamp.Some? && pod.deletionGracePeriodSeconds.Some?
         && now > pod.deletionTimestamp.value + pod.deletionGracePeriodSeconds.value)
  }

  function UsageOf(pod: Pod, now: int, qualified: Qualified): ResourceList {
    var count: ResourceList := map[POD_COUNT := 1];
    if !QuotaV1Pod(pod, now) then count
    else Plus(count, ComputeUsage(Effective(pod, Requests), Effective(pod, Limits), qualified))
  }

  // The loop over the app containers.
  method AddContainers(pod: Pod) returns (requests: ResourceList, limits: ResourceList)
    ensures requests == SumOfLists(pod.containers, Requests) && limits == SumOfLists(pod.containers, Limits)
  {
    requests, limits := map[], map[];
    for i := 0 to |pod.containers|
      invariant requests == SumOfLists(pod.containers[..i], Requests)
      invariant limits == SumOfLists(pod.containers[..i], Limits)
    {
      assert pod.containers[..i + 1][..i] == pod.containers[..i];
      requests := Add(requests, pod.containers[i].requests);
      limits := Add(limits, pod.containers[i].limits);
    }
    assert pod.containers[..|pod.containers|] == pod.containers;
  }

  method PodUsageFunc(pod: Pod, now: int, qualified: Qualified) returns (result: ResourceList)
    ensures result == UsageOf(pod, now, qualified)
  {
    result := map[POD_COUNT := 1];
    if !QuotaV1Pod(pod, now) {
      return;
    }
    var requests, limits := AddContainers(pod);
    requests, limits := RaiseToInitContainers(pod, requests, limits);
    var compute := PodComputeUsageHelper(requests, limits, qualified);
    SameLookups(compute, ComputeUsage(requests, limits, qualified), requests, limits, qualified);
    result := Add(result, compute);
  }

  // The loop over the init containers.
  method RaiseToInitContainers(pod: Pod, requests: ResourceList, limits: ResourceList)
    returns (requests': ResourceList, limits': ResourceList)
    ensures requests' == MaxOfLists(requests, pod.initContainers, Requests)
    ensures limits' == MaxOfLists(limits, pod.initContainers, Limits)
  {
    requests', limits' := requests, limits;
    for i := 0 to |pod.initContainers|
      invariant requests' == MaxOfLists(requests, pod.initContainers[..i], Requests)
      invariant limits' == MaxOfLists(limits, pod.initContainers[..i], Limits)
    {
      assert pod.initContainers[..i + 1][..i] == pod.initContainers[..i];
      requests' := Max(requests', pod.initContainers[i].requests);
      limits' := Max(limits', pod.initContainers[i].limits);
    }
    assert pod.initContainers[..|pod.initContainers|] == pod.initContainers;
  }

  lemma SameLookups(a: ResourceList, b: ResourceList, requests: ResourceList, limits: ResourceList,
                    qualified: Qualified)
    requires forall n :: Lookup(a, n) == ComputeAmount(requests, limits, n, qualified)
    requires b == ComputeUsage(requests, limits, qualified)
    ensures a == b
  {
    forall n ensures Lookup(a, n) == Lookup(b, n) {
      ComputeUsageLookup(requests, limits, n, qualified);
    }
    assert forall n :: n in a <==> Lookup(a, n).Some?;
    assert forall n :: n in b <==> Lookup(b, n).Some?;
    assert a.Keys == b.Keys;
    forall n | n in a ensures a[n] == b[n] {
      assert Lookup(a, n) == Lookup(b, n);
    }
  }

  /** Every name a pod charges is a name its evaluator measures. */
  lemma UsageAccepted(pod: Pod, now: int, qualified: Qualified, name: ResourceName)
    requires name in UsageOf(pod, now, qualified)
    ensures PodAccepts(name)
  {
    if name != POD_COUNT {
      var requests, limits := Effective(pod, Requests), Effective(pod, Limits);
      ComputeUsageLookup(requests, limits, name, qualified);
      ComputeAmountAccepted(requests, limits, name, qualified);
    }
  }

  /** As time passes a pod is never charged more. */
  lemma UsageNeverGrows(pod: Pod, now: int, later: int, qualified: Qualified, name: ResourceName)
    requires now <= later
    requires Nonnegative(UsageOf(pod, now, qualified))
    ensures Amount(UsageOf(pod, later, qualified), name) <= Amount(UsageOf(pod, now, qualified), name)
  {
    if QuotaV1Pod(pod, now) && !QuotaV1Pod(pod, later) {
      var requests, limits := Effective(pod, Requests), Effective(pod, Limits);
      var compute := ComputeUsage(requests, limits, qualified);
      CountIsNotCompute(requests, limits, qualified);
      ComputeUsageLookup(requests, limits, POD_COUNT, qualified);
      var count: ResourceList := map[POD_COUNT := 1];
      assert UsageOf(pod, now, qualified) == Plus(count, compute);
      assert UsageOf(pod, later, qualified) == count;
      assert Amount(Plus(count, compute), name) >= 0;
      assert Amount(Plus(count, compute), POD_COUNT) == 1;
    }
  }

  lemma CountIsNotCompute(requests: ResourceList, limits: ResourceList, qualified: Qualified)
    ensures ComputeAmount(requests, limits, POD_COUNT, qualified) == None
  {
    assert POD_COUNT[0] == 'c' && REQUESTS_PREFIX[0] == 'r' && HUGE_PAGES_PREFIX[0] == 'h';
  }

  // ----- scopes and required resources -----

  function MatchesPriorityClass(pod: Pod, selector: Selector, validValue: string -> bool): Option<bool> {
    var named := pod.priorityClassName != "";
    if exists v | v in selector.values :: !validValue(v) then None
    else match selector.operator {
      case In => if selector.values == [] then None else Some(named && pod.priorityClassName in selector.values)
      case NotIn => if selector.values == [] then None else Some(!named || pod.priorityClassName !in selector.values)
      case Exists => if selector.values != [] then None else Some(named)
      case DoesNotExist => if selector.values != [] then None else Some(!named)
      case NoOperator => None
    }
  }

  predicate IsTerminating(pod: Pod) {
    pod.activeDeadlineSeconds.Some? && pod.activeDeadlineSeconds.value >= 0
  }

  predicate IsBestEffort(pod: Pod) {
    forall c | c in pod.containers + pod.initContainers :: AsksForNothing(c)
  }

  /** The scope test and the class computation agree on what best effort means. */
  lemma BestEffortScope(pod: Pod)
    ensures IsBestEffort(pod) <==> QosBySums(pod.containers + pod.initContainers) == BestEffortQos
  {
    BestEffortPointwise(pod.containers + pod.initContainers);
  }

  function PodMatchesScope(selector: Selector, pod: Pod, validValue: string -> bool): Option<bool> {
    match selector.scopeName
    case Terminating => Some(IsTerminating(pod))
    case NotTerminating => Some(!IsTerminating(pod))
    case BestEffort => Some(IsBestEffort(pod))
    case NotBestEffort => Some(!IsBestEffort(pod))
    case PriorityClass => MatchesPriorityClass(pod, selector, validValue)
    case OtherScope(_) => Some(false)
  }

  /**
   Which pods each scope selects: Terminating those with a deadline that is not negative and
   NotTerminating the others; BestEffort and NotBestEffort by the quality-of-service class; the
   priority class by the name of the pod's class; and no pod for any other scope.
   */
  lemma ScopeSelects(s: Selector, pod: Pod, validValue: string -> bool)
    ensures s.scopeName == Terminating ==>
      PodMatchesScope(s, pod, validValue)
        == Some(pod.activeDeadlineSeconds.Some? && pod.activeDeadlineSeconds.value >= 0)
    ensures s.scopeName == NotTerminating ==>
      PodMatchesScope(s, pod, validValue)
        == Some(pod.activeDeadlineSeconds.None? || pod.activeDeadlineSeconds.value < 0)
    ensures s.scopeName == BestEffort ==>
      PodMatchesScope(s, pod, validValue) == Some(QosBySums(pod.containers + pod.initContainers) == BestEffortQos)
    ensures s.scopeName == NotBestEffort ==>
      PodMatchesScope(s, pod, validValue) == Some(QosBySums(pod.containers + pod.initContainers) != BestEffortQos)
    ensures s.scopeName.OtherScope? ==> PodMatchesScope(s, pod, validValue) == Some(false)
  {
    BestEffortScope(pod);
  }

  /**
   The priority class scope, operator by operator; a pod without a class is in no set, and a
   selector that gives values where none belong, none where some belong, or a bad value is an error.
   */
  lemma PriorityClassSelects(s: Selector, pod: Pod, validValue: string -> bool)
    requires s.scopeName == PriorityClass
    ensures var named, matched := pod.priorityClassName != "", PodMatchesScope(s, pod, validValue);
      && ((exists v :: v in s.values && !validValue(v)) ==> matched == None)
      && ((forall v :: v in s.values ==> validValue(v)) ==>
            && (s.operator in {In, NotIn} && s.values == [] ==> matched == None)
            && (s.operator in {Exists, DoesNotExist} && s.values != [] ==> matched == None)
            && (s.operator == In && s.values != [] ==> matched == Some(named && pod.priorityClassName in s.values))
            && (s.operator == NotIn && s.values != [] ==>
              matched == Some(!(named && pod.priorityClassName in s.values)))
            && (s.operator == Exists && s.values == [] ==> matched == Some(named))
            && (s.operator == DoesNotExist && s.values == [] ==> matched == Some(!named))
            && (s.operator == NoOperator ==> matched == None))
  {
  }

  /**
   What a pod is charged: the object count alone once it has failed or succeeded, or once its grace
   period after deletion has passed; before that also what its requests and limits amount to.
   */
  lemma PodCharges(pod: Pod, now: int, qualified: Qualified, k: ResourceName)
    ensures var gone := pod.phase == PodFailed || pod.phase == PodSucceeded
        || (pod.deletionTimestamp.Some? && pod.deletionGracePeriodSeconds.Some?
            && now > pod.deletionTimestamp.value + pod.deletionGracePeriodSeconds.value);
      var amount := ComputeAmount(Effective(pod, Requests), Effective(pod, Limits), k, qualified);
      && UsageOf(pod, now, qualified)["count/pods"] == 1
      && (k != "count/pods" ==> (k in UsageOf(pod, now, qualified) <==> !gone && amount.Some?))
      && (k != "count/pods" && !gone && amount.Some? ==> UsageOf(pod, now, qualified)[k] == amount.value)
  {
    var requests, limits := Effective(pod, Requests), Effective(pod, Limits);
    CountIsNotCompute(requests, limits, qualified);
    ComputeUsageLookup(requests, limits, POD_COUNT, qualified);
    ComputeUsageLookup(requests, limits, k, qualified);
  }

  // A quota on cpu or memory obliges every container to name those resources.
  predicate MustBeSpecified(name: ResourceName) {
    name in {CPU, MEMORY, REQUESTS_CPU, REQUESTS_MEMORY, LIMITS_CPU, LIMITS_MEMORY}
  }

  predicate Constraints(required: set<ResourceName>, pod: Pod, qualified: Qualified) {
    forall c, n | c in pod.containers + pod.initContainers && n in required ::
      MustBeSpecified(n) ==> ComputeAmount(c.requests, c.limits, n, qualified).Some?
  }

  /**
   Which pods meet those obligations: if the quota limits cpu, by either of its request names, every
   container requests it; if it limits limits.cpu, every container limits it; and so for memory. Other
   names oblige nobody.
   */
  lemma ConstraintsExactly(required: set<ResourceName>, pod: Pod, qualified: Qualified)
    ensures Constraints(required, pod, qualified) <==> forall c | c in pod.containers + pod.initContainers ::
      && ("cpu" in required || "requests.cpu" in required ==> "cpu" in c.requests)
      && ("memory" in required || "requests.memory" in required ==> "memory" in c.requests)
      && ("limits.cpu" in required ==> "cpu" in c.limits)
      && ("limits.memory" in required ==> "memory" in c.limits)
  {
    assert REQUESTS_CPU == "requests.cpu" && REQUESTS_MEMORY == "requests.memory";
    assert LIMITS_CPU == "limits.cpu" && LIMITS_MEMORY == "limits.memory";
    forall c | c in pod.containers + pod.initContainers
      ensures ComputeAmount(c.requests, c.limits, CPU, qualified).Some? <==> CPU in c.requests
      ensures ComputeAmount(c.requests, c.limits, MEMORY, qualified).Some? <==> MEMORY in c.requests
      ensures ComputeAmount(c.requests, c.limits, REQUESTS_CPU, qualified).Some? <==> CPU in c.requests
      ensures ComputeAmount(c.requests, c.limits, REQUESTS_MEMORY, qualified).Some? <==> MEMORY in c.requests
      ensures ComputeAmount(c.requests, c.limits, LIMITS_CPU, qualified).Some? <==> CPU in c.limits
      ensures ComputeAmount(c.requests, c.limits, LIMITS_MEMORY, qualified).Some? <==> MEMORY in c.limits
    {
      FixedAmounts(c.requests, c.limits, CPU, qualified);
      FixedAmounts(c.requests, c.limits, MEMORY, qualified);
    }
    hide ComputeAmount;
  }
}
