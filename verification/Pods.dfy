/** Pods: quality-of-service class, scope matching, and what a pod charges to a quota. */
module Pods {
  import opened ResourceLists
  import opened Objects

  const CPU := "cpu"
  const MEMORY := "memory"

  // ----- quality of service -----

  datatype QosClass = Guaranteed | Burstable | BestEffortQos

  predicate Supported(name: ResourceName) {
    name == CPU || name == MEMORY
  }

  datatype Side = Requests | Limits {
    function Of(c: Container): ResourceList {
      match this
      case Requests => c.requests
      case Limits => c.limits
    }
  }

  // The sum over containers of the positive amounts on one side.
  ghost function PositiveTotal(cs: seq<Container>, side: Side, name: ResourceName): int {
    if cs == [] then 0
    else Positive(Amount(side.Of(cs[0]), name)) + PositiveTotal(cs[1..], side, name)
  }

  ghost predicate AnyPositive(cs: seq<Container>, side: Side, name: ResourceName) {
    exists c :: c in cs && Amount(side.Of(c), name) > 0
  }

  lemma {:induction false} PositiveTotalAppend(cs: seq<Container>, c: Container, side: Side, name: ResourceName)
    ensures PositiveTotal(cs + [c], side, name) == PositiveTotal(cs, side, name) + Positive(Amount(side.Of(c), name))
  {
    if cs != [] {
      PositiveTotalAppend(cs[1..], c, side, name);
      assert (cs + [c])[1..] == cs[1..] + [c];
    }
  }

  lemma {:induction false} PositiveTotalSign(cs: seq<Container>, side: Side, name: ResourceName)
    ensures PositiveTotal(cs, side, name) >= 0
    ensures PositiveTotal(cs, side, name) > 0 <==> AnyPositive(cs, side, name)
  {
    if cs != [] {
      PositiveTotalSign(cs[1..], side, name);
      assert forall c :: c in cs <==> c == cs[0] || c in cs[1..];
    }
  }

  ghost predicate HasBothLimits(c: Container) {
    Amount(c.limits, CPU) > 0 && Amount(c.limits, MEMORY) > 0
  }

  ghost predicate AnyPositiveAtAll(cs: seq<Container>) {
    exists side :: AnyPositive(cs, side, CPU) || AnyPositive(cs, side, MEMORY)
  }

  ghost predicate Balanced(cs: seq<Container>, name: ResourceName) {
    PositiveTotal(cs, Requests, name) == PositiveTotal(cs, Limits, name)
  }

  ghost predicate AllLimited(cs: seq<Container>) {
    forall c | c in cs :: HasBothLimits(c)
  }

  // GetPodQOS compares sums over all containers, never one container's request with its limit.
  ghost function QosBySums(cs: seq<Container>): QosClass {
    if !AnyPositiveAtAll(cs) then BestEffortQos
    else if AllLimited(cs) && Balanced(cs, CPU) && Balanced(cs, MEMORY) then Guaranteed
    else Burstable
  }

  ghost predicate TotalAt(totals: ResourceList, cs: seq<Container>, side: Side, name: ResourceName) {
    (name in totals <==> AnyPositive(cs, side, name)) && Amount(totals, name) == PositiveTotal(cs, side, name)
  }

  // The totals a pass over some containers has collected: one entry per name seen with a positive amount.
  ghost predicate Totals(totals: ResourceList, cs: seq<Container>, side: Side) {
    (forall n | n in totals :: Supported(n)) && TotalAt(totals, cs, side, CPU) && TotalAt(totals, cs, side, MEMORY)
  }

  ghost predicate Added(totals: ResourceList, list: ResourceList, found: set<ResourceName>, result: ResourceList) {
    && (forall n :: n in result <==> n in totals || n in found)
    && (forall n | n in result :: result[n] == Amount(totals, n) + if n in found then Amount(list, n) else 0)
  }

  lemma AddedOneMore(totals: ResourceList, list: ResourceList, found: set<ResourceName>, result: ResourceList,
                     name: ResourceName)
    requires Added(totals, list, found, result) && name in list && name !in found
    ensures Added(totals, list, found + {name}, result[name := Amount(result, name) + list[name]])
  {
  }

  // One container's inner loop over a resource map.
  method AddPositive(totals: ResourceList, list: ResourceList, ghost cs: seq<Container>, ghost c: Container,
                     ghost side: Side)
    returns (result: ResourceList, found: set<ResourceName>)
    requires Totals(totals, cs, side) && list == side.Of(c)
    ensures CPU in found <==> Amount(list, CPU) > 0
    ensures MEMORY in found <==> Amount(list, MEMORY) > 0
    ensures Totals(result, cs + [c], side)
  {
    result, found := totals, {};
    var names := list.Keys;
    while names != {}
      invariant names <= list.Keys
      invariant forall n :: n in found <==> n in list && n !in names && Supported(n) && list[n] > 0
      invariant Added(totals, list, found, result)
      decreases names
    {
      var name :| name in names;
      names := names - {name};
      if !Supported(name) {
        continue;
      }
      if list[name] > 0 {
        AddedOneMore(totals, list, found, result, name);
        found := found + {name};
        if name !in result {
          result := result[name := list[name]];
        } else {
          result := result[name := list[name] + result[name]];
        }
      }
    }
    TotalsStep(totals, result, found, cs, c, side);
  }

  lemma TotalsStep(totals: ResourceList, result: ResourceList, found: set<ResourceName>,
                   cs: seq<Container>, c: Container, side: Side)
    requires Totals(totals, cs, side)
    requires forall n :: n in found <==> n in side.Of(c) && Supported(n) && side.Of(c)[n] > 0
    requires Added(totals, side.Of(c), found, result)
    ensures Totals(result, cs + [c], side)
  {
    forall n | Supported(n) && TotalAt(totals, cs, side, n)
      ensures TotalAt(result, cs + [c], side, n)
    {
      PositiveTotalAppend(cs, c, side, n);
      assert forall x :: x in cs + [c] <==> x in cs || x == c;
      PositiveTotalSign(cs, side, n);
    }
  }

  lemma AllLimitedAppend(cs: seq<Container>, c: Container)
    ensures AllLimited(cs + [c]) <==> AllLimited(cs) && HasBothLimits(c)
  {
    assert forall x :: x in cs + [c] <==> x in cs || x == c;
  }

  method GetPodQOS(pod: Pod) returns (qos: QosClass)
    ensures qos == QosBySums(pod.containers + pod.initContainers)
  {
    var all := pod.containers + pod.initContainers;
    var requests: ResourceList, limits: ResourceList := map[], map[];
    var isGuaranteed := true;
    for i := 0 to |all|
      invariant Totals(requests, all[..i], Requests) && Totals(limits, all[..i], Limits)
      invariant isGuaranteed <==> AllLimited(all[..i])
    {
      var container := all[i];
      assert all[..i + 1] == all[..i] + [container];
      var found;
      requests, found := AddPositive(requests, container.requests, all[..i], container, Requests);
      limits, found := AddPositive(limits, container.limits, all[..i], container, Limits);
      AllLimitedAppend(all[..i], container);
      if !(MEMORY in found && CPU in found) {
        isGuaranteed := false;
      }
    }
    assert all[..|all|] == all;
    qos := Classify(all, requests, limits, isGuaranteed);
  }

  // The tail of GetPodQOS, after both totals are collected.
  method Classify(ghost all: seq<Container>, requests: ResourceList, limits: ResourceList, allLimited: bool)
    returns (qos: QosClass)
    requires Totals(requests, all, Requests) && Totals(limits, all, Limits)
    requires allLimited <==> AllLimited(all)
    ensures qos == QosBySums(all)
  {
    EmptyTotals(all, requests, Requests);
    EmptyTotals(all, limits, Limits);
    if |requests| == 0 && |limits| == 0 {
      return BestEffortQos;
    }
    var isGuaranteed := allLimited;
    if isGuaranteed {
      var names := requests.Keys;
      while names != {}
        invariant names <= requests.Keys
        invariant isGuaranteed && forall n | n in requests.Keys - names :: n in limits && limits[n] == requests[n]
        decreases names
      {
        var name :| name in names;
        if name !in limits || limits[name] != requests[name] {
          isGuaranteed := false;
          break;
        }
        names := names - {name};
      }
    }
    if isGuaranteed && |requests| == |limits| {
      assert requests.Keys <= limits.Keys && |requests.Keys| == |limits.Keys|;
      SubsetOfEqualSize(requests.Keys, limits.Keys);
      return Guaranteed;
    }
    if AllLimited(all) && Balanced(all, CPU) && Balanced(all, MEMORY) {
      BalancedTotals(all, requests, limits);
    }
    return Burstable;
  }

  lemma EmptyTotals(all: seq<Container>, totals: ResourceList, side: Side)
    requires Totals(totals, all, side)
    ensures |totals| == 0 <==> !AnyPositive(all, side, CPU) && !AnyPositive(all, side, MEMORY)
  {
    if |totals| == 0 {
      assert CPU !in totals && MEMORY !in totals;
    } else {
      assert totals.Keys != {};
    }
  }

  // Two totals that agree on both names are the same map, entry by entry.
  lemma BalancedTotals(all: seq<Container>, requests: ResourceList, limits: ResourceList)
    requires Totals(requests, all, Requests) && Totals(limits, all, Limits)
    requires Balanced(all, CPU) && Balanced(all, MEMORY)
    ensures requests == limits
  {
    forall side, n ensures PositiveTotal(all, side, n) > 0 <==> AnyPositive(all, side, n) {
      PositiveTotalSign(all, side, n);
    }
    assert requests.Keys == limits.Keys;
  }

  // Its cpu or memory request is above its limit.
  predicate Exceeds(c: Container) {
    Amount(c.requests, CPU) > Amount(c.limits, CPU) || Amount(c.requests, MEMORY) > Amount(c.limits, MEMORY)
  }

  // The documented meaning: cpu and memory limits everywhere, each equal to the container's own request.
  ghost predicate FullyGuaranteed(c: Container) {
    HasBothLimits(c) && Amount(c.requests, CPU) == Amount(c.limits, CPU)
      && Amount(c.requests, MEMORY) == Amount(c.limits, MEMORY)
  }

  predicate AsksForNothing(c: Container) {
    && Amount(c.requests, CPU) <= 0 && Amount(c.requests, MEMORY) <= 0
    && Amount(c.limits, CPU) <= 0 && Amount(c.limits, MEMORY) <= 0
  }

  // The documented condition for the class Guaranteed, container by container.
  ghost predicate AllGuaranteed(cs: seq<Container>) {
    cs != [] && forall c | c in cs :: FullyGuaranteed(c)
  }

  /**
   Comparing sums instead of containers matters exactly when all limits are set, the sums balance
   for cpu and for memory, and yet some container requests more than its limit.
   */
  lemma SumsDisagreeExactly(cs: seq<Container>)
    ensures (QosBySums(cs) == Guaranteed) != AllGuaranteed(cs) <==>
      AllLimited(cs) && Balanced(cs, CPU) && Balanced(cs, MEMORY) && exists c :: c in cs && Exceeds(c)
  {
    if AllLimited(cs) && cs != [] {
      assert cs[0] in cs && AnyPositive(cs, Limits, CPU);
      if forall c | c in cs :: !Exceeds(c) {
        EqualSumsPointwise(cs, CPU);
        EqualSumsPointwise(cs, MEMORY);
      }
    }
  }

  /**
   Comparing sums is enough: when validation keeps every request at most its limit, the class
   is Guaranteed exactly for a nonempty list of containers that are guaranteed one by one.
   */
  lemma GuaranteedPointwise(cs: seq<Container>)
    requires forall c, n | c in cs && n in c.limits :: Amount(c.requests, n) <= c.limits[n]
    ensures QosBySums(cs) == Guaranteed <==>
      && cs != []
      && forall c | c in cs ::
           && Amount(c.limits, "cpu") > 0 && Amount(c.requests, "cpu") == Amount(c.limits, "cpu")
           && Amount(c.limits, "memory") > 0 && Amount(c.requests, "memory") == Amount(c.limits, "memory")
  {
    SumsDisagreeExactly(cs);
    forall c | c in cs && HasBothLimits(c) ensures !Exceeds(c) {
      assert CPU in c.limits && MEMORY in c.limits;
    }
  }

  /** BestEffort exactly when no container asks for or limits any cpu or memory. */
  lemma BestEffortPointwise(cs: seq<Container>)
    ensures QosBySums(cs) == BestEffortQos <==> forall c | c in cs ::
      && Amount(c.requests, "cpu") <= 0 && Amount(c.requests, "memory") <= 0
      && Amount(c.limits, "cpu") <= 0 && Amount(c.limits, "memory") <= 0
  {
    forall c | c in cs && !AsksForNothing(c) ensures AnyPositiveAtAll(cs) {
      var side := if Amount(c.requests, CPU) > 0 || Amount(c.requests, MEMORY) > 0 then Requests else Limits;
      assert AnyPositive(cs, side, CPU) || AnyPositive(cs, side, MEMORY);
    }
  }

  lemma {:induction false} EqualSumsPointwise(cs: seq<Container>, n: ResourceName)
    requires forall c | c in cs :: Amount(c.limits, n) > 0 && Amount(c.requests, n) <= Amount(c.limits, n)
    ensures PositiveTotal(cs, Requests, n) <= PositiveTotal(cs, Limits, n)
    ensures Balanced(cs, n) <==> forall c | c in cs :: Amount(c.requests, n) == Amount(c.limits, n)
  {
    if cs != [] {
      EqualSumsPointwise(cs[1..], n);
      assert forall c :: c in cs <==> c == cs[0] || c in cs[1..];
    }
  }

  lemma TwoTotals(a: Container, b: Container, side: Side, n: ResourceName)
    ensures PositiveTotal([a, b], side, n) == Positive(Amount(side.Of(a), n)) + Positive(Amount(side.Of(b), n))
  {
    PositiveTotalAppend([a], b, side, n);
    assert [a] + [b] == [a, b] && [a][1..] == [];
  }

  /** Without that validation the sums hide a difference: requests 1 and 3 against limits 2 and 2. */
  lemma SumsCanHideDifferences() returns (cs: seq<Container>)
    ensures QosBySums(cs) == Guaranteed
    ensures exists c :: c in cs && !FullyGuaranteed(c)
  {
    var two := map[CPU := 2, MEMORY := 2];
    var first := Container(map[CPU := 1, MEMORY := 1], two);
    var second := Container(map[CPU := 3, MEMORY := 3], two);
    cs := [first, second];
    assert first in cs && AnyPositive(cs, Limits, CPU) && !FullyGuaranteed(first);
    forall n | Supported(n) ensures Balanced(cs, n) {
      forall side { TwoTotals(first, second, side, n); }
    }
    assert Supported(CPU) && Supported(MEMORY);
    forall c | c in cs ensures HasBothLimits(c) {}
  }
}
