/** The concrete evaluators, each shown to meet the obligations of the evaluator interface. */
module CoreEvaluators {
  import opened Names
  import opened ResourceLists
  import opened Objects
  import opened Evaluators
  import opened PodUsage

  function Keep(names: seq<ResourceName>, accepts: ResourceName -> bool): (kept: seq<ResourceName>)
    ensures forall n :: n in kept <==> n in names && accepts(n)
  {
    if names == [] then []
    else (if accepts(names[0]) then [names[0]] else []) + Keep(names[1..], accepts)
  }

  // ----- object counts -----

  function ObjectCountNameFor(g: GroupResource): ResourceName {
    if g.group == "" then "count/" + g.resource else "count/" + g.resource + "." + g.group
  }

  // An empty alias means none.
  function CountedNames(g: GroupResource, alias: ResourceName): seq<ResourceName> {
    [ObjectCountNameFor(g)] + if alias != "" then [alias] else []
  }

  function ObjectCountEvaluator(g: GroupResource, alias: ResourceName): Evaluator {
    Evaluator(
      g,
      op => op == Create,
      names => Keep(names, n => n in CountedNames(g, alias)),
      (s, o) => Some(false),
      (required, o) => true,
      o => Some(map n | n in CountedNames(g, alias) :: 1))
  }

  /** One per object, under the count of its kind and, if it has one, under its plain name; nothing in any scope. */
  lemma ObjectCountMeans(g: GroupResource, alias: ResourceName, o: Object, s: Selector, k: ResourceName)
    ensures var e := ObjectCountEvaluator(g, alias);
      var counted := (k == if g.group == "" then "count/" + g.resource else "count/" + g.resource + "." + g.group)
                  || (alias != "" && k == alias);
      && e.usage(o).Some? && (k in e.usage(o).value <==> counted) && (counted ==> e.usage(o).value[k] == 1)
      && (e.Accepts(k) <==> counted) && e.scopeMatches(s, o) == Some(false)
      && (forall op :: e.handles(op) <==> op == Create)
  {
  }

  lemma ObjectCountValid(g: GroupResource, alias: ResourceName)
    ensures ObjectCountEvaluator(g, alias).Valid()
    ensures ObjectCountEvaluator(g, alias).Accepts(ObjectCountNameFor(g))
  {
  }

  // ----- services -----

  const SERVICE_COUNT := "count/services"
  const SERVICES := "services"
  const NODE_PORTS := "services.nodeports"
  const LOAD_BALANCERS := "services.loadbalancers"

  const SERVICE_RESOURCES := [SERVICE_COUNT, SERVICES, NODE_PORTS, LOAD_BALANCERS]

  function ServiceUsage(s: Service): ResourceList {
    map[
      SERVICE_COUNT := 1,
      SERVICES := 1,
      NODE_PORTS := if s.serviceType == NodePort || s.serviceType == LoadBalancer then s.ports else 0,
      LOAD_BALANCERS := if s.serviceType == LoadBalancer then 1 else 0
    ]
  }

  /** What a service is charged, name by name: node ports and load balancers have a node port for each port. */
  lemma ServiceCharges(s: Service)
    ensures ServiceUsage(s).Keys == {"count/services", "services", "services.nodeports", "services.loadbalancers"}
    ensures ServiceUsage(s)["count/services"] == 1 && ServiceUsage(s)["services"] == 1
    ensures s.serviceType == NodePort ==>
      ServiceUsage(s)["services.nodeports"] == s.ports && ServiceUsage(s)["services.loadbalancers"] == 0
    ensures s.serviceType == LoadBalancer ==>
      ServiceUsage(s)["services.nodeports"] == s.ports && ServiceUsage(s)["services.loadbalancers"] == 1
    ensures s.serviceType != NodePort && s.serviceType != LoadBalancer ==>
      ServiceUsage(s)["services.nodeports"] == 0 && ServiceUsage(s)["services.loadbalancers"] == 0
  {
    assert |SERVICE_COUNT| == 14 && |SERVICES| == 8 && |NODE_PORTS| == 18 && |LOAD_BALANCERS| == 22;
  }

  method ServiceUsageFunc(o: Object) returns (result: Option<ResourceList>)
    ensures result == if o.ServiceObject? then Some(ServiceUsage(o.service)) else None
  {
    if !o.ServiceObject? {
      return None;
    }
    var used: ResourceList := map[SERVICE_COUNT := 1][SERVICES := 1][LOAD_BALANCERS := 0][NODE_PORTS := 0];
    match o.service.serviceType {
      case NodePort =>
        used := used[NODE_PORTS := o.service.ports];
      case LoadBalancer =>
        used := used[NODE_PORTS := o.service.ports];
        used := used[LOAD_BALANCERS := 1];
      case _ =>
    }
    assert |SERVICE_COUNT| == 14 && |SERVICES| == 8 && |NODE_PORTS| == 18 && |LOAD_BALANCERS| == 22;
    assert used == ServiceUsage(o.service);
    return Some(used);
  }

  // The type as far as quota is concerned; the monitor asks for a recount only when it changes.
  function QuotaServiceType(s: Service): Option<ServiceType> {
    if s.serviceType == NodePort || s.serviceType == LoadBalancer then Some(s.serviceType) else None
  }

  // The monitor sees the object of an update before and after.
  predicate NotifiesUpdate(before: Service, after: Service) {
    QuotaServiceType(before) != QuotaServiceType(after)
  }

  /**
   A recount is asked for exactly when the type changes and one of the two counts node ports. So an
   update changes a service's charge without any recount being asked for exactly when a service that
   counts node ports keeps its type and changes the number of its ports.
   */
  lemma UnnoticedServiceUpdatesExactly(before: Service, after: Service)
    ensures NotifiesUpdate(before, after) <==>
      before.serviceType != after.serviceType
      && (before.serviceType in {NodePort, LoadBalancer} || after.serviceType in {NodePort, LoadBalancer})
    ensures !NotifiesUpdate(before, after) && ServiceUsage(before) != ServiceUsage(after)
       <==> after.serviceType in {NodePort, LoadBalancer} && before.serviceType == after.serviceType
            && before.ports != after.ports
  {
    assert |SERVICE_COUNT| == 14 && |SERVICES| == 8 && |NODE_PORTS| == 18 && |LOAD_BALANCERS| == 22;
    assert ServiceUsage(before) == ServiceUsage(after) <==>
      ServiceUsage(before)[NODE_PORTS] == ServiceUsage(after)[NODE_PORTS]
      && ServiceUsage(before)[LOAD_BALANCERS] == ServiceUsage(after)[LOAD_BALANCERS];
  }

  function ServiceEvaluator(): Evaluator {
    Evaluator(
      GroupResource("", "services"),
      op => op == Create || op == Update,
      names => Keep(names, n => n in SERVICE_RESOURCES),
      (s, o) => Some(false),
      (required, o) => true,
      (o: Object) => if o.ServiceObject? then Some(ServiceUsage(o.service)) else None)
  }

  lemma ServiceValid()
    ensures ServiceEvaluator().Valid()
  {
  }

  // ----- persistent volume claims -----

  const CLAIM_COUNT := "count/persistentvolumeclaims"
  const CLAIMS := "persistentvolumeclaims"
  const REQUESTS_STORAGE := "requests.storage"
  const STORAGE := "storage"
  const STORAGE_CLASS_SUFFIX := ".storageclass.storage.k8s.io/"

  function ClaimClass(c: Claim): string {
    if c.betaClass.Some? then c.betaClass.value
    else if c.storageClassName.Some? then c.storageClassName.value
    else ""
  }

  predicate ClaimAccepts(name: ResourceName) {
    name == CLAIM_COUNT || name == CLAIMS || name == REQUESTS_STORAGE
    || HasSuffix(name, STORAGE_CLASS_SUFFIX + CLAIMS) || HasSuffix(name, STORAGE_CLASS_SUFFIX + REQUESTS_STORAGE)
  }

  method ClaimMatchingResources(items: seq<ResourceName>) returns (result: seq<ResourceName>)
    ensures forall n :: n in result <==> n in items && ClaimAccepts(n)
  {
    result := [];
    for i := 0 to |items|
      invariant forall n :: n in result <==> n in items[..i] && ClaimAccepts(n)
    {
      var item := items[i];
      assert items[..i + 1] == items[..i] + [item];
      if item == CLAIM_COUNT {
        result := result + [item];
        continue;
      }
      if item in [CLAIMS, REQUESTS_STORAGE] {
        result := result + [item];
        continue;
      }
      if HasSuffix(item, STORAGE_CLASS_SUFFIX + CLAIMS) || HasSuffix(item, STORAGE_CLASS_SUFFIX + REQUESTS_STORAGE) {
        result := result + [item];
      }
    }
  }

  // Charged once under the plain names and once more under the claim's storage class, if it has one.
  function ClaimUsage(c: Claim): ResourceList {
    var class_ := ClaimClass(c);
    var claims: ResourceList := map[CLAIMS := 1, CLAIM_COUNT := 1];
    var byClass: ResourceList := if class_ == "" then map[] else map[class_ + STORAGE_CLASS_SUFFIX + CLAIMS := 1];
    var storage: ResourceList := if STORAGE in c.requests then map[REQUESTS_STORAGE := c.requests[STORAGE]] else map[];
    var storageByClass: ResourceList :=
      if STORAGE in c.requests && class_ != ""
      then map[class_ + STORAGE_CLASS_SUFFIX + REQUESTS_STORAGE := c.requests[STORAGE]]
      else map[];
    claims + byClass + storage + storageByClass
  }

  method ClaimUsageFunc(o: Object) returns (result: Option<ResourceList>)
    ensures result == if o.ClaimObject? then Some(ClaimUsage(o.claim)) else None
  {
    if !o.ClaimObject? {
      return None;
    }
    var c := o.claim;
    var used: ResourceList := map[CLAIMS := 1][CLAIM_COUNT := 1];
    var class_ := ClaimClass(c);
    if class_ != "" {
      used := used[class_ + STORAGE_CLASS_SUFFIX + CLAIMS := 1];
    }
    if STORAGE in c.requests {
      used := used[REQUESTS_STORAGE := c.requests[STORAGE]];
      if class_ != "" {
        used := used[class_ + STORAGE_CLASS_SUFFIX + REQUESTS_STORAGE := c.requests[STORAGE]];
      }
    }
    forall k { ClaimCharges(c, k); }
    assert |CLAIMS| == 22 && |CLAIM_COUNT| == 28 && |REQUESTS_STORAGE| == 16 && |STORAGE_CLASS_SUFFIX| == 29;
    assert |class_ + STORAGE_CLASS_SUFFIX + CLAIMS| == |class_| + 51;
    assert |class_ + STORAGE_CLASS_SUFFIX + REQUESTS_STORAGE| == |class_| + 45;
    assert used.Keys == ClaimUsage(c).Keys;
    assert used == ClaimUsage(c);
    return Some(used);
  }

  /**
   What a claim is charged, name by name: it counts once, and once more under its class; its
   storage counts under the plain name and under its class, if it asks for any. The class of the
   annotation comes before the one of the spec.
   */
  lemma ClaimCharges(c: Claim, k: ResourceName)
    ensures var class_ :=
        if c.betaClass.Some? then c.betaClass.value
        else if c.storageClassName.Some? then c.storageClassName.value else "";
      var counted := k == "persistentvolumeclaims" || k == "count/persistentvolumeclaims"
        || (class_ != "" && k == class_ + ".storageclass.storage.k8s.io/" + "persistentvolumeclaims");
      var stored := k == "requests.storage"
        || (class_ != "" && k == class_ + ".storageclass.storage.k8s.io/" + "requests.storage");
      && (k in ClaimUsage(c) <==> counted || (stored && "storage" in c.requests))
      && (counted ==> ClaimUsage(c)[k] == 1)
      && (stored && "storage" in c.requests ==> ClaimUsage(c)[k] == c.requests["storage"])
  {
    var class_ := ClaimClass(c);
    assert |CLAIMS| == 22 && |CLAIM_COUNT| == 28 && |REQUESTS_STORAGE| == 16 && |STORAGE_CLASS_SUFFIX| == 29;
    assert |class_ + STORAGE_CLASS_SUFFIX + CLAIMS| == |class_| + 51;
    assert |class_ + STORAGE_CLASS_SUFFIX + REQUESTS_STORAGE| == |class_| + 45;
  }

  lemma ClaimNameAccepted(class_: string, resource: ResourceName)
    requires resource == CLAIMS || resource == REQUESTS_STORAGE
    ensures ClaimAccepts(class_ + STORAGE_CLASS_SUFFIX + resource)
  {
    var name := class_ + STORAGE_CLASS_SUFFIX + resource;
    var suffix := STORAGE_CLASS_SUFFIX + resource;
    assert name == class_ + suffix;
    assert name[|name| - |suffix|..] == suffix;
  }

  function ClaimEvaluator(): Evaluator {
    Evaluator(
      GroupResource("", "persistentvolumeclaims"),
      op => op == Create || op == Update,
      names => Keep(names, ClaimAccepts),
      (s, o) => Some(false),
      (required, o) => true,
      (o: Object) => if o.ClaimObject? then Some(ClaimUsage(o.claim)) else None)
  }

  lemma ClaimValid()
    ensures ClaimEvaluator().Valid()
  {
    var e := ClaimEvaluator();
    forall o, k | e.usage(o).Some? && k in e.usage(o).value ensures e.Accepts(k) {
      var class_ := ClaimClass(o.claim);
      ClaimNameAccepted(class_, CLAIMS);
      ClaimNameAccepted(class_, REQUESTS_STORAGE);
    }
  }

  // ----- pods -----

  function PodEvaluator(now: int, qualified: Qualified, validValue: string -> bool): Evaluator {
    Evaluator(
      GroupResource("", "pods"),
      op => op == Create,
      names => Keep(names, PodAccepts),
      (s: Selector, o: Object) => if o.PodObject? then PodMatchesScope(s, o.pod, validValue) else None,
      (required: set<ResourceName>, o: Object) => o.PodObject? && Constraints(required, o.pod, qualified),
      (o: Object) => if o.PodObject? then Some(UsageOf(o.pod, now, qualified)) else None)
  }

  lemma PodValid(now: int, qualified: Qualified, validValue: string -> bool)
    ensures PodEvaluator(now, qualified, validValue).Valid()
  {
    var e := PodEvaluator(now, qualified, validValue);
    forall o, k | e.usage(o).Some? && k in e.usage(o).value ensures e.Accepts(k) {
      UsageAccepted(o.pod, now, qualified, k);
    }
  }

  /**
   Which operations charge: pods are charged when they are created, services and claims also when
   they change. An evaluator can measure the objects of its own kind only.
   */
  lemma HandlesExactly(now: int, qualified: Qualified, validValue: string -> bool, op: Operation, s: Selector,
                       o: Object)
    ensures PodEvaluator(now, qualified, validValue).handles(op) <==> op == Create
    ensures ServiceEvaluator().handles(op) <==> op == Create || op == Update
    ensures ClaimEvaluator().handles(op) <==> op == Create || op == Update
    ensures ServiceEvaluator().scopeMatches(s, o) == Some(false) && ClaimEvaluator().scopeMatches(s, o) == Some(false)
    ensures forall k :: ServiceEvaluator().Accepts(k) <==>
      k in ["count/services", "services", "services.nodeports", "services.loadbalancers"]
    ensures forall k :: ClaimEvaluator().Accepts(k) <==>
      || k in ["count/persistentvolumeclaims", "persistentvolumeclaims", "requests.storage"]
      || HasSuffix(k, ".storageclass.storage.k8s.io/" + "persistentvolumeclaims")
      || HasSuffix(k, ".storageclass.storage.k8s.io/" + "requests.storage")
    ensures forall required :: ServiceEvaluator().constraints(required, o) && ClaimEvaluator().constraints(required, o)
    ensures ServiceEvaluator().usage(o) == if o.ServiceObject? then Some(ServiceUsage(o.service)) else None
    ensures ClaimEvaluator().usage(o) == if o.ClaimObject? then Some(ClaimUsage(o.claim)) else None
    ensures PodEvaluator(now, qualified, validValue).usage(o)
         == if o.PodObject? then Some(UsageOf(o.pod, now, qualified)) else None
  {
  }

  // ----- the registry kiosk starts with -----

  function DefaultEvaluators(now: int, qualified: Qualified, validValue: string -> bool): seq<Evaluator> {
    [ PodEvaluator(now, qualified, validValue), ServiceEvaluator(), ClaimEvaluator(),
      ObjectCountEvaluator(GroupResource("", "configmaps"), "configmaps"),
      ObjectCountEvaluator(GroupResource("", "resourcequotas"), "resourcequotas"),
      ObjectCountEvaluator(GroupResource("", "replicationcontrollers"), "replicationcontrollers"),
      ObjectCountEvaluator(GroupResource("", "secrets"), "secrets") ]
  }

  /** Every evaluator that is ever registered meets the obligations the quota engine relies on. */
  lemma DefaultEvaluatorsValid(now: int, qualified: Qualified, validValue: string -> bool, g: GroupResource)
    ensures forall e | e in DefaultEvaluators(now, qualified, validValue) :: e.Valid() && e.handles(Create)
    ensures ObjectCountEvaluator(g, "").Valid()
  {
    PodValid(now, qualified, validValue);
    ServiceValid();
    ClaimValid();
    ObjectCountValid(GroupResource("", "configmaps"), "configmaps");
    ObjectCountValid(GroupResource("", "resourcequotas"), "resourcequotas");
    ObjectCountValid(GroupResource("", "replicationcontrollers"), "replicationcontrollers");
    ObjectCountValid(GroupResource("", "secrets"), "secrets");
    ObjectCountValid(g, "");
  }
}
