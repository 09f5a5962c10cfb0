/** The cluster objects quotas count, reduced to the fields the usage functions read. */
module Objects {
  import opened ResourceLists

  datatype Option<+T> = None | Some(value: T)

  datatype GroupResource = GroupResource(group: string, resource: string)

  datatype Operation = Create | Update | Delete | Connect

  datatype Container = Container(requests: ResourceList, limits: ResourceList)

  datatype Phase = PodPending | PodRunning | PodSucceeded | PodFailed | PodUnknown

  datatype Pod = Pod(
    containers: seq<Container>,
    initContainers: seq<Container>,
    activeDeadlineSeconds: Option<int>,
    priorityClassName: string,
    phase: Phase,
    deletionTimestamp: Option<int>,
    deletionGracePeriodSeconds: Option<int>)

  datatype ServiceType = ClusterIP | NodePort | LoadBalancer | ExternalName

  datatype Service = Service(serviceType: ServiceType, ports: nat)

  // The beta annotation wins over the spec field when it is present.
  datatype Claim = Claim(betaClass: Option<string>, storageClassName: Option<string>, requests: ResourceList)

  datatype Object = PodObject(pod: Pod) | ServiceObject(service: Service) | ClaimObject(claim: Claim) | OtherObject

  datatype ScopeName =
    | Terminating | NotTerminating | BestEffort | NotBestEffort | PriorityClass | OtherScope(name: string)

  // NoOperator stands for the empty operator and for every unknown one.
  datatype SelectorOperator = In | NotIn | Exists | DoesNotExist | NoOperator

  datatype Selector = Selector(scopeName: ScopeName, operator: SelectorOperator, values: seq<string>)
}
