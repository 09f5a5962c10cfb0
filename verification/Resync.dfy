/** The resync controller: usage of every namespace of the account recomputed from scratch. */
module Resync {
  import opened Names
  import opened Sums
  import opened ResourceLists
  import opened Objects
  import opened Evaluators
  import opened AccountQuotas

  // What listing a kind in a namespace returns.
  type Cluster = string -> Listing

  // Which evaluators, over which cluster, for which namespaces of the account.
  datatype Scene = Scene(namespaces: seq<string>, evaluators: seq<Evaluator>, cluster: Cluster)
  {
    ghost predicate Valid() {
      Distinct(namespaces) && forall e | e in evaluators :: e.Valid()
    }
  }

  // ----- what a resync computes -----

  ghost function Usage(aq: AccountQuota, scene: Scene, ns: string): ResourceList {
    var checks := RecountChecks(aq.scopes, aq.selectors);
    map k | k in aq.specHard && Measurable(scene.evaluators, checks, scene.cluster(ns), k) ::
      Sum(scene.evaluators, (e: Evaluator) => Share(e, checks, scene.cluster(ns), k))
  }

  // The last recorded usage of a namespace; a slice without usage does not count as a record.
  function Recorded(slices: seq<Slice>, ns: string): ResourceList {
    if slices == [] then map[]
    else
      var last := slices[|slices| - 1];
      if last.namespace == ns && last.status.used != map[] then last.status.used
      else Recorded(slices[..|slices| - 1], ns)
  }

  // Fresh numbers replace the record; everything the quota does not limit is dropped.
  ghost function NewUsed(aq: AccountQuota, scene: Scene, ns: string): ResourceList {
    Only(Recorded(aq.namespaces, ns) + Usage(aq, scene, ns), aq.specHard.Keys)
  }

  ghost function NewSlices(aq: AccountQuota, scene: Scene, namespaces: seq<string>): seq<Slice> {
    seq(|namespaces|,
      i requires 0 <= i < |namespaces| => Slice(namespaces[i], Status(map[], NewUsed(aq, scene, namespaces[i]))))
  }

  ghost function TotalOf(names: seq<string>, used: string -> ResourceList): ResourceList {
    if names == [] then map[] else Plus(TotalOf(names[..|names| - 1], used), used(names[|names| - 1]))
  }

  ghost function NewTotal(aq: AccountQuota, scene: Scene): ResourceList {
    TotalOf(scene.namespaces, ns => NewUsed(aq, scene, ns))
  }

  ghost function Synced(aq: AccountQuota, scene: Scene): AccountQuota {
    aq.(total := Status(aq.specHard, NewTotal(aq, scene)),
        namespaces := NewSlices(aq, scene, scene.namespaces))
  }

  ghost predicate Dirty(aq: AccountQuota, scene: Scene) {
    || aq.specHard != aq.total.hard
    || aq.total.hard == map[]
    || aq.total.used == map[]
    || NewTotal(aq, scene) != aq.total.used
  }

  // Some resource of some namespace could not be measured.
  ghost predicate Fails(aq: AccountQuota, scene: Scene, ns: string) {
    SomeFailure(scene.evaluators, RecountChecks(aq.scopes, aq.selectors), scene.cluster(ns), aq.specHard.Keys)
  }

  // ----- the method -----

  method UsageOf(aq: AccountQuota, scene: Scene, ns: string, hardLimits: ResourceList)
    returns (usedList: ResourceList, failed: bool)
    requires scene.Valid() && hardLimits == aq.specHard
    ensures usedList == NewUsed(aq, scene, ns)
    ensures failed <==> Fails(aq, scene, ns)
  {
    var newUsage, failures := CalculateUsage(aq.scopes, hardLimits, scene.evaluators, aq.selectors, scene.cluster(ns));
    failed := failures > 0;
    assert newUsage == Usage(aq, scene, ns);
    usedList := map[];
    for i := 0 to |aq.namespaces|
      invariant usedList == Recorded(aq.namespaces[..i], ns)
    {
      assert aq.namespaces[..i + 1][..i] == aq.namespaces[..i];
      var nsStatus := aq.namespaces[i];
      if nsStatus.namespace == ns && nsStatus.status.used != map[] {
        usedList := Add(map[], nsStatus.status.used);
        PlusLaws(nsStatus.status.used, map[], map[]);
      }
    }
    assert aq.namespaces[..|aq.namespaces|] == aq.namespaces;
    usedList := Overwrite(usedList, newUsage);
    var hardResources := ResourceNames(hardLimits);
    usedList := Mask(usedList, hardResources);
  }

  method Overwrite(usedList: ResourceList, newUsage: ResourceList) returns (result: ResourceList)
    ensures result == usedList + newUsage
  {
    result := usedList;
    var keys := newUsage.Keys;
    while keys != {}
      invariant keys <= newUsage.Keys
      invariant result == usedList + map k | k in newUsage.Keys - keys :: newUsage[k]
      decreases keys
    {
      var key :| key in keys;
      keys := keys - {key};
      result := result[key := newUsage[key]];
    }
  }

  lemma OneMoreNamespace(aq: AccountQuota, scene: Scene, i: nat)
    requires i < |scene.namespaces|
    ensures var n := scene.namespaces[i];
      && scene.namespaces[..i + 1] == scene.namespaces[..i] + [n]
      && NewSlices(aq, scene, scene.namespaces[..i + 1])
         == NewSlices(aq, scene, scene.namespaces[..i]) + [Slice(n, Status(map[], NewUsed(aq, scene, n)))]
      && TotalOf(scene.namespaces[..i + 1], ns => NewUsed(aq, scene, ns))
         == Plus(TotalOf(scene.namespaces[..i], ns => NewUsed(aq, scene, ns)), NewUsed(aq, scene, n))
  {
    assert scene.namespaces[..i + 1][..i] == scene.namespaces[..i];
  }

  // The loop over the namespaces of the account.
  method Measure(aq: AccountQuota, scene: Scene, hardLimits: ResourceList)
    returns (used: seq<Slice>, totalUsed: ResourceList, errors: nat)
    requires scene.Valid() && hardLimits == aq.specHard
    ensures used == NewSlices(aq, scene, scene.namespaces) && totalUsed == NewTotal(aq, scene)
    ensures errors == 0 <==> forall ns | ns in scene.namespaces :: !Fails(aq, scene, ns)
  {
    used, totalUsed, errors := [], map[], 0;
    for i := 0 to |scene.namespaces|
      invariant used == NewSlices(aq, scene, scene.namespaces[..i])
      invariant totalUsed == TotalOf(scene.namespaces[..i], ns => NewUsed(aq, scene, ns))
      invariant errors == 0 <==> forall ns | ns in scene.namespaces[..i] :: !Fails(aq, scene, ns)
    {
      var n := scene.namespaces[i];
      OneMoreNamespace(aq, scene, i);
      var usedList, failed := UsageOf(aq, scene, n, hardLimits);
      if failed {
        errors := errors + 1;
      }
      used := used + [Slice(n, Status(map[], usedList))];
      totalUsed := Add(totalUsed, usedList);
    }
    assert scene.namespaces[..|scene.namespaces|] == scene.namespaces;
  }

  /**
   What the controller sends to the store, if it sends anything, and whether it reports an error:
   listed says whether its listing of namespaces succeeds, accepted whether the store takes a write.
   */
  method SyncAccountQuota(aq: AccountQuota, scene: Scene, listed: bool, accepted: bool)
    returns (write: Option<AccountQuota>, failed: bool)
    requires scene.Valid()
    ensures write.Some? ==> listed && write.value == Synced(aq, scene)
    ensures listed ==>
      (write.None? <==>
        && aq.total == Status(aq.specHard, NewTotal(aq, scene))
        && aq.specHard != map[] && NewTotal(aq, scene) != map[])
    ensures listed ==> (write.Some? <==> Dirty(aq, scene))
    ensures failed <==>
      !listed || (exists ns :: ns in scene.namespaces && Fails(aq, scene, ns)) || (write.Some? && !accepted)
  {
    hide Fails;
    hide NewTotal;
    hide NewSlices;
    var sameLimits := Equals(aq.specHard, aq.total.hard);
    var dirty := !sameLimits || |aq.total.hard| == 0 || |aq.total.used| == 0;
    var hardLimits := Add(map[], aq.specHard);
    PlusLaws(map[], aq.specHard, map[]);
    PlusLaws(aq.specHard, map[], map[]);
    if !listed {
      return None, true;
    }
    var used, totalUsed, errors := Measure(aq, scene, hardLimits);
    var sameUsed := Equals(totalUsed, aq.total.used);
    dirty := dirty || !sameUsed;
    if dirty {
      if !accepted {
        errors := errors + 1;
      }
      return Some(aq.(total := Status(hardLimits, totalUsed), namespaces := used)), errors > 0;
    }
    return None, errors > 0;
  }

  // ----- the conservation law -----

  lemma {:induction false} TotalIsSum(names: seq<string>, used: string -> ResourceList, k: ResourceName)
    ensures Amount(TotalOf(names, used), k) == Sum(names, ns => Amount(used(ns), k))
  {
    if names != [] {
      var front, last := names[..|names| - 1], names[|names| - 1];
      TotalIsSum(front, used, k);
      assert names == front + [last];
      SumAppend(front, last, ns => Amount(used(ns), k));
    }
  }

  lemma {:induction false} TotalHas(names: seq<string>, used: string -> ResourceList, ns: string, k: ResourceName)
    requires ns in names && k in used(ns)
    ensures k in TotalOf(names, used)
  {
    if names[|names| - 1] != ns {
      TotalHas(names[..|names| - 1], used, ns, k);
    }
  }

  lemma {:induction false} TotalSame(names: seq<string>, used: string -> ResourceList, used': string -> ResourceList)
    requires forall ns | ns in names :: used(ns) == used'(ns)
    ensures TotalOf(names, used) == TotalOf(names, used')
  {
    if names != [] {
      TotalSame(names[..|names| - 1], used, used');
    }
  }

  lemma {:induction false} SlicesSum(names: seq<string>, slices: seq<Slice>, used: string -> ResourceList,
                                     k: ResourceName)
    requires |slices| == |names|
    requires forall i | 0 <= i < |names| :: slices[i].status.used == used(names[i])
    ensures SliceSum(slices, k) == Sum(names, ns => Amount(used(ns), k))
  {
    if names != [] {
      SlicesSum(names[1..], slices[1..], used, k);
    }
  }

  /** A resync leaves one slice per namespace, adding up to the total, whatever was recorded before. */
  lemma SyncedConserves(aq: AccountQuota, scene: Scene)
    requires scene.Valid()
    ensures Conserved(Synced(aq, scene))
  {
    forall k ensures SliceSum(Synced(aq, scene).namespaces, k) == Amount(Synced(aq, scene).total.used, k) {
      var used := ns => NewUsed(aq, scene, ns);
      TotalIsSum(scene.namespaces, used, k);
      SlicesSum(scene.namespaces, NewSlices(aq, scene, scene.namespaces), used, k);
    }
  }

  // ----- failed measurements -----

  lemma {:induction false} RecordedIsSlice(slices: seq<Slice>, ns: string)
    requires DistinctNamespaces(slices)
    ensures Recorded(slices, ns) == StatusFor(slices, ns).used
  {
    if slices != [] {
      var front, last := slices[..|slices| - 1], slices[|slices| - 1];
      RecordedIsSlice(front, ns);
      var i := FindIndex(slices, ns);
      var j := FindIndex(front, ns);
    }
  }

  /**
   In the new slices every measurable limited resource has its measured value, every other
   limited resource keeps its last recorded value, and an unlimited one is gone.
   */
  lemma SyncedSlice(aq: AccountQuota, scene: Scene, ns: string, k: ResourceName)
    requires scene.Valid() && Conserved(aq) && ns in scene.namespaces
    ensures var checks := RecountChecks(aq.scopes, aq.selectors);
      var before, after := StatusFor(aq.namespaces, ns).used, StatusFor(Synced(aq, scene).namespaces, ns).used;
      if k !in aq.specHard then k !in after
      else if Measurable(scene.evaluators, checks, scene.cluster(ns), k)
      then k in after && after[k] == Sum(scene.evaluators, (e: Evaluator) => Share(e, checks, scene.cluster(ns), k))
      else (k in after <==> k in before) && Amount(after, k) == Amount(before, k)
  {
    var i :| 0 <= i < |scene.namespaces| && scene.namespaces[i] == ns;
    FindAt(Synced(aq, scene).namespaces, ns, i);
    RecordedIsSlice(aq.namespaces, ns);
  }

  /** After a write, admission finds usage numbers for every limited resource measured in some namespace. */
  lemma SyncedIsReady(aq: AccountQuota, scene: Scene, ns: string, k: ResourceName)
    requires k in aq.specHard && ns in scene.namespaces
    requires Measurable(scene.evaluators, RecountChecks(aq.scopes, aq.selectors), scene.cluster(ns), k)
    ensures k in Synced(aq, scene).total.hard && k in Synced(aq, scene).total.used
  {
    TotalHas(scene.namespaces, n => NewUsed(aq, scene, n), ns, k);
  }

  // ----- running it twice -----

  lemma {:induction false} RecordedAfter(aq: AccountQuota, scene: Scene, namespaces: seq<string>, ns: string)
    requires Distinct(namespaces) && ns in namespaces
    ensures Recorded(NewSlices(aq, scene, namespaces), ns) == NewUsed(aq, scene, ns)
  {
    var slices := NewSlices(aq, scene, namespaces);
    var front, last := namespaces[..|namespaces| - 1], namespaces[|namespaces| - 1];
    assert slices[..|slices| - 1] == NewSlices(aq, scene, front);
    if last != ns {
      RecordedAfter(aq, scene, front, ns);
    } else {
      NotRecorded(aq, scene, front, ns);
    }
  }

  lemma {:induction false} NotRecorded(aq: AccountQuota, scene: Scene, namespaces: seq<string>, ns: string)
    requires ns !in namespaces
    ensures Recorded(NewSlices(aq, scene, namespaces), ns) == map[]
  {
    if namespaces != [] {
      var slices, front := NewSlices(aq, scene, namespaces), namespaces[..|namespaces| - 1];
      assert slices[..|slices| - 1] == NewSlices(aq, scene, front);
      NotRecorded(aq, scene, front, ns);
    }
  }

  lemma OverwriteAgain(recorded: ResourceList, usage: ResourceList, names: set<ResourceName>)
    ensures Only(Only(recorded + usage, names) + usage, names) == Only(recorded + usage, names)
  {
  }

  // The same numbers come out again, also for what could not be measured.
  lemma SameUsedAgain(aq: AccountQuota, scene: Scene, ns: string, version: nat)
    requires scene.Valid() && ns in scene.namespaces
    ensures NewUsed(Synced(aq, scene).(version := version), scene, ns) == NewUsed(aq, scene, ns)
  {
    var again := Synced(aq, scene).(version := version);
    RecordedAfter(aq, scene, scene.namespaces, ns);
    assert Usage(again, scene, ns) == Usage(aq, scene, ns);
    OverwriteAgain(Recorded(aq.namespaces, ns), Usage(aq, scene, ns), aq.specHard.Keys);
  }

  // The stored object after one successful run.
  ghost function Settled(aq: AccountQuota, scene: Scene): AccountQuota {
    if Dirty(aq, scene) then Synced(aq, scene).(version := aq.version + 1) else aq
  }

  /** Whether or not a run wrote: after it the stored total is the recount, under the owner's limits. */
  lemma SettledIsRecount(aq: AccountQuota, scene: Scene)
    ensures Settled(aq, scene).total == Status(aq.specHard, NewTotal(aq, scene))
    ensures Dirty(aq, scene) ==> Settled(aq, scene).namespaces == NewSlices(aq, scene, scene.namespaces)
    ensures Settled(aq, scene).scopes == aq.scopes && Settled(aq, scene).selectors == aq.selectors
    ensures Settled(aq, scene).name == aq.name && Settled(aq, scene).specHard == aq.specHard
  {
  }

  // A limited resource that can be measured in this namespace, or was recorded there before.
  ghost predicate HasNumber(aq: AccountQuota, scene: Scene, ns: string, k: ResourceName) {
    && k in aq.specHard
    && (Measurable(scene.evaluators, RecountChecks(aq.scopes, aq.selectors), scene.cluster(ns), k)
        || k in Recorded(aq.namespaces, ns))
  }

  lemma {:induction false} TotalFrom(names: seq<string>, used: string -> ResourceList, k: ResourceName)
    requires k in TotalOf(names, used)
    ensures exists ns :: ns in names && k in used(ns)
  {
    var front, last := names[..|names| - 1], names[|names| - 1];
    if k in TotalOf(front, used) {
      TotalFrom(front, used, k);
    } else {
      assert last in names && k in used(last);
    }
  }

  lemma NoNumberNoTotal(aq: AccountQuota, scene: Scene)
    ensures NewTotal(aq, scene) != map[] <==> exists ns, k :: ns in scene.namespaces && HasNumber(aq, scene, ns, k)
  {
    var used := ns => NewUsed(aq, scene, ns);
    if k :| k in NewTotal(aq, scene) {
      TotalFrom(scene.namespaces, used, k);
      var ns :| ns in scene.namespaces && k in used(ns);
      assert HasNumber(aq, scene, ns, k);
    } else if ns, k :| ns in scene.namespaces && HasNumber(aq, scene, ns, k) {
      TotalHas(scene.namespaces, used, ns, k);
    }
  }

  /**
   On an unchanged cluster, also with failing evaluators, a second run writes again exactly when no
   limited resource can be measured, or was recorded, in any namespace of the account: a quota
   without limits, an account without namespaces, or limits on resources nobody measures.
   */
  lemma ResyncIdempotentExactly(aq: AccountQuota, scene: Scene)
    requires scene.Valid()
    ensures Dirty(Settled(aq, scene), scene) <==>
      forall ns, k | ns in scene.namespaces :: !HasNumber(aq, scene, ns, k)
  {
    NoNumberNoTotal(aq, scene);
    if Dirty(aq, scene) {
      var again := Settled(aq, scene);
      forall ns | ns in scene.namespaces ensures NewUsed(again, scene, ns) == NewUsed(aq, scene, ns) {
        SameUsedAgain(aq, scene, ns, aq.version + 1);
      }
      TotalSame(scene.namespaces, ns => NewUsed(again, scene, ns), ns => NewUsed(aq, scene, ns));
    }
  }

  /** An account with no namespaces yet: the same empty usage is written by every run, forever. */
  lemma NeverSettles(aq: AccountQuota, evaluators: seq<Evaluator>, cluster: Cluster)
    requires forall e | e in evaluators :: e.Valid()
    ensures Dirty(Settled(aq, Scene([], evaluators, cluster)), Scene([], evaluators, cluster))
  {
    ResyncIdempotentExactly(aq, Scene([], evaluators, cluster));
  }
}
