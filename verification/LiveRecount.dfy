/** The recount of the resync, summed over namespaces and evaluators, is the usage of the live items. */
module LiveRecount {
  import opened Sums
  import opened ResourceLists
  import opened Objects
  import opened Evaluators
  import opened Admission
  import opened Batches
  import opened AccountQuotas
  import opened Resync
  import opened Ledger

  // The weight of an item within one namespace and kind.
  function CellWeight(reg: Registry, q: Quota, item: Item, ns: string, g: GroupResource, k: ResourceName): int {
    if item.namespace == ns && item.kind == g then Weight(reg, q, item, k) else 0
  }

  ghost function Cell(reg: Registry, q: Quota, live: seq<Item>, ns: string, g: GroupResource, k: ResourceName): int {
    Sum(live, (item: Item) => CellWeight(reg, q, item, ns, g, k))
  }

  ghost function Row(setting: Setting, q: Quota, live: seq<Item>, ns: string, k: ResourceName): int {
    Sum(setting.order, g => Cell(setting.registry, q, live, ns, g, k))
  }

  ghost function ItemRow(setting: Setting, q: Quota, item: Item, ns: string, k: ResourceName): int {
    Sum(setting.order, g => CellWeight(setting.registry, q, item, ns, g, k))
  }

  // Every item lies in exactly one namespace and is of one kind.
  lemma OneCell(setting: Setting, q: Quota, item: Item, k: ResourceName)
    requires setting.Valid() && item.namespace in setting.namespaces
    ensures Sum(setting.namespaces, ns => ItemRow(setting, q, item, ns, k)) == Weight(setting.registry, q, item, k)
  {
    forall ns
      ensures ItemRow(setting, q, item, ns, k)
        == if ns == item.namespace then Weight(setting.registry, q, item, k) else 0
    {
      SumOneHot(setting.order, item.kind, g => CellWeight(setting.registry, q, item, ns, g, k));
    }
    SumOneHot(setting.namespaces, item.namespace, ns => ItemRow(setting, q, item, ns, k));
  }

  lemma RowSplits(setting: Setting, q: Quota, live: seq<Item>, ns: string, k: ResourceName)
    requires live != []
    ensures Row(setting, q, live, ns, k) == ItemRow(setting, q, live[0], ns, k) + Row(setting, q, live[1..], ns, k)
  {
    SumSplit(setting.order, g => Cell(setting.registry, q, live, ns, g, k),
      g => CellWeight(setting.registry, q, live[0], ns, g, k), g => Cell(setting.registry, q, live[1..], ns, g, k));
  }

  /** Splitting the live items by namespace and kind loses nothing and counts nothing twice. */
  lemma {:induction false} CellsAddUp(setting: Setting, q: Quota, live: seq<Item>, k: ResourceName)
    requires setting.Valid() && forall item | item in live :: item.namespace in setting.namespaces
    ensures Sum(setting.namespaces, ns => Row(setting, q, live, ns, k)) == LiveUsage(setting.registry, q, live, k)
  {
    if live == [] {
      forall ns ensures Row(setting, q, live, ns, k) == 0 {
        SumZero(setting.order, g => Cell(setting.registry, q, live, ns, g, k));
      }
      SumZero(setting.namespaces, ns => Row(setting, q, live, ns, k));
    } else {
      CellsAddUp(setting, q, live[1..], k);
      OneCell(setting, q, live[0], k);
      forall ns { RowSplits(setting, q, live, ns, k); }
      SumSplit(setting.namespaces, ns => Row(setting, q, live, ns, k),
        ns => ItemRow(setting, q, live[0], ns, k), ns => Row(setting, q, live[1..], ns, k));
    }
  }

  // ----- one namespace, one evaluator -----

  lemma {:induction false} BodiesIn(live: seq<Item>, ns: string, g: GroupResource, o: Object)
    requires o in Bodies(live, ns, g)
    ensures Item(ns, g, o) in live
  {
    var first := if live[0].namespace == ns && live[0].kind == g then [live[0].body] else [];
    if o !in first {
      BodiesIn(live[1..], ns, g, o);
    }
  }

  lemma {:induction false} BodiesSum(reg: Registry, q: Quota, live: seq<Item>, ns: string, g: GroupResource,
                                     k: ResourceName)
    requires g in reg
    ensures Sum(Bodies(live, ns, g), o => Contribution(reg[g], AdmissionChecks(q), o, k))
      == Cell(reg, q, live, ns, g, k)
  {
    if live != [] {
      BodiesSum(reg, q, live[1..], ns, g, k);
      var first := if live[0].namespace == ns && live[0].kind == g then [live[0].body] else [];
      SumConcat(first, Bodies(live[1..], ns, g), o => Contribution(reg[g], AdmissionChecks(q), o, k));
    }
  }

  lemma {:induction false} CountedIsCountable(e: Evaluator, checks: seq<Selector>, items: seq<Object>)
    requires forall o | o in items :: AllMatch(e, checks, o).Some?
    requires Recount(e, checks, items).Some?
    ensures Countable(e, checks, items)
  {
    if items != [] {
      CountedIsCountable(e, checks, items[1..]);
    }
  }

  // What one evaluator finds in one namespace, wherever it is asked about.
  lemma ShareIsCell(reg: Registry, q: Quota, live: seq<Item>, ns: string, g: GroupResource, k: ResourceName)
    requires g in reg && reg[g].Valid() && AllReadable(reg, q, live)
    requires Recount(reg[g], RecountChecks(q.scopes, q.selectors), Bodies(live, ns, g)).Some?
    ensures Amount(Recount(reg[g], RecountChecks(q.scopes, q.selectors), Bodies(live, ns, g)).value, k)
      == Cell(reg, q, live, ns, g, k)
  {
    var e, items, checks := reg[g], Bodies(live, ns, g), RecountChecks(q.scopes, q.selectors);
    forall o | o in items ensures Readable(e, q, o) {
      BodiesIn(live, ns, g, o);
      assert Item(ns, g, o) in live;
    }
    CountedIsCountable(e, checks, items);
    RecountIsSum(e, checks, items, k);
    SumEqual(items, o => Contribution(e, checks, o, k), o => Contribution(e, AdmissionChecks(q), o, k));
    BodiesSum(reg, q, live, ns, g, k);
  }

  // An evaluator that does not accept a resource has no weight in it.
  lemma {:induction false} UnacceptedCell(reg: Registry, q: Quota, live: seq<Item>, ns: string, g: GroupResource,
                                          k: ResourceName)
    requires g in reg && reg[g].Valid() && !reg[g].Accepts(k)
    ensures Cell(reg, q, live, ns, g, k) == 0
  {
    SumZero(live, (item: Item) => CellWeight(reg, q, item, ns, g, k));
  }

  lemma ShareOf(setting: Setting, q: Quota, live: seq<Item>, ns: string, g: GroupResource, k: ResourceName)
    requires setting.Valid() && g in setting.registry && AllReadable(setting.registry, q, live)
    requires var e, checks := setting.registry[g], RecountChecks(q.scopes, q.selectors);
      e.Accepts(k) ==> Measured(e, checks, SceneOf(setting, live).cluster(ns)).Some?
    ensures Share(setting.registry[g], RecountChecks(q.scopes, q.selectors), SceneOf(setting, live).cluster(ns), k)
         == Cell(setting.registry, q, live, ns, g, k)
  {
    var e, checks := setting.registry[g], RecountChecks(q.scopes, q.selectors);
    var listing := SceneOf(setting, live).cluster(ns);
    assert listing(e.groupResource) == Some(Bodies(live, ns, g));
    if e.Accepts(k) {
      ShareIsCell(setting.registry, q, live, ns, g, k);
    } else {
      UnacceptedShare(e, checks, listing);
      UnacceptedCell(setting.registry, q, live, ns, g, k);
    }
  }

  // ----- the whole recount -----

  // Where every evaluator of a resource succeeds, the measured value is the row's.
  lemma MeasuredRow(setting: Setting, q: Quota, live: seq<Item>, ns: string, k: ResourceName)
    requires setting.Valid() && AllReadable(setting.registry, q, live)
    requires var scene := SceneOf(setting, live);
      Measurable(scene.evaluators, RecountChecks(q.scopes, q.selectors), scene.cluster(ns), k)
    ensures var scene := SceneOf(setting, live);
      Sum(scene.evaluators, (e: Evaluator) => Share(e, RecountChecks(q.scopes, q.selectors), scene.cluster(ns), k))
        == Row(setting, q, live, ns, k)
  {
    var reg, scene, checks := setting.registry, SceneOf(setting, live), RecountChecks(q.scopes, q.selectors);
    var es, listing := InOrder(reg, setting.order), scene.cluster(ns);
    var f := (e: Evaluator) => Share(e, checks, listing, k);
    SumInOrder(reg, setting.order, f);
    forall g | g in setting.order
      ensures (if g in reg then f(reg[g]) else 0) == Cell(reg, q, live, ns, g, k)
    {
      var i :| 0 <= i < |setting.order| && setting.order[i] == g;
      assert es[i] == reg[g] && reg[g] in es;
      ShareOf(setting, q, live, ns, g, k);
    }
    SumEqual(setting.order, g => if g in reg then f(reg[g]) else 0, g => Cell(reg, q, live, ns, g, k));
  }

  // A tracked resource is measured by some evaluator.
  lemma TrackedAccepted(setting: Setting, q: Quota, k: ResourceName)
    requires setting.Valid() && Tracked(setting.registry, q, k)
    ensures AnyAccepts(InOrder(setting.registry, setting.order), k)
  {
    var es := InOrder(setting.registry, setting.order);
    var g :| g in setting.registry && setting.registry[g].Accepts(k);
    assert g in setting.order;
    var i :| 0 <= i < |setting.order| && setting.order[i] == g;
    assert es[i] == setting.registry[g];
  }

  lemma NamespaceUsage(setting: Setting, q: Quota, live: seq<Item>, aq: AccountQuota, ns: string, k: ResourceName)
    requires setting.Valid() && Behind(aq, q) && AllReadable(setting.registry, q, live)
    requires ErrorFree(setting, live, aq) && ns in setting.namespaces && Tracked(setting.registry, q, k)
    ensures Amount(NewUsed(aq, SceneOf(setting, live), ns), k) == Row(setting, q, live, ns, k)
  {
    var scene := SceneOf(setting, live);
    assert !Fails(aq, scene, ns);
    TrackedAccepted(setting, q, k);
    assert Measurable(scene.evaluators, RecountChecks(q.scopes, q.selectors), scene.cluster(ns), k);
    MeasuredRow(setting, q, live, ns, k);
  }

  /** A row is the live usage of its namespace. */
  lemma {:induction false} RowIsLive(setting: Setting, q: Quota, live: seq<Item>, ns: string, k: ResourceName)
    requires setting.Valid()
    ensures Row(setting, q, live, ns, k) == LiveIn(setting.registry, q, ns, live, k)
  {
    if live == [] {
      SumZero(setting.order, g => Cell(setting.registry, q, live, ns, g, k));
    } else {
      RowIsLive(setting, q, live[1..], ns, k);
      RowSplits(setting, q, live, ns, k);
      SumOneHot(setting.order, live[0].kind, g => CellWeight(setting.registry, q, live[0], ns, g, k));
    }
  }

  lemma LiveByNamespace(setting: Setting, q: Quota, live: seq<Item>, k: ResourceName)
    requires setting.Valid() && forall item | item in live :: item.namespace in setting.namespaces
    ensures Sum(setting.namespaces, ns => LiveIn(setting.registry, q, ns, live, k))
      == LiveUsage(setting.registry, q, live, k)
  {
    CellsAddUp(setting, q, live, k);
    forall ns { RowIsLive(setting, q, live, ns, k); }
    SumEqual(setting.namespaces, ns => Row(setting, q, live, ns, k), ns => LiveIn(setting.registry, q, ns, live, k));
  }

  /** The simple form: recounting every namespace with every evaluator finds exactly the live usage. */
  lemma RecountIsLiveUsage(setting: Setting, q: Quota, live: seq<Item>, aq: AccountQuota, k: ResourceName)
    requires setting.Valid() && Behind(aq, q) && AllReadable(setting.registry, q, live)
    requires ErrorFree(setting, live, aq) && Tracked(setting.registry, q, k)
    requires forall item | item in live :: item.namespace in setting.namespaces
    ensures Amount(RecalculatedUsage(setting, live, aq), k) == LiveUsage(setting.registry, q, live, k)
  {
    var scene := SceneOf(setting, live);
    TotalIsSum(setting.namespaces, ns => NewUsed(aq, scene, ns), k);
    forall ns | ns in setting.namespaces ensures Amount(NewUsed(aq, scene, ns), k) == Row(setting, q, live, ns, k) {
      NamespaceUsage(setting, q, live, aq, ns, k);
    }
    var used := ns => NewUsed(aq, scene, ns);
    SumEqual(setting.namespaces, ns => Amount(used(ns), k), ns => Row(setting, q, live, ns, k));
    CellsAddUp(setting, q, live, k);
  }
}
