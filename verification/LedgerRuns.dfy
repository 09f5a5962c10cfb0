/** The main results about whole runs of the quota system. */
module LedgerRuns {
  import opened Sums
  import opened ResourceLists
  import opened Evaluators
  import opened Admission
  import opened Batches
  import opened Passes
  import opened Looks
  import opened AccountQuotas
  import opened AccountQuotaAccessor
  import opened Resync
  import opened Ledger
  import opened LedgerBatches
  import opened LiveRecount

  // ----- the invariant -----

  // A quota whose limits are the owner's, with slices for the account's namespaces that add up.
  ghost predicate Booked(setting: Setting, aq: AccountQuota) {
    && Conserved(aq) && aq.specHard == aq.total.hard
    && forall slice | slice in aq.namespaces :: slice.namespace in setting.namespaces
  }

  ghost predicate Orderly(setting: Setting, s: State) {
    && (forall item | item in s.live :: item.namespace in setting.namespaces)
    && (forall c | c in s.inFlight :: Target(c).namespace in setting.namespaces)
    && (forall c | c in s.inFlight && c.Replaced? :: c.before.namespace == c.after.namespace)
  }

  ghost predicate NoneNegative(reg: Registry, q: Quota, s: State, k: ResourceName) {
    && (forall item | item in s.live :: Weight(reg, q, item, k) >= 0)
    && (forall c | c in s.inFlight :: Weight(reg, q, Target(c), k) >= 0)
  }

  /** In one namespace, what lives plus what is to come is recorded in its slice. */
  ghost predicate CoveredIn(reg: Registry, aq: AccountQuota, s: State, ns: string, k: ResourceName) {
    LiveIn(reg, Face(aq), ns, s.live, k) + PendingUsageIn(reg, Face(aq), ns, s.inFlight, k)
      <= SliceAmount(aq.namespaces, ns, k)
  }

  ghost predicate Covered(setting: Setting, aq: AccountQuota, s: State, k: ResourceName) {
    && NoneNegative(setting.registry, Face(aq), s, k)
    && (forall ns | ns in setting.namespaces :: CoveredIn(setting.registry, aq, s, ns, k))
    && (k in aq.total.hard ==> Amount(aq.total.used, k) <= aq.total.hard[k])
  }

  ghost predicate Inv(setting: Setting, s: State) {
    && Orderly(setting, s)
    && (forall aq | aq in s.quotas :: Booked(setting, aq))
    && forall aq, k | aq in s.quotas && Tracked(setting.registry, Face(aq), k) :: Covered(setting, aq, s, k)
  }

  /** Books of an account without objects are in order when they add up within the limits, none negative. */
  lemma StartsInOrder(setting: Setting, s: State)
    requires s.live == [] && s.inFlight == []
    requires forall aq | aq in s.quotas ::
      && Booked(setting, aq)
      && forall k | Tracked(setting.registry, Face(aq), k) ::
           && Amount(aq.total.used, k) <= aq.total.hard[k]
           && forall ns | ns in setting.namespaces :: SliceAmount(aq.namespaces, ns, k) >= 0
    ensures Inv(setting, s)
  {
    forall aq, k | aq in s.quotas && Tracked(setting.registry, Face(aq), k) ensures Covered(setting, aq, s, k) {
      assert aq.total.hard == Face(aq).hard;
    }
  }

  // ----- objects come and go -----

  lemma PersistCovers(reg: Registry, aq: AccountQuota, s: State, i: nat, j: nat, ns: string, k: ResourceName)
    requires CoveredIn(reg, aq, s, ns, k) && i < |s.inFlight|
    requires s.inFlight[i].Replaced? ==>
      && j < |s.live| && s.live[j] == s.inFlight[i].before
      && s.inFlight[i].before.namespace == s.inFlight[i].after.namespace
    ensures CoveredIn(reg, aq, s.(live := PutIn(s.live, s.inFlight[i], j), inFlight := Without(s.inFlight, i)), ns, k)
  {
    var c, f := s.inFlight[i], (item: Item) => WeightIn(reg, Face(aq), ns, item, k);
    SumRemove(s.inFlight, i, (x: Change) => PendingIn(reg, Face(aq), ns, x, k));
    match c {
      case Added(item) => SumAppend(s.live, item, f);
      case Replaced(before, after) => SumReplace(s.live, j, after, f);
    }
  }

  lemma AbandonCovers(reg: Registry, aq: AccountQuota, s: State, i: nat, ns: string, k: ResourceName)
    requires CoveredIn(reg, aq, s, ns, k) && NoneNegative(reg, Face(aq), s, k) && i < |s.inFlight|
    ensures CoveredIn(reg, aq, s.(inFlight := Without(s.inFlight, i)), ns, k)
  {
    SumRemove(s.inFlight, i, (x: Change) => PendingIn(reg, Face(aq), ns, x, k));
    assert s.inFlight[i] in s.inFlight;
  }

  lemma DeleteCovers(reg: Registry, aq: AccountQuota, s: State, j: nat, ns: string, k: ResourceName)
    requires CoveredIn(reg, aq, s, ns, k) && NoneNegative(reg, Face(aq), s, k) && j < |s.live|
    ensures CoveredIn(reg, aq, s.(live := Without(s.live, j)), ns, k)
  {
    SumRemove(s.live, j, (item: Item) => WeightIn(reg, Face(aq), ns, item, k));
    assert s.live[j] in s.live;
  }

  lemma DriftCovers(reg: Registry, aq: AccountQuota, s: State, j: nat, item: Item, ns: string, k: ResourceName)
    requires CoveredIn(reg, aq, s, ns, k) && j < |s.live| && item.namespace == s.live[j].namespace
    requires Weight(reg, Face(aq), item, k) <= Weight(reg, Face(aq), s.live[j], k)
    ensures CoveredIn(reg, aq, s.(live := s.live[j := item]), ns, k)
  {
    SumReplace(s.live, j, item, (x: Item) => WeightIn(reg, Face(aq), ns, x, k));
  }

  // A step that touches objects only.
  predicate MovesObjects(step: Step) {
    step.Persist? || step.Abandon? || step.Delete? || step.Drift?
  }

  lemma MoveKeepsOrder(setting: Setting, s: State, step: Step)
    requires setting.Valid() && Orderly(setting, s) && Enabled(setting, s, step) && MovesObjects(step)
    ensures Orderly(setting, After(setting, s, step)) && After(setting, s, step).quotas == s.quotas
  {
    var s' := After(setting, s, step);
    match step {
      case Persist(i, j) =>
        assert s.inFlight[i] in s.inFlight;
        assert forall x | x in s'.inFlight :: x in s.inFlight;
        assert forall x | x in s'.live :: x in s.live || x == Target(s.inFlight[i]);
      case Abandon(i) => assert forall x | x in s'.inFlight :: x in s.inFlight;
      case Delete(j) => assert forall x | x in s'.live :: x in s.live;
      case Drift(j, body) =>
        assert s.live[j] in s.live;
        assert forall x | x in s'.live :: x in s.live || x == s.live[j].(body := body);
    }
  }

  lemma MoveKeepsSigns(setting: Setting, s: State, step: Step, aq: AccountQuota, k: ResourceName)
    requires setting.Valid() && Enabled(setting, s, step) && MovesObjects(step)
    requires aq in s.quotas && Tracked(setting.registry, Face(aq), k) && NoneNegative(setting.registry, Face(aq), s, k)
    ensures NoneNegative(setting.registry, Face(aq), After(setting, s, step), k)
  {
    var s' := After(setting, s, step);
    match step {
      case Persist(i, j) =>
        assert s.inFlight[i] in s.inFlight;
        assert forall x | x in s'.inFlight :: x in s.inFlight;
        assert forall x | x in s'.live :: x in s.live || x == Target(s.inFlight[i]);
      case Abandon(i) => assert forall x | x in s'.inFlight :: x in s.inFlight;
      case Delete(j) => assert forall x | x in s'.live :: x in s.live;
      case Drift(j, body) => assert forall x | x in s'.live :: x in s.live || x == s.live[j].(body := body);
    }
  }

  lemma MoveCovers(setting: Setting, s: State, step: Step, aq: AccountQuota, ns: string, k: ResourceName)
    requires setting.Valid() && Orderly(setting, s) && Enabled(setting, s, step) && MovesObjects(step)
    requires aq in s.quotas && Tracked(setting.registry, Face(aq), k) && ns in setting.namespaces
    requires Covered(setting, aq, s, k)
    ensures CoveredIn(setting.registry, aq, After(setting, s, step), ns, k)
  {
    var reg := setting.registry;
    match step {
      case Persist(i, j) =>
        assert s.inFlight[i] in s.inFlight;
        PersistCovers(reg, aq, s, i, j, ns, k);
      case Abandon(i) => AbandonCovers(reg, aq, s, i, ns, k);
      case Delete(j) => DeleteCovers(reg, aq, s, j, ns, k);
      case Drift(j, body) => DriftCovers(reg, aq, s, j, s.live[j].(body := body), ns, k);
    }
  }

  lemma MoveKeepsInv(setting: Setting, s: State, step: Step)
    requires setting.Valid() && Inv(setting, s) && Enabled(setting, s, step) && MovesObjects(step)
    ensures Inv(setting, After(setting, s, step))
  {
    var s' := After(setting, s, step);
    MoveKeepsOrder(setting, s, step);
    forall aq, k | aq in s'.quotas && Tracked(setting.registry, Face(aq), k) ensures Covered(setting, aq, s', k) {
      assert Covered(setting, aq, s, k);
      MoveKeepsSigns(setting, s, step, aq, k);
      forall ns | ns in setting.namespaces { MoveCovers(setting, s, step, aq, ns, k); }
    }
  }

  // ----- a batch -----

  lemma {:induction false} ThroughFrom(ws: seq<Waiter>, answers: seq<Result>, c: Change)
    requires |ws| == |answers| && c in Through(ws, answers)
    ensures exists w :: w in ws && w.change == c
  {
    var n := |ws| - 1;
    if c in Through(ws[..n], answers[..n]) {
      ThroughFrom(ws[..n], answers[..n], c);
    } else {
      assert ws[n] in ws && ws[n].change == c;
    }
  }

  // Everything a batch lets through belongs to its namespace.
  lemma ThroughProposed(setting: Setting, quotas: seq<AccountQuota>, b: Batch, c: Change)
    requires BatchEnabled(setting, quotas, b) && c in Through(b.waiters, AnswersFor(setting.registry, b))
    ensures Proposable(setting, quotas, b.namespace, c)
  {
    ThroughFrom(b.waiters, AnswersFor(setting.registry, b), c);
  }

  // What a batch lets through, namespace by namespace.
  lemma ThroughIn(setting: Setting, quotas: seq<AccountQuota>, b: Batch, q: Quota, ns: string, k: ResourceName)
    requires BatchEnabled(setting, quotas, b)
    ensures var through := Through(b.waiters, AnswersFor(setting.registry, b));
      PendingUsageIn(setting.registry, q, ns, through, k) ==
        if ns == b.namespace then PendingUsage(setting.registry, q, through, k) else 0
  {
    var reg, through := setting.registry, Through(b.waiters, AnswersFor(setting.registry, b));
    forall c | c in through ensures Target(c).namespace == b.namespace {
      ThroughProposed(setting, quotas, b, c);
    }
    if ns == b.namespace {
      SumEqual(through, (c: Change) => PendingIn(reg, q, ns, c, k), (c: Change) => Pending(reg, q, c, k));
    } else {
      SumZero(through, (c: Change) => PendingIn(reg, q, ns, c, k));
    }
  }

  // The books of one quota with the weights read through another face of it.
  lemma SameFace(reg: Registry, aq: AccountQuota, aq': AccountQuota, s: State, ns: string, k: ResourceName)
    requires aq'.scopes == aq.scopes && aq'.selectors == aq.selectors
    ensures LiveIn(reg, Face(aq'), ns, s.live, k) == LiveIn(reg, Face(aq), ns, s.live, k)
    ensures PendingUsageIn(reg, Face(aq'), ns, s.inFlight, k) == PendingUsageIn(reg, Face(aq), ns, s.inFlight, k)
    ensures LiveUsage(reg, Face(aq'), s.live, k) == LiveUsage(reg, Face(aq), s.live, k)
    ensures PendingUsage(reg, Face(aq'), s.inFlight, k) == PendingUsage(reg, Face(aq), s.inFlight, k)
    ensures NoneNegative(reg, Face(aq'), s, k) <==> NoneNegative(reg, Face(aq), s, k)
  {
    var q, q' := Face(aq), Face(aq');
    WeightByTerms(reg, q, q');
    SumEqual(s.live, (x: Item) => WeightIn(reg, q', ns, x, k), (x: Item) => WeightIn(reg, q, ns, x, k));
    SumEqual(s.inFlight, (c: Change) => PendingIn(reg, q', ns, c, k), (c: Change) => PendingIn(reg, q, ns, c, k));
    SumEqual(s.live, (x: Item) => Weight(reg, q', x, k), (x: Item) => Weight(reg, q, x, k));
    SumEqual(s.inFlight, (c: Change) => Pending(reg, q', c, k), (c: Change) => Pending(reg, q, c, k));
  }

  // One quota and one resource after a batch.
  lemma BatchBooks(setting: Setting, s: State, b: Batch, i: nat, k: ResourceName)
    requires setting.Valid() && BatchEnabled(setting, s.quotas, b) && i < |s.quotas| && Conserved(s.quotas[i])
    requires Tracked(setting.registry, Face(s.quotas[i]), k)
    ensures LooksAt(LookFor(setting.registry, b, s.quotas[i].name), s.quotas[i].name)
    ensures var aq, through := s.quotas[i], Through(b.waiters, AnswersFor(setting.registry, b));
      var written := WrittenCharge(setting.registry, b, aq.name, k);
      && GrownBy(aq, Charged(setting.registry, b, s.quotas)[i], b.namespace, written, k)
      && PendingUsage(setting.registry, Face(aq), through, k) <= written
      && (ChargesThrough(setting.registry, b, aq.name) ==>
            PendingUsage(setting.registry, Face(aq), through, k) == written)
      && (forall c | c in through :: Weight(setting.registry, Face(aq), Target(c), k) >= 0)
  {
    hide BatchReads;
    hide NothingForgotten;
    hide GrownBy;
    hide Tracked;
    hide Conserved;
    hide ChargesThrough;
    var reg, answers := setting.registry, AnswersFor(setting.registry, b);
    assert s.quotas[i] in s.quotas;
    ChargedGrows(setting, s.quotas, b, i, k);
    BatchCovers(setting, s.quotas, b, s.quotas[i], |b.waiters|, k);
    assert b.waiters[..|b.waiters|] == b.waiters && answers[..|b.waiters|] == answers;
  }

  // Nobody is charged where it is stored and refused all the same.
  ghost predicate AllChargedThrough(reg: Registry, b: Batch) {
    forall q | q in b.start.bases :: ChargesThrough(reg, b, q.name)
  }

  lemma BatchCoversQuota(setting: Setting, s: State, b: Batch, i: nat, k: ResourceName)
    requires setting.Valid() && BatchEnabled(setting, s.quotas, b) && i < |s.quotas| && Conserved(s.quotas[i])
    requires Tracked(setting.registry, Face(s.quotas[i]), k) && Covered(setting, s.quotas[i], s, k)
    ensures Covered(setting, Charged(setting.registry, b, s.quotas)[i], After(setting, s, FinishBatch(b)), k)
  {
    var reg, aq, s' := setting.registry, s.quotas[i], After(setting, s, FinishBatch(b));
    var aq' := Charged(reg, b, s.quotas)[i];
    var through := Through(b.waiters, AnswersFor(reg, b));
    BatchBooks(setting, s, b, i, k);
    SameFace(reg, aq, aq', s', "", k);
    forall ns | ns in setting.namespaces ensures CoveredIn(reg, aq', s', ns, k) {
      assert CoveredIn(reg, aq, s, ns, k);
      SameFace(reg, aq, aq', s', ns, k);
      ThroughIn(setting, s.quotas, b, Face(aq), ns, k);
      SumConcat(s.inFlight, through, (c: Change) => PendingIn(reg, Face(aq), ns, c, k));
    }
  }

  // A write adds at most a slice of its own namespace.
  lemma WrittenSlices(aq: AccountQuota, q: Quota, slice: Slice)
    requires slice in Accepted(aq, Updated(aq, q)).namespaces
    ensures slice in aq.namespaces || slice.namespace == q.namespace
  {
  }

  lemma ChargedBooked(setting: Setting, quotas: seq<AccountQuota>, b: Batch, i: nat)
    requires BatchReads(setting, quotas, b) && i < |quotas| && Booked(setting, quotas[i])
    ensures Booked(setting, Charged(setting.registry, b, quotas)[i])
  {
    hide Updated;
    hide Conserved;
    var reg, aq, aq' := setting.registry, quotas[i], Charged(setting.registry, b, quotas)[i];
    assert aq in quotas;
    ChargedGrows(setting, quotas, b, i, "");
    forall slice | slice in aq'.namespaces ensures slice.namespace in setting.namespaces {
      if slice !in aq.namespaces {
        WrittenSlices(aq, FinalFor(reg, b, aq.name), slice);
      }
    }
  }

  lemma BatchKeepsInv(setting: Setting, s: State, b: Batch)
    requires setting.Valid() && Inv(setting, s) && Enabled(setting, s, FinishBatch(b))
    ensures Inv(setting, After(setting, s, FinishBatch(b)))
  {
    var reg, s' := setting.registry, After(setting, s, FinishBatch(b));
    var through := Through(b.waiters, AnswersFor(reg, b));
    forall c | c in through ensures Proposable(setting, s.quotas, b.namespace, c) {
      ThroughProposed(setting, s.quotas, b, c);
    }
    forall aq' | aq' in s'.quotas ensures Booked(setting, aq') {
      var i :| 0 <= i < |s'.quotas| && s'.quotas[i] == aq';
      assert s.quotas[i] in s.quotas;
      ChargedBooked(setting, s.quotas, b, i);
    }
    forall aq', k | aq' in s'.quotas && Tracked(reg, Face(aq'), k) ensures Covered(setting, aq', s', k) {
      var i :| 0 <= i < |s'.quotas| && s'.quotas[i] == aq';
      assert s.quotas[i] in s.quotas;
      ChargedGrows(setting, s.quotas, b, i, k);
      assert Tracked(reg, Face(s.quotas[i]), k);
      BatchCoversQuota(setting, s, b, i, k);
    }
  }

  // ----- a charge nobody was let through for -----

  lemma OverchargeCoversQuota(setting: Setting, s: State, aq: AccountQuota, final: Quota, k: ResourceName)
    requires Conserved(aq) && Tracked(setting.registry, Face(aq), k) && Covered(setting, aq, s, k)
    requires SameQuota(ToQuota(aq, final.namespace), final) && GrewWithinHard(ToQuota(aq, final.namespace), final)
    ensures Covered(setting, Accepted(aq, Updated(aq, final)), s, k)
  {
    var reg, aq' := setting.registry, Accepted(aq, Updated(aq, final));
    AcceptedGrows(aq, final, k);
    SameFace(reg, aq, aq', s, "", k);
    forall ns | ns in setting.namespaces ensures CoveredIn(reg, aq', s, ns, k) {
      assert CoveredIn(reg, aq, s, ns, k);
      SameFace(reg, aq, aq', s, ns, k);
    }
  }

  lemma OverchargeKeepsInv(setting: Setting, s: State, i: nat, final: Quota)
    requires setting.Valid() && Inv(setting, s) && Enabled(setting, s, Overcharge(i, final))
    ensures Inv(setting, After(setting, s, Overcharge(i, final)))
  {
    var s', aq := After(setting, s, Overcharge(i, final)), s.quotas[i];
    assert aq in s.quotas;
    AcceptedGrows(aq, final, "");
    forall aq' | aq' in s'.quotas ensures Booked(setting, aq') {
      if aq' !in s.quotas {
        forall slice | slice in aq'.namespaces && slice !in aq.namespaces { WrittenSlices(aq, final, slice); }
      }
    }
    forall aq', k | aq' in s'.quotas && Tracked(setting.registry, Face(aq'), k) ensures Covered(setting, aq', s', k) {
      if aq' in s.quotas {
        assert Covered(setting, aq', s, k);
      } else {
        assert Tracked(setting.registry, Face(aq), k);
        OverchargeCoversQuota(setting, s, aq, final, k);
      }
    }
  }

  // ----- a resync, also with failing evaluators -----

  lemma ResyncedSlice(setting: Setting, s: State, aq: AccountQuota, ns: string, k: ResourceName)
    requires setting.Valid() && Booked(setting, aq) && ns in setting.namespaces && s.inFlight == []
    requires AllReadable(setting.registry, Face(aq), s.live) && Tracked(setting.registry, Face(aq), k)
    requires CoveredIn(setting.registry, aq, s, ns, k)
    ensures LiveIn(setting.registry, Face(aq), ns, s.live, k)
         <= SliceAmount(Synced(aq, SceneOf(setting, s.live)).namespaces, ns, k)
         <= SliceAmount(aq.namespaces, ns, k)
  {
    var scene, checks := SceneOf(setting, s.live), RecountChecks(aq.scopes, aq.selectors);
    SyncedSlice(aq, scene, ns, k);
    if Measurable(scene.evaluators, checks, scene.cluster(ns), k) {
      MeasuredRow(setting, Face(aq), s.live, ns, k);
      RowIsLive(setting, Face(aq), s.live, ns, k);
    }
  }

  // A quota's total is the sum over the account's namespaces.
  lemma TotalByNamespace(setting: Setting, aq: AccountQuota, k: ResourceName)
    requires setting.Valid() && Booked(setting, aq)
    ensures Amount(aq.total.used, k) == Sum(setting.namespaces, ns => SliceAmount(aq.namespaces, ns, k))
  {
    SumByName(aq.namespaces, setting.namespaces, k);
  }

  lemma ResyncedBooked(setting: Setting, aq: AccountQuota, live: seq<Item>)
    requires setting.Valid() && Booked(setting, aq)
    ensures Booked(setting, Accepted(aq, Synced(aq, SceneOf(setting, live))))
  {
    var scene := SceneOf(setting, live);
    forall e | e in scene.evaluators ensures e.Valid() {
      var i :| 0 <= i < |setting.order| && scene.evaluators[i] == e;
      assert setting.order[i] in setting.order;
    }
    SyncedConserves(aq, scene);
  }

  lemma ResyncCoversQuota(setting: Setting, s: State, aq: AccountQuota, k: ResourceName)
    requires setting.Valid() && Booked(setting, aq) && s.inFlight == []
    requires AllReadable(setting.registry, Face(aq), s.live) && Tracked(setting.registry, Face(aq), k)
    requires Covered(setting, aq, s, k)
    ensures Covered(setting, Accepted(aq, Synced(aq, SceneOf(setting, s.live))), s, k)
  {
    var reg, aq' := setting.registry, Accepted(aq, Synced(aq, SceneOf(setting, s.live)));
    ResyncedBooked(setting, aq, s.live);
    SameFace(reg, aq, aq', s, "", k);
    forall ns | ns in setting.namespaces
      ensures CoveredIn(reg, aq', s, ns, k) && SliceAmount(aq'.namespaces, ns, k) <= SliceAmount(aq.namespaces, ns, k)
    {
      assert CoveredIn(reg, aq, s, ns, k);
      ResyncedSlice(setting, s, aq, ns, k);
      SameFace(reg, aq, aq', s, ns, k);
    }
    TotalByNamespace(setting, aq, k);
    TotalByNamespace(setting, aq', k);
    SumAtMost(setting.namespaces, ns => SliceAmount(aq'.namespaces, ns, k), ns => SliceAmount(aq.namespaces, ns, k));
  }

  lemma ResyncKeepsInv(setting: Setting, s: State, i: nat)
    requires setting.Valid() && Inv(setting, s) && Enabled(setting, s, Recalculate(i))
    ensures Inv(setting, After(setting, s, Recalculate(i)))
  {
    var s', scene := After(setting, s, Recalculate(i)), SceneOf(setting, s.live);
    assert s.quotas[i] in s.quotas;
    ResyncedBooked(setting, s.quotas[i], s.live);
    assert s'.quotas[i] == s.quotas[i] || s'.quotas[i] == Accepted(s.quotas[i], Synced(s.quotas[i], scene));
    forall aq', k | aq' in s'.quotas && Tracked(setting.registry, Face(aq'), k) ensures Covered(setting, aq', s', k) {
      if aq' in s.quotas {
        assert Covered(setting, aq', s, k);
      } else {
        assert aq' == s'.quotas[i] && Tracked(setting.registry, Face(s.quotas[i]), k);
        ResyncCoversQuota(setting, s, s.quotas[i], k);
      }
    }
  }

  /**
   A resync gives back what is gone: in a state in order, after a resync without failing evaluators,
   whether or not it had anything to write, the recorded total is exactly the usage of what lives,
   and so is every namespace's slice.
   */
  lemma ResyncRestores(setting: Setting, s: State, i: nat, k: ResourceName)
    requires setting.Valid() && Inv(setting, s) && Enabled(setting, s, Recalculate(i))
    requires ErrorFree(setting, s.live, s.quotas[i]) && Tracked(setting.registry, Face(s.quotas[i]), k)
    ensures var s' := After(setting, s, Recalculate(i));
      && Amount(s'.quotas[i].total.used, k) == LiveUsage(setting.registry, Face(s'.quotas[i]), s'.live, k)
      && forall ns | ns in setting.namespaces ::
           SliceAmount(s'.quotas[i].namespaces, ns, k)
             == LiveIn(setting.registry, Face(s'.quotas[i]), ns, s'.live, k)
  {
    var aq, s' := s.quotas[i], After(setting, s, Recalculate(i));
    assert aq in s.quotas;
    SettledIsRecount(aq, SceneOf(setting, s.live));
    RecountIsLiveUsage(setting, Face(aq), s.live, aq, k);
    SameFace(setting.registry, aq, s'.quotas[i], s, "", k);
    ResyncKeepsInv(setting, s, i);
    assert s'.quotas[i] in s'.quotas && Tracked(setting.registry, Face(s'.quotas[i]), k);
    SlicesAreLive(setting, s', s'.quotas[i], k);
  }

  // Slices that cover what lives, and whose total is what lives, are what lives, namespace by namespace.
  lemma SlicesAreLive(setting: Setting, s: State, aq: AccountQuota, k: ResourceName)
    requires setting.Valid() && Orderly(setting, s) && Booked(setting, aq) && Covered(setting, aq, s, k)
    requires s.inFlight == []
    requires Amount(aq.total.used, k) == LiveUsage(setting.registry, Face(aq), s.live, k)
    ensures forall ns | ns in setting.namespaces ::
      SliceAmount(aq.namespaces, ns, k) == LiveIn(setting.registry, Face(aq), ns, s.live, k)
  {
    var reg := setting.registry;
    forall ns | ns in setting.namespaces
      ensures LiveIn(reg, Face(aq), ns, s.live, k) <= SliceAmount(aq.namespaces, ns, k)
    {
      assert CoveredIn(reg, aq, s, ns, k);
    }
    LiveByNamespace(setting, Face(aq), s.live, k);
    TotalByNamespace(setting, aq, k);
    SumTight(setting.namespaces, ns => LiveIn(reg, Face(aq), ns, s.live, k), ns => SliceAmount(aq.namespaces, ns, k));
  }

  // ----- usage of live objects <= recorded usage <= limit -----

  lemma StepKeepsInv(setting: Setting, s: State, step: Step)
    requires setting.Valid() && Inv(setting, s) && Enabled(setting, s, step)
    ensures Inv(setting, After(setting, s, step))
  {
    match step
    case FinishBatch(b) => BatchKeepsInv(setting, s, b);
    case Overcharge(i, final) => OverchargeKeepsInv(setting, s, i, final);
    case Recalculate(i) => ResyncKeepsInv(setting, s, i);
    case _ => MoveKeepsInv(setting, s, step);
  }

  ghost predicate IsRun(setting: Setting, states: seq<State>, steps: seq<Step>)
    requires setting.Valid()
  {
    && |states| == |steps| + 1
    && forall i | 0 <= i < |steps| ::
         Enabled(setting, states[i], steps[i]) && states[i + 1] == After(setting, states[i], steps[i])
  }

  lemma {:induction false} RunKeepsInv(setting: Setting, states: seq<State>, steps: seq<Step>, n: nat)
    requires setting.Valid() && IsRun(setting, states, steps) && Inv(setting, states[0]) && n < |states|
    ensures Inv(setting, states[n])
  {
    if n > 0 {
      RunKeepsInv(setting, states, steps, n - 1);
      StepKeepsInv(setting, states[n - 1], steps[n - 1]);
    }
  }

  /**
   Over every run of batches, lost replies, failed requests, deletions, shrinking objects and
   resyncs, in every quota and for every limited resource that is measured: in each namespace the
   usage of the live objects never exceeds the namespace's slice, over all namespaces it never
   exceeds the total, and the total never exceeds the limit. A batch may start from stale reads and
   hit any conflicts over any number of retries in any number of quotas, as long as it forgets no
   refusal; by ThroughIsStoredExactly that is all that can go wrong.
   */
  lemma LiveWithinUsedWithinHard(setting: Setting, states: seq<State>, steps: seq<Step>, n: nat, i: nat,
                                 k: ResourceName)
    requires setting.Valid() && IsRun(setting, states, steps) && Inv(setting, states[0])
    requires n < |states| && i < |states[n].quotas| && Tracked(setting.registry, Face(states[n].quotas[i]), k)
    ensures var aq, live := states[n].quotas[i], states[n].live;
      && (forall ns | ns in setting.namespaces ::
            LiveIn(setting.registry, Face(aq), ns, live, k) <= SliceAmount(aq.namespaces, ns, k))
      && LiveUsage(setting.registry, Face(aq), live, k) <= Amount(aq.total.used, k) <= aq.total.hard[k]
  {
    var reg, s, aq := setting.registry, states[n], states[n].quotas[i];
    RunKeepsInv(setting, states, steps, n);
    assert aq in s.quotas && Covered(setting, aq, s, k);
    forall ns | ns in setting.namespaces
      ensures LiveIn(reg, Face(aq), ns, s.live, k) <= SliceAmount(aq.namespaces, ns, k)
    {
      assert CoveredIn(reg, aq, s, ns, k);
      SumAtMost(s.inFlight, (c: Change) => 0, (c: Change) => PendingIn(reg, Face(aq), ns, c, k));
      SumZero(s.inFlight, (c: Change) => 0);
    }
    LiveByNamespace(setting, Face(aq), s.live, k);
    TotalByNamespace(setting, aq, k);
    SumAtMost(setting.namespaces, ns => LiveIn(reg, Face(aq), ns, s.live, k), ns => SliceAmount(aq.namespaces, ns, k));
  }

  // ----- the incremental form agrees with the simple form -----

  // Nothing is recorded beyond what lives and what is to come.
  ghost predicate Exact(reg: Registry, aq: AccountQuota, s: State, k: ResourceName) {
    LiveUsage(reg, Face(aq), s.live, k) + PendingUsage(reg, Face(aq), s.inFlight, k) == Amount(aq.total.used, k)
  }

  // Creates whose charges all belong to requests that were let through, and their arrival.
  ghost predicate OnlyCreates(reg: Registry, step: Step) {
    || step.Persist?
    || (step.FinishBatch? && AllChargedThrough(reg, step.batch)
        && forall w | w in step.batch.waiters :: w.change.Added?)
  }

  /** A batch without a failed write charges nobody it does not let through. */
  lemma SmoothBatchChargesThrough(reg: Registry, b: Batch)
    requires WritesIn(DeciderOf(reg), b.start, RequestsFor(b.waiters)).failed == []
    ensures AllChargedThrough(reg, b)
  {
    var d, rs := DeciderOf(reg), RequestsFor(b.waiters);
    OnlyPass(reg, b);
    forall j | 0 <= j < |b.waiters| && OutcomeIn(d, b.start, rs, j) == AwaitsWrite
      ensures AnswersFor(reg, b)[j] == Allowed
    {
      AnswersExactly(d, b.start, rs, Unanswered(|rs|), b.retries, j);
      assert [b.start][..0] == [];
      assert Outcomes(d, b.start.bases, rs)[j] in Outcomes(d, b.start.bases, rs);
    }
  }

  ghost predicate AllAdded(s: State) {
    forall c | c in s.inFlight :: c.Added?
  }

  predicate SameLimits(aq: AccountQuota, aq': AccountQuota) {
    && aq'.scopes == aq.scopes && aq'.selectors == aq.selectors
    && aq'.total.hard == aq.total.hard && aq'.specHard == aq.specHard
  }

  ghost predicate SameFaces(quotas: seq<AccountQuota>, quotas': seq<AccountQuota>) {
    |quotas| == |quotas'| && forall i | 0 <= i < |quotas| :: SameLimits(quotas[i], quotas'[i])
  }

  lemma BatchExact(setting: Setting, s: State, b: Batch, i: nat, k: ResourceName)
    requires setting.Valid() && BatchEnabled(setting, s.quotas, b) && AllChargedThrough(setting.registry, b)
    requires i < |s.quotas| && Conserved(s.quotas[i]) && Tracked(setting.registry, Face(s.quotas[i]), k)
    requires Exact(setting.registry, s.quotas[i], s, k)
    ensures var s' := After(setting, s, FinishBatch(b)); Exact(setting.registry, s'.quotas[i], s', k)
  {
    var reg, s' := setting.registry, After(setting, s, FinishBatch(b));
    LooksAtAccount(s.quotas, b, s.quotas[i]);
    assert BaseIn(b.start, s.quotas[i].name) in b.start.bases;
    BatchBooks(setting, s, b, i, k);
    SameFace(reg, s.quotas[i], s'.quotas[i], s', "", k);
    SumConcat(s.inFlight, Through(b.waiters, AnswersFor(reg, b)), (c: Change) => Pending(reg, Face(s.quotas[i]), c, k));
  }

  lemma ArrivalExact(reg: Registry, aq: AccountQuota, s: State, n: nat, k: ResourceName)
    requires n < |s.inFlight| && s.inFlight[n].Added? && Exact(reg, aq, s, k)
    ensures Exact(reg, aq, s.(live := s.live + [s.inFlight[n].item], inFlight := Without(s.inFlight, n)), k)
  {
    SumRemove(s.inFlight, n, (x: Change) => Pending(reg, Face(aq), x, k));
    SumAppend(s.live, s.inFlight[n].item, (item: Item) => Weight(reg, Face(aq), item, k));
  }

  // A batch moves no terms of any quota.
  lemma ChargedSameFaces(setting: Setting, quotas: seq<AccountQuota>, b: Batch)
    requires BatchEnabled(setting, quotas, b) && forall aq | aq in quotas :: Conserved(aq)
    ensures SameFaces(quotas, Charged(setting.registry, b, quotas))
  {
    hide BatchReads;
    hide Conserved;
    hide Stores;
    forall i | 0 <= i < |quotas| ensures SameLimits(quotas[i], Charged(setting.registry, b, quotas)[i]) {
      ChargedGrows(setting, quotas, b, i, "");
    }
  }

  lemma CreateStepExact(setting: Setting, s: State, step: Step, i: nat, k: ResourceName)
    requires setting.Valid() && Inv(setting, s) && Enabled(setting, s, step) && OnlyCreates(setting.registry, step)
    requires AllAdded(s)
    requires i < |s.quotas| && Tracked(setting.registry, Face(s.quotas[i]), k)
    requires Exact(setting.registry, s.quotas[i], s, k)
    ensures var s' := After(setting, s, step);
      AllAdded(s') && SameFaces(s.quotas, s'.quotas) && Exact(setting.registry, s'.quotas[i], s', k)
  {
    var reg := setting.registry;
    assert s.quotas[i] in s.quotas;
    match step {
      case FinishBatch(b) =>
        hide Exact;
        hide BatchEnabled;
        forall c | c in Through(b.waiters, AnswersFor(reg, b)) ensures c.Added? {
          ThroughFrom(b.waiters, AnswersFor(reg, b), c);
        }
        ChargedSameFaces(setting, s.quotas, b);
        BatchExact(setting, s, b, i, k);
      case Persist(n, j) =>
        assert s.inFlight[n] in s.inFlight;
        assert forall x | x in After(setting, s, step).inFlight :: x in s.inFlight;
        ArrivalExact(reg, s.quotas[i], s, n, k);
    }
  }

  lemma {:induction false} CreatesStayExact(setting: Setting, states: seq<State>, steps: seq<Step>, n: nat, i: nat,
                                            k: ResourceName)
    requires setting.Valid() && IsRun(setting, states, steps) && Inv(setting, states[0]) && n < |states|
    requires forall step | step in steps :: OnlyCreates(setting.registry, step)
    requires AllAdded(states[0]) && i < |states[0].quotas| && Tracked(setting.registry, Face(states[0].quotas[i]), k)
    requires Exact(setting.registry, states[0].quotas[i], states[0], k)
    ensures AllAdded(states[n]) && SameFaces(states[0].quotas, states[n].quotas)
    ensures Exact(setting.registry, states[n].quotas[i], states[n], k)
  {
    hide Exact;
    hide Inv;
    hide AllAdded;
    hide After;
    hide Enabled;
    if n > 0 {
      CreatesStayExact(setting, states, steps, n - 1, i, k);
      RunKeepsInv(setting, states, steps, n - 1);
      CreateStepExact(setting, states[n - 1], steps[n - 1], i, k);
    }
  }

  /**
   From books that agree with a recount, after any sequence of creates that all arrived, the
   charged total is what recounting every namespace from scratch would find.
   */
  lemma ChargesEqualRecount(setting: Setting, states: seq<State>, steps: seq<Step>, i: nat, k: ResourceName)
    requires setting.Valid() && IsRun(setting, states, steps) && Inv(setting, states[0])
    requires forall step | step in steps :: OnlyCreates(setting.registry, step)
    requires states[0].inFlight == [] && states[|steps|].inFlight == []
    requires i < |states[0].quotas| && i < |states[|steps|].quotas|
    requires Tracked(setting.registry, Face(states[0].quotas[i]), k)
    requires var aq := states[0].quotas[i];
      Amount(aq.total.used, k) == LiveUsage(setting.registry, Face(aq), states[0].live, k)
    requires AllReadable(setting.registry, Face(states[|steps|].quotas[i]), states[|steps|].live)
    requires ErrorFree(setting, states[|steps|].live, states[|steps|].quotas[i])
    ensures var aq := states[|steps|].quotas[i];
      Amount(aq.total.used, k) == Amount(RecalculatedUsage(setting, states[|steps|].live, aq), k)
  {
    var last := states[|steps|];
    CreatesStayExact(setting, states, steps, |steps|, i, k);
    RunKeepsInv(setting, states, steps, |steps|);
    assert last.quotas[i] in last.quotas;
    RecountIsLiveUsage(setting, Face(last.quotas[i]), last.live, last.quotas[i], k);
  }

  // ----- why admitted objects must be visible to the next resync -----

  /**
   A resync that does not see an admitted object forgets its charge: once the object arrives, the
   live usage exceeds the recorded usage by exactly the object's weight.
   */
  lemma ForgottenCharge(setting: Setting, live: seq<Item>, q: Quota, aq: AccountQuota, item: Item, k: ResourceName)
    requires setting.Valid() && Behind(aq, q) && AllReadable(setting.registry, q, live) && ErrorFree(setting, live, aq)
    requires Tracked(setting.registry, q, k)
    requires forall other | other in live :: other.namespace in setting.namespaces
    ensures LiveUsage(setting.registry, q, live + [item], k) - Amount(RecalculatedUsage(setting, live, aq), k)
         == Weight(setting.registry, q, item, k)
  {
    RecountIsLiveUsage(setting, q, live, aq, k);
    SumAppend(live, item, (x: Item) => Weight(setting.registry, q, x, k));
  }
}
