/**
 The books over whole runs: what lives in the account's namespaces, what has been let through but
 is not there yet, and the usage each account quota records, in total and per namespace.
 */
module Ledger {
  import opened Names
  import opened Sums
  import opened ResourceLists
  import opened Objects
  import opened Evaluators
  import opened Admission
  import opened Batches
  import opened Passes
  import opened Looks
  import opened Retries
  import opened AccountQuotas
  import opened AccountQuotaAccessor
  import opened Resync

  datatype Item = Item(namespace: string, kind: GroupResource, body: Object)

  // A request that was let through, on its way to the store.
  datatype Change = Added(item: Item) | Replaced(before: Item, after: Item)

  datatype State = State(live: seq<Item>, inFlight: seq<Change>, quotas: seq<AccountQuota>)

  // The account's fixed surroundings; order is how the registry's map happens to be listed.
  datatype Setting = Setting(registry: Registry, order: seq<GroupResource>, namespaces: seq<string>)
  {
    ghost predicate Valid() {
      && ValidRegistry(registry)
      && IsOrderOf(order, registry)
      && (forall g | g in registry :: registry[g].groupResource == g && registry[g].handles(Create))
      && Distinct(namespaces)
    }
  }

  datatype Waiter = Waiter(change: Change, dryRun: bool)

  /**
   A batch of one namespace: its waiters, the quotas it starts with, read early or late, and how
   every read and write from then on turns out.
   */
  datatype Batch = Batch(namespace: string, waiters: seq<Waiter>, start: Pass, retries: nat)

  datatype Step =
    | FinishBatch(batch: Batch)       // its status writes, or its end without one; its waiters are answered
    | Overcharge(i: nat, final: Quota) // a charge was stored, but its worker was told of an error
    | Persist(i: nat, j: nat)         // j: which live item a replacement hits
    | Abandon(i: nat)                 // the request failed after it was let through
    | Delete(j: nat)
    | Drift(j: nat, body: Object)     // an update no evaluator handles
    | Recalculate(i: nat)             // a resync of one quota, also with failing evaluators

  function Target(c: Change): Item {
    match c case Added(item) => item case Replaced(_, after) => after
  }

  // ----- what an item weighs in a quota -----

  // Weights depend on the quota's scopes only, for whichever namespace it is read.
  function Face(aq: AccountQuota): Quota {
    ToQuota(aq, "")
  }

  function Weight(reg: Registry, q: Quota, item: Item, k: ResourceName): int {
    if item.kind in reg then Contribution(reg[item.kind], AdmissionChecks(q), item.body, k) else 0
  }

  // What is still to come on top of the live items.
  function Pending(reg: Registry, q: Quota, c: Change, k: ResourceName): int {
    match c
    case Added(item) => Weight(reg, q, item, k)
    case Replaced(before, after) => Positive(Weight(reg, q, after, k) - Weight(reg, q, before, k))
  }

  function WeightIn(reg: Registry, q: Quota, ns: string, item: Item, k: ResourceName): int {
    if item.namespace == ns then Weight(reg, q, item, k) else 0
  }

  function PendingIn(reg: Registry, q: Quota, ns: string, c: Change, k: ResourceName): int {
    if Target(c).namespace == ns then Pending(reg, q, c, k) else 0
  }

  ghost function LiveUsage(reg: Registry, q: Quota, live: seq<Item>, k: ResourceName): int {
    Sum(live, (item: Item) => Weight(reg, q, item, k))
  }

  ghost function LiveIn(reg: Registry, q: Quota, ns: string, live: seq<Item>, k: ResourceName): int {
    Sum(live, (item: Item) => WeightIn(reg, q, ns, item, k))
  }

  ghost function PendingUsage(reg: Registry, q: Quota, inFlight: seq<Change>, k: ResourceName): int {
    Sum(inFlight, (c: Change) => Pending(reg, q, c, k))
  }

  ghost function PendingUsageIn(reg: Registry, q: Quota, ns: string, inFlight: seq<Change>, k: ResourceName): int {
    Sum(inFlight, (c: Change) => PendingIn(reg, q, ns, c, k))
  }

  // A limited resource that some evaluator measures.
  predicate Tracked(reg: Registry, q: Quota, k: ResourceName) {
    k in q.hard && exists g | g in reg :: reg[g].Accepts(k)
  }

  // ----- the recount over the live items -----

  function Bodies(live: seq<Item>, ns: string, g: GroupResource): seq<Object> {
    if live == [] then []
    else (if live[0].namespace == ns && live[0].kind == g then [live[0].body] else []) + Bodies(live[1..], ns, g)
  }

  function SceneOf(setting: Setting, live: seq<Item>): Scene
    requires forall g | g in setting.order :: g in setting.registry
  {
    Scene(setting.namespaces, InOrder(setting.registry, setting.order), ns => g => Some(Bodies(live, ns, g)))
  }

  // The recount reads the quota's scopes as admission does.
  predicate Readable(e: Evaluator, q: Quota, o: Object) {
    && AllMatch(e, RecountChecks(q.scopes, q.selectors), o).Some?
    && AllMatch(e, RecountChecks(q.scopes, q.selectors), o) == AllMatch(e, AdmissionChecks(q), o)
  }

  ghost predicate AllReadable(reg: Registry, q: Quota, live: seq<Item>) {
    forall item | item in live && item.kind in reg :: Readable(reg[item.kind], q, item.body)
  }

  // The stored object behind a quota; its slices do not matter here.
  predicate Behind(aq: AccountQuota, q: Quota) {
    aq.scopes == q.scopes && aq.selectors == q.selectors && aq.specHard == q.hard
  }

  ghost predicate ErrorFree(setting: Setting, live: seq<Item>, aq: AccountQuota)
    requires setting.Valid()
  {
    forall ns | ns in setting.namespaces :: !Fails(aq, SceneOf(setting, live), ns)
  }

  ghost function RecalculatedUsage(setting: Setting, live: seq<Item>, aq: AccountQuota): ResourceList
    requires setting.Valid()
  {
    NewTotal(aq, SceneOf(setting, live))
  }

  // ----- a batch -----

  function RequestFor(w: Waiter): Request {
    match w.change
    case Added(item) => Request(item.kind, Create, item.body, NoPrevious, w.dryRun)
    case Replaced(before, after) => Request(after.kind, Update, after.body, Existing(before.body, true), w.dryRun)
  }

  function RequestsFor(ws: seq<Waiter>): seq<Request> {
    seq(|ws|, i requires 0 <= i < |ws| => RequestFor(ws[i]))
  }

  function AnswersFor(reg: Registry, b: Batch): (answers: seq<Result>)
    ensures |answers| == |b.waiters|
  {
    CheckFrom(DeciderOf(reg), b.start, RequestsFor(b.waiters), Unanswered(|RequestsFor(b.waiters)|), b.retries).results
  }

  function PassesFor(reg: Registry, b: Batch): (ps: seq<Pass>)
    ensures ps != [] && ps[0] == b.start
  {
    PassesOf(DeciderOf(reg), b.start, RequestsFor(b.waiters), b.retries)
  }

  // The last pass of the batch that looks at the quota of this name.
  function LookFor(reg: Registry, b: Batch, name: string): (p: Pass)
    ensures LooksAt(b.start, name) ==> LooksAt(p, name)
  {
    PassesFor(reg, b)[LastLook(PassesFor(reg, b), name)]
  }

  // That pass stores the quota.
  predicate Stores(reg: Registry, b: Batch, name: string) {
    StoresIn(DeciderOf(reg), LookFor(reg, b, name), RequestsFor(b.waiters), name)
  }

  // As that pass leaves it.
  function FinalFor(reg: Registry, b: Batch, name: string): Quota
    requires LooksAt(LookFor(reg, b, name), name)
  {
    FinalIn(DeciderOf(reg), LookFor(reg, b, name), RequestsFor(b.waiters), name)
  }

  // The changes that are on their way now: let through, and not merely tried.
  function Through(ws: seq<Waiter>, answers: seq<Result>): seq<Change>
    requires |ws| == |answers|
  {
    if ws == [] then []
    else
      var n := |ws| - 1;
      Through(ws[..n], answers[..n]) + if answers[n] == Allowed && !ws[n].dryRun then [ws[n].change] else []
  }

  // What the store holds after the batch: every quota it stores is written over the one that was there.
  function Charged(reg: Registry, b: Batch, quotas: seq<AccountQuota>): seq<AccountQuota> {
    seq(|quotas|, i requires 0 <= i < |quotas| =>
      if Stores(reg, b, quotas[i].name)
      then Accepted(quotas[i], Updated(quotas[i], FinalFor(reg, b, quotas[i].name)))
      else quotas[i])
  }

  // ----- steps -----

  ghost predicate NoHeavier(reg: Registry, quotas: seq<AccountQuota>, before: Item, after: Item) {
    forall aq, k | aq in quotas && Tracked(reg, Face(aq), k) ::
      0 <= Weight(reg, Face(aq), after, k) <= Weight(reg, Face(aq), before, k)
  }

  // A create, or an update that its evaluator handles, of an object that was itself let through once.
  ghost predicate Proposable(setting: Setting, quotas: seq<AccountQuota>, ns: string, c: Change) {
    && Target(c).namespace == ns
    && (c.Replaced? ==>
          && c.before.namespace == ns && c.after.kind == c.before.kind
          && (c.after.kind in setting.registry ==> setting.registry[c.after.kind].handles(Update))
          && forall aq, k | aq in quotas && Tracked(setting.registry, Face(aq), k) ::
               Weight(setting.registry, Face(aq), c.before, k) >= 0)
  }

  // One read, or the start: the account's quotas, each once, under the terms they are stored with.
  ghost predicate ReadsStored(quotas: seq<AccountQuota>, ns: string, read: seq<Quota>) {
    && DistinctNames(read)
    && forall aq | aq in quotas :: exists q | q in read :: SameTerms(ToQuota(aq, ns), q)
  }

  ghost predicate AllReadsStored(quotas: seq<AccountQuota>, b: Batch) {
    && ReadsStored(quotas, b.namespace, b.start.bases)
    && forall read: seq<Quota> | Some(read) in b.start.world.readResults :: ReadsStored(quotas, b.namespace, read)
  }

  // A write is accepted only over the object it was computed from.
  ghost predicate WritesOverStored(reg: Registry, quotas: seq<AccountQuota>, b: Batch) {
    forall aq | aq in quotas && Stores(reg, b, aq.name) ::
      BaseIn(LookFor(reg, b, aq.name), aq.name) == ToQuota(aq, b.namespace)
  }

  // The change weighs something in this quota.
  ghost predicate CountsFor(reg: Registry, aq: AccountQuota, c: Change) {
    exists k :: Tracked(reg, Face(aq), k) && Pending(reg, Face(aq), c, k) > 0
  }

  /**
   A refusal is forgotten in a quota that counts the waiter's object: the last pass that looks at
   the quota refuses the waiter, and a later pass, over other quotas, lets it pass.
   */
  ghost predicate Forgets(reg: Registry, aq: AccountQuota, b: Batch, j: nat)
    requires j < |b.waiters|
  {
    var ps, rs := PassesFor(reg, b), RequestsFor(b.waiters);
    && !b.waiters[j].dryRun
    && RefusedIn(reg, LookFor(reg, b, aq.name), rs, j)
    && (exists n :: LastLook(ps, aq.name) < n && PassedAt(reg, ps, rs, j, n))
    && CountsFor(reg, aq, b.waiters[j].change)
  }

  ghost predicate NothingForgotten(reg: Registry, quotas: seq<AccountQuota>, b: Batch) {
    forall aq, j | aq in quotas && 0 <= j < |b.waiters| :: !Forgets(reg, aq, b, j)
  }

  ghost predicate BatchReads(setting: Setting, quotas: seq<AccountQuota>, b: Batch) {
    && b.namespace in setting.namespaces
    && (forall w | w in b.waiters :: Proposable(setting, quotas, b.namespace, w.change))
    && AllReadsStored(quotas, b)
    && WritesOverStored(setting.registry, quotas, b)
  }

  ghost predicate BatchEnabled(setting: Setting, quotas: seq<AccountQuota>, b: Batch) {
    BatchReads(setting, quotas, b) && NothingForgotten(setting.registry, quotas, b)
  }

  ghost predicate Enabled(setting: Setting, s: State, step: Step)
    requires setting.Valid()
  {
    match step
    case FinishBatch(b) => BatchEnabled(setting, s.quotas, b)
    case Overcharge(i, final) =>
      && i < |s.quotas| && final.namespace in setting.namespaces
      && SameQuota(ToQuota(s.quotas[i], final.namespace), final)
      && GrewWithinHard(ToQuota(s.quotas[i], final.namespace), final)
    case Persist(i, j) =>
      i < |s.inFlight| && (s.inFlight[i].Replaced? ==> j < |s.live| && s.live[j] == s.inFlight[i].before)
    case Abandon(i) => i < |s.inFlight|
    case Delete(j) => j < |s.live|
    case Drift(j, body) => j < |s.live| && NoHeavier(setting.registry, s.quotas, s.live[j], s.live[j].(body := body))
    case Recalculate(i) =>
      i < |s.quotas| && s.inFlight == [] && AllReadable(setting.registry, Face(s.quotas[i]), s.live)
  }

  function Without<T>(s: seq<T>, i: nat): seq<T>
    requires i < |s|
  {
    s[..i] + s[i + 1..]
  }

  function PutIn(live: seq<Item>, c: Change, j: nat): seq<Item>
    requires c.Replaced? ==> j < |live|
  {
    match c case Added(item) => live + [item] case Replaced(_, after) => live[j := after]
  }

  ghost function After(setting: Setting, s: State, step: Step): State
    requires setting.Valid() && Enabled(setting, s, step)
  {
    match step
    case FinishBatch(b) =>
      s.(inFlight := s.inFlight + Through(b.waiters, AnswersFor(setting.registry, b)),
         quotas := Charged(setting.registry, b, s.quotas))
    case Overcharge(i, final) => s.(quotas := s.quotas[i := Accepted(s.quotas[i], Updated(s.quotas[i], final))])
    case Persist(i, j) => s.(live := PutIn(s.live, s.inFlight[i], j), inFlight := Without(s.inFlight, i))
    case Abandon(i) => s.(inFlight := Without(s.inFlight, i))
    case Delete(j) => s.(live := Without(s.live, j))
    case Drift(j, body) => s.(live := s.live[j := s.live[j].(body := body)])
    case Recalculate(i) =>
      s.(quotas := s.quotas[i := Settled(s.quotas[i], SceneOf(setting, s.live))])
  }

  // ----- an admission covers the weight of what it admits -----

  lemma {:induction false} SameScopesSameMatch(e: Evaluator, checks: seq<Selector>, o: Object, o': Object)
    requires forall s :: e.scopeMatches(s, o) == e.scopeMatches(s, o')
    ensures AllMatch(e, checks, o) == AllMatch(e, checks, o')
  {
    if checks != [] {
      SameScopesSameMatch(e, checks[1..], o, o');
    }
  }

  // What an admitted handled request does to one of the quotas.
  lemma AdmittedDelta(e: Evaluator, quotas: seq<Quota>, r: Request, i: nat, k: ResourceName)
    requires e.handles(r.operation) && Decide(e, quotas, r).Admitted? && i < |quotas| && k in quotas[i].hard
    ensures var q := quotas[i];
      && DeltaOf(e, r).Delta?
      && !Screen(e, q, r.item).Fault?
      && |Decide(e, quotas, r).quotas| == |quotas|
      && Amount(Decide(e, quotas, r).quotas[i].used, k)
         == Amount(q.used, k) + if Screen(e, q, r.item) == Interesting then Amount(DeltaOf(e, r).amounts, k) else 0
  {
    AdmittedExactly(e, quotas, r);
  }

  // A quota that is skipped carries no weight for the object.
  lemma SkippedWeighsNothing(e: Evaluator, q: Quota, o: Object, k: ResourceName)
    requires e.Valid() && k in q.hard && Screen(e, q, o) == Skipped
    ensures Contribution(e, AdmissionChecks(q), o, k) == 0
  {
    if AllMatch(e, AdmissionChecks(q), o) == Some(true) {
      assert k !in Restricted(e, q);
    }
  }

  /** The charge of an admitted create is the new item's weight, in every quota of the account. */
  lemma CreateCharges(reg: Registry, quotas: seq<Quota>, item: Item, dryRun: bool, i: nat, k: ResourceName)
    requires ValidRegistry(reg) && i < |quotas| && k in quotas[i].hard
    requires item.kind in reg ==> reg[item.kind].handles(Create)
    requires DecideIn(reg, quotas, RequestFor(Waiter(Added(item), dryRun))).Admitted?
    ensures var quotas' := DecideIn(reg, quotas, RequestFor(Waiter(Added(item), dryRun))).quotas;
      && |quotas'| == |quotas|
      && Amount(quotas'[i].used, k) == Amount(quotas[i].used, k) + Weight(reg, quotas[i], item, k)
    ensures Weight(reg, quotas[i], item, k) >= 0
  {
    if item.kind in reg {
      var e, q := reg[item.kind], quotas[i];
      AdmittedDelta(e, quotas, RequestFor(Waiter(Added(item), dryRun)), i, k);
      if Screen(e, q, item.body) == Skipped {
        SkippedWeighsNothing(e, q, item.body, k);
      }
    }
  }

  /** The charge of an admitted update is the growth in weight, never a negative amount. */
  lemma UpdateCharges(reg: Registry, quotas: seq<Quota>, before: Item, after: Item, dryRun: bool, i: nat,
                      k: ResourceName)
    requires ValidRegistry(reg) && i < |quotas| && k in quotas[i].hard && after.kind == before.kind
    requires after.kind in reg ==> reg[after.kind].handles(Update)
    requires DecideIn(reg, quotas, RequestFor(Waiter(Replaced(before, after), dryRun))).Admitted?
    requires Weight(reg, quotas[i], before, k) >= 0
    ensures var quotas' := DecideIn(reg, quotas, RequestFor(Waiter(Replaced(before, after), dryRun))).quotas;
      && |quotas'| == |quotas|
      && Amount(quotas'[i].used, k) == Amount(quotas[i].used, k) + Pending(reg, quotas[i], Replaced(before, after), k)
    ensures Weight(reg, quotas[i], after, k) >= 0
  {
    hide Decide;
    if after.kind in reg {
      var e, q, r := reg[after.kind], quotas[i], RequestFor(Waiter(Replaced(before, after), dryRun));
      AdmittedDelta(e, quotas, r, i, k);
      SameScopesSameMatch(e, AdmissionChecks(q), after.body, before.body);
      if Screen(e, q, after.body) == Skipped {
        SkippedWeighsNothing(e, q, after.body, k);
        assert Weight(reg, q, before, k) == 0 by {
          if AllMatch(e, AdmissionChecks(q), before.body) == Some(true) {
            assert k !in Restricted(e, q);
          }
        }
      }
    }
  }

  // Weights depend on a quota's terms only.
  lemma WeightByTerms(reg: Registry, q: Quota, q': Quota)
    requires q.scopes == q'.scopes && q.selectors == q'.selectors
    ensures forall item, k :: Weight(reg, q', item, k) == Weight(reg, q, item, k)
    ensures forall c, k :: Pending(reg, q', c, k) == Pending(reg, q, c, k)
  {
    assert AdmissionChecks(q') == AdmissionChecks(q);
  }
}
