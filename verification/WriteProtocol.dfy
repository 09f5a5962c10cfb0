/**
 Any number of admission workers, the resync controller and the owner of the quota writing one
 account quota: reads lag behind, the lock covers check and write but not the first read, and
 the accessor's cache and the informer are updated in steps of their own.
 */
module WriteProtocol {
  import opened Sums
  import opened ResourceLists
  import opened Objects
  import opened Admission
  import opened Batches
  import opened AccountQuotas
  import opened AccountQuotaAccessor
  import opened Resync

  // A batch of requests of one namespace, and which of the quotas it was read with is the one at hand.
  datatype Work = Work(namespace: string, quotas: seq<Quota>, requests: seq<Request>, index: nat)

  datatype Phase =
    | Idle
    | Checking(work: Work)                      // quotas read, lock not yet held
    | Holding(work: Work)                       // lock held
    | Based(work: Work, base: AccountQuota)     // inside the status update, after its own read
    | Stored(version: nat)                      // written, not yet in the look-aside cache
    | Finished
    | Retrying                                  // the write was answered with an error

  // Why a version came to be.
  datatype Cause = Charged(namespace: string, charge: ResourceList) | Recounted | Edited

  /** Every version of the object so far, the last one being the stored one; versions are positions. */
  datatype State = State(
    history: seq<AccountQuota>,
    causes: seq<Cause>,
    informer: nat,
    cache: Option<nat>,
    holder: Option<nat>,
    phases: seq<Phase>)

  datatype Step =
    | ReadQuotas(w: nat, work: Work)
    | Acquire(w: nat)
    | ReadBase(w: nat)
    | WriteStatus(w: nat, heard: bool)          // heard: the store's reply reaches the worker
    | FailWrite(w: nat)                         // the read or the write inside the update fails
    | Remember(w: nat)
    | ReadAgain(w: nat, work: Work)
    | Release(w: nat)
    | Informed(version: nat)
    | ResyncWrite(scene: Scene)
    | EditSpec(scopes: seq<ScopeName>, selectors: seq<Selector>, hard: ResourceList)

  function Last(s: State): AccountQuota
    requires s.history != []
  {
    s.history[|s.history| - 1]
  }

  // The version a read returns: the cached one if the informer is still behind it.
  function Freshest(s: State): nat {
    if s.cache.Some? && s.informer < s.cache.value then s.cache.value else s.informer
  }

  function AfterCheck(s: State): State {
    if s.cache.Some? && s.informer >= s.cache.value then s.(cache := None) else s
  }

  predicate ReadWith(s: State, work: Work) {
    && work.index < |work.quotas|
    && Freshest(s) < |s.history|
    && work.quotas[work.index] == ToQuota(s.history[Freshest(s)], work.namespace)
  }

  ghost predicate Enabled(s: State, step: Step) {
    && s.history != []
    && match step {
      case ReadQuotas(w, work) => w < |s.phases| && s.phases[w].Idle? && ReadWith(s, work)
      case Acquire(w) => w < |s.phases| && s.phases[w].Checking? && s.holder == None
      case ReadBase(w) => w < |s.phases| && s.phases[w].Holding? && Freshest(s) < |s.history|
      case WriteStatus(w, _) =>
        w < |s.phases| && s.phases[w].Based? && s.phases[w].work.index < |s.phases[w].work.quotas|
      case FailWrite(w) => w < |s.phases| && (s.phases[w].Holding? || s.phases[w].Based?)
      case Remember(w) => w < |s.phases| && s.phases[w].Stored?
      case ReadAgain(w, work) => w < |s.phases| && s.phases[w].Retrying? && ReadWith(s, work)
      case Release(w) => w < |s.phases| && (s.phases[w].Holding? || s.phases[w].Finished? || s.phases[w].Retrying?)
      case Informed(v) => s.informer <= v < |s.history|
      case ResyncWrite(scene) => scene.Valid() && Dirty(Last(s), scene)
      case EditSpec(_, _, _) => true
    }
  }

  // The quota as the batch leaves it, and what the batch added.
  function Final(reg: Registry, work: Work): Quota
    requires work.index < |work.quotas|
  {
    RunningSameQuotas(DeciderOf(reg), work.quotas, work.requests);
    Running(DeciderOf(reg), work.quotas, work.requests)[work.index]
  }

  function ChargeOfWork(reg: Registry, work: Work): ResourceList
    requires work.index < |work.quotas|
  {
    BatchCharge(reg, work.quotas, work.requests, work.index)
  }

  function Move(s: State, w: nat, p: Phase): State
    requires w < |s.phases|
  {
    s.(phases := s.phases[w := p])
  }

  function EditedSpec(aq: AccountQuota, scopes: seq<ScopeName>, selectors: seq<Selector>, hard: ResourceList)
    : AccountQuota
  {
    aq.(version := aq.version + 1, scopes := scopes, selectors := selectors, specHard := hard)
  }

  function Commit(s: State, next: AccountQuota, cause: Cause): State {
    s.(history := s.history + [next], causes := s.causes + [cause])
  }

  ghost function After(reg: Registry, s: State, step: Step): State
    requires Enabled(s, step)
  {
    match step {
      case ReadQuotas(w, work) => Move(AfterCheck(s), w, Checking(work))
      case Acquire(w) => Move(s, w, Holding(s.phases[w].work)).(holder := Some(w))
      case ReadBase(w) => Move(AfterCheck(s), w, Based(s.phases[w].work, s.history[Freshest(s)]))
      case WriteStatus(w, heard) =>
        var work, base := s.phases[w].work, s.phases[w].base;
        var final := Final(reg, work);
        if final.version != Last(s).version then Move(s, w, Retrying)
        else
          Commit(Move(s, w, if heard then Stored(|s.history|) else Retrying),
                 Accepted(Last(s), Updated(base, final)), Charged(work.namespace, ChargeOfWork(reg, work)))
      case FailWrite(w) => Move(s, w, Retrying)
      case Remember(w) => Move(s, w, Finished).(cache := Some(s.phases[w].version))
      case ReadAgain(w, work) => Move(AfterCheck(s), w, Holding(work))
      case Release(w) => Move(s, w, Idle).(holder := None)
      case Informed(v) => s.(informer := v)
      case ResyncWrite(scene) => Commit(s, Accepted(Last(s), Synced(Last(s), scene)), Recounted)
      case EditSpec(scopes, selectors, hard) =>
        Commit(s, EditedSpec(Last(s), scopes, selectors, hard), Edited)
    }
  }

  // ----- the invariant -----

  // What an admission write did to the stored object.
  ghost predicate ExactCharge(before: AccountQuota, after: AccountQuota, ns: string, charge: ResourceList) {
    && after.total.used == Plus(before.total.used, charge)
    && after.total.hard == before.total.hard
    && GrewWithinHard(ToQuota(before, ns), ToQuota(after, ns))
    && (forall other, k :: SliceAmount(after.namespaces, other, k)
         == SliceAmount(before.namespaces, other, k) + if other == ns then Amount(charge, k) else 0)
  }

  ghost predicate Explained(before: AccountQuota, after: AccountQuota, cause: Cause) {
    match cause
    case Charged(ns, charge) => ExactCharge(before, after, ns, charge)
    case Recounted => after.total.hard == before.specHard && after.specHard == before.specHard
    case Edited => after.total == before.total && after.namespaces == before.namespaces
  }

  ghost predicate HistoryOk(s: State) {
    && |s.history| == |s.causes| + 1
    && (forall v | 0 <= v < |s.history| :: s.history[v].version == v && Conserved(s.history[v]))
    && (forall v | 0 <= v < |s.causes| :: Explained(s.history[v], s.history[v + 1], s.causes[v]))
  }

  ghost predicate WorkOk(s: State, work: Work) {
    && work.index < |work.quotas|
    && work.quotas[work.index].version <= Freshest(s)
    && Freshest(s) < |s.history|
    && work.quotas[work.index] == ToQuota(s.history[work.quotas[work.index].version], work.namespace)
  }

  ghost predicate PhaseOk(s: State, w: nat)
    requires w < |s.phases|
  {
    match s.phases[w]
    case Idle => true
    case Checking(work) => WorkOk(s, work)
    case Holding(work) => s.holder == Some(w) && WorkOk(s, work)
    case Based(work, base) =>
      && s.holder == Some(w) && WorkOk(s, work)
      && work.quotas[work.index].version <= base.version < |s.history| && base == s.history[base.version]
    case Stored(v) => s.holder == Some(w) && v < |s.history| && (s.cache.Some? ==> s.cache.value <= v)
    case Finished => s.holder == Some(w)
    case Retrying => s.holder == Some(w)
  }

  ghost predicate Inv(s: State) {
    && HistoryOk(s)
    && Freshest(s) < |s.history|
    && (s.cache.Some? ==> s.cache.value < |s.history|)
    && (forall w | 0 <= w < |s.phases| :: PhaseOk(s, w))
  }

  // Whatever else a step does, what the other workers hold stays right while reads only get fresher.
  lemma OthersStayOk(s: State, s': State, w: nat)
    requires w < |s.phases| == |s'.phases| && s'.phases[w] == s.phases[w] && PhaseOk(s, w)
    requires s.history <= s'.history && Freshest(s) <= Freshest(s') < |s'.history|
    requires s.holder == Some(w) ==> s'.holder == Some(w)
    requires s'.cache == s.cache || s'.cache == None || s.holder != Some(w)
    ensures PhaseOk(s', w)
  {
    match s.phases[w]
    case Checking(work) =>
      assert s'.history[work.quotas[work.index].version] == s.history[work.quotas[work.index].version];
    case Holding(work) =>
      assert s'.history[work.quotas[work.index].version] == s.history[work.quotas[work.index].version];
    case Based(work, base) =>
      assert s'.history[work.quotas[work.index].version] == s.history[work.quotas[work.index].version];
      assert s'.history[base.version] == s.history[base.version];
    case _ =>
  }

  /**
   A write is accepted exactly when its quota was read from the stored object; it then charges that
   object with exactly what its batch was admitted for.
   */
  lemma WriteIsExact(reg: Registry, s: State, w: nat)
    requires Inv(s) && Enabled(s, WriteStatus(w, true))
    ensures var work, base := s.phases[w].work, s.phases[w].base;
      && (Final(reg, work).version == Last(s).version <==> work.quotas[work.index] == ToQuota(Last(s), work.namespace))
      && (Final(reg, work).version == Last(s).version ==>
           && base == Last(s)
           && var after := Accepted(Last(s), Updated(base, Final(reg, work)));
              ExactCharge(Last(s), after, work.namespace, ChargeOfWork(reg, work)) && Conserved(after))
  {
    var work, base := s.phases[w].work, s.phases[w].base;
    assert PhaseOk(s, w);
    var final := Final(reg, work);
    RunningSameQuotas(DeciderOf(reg), work.quotas, work.requests);
    RunningIsCharge(reg, work.quotas, work.requests, work.index);
    assert SameQuota(work.quotas[work.index], final);
    if final.version == Last(s).version {
      assert base == Last(s);
      ExactAfter(base, final, ChargeOfWork(reg, work));
    }
  }

  lemma ExactAfter(base: AccountQuota, final: Quota, charge: ResourceList)
    requires Conserved(base)
    requires SameQuota(ToQuota(base, final.namespace), final) && GrewWithinHard(ToQuota(base, final.namespace), final)
    requires final.used == Plus(base.total.used, charge)
    ensures ExactCharge(base, Accepted(base, Updated(base, final)), final.namespace, charge)
    ensures Conserved(Accepted(base, Updated(base, final)))
  {
    UpdatedConserves(base, final);
    forall other, k
      ensures SliceAmount(Updated(base, final).namespaces, other, k)
           == SliceAmount(base.namespaces, other, k) + if other == final.namespace then Amount(charge, k) else 0
    {
      UpdatedSlice(base, final, other, k);
      assert Amount(final.used, k) == Amount(base.total.used, k) + Amount(charge, k);
    }
  }

  lemma CommitKeepsHistory(s: State, next: AccountQuota, cause: Cause)
    requires HistoryOk(s) && next.version == |s.history| && Conserved(next) && Explained(Last(s), next, cause)
    ensures HistoryOk(Commit(s, next, cause))
  {
  }

  lemma CommitKeepsInv(s: State, next: AccountQuota, cause: Cause)
    requires Inv(s) && next.version == |s.history| && Conserved(next) && Explained(Last(s), next, cause)
    ensures Inv(Commit(s, next, cause))
  {
    var s' := Commit(s, next, cause);
    CommitKeepsHistory(s, next, cause);
    forall w | 0 <= w < |s.phases| ensures PhaseOk(s', w) {
      OthersStayOk(s, s', w);
    }
  }

  lemma StepKeepsInv(reg: Registry, s: State, step: Step)
    requires Inv(s) && Enabled(s, step)
    ensures Inv(After(reg, s, step))
  {
    var s' := After(reg, s, step);
    match step {
      case WriteStatus(w, heard) => WriteKeepsInv(reg, s, w, heard);
      case ResyncWrite(scene) =>
        SyncedConserves(Last(s), scene);
        CommitKeepsInv(s, Accepted(Last(s), Synced(Last(s), scene)), Recounted);
      case EditSpec(scopes, selectors, hard) =>
        CommitKeepsInv(s, EditedSpec(Last(s), scopes, selectors, hard), Edited);
      case _ =>
        QuietStepKeepsInv(reg, s, step);
    }
  }

  // A step that adds no version.
  predicate Quiet(step: Step) {
    !step.WriteStatus? && !step.ResyncWrite? && !step.EditSpec?
  }

  lemma QuietStepReads(reg: Registry, s: State, step: Step)
    requires Inv(s) && Enabled(s, step) && Quiet(step)
    ensures var s' := After(reg, s, step);
      && s'.history == s.history && s'.causes == s.causes && |s'.phases| == |s.phases|
      && Freshest(s) <= Freshest(s') < |s'.history|
      && (s'.cache.Some? ==> s'.cache.value < |s'.history|)
  {
    if step.Remember? {
      assert PhaseOk(s, step.w);
    }
  }

  lemma QuietStepKeepsInv(reg: Registry, s: State, step: Step)
    requires Inv(s) && Enabled(s, step) && Quiet(step)
    ensures Inv(After(reg, s, step))
  {
    var s' := After(reg, s, step);
    QuietStepReads(reg, s, step);
    forall w | 0 <= w < |s.phases| ensures PhaseOk(s', w) {
      if s'.phases[w] == s.phases[w] && !(step.Release? && step.w == w) {
        OthersUnderStep(reg, s, step, w);
      } else {
        OwnStep(reg, s, step, w);
      }
    }
  }

  lemma OwnStep(reg: Registry, s: State, step: Step, w: nat)
    requires Inv(s) && Enabled(s, step) && Quiet(step) && w < |s.phases|
    requires After(reg, s, step).phases[w] != s.phases[w] || (step.Release? && step.w == w)
    ensures PhaseOk(After(reg, s, step), w)
  {
    assert PhaseOk(s, w);
    QuietStepReads(reg, s, step);
  }

  lemma OthersUnderStep(reg: Registry, s: State, step: Step, w: nat)
    requires Inv(s) && Enabled(s, step) && Quiet(step)
    requires w < |s.phases| && After(reg, s, step).phases[w] == s.phases[w] && !(step.Release? && step.w == w)
    ensures PhaseOk(After(reg, s, step), w)
  {
    assert PhaseOk(s, w);
    QuietStepReads(reg, s, step);
    if step.Release? || step.Remember? || step.Acquire? {
      assert PhaseOk(s, step.w);
    }
    OthersStayOk(s, After(reg, s, step), w);
  }

  lemma WriteKeepsInv(reg: Registry, s: State, w: nat, heard: bool)
    requires Inv(s) && Enabled(s, WriteStatus(w, heard))
    ensures Inv(After(reg, s, WriteStatus(w, heard)))
  {
    hide ExactCharge;
    hide Conserved;
    hide Updated;
    var s' := After(reg, s, WriteStatus(w, heard));
    WriteIsExact(reg, s, w);
    assert PhaseOk(s, w);
    var work, base := s.phases[w].work, s.phases[w].base;
    if Final(reg, work).version == Last(s).version {
      CommitKeepsHistory(s, Accepted(Last(s), Updated(base, Final(reg, work))),
        Charged(work.namespace, ChargeOfWork(reg, work)));
    }
    forall u | 0 <= u < |s.phases| ensures PhaseOk(s', u) {
      if u != w {
        OthersStayOk(s, s', u);
      }
    }
  }

  // ----- the reads of the protocol are the accessor's -----

  // The look-aside cache as the accessor holds it.
  function LookAside(s: State, name: string): map<string, AccountQuota>
    requires s.cache.Some? ==> s.cache.value < |s.history|
  {
    if s.cache.Some? then map[name := s.history[s.cache.value]] else map[]
  }

  /** The version a step reads is the one that CheckCache makes of the informer's, and so is the cache it leaves. */
  lemma ReadsAreTheAccessors(s: State)
    requires Inv(s)
    ensures s.informer < |s.history|
    ensures var aq := s.history[s.informer];
      && Fresher(LookAside(s, aq.name), aq) == s.history[Freshest(s)]
      && Expired(LookAside(s, aq.name), aq) == LookAside(AfterCheck(s), aq.name)
  {
    var aq := s.history[s.informer];
    assert aq.version == s.informer;
    if s.cache.Some? {
      assert s.history[s.cache.value].version == s.cache.value;
      assert map[aq.name := s.history[s.cache.value]] - {aq.name} == map[];
    }
  }

  // ----- runs -----

  ghost predicate Initial(s: State) {
    && |s.history| == 1 && s.causes == [] && s.informer == 0 && s.cache == None && s.holder == None
    && s.history[0].version == 0 && Conserved(s.history[0])
    && forall w | 0 <= w < |s.phases| :: s.phases[w].Idle?
  }

  ghost predicate IsRun(reg: Registry, states: seq<State>, steps: seq<Step>) {
    && |states| == |steps| + 1
    && Initial(states[0])
    && forall i | 0 <= i < |steps| :: Enabled(states[i], steps[i]) && states[i + 1] == After(reg, states[i], steps[i])
  }

  lemma InitialInv(s: State)
    requires Initial(s)
    ensures Inv(s)
  {
  }

  lemma {:induction false} RunsKeepInv(reg: Registry, states: seq<State>, steps: seq<Step>, n: nat)
    requires IsRun(reg, states, steps) && n < |states|
    ensures Inv(states[n])
  {
    InitialInv(states[0]);
    hide Inv;
    hide Initial;
    hide Enabled;
    hide After;
    if n > 0 {
      RunsKeepInv(reg, states, steps, n - 1);
      StepKeepsInv(reg, states[n - 1], steps[n - 1]);
    }
  }

  /** In every reachable state every stored version has one slice per namespace, adding up to the total. */
  lemma EveryVersionConserved(reg: Registry, states: seq<State>, steps: seq<Step>, n: nat, v: nat)
    requires IsRun(reg, states, steps) && n < |states| && v < |states[n].history|
    ensures Conserved(states[n].history[v])
  {
    RunsKeepInv(reg, states, steps, n);
  }

  /**
   No charge is lost under any interleaving: a status write is accepted exactly when its batch read
   the stored quota, and then the stored total grows by what that batch was admitted for, under the
   limits that were stored, in its own slice, whether or not the worker hears of it.
   */
  lemma NoLostCharges(reg: Registry, states: seq<State>, steps: seq<Step>, n: nat)
    requires IsRun(reg, states, steps) && n < |steps| && steps[n].WriteStatus?
    ensures var before, after := states[n], states[n + 1];
      var work := before.phases[steps[n].w].work;
      if work.quotas[work.index] == ToQuota(Last(before), work.namespace)
      then
        && after.history == before.history + [Last(after)]
        && ExactCharge(Last(before), Last(after), work.namespace, ChargeOfWork(reg, work))
        && after.phases[steps[n].w] == if steps[n].heard then Stored(|before.history|) else Retrying
      else after.history == before.history && after.phases[steps[n].w] == Retrying
  {
    RunsKeepInv(reg, states, steps, n);
    WriteIsExact(reg, states[n], steps[n].w);
  }

  ghost function ChargesOf(causes: seq<Cause>, k: ResourceName): int {
    Sum(causes, (c: Cause) => if c.Charged? then Amount(c.charge, k) else 0)
  }

  // Admission alone: the total is the sum of all charges, within the limit if it was before.
  lemma {:induction false} OnlyCharges(s: State, n: nat, k: ResourceName)
    requires HistoryOk(s) && n <= |s.causes| && forall v | 0 <= v < n :: s.causes[v].Charged?
    ensures s.history[n].total.hard == s.history[0].total.hard
    ensures Amount(s.history[n].total.used, k) == Amount(s.history[0].total.used, k) + ChargesOf(s.causes[..n], k)
    ensures k in s.history[0].total.hard && Amount(s.history[0].total.used, k) <= s.history[0].total.hard[k]
      ==> Amount(s.history[n].total.used, k) <= s.history[0].total.hard[k]
  {
    if n > 0 {
      OnlyCharges(s, n - 1, k);
      var cause := s.causes[n - 1];
      assert Explained(s.history[n - 1], s.history[n], cause);
      assert s.causes[..n] == s.causes[..n - 1] + [cause];
      SumAppend(s.causes[..n - 1], cause, (c: Cause) => if c.Charged? then Amount(c.charge, k) else 0);
      assert ToQuota(s.history[n], cause.namespace).used == s.history[n].total.used;
      assert ToQuota(s.history[n - 1], cause.namespace).used == s.history[n - 1].total.used;
    }
  }

  /**
   As long as only admission writes, the stored total is the initial one plus every charge ever
   accepted, each once, and a limit that held at the start holds in every version.
   */
  lemma TotalIsEveryCharge(reg: Registry, states: seq<State>, steps: seq<Step>, n: nat, k: ResourceName)
    requires IsRun(reg, states, steps) && n < |states|
    requires forall i | 0 <= i < n :: !steps[i].ResyncWrite? && !steps[i].EditSpec?
    ensures states[n].history != []
    ensures var first, last := states[n].history[0], Last(states[n]);
      && Amount(last.total.used, k) == Amount(first.total.used, k) + ChargesOf(states[n].causes, k)
      && (k in first.total.hard && Amount(first.total.used, k) <= first.total.hard[k]
          ==>
            && k in last.total.hard && last.total.hard[k] == first.total.hard[k]
            && Amount(last.total.used, k) <= first.total.hard[k])
  {
    RunsKeepInv(reg, states, steps, n);
    CausesAreCharges(reg, states, steps, n);
    OnlyCharges(states[n], |states[n].causes|, k);
    assert states[n].causes[..|states[n].causes|] == states[n].causes;
  }

  lemma {:induction false} CausesAreCharges(reg: Registry, states: seq<State>, steps: seq<Step>, n: nat)
    requires IsRun(reg, states, steps) && n < |states|
    requires forall i | 0 <= i < n :: !steps[i].ResyncWrite? && !steps[i].EditSpec?
    ensures forall c | c in states[n].causes :: c.Charged?
    ensures |states[n].history| == |states[n].causes| + 1
  {
    RunsKeepInv(reg, states, steps, n);
    if n > 0 {
      CausesAreCharges(reg, states, steps, n - 1);
    }
  }

  /** Two workers are never between taking the lock and giving it back at the same time. */
  lemma OneHolder(reg: Registry, states: seq<State>, steps: seq<Step>, n: nat, w: nat, u: nat)
    requires IsRun(reg, states, steps) && n < |states| && w < |states[n].phases| && u < |states[n].phases|
    requires !states[n].phases[w].Idle? && !states[n].phases[w].Checking?
    requires !states[n].phases[u].Idle? && !states[n].phases[u].Checking?
    ensures w == u
  {
    RunsKeepInv(reg, states, steps, n);
    assert PhaseOk(states[n], w) && PhaseOk(states[n], u);
  }
}
