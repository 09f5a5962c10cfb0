/**
 Batch admission: all waiters of a namespace are checked against running copies of the
 quotas, the changed quotas are written once, and failed writes are retried.
 */
module Batches {
  import opened ResourceLists
  import opened Objects
  import opened Evaluators
  import opened Admission

  type Registry = map<GroupResource, Evaluator>

  ghost predicate ValidRegistry(reg: Registry) {
    forall g | g in reg :: reg[g].Valid()
  }

  datatype Result = DefaultDeny | Allowed | Denied(reason: Reason)

  function DecideIn(reg: Registry, quotas: seq<Quota>, r: Request): Decision {
    if r.kind in reg then Decide(reg[r.kind], quotas, r) else Admitted(quotas)
  }

  // All that the batch logic relies on: admission changes nothing but usage, and only within the limits.
  ghost predicate Sound(d: (seq<Quota>, Request) -> Decision) {
    forall quotas, r :: d(quotas, r).Admitted? ==>
      && SameQuotas(quotas, d(quotas, r).quotas)
      && forall i | 0 <= i < |quotas| :: GrewWithinHard(quotas[i], d(quotas, r).quotas[i])
  }

  type Decider = d: (seq<Quota>, Request) -> Decision | Sound(d)
    witness (quotas: seq<Quota>, r: Request) => Admitted(quotas)

  lemma DecideInSound(reg: Registry)
    ensures Sound((quotas, r) => DecideIn(reg, quotas, r))
  {
    forall quotas, r | DecideIn(reg, quotas, r).Admitted?
      ensures SameQuotas(quotas, DecideIn(reg, quotas, r).quotas)
      ensures forall i | 0 <= i < |quotas| :: GrewWithinHard(quotas[i], DecideIn(reg, quotas, r).quotas[i])
    {
      if r.kind in reg {
        AdmittedGrowsWithinHard(reg[r.kind], quotas, r);
      }
    }
  }

  function DeciderOf(reg: Registry): Decider {
    DecideInSound(reg);
    (quotas, r) => DecideIn(reg, quotas, r)
  }

  predicate UsageChanged(quotas: seq<Quota>, quotas': seq<Quota>) {
    exists i | 0 <= i < |quotas| && i < |quotas'| :: quotas[i].used != quotas'[i].used
  }

  // AwaitsWrite: charged to a running quota, to be answered once the quotas are written.
  datatype Outcome = Decided(result: Result) | AwaitsWrite

  function OutcomeOf(d: Decider, quotas: seq<Quota>, r: Request): Outcome {
    match d(quotas, r)
    case Refused(reason) => Decided(Denied(reason))
    case Admitted(quotas') => if !r.dryRun && UsageChanged(quotas, quotas') then AwaitsWrite else Decided(Allowed)
  }

  function Next(d: Decider, quotas: seq<Quota>, r: Request): seq<Quota> {
    match d(quotas, r)
    case Refused(_) => quotas
    case Admitted(quotas') => if r.dryRun then quotas else quotas'
  }

  // The running quotas after a list of requests.
  function Running(d: Decider, quotas: seq<Quota>, rs: seq<Request>): seq<Quota> {
    if rs == [] then quotas else Next(d, Running(d, quotas, rs[..|rs| - 1]), rs[|rs| - 1])
  }

  function Outcomes(d: Decider, quotas: seq<Quota>, rs: seq<Request>): (outcomes: seq<Outcome>)
    ensures |outcomes| == |rs|
  {
    seq(|rs|, i requires 0 <= i < |rs| => OutcomeOf(d, Running(d, quotas, rs[..i]), rs[i]))
  }

  // ----- the world behind the accessor: how each coming call will turn out -----

  datatype World = World(readResults: seq<Option<seq<Quota>>>, writeResults: seq<bool>, stored: seq<Quota>)

  function AfterRead(w: World): World {
    if w.readResults == [] then w else w.(readResults := w.readResults[1..])
  }

  function ReadResult(w: World): Option<seq<Quota>> {
    if w.readResults == [] then None else w.readResults[0]
  }

  predicate WriteSucceeds(w: World) {
    w.writeResults != [] && w.writeResults[0]
  }

  function AfterWrite(w: World, q: Quota): World {
    if w.writeResults == [] then w
    else w.(writeResults := w.writeResults[1..], stored := if w.writeResults[0] then w.stored + [q] else w.stored)
  }

  datatype Writing = Writing(world: World, failed: seq<Quota>)

  // Writes those of the first n quotas whose usage changed, in order.
  function WriteChanged(w: World, original: seq<Quota>, final: seq<Quota>, n: nat): Writing
    requires n <= |original| && n <= |final|
  {
    if n == 0 then Writing(w, [])
    else
      var before := WriteChanged(w, original, final, n - 1);
      if original[n - 1].used == final[n - 1].used then before
      else Writing(
        AfterWrite(before.world, final[n - 1]),
        if WriteSucceeds(before.world) then before.failed else before.failed + [final[n - 1]])
  }

  // The writes of one pass: the quotas whose usage the batch changed.
  function WritesOf(d: Decider, w: World, quotas: seq<Quota>, rs: seq<Request>): Writing {
    RunningSameQuotas(d, quotas, rs);
    WriteChanged(w, quotas, Running(d, quotas, rs), |quotas|)
  }

  // The re-read quotas that carry the name of a failed one; a removed quota is not checked again.
  function Named(reread: seq<Quota>, failed: seq<Quota>): seq<Quota> {
    if reread == [] then []
    else (if exists f | f in failed :: f.name == reread[0].name then [reread[0]] else []) + Named(reread[1..], failed)
  }

  function Apply(results: seq<Result>, outcomes: seq<Outcome>): (answered: seq<Result>)
    requires |results| == |outcomes|
    ensures |answered| == |results|
  {
    seq(|results|, i requires 0 <= i < |results| =>
      match outcomes[i] case Decided(result) => result case AwaitsWrite => results[i])
  }

  function Settle(results: seq<Result>, verdict: Result): (settled: seq<Result>)
    ensures |settled| == |results|
  {
    seq(|results|, i requires 0 <= i < |results| => if results[i] == DefaultDeny then verdict else results[i])
  }

  datatype Checked = Checked(world: World, results: seq<Result>)

  // The specification of checkQuotas.
  function Check(d: Decider, w: World, quotas: seq<Quota>, rs: seq<Request>, results: seq<Result>, retries: nat)
    : (c: Checked)
    requires |rs| == |results|
    ensures |c.results| == |rs|
    decreases retries
  {
    var outcomes := Outcomes(d, quotas, rs);
    var results1 := Apply(results, outcomes);
    if AwaitsWrite !in outcomes then Checked(w, results1)
    else
      var writing := WritesOf(d, w, quotas, rs);
      if writing.failed == [] then Checked(writing.world, Settle(results1, Allowed))
      else if retries == 0 then Checked(writing.world, Settle(results1, Denied(WriteFailed)))
      else match ReadResult(writing.world)
        case None => Checked(AfterRead(writing.world), Settle(results1, Denied(WriteFailed)))
        case Some(reread) =>
          Check(d, AfterRead(writing.world), Named(reread, writing.failed), rs, results1, retries - 1)
  }

  // ----- running quotas -----

  lemma NextGrows(d: Decider, quotas: seq<Quota>, r: Request)
    ensures SameQuotas(quotas, Next(d, quotas, r))
    ensures forall i | 0 <= i < |quotas| :: GrewWithinHard(quotas[i], Next(d, quotas, r)[i])
  {
  }

  /** Through a whole batch the running quotas only grow, and only within their limits. */
  lemma {:induction false} RunningSameQuotas(d: Decider, quotas: seq<Quota>, rs: seq<Request>)
    ensures SameQuotas(quotas, Running(d, quotas, rs))
    ensures forall i | 0 <= i < |quotas| :: GrewWithinHard(quotas[i], Running(d, quotas, rs)[i])
  {
    if rs != [] {
      var before := Running(d, quotas, rs[..|rs| - 1]);
      RunningSameQuotas(d, quotas, rs[..|rs| - 1]);
      NextGrows(d, before, rs[|rs| - 1]);
      forall i | 0 <= i < |quotas| ensures GrewWithinHard(quotas[i], Running(d, quotas, rs)[i]) {
        assert GrewWithinHard(quotas[i], before[i]) && GrewWithinHard(before[i], Running(d, quotas, rs)[i]);
      }
    }
  }

  // What one request adds to one of the running quotas.
  function ChargeOf(reg: Registry, quotas: seq<Quota>, r: Request, i: nat): ResourceList
    requires i < |quotas|
  {
    if r.kind !in reg || r.dryRun || DecideIn(reg, quotas, r).Refused? then map[]
    else
      var e := reg[r.kind];
      if !e.handles(r.operation) || DeltaOf(e, r).NoDelta? || NoChange(DeltaOf(e, r).amounts)
         || Screen(e, quotas[i], r.item) != Interesting
      then map[]
      else Only(DeltaOf(e, r).amounts, quotas[i].hard.Keys)
  }

  // What the batch as a whole adds to it.
  function BatchCharge(reg: Registry, quotas: seq<Quota>, rs: seq<Request>, i: nat): ResourceList
    requires i < |quotas|
  {
    if rs == [] then map[]
    else
      RunningSameQuotas(DeciderOf(reg), quotas, rs[..|rs| - 1]);
      Plus(BatchCharge(reg, quotas, rs[..|rs| - 1], i),
           ChargeOf(reg, Running(DeciderOf(reg), quotas, rs[..|rs| - 1]), rs[|rs| - 1], i))
  }

  /** The quota that gets written is the one that was read plus exactly the charges of the admitted requests. */
  lemma {:induction false} RunningIsCharge(reg: Registry, quotas: seq<Quota>, rs: seq<Request>, i: nat)
    requires i < |quotas|
    ensures |Running(DeciderOf(reg), quotas, rs)| == |quotas|
    ensures Running(DeciderOf(reg), quotas, rs)[i].used == Plus(quotas[i].used, BatchCharge(reg, quotas, rs, i))
  {
    var d := DeciderOf(reg);
    RunningSameQuotas(d, quotas, rs);
    PlusLaws(quotas[i].used, map[], map[]);
    if rs != [] {
      var front, r := rs[..|rs| - 1], rs[|rs| - 1];
      RunningIsCharge(reg, quotas, front, i);
      RunningSameQuotas(d, quotas, front);
      var before := Running(d, quotas, front);
      PlusLaws(quotas[i].used, BatchCharge(reg, quotas, front, i), ChargeOf(reg, before, r, i));
      NextCharge(reg, before, r, i);
    }
  }

  lemma NextCharge(reg: Registry, quotas: seq<Quota>, r: Request, i: nat)
    requires i < |quotas|
    ensures |Next(DeciderOf(reg), quotas, r)| == |quotas|
    ensures Next(DeciderOf(reg), quotas, r)[i].used == Plus(quotas[i].used, ChargeOf(reg, quotas, r, i))
  {
    NextGrows(DeciderOf(reg), quotas, r);
    PlusLaws(quotas[i].used, map[], map[]);
  }

  // ----- every waiter is answered -----

  ghost predicate AllAnswered(results: seq<Result>) {
    DefaultDeny !in results
  }

  lemma ApplyAnswers(d: Decider, quotas: seq<Quota>, rs: seq<Request>, results: seq<Result>)
    requires |results| == |rs| && AwaitsWrite !in Outcomes(d, quotas, rs)
    ensures AllAnswered(Apply(results, Outcomes(d, quotas, rs)))
  {
    var outcomes := Outcomes(d, quotas, rs);
    forall i | 0 <= i < |rs| ensures Apply(results, outcomes)[i] != DefaultDeny {
      assert outcomes[i] in outcomes;
    }
  }

  lemma SettleAnswers(results: seq<Result>, verdict: Result)
    requires verdict != DefaultDeny
    ensures AllAnswered(Settle(results, verdict))
  {
  }

  /**
   No waiter keeps the default answer, whatever the API server does, and the quotas are read
   again at most once per retry.
   */
  lemma {:induction false} EveryoneAnswered(d: Decider, w: World, quotas: seq<Quota>, rs: seq<Request>,
                                            results: seq<Result>, retries: nat)
    requires |rs| == |results|
    ensures AllAnswered(Check(d, w, quotas, rs, results, retries).results)
    ensures var left := |Check(d, w, quotas, rs, results, retries).world.readResults|;
      |w.readResults| - retries <= left <= |w.readResults|
    decreases retries
  {
    hide Running;
    hide Outcomes;
    hide Apply;
    hide Settle;
    hide WriteChanged;
    hide Named;
    var outcomes := Outcomes(d, quotas, rs);
    var results1 := Apply(results, outcomes);
    RunningSameQuotas(d, quotas, rs);
    SettleAnswers(results1, Allowed);
    SettleAnswers(results1, Denied(WriteFailed));
    if AwaitsWrite !in outcomes {
      ApplyAnswers(d, quotas, rs, results);
    } else {
      var writing := WriteChanged(w, quotas, Running(d, quotas, rs), |quotas|);
      WritesOnlyWrite(w, quotas, Running(d, quotas, rs), |quotas|);
      if writing.failed != [] && retries > 0 && ReadResult(writing.world).Some? {
        EveryoneAnswered(d, AfterRead(writing.world), Named(ReadResult(writing.world).value, writing.failed),
                         rs, results1, retries - 1);
      }
    }
  }

  lemma {:induction false} WritesOnlyWrite(w: World, original: seq<Quota>, final: seq<Quota>, n: nat)
    requires n <= |original| && n <= |final|
    ensures WriteChanged(w, original, final, n).world.readResults == w.readResults
    ensures w.stored <= WriteChanged(w, original, final, n).world.stored
  {
    if n > 0 {
      WritesOnlyWrite(w, original, final, n - 1);
    }
  }

  // ----- what gets stored -----

  // Where a written quota came from: a quota of this account that was read, grown within its limits.
  ghost predicate GrownFrom(bases: seq<Quota>, q: Quota) {
    exists base :: base in bases && SameQuota(base, q) && GrewWithinHard(base, q)
  }

  ghost predicate GrownFromARead(w: World, quotas: seq<Quota>, q: Quota) {
    GrownFrom(quotas, q) || exists read :: Some(read) in w.readResults && GrownFrom(read, q)
  }

  lemma {:induction false} WriteChangedStores(w: World, original: seq<Quota>, final: seq<Quota>, n: nat)
    requires n <= |original| && n <= |final|
    ensures forall q :: q in WriteChanged(w, original, final, n).world.stored ==> q in w.stored || q in final[..n]
    ensures forall f :: f in WriteChanged(w, original, final, n).failed ==> f in final[..n]
  {
    if n > 0 {
      WriteChangedStores(w, original, final, n - 1);
      assert final[..n] == final[..n - 1] + [final[n - 1]];
    }
  }

  lemma {:induction false} NamedAreReread(reread: seq<Quota>, failed: seq<Quota>)
    ensures forall q :: q in Named(reread, failed) <==> q in reread && exists f :: f in failed && f.name == q.name
  {
    if reread != [] {
      NamedAreReread(reread[1..], failed);
    }
  }

  lemma {:induction false} StoredIsGrown(d: Decider, w: World, quotas: seq<Quota>, rs: seq<Request>,
                                            results: seq<Result>, retries: nat)
    requires |rs| == |results|
    ensures forall q :: q in Check(d, w, quotas, rs, results, retries).world.stored ==>
      q in w.stored || GrownFromARead(w, quotas, q)
    decreases retries
  {
    RunningSameQuotas(d, quotas, rs);
    var final := Running(d, quotas, rs);
    if AwaitsWrite in Outcomes(d, quotas, rs) {
      var writing := WriteChanged(w, quotas, final, |quotas|);
      WriteChangedStores(w, quotas, final, |quotas|);
      WritesOnlyWrite(w, quotas, final, |quotas|);
      forall q | q in final ensures GrownFrom(quotas, q) {
        var i :| 0 <= i < |final| && final[i] == q;
        assert quotas[i] in quotas && GrewWithinHard(quotas[i], q);
      }
      assert final[..|quotas|] == final;
      if writing.failed != [] && retries > 0 && ReadResult(writing.world).Some? {
        var reread := ReadResult(writing.world).value;
        var results1 := Apply(results, Outcomes(d, quotas, rs));
        var again := Named(reread, writing.failed);
        StoredIsGrown(d, AfterRead(writing.world), again, rs, results1, retries - 1);
        NamedAreReread(reread, writing.failed);
        forall q | GrownFromARead(AfterRead(writing.world), again, q) ensures GrownFromARead(w, quotas, q) {
          if GrownFrom(again, q) {
            assert Some(reread) in w.readResults && GrownFrom(reread, q);
          }
        }
      }
    }
  }

  /**
   In every pass, also after conflicts, what is stored is some quota that was read with the same
   name and version, with usage raised only where it is limited and only within the limit.
   */
  lemma StoredWithinHard(d: Decider, w: World, quotas: seq<Quota>, rs: seq<Request>, results: seq<Result>, retries: nat,
                         q: Quota)
    requires |rs| == |results| && q in Check(d, w, quotas, rs, results, retries).world.stored && q !in w.stored
    ensures exists base: Quota ::
      && (base in quotas || exists read: seq<Quota> :: Some(read) in w.readResults && base in read)
      && q == base.(used := q.used)
      && (forall k :: Amount(base.used, k) <= Amount(q.used, k))
      && forall k :: Amount(base.used, k) < Amount(q.used, k) ==> k in base.hard && Amount(q.used, k) <= base.hard[k]
  {
    StoredIsGrown(d, w, quotas, rs, results, retries);
    if GrownFrom(quotas, q) {
      var base :| base in quotas && SameQuota(base, q) && GrewWithinHard(base, q);
    } else {
      var read :| Some(read) in w.readResults && GrownFrom(read, q);
      var base :| base in read && SameQuota(base, q) && GrewWithinHard(base, q);
    }
  }

  // ----- batching is transparent -----

  ghost predicate DistinctNames(quotas: seq<Quota>) {
    forall i, j | 0 <= i < j < |quotas| :: quotas[i].name != quotas[j].name
  }

  // A quota as a reader finds it after a list of writes.
  function Latest(q: Quota, stored: seq<Quota>): Quota {
    if stored == [] then q
    else if stored[|stored| - 1].name == q.name then stored[|stored| - 1]
    else Latest(q, stored[..|stored| - 1])
  }

  function Overlay(quotas: seq<Quota>, stored: seq<Quota>): seq<Quota> {
    seq(|quotas|, i requires 0 <= i < |quotas| => Latest(quotas[i], stored))
  }

  function Changed(original: seq<Quota>, final: seq<Quota>, n: nat): seq<Quota>
    requires n <= |original| && n <= |final|
  {
    if n == 0 then []
    else Changed(original, final, n - 1) + if original[n - 1].used == final[n - 1].used then [] else [final[n - 1]]
  }

  lemma {:induction false} SuccessfulWrites(w: World, original: seq<Quota>, final: seq<Quota>, n: nat)
    requires n <= |original| && n <= |final|
    requires WriteChanged(w, original, final, n).failed == []
    ensures WriteChanged(w, original, final, n).world.stored == w.stored + Changed(original, final, n)
  {
    if n > 0 {
      SuccessfulWrites(w, original, final, n - 1);
    }
  }

  lemma LatestAppend(q: Quota, stored: seq<Quota>, last: Quota)
    ensures Latest(q, stored + [last]) == if last.name == q.name then last else Latest(q, stored)
  {
    assert (stored + [last])[..|stored|] == stored;
  }

  lemma {:induction false} LatestAfterChanged(original: seq<Quota>, final: seq<Quota>, n: nat, i: nat)
    requires SameQuotas(original, final) && DistinctNames(original) && n <= |original| && i < |original|
    ensures Latest(original[i], Changed(original, final, n)) == if i < n then final[i] else original[i]
  {
    if n > 0 {
      LatestAfterChanged(original, final, n - 1, i);
      assert SameQuota(original[n - 1], final[n - 1]);
      assert i != n - 1 ==> original[i].name != original[n - 1].name;
      assert original[n - 1].used == final[n - 1].used ==> final[n - 1] == original[n - 1];
      assert Changed(original, final, n - 1) + [] == Changed(original, final, n - 1);
      LatestAppend(original[i], Changed(original, final, n - 1), final[n - 1]);
    }
  }

  lemma WritesReachTheStore(original: seq<Quota>, final: seq<Quota>)
    requires SameQuotas(original, final) && DistinctNames(original)
    ensures Overlay(original, Changed(original, final, |original|)) == final
  {
    forall i | 0 <= i < |original| ensures Overlay(original, Changed(original, final, |original|))[i] == final[i] {
      LatestAfterChanged(original, final, |original|, i);
    }
  }

  function Unanswered(n: nat): seq<Result> {
    seq(n, i => DefaultDeny)
  }

  // A world in which the next n writes succeed.
  function Reliable(n: nat): World {
    World([], seq(n, i => true), [])
  }

  // One waiter on its own, every write succeeding.
  function Alone(d: Decider, quotas: seq<Quota>, r: Request): Checked {
    Check(d, Reliable(|quotas|), quotas, [r], Unanswered(|[r]|), |[r]|)
  }

  datatype Serial = Serial(results: seq<Result>, quotas: seq<Quota>)

  // The waiters one after the other, each finding the quotas the previous ones left in the store.
  function OneByOne(d: Decider, quotas: seq<Quota>, rs: seq<Request>): Serial {
    if rs == [] then Serial([], quotas)
    else
      var before := OneByOne(d, quotas, rs[..|rs| - 1]);
      var one := Alone(d, before.quotas, rs[|rs| - 1]);
      Serial(before.results + [one.results[0]], Overlay(before.quotas, one.world.stored))
  }

  function Answer(o: Outcome): Result {
    match o case Decided(result) => result case AwaitsWrite => Allowed
  }

  lemma NoChangeNoWrite(d: Decider, quotas: seq<Quota>, r: Request)
    requires OutcomeOf(d, quotas, r) != AwaitsWrite
    ensures Next(d, quotas, r) == quotas
  {
    NextGrows(d, quotas, r);
    var quotas' := Next(d, quotas, r);
    forall i | 0 <= i < |quotas| ensures quotas'[i] == quotas[i] {
      assert SameQuota(quotas[i], quotas'[i]);
    }
  }

  lemma {:induction false} AllTrueWrites(w: World, original: seq<Quota>, final: seq<Quota>, n: nat)
    requires n <= |original| && n <= |final| && n <= |w.writeResults|
    requires forall i | 0 <= i < |w.writeResults| :: w.writeResults[i]
    ensures WriteChanged(w, original, final, n).failed == []
    ensures |WriteChanged(w, original, final, n).world.writeResults| >= |w.writeResults| - n
    ensures forall i | 0 <= i < |WriteChanged(w, original, final, n).world.writeResults| ::
      WriteChanged(w, original, final, n).world.writeResults[i]
  {
    if n > 0 {
      AllTrueWrites(w, original, final, n - 1);
    }
  }

  lemma {:induction false} NothingAwaited(d: Decider, quotas: seq<Quota>, rs: seq<Request>)
    requires AwaitsWrite !in Outcomes(d, quotas, rs)
    ensures Running(d, quotas, rs) == quotas
  {
    if rs != [] {
      var front := rs[..|rs| - 1];
      forall i | 0 <= i < |front| ensures Outcomes(d, quotas, front)[i] == Outcomes(d, quotas, rs)[i] {
        assert front[..i] == rs[..i];
      }
      NothingAwaited(d, quotas, front);
      assert Outcomes(d, quotas, rs)[|rs| - 1] != AwaitsWrite;
      NoChangeNoWrite(d, Running(d, quotas, front), rs[|rs| - 1]);
    }
  }

  lemma NeverDefault(d: Decider, quotas: seq<Quota>, r: Request)
    ensures OutcomeOf(d, quotas, r) != Decided(DefaultDeny)
  {
  }

  lemma {:induction false} NothingChanged(quotas: seq<Quota>, n: nat)
    requires n <= |quotas|
    ensures Changed(quotas, quotas, n) == []
  {
    if n > 0 {
      NothingChanged(quotas, n - 1);
    }
  }

  function Answers(outcomes: seq<Outcome>): seq<Result> {
    seq(|outcomes|, i requires 0 <= i < |outcomes| => Answer(outcomes[i]))
  }

  lemma SettledAnswers(d: Decider, quotas: seq<Quota>, rs: seq<Request>)
    ensures var results1 := Apply(Unanswered(|rs|), Outcomes(d, quotas, rs));
      && Settle(results1, Allowed) == Answers(Outcomes(d, quotas, rs))
      && (AwaitsWrite !in Outcomes(d, quotas, rs) ==> results1 == Answers(Outcomes(d, quotas, rs)))
  {
    var outcomes := Outcomes(d, quotas, rs);
    forall i | 0 <= i < |rs| ensures outcomes[i] != Decided(DefaultDeny) && outcomes[i] in outcomes {
      NeverDefault(d, Running(d, quotas, rs[..i]), rs[i]);
    }
  }

  // One pass in which every write succeeds.
  lemma SuccessfulCheck(d: Decider, w: World, quotas: seq<Quota>, rs: seq<Request>, retries: nat)
    requires WritesOf(d, w, quotas, rs).failed == []
    ensures |Running(d, quotas, rs)| == |quotas|
    ensures Check(d, w, quotas, rs, Unanswered(|rs|), retries).results == Answers(Outcomes(d, quotas, rs))
    ensures Check(d, w, quotas, rs, Unanswered(|rs|), retries).world.stored
         == w.stored + Changed(quotas, Running(d, quotas, rs), |quotas|)
  {
    RunningSameQuotas(d, quotas, rs);
    SettledAnswers(d, quotas, rs);
    SuccessfulWrites(w, quotas, Running(d, quotas, rs), |quotas|);
    if AwaitsWrite !in Outcomes(d, quotas, rs) {
      NothingAwaited(d, quotas, rs);
      NothingChanged(quotas, |quotas|);
    }
  }

  lemma OneRequest(d: Decider, quotas: seq<Quota>, r: Request)
    ensures Running(d, quotas, [r]) == Next(d, quotas, r)
    ensures Answers(Outcomes(d, quotas, [r])) == [Answer(OutcomeOf(d, quotas, r))]
  {
    assert [r][..0] == [];
  }

  lemma AloneIsNext(d: Decider, quotas: seq<Quota>, r: Request)
    requires DistinctNames(quotas)
    ensures Alone(d, quotas, r).results == [Answer(OutcomeOf(d, quotas, r))]
    ensures Overlay(quotas, Alone(d, quotas, r).world.stored) == Next(d, quotas, r)
  {
    var w := Reliable(|quotas|);
    var final := Running(d, quotas, [r]);
    OneRequest(d, quotas, r);
    RunningSameQuotas(d, quotas, [r]);
    AllTrueWrites(w, quotas, final, |quotas|);
    SuccessfulCheck(d, w, quotas, [r], |[r]|);
    WritesReachTheStore(quotas, final);
    assert w.stored + Changed(quotas, final, |quotas|) == Changed(quotas, final, |quotas|);
  }

  lemma LastOutcome(d: Decider, quotas: seq<Quota>, rs: seq<Request>)
    requires rs != []
    ensures var front, last := rs[..|rs| - 1], rs[|rs| - 1];
      Answers(Outcomes(d, quotas, rs))
        == Answers(Outcomes(d, quotas, front)) + [Answer(OutcomeOf(d, Running(d, quotas, front), last))]
  {
    var front := rs[..|rs| - 1];
    forall i | 0 <= i < |front| ensures front[..i] == rs[..i] {}
  }

  lemma {:induction false} OneByOneIsRunning(d: Decider, quotas: seq<Quota>, rs: seq<Request>)
    requires DistinctNames(quotas)
    ensures OneByOne(d, quotas, rs).results == Answers(Outcomes(d, quotas, rs))
    ensures OneByOne(d, quotas, rs).quotas == Running(d, quotas, rs)
  {
    if rs != [] {
      var front, last := rs[..|rs| - 1], rs[|rs| - 1];
      OneByOneIsRunning(d, quotas, front);
      RunningSameQuotas(d, quotas, front);
      AloneIsNext(d, Running(d, quotas, front), last);
      LastOutcome(d, quotas, rs);
    }
  }

  /**
   When every status write succeeds, checking a batch gives each waiter the answer, and leaves
   the store with the quotas, that checking the waiters one by one would have given.
   */
  lemma BatchingIsTransparent(d: Decider, w: World, quotas: seq<Quota>, rs: seq<Request>, retries: nat)
    requires DistinctNames(quotas)
    requires WritesOf(d, w, quotas, rs).failed == []
    ensures var done := Check(d, w, quotas, rs, Unanswered(|rs|), retries);
      && done.results == OneByOne(d, quotas, rs).results
      && w.stored <= done.world.stored
      && Overlay(quotas, done.world.stored[|w.stored|..]) == OneByOne(d, quotas, rs).quotas
  {
    OneByOneIsRunning(d, quotas, rs);
    RunningSameQuotas(d, quotas, rs);
    SuccessfulCheck(d, w, quotas, rs, retries);
    WritesReachTheStore(quotas, Running(d, quotas, rs));
    var stored := Changed(quotas, Running(d, quotas, rs), |quotas|);
    assert (w.stored + stored)[|w.stored|..] == stored;
  }
}
