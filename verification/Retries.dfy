/** What retries after failed status writes can and cannot do to the answers of a batch. */
module Retries {
  import opened ResourceLists
  import opened Objects
  import opened Evaluators
  import opened Admission
  import opened Batches
  import opened Passes

  // ----- what a request finds in one pass, before anything is decided -----

  predicate NoFault(e: Evaluator, quotas: seq<Quota>, o: Object) {
    forall q | q in quotas :: !Screen(e, q, o).Fault?
  }

  // The quota does not apply to the object, or limits nothing of what the request adds.
  predicate Untouched(e: Evaluator, q: Quota, o: Object, delta: ResourceList) {
    Screen(e, q, o) == Interesting ==>
      forall k | k in delta && k in q.hard :: delta[k] == 0 && Amount(q.used, k) <= q.hard[k]
  }

  // The request passes without leaving a trace in these quotas.
  predicate PassesFreely(reg: Registry, quotas: seq<Quota>, r: Request) {
    r.kind in reg && reg[r.kind].handles(r.operation) ==>
      var e := reg[r.kind];
      && NoFault(e, quotas, r.item)
      && DeltaOf(e, r).Delta?
      && (NoChange(DeltaOf(e, r).amounts) || forall q | q in quotas :: Untouched(e, q, r.item, DeltaOf(e, r).amounts))
  }

  // The request fits, and some quota that applies limits something of what it adds.
  predicate IsCharged(reg: Registry, quotas: seq<Quota>, r: Request) {
    && r.kind in reg && reg[r.kind].handles(r.operation)
    && var e := reg[r.kind];
       && NoFault(e, quotas, r.item)
       && DeltaOf(e, r).Delta?
       && (forall q | q in quotas :: !Overruns(e, q, r.item, DeltaOf(e, r).amounts))
       && (exists q | q in quotas :: !Untouched(e, q, r.item, DeltaOf(e, r).amounts))
  }

  // Charging is visible in the usage exactly when some limited entry is not zero.
  lemma ChargeVisible(e: Evaluator, q: Quota, r: Request)
    requires e.Valid() && DeltaOf(e, r).Delta? && Screen(e, q, r.item) == Interesting
    ensures var delta := DeltaOf(e, r).amounts;
      Charge(q, delta).used == q.used <==> forall k | k in delta && k in q.hard :: delta[k] == 0
  {
    var delta := DeltaOf(e, r).amounts;
    var charged := Charge(q, delta).used;
    forall k | k in delta && k in q.hard ensures k in q.used && charged[k] == q.used[k] + delta[k] {
      assert e.Accepts(k);
      assert k in Restricted(e, q);
    }
    assert charged.Keys == q.used.Keys;
    forall k | k in charged && !(k in delta && k in q.hard) ensures charged[k] == q.used[k] {}
  }

  lemma AllScreened(e: Evaluator, quotas: seq<Quota>, r: Request)
    ensures NoFault(e, quotas, r.item) <==> forall i | 0 <= i < |quotas| :: !Screen(e, quotas[i], r.item).Fault?
  {
    assert forall i | 0 <= i < |quotas| :: quotas[i] in quotas;
  }

  // One quota of an admitted request with a nonzero delta.
  lemma ChargedOrUntouched(e: Evaluator, q: Quota, r: Request)
    requires e.Valid() && DeltaOf(e, r).Delta? && !Screen(e, q, r.item).Fault?
    requires !Overruns(e, q, r.item, DeltaOf(e, r).amounts)
    ensures ChargeInteresting(e, q, r.item, DeltaOf(e, r).amounts).used == q.used
       <==> Untouched(e, q, r.item, DeltaOf(e, r).amounts)
  {
    if Screen(e, q, r.item) == Interesting {
      ChargeVisible(e, q, r);
    }
  }

  lemma UntouchedFits(e: Evaluator, q: Quota, o: Object, delta: ResourceList)
    ensures Untouched(e, q, o, delta) ==> !Overruns(e, q, o, delta)
    ensures NoChange(delta) && !Overruns(e, q, o, delta) ==> Untouched(e, q, o, delta)
  {
  }

  predicate AllUntouched(e: Evaluator, quotas: seq<Quota>, o: Object, delta: ResourceList) {
    forall q | q in quotas :: Untouched(e, q, o, delta)
  }

  predicate NoOverrun(e: Evaluator, quotas: seq<Quota>, o: Object, delta: ResourceList) {
    forall q | q in quotas :: !Overruns(e, q, o, delta)
  }

  lemma AdmittedBy(e: Evaluator, quotas: seq<Quota>, r: Request)
    requires e.handles(r.operation)
    ensures Decide(e, quotas, r).Admitted? <==>
      && NoFault(e, quotas, r.item)
      && DeltaOf(e, r).Delta?
      && (NoChange(DeltaOf(e, r).amounts) || NoOverrun(e, quotas, r.item, DeltaOf(e, r).amounts))
    ensures Decide(e, quotas, r).Admitted? ==>
      Decide(e, quotas, r).quotas ==
        if NoChange(DeltaOf(e, r).amounts) then quotas else ChargeAll(e, quotas, r.item, DeltaOf(e, r).amounts)
  {
    AdmittedExactly(e, quotas, r);
    AllScreened(e, quotas, r);
    assert forall i | 0 <= i < |quotas| :: quotas[i] in quotas;
  }

  lemma ChangedByCharge(e: Evaluator, quotas: seq<Quota>, r: Request)
    requires e.Valid() && DeltaOf(e, r).Delta? && NoFault(e, quotas, r.item)
    requires NoOverrun(e, quotas, r.item, DeltaOf(e, r).amounts)
    ensures UsageChanged(quotas, ChargeAll(e, quotas, r.item, DeltaOf(e, r).amounts))
       <==> !AllUntouched(e, quotas, r.item, DeltaOf(e, r).amounts)
  {
    var delta := DeltaOf(e, r).amounts;
    var charged := ChargeAll(e, quotas, r.item, delta);
    forall i | 0 <= i < |quotas| ensures charged[i].used == quotas[i].used <==> Untouched(e, quotas[i], r.item, delta) {
      assert quotas[i] in quotas;
      ChargedOrUntouched(e, quotas[i], r);
    }
  }

  lemma HandledOutcome(reg: Registry, quotas: seq<Quota>, r: Request)
    requires ValidRegistry(reg) && r.kind in reg && reg[r.kind].handles(r.operation)
    ensures DeciderOf(reg)(quotas, r).Admitted? <==> PassesFreely(reg, quotas, r) || IsCharged(reg, quotas, r)
    ensures DeciderOf(reg)(quotas, r).Admitted? ==>
      (UsageChanged(quotas, DeciderOf(reg)(quotas, r).quotas) <==> IsCharged(reg, quotas, r))
    ensures !(PassesFreely(reg, quotas, r) && IsCharged(reg, quotas, r))
  {
    hide Decide;
    hide DeltaOf;
    hide Untouched;
    hide Overruns;
    hide ChargeAll;
    hide NoFault;
    var e := reg[r.kind];
    AdmittedBy(e, quotas, r);
    if NoFault(e, quotas, r.item) && DeltaOf(e, r).Delta? {
      var delta := DeltaOf(e, r).amounts;
      forall q | q in quotas { UntouchedFits(e, q, r.item, delta); }
      if NoOverrun(e, quotas, r.item, delta) {
        ChangedByCharge(e, quotas, r);
      }
    }
  }

  /**
   What becomes of a request, read off its delta and the quotas alone: it passes freely exactly
   when no quota faults and its delta is zero or touches none of them, and it is charged exactly
   when it fits and touches one; a dry run that would be charged passes as well.
   */
  lemma OutcomeExactly(reg: Registry, quotas: seq<Quota>, r: Request)
    requires ValidRegistry(reg)
    ensures OutcomeOf(DeciderOf(reg), quotas, r) == Decided(Allowed) <==>
      PassesFreely(reg, quotas, r) || (r.dryRun && IsCharged(reg, quotas, r))
    ensures OutcomeOf(DeciderOf(reg), quotas, r) == AwaitsWrite <==> !r.dryRun && IsCharged(reg, quotas, r)
  {
    if r.kind in reg && reg[r.kind].handles(r.operation) {
      HandledOutcome(reg, quotas, r);
    } else {
      assert DeciderOf(reg)(quotas, r) == Admitted(quotas);
    }
  }

  // ----- what a pass makes of a waiter, and what the passes add up to -----

  predicate PassesIn(reg: Registry, p: Pass, rs: seq<Request>, i: nat)
    requires i < |rs|
  {
    var quotas := AtTurn(DeciderOf(reg), p, rs, i);
    PassesFreely(reg, quotas, rs[i]) || (rs[i].dryRun && IsCharged(reg, quotas, rs[i]))
  }

  predicate ChargedIn(reg: Registry, p: Pass, rs: seq<Request>, i: nat)
    requires i < |rs|
  {
    !rs[i].dryRun && IsCharged(reg, AtTurn(DeciderOf(reg), p, rs, i), rs[i])
  }

  predicate RefusedIn(reg: Registry, p: Pass, rs: seq<Request>, i: nat)
    requires i < |rs|
  {
    !PassesIn(reg, p, rs, i) && !ChargedIn(reg, p, rs, i)
  }

  lemma PassExactly(reg: Registry, p: Pass, rs: seq<Request>, i: nat)
    requires ValidRegistry(reg) && i < |rs|
    ensures OutcomeIn(DeciderOf(reg), p, rs, i) == Decided(Allowed) <==> PassesIn(reg, p, rs, i)
    ensures OutcomeIn(DeciderOf(reg), p, rs, i) == AwaitsWrite <==> ChargedIn(reg, p, rs, i)
    ensures OutcomeIn(DeciderOf(reg), p, rs, i).Decided? && OutcomeIn(DeciderOf(reg), p, rs, i).result.Denied?
       <==> RefusedIn(reg, p, rs, i)
  {
    OutcomeExactly(reg, AtTurn(DeciderOf(reg), p, rs, i), rs[i]);
    NeverDefault(DeciderOf(reg), AtTurn(DeciderOf(reg), p, rs, i), rs[i]);
  }

  ghost predicate OnlyChargedAfter(reg: Registry, ps: seq<Pass>, rs: seq<Request>, i: nat, n: int)
    requires i < |rs|
  {
    forall m | n < m < |ps| && 0 <= m :: ChargedIn(reg, ps[m], rs, i)
  }

  /** Pass n lets the waiter pass, and every later pass only charges it. */
  ghost predicate PassedAt(reg: Registry, ps: seq<Pass>, rs: seq<Request>, i: nat, n: nat)
    requires i < |rs|
  {
    n < |ps| && PassesIn(reg, ps[n], rs, i) && OnlyChargedAfter(reg, ps, rs, i, n)
  }

  /** Pass n refuses the waiter, and every later pass only charges it. */
  ghost predicate RefusedAt(reg: Registry, ps: seq<Pass>, rs: seq<Request>, i: nat, n: nat)
    requires i < |rs|
  {
    n < |ps| && RefusedIn(reg, ps[n], rs, i) && OnlyChargedAfter(reg, ps, rs, i, n)
  }

  lemma {:induction false} NeverDecided(d: Decider, ps: seq<Pass>, rs: seq<Request>, i: nat)
    requires i < |rs|
    ensures LatestDecided(d, ps, rs, i) == None <==>
      forall m | 0 <= m < |ps| :: OutcomeIn(d, ps[m], rs, i) == AwaitsWrite
  {
    if ps != [] {
      NeverDecided(d, ps[..|ps| - 1], rs, i);
    }
  }

  // What one pass says last, in terms of the guards.
  lemma LastByGuards(reg: Registry, ps: seq<Pass>, rs: seq<Request>, i: nat, n: nat)
    requires ValidRegistry(reg) && i < |rs| && n < |ps|
    ensures var d := DeciderOf(reg);
      && (DecidedLast(d, ps, rs, i, n, Allowed) <==> PassedAt(reg, ps, rs, i, n))
      && (RefusedAt(reg, ps, rs, i, n) ==>
            OutcomeIn(d, ps[n], rs, i).Decided?
            && OutcomeIn(d, ps[n], rs, i).result.Denied?
            && DecidedLast(d, ps, rs, i, n, OutcomeIn(d, ps[n], rs, i).result))
      && (forall result: Result | result.Denied? ::
            DecidedLast(d, ps, rs, i, n, result) ==> RefusedAt(reg, ps, rs, i, n))
  {
    hide OutcomeIn;
    hide PassesIn;
    hide ChargedIn;
    hide RefusedIn;
    forall m: nat | m < |ps| { PassExactly(reg, ps[m], rs, i); }
  }

  lemma LatestByGuards(reg: Registry, ps: seq<Pass>, rs: seq<Request>, i: nat)
    requires ValidRegistry(reg) && i < |rs|
    ensures var latest := LatestDecided(DeciderOf(reg), ps, rs, i);
      && (latest == None <==> OnlyChargedAfter(reg, ps, rs, i, -1))
      && (latest == Some(Allowed) <==> exists n :: PassedAt(reg, ps, rs, i, n))
      && (latest.Some? && latest.value.Denied? <==> exists n :: RefusedAt(reg, ps, rs, i, n))
  {
    hide DecidedLast;
    hide OutcomeIn;
    hide ChargedIn;
    hide LatestDecided;
    var d := DeciderOf(reg);
    var latest := LatestDecided(d, ps, rs, i);
    forall n: nat | n < |ps| { PassExactly(reg, ps[n], rs, i); }
    forall n: nat | n < |ps| { LastByGuards(reg, ps, rs, i, n); }
    NeverDecided(d, ps, rs, i);
    LatestDecidedMeans(d, ps, rs, i, Allowed);
    if latest.Some? {
      LatestDecidedMeans(d, ps, rs, i, latest.value);
      var n :| 0 <= n < |ps| && DecidedLast(d, ps, rs, i, n, latest.value);
      assert latest.value.Denied? ==> RefusedAt(reg, ps, rs, i, n);
    }
    if n: nat :| RefusedAt(reg, ps, rs, i, n) {
      LatestDecidedMeans(d, ps, rs, i, OutcomeIn(d, ps[n], rs, i).result);
    }
  }

  /**
   The answer of every waiter, dry runs included, for any number of retries and any world, read off
   the quotas that each pass looks at: the last pass that does not charge it decides; a waiter that
   all passes charge is let through exactly when the last writes all succeed.
   */
  lemma AnswerByGuards(reg: Registry, p: Pass, rs: seq<Request>, retries: nat, i: nat)
    requires ValidRegistry(reg) && i < |rs|
    ensures var d := DeciderOf(reg);
      var ps, answer := PassesOf(d, p, rs, retries), CheckFrom(d, p, rs, Unanswered(|rs|), retries).results[i];
      && (answer == Allowed <==>
            || (exists n :: PassedAt(reg, ps, rs, i, n))
            || (OnlyChargedAfter(reg, ps, rs, i, -1) && Written(d, ps[|ps| - 1], rs)))
      && (answer.Denied? <==>
            || (exists n :: RefusedAt(reg, ps, rs, i, n))
            || (OnlyChargedAfter(reg, ps, rs, i, -1) && !Written(d, ps[|ps| - 1], rs)))
  {
    var d := DeciderOf(reg);
    var ps := PassesOf(d, p, rs, retries);
    hide PassesOf;
    hide CheckFrom;
    hide LatestDecided;
    hide PassedAt;
    hide RefusedAt;
    hide OnlyChargedAfter;
    AnswersExactly(d, p, rs, Unanswered(|rs|), retries, i);
    LatestByGuards(reg, ps, rs, i);
    if LatestDecided(d, ps, rs, i) == Some(DefaultDeny) {
      LatestDecidedMeans(d, ps, rs, i, DefaultDeny);
      var n :| 0 <= n < |ps| && DecidedLast(d, ps, rs, i, n, DefaultDeny);
      NeverDefault(d, AtTurn(d, ps[n], rs, i), rs[i]);
    }
  }

  // ----- where an answer and a charge part -----

  // Every quota of the next pass has the name of one whose write failed.
  ghost predicate LooksOnlyAtFailed(d: Decider, before: Pass, next: Pass, rs: seq<Request>) {
    forall q | q in next.bases :: exists f :: f in WritesIn(d, before, rs).failed && f.name == q.name
  }

  /**
   A refusal of any pass is overturned, after any number of retries, exactly when some later pass,
   which looks only at the quotas whose write failed before it, lets the waiter pass: none of them
   applies to the request or limits what it adds; and the passes after that one only charge it. For
   a dry run, which is never charged, that is the last pass.
   */
  lemma RefusalOverturnedExactly(reg: Registry, p: Pass, rs: seq<Request>, retries: nat, i: nat, m: nat)
    requires ValidRegistry(reg) && i < |rs|
    requires m < |PassesOf(DeciderOf(reg), p, rs, retries)|
    requires RefusedIn(reg, PassesOf(DeciderOf(reg), p, rs, retries)[m], rs, i)
    ensures var ps := PassesOf(DeciderOf(reg), p, rs, retries);
      && (CheckFrom(DeciderOf(reg), p, rs, Unanswered(|rs|), retries).results[i] == Allowed <==>
            exists n :: m < n && PassedAt(reg, ps, rs, i, n))
      && (rs[i].dryRun ==> forall n :: PassedAt(reg, ps, rs, i, n) ==> n == |ps| - 1)
      && (forall n | m < n < |ps| :: LooksOnlyAtFailed(DeciderOf(reg), ps[n - 1], ps[n], rs))
  {
    var d := DeciderOf(reg);
    var ps := PassesOf(d, p, rs, retries);
    AnswerByGuards(reg, p, rs, retries, i);
    hide PassesIn;
    hide CheckFrom;
    hide PassesOf;
    hide IsCharged;
    forall n: nat | m < n < |ps| ensures LooksOnlyAtFailed(d, ps[n - 1], ps[n], rs) {
      var read := ReadForPass(d, p, rs, retries, n);
      NamedAreReread(read, WritesIn(d, ps[n - 1], rs).failed);
    }
    forall n: nat | PassedAt(reg, ps, rs, i, n) ensures m < n && (rs[i].dryRun ==> n == |ps| - 1) {
      assert rs[i].dryRun && n < |ps| - 1 ==> ChargedIn(reg, ps[|ps| - 1], rs, i);
    }
  }

  /**
   A waiter that the last pass charges, some of whose writes fail, is let through all the same
   exactly when an earlier pass let it pass and the passes since then only charged it.
   */
  lemma LetThroughUnwrittenExactly(reg: Registry, p: Pass, rs: seq<Request>, retries: nat, i: nat)
    requires ValidRegistry(reg) && i < |rs| && ChargedIn(reg, LastPass(DeciderOf(reg), p, rs, retries), rs, i)
    requires WritesIn(DeciderOf(reg), LastPass(DeciderOf(reg), p, rs, retries), rs).failed != []
    ensures CheckFrom(DeciderOf(reg), p, rs, Unanswered(|rs|), retries).results[i] == Allowed <==>
      exists n :: PassedAt(reg, PassesOf(DeciderOf(reg), p, rs, retries), rs, i, n)
  {
    hide CheckFrom;
    hide PassesOf;
    hide ChargedIn;
    AnswerByGuards(reg, p, rs, retries, i);
  }

  /**
   A waiter that the last pass charges, all of whose writes succeed, is refused all the same exactly
   when an earlier pass refused it and the passes since then only charged it.
   */
  lemma RefusedThoughWrittenExactly(reg: Registry, p: Pass, rs: seq<Request>, retries: nat, i: nat)
    requires ValidRegistry(reg) && i < |rs| && ChargedIn(reg, LastPass(DeciderOf(reg), p, rs, retries), rs, i)
    requires WritesIn(DeciderOf(reg), LastPass(DeciderOf(reg), p, rs, retries), rs).failed == []
    ensures CheckFrom(DeciderOf(reg), p, rs, Unanswered(|rs|), retries).results[i].Denied? <==>
      exists n :: RefusedAt(reg, PassesOf(DeciderOf(reg), p, rs, retries), rs, i, n)
  {
    var d, last := DeciderOf(reg), LastPass(DeciderOf(reg), p, rs, retries);
    AnswerByGuards(reg, p, rs, retries, i);
    PassExactly(reg, last, rs, i);
    assert Outcomes(d, last.bases, rs)[i] == OutcomeIn(d, last, rs, i);
    assert Outcomes(d, last.bases, rs)[i] in Outcomes(d, last.bases, rs);
  }

  // ----- one quota in the account -----

  // Every re-read finds one quota, of this name.
  ghost predicate NameFixed(w: World, name: string) {
    forall read: seq<Quota> | Some(read) in w.readResults :: |read| == 1 && read[0].name == name
  }

  // Every re-read finds the one quota, its terms unchanged.
  ghost predicate TermsFixed(w: World, q: Quota) {
    forall read: seq<Quota> | Some(read) in w.readResults :: |read| == 1 && SameTerms(q, read[0])
  }

  // A re-read of the account's only quota is checked again as a whole.
  lemma OnlyOneNamed(reread: seq<Quota>, failed: seq<Quota>, name: string)
    requires |reread| == 1 && reread[0].name == name && failed != [] && failed[0].name == name
    ensures Named(reread, failed) == reread
  {
    assert failed[0] in failed && reread[1..] == [] && reread == [reread[0]];
  }

  lemma RereadWhole(d: Decider, p: Pass, rs: seq<Request>, retries: nat, name: string)
    requires |p.bases| == 1 && p.bases[0].name == name && NameFixed(p.world, name) && Retried(d, p, rs, retries)
    ensures var next := NextPass(d, p, rs);
      && |next.bases| == 1 && next.bases[0].name == name && NameFixed(next.world, name)
      && Some(next.bases) in p.world.readResults
      && forall read :: read in next.world.readResults ==> read in p.world.readResults
  {
    var writing, final := WritesIn(d, p, rs), Running(d, p.bases, rs);
    RunningSameQuotas(d, p.bases, rs);
    WritesOnlyWrite(p.world, p.bases, final, |p.bases|);
    WriteChangedStores(p.world, p.bases, final, |p.bases|);
    var reread := ReadResult(writing.world).value;
    assert writing.failed[0] in final[..|p.bases|] && writing.failed[0] in writing.failed;
    assert SameQuota(p.bases[0], final[0]);
    assert Some(reread) in p.world.readResults;
    OnlyOneNamed(reread, writing.failed, name);
  }

  /** Every pass looks at the account's one quota, as some read found it. */
  lemma {:induction false} OneQuotaThroughout(d: Decider, p: Pass, rs: seq<Request>, retries: nat, name: string, n: nat)
    requires |p.bases| == 1 && p.bases[0].name == name && NameFixed(p.world, name) && n < |PassesOf(d, p, rs, retries)|
    ensures var pass := PassesOf(d, p, rs, retries)[n];
      |pass.bases| == 1 && (pass.bases == p.bases || Some(pass.bases) in p.world.readResults)
    decreases retries
  {
    if n > 0 {
      RereadWhole(d, p, rs, retries, name);
      OneQuotaThroughout(d, NextPass(d, p, rs), rs, retries - 1, name, n - 1);
    }
  }

  /** With one quota in the account, whoever is let through was admitted, at its turn, by some read of it. */
  lemma OneQuotaAllowsOnlyAdmitted(d: Decider, p: Pass, rs: seq<Request>, results: seq<Result>, retries: nat, i: nat)
    requires |rs| == |results| && i < |rs| && |p.bases| == 1 && NameFixed(p.world, p.bases[0].name)
    requires CheckFrom(d, p, rs, results, retries).results[i] == Allowed
    ensures var last := LastPass(d, p, rs, retries);
      && (last.bases == p.bases || Some(last.bases) in p.world.readResults)
      && d(AtTurn(d, last, rs, i), rs[i]).Admitted?
  {
    AllowedByLastPass(d, p, rs, results, retries, i);
    OneQuotaThroughout(d, p, rs, retries, p.bases[0].name, |PassesOf(d, p, rs, retries)| - 1);
  }

  /** A request that passes a quota freely is never charged to it while the quota's terms stay. */
  lemma StaysUncharged(reg: Registry, q: Quota, q': Quota, r: Request)
    requires SameTerms(q, q') && PassesFreely(reg, [q], r)
    ensures !IsCharged(reg, [q'], r)
  {
    assert q in [q];
    assert AdmissionChecks(q') == AdmissionChecks(q);
    if r.kind in reg && reg[r.kind].handles(r.operation) && DeltaOf(reg[r.kind], r).Delta? {
      UntouchedFits(reg[r.kind], q', r.item, DeltaOf(reg[r.kind], r).amounts);
    }
  }

  /**
   With one quota in the account and its terms unchanged, for every number of retries: whoever is
   let through either is never charged by the last pass, having passed it freely, or is part of
   what that pass wrote, with success, and the store afterwards is the one after that write.
   */
  lemma AllowedIsStored(reg: Registry, p: Pass, rs: seq<Request>, retries: nat, i: nat)
    requires ValidRegistry(reg) && |p.bases| == 1 && TermsFixed(p.world, p.bases[0]) && i < |rs| && !rs[i].dryRun
    requires CheckFrom(DeciderOf(reg), p, rs, Unanswered(|rs|), retries).results[i] == Allowed
    ensures var d := DeciderOf(reg);
      var last := LastPass(d, p, rs, retries);
      || OutcomeIn(d, last, rs, i) == Decided(Allowed)
      || (&& OutcomeIn(d, last, rs, i) == AwaitsWrite && Written(d, last, rs)
          && CheckFrom(d, p, rs, Unanswered(|rs|), retries).world == WritesIn(d, last, rs).world)
  {
    hide PassesOf;
    hide CheckFrom;
    hide LatestDecided;
    hide OutcomeIn;
    hide TermsFixed;
    hide ValidRegistry;
    var d := DeciderOf(reg);
    var ps, last := PassesOf(d, p, rs, retries), LastPass(d, p, rs, retries);
    AllowedByLastPass(d, p, rs, Unanswered(|rs|), retries, i);
    AnswersExactly(d, p, rs, Unanswered(|rs|), retries, i);
    WorldAfter(d, p, rs, Unanswered(|rs|), retries);
    if OutcomeIn(d, last, rs, i) == AwaitsWrite {
      LatestDecidedMeans(d, ps, rs, i, Allowed);
      if LatestDecided(d, ps, rs, i) == Some(Allowed) {
        var n :| 0 <= n < |ps| && DecidedLast(d, ps, rs, i, n, Allowed);
        NeverChargedAgain(reg, p, rs, retries, i, n, |ps| - 1);
      }
    }
  }

  // Free passage in one pass excludes a charge in any other.
  lemma NeverChargedAgain(reg: Registry, p: Pass, rs: seq<Request>, retries: nat, i: nat, n: nat, m: nat)
    requires ValidRegistry(reg) && |p.bases| == 1 && TermsFixed(p.world, p.bases[0]) && i < |rs| && !rs[i].dryRun
    requires n < |PassesOf(DeciderOf(reg), p, rs, retries)| && m < |PassesOf(DeciderOf(reg), p, rs, retries)|
    requires OutcomeIn(DeciderOf(reg), PassesOf(DeciderOf(reg), p, rs, retries)[n], rs, i) == Decided(Allowed)
    ensures OutcomeIn(DeciderOf(reg), PassesOf(DeciderOf(reg), p, rs, retries)[m], rs, i) != AwaitsWrite
  {
    var d := DeciderOf(reg);
    var ps := PassesOf(d, p, rs, retries);
    OneQuotaThroughout(d, p, rs, retries, p.bases[0].name, n);
    OneQuotaThroughout(d, p, rs, retries, p.bases[0].name, m);
    assert SameTerms(ps[n].bases[0], ps[m].bases[0]);
    RunningSameQuotas(d, ps[n].bases, rs[..i]);
    RunningSameQuotas(d, ps[m].bases, rs[..i]);
    var a, b := AtTurn(d, ps[n], rs, i), AtTurn(d, ps[m], rs, i);
    assert SameQuota(ps[n].bases[0], a[0]) && SameQuota(ps[m].bases[0], b[0]);
    assert a == [a[0]] && b == [b[0]];
    OutcomeExactly(reg, a, rs[i]);
    OutcomeExactly(reg, b, rs[i]);
    StaysUncharged(reg, a[0], b[0], rs[i]);
  }
}
