/** What a batch does to the books: what it writes covers what it lets through. */
module LedgerBatches {
  import opened Sums
  import opened ResourceLists
  import opened Objects
  import opened Admission
  import opened Batches
  import opened Passes
  import opened Looks
  import opened Retries
  import opened AccountQuotas
  import opened AccountQuotaAccessor
  import opened Ledger

  // ----- what the passes look at -----

  lemma TermsInRead(quotas: seq<AccountQuota>, ns: string, read: seq<Quota>, aq: AccountQuota, q: Quota)
    requires ReadsStored(quotas, ns, read) && aq in quotas && q in read && q.name == aq.name
    ensures SameTerms(ToQuota(aq, ns), q)
  {
    var found :| found in read && SameTerms(ToQuota(aq, ns), found);
    TheOne(read, found);
    TheOne(read, q);
  }

  lemma LooksAtAccount(quotas: seq<AccountQuota>, b: Batch, aq: AccountQuota)
    requires AllReadsStored(quotas, b) && aq in quotas
    ensures LooksAt(b.start, aq.name) && ReadsFind(b.start.world, aq.name)
    ensures DistinctNames(b.start.bases) && ReadsDistinct(b.start.world)
  {
    var found :| found in b.start.bases && SameTerms(ToQuota(aq, b.namespace), found);
    forall read: seq<Quota> | Some(read) in b.start.world.readResults
      ensures exists q :: q in read && q.name == aq.name
    {
      var q :| q in read && SameTerms(ToQuota(aq, b.namespace), q);
    }
  }

  /** Whichever pass looks at a quota of the account finds it under its terms, also at a waiter's turn. */
  lemma TermsInPass(reg: Registry, quotas: seq<AccountQuota>, b: Batch, aq: AccountQuota, n: nat, j: nat)
    requires AllReadsStored(quotas, b) && aq in quotas && j < |b.waiters|
    requires n < |PassesFor(reg, b)| && LooksAt(PassesFor(reg, b)[n], aq.name)
    ensures SameTerms(ToQuota(aq, b.namespace), BaseIn(PassesFor(reg, b)[n], aq.name))
    ensures var p := PassesFor(reg, b)[n];
      var i, atTurn := IndexOf(p.bases, aq.name), AtTurn(DeciderOf(reg), p, RequestsFor(b.waiters), j);
      i < |atTurn| && SameTerms(ToQuota(aq, b.namespace), atTurn[i])
  {
    var d, rs, p := DeciderOf(reg), RequestsFor(b.waiters), PassesFor(reg, b)[n];
    var base := BaseIn(p, aq.name);
    LooksAtAccount(quotas, b, aq);
    BasesRead(d, b.start, rs, b.retries, n);
    if base in b.start.bases {
      TermsInRead(quotas, b.namespace, b.start.bases, aq, base);
    } else {
      var read :| Some(read) in b.start.world.readResults && base in read;
      TermsInRead(quotas, b.namespace, read, aq, base);
    }
    RunningSameQuotas(d, p.bases, rs[..j]);
    assert SameQuota(base, AtTurn(d, p, rs, j)[IndexOf(p.bases, aq.name)]);
  }

  lemma OnlyPass(reg: Registry, b: Batch)
    requires WritesIn(DeciderOf(reg), b.start, RequestsFor(b.waiters)).failed == []
    ensures PassesFor(reg, b) == [b.start]
  {
  }

  // If the last write of a quota fails, the pass that tried it was the batch's last one.
  lemma FailsAtLast(reg: Registry, quotas: seq<AccountQuota>, b: Batch, aq: AccountQuota)
    requires AllReadsStored(quotas, b) && aq in quotas
    requires FailsIn(DeciderOf(reg), LookFor(reg, b, aq.name), RequestsFor(b.waiters), aq.name)
    ensures LastLook(PassesFor(reg, b), aq.name) == |PassesFor(reg, b)| - 1
    ensures forall n | 0 <= n < |PassesFor(reg, b)| :: LooksAt(PassesFor(reg, b)[n], aq.name)
  {
    var d, rs, ps := DeciderOf(reg), RequestsFor(b.waiters), PassesFor(reg, b);
    var m := LastLook(ps, aq.name);
    LooksAtAccount(quotas, b, aq);
    if m + 1 < |ps| {
      LooksAgainExactly(d, b.start, rs, b.retries, aq.name, m);
    }
    forall n | 0 <= n < |ps| { LookedAtBefore(d, b.start, rs, b.retries, aq.name, n, m); }
  }

  // ----- one waiter -----

  // What an outcome says about the charge of one request to one running quota.
  lemma OutcomeCharge(reg: Registry, quotas: seq<Quota>, r: Request, i: nat, k: ResourceName)
    requires i < |quotas|
    ensures Amount(ChargeOf(reg, quotas, r, i), k) >= 0
    ensures OutcomeOf(DeciderOf(reg), quotas, r) == Decided(Allowed) ==> Amount(ChargeOf(reg, quotas, r, i), k) == 0
    ensures OutcomeOf(DeciderOf(reg), quotas, r).Decided? && OutcomeOf(DeciderOf(reg), quotas, r).result.Denied? ==>
      Amount(ChargeOf(reg, quotas, r, i), k) == 0
  {
    var d := DeciderOf(reg);
    NextCharge(reg, quotas, r, i);
    NextGrows(d, quotas, r);
    assert GrewWithinHard(quotas[i], Next(d, quotas, r)[i]);
    var charge := ChargeOf(reg, quotas, r, i);
    assert Amount(Plus(quotas[i].used, charge), k) == Amount(quotas[i].used, k) + Amount(charge, k);
    if OutcomeOf(d, quotas, r) == Decided(Allowed) && !r.dryRun {
      assert !UsageChanged(quotas, Next(d, quotas, r));
    }
  }

  // A waiter that was not refused is charged its weight.
  lemma WaiterCharge(setting: Setting, aqs: seq<AccountQuota>, aq: AccountQuota, ns: string, quotas: seq<Quota>,
                     w: Waiter, i: nat, k: ResourceName)
    requires setting.Valid() && Proposable(setting, aqs, ns, w.change) && !w.dryRun && aq in aqs
    requires i < |quotas| && SameTerms(ToQuota(aq, ns), quotas[i]) && Tracked(setting.registry, Face(aq), k)
    requires OutcomeOf(DeciderOf(setting.registry), quotas, RequestFor(w)) == AwaitsWrite
          || OutcomeOf(DeciderOf(setting.registry), quotas, RequestFor(w)) == Decided(Allowed)
    ensures Amount(ChargeOf(setting.registry, quotas, RequestFor(w), i), k)
         == Pending(setting.registry, Face(aq), w.change, k)
  {
    var reg, r := setting.registry, RequestFor(w);
    WeightByTerms(reg, Face(aq), quotas[i]);
    match w.change {
      case Added(item) => CreateCharges(reg, quotas, item, w.dryRun, i, k);
      case Replaced(before, after) => UpdateCharges(reg, quotas, before, after, w.dryRun, i, k);
    }
    NextCharge(reg, quotas, r, i);
    var charge := ChargeOf(reg, quotas, r, i);
    assert Amount(Plus(quotas[i].used, charge), k) == Amount(quotas[i].used, k) + Amount(charge, k);
  }

  predicate LetThrough(reg: Registry, b: Batch, j: nat)
    requires j < |b.waiters|
  {
    AnswersFor(reg, b)[j] == Allowed && !b.waiters[j].dryRun
  }

  // An admitted request has a nonnegative usage, whatever the quotas.
  lemma AdmittedWeighs(setting: Setting, quotas: seq<Quota>, w: Waiter, q: Quota, k: ResourceName)
    requires setting.Valid() && DeciderOf(setting.registry)(quotas, RequestFor(w)).Admitted?
    requires w.change.Replaced? && w.change.after.kind in setting.registry ==>
      setting.registry[w.change.after.kind].handles(Update)
    ensures Weight(setting.registry, q, Target(w.change), k) >= 0
    ensures Pending(setting.registry, q, w.change, k) >= 0
  {
    hide Decide;
    var r := RequestFor(w);
    if r.kind in setting.registry {
      AdmittedBy(setting.registry[r.kind], quotas, r);
    }
  }

  /** Whoever is let through was read and found nonnegative, so it never weighs a negative amount. */
  lemma ThroughWeighs(setting: Setting, quotas: seq<AccountQuota>, b: Batch, q: Quota, j: nat, k: ResourceName)
    requires setting.Valid() && BatchReads(setting, quotas, b) && j < |b.waiters|
    requires LetThrough(setting.registry, b, j)
    ensures Weight(setting.registry, q, Target(b.waiters[j].change), k) >= 0
    ensures Pending(setting.registry, q, b.waiters[j].change, k) >= 0
  {
    hide CheckFrom;
    hide PassesOf;
    hide Weight;
    hide Pending;
    hide ValidRegistry;
    var d, rs := DeciderOf(setting.registry), RequestsFor(b.waiters);
    var last := LastPass(d, b.start, rs, b.retries);
    AllowedByLastPass(d, b.start, rs, Unanswered(|rs|), b.retries, j);
    assert rs[j] == RequestFor(b.waiters[j]) && b.waiters[j] in b.waiters;
    AdmittedWeighs(setting, AtTurn(d, last, rs, j), b.waiters[j], q, k);
  }

  // What a waiter is charged by the last pass that looks at the quota, unless that write fails.
  function StoredFor(reg: Registry, b: Batch, name: string, j: nat, k: ResourceName): int
    requires j < |b.waiters| && LooksAt(LookFor(reg, b, name), name)
  {
    var d, p, rs := DeciderOf(reg), LookFor(reg, b, name), RequestsFor(b.waiters);
    RunningSameQuotas(d, p.bases, rs[..j]);
    if FailsIn(d, p, rs, name) then 0
    else Amount(ChargeOf(reg, AtTurn(d, p, rs, j), rs[j], IndexOf(p.bases, name)), k)
  }

  // A pass that looks at the quota and does not refuse the waiter charges its weight.
  lemma ChargedInPass(setting: Setting, quotas: seq<AccountQuota>, b: Batch, aq: AccountQuota, n: nat, j: nat,
                      k: ResourceName)
    requires setting.Valid() && BatchReads(setting, quotas, b) && aq in quotas && j < |b.waiters|
    requires Tracked(setting.registry, Face(aq), k) && !b.waiters[j].dryRun
    requires n < |PassesFor(setting.registry, b)| && LooksAt(PassesFor(setting.registry, b)[n], aq.name)
    requires !RefusedIn(setting.registry, PassesFor(setting.registry, b)[n], RequestsFor(b.waiters), j)
    ensures var reg, rs, p := setting.registry, RequestsFor(b.waiters), PassesFor(setting.registry, b)[n];
      var i, atTurn := IndexOf(p.bases, aq.name), AtTurn(DeciderOf(reg), p, rs, j);
      && i < |atTurn|
      && Amount(ChargeOf(reg, atTurn, rs[j], i), k) == Pending(reg, Face(aq), b.waiters[j].change, k)
      && (PassesIn(reg, p, rs, j) ==> Pending(reg, Face(aq), b.waiters[j].change, k) == 0)
  {
    var reg, rs, w := setting.registry, RequestsFor(b.waiters), b.waiters[j];
    var p := PassesFor(reg, b)[n];
    var i, atTurn := IndexOf(p.bases, aq.name), AtTurn(DeciderOf(reg), p, rs, j);
    TermsInPass(reg, quotas, b, aq, n, j);
    PassExactly(reg, p, rs, j);
    assert rs[j] == RequestFor(w) && w in b.waiters;
    OutcomeCharge(reg, atTurn, rs[j], i, k);
    WaiterCharge(setting, quotas, aq, b.namespace, atTurn, w, i, k);
  }

  // Without a last write only a pass that lets a waiter pass lets it through.
  lemma PassedUnwritten(reg: Registry, b: Batch, j: nat) returns (n: nat)
    requires ValidRegistry(reg) && j < |b.waiters| && LetThrough(reg, b, j)
    requires !Written(DeciderOf(reg), PassesFor(reg, b)[|PassesFor(reg, b)| - 1], RequestsFor(b.waiters))
    ensures n < |PassesFor(reg, b)| && PassesIn(reg, PassesFor(reg, b)[n], RequestsFor(b.waiters), j)
  {
    hide CheckFrom;
    hide PassesOf;
    hide PassesIn;
    hide OnlyChargedAfter;
    hide Written;
    hide ValidRegistry;
    AnswerByGuards(reg, b.start, RequestsFor(b.waiters), b.retries, j);
    n :| PassedAt(reg, PassesFor(reg, b), RequestsFor(b.waiters), j, n);
  }

  // A quota whose last write fails is touched by nobody who is let through.
  lemma UnwrittenWeighsNothing(setting: Setting, quotas: seq<AccountQuota>, b: Batch, aq: AccountQuota, j: nat,
                               k: ResourceName)
    requires setting.Valid() && BatchReads(setting, quotas, b) && aq in quotas && j < |b.waiters|
    requires Tracked(setting.registry, Face(aq), k) && LetThrough(setting.registry, b, j)
    requires FailsIn(DeciderOf(setting.registry), LookFor(setting.registry, b, aq.name), RequestsFor(b.waiters),
                     aq.name)
    ensures Pending(setting.registry, Face(aq), b.waiters[j].change, k) == 0
  {
    hide PassesIn;
    hide Tracked;
    hide Pending;
    hide FailsIn;
    hide WritesOverStored;
    hide AllReadsStored;
    hide ValidRegistry;
    hide CheckFrom;
    hide PassesOf;
    hide Written;
    hide AnswersFor;
    var reg, rs := setting.registry, RequestsFor(b.waiters);
    var ps := PassesFor(reg, b);
    FailsAtLast(reg, quotas, b, aq);
    FailedIsUnwritten(DeciderOf(reg), ps[|ps| - 1], rs, aq.name);
    var n := PassedUnwritten(reg, b, j);
    ChargedInPass(setting, quotas, b, aq, n, j, k);
  }

  /** Whoever is let through has its weight stored in every quota whose last look did not refuse it. */
  lemma UnrefusedIsStored(setting: Setting, quotas: seq<AccountQuota>, b: Batch, aq: AccountQuota, j: nat,
                          k: ResourceName)
    requires setting.Valid() && BatchReads(setting, quotas, b) && aq in quotas && j < |b.waiters|
    requires Tracked(setting.registry, Face(aq), k) && LetThrough(setting.registry, b, j)
    requires !RefusedIn(setting.registry, LookFor(setting.registry, b, aq.name), RequestsFor(b.waiters), j)
    ensures LooksAt(LookFor(setting.registry, b, aq.name), aq.name)
    ensures StoredFor(setting.registry, b, aq.name, j, k)
         == Pending(setting.registry, Face(aq), b.waiters[j].change, k)
  {
    var reg, rs := setting.registry, RequestsFor(b.waiters);
    var d, ps := DeciderOf(reg), PassesFor(reg, b);
    hide RefusedIn;
    hide Tracked;
    hide FailsIn;
    LooksAtAccount(quotas, b, aq);
    if FailsIn(d, LookFor(reg, b, aq.name), rs, aq.name) {
      UnwrittenWeighsNothing(setting, quotas, b, aq, j, k);
    } else {
      ChargedInPass(setting, quotas, b, aq, LastLook(ps, aq.name), j, k);
    }
  }

  lemma RefusedIsUnstored(reg: Registry, b: Batch, name: string, j: nat, k: ResourceName)
    requires ValidRegistry(reg) && j < |b.waiters| && LooksAt(LookFor(reg, b, name), name)
    requires RefusedIn(reg, LookFor(reg, b, name), RequestsFor(b.waiters), j)
    ensures StoredFor(reg, b, name, j, k) == 0
  {
    var d, p, rs := DeciderOf(reg), LookFor(reg, b, name), RequestsFor(b.waiters);
    PassExactly(reg, p, rs, j);
    RunningSameQuotas(d, p.bases, rs[..j]);
    OutcomeCharge(reg, AtTurn(d, p, rs, j), rs[j], IndexOf(p.bases, name), k);
  }

  /**
   Whatever the reads, conflicts and retries, in any quota of the account: what a batch lets through
   is stored there with its weight exactly when no refusal of it was forgotten in that quota.
   */
  lemma ThroughIsStoredExactly(setting: Setting, quotas: seq<AccountQuota>, b: Batch, aq: AccountQuota, j: nat)
    requires setting.Valid() && BatchReads(setting, quotas, b) && aq in quotas && j < |b.waiters|
    requires LetThrough(setting.registry, b, j)
    ensures LooksAt(LookFor(setting.registry, b, aq.name), aq.name)
    ensures (forall k | Tracked(setting.registry, Face(aq), k) ::
               StoredFor(setting.registry, b, aq.name, j, k)
                 == Pending(setting.registry, Face(aq), b.waiters[j].change, k))
       <==> !Forgets(setting.registry, aq, b, j)
  {
    hide StoredFor;
    hide CheckFrom;
    hide PassesOf;
    hide PassesIn;
    hide Tracked;
    hide Pending;
    var reg, rs, c := setting.registry, RequestsFor(b.waiters), b.waiters[j].change;
    LooksAtAccount(quotas, b, aq);
    if RefusedIn(reg, LookFor(reg, b, aq.name), rs, j) {
      RefusalOverturnedExactly(reg, b.start, rs, b.retries, j, LastLook(PassesFor(reg, b), aq.name));
      forall k ensures StoredFor(reg, b, aq.name, j, k) == 0 && Pending(reg, Face(aq), c, k) >= 0 {
        RefusedIsUnstored(reg, b, aq.name, j, k);
        ThroughWeighs(setting, quotas, b, Face(aq), j, k);
      }
    } else {
      forall k | Tracked(reg, Face(aq), k) { UnrefusedIsStored(setting, quotas, b, aq, j, k); }
    }
  }

  // ----- when nothing is forgotten -----

  /** With one quota in the account no refusal is forgotten, whatever conflicts and retries there are. */
  lemma OneQuotaForgetsNothing(reg: Registry, quotas: seq<AccountQuota>, b: Batch)
    requires |quotas| == 1 && |b.start.bases| == 1 && AllReadsStored(quotas, b)
    ensures NothingForgotten(reg, quotas, b)
  {
    var d, rs, ps, aq := DeciderOf(reg), RequestsFor(b.waiters), PassesFor(reg, b), quotas[0];
    var m := LastLook(ps, aq.name);
    LooksAtAccount(quotas, b, aq);
    if m + 1 < |ps| {
      var read := ReadForPass(d, b.start, rs, b.retries, m + 1);
      var f := WritesIn(d, ps[m], rs).failed[0];
      FailedIsLookedAt(d, ps[m], rs, f);
      LookedAtBefore(d, b.start, rs, b.retries, f.name, 0, m);
      assert f in WritesIn(d, ps[m], rs).failed && f.name == aq.name;
      LooksAgainExactly(d, b.start, rs, b.retries, aq.name, m);
    }
  }

  /** With any number of quotas no refusal is forgotten when the first writes all succeed. */
  lemma NoFailureForgetsNothing(reg: Registry, quotas: seq<AccountQuota>, b: Batch)
    requires WritesIn(DeciderOf(reg), b.start, RequestsFor(b.waiters)).failed == []
    ensures NothingForgotten(reg, quotas, b)
  {
    OnlyPass(reg, b);
  }

  // ----- the whole batch -----

  // What the waiters up to n add to the books, and what the last look at the quota charged for them.
  ghost function Entered(setting: Setting, aq: AccountQuota, b: Batch, n: nat, k: ResourceName): int
    requires n <= |b.waiters|
  {
    PendingUsage(setting.registry, Face(aq), Through(b.waiters[..n], AnswersFor(setting.registry, b)[..n]), k)
  }

  ghost function ChargedFor(reg: Registry, b: Batch, name: string, n: nat, k: ResourceName): int
    requires n <= |b.waiters| && LooksAt(LookFor(reg, b, name), name)
  {
    var p := LookFor(reg, b, name);
    Amount(BatchCharge(reg, p.bases, RequestsFor(b.waiters)[..n], IndexOf(p.bases, name)), k)
  }

  // What the batch stores for them.
  ghost function WrittenFor(reg: Registry, b: Batch, name: string, n: nat, k: ResourceName): int
    requires n <= |b.waiters| && LooksAt(LookFor(reg, b, name), name)
  {
    if FailsIn(DeciderOf(reg), LookFor(reg, b, name), RequestsFor(b.waiters), name) then 0
    else ChargedFor(reg, b, name, n, k)
  }

  lemma ThroughOneMore(ws: seq<Waiter>, answers: seq<Result>, n: nat)
    requires n < |ws| == |answers|
    ensures Through(ws[..n + 1], answers[..n + 1]) ==
      Through(ws[..n], answers[..n]) + if answers[n] == Allowed && !ws[n].dryRun then [ws[n].change] else []
  {
    assert ws[..n + 1][..n] == ws[..n] && answers[..n + 1][..n] == answers[..n];
  }

  lemma EnteredOneMore(setting: Setting, aq: AccountQuota, b: Batch, n: nat, k: ResourceName)
    requires n < |b.waiters|
    ensures Entered(setting, aq, b, n + 1, k) == Entered(setting, aq, b, n, k) +
      if AnswersFor(setting.registry, b)[n] == Allowed && !b.waiters[n].dryRun
      then Pending(setting.registry, Face(aq), b.waiters[n].change, k)
      else 0
  {
    var answers := AnswersFor(setting.registry, b);
    ThroughOneMore(b.waiters, answers, n);
    var before := Through(b.waiters[..n], answers[..n]);
    SumAppend(before, b.waiters[n].change, (c: Change) => Pending(setting.registry, Face(aq), c, k));
    assert before + [] == before;
  }

  lemma ChargedOneMore(reg: Registry, b: Batch, name: string, n: nat, k: ResourceName)
    requires n < |b.waiters| && LooksAt(LookFor(reg, b, name), name)
    ensures WrittenFor(reg, b, name, n + 1, k) == WrittenFor(reg, b, name, n, k) + StoredFor(reg, b, name, n, k)
  {
    var rs, bases := RequestsFor(b.waiters), LookFor(reg, b, name).bases;
    var i := IndexOf(bases, name);
    RunningSameQuotas(DeciderOf(reg), bases, rs[..n]);
    assert rs[..n + 1][..n] == rs[..n];
    var x, y := BatchCharge(reg, bases, rs[..n], i), ChargeOf(reg, Running(DeciderOf(reg), bases, rs[..n]), rs[n], i);
    assert BatchCharge(reg, bases, rs[..n + 1], i) == Plus(x, y);
    assert Amount(Plus(x, y), k) == Amount(x, k) + Amount(y, k);
  }

  // Whoever the last look at the quota charges, and stores, is let through.
  ghost predicate ChargesThrough(reg: Registry, b: Batch, name: string) {
    var d, p, rs := DeciderOf(reg), LookFor(reg, b, name), RequestsFor(b.waiters);
    !FailsIn(d, p, rs, name) ==>
      forall j | 0 <= j < |b.waiters| && OutcomeIn(d, p, rs, j) == AwaitsWrite :: AnswersFor(reg, b)[j] == Allowed
  }

  // Only a charge is stored.
  lemma UnchargedIsUnstored(reg: Registry, b: Batch, name: string, j: nat, k: ResourceName)
    requires j < |b.waiters| && LooksAt(LookFor(reg, b, name), name)
    ensures StoredFor(reg, b, name, j, k) >= 0
    ensures OutcomeIn(DeciderOf(reg), LookFor(reg, b, name), RequestsFor(b.waiters), j) != AwaitsWrite ==>
      StoredFor(reg, b, name, j, k) == 0
  {
    var d, p, rs := DeciderOf(reg), LookFor(reg, b, name), RequestsFor(b.waiters);
    RunningSameQuotas(d, p.bases, rs[..j]);
    NeverDefault(d, AtTurn(d, p, rs, j), rs[j]);
    OutcomeCharge(reg, AtTurn(d, p, rs, j), rs[j], IndexOf(p.bases, name), k);
  }

  // A waiter's entry against what is stored for it.
  lemma OneEntry(setting: Setting, quotas: seq<AccountQuota>, b: Batch, aq: AccountQuota, n: nat, k: ResourceName)
    requires setting.Valid() && BatchEnabled(setting, quotas, b) && aq in quotas && n < |b.waiters|
    requires Tracked(setting.registry, Face(aq), k) && LooksAt(LookFor(setting.registry, b, aq.name), aq.name)
    ensures var entry := Entered(setting, aq, b, n + 1, k) - Entered(setting, aq, b, n, k);
      var stored := StoredFor(setting.registry, b, aq.name, n, k);
      && entry <= stored
      && (ChargesThrough(setting.registry, b, aq.name) ==> entry == stored)
    ensures LetThrough(setting.registry, b, n) ==>
      Weight(setting.registry, Face(aq), Target(b.waiters[n].change), k) >= 0
  {
    hide StoredFor;
    hide Forgets;
    hide BatchReads;
    hide Entered;
    var reg := setting.registry;
    EnteredOneMore(setting, aq, b, n, k);
    UnchargedIsUnstored(reg, b, aq.name, n, k);
    if LetThrough(reg, b, n) {
      ThroughWeighs(setting, quotas, b, Face(aq), n, k);
      ThroughIsStoredExactly(setting, quotas, b, aq, n);
    } else if ChargesThrough(reg, b, aq.name) {
      UnstoredWithoutCharge(reg, b, aq.name, n, k);
    }
  }

  lemma UnstoredWithoutCharge(reg: Registry, b: Batch, name: string, j: nat, k: ResourceName)
    requires j < |b.waiters| && LooksAt(LookFor(reg, b, name), name)
    requires ChargesThrough(reg, b, name) && !LetThrough(reg, b, j)
    ensures StoredFor(reg, b, name, j, k) == 0
  {
    UnchargedIsUnstored(reg, b, name, j, k);
    assert RequestsFor(b.waiters)[j].dryRun == b.waiters[j].dryRun;
  }

  /**
   Whatever a batch lets through weighs, in every quota of the account, at most what the batch
   stored there; and if everyone charged there is let through it weighs exactly that.
   */
  lemma {:induction false} BatchCovers(setting: Setting, quotas: seq<AccountQuota>, b: Batch, aq: AccountQuota,
                                       n: nat, k: ResourceName)
    requires setting.Valid() && BatchEnabled(setting, quotas, b) && aq in quotas && n <= |b.waiters|
    requires Tracked(setting.registry, Face(aq), k) && LooksAt(LookFor(setting.registry, b, aq.name), aq.name)
    ensures Entered(setting, aq, b, n, k) <= WrittenFor(setting.registry, b, aq.name, n, k)
    ensures ChargesThrough(setting.registry, b, aq.name) ==>
      Entered(setting, aq, b, n, k) == WrittenFor(setting.registry, b, aq.name, n, k)
    ensures forall c | c in Through(b.waiters[..n], AnswersFor(setting.registry, b)[..n]) ::
      Weight(setting.registry, Face(aq), Target(c), k) >= 0
  {
    hide Entered;
    hide WrittenFor;
    hide StoredFor;
    hide ChargesThrough;
    hide BatchEnabled;
    hide Tracked;
    hide Weight;
    hide AnswersFor;
    hide Through;
    if n == 0 {
      EmptyBatch(setting, aq, b, k);
    } else {
      BatchCovers(setting, quotas, b, aq, n - 1, k);
      OneEntry(setting, quotas, b, aq, n - 1, k);
      ChargedOneMore(setting.registry, b, aq.name, n - 1, k);
      ThroughOneMore(b.waiters, AnswersFor(setting.registry, b), n - 1);
    }
  }

  lemma EmptyBatch(setting: Setting, aq: AccountQuota, b: Batch, k: ResourceName)
    requires LooksAt(LookFor(setting.registry, b, aq.name), aq.name)
    ensures Through(b.waiters[..0], AnswersFor(setting.registry, b)[..0]) == []
    ensures Entered(setting, aq, b, 0, k) == 0 && WrittenFor(setting.registry, b, aq.name, 0, k) == 0
  {
  }

  // ----- the stored objects -----

  // What the batch adds to one stored quota.
  ghost function WrittenCharge(reg: Registry, b: Batch, name: string, k: ResourceName): int
    requires LooksAt(LookFor(reg, b, name), name)
  {
    WrittenFor(reg, b, name, |b.waiters|, k)
  }

  // A stored quota grown by a charge of one namespace, nothing else moved.
  ghost predicate GrownBy(aq: AccountQuota, aq': AccountQuota, ns: string, charge: int, k: ResourceName) {
    && aq'.scopes == aq.scopes && aq'.selectors == aq.selectors && aq'.specHard == aq.specHard
    && aq'.total.hard == aq.total.hard
    && aq'.name == aq.name
    && Amount(aq'.total.used, k) == Amount(aq.total.used, k) + charge
    && (k in aq.total.hard && Amount(aq.total.used, k) <= aq.total.hard[k] ==>
      Amount(aq'.total.used, k) <= aq.total.hard[k])
    && forall other :: SliceAmount(aq'.namespaces, other, k)
         == SliceAmount(aq.namespaces, other, k) + if other == ns then charge else 0
  }

  lemma LookCharge(reg: Registry, b: Batch, name: string, k: ResourceName)
    requires LooksAt(LookFor(reg, b, name), name)
    ensures ChargedFor(reg, b, name, |b.waiters|, k)
         == Amount(FinalFor(reg, b, name).used, k) - Amount(BaseIn(LookFor(reg, b, name), name).used, k)
  {
    var bases, rs := LookFor(reg, b, name).bases, RequestsFor(b.waiters);
    var i := IndexOf(bases, name);
    RunningIsCharge(reg, bases, rs, i);
    assert rs[..|b.waiters|] == rs;
    var charge := BatchCharge(reg, bases, rs, i);
    assert Amount(Plus(bases[i].used, charge), k) == Amount(bases[i].used, k) + Amount(charge, k);
  }

  lemma AcceptedGrows(aq: AccountQuota, final: Quota, k: ResourceName)
    requires Conserved(aq) && SameQuota(ToQuota(aq, final.namespace), final)
    requires GrewWithinHard(ToQuota(aq, final.namespace), final)
    ensures Conserved(Accepted(aq, Updated(aq, final)))
    ensures GrownBy(aq, Accepted(aq, Updated(aq, final)), final.namespace,
                    Amount(final.used, k) - Amount(aq.total.used, k), k)
  {
    UpdatedConserves(aq, final);
    forall other { UpdatedSlice(aq, final, other, k); }
  }

  /** The stored quotas grow by exactly the batch's charges, in its own namespace, within the limits. */
  lemma ChargedGrows(setting: Setting, quotas: seq<AccountQuota>, b: Batch, i: nat, k: ResourceName)
    requires BatchReads(setting, quotas, b) && i < |quotas| && Conserved(quotas[i])
    ensures LooksAt(LookFor(setting.registry, b, quotas[i].name), quotas[i].name)
    ensures Conserved(Charged(setting.registry, b, quotas)[i])
    ensures GrownBy(quotas[i], Charged(setting.registry, b, quotas)[i], b.namespace,
      WrittenCharge(setting.registry, b, quotas[i].name, k), k)
  {
    var reg, aq := setting.registry, quotas[i];
    LooksAtAccount(quotas, b, aq);
    LookCharge(reg, b, aq.name, k);
    if Stores(reg, b, aq.name) {
      AcceptedGrows(aq, FinalFor(reg, b, aq.name), k);
    }
  }

  /**
   The ledger writes what the batch writes: a quota is in the store's log after the batch exactly
   when it is what the ledger takes over for its name.
   */
  lemma StoresAreTheLog(reg: Registry, quotas: seq<AccountQuota>, b: Batch, aq: AccountQuota, q: Quota)
    requires AllReadsStored(quotas, b) && aq in quotas && q.name == aq.name && b.start.world.stored == []
    ensures var rs := RequestsFor(b.waiters);
      q in CheckFrom(DeciderOf(reg), b.start, rs, Unanswered(|rs|), b.retries).world.stored <==>
        Stores(reg, b, aq.name) && q == FinalFor(reg, b, aq.name)
  {
    var rs := RequestsFor(b.waiters);
    LooksAtAccount(quotas, b, aq);
    StoredExactly(DeciderOf(reg), b.start, rs, Unanswered(|rs|), b.retries, q);
  }
}
