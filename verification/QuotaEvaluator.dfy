/**
 The imperative half of batch admission: waiters are answered in place, quotas are checked,
 written and re-read through an accessor, and every waiter's channel is closed on the way out.
 */
module QuotaEvaluator {
  import opened Names
  import opened ResourceLists
  import opened Objects
  import opened Admission
  import opened Batches
  import opened Passes

  class AdmissionWaiter {
    const request: Request
    var result: Result
    var closed: nat  // how often the finished channel has been closed

    constructor (request: Request)
      ensures this.request == request && result == DefaultDeny && closed == 0
    {
      this.request := request;
      result, closed := DefaultDeny, 0;
    }
  }

  /** The accessor as the evaluator meets it: the outcome of every coming call is fixed by the world. */
  class Accessor {
    var world: World

    method GetQuotas() returns (quotas: Option<seq<Quota>>)
      modifies this
      ensures quotas == ReadResult(old(world)) && world == AfterRead(old(world))
    {
      quotas := ReadResult(world);
      world := AfterRead(world);
    }

    method UpdateQuotaStatus(q: Quota) returns (ok: bool)
      modifies this
      ensures ok == WriteSucceeds(old(world)) && world == AfterWrite(old(world), q)
    {
      ok := WriteSucceeds(world);
      world := AfterWrite(world, q);
    }
  }

  function RequestsOf(waiters: seq<AdmissionWaiter>): seq<Request> {
    seq(|waiters|, i requires 0 <= i < |waiters| => waiters[i].request)
  }

  ghost function ResultsOf(waiters: seq<AdmissionWaiter>): (r: seq<Result>)
    reads waiters
  {
    seq(|waiters|, i requires 0 <= i < |waiters| reads waiters => waiters[i].result)
  }

  // quotaEvaluator.checkRequest: a kind without an evaluator is let through.
  method CheckRequestIn(reg: Registry, quotas: seq<Quota>, r: Request) returns (d: Decision)
    requires ValidRegistry(reg)
    ensures d == DeciderOf(reg)(quotas, r)
  {
    if r.kind !in reg {
      return Admitted(quotas);
    }
    d := CheckRequest(reg[r.kind], quotas, r);
  }

  method AnyUsageChanged(quotas: seq<Quota>, quotas': seq<Quota>) returns (changed: bool)
    requires |quotas| == |quotas'|
    ensures changed == UsageChanged(quotas, quotas')
  {
    for j := 0 to |quotas'|
      invariant forall k | 0 <= k < j :: quotas[k].used == quotas'[k].used
    {
      var same := Equals(quotas[j].used, quotas'[j].used);
      if !same {
        return true;
      }
    }
    return false;
  }

  // One round of step 1: answer the waiter, or charge it to the running quotas.
  method CheckWaiter(reg: Registry, quotas: seq<Quota>, waiter: AdmissionWaiter)
    returns (quotas': seq<Quota>, changed: bool)
    requires ValidRegistry(reg)
    modifies waiter`result
    ensures quotas' == Next(DeciderOf(reg), quotas, waiter.request)
    ensures changed <==> OutcomeOf(DeciderOf(reg), quotas, waiter.request) == AwaitsWrite
    ensures waiter.result == Answered(old(waiter.result), OutcomeOf(DeciderOf(reg), quotas, waiter.request))
  {
    hide DeciderOf;
    hide ValidRegistry;
    quotas', changed := quotas, false;
    NextGrows(DeciderOf(reg), quotas, waiter.request);
    var decision := CheckRequestIn(reg, quotas, waiter.request);
    match decision {
      case Refused(reason) =>
        waiter.result := Denied(reason);
      case Admitted(newQuotas) =>
        if waiter.request.dryRun {
          waiter.result := Allowed;
          return;
        }
        changed := AnyUsageChanged(quotas, newQuotas);
        if !changed {
          waiter.result := Allowed;
        }
        quotas' := newQuotas;
    }
  }

  function Answered(before: Result, outcome: Outcome): Result {
    match outcome case Decided(result) => result case AwaitsWrite => before
  }

  lemma OneMoreWaiter(d: Decider, original: seq<Quota>, rs: seq<Request>, i: nat)
    requires i < |rs|
    ensures Running(d, original, rs[..i + 1]) == Next(d, Running(d, original, rs[..i]), rs[i])
    ensures Outcomes(d, original, rs)[i] == OutcomeOf(d, Running(d, original, rs[..i]), rs[i])
    ensures Outcomes(d, original, rs)[..i + 1] == Outcomes(d, original, rs)[..i] + [Outcomes(d, original, rs)[i]]
  {
    assert rs[..i + 1][..i] == rs[..i];
  }

  // Step 1 of checkQuotas: answer or charge one waiter after the other.
  method CheckWaiters(reg: Registry, original: seq<Quota>, waiters: seq<AdmissionWaiter>)
    returns (quotas: seq<Quota>, atLeastOneChanged: bool)
    requires ValidRegistry(reg) && Distinct(waiters)
    modifies waiters`result
    ensures quotas == Running(DeciderOf(reg), original, RequestsOf(waiters))
    ensures atLeastOneChanged <==> AwaitsWrite in Outcomes(DeciderOf(reg), original, RequestsOf(waiters))
    ensures ResultsOf(waiters)
      == Apply(old(ResultsOf(waiters)), Outcomes(DeciderOf(reg), original, RequestsOf(waiters)))
  {
    hide DeciderOf;
    hide ValidRegistry;
    ghost var d := DeciderOf(reg);
    ghost var rs := RequestsOf(waiters);
    ghost var before, outcomes := ResultsOf(waiters), Outcomes(d, original, rs);
    quotas, atLeastOneChanged := original, false;
    for i := 0 to |waiters|
      invariant quotas == Running(d, original, rs[..i])
      invariant atLeastOneChanged <==> AwaitsWrite in outcomes[..i]
      invariant forall j | 0 <= j < i :: waiters[j].result == Answered(before[j], outcomes[j])
      invariant forall j | i <= j < |waiters| :: waiters[j].result == before[j]
    {
      OneMoreWaiter(d, original, rs, i);
      var changed;
      quotas, changed := CheckWaiter(reg, quotas, waiters[i]);
      atLeastOneChanged := atLeastOneChanged || changed;
    }
    assert outcomes[..|waiters|] == outcomes && rs[..|waiters|] == rs;
  }

  // Step 3 of checkQuotas: write what changed, remember what could not be written.
  method WriteQuotas(accessor: Accessor, original: seq<Quota>, quotas: seq<Quota>) returns (failed: seq<Quota>)
    requires |quotas| == |original|
    modifies accessor
    ensures Writing(accessor.world, failed) == WriteChanged(old(accessor.world), original, quotas, |quotas|)
  {
    failed := [];
    for i := 0 to |quotas|
      invariant Writing(accessor.world, failed) == WriteChanged(old(accessor.world), original, quotas, i)
    {
      var same := Equals(original[i].used, quotas[i].used);
      if same {
        continue;
      }
      var ok := accessor.UpdateQuotaStatus(quotas[i]);
      if !ok {
        failed := failed + [quotas[i]];
      }
    }
  }

  method SettleWaiters(waiters: seq<AdmissionWaiter>, verdict: Result)
    requires Distinct(waiters)
    modifies waiters`result
    ensures ResultsOf(waiters) == Settle(old(ResultsOf(waiters)), verdict)
  {
    ghost var before := ResultsOf(waiters);
    for i := 0 to |waiters|
      invariant forall j | 0 <= j < i :: waiters[j].result == Settle(before, verdict)[j]
      invariant forall j | i <= j < |waiters| :: waiters[j].result == before[j]
    {
      if waiters[i].result == DefaultDeny {
        waiters[i].result := verdict;
      }
    }
  }

  method SelectFailed(newQuotas: seq<Quota>, failed: seq<Quota>) returns (selected: seq<Quota>)
    ensures selected == Named(newQuotas, failed)
  {
    selected := [];
    for i := 0 to |newQuotas|
      invariant Named(newQuotas, failed) == selected + Named(newQuotas[i..], failed)
    {
      assert newQuotas[i..][0] == newQuotas[i] && newQuotas[i..][1..] == newQuotas[i + 1..];
      for j := 0 to |failed|
        invariant forall k | 0 <= k < j :: failed[k].name != newQuotas[i].name
        invariant Named(newQuotas, failed) == selected + Named(newQuotas[i..], failed)
      {
        if newQuotas[i].name == failed[j].name {
          assert failed[j] in failed;
          selected := selected + [newQuotas[i]];
          break;
        }
      }
    }
  }

  method CheckQuotas(reg: Registry, accessor: Accessor, quotas: seq<Quota>, waiters: seq<AdmissionWaiter>,
                     remainingRetries: nat)
    requires ValidRegistry(reg) && Distinct(waiters)
    modifies accessor, waiters`result
    ensures Checked(accessor.world, ResultsOf(waiters)) ==
      Check(DeciderOf(reg), old(accessor.world), quotas, RequestsOf(waiters), old(ResultsOf(waiters)), remainingRetries)
    decreases remainingRetries
  {
    hide DeciderOf;
    hide ValidRegistry;
    ghost var d := DeciderOf(reg);
    hide Running;
    hide Outcomes;
    hide Apply;
    hide Settle;
    hide WriteChanged;
    hide Named;
    ghost var rs, w0 := RequestsOf(waiters), accessor.world;
    ghost var results1 := Apply(ResultsOf(waiters), Outcomes(d, quotas, rs));
    RunningSameQuotas(d, quotas, rs);
    var running, atLeastOneChanged := CheckWaiters(reg, quotas, waiters);
    if !atLeastOneChanged {
      return;
    }
    assert ResultsOf(waiters) == results1;
    var failed := WriteQuotas(accessor, quotas, running);
    assert Writing(accessor.world, failed) == WriteChanged(w0, quotas, Running(d, quotas, rs), |quotas|);
    if |failed| == 0 {
      SettleWaiters(waiters, Allowed);
      return;
    }
    if remainingRetries <= 0 {
      SettleWaiters(waiters, Denied(WriteFailed));
      return;
    }
    var newQuotas := accessor.GetQuotas();
    if newQuotas.None? {
      SettleWaiters(waiters, Denied(WriteFailed));
      return;
    }
    var quotasToCheck := SelectFailed(newQuotas.value, failed);
    CheckQuotas(reg, accessor, quotasToCheck, waiters, remainingRetries - 1);
  }

  /**
   Every waiter leaves with an answer and with its channel closed once more than before, on every
   path: refused when the quotas cannot be read, let through when there are none, and otherwise
   answered by the last pass that decides about it, of those that start from the quotas in name
   order with three retries. The quotas are read at most four times.
   */
  method CheckAttributes(reg: Registry, accessor: Accessor, waiters: seq<AdmissionWaiter>)
    requires ValidRegistry(reg) && Distinct(waiters)
    modifies accessor, waiters
    ensures ReadResult(old(accessor.world)) == None ==>
      accessor.world == AfterRead(old(accessor.world)) && forall w | w in waiters :: w.result == Denied(ReadFailed)
    ensures ReadResult(old(accessor.world)) == Some([]) ==>
      accessor.world == AfterRead(old(accessor.world)) && forall w | w in waiters :: w.result == Allowed
    ensures ReadResult(old(accessor.world)).Some? && ReadResult(old(accessor.world)).value != [] ==>
      var d, rs := DeciderOf(reg), RequestsOf(waiters);
      var inNameOrder := SortedByName(ReadResult(old(accessor.world)).value);
      var start := Pass(AfterRead(old(accessor.world)), inNameOrder);
      && accessor.world == CheckFrom(d, start, rs, old(ResultsOf(waiters)), 3).world
      && forall i | 0 <= i < |waiters| ::
           waiters[i].result == FinalAnswer(d, PassesOf(d, start, rs, 3), rs, i, old(waiters[i].result))
    ensures forall w | w in waiters :: w.result != DefaultDeny && w.closed == old(w.closed) + 1
    ensures |accessor.world.readResults| >= |old(accessor.world.readResults)| - 4
  {
    hide DeciderOf;
    hide ValidRegistry;
    ghost var d := DeciderOf(reg);
    hide Check;
    hide FinalAnswer;
    hide PassesOf;
    hide SortedByName;
    ghost var before, rs := ResultsOf(waiters), RequestsOf(waiters);
    ghost var w0 := accessor.world;
    var quotas := accessor.GetQuotas();
    if quotas.None? {
      SetAll(waiters, Denied(ReadFailed));
    } else if |quotas.value| == 0 {
      SetAll(waiters, Allowed);
    } else {
      var sorted := SortedByName(quotas.value);
      EveryoneAnswered(d, AfterRead(w0), sorted, rs, before, 3);
      CheckQuotas(reg, accessor, sorted, waiters, 3);
      assert AllAnswered(ResultsOf(waiters));
      forall i | 0 <= i < |waiters|
        ensures waiters[i].result == FinalAnswer(d, PassesOf(d, Pass(AfterRead(w0), sorted), rs, 3), rs, i, before[i])
      {
        assert waiters[i].result == ResultsOf(waiters)[i];
        AnswersExactly(d, Pass(AfterRead(w0), sorted), rs, before, 3, i);
      }
      assert |AfterRead(w0).readResults| >= |w0.readResults| - 1;
    }
    forall w | w in waiters ensures w.result != DefaultDeny {
      var i :| 0 <= i < |waiters| && waiters[i] == w;
      assert ResultsOf(waiters)[i] in ResultsOf(waiters);
    }
    CloseAll(waiters);
  }

  // The deferred close of every waiter's channel.
  method CloseAll(waiters: seq<AdmissionWaiter>)
    requires Distinct(waiters)
    modifies waiters`closed
    ensures forall w | w in waiters :: w.closed == old(w.closed) + 1
  {
    for i := 0 to |waiters|
      invariant forall j | 0 <= j < |waiters| :: waiters[j].closed == old(waiters[j].closed) + if j < i then 1 else 0
    {
      waiters[i].closed := waiters[i].closed + 1;
    }
  }

  method SetAll(waiters: seq<AdmissionWaiter>, verdict: Result)
    modifies waiters`result
    ensures forall w | w in waiters :: w.result == verdict
  {
    for i := 0 to |waiters|
      invariant forall j | 0 <= j < i :: waiters[j].result == verdict
    {
      waiters[i].result := verdict;
    }
  }
}
