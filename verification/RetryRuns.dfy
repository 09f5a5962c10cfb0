/** Concrete runs in which retries after failed status writes do what one would not expect. */
module RetryRuns {
  import opened ResourceLists
  import opened Objects
  import opened Evaluators
  import opened CoreEvaluators
  import opened Admission
  import opened Batches
  import opened Passes
  import opened Retries

  function Kind(name: string): GroupResource { GroupResource("", name) }

  function Creation(name: string): Request {
    Request(Kind(name), Create, OtherObject, NoPrevious, false)
  }

  function CountQuota(name: string, version: nat, resource: ResourceName, hard: int, used: int): Quota {
    Quota(name, version, "ns", [], [], map[resource := hard], map[resource := used])
  }

  // How the object-count evaluator of a kind decides about quotas on one count each.
  lemma CountScreen(kind: string, q: Quota, resource: ResourceName, hard: int, used: int)
    requires q == CountQuota(q.name, q.version, resource, hard, used)
    ensures var e := ObjectCountEvaluator(Kind(kind), "");
      && Screen(e, q, OtherObject) == (if resource == "count/" + kind then Interesting else Skipped)
      && DeltaOf(e, Creation(kind)) == Delta(map["count/" + kind := 1])
      && (resource == "count/" + kind ==> (Fits(q, map["count/" + kind := 1]) <==> used + 1 <= hard))
      && (resource == "count/" + kind ==>
        Charge(q, map["count/" + kind := 1]) == CountQuota(q.name, q.version, resource, hard, used + 1))
  {
    var e := ObjectCountEvaluator(Kind(kind), "");
    assert CountedNames(Kind(kind), "") == ["count/" + kind];
    assert e.usage(OtherObject).value == map["count/" + kind := 1];
    assert e.Accepts(resource) <==> resource == "count/" + kind;
    assert Restricted(e, q) == if resource == "count/" + kind then {resource} else {};
    assert AdmissionChecks(q) == [];
    assert Only(map["count/" + kind := 1], q.hard.Keys)
      == if resource == "count/" + kind then map[resource := 1] else map[];
    assert Plus(map[resource := used], map[resource := 1]) == map[resource := used + 1];
  }

  // What is left of Decide once screening, delta and fit of one or two quotas are known.
  lemma DecideOne(e: Evaluator, q: Quota, r: Request, delta: ResourceList)
    requires e.handles(r.operation) && !Screen(e, q, r.item).Fault?
    requires DeltaOf(e, r) == Delta(delta) && !NoChange(delta)
    ensures Decide(e, [q], r) ==
      if Overruns(e, q, r.item, delta) then Refused(Exceeded(q.name))
      else Admitted([ChargeInteresting(e, q, r.item, delta)])
  {
    assert [q][1..] == [];
    FirstFaultNone(e, [q], r.item);
    assert FirstOverrun(e, [], r.item, delta) == None;
    assert ChargeAll(e, [q], r.item, delta) == [ChargeInteresting(e, q, r.item, delta)];
  }

  lemma DecideTwo(e: Evaluator, q: Quota, q': Quota, r: Request, delta: ResourceList)
    requires e.handles(r.operation) && !Screen(e, q, r.item).Fault? && !Screen(e, q', r.item).Fault?
    requires DeltaOf(e, r) == Delta(delta) && !NoChange(delta)
    ensures Decide(e, [q, q'], r) ==
      if Overruns(e, q, r.item, delta) then Refused(Exceeded(q.name))
      else if Overruns(e, q', r.item, delta) then Refused(Exceeded(q'.name))
      else Admitted([ChargeInteresting(e, q, r.item, delta), ChargeInteresting(e, q', r.item, delta)])
  {
    assert [q, q'][1..] == [q'] && [q'][1..] == [];
    FirstFaultNone(e, [q, q'], r.item);
    assert FirstOverrun(e, [], r.item, delta) == None;
    assert FirstOverrun(e, [q'], r.item, delta) == if Overruns(e, q', r.item, delta) then Some(q'.name) else None;
    assert ChargeAll(e, [q, q'], r.item, delta)
      == [ChargeInteresting(e, q, r.item, delta), ChargeInteresting(e, q', r.item, delta)];
  }

  // One quota on one count, and a request that creates an object of some kind.
  lemma CountDecision(kind: string, q: Quota, resource: ResourceName, hard: int, used: int)
    requires q == CountQuota(q.name, q.version, resource, hard, used)
    ensures Decide(ObjectCountEvaluator(Kind(kind), ""), [q], Creation(kind)) ==
      if resource != "count/" + kind then Admitted([q])
      else if used + 1 <= hard then Admitted([CountQuota(q.name, q.version, resource, hard, used + 1)])
      else Refused(Exceeded(q.name))
  {
    var delta := map["count/" + kind := 1];
    CountScreen(kind, q, resource, hard, used);
    assert delta["count/" + kind] == 1;
    DecideOne(ObjectCountEvaluator(Kind(kind), ""), q, Creation(kind), delta);
  }

  // One quota on count/a next to one on count/b, and a request that creates an object of either kind.
  lemma CountDecisions(kind: string, a: Quota, b: Quota, hardA: int, usedA: int, hardB: int, usedB: int)
    requires kind == "a" || kind == "b"
    requires a == CountQuota(a.name, a.version, "count/a", hardA, usedA)
    requires b == CountQuota(b.name, b.version, "count/b", hardB, usedB)
    ensures var e := ObjectCountEvaluator(Kind(kind), "");
      && Decide(e, [a], Creation(kind)) == (
        if kind == "b" then Admitted([a])
        else if usedA + 1 <= hardA then Admitted([CountQuota(a.name, a.version, "count/a", hardA, usedA + 1)])
        else Refused(Exceeded(a.name)))
      && Decide(e, [a, b], Creation(kind)) == (
        if kind == "a" then
          if usedA + 1 <= hardA then Admitted([CountQuota(a.name, a.version, "count/a", hardA, usedA + 1), b])
          else Refused(Exceeded(a.name))
        else
          if usedB + 1 <= hardB then Admitted([a, CountQuota(b.name, b.version, "count/b", hardB, usedB + 1)])
          else Refused(Exceeded(b.name)))
  {
    var e := ObjectCountEvaluator(Kind(kind), "");
    var delta := map["count/" + kind := 1];
    CountScreen(kind, a, "count/a", hardA, usedA);
    CountScreen(kind, b, "count/b", hardB, usedB);
    assert "count/" + kind == if kind == "a" then "count/a" else "count/b";
    assert "count/a"[6] != "count/b"[6];
    assert delta["count/" + kind] == 1;
    DecideOne(e, a, Creation(kind), delta);
    DecideTwo(e, a, b, Creation(kind), delta);
  }

  function TwoKinds(): Registry {
    map[Kind("a") := ObjectCountEvaluator(Kind("a"), ""), Kind("b") := ObjectCountEvaluator(Kind("b"), "")]
  }

  lemma TwoKindsDecides(kind: string, quotas: seq<Quota>)
    requires kind == "a" || kind == "b"
    ensures DeciderOf(TwoKinds())(quotas, Creation(kind))
      == Decide(ObjectCountEvaluator(Kind(kind), ""), quotas, Creation(kind))
  {
    assert "a" != "b" by { assert "a"[0] != "b"[0]; }
    assert TwoKinds()[Kind(kind)] == ObjectCountEvaluator(Kind(kind), "");
  }

  // Two requests in a row: the second is decided on what the first one left.
  lemma TwoStep(d: Decider, quotas: seq<Quota>, rs: seq<Request>)
    requires |rs| == 2
    ensures Running(d, quotas, rs[..1]) == Next(d, quotas, rs[0])
    ensures Running(d, quotas, rs) == Next(d, Next(d, quotas, rs[0]), rs[1])
    ensures Outcomes(d, quotas, rs)[0] == OutcomeOf(d, quotas, rs[0])
    ensures Outcomes(d, quotas, rs)[1] == OutcomeOf(d, Next(d, quotas, rs[0]), rs[1])
  {
    assert rs[..1][..0] == [] && rs[..0] == [];
    assert Running(d, quotas, rs[..1]) == Next(d, Running(d, quotas, rs[..1][..0]), rs[0]);
    assert rs[..|rs| - 1] == rs[..1];
  }

  // A batch that goes through exactly two passes.
  lemma TwoPasses(d: Decider, p: Pass, rs: seq<Request>, retries: nat, next: Pass)
    requires Retried(d, p, rs, retries) && next == NextPass(d, p, rs) && !Retried(d, next, rs, retries - 1)
    ensures PassesOf(d, p, rs, retries) == [p, next]
  {
    assert PassesOf(d, next, rs, retries - 1) == [next];
  }

  // The answer of a batch with two passes.
  lemma TwoPassAnswer(d: Decider, p: Pass, rs: seq<Request>, retries: nat, next: Pass, i: nat)
    requires i < |rs| && PassesOf(d, p, rs, retries) == [p, next]
    ensures CheckFrom(d, p, rs, Unanswered(|rs|), retries).results[i] ==
      match OutcomeIn(d, next, rs, i)
      case Decided(result) => result
      case AwaitsWrite =>
        if OutcomeIn(d, p, rs, i).Decided? then OutcomeIn(d, p, rs, i).result
        else if Written(d, next, rs) then Allowed
        else Denied(WriteFailed)
  {
    AnswersExactly(d, p, rs, Unanswered(|rs|), retries, i);
    assert [p, next][..1] == [p] && [p][..0] == [];
    assert LatestDecided(d, [p], rs, i)
      == match OutcomeIn(d, p, rs, i) case Decided(result) => Some(result) case AwaitsWrite => None;
  }

  // The run of RetryForgetsADenial for any two quotas and requests that are decided in this way.
  lemma DenialForgotten(d: Decider, w: World, quotas: seq<Quota>, reread: seq<Quota>, final: seq<Quota>,
                        final': seq<Quota>, rs: seq<Request>, reason: Reason, retries: nat)
    requires |rs| == 2 && !rs[0].dryRun && retries > 0
    requires |quotas| == |reread| == |final| == 2 && |final'| == 1
    requires quotas[0].name == reread[0].name == final[0].name && quotas[1] == reread[1] == final[1]
    requires quotas[0].name != quotas[1].name
    requires quotas[0].used != final[0].used && reread[0].used != final'[0].used
    requires d(quotas, rs[0]) == Admitted(final) && d(final, rs[1]) == Refused(reason)
    requires d([reread[0]], rs[0]) == Admitted(final') && d(final', rs[1]) == Admitted(final')
    requires w == World([Some(reread)], [false, true], [])
    ensures OutcomeIn(d, Pass(w, quotas), rs, 1) == Decided(Denied(reason))
    ensures CheckFrom(d, Pass(w, quotas), rs, Unanswered(|rs|), retries).results[1] == Allowed
  {
    var again := [reread[0]];
    TwoStep(d, quotas, rs);
    TwoStep(d, again, rs);
    assert Outcomes(d, quotas, rs)[0] == AwaitsWrite && Outcomes(d, again, rs)[1] == Decided(Allowed);
    var w1 := AfterWrite(w, final[0]);
    assert w1 == World([Some(reread)], [true], []);
    FirstWriteFails(w, quotas, final);
    assert Named(reread, [final[0]]) == again by {
      assert reread[1..] == [reread[1]] && reread[1..][1..] == [];
      assert Named([reread[1]], [final[0]]) == [];
    }
    var p, next := Pass(w, quotas), Pass(AfterRead(w1), again);
    assert Retried(d, p, rs, retries) && next == NextPass(d, p, rs);
    OneWrite(AfterRead(w1), again, final');
    TwoPasses(d, p, rs, retries, next);
    TwoPassAnswer(d, p, rs, retries, next, 1);
  }

  lemma FirstWriteFails(w: World, quotas: seq<Quota>, final: seq<Quota>)
    requires |quotas| == |final| == 2 && quotas[0].used != final[0].used && quotas[1] == final[1]
    requires !WriteSucceeds(w)
    ensures WriteChanged(w, quotas, final, |quotas|) == Writing(AfterWrite(w, final[0]), [final[0]])
  {
    assert WriteChanged(w, quotas, final, 0) == Writing(w, []);
    assert WriteChanged(w, quotas, final, 1) == Writing(AfterWrite(w, final[0]), [final[0]]);
  }

  lemma OneWrite(w: World, quotas: seq<Quota>, final: seq<Quota>)
    requires |quotas| == |final| == 1 && quotas[0].used != final[0].used
    ensures WriteChanged(w, quotas, final, |quotas|)
      == Writing(AfterWrite(w, final[0]), if WriteSucceeds(w) then [] else [final[0]])
  {
    assert WriteChanged(w, quotas, final, 0) == Writing(w, []);
  }

  lemma FirstCharges(a: Quota, b: Quota, a1: Quota)
    requires a == CountQuota(a.name, a.version, "count/a", 1, 0) && b == CountQuota(b.name, b.version, "count/b", 0, 0)
    requires a1 == CountQuota(a.name, a.version, "count/a", 1, 1)
    ensures DeciderOf(TwoKinds())([a, b], Creation("a")) == Admitted([a1, b])
    ensures DeciderOf(TwoKinds())([a], Creation("a")) == Admitted([a1])
  {
    TwoKindsDecides("a", [a, b]);
    TwoKindsDecides("a", [a]);
    CountDecisions("a", a, b, 1, 0, 0, 0);
  }

  lemma SecondDecisions(a1: Quota, b: Quota)
    requires a1 == CountQuota(a1.name, a1.version, "count/a", 1, 1)
    requires b == CountQuota(b.name, b.version, "count/b", 0, 0)
    ensures DeciderOf(TwoKinds())([a1, b], Creation("b")) == Refused(Exceeded(b.name))
    ensures DeciderOf(TwoKinds())([a1], Creation("b")) == Admitted([a1])
  {
    TwoKindsDecides("b", [a1, b]);
    TwoKindsDecides("b", [a1]);
    CountDecisions("b", a1, b, 1, 1, 0, 0);
    assert "a" != "b" by { assert "a"[0] != "b"[0]; }
  }

  /**
   With two quotas a retry can let a refused request through. Quota B has no room for the second
   request and says so; the write of quota A, charged for the first request, hits a conflict; the
   retry looks at quota A alone, which the second request does not touch, and answers Allowed.
   */
  lemma RetryForgetsADenial(a: Quota, b: Quota, rs: seq<Request>, retries: nat) returns (w: World)
    requires a == CountQuota("A", 1, "count/a", 1, 0) && b == CountQuota("B", 1, "count/b", 0, 0)
    requires rs == [Creation("a"), Creation("b")] && retries > 0
    ensures ValidRegistry(TwoKinds()) && a.name != b.name
    ensures OutcomeIn(DeciderOf(TwoKinds()), Pass(w, [a, b]), rs, 1) == Decided(Denied(Exceeded(b.name)))
    ensures CheckFrom(DeciderOf(TwoKinds()), Pass(w, [a, b]), rs, Unanswered(|rs|), retries).results[1] == Allowed
  {
    TwoKindsValid();
    assert a.name[0] != b.name[0];
    w := Forgetting(a, b, rs, retries);
  }

  lemma TwoKindsValid()
    ensures ValidRegistry(TwoKinds())
  {
    ObjectCountValid(Kind("a"), "");
    ObjectCountValid(Kind("b"), "");
  }

  lemma Forgetting(a: Quota, b: Quota, rs: seq<Request>, retries: nat) returns (w: World)
    requires a == CountQuota(a.name, a.version, "count/a", 1, 0) && b == CountQuota(b.name, b.version, "count/b", 0, 0)
    requires a.name != b.name && rs == [Creation("a"), Creation("b")] && retries > 0
    ensures OutcomeIn(DeciderOf(TwoKinds()), Pass(w, [a, b]), rs, 1) == Decided(Denied(Exceeded(b.name)))
    ensures CheckFrom(DeciderOf(TwoKinds()), Pass(w, [a, b]), rs, Unanswered(|rs|), retries).results[1] == Allowed
  {
    var a1 := CountQuota(a.name, a.version, "count/a", 1, 1);
    var a2 := CountQuota(a.name, a.version + 1, "count/a", 1, 0);
    var a3 := CountQuota(a.name, a.version + 1, "count/a", 1, 1);
    FirstCharges(a, b, a1);
    FirstCharges(a2, b, a3);
    SecondDecisions(a1, b);
    SecondDecisions(a3, b);
    assert a.used["count/a"] == 0 && a1.used["count/a"] == 1 && a2.used["count/a"] == 0 && a3.used["count/a"] == 1;
    w := World([Some([a2, b])], [false, true], []);
    DenialForgotten(DeciderOf(TwoKinds()), w, [a, b], [a2, b], [a1, b], [a3], rs, Exceeded(b.name), retries);
  }

  // A conflict on the one quota of an account: the first write fails, the second one does or does not.
  lemma OneConflict(d: Decider, w: World, q: Quota, q': Quota, final: Quota, final': Quota,
                    rs: seq<Request>, ok: bool, retries: nat)
    requires |rs| == 2 && retries > 0 && !rs[0].dryRun && !rs[1].dryRun && q'.name == q.name && final.name == q.name
    requires w == World([Some([q'])], [false, ok], [])
    requires Running(d, [q], rs) == [final] && q.used != final.used && AwaitsWrite in Outcomes(d, [q], rs)
    requires Running(d, [q'], rs) == [final'] && q'.used != final'.used && AwaitsWrite in Outcomes(d, [q'], rs)
    ensures var next := Pass(World([], [ok], []), [q']);
      && PassesOf(d, Pass(w, [q]), rs, retries) == [Pass(w, [q]), next]
      && WritesIn(d, next, rs) == Writing(AfterWrite(next.world, final'), if ok then [] else [final'])
  {
    var p, next := Pass(w, [q]), Pass(World([], [ok], []), [q']);
    OneWrite(w, [q], [final]);
    OneWrite(next.world, [q'], [final']);
    assert [false, ok][1..] == [ok];
    assert [Some([q'])][1..] == [];
    OnlyOneNamed([q'], [final], q.name);
    TwoPasses(d, p, rs, retries, next);
  }

  // Two requests that are decided about step by step.
  lemma TwoDecisions(d: Decider, before: seq<Quota>, between: seq<Quota>, after: seq<Quota>, rs: seq<Request>)
    requires |rs| == 2 && !rs[0].dryRun && !rs[1].dryRun
    requires d(before, rs[0]) == Admitted(between)
    requires d(between, rs[1]) == Admitted(after) || (d(between, rs[1]).Refused? && after == between)
    ensures Running(d, before, rs) == after
    ensures OutcomeOf(d, Running(d, before, rs[..0]), rs[0]) == OutcomeOf(d, before, rs[0])
    ensures OutcomeOf(d, Running(d, before, rs[..1]), rs[1]) == OutcomeOf(d, between, rs[1])
    ensures OutcomeOf(d, before, rs[0]) == AwaitsWrite || OutcomeOf(d, between, rs[1]) == AwaitsWrite ==>
      AwaitsWrite in Outcomes(d, before, rs)
  {
    TwoStep(d, before, rs);
    assert rs[..0] == [];
    assert Outcomes(d, before, rs)[0] in Outcomes(d, before, rs);
    assert Outcomes(d, before, rs)[1] in Outcomes(d, before, rs);
  }

  // The run of RefusedYetCharged for any quota and requests that are decided in this way.
  lemma ChargeKept(d: Decider, q: Quota, q': Quota, full: Quota, one: Quota, two: Quota, rs: seq<Request>, w: World,
                   reason: Reason, retries: nat)
    requires |rs| == 2 && retries > 0 && !rs[0].dryRun && !rs[1].dryRun && q'.name == q.name && full.name == q.name
    requires w == World([Some([q'])], [false, true], [])
    requires q.used != full.used && q'.used != one.used && one.used != two.used && q'.used != two.used
    requires d([q], rs[0]) == Admitted([full]) && d([full], rs[1]) == Refused(reason)
    requires d([q'], rs[0]) == Admitted([one]) && d([one], rs[1]) == Admitted([two])
    ensures CheckFrom(d, Pass(w, [q]), rs, Unanswered(|rs|), retries).results[1] == Denied(reason)
    ensures CheckFrom(d, Pass(w, [q]), rs, Unanswered(|rs|), retries).world.stored == [two]
  {
    hide CheckFrom;
    var p, next := Pass(w, [q]), Pass(World([], [true], []), [q']);
    assert UsageChanged([q], [full]) && UsageChanged([q'], [one]) && UsageChanged([one], [two]) by {
      assert [q][0].used != [full][0].used && [q'][0].used != [one][0].used && [one][0].used != [two][0].used;
    }
    TwoDecisions(d, [q], [full], [full], rs);
    TwoDecisions(d, [q'], [one], [two], rs);
    OneConflict(d, w, q, q', full, two, rs, true, retries);
    TwoPassAnswer(d, p, rs, retries, next, 1);
    WorldAfter(d, p, rs, Unanswered(|rs|), retries);
    assert AfterWrite(next.world, two).stored == [two];
  }

  /**
   A waiter can be refused and yet be charged. Two requests want the last free place of a quota;
   the write of the first one conflicts, because a place was given back; the retry has room for
   both and writes both, but the refusal of the second one stands.
   */
  lemma RefusedYetCharged(q: Quota, rs: seq<Request>, retries: nat) returns (p: Pass)
    requires q == CountQuota("A", 1, "count/a", 2, 1) && rs == [Creation("a"), Creation("a")] && retries > 0
    ensures p.bases == [q] && TermsFixed(p.world, q)
    ensures var d := DeciderOf(TwoKinds());
      var done := CheckFrom(d, p, rs, Unanswered(|rs|), retries);
      && done.results[1] == Denied(Exceeded("A"))
      && done.world.stored == [CountQuota("A", 2, "count/a", 2, 2)]
  {
    hide CheckFrom;
    var full, q', one, two := CountQuota("A", 1, "count/a", 2, 2), CountQuota("A", 2, "count/a", 2, 0),
                              CountQuota("A", 2, "count/a", 2, 1), CountQuota("A", 2, "count/a", 2, 2);
    p := Pass(World([Some([q'])], [false, true], []), [q]);
    CountSteps(q, full, q', one, two);
    ChargeKept(DeciderOf(TwoKinds()), q, q', full, one, two, rs, p.world, Exceeded("A"), retries);
  }

  lemma CountSteps(q: Quota, full: Quota, q': Quota, one: Quota, two: Quota)
    requires q == CountQuota(q.name, q.version, "count/a", 2, 1)
    requires full == CountQuota(q.name, q.version, "count/a", 2, 2)
    requires q' == CountQuota(q.name, q'.version, "count/a", 2, 0)
    requires one == CountQuota(q.name, q'.version, "count/a", 2, 1)
    requires two == CountQuota(q.name, q'.version, "count/a", 2, 2)
    ensures var d := DeciderOf(TwoKinds());
      && d([q], Creation("a")) == Admitted([full]) && d([full], Creation("a")) == Refused(Exceeded(q.name))
      && d([q'], Creation("a")) == Admitted([one]) && d([one], Creation("a")) == Admitted([two])
    ensures q.used["count/a"] == 1 && full.used["count/a"] == 2
    ensures q'.used["count/a"] == 0 && one.used["count/a"] == 1 && two.used["count/a"] == 2
  {
    hide DecideIn;
    hide TwoKinds;
    assert "count/" + "a" == "count/a";
    CountStep("a", q, "count/a", 2, 1);
    CountStep("a", full, "count/a", 2, 2);
    CountStep("a", q', "count/a", 2, 0);
    CountStep("a", one, "count/a", 2, 1);
  }

  lemma CountStep(kind: string, q: Quota, resource: ResourceName, hard: int, used: int)
    requires kind == "a" || kind == "b"
    requires q == CountQuota(q.name, q.version, resource, hard, used)
    ensures DeciderOf(TwoKinds())([q], Creation(kind)) ==
      if resource != "count/" + kind then Admitted([q])
      else if used + 1 <= hard then Admitted([CountQuota(q.name, q.version, resource, hard, used + 1)])
      else Refused(Exceeded(q.name))
  {
    TwoKindsDecides(kind, [q]);
    CountDecision(kind, q, resource, hard, used);
  }

  // The run of ChangedTermsLoseACharge for any quota and requests that are decided in this way.
  lemma ChargeLost(d: Decider, q: Quota, q': Quota, q1: Quota, q2: Quota, rs: seq<Request>, w: World, retries: nat)
    requires |rs| == 2 && retries > 0 && !rs[0].dryRun && !rs[1].dryRun && q'.name == q.name && q1.name == q.name
    requires w == World([Some([q'])], [false, false], []) && q.used != q1.used && q'.used != q2.used
    requires d([q], rs[0]) == Admitted([q1]) && d([q1], rs[1]) == Admitted([q1])
    requires d([q'], rs[0]) == Admitted([q']) && d([q'], rs[1]) == Admitted([q2])
    ensures OutcomeIn(d, LastPass(d, Pass(w, [q]), rs, retries), rs, 1) == AwaitsWrite
    ensures CheckFrom(d, Pass(w, [q]), rs, Unanswered(|rs|), retries).results[1] == Allowed
    ensures !Written(d, LastPass(d, Pass(w, [q]), rs, retries), rs)
  {
    var next := Pass(World([], [false], []), [q']);
    assert UsageChanged([q], [q1]) && UsageChanged([q'], [q2]) by {
      assert [q][0].used != [q1][0].used && [q'][0].used != [q2][0].used;
    }
    TwoDecisions(d, [q], [q1], [q1], rs);
    TwoDecisions(d, [q'], [q'], [q2], rs);
    OneConflict(d, w, q, q', q1, q2, rs, false, retries);
    TwoPassAnswer(d, Pass(w, [q]), rs, retries, next, 1);
  }

  // One free place for objects of one kind: that kind takes it, the other kind passes.
  lemma OneFreePlace(kind: string, other: string, q: Quota, full: Quota, resource: ResourceName)
    requires (kind == "a" && other == "b") || (kind == "b" && other == "a")
    requires resource == "count/" + kind
    requires q == CountQuota(q.name, q.version, resource, 1, 0) && full == CountQuota(q.name, q.version, resource, 1, 1)
    ensures DeciderOf(TwoKinds())([q], Creation(kind)) == Admitted([full])
    ensures DeciderOf(TwoKinds())([q], Creation(other)) == Admitted([q])
    ensures DeciderOf(TwoKinds())([full], Creation(other)) == Admitted([full])
    ensures q.used != full.used
  {
    hide DecideIn;
    hide TwoKinds;
    assert ("count/" + kind)[6] != ("count/" + other)[6];
    CountStep(kind, q, resource, 1, 0);
    CountStep(other, q, resource, 1, 0);
    CountStep(other, full, resource, 1, 1);
    assert q.used[resource] == 0 && full.used[resource] == 1;
  }

  /**
   AllowedIsStored needs the quota's terms to stay. Here the quota is rewritten between the passes:
   the first pass does not touch the second request and answers it; the next one charges it, and its
   write fails; the request is let through and nothing is stored.
   */
  lemma ChangedTermsLoseACharge(q: Quota, rs: seq<Request>, retries: nat) returns (p: Pass)
    requires q == CountQuota("A", 1, "count/b", 1, 0) && rs == [Creation("b"), Creation("a")] && retries > 0
    ensures p.bases == [q] && NameFixed(p.world, "A")
    ensures var d := DeciderOf(TwoKinds());
      && OutcomeIn(d, LastPass(d, p, rs, retries), rs, 1) == AwaitsWrite
      && CheckFrom(d, p, rs, Unanswered(|rs|), retries).results[1] == Allowed
      && !Written(d, LastPass(d, p, rs, retries), rs)
  {
    var q1, q' := CountQuota("A", 1, "count/b", 1, 1), CountQuota("A", 2, "count/a", 1, 0);
    var q2 := q'.(used := CountQuota("A", 2, "count/a", 1, 1).used);
    p := Pass(World([Some([q'])], [false, false], []), [q]);
    assert "count/" + "a" == "count/a" && "count/" + "b" == "count/b";
    OneFreePlace("b", "a", q, q1, "count/b");
    OneFreePlace("a", "b", q', q2, "count/a");
    ChargeLost(DeciderOf(TwoKinds()), q, q', q1, q2, rs, p.world, retries);
  }

  // ----- conflicts and a success -----

  // The writes conflict n times and then succeed; every re-read finds the quota as it was.
  function Conflicts(n: nat, q: Quota, stored: seq<Quota>): World {
    World(seq(n, i => Some([q])), seq(n, i => false) + [true], stored)
  }

  lemma OneMoreConflict(n: nat, q: Quota, stored: seq<Quota>, final: Quota)
    requires n > 0
    ensures !WriteSucceeds(Conflicts(n, q, stored))
    ensures ReadResult(AfterWrite(Conflicts(n, q, stored), final)) == Some([q])
    ensures AfterRead(AfterWrite(Conflicts(n, q, stored), final)) == Conflicts(n - 1, q, stored)
  {
    assert seq(n, i => false)[1..] == seq(n - 1, i => false);
    assert (seq(n, i => false) + [true])[1..] == seq(n - 1, i => false) + [true];
    assert seq(n, i => Some([q]))[1..] == seq(n - 1, i => Some([q]));
  }

  // A single request that its quota charges.
  lemma OneCharge(d: Decider, q: Quota, final: Quota, r: Request)
    requires !r.dryRun && d([q], r) == Admitted([final]) && q.used != final.used
    ensures Running(d, [q], [r]) == [final] && Outcomes(d, [q], [r]) == [AwaitsWrite]
  {
    assert UsageChanged([q], [final]) by {
      assert [q][0].used != [final][0].used;
    }
    assert [r][..0] == [];
  }

  lemma ConflictRetried(d: Decider, q: Quota, final: Quota, r: Request, n: nat, retries: nat, stored: seq<Quota>)
    requires !r.dryRun && d([q], r) == Admitted([final]) && q.used != final.used && final.name == q.name
    requires n > 0 && retries > 0
    ensures Retried(d, Pass(Conflicts(n, q, stored), [q]), [r], retries)
    ensures NextPass(d, Pass(Conflicts(n, q, stored), [q]), [r]) == Pass(Conflicts(n - 1, q, stored), [q])
  {
    OneCharge(d, q, final, r);
    OneWrite(Conflicts(n, q, stored), [q], [final]);
    OneMoreConflict(n, q, stored, final);
    OnlyOneNamed([q], [final], q.name);
  }

  /**
   A request that its quota charges in every pass survives as many conflicts as there are retries,
   and is then stored once; with one more conflict it is refused and nothing is stored.
   */
  lemma {:induction false} ConflictsThenSuccess(d: Decider, q: Quota, final: Quota, r: Request, n: nat, retries: nat,
                                                stored: seq<Quota>)
    requires !r.dryRun && d([q], r) == Admitted([final]) && q.used != final.used && final.name == q.name
    ensures var done := CheckFrom(d, Pass(Conflicts(n, q, stored), [q]), [r], [DefaultDeny], retries);
      && done.results == [if n <= retries then Allowed else Denied(WriteFailed)]
      && done.world.stored == stored + if n <= retries then [final] else []
  {
    var p := Pass(Conflicts(n, q, stored), [q]);
    OneCharge(d, q, final, r);
    if n > 0 && retries > 0 {
      hide CheckFrom;
      ConflictRetried(d, q, final, r, n, retries, stored);
      RetriedOnce(d, p, [r], [DefaultDeny], retries);
      assert Apply([DefaultDeny], [AwaitsWrite]) == [DefaultDeny];
      ConflictsThenSuccess(d, q, final, r, n - 1, retries - 1, stored);
    } else {
      OneWrite(p.world, [q], [final]);
      if n > 0 {
        OneMoreConflict(n, q, stored, final);
      }
    }
  }

  /** So with the three retries that every batch starts with, three conflicts are survived and four are not. */
  lemma ThreeConflictsSurvived(d: Decider, q: Quota, final: Quota, r: Request, n: nat)
    requires !r.dryRun && d([q], r) == Admitted([final]) && q.used != final.used && final.name == q.name
    ensures FinalAnswer(d, PassesOf(d, Pass(Conflicts(n, q, []), [q]), [r], 3), [r], 0, DefaultDeny)
         == if n <= 3 then Allowed else Denied(WriteFailed)
  {
    ConflictsThenSuccess(d, q, final, r, n, 3, []);
    AnswersExactly(d, Pass(Conflicts(n, q, []), [q]), [r], [DefaultDeny], 3, 0);
  }
}
