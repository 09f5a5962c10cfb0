/** The passes a batch goes through when status writes fail, and the answers they add up to. */
module Passes {
  import opened Objects
  import opened Admission
  import opened Batches

  /** One pass of checkQuotas: the quotas it looks at, and how the coming calls will turn out. */
  datatype Pass = Pass(world: World, bases: seq<Quota>)

  function WritesIn(d: Decider, p: Pass, rs: seq<Request>): Writing {
    WritesOf(d, p.world, p.bases, rs)
  }

  // Something is to be written, a write fails, and the quotas can be read again.
  predicate Retried(d: Decider, p: Pass, rs: seq<Request>, retries: nat) {
    && AwaitsWrite in Outcomes(d, p.bases, rs)
    && WritesIn(d, p, rs).failed != [] && retries > 0 && ReadResult(WritesIn(d, p, rs).world).Some?
  }

  // The next pass looks at the re-read quotas whose write failed, and at no others.
  function NextPass(d: Decider, p: Pass, rs: seq<Request>): Pass
    requires ReadResult(WritesIn(d, p, rs).world).Some?
  {
    var writing := WritesIn(d, p, rs);
    Pass(AfterRead(writing.world), Named(ReadResult(writing.world).value, writing.failed))
  }

  function PassesOf(d: Decider, p: Pass, rs: seq<Request>, retries: nat): (ps: seq<Pass>)
    ensures ps != [] && ps[0] == p
    decreases retries
  {
    if Retried(d, p, rs, retries) then [p] + PassesOf(d, NextPass(d, p, rs), rs, retries - 1) else [p]
  }

  function LastPass(d: Decider, p: Pass, rs: seq<Request>, retries: nat): Pass {
    var ps := PassesOf(d, p, rs, retries);
    ps[|ps| - 1]
  }

  // Something is written in this pass, and every write succeeds.
  predicate Written(d: Decider, p: Pass, rs: seq<Request>) {
    AwaitsWrite in Outcomes(d, p.bases, rs) && WritesIn(d, p, rs).failed == []
  }

  // The quotas as one waiter finds them at its turn.
  function AtTurn(d: Decider, p: Pass, rs: seq<Request>, i: nat): seq<Quota>
    requires i < |rs|
  {
    Running(d, p.bases, rs[..i])
  }

  function OutcomeIn(d: Decider, p: Pass, rs: seq<Request>, i: nat): Outcome
    requires i < |rs|
  {
    OutcomeOf(d, AtTurn(d, p, rs, i), rs[i])
  }

  // What the last pass that decided about a waiter said.
  function LatestDecided(d: Decider, ps: seq<Pass>, rs: seq<Request>, i: nat): Option<Result>
    requires i < |rs|
  {
    if ps == [] then None
    else match OutcomeIn(d, ps[|ps| - 1], rs, i)
      case Decided(result) => Some(result)
      case AwaitsWrite => LatestDecided(d, ps[..|ps| - 1], rs, i)
  }

  // A waiter that every pass only charges is answered by the fate of the last writes.
  function FinalAnswer(d: Decider, ps: seq<Pass>, rs: seq<Request>, i: nat, start: Result): Result
    requires i < |rs| && ps != []
  {
    match LatestDecided(d, ps, rs, i)
    case Some(result) => result
    case None =>
      if start != DefaultDeny then start
      else if Written(d, ps[|ps| - 1], rs) then Allowed
      else Denied(WriteFailed)
  }

  lemma {:induction false} LatestAfterFirst(d: Decider, first: Pass, rest: seq<Pass>, rs: seq<Request>, i: nat)
    requires i < |rs|
    ensures LatestDecided(d, [first] + rest, rs, i) ==
      if LatestDecided(d, rest, rs, i).Some? then LatestDecided(d, rest, rs, i)
      else match OutcomeIn(d, first, rs, i) case Decided(result) => Some(result) case AwaitsWrite => None
  {
    var ps := [first] + rest;
    if rest == [] {
      assert ps[..|ps| - 1] == [];
    } else {
      assert ps[..|ps| - 1] == [first] + rest[..|rest| - 1];
      LatestAfterFirst(d, first, rest[..|rest| - 1], rs, i);
    }
  }

  lemma {:induction false} LatestDecidedMeans(d: Decider, ps: seq<Pass>, rs: seq<Request>, i: nat, result: Result)
    requires i < |rs|
    ensures LatestDecided(d, ps, rs, i) == Some(result) <==>
      exists n :: 0 <= n < |ps| && DecidedLast(d, ps, rs, i, n, result)
  {
    if ps != [] {
      var front, last := ps[..|ps| - 1], ps[|ps| - 1];
      LatestDecidedMeans(d, front, rs, i, result);
      if n :| 0 <= n < |ps| && DecidedLast(d, ps, rs, i, n, result) {
        if n < |front| {
          assert OutcomeIn(d, ps[|ps| - 1], rs, i) == AwaitsWrite;
          assert DecidedLast(d, front, rs, i, n, result);
        }
      }
      if LatestDecided(d, ps, rs, i) == Some(result) {
        if OutcomeIn(d, last, rs, i) == AwaitsWrite {
          var n :| 0 <= n < |front| && DecidedLast(d, front, rs, i, n, result);
          assert DecidedLast(d, ps, rs, i, n, result);
        } else {
          assert DecidedLast(d, ps, rs, i, |ps| - 1, result);
        }
      }
    }
  }

  // Pass n decides, and all later ones only charge.
  ghost predicate DecidedLast(d: Decider, ps: seq<Pass>, rs: seq<Request>, i: nat, n: nat, result: Result)
    requires i < |rs|
  {
    && n < |ps| && OutcomeIn(d, ps[n], rs, i) == Decided(result)
    && forall m | n < m < |ps| :: OutcomeIn(d, ps[m], rs, i) == AwaitsWrite
  }

  // ----- checking is going through the passes -----

  function CheckFrom(d: Decider, p: Pass, rs: seq<Request>, results: seq<Result>, retries: nat): (c: Checked)
    requires |rs| == |results|
    ensures |c.results| == |rs|
  {
    Check(d, p.world, p.bases, rs, results, retries)
  }

  lemma RetriedOnce(d: Decider, p: Pass, rs: seq<Request>, results: seq<Result>, retries: nat)
    requires |rs| == |results| && Retried(d, p, rs, retries)
    ensures retries > 0 && ReadResult(WritesIn(d, p, rs).world).Some?
    ensures CheckFrom(d, p, rs, results, retries) ==
      CheckFrom(d, NextPass(d, p, rs), rs, Apply(results, Outcomes(d, p.bases, rs)), retries - 1)
    ensures PassesOf(d, p, rs, retries) == [p] + PassesOf(d, NextPass(d, p, rs), rs, retries - 1)
  {
  }

  lemma LastAnswer(d: Decider, p: Pass, rs: seq<Request>, results: seq<Result>, retries: nat, i: nat)
    requires |rs| == |results| && i < |rs| && !Retried(d, p, rs, retries)
    ensures CheckFrom(d, p, rs, results, retries).results[i] == FinalAnswer(d, [p], rs, i, results[i])
  {
    var outcomes := Outcomes(d, p.bases, rs);
    assert outcomes[i] == OutcomeIn(d, p, rs, i) && outcomes[i] in outcomes;
    NeverDefault(d, AtTurn(d, p, rs, i), rs[i]);
    assert [p][..0] == [];
    assert LatestDecided(d, [p], rs, i)
      == match outcomes[i] case Decided(result) => Some(result) case AwaitsWrite => None;
  }

  // What a first pass decides is where the later ones start from.
  lemma AnswerAfterFirst(d: Decider, first: Pass, rest: seq<Pass>, rs: seq<Request>, i: nat, start: Result)
    requires i < |rs| && rest != []
    ensures FinalAnswer(d, [first] + rest, rs, i, start)
         == FinalAnswer(d, rest, rs, i,
              match Outcomes(d, first.bases, rs)[i] case Decided(result) => result case AwaitsWrite => start)
  {
    LatestAfterFirst(d, first, rest, rs, i);
    NeverDefault(d, AtTurn(d, first, rs, i), rs[i]);
    assert Outcomes(d, first.bases, rs)[i] == OutcomeIn(d, first, rs, i);
  }

  /**
   The exact answer of every waiter, for any number of retries and whatever the API server does:
   the last pass that decided about it stands; if none did, the fate of the last writes decides.
   */
  lemma {:induction false} AnswersExactly(d: Decider, p: Pass, rs: seq<Request>, results: seq<Result>, retries: nat,
                                          i: nat)
    requires |rs| == |results| && i < |rs|
    ensures CheckFrom(d, p, rs, results, retries).results[i]
      == FinalAnswer(d, PassesOf(d, p, rs, retries), rs, i, results[i])
    decreases retries
  {
    hide CheckFrom;
    hide Retried;
    hide WritesIn;
    if Retried(d, p, rs, retries) {
      RetriedOnce(d, p, rs, results, retries);
      hide PassesOf;
      hide FinalAnswer;
      var next, results1 := NextPass(d, p, rs), Apply(results, Outcomes(d, p.bases, rs));
      AnswersExactly(d, next, rs, results1, retries - 1, i);
      AnswerAfterFirst(d, p, PassesOf(d, next, rs, retries - 1), rs, i, results[i]);
    } else {
      LastAnswer(d, p, rs, results, retries, i);
    }
  }

  /** What each pass after the first looks at: of some read, the quotas with the name of a failed one. */
  lemma {:induction false} ReadForPass(d: Decider, p: Pass, rs: seq<Request>, retries: nat, n: nat)
    returns (read: seq<Quota>)
    requires 0 < n < |PassesOf(d, p, rs, retries)|
    ensures Some(read) in p.world.readResults
    ensures var before, pass := PassesOf(d, p, rs, retries)[n - 1], PassesOf(d, p, rs, retries)[n];
      WritesIn(d, before, rs).failed != [] && pass.bases == Named(read, WritesIn(d, before, rs).failed)
    decreases retries
  {
    var rest := NextPass(d, p, rs);
    assert PassesOf(d, p, rs, retries) == [p] + PassesOf(d, rest, rs, retries - 1);
    RunningSameQuotas(d, p.bases, rs);
    WritesOnlyWrite(p.world, p.bases, Running(d, p.bases, rs), |p.bases|);
    if n > 1 {
      read := ReadForPass(d, rest, rs, retries - 1, n - 1);
    } else {
      read := ReadResult(WritesIn(d, p, rs).world).value;
    }
  }

  /** When the last pass's writes all succeed, the store afterwards is the one after those writes. */
  lemma {:induction false} WorldAfter(d: Decider, p: Pass, rs: seq<Request>, results: seq<Result>, retries: nat)
    requires |rs| == |results|
    ensures var last := LastPass(d, p, rs, retries);
      Written(d, last, rs) ==> CheckFrom(d, p, rs, results, retries).world == WritesIn(d, last, rs).world
    decreases retries
  {
    if Retried(d, p, rs, retries) {
      RetriedOnce(d, p, rs, results, retries);
      WorldAfter(d, NextPass(d, p, rs), rs, Apply(results, Outcomes(d, p.bases, rs)), retries - 1);
    }
  }

  /** Whoever is let through was admitted, at its turn, by the quotas of the last pass. */
  lemma AllowedByLastPass(d: Decider, p: Pass, rs: seq<Request>, results: seq<Result>, retries: nat, i: nat)
    requires |rs| == |results| && i < |rs|
    requires CheckFrom(d, p, rs, results, retries).results[i] == Allowed
    ensures var last := LastPass(d, p, rs, retries);
      OutcomeIn(d, last, rs, i) == AwaitsWrite || OutcomeIn(d, last, rs, i) == Decided(Allowed)
  {
    AnswersExactly(d, p, rs, results, retries, i);
  }
}
