/** One quota through the passes of a batch: which passes look at it, and which of them stores it. */
module Looks {
  import opened Objects
  import opened Admission
  import opened Batches
  import opened Passes

  function IndexOf(bases: seq<Quota>, name: string): (i: nat)
    ensures i <= |bases|
    ensures i < |bases| ==> bases[i].name == name && bases[i] in bases
    ensures i == |bases| ==> forall q | q in bases :: q.name != name
  {
    if bases == [] || bases[0].name == name then 0 else 1 + IndexOf(bases[1..], name)
  }

  predicate LooksAt(p: Pass, name: string) {
    IndexOf(p.bases, name) < |p.bases|
  }

  // The last pass that looks at the quota; the first one if none does.
  function LastLook(ps: seq<Pass>, name: string): (m: nat)
    requires ps != []
    ensures m < |ps|
    ensures LooksAt(ps[0], name) ==> LooksAt(ps[m], name)
    ensures forall n | m < n < |ps| :: !LooksAt(ps[n], name)
  {
    if |ps| == 1 || LooksAt(ps[|ps| - 1], name) then |ps| - 1 else LastLook(ps[..|ps| - 1], name)
  }

  // The quota as a pass finds it, and as the pass would store it.
  function BaseIn(p: Pass, name: string): (q: Quota)
    requires LooksAt(p, name)
    ensures q.name == name && q in p.bases
  {
    p.bases[IndexOf(p.bases, name)]
  }

  function FinalIn(d: Decider, p: Pass, rs: seq<Request>, name: string): (q: Quota)
    requires LooksAt(p, name)
    ensures SameQuota(BaseIn(p, name), q) && GrewWithinHard(BaseIn(p, name), q)
  {
    RunningSameQuotas(d, p.bases, rs);
    Running(d, p.bases, rs)[IndexOf(p.bases, name)]
  }

  predicate FailsIn(d: Decider, p: Pass, rs: seq<Request>, name: string) {
    exists f | f in WritesIn(d, p, rs).failed :: f.name == name
  }

  lemma FailedIsUnwritten(d: Decider, p: Pass, rs: seq<Request>, name: string)
    requires FailsIn(d, p, rs, name)
    ensures !Written(d, p, rs)
  {
  }

  // The pass changes the quota and its write succeeds.
  predicate StoresIn(d: Decider, p: Pass, rs: seq<Request>, name: string) {
    LooksAt(p, name) && FinalIn(d, p, rs, name).used != BaseIn(p, name).used && !FailsIn(d, p, rs, name)
  }

  // Every read finds a quota of this name, and no name twice.
  ghost predicate ReadsFind(w: World, name: string) {
    forall read: seq<Quota> | Some(read) in w.readResults :: exists q :: q in read && q.name == name
  }

  ghost predicate ReadsDistinct(w: World) {
    forall read: seq<Quota> | Some(read) in w.readResults :: DistinctNames(read)
  }

  lemma TheOne(bases: seq<Quota>, q: Quota)
    requires DistinctNames(bases) && q in bases
    ensures IndexOf(bases, q.name) < |bases| && bases[IndexOf(bases, q.name)] == q
  {
    var i :| 0 <= i < |bases| && bases[i] == q;
  }

  lemma {:induction false} NamedDistinct(read: seq<Quota>, failed: seq<Quota>)
    requires DistinctNames(read)
    ensures DistinctNames(Named(read, failed))
  {
    if read != [] {
      NamedDistinct(read[1..], failed);
      NamedAreReread(read[1..], failed);
      var rest := Named(read[1..], failed);
      forall i | 0 <= i < |rest| ensures rest[i].name != read[0].name {
        assert rest[i] in read[1..];
      }
    }
  }

  // Only quotas that the pass looks at are written.
  lemma FailedIsLookedAt(d: Decider, p: Pass, rs: seq<Request>, f: Quota)
    requires f in WritesIn(d, p, rs).failed
    ensures LooksAt(p, f.name)
  {
    var final := Running(d, p.bases, rs);
    RunningSameQuotas(d, p.bases, rs);
    WriteChangedStores(p.world, p.bases, final, |p.bases|);
    assert f in final[..|p.bases|];
    var i :| 0 <= i < |final| && final[i] == f;
    assert SameQuota(p.bases[i], final[i]) && p.bases[i] in p.bases;
  }

  /** A quota that a pass looks at was looked at by every pass before. */
  lemma {:induction false} LookedAtBefore(d: Decider, p: Pass, rs: seq<Request>, retries: nat, name: string,
                                          n: nat, m: nat)
    requires n <= m < |PassesOf(d, p, rs, retries)| && LooksAt(PassesOf(d, p, rs, retries)[m], name)
    ensures LooksAt(PassesOf(d, p, rs, retries)[n], name)
    decreases m
  {
    hide PassesOf;
    hide WritesIn;
    if n < m {
      var before, pass := PassesOf(d, p, rs, retries)[m - 1], PassesOf(d, p, rs, retries)[m];
      var read := ReadForPass(d, p, rs, retries, m);
      NamedAreReread(read, WritesIn(d, before, rs).failed);
      var f :| f in WritesIn(d, before, rs).failed && f.name == BaseIn(pass, name).name;
      FailedIsLookedAt(d, before, rs, f);
      assert BaseIn(pass, name).name == name;
      assert f.name == name;
      LookedAtBefore(d, p, rs, retries, name, n, m - 1);
    }
  }

  /** While a read finds the quota, it is looked at again exactly when its write failed. */
  lemma LooksAgainExactly(d: Decider, p: Pass, rs: seq<Request>, retries: nat, name: string, n: nat)
    requires n + 1 < |PassesOf(d, p, rs, retries)| && ReadsFind(p.world, name)
    ensures LooksAt(PassesOf(d, p, rs, retries)[n + 1], name) <==>
      FailsIn(d, PassesOf(d, p, rs, retries)[n], rs, name)
  {
    var failed := WritesIn(d, PassesOf(d, p, rs, retries)[n], rs).failed;
    var read := ReadForPass(d, p, rs, retries, n + 1);
    NamedAreReread(read, failed);
    var q :| q in read && q.name == name;
    if f :| f in failed && f.name == name {
      assert q in Named(read, failed);
    }
  }

  /** Every pass looks at each name once, at quotas that were there at the start or that some read found. */
  lemma BasesRead(d: Decider, p: Pass, rs: seq<Request>, retries: nat, n: nat)
    requires n < |PassesOf(d, p, rs, retries)| && DistinctNames(p.bases) && ReadsDistinct(p.world)
    ensures DistinctNames(PassesOf(d, p, rs, retries)[n].bases)
    ensures forall q :: q in PassesOf(d, p, rs, retries)[n].bases ==>
      q in p.bases || exists read :: Some(read) in p.world.readResults && q in read
  {
    if n > 0 {
      var failed := WritesIn(d, PassesOf(d, p, rs, retries)[n - 1], rs).failed;
      var read := ReadForPass(d, p, rs, retries, n);
      NamedAreReread(read, failed);
      NamedDistinct(read, failed);
    }
  }

  // ----- what is stored -----

  predicate Unfailed(failed: seq<Quota>, name: string) {
    forall f | f in failed :: f.name != name
  }

  // Among the first n quotas, one that was to be written.
  ghost predicate ToWrite(original: seq<Quota>, final: seq<Quota>, n: nat, q: Quota) {
    exists i :: 0 <= i < n && i < |original| && i < |final| && q == final[i] && original[i].used != final[i].used
  }

  lemma OneMoreToWrite(original: seq<Quota>, final: seq<Quota>, n: nat, q: Quota)
    requires DistinctNames(final) && 0 < n <= |original| && n <= |final|
    ensures ToWrite(original, final, n, q) <==>
      ToWrite(original, final, n - 1, q) || (q == final[n - 1] && original[n - 1].used != q.used)
    ensures ToWrite(original, final, n - 1, q) ==> q.name != final[n - 1].name
  {
    assert original[n - 1].used != final[n - 1].used ==> ToWrite(original, final, n, final[n - 1]);
  }

  lemma {:induction false} WriteChangedExactly(w: World, original: seq<Quota>, final: seq<Quota>, n: nat, q: Quota)
    requires DistinctNames(final) && n <= |original| && n <= |final|
    ensures var writing := WriteChanged(w, original, final, n);
      q in writing.world.stored <==>
        q in w.stored || (ToWrite(original, final, n, q) && Unfailed(writing.failed, q.name))
  {
    if n > 0 {
      WriteChangedExactly(w, original, final, n - 1, q);
      WriteChangedStores(w, original, final, n - 1);
      var before, last := WriteChanged(w, original, final, n - 1), final[n - 1];
      OneMoreToWrite(original, final, n, q);
      hide ToWrite;
      assert Unfailed(before.failed, last.name) by {
        assert forall f | f in before.failed :: f in final[..n - 1];
      }
      assert Unfailed(before.failed + [last], q.name) <==> Unfailed(before.failed, q.name) && q.name != last.name;
    }
  }

  lemma PassStoresExactly(d: Decider, p: Pass, rs: seq<Request>, q: Quota)
    requires DistinctNames(p.bases)
    ensures q in WritesIn(d, p, rs).world.stored <==>
      q in p.world.stored || (StoresIn(d, p, rs, q.name) && q == FinalIn(d, p, rs, q.name))
  {
    var final := Running(d, p.bases, rs);
    RunningSameQuotas(d, p.bases, rs);
    assert forall i | 0 <= i < |final| :: SameQuota(p.bases[i], final[i]);
    WriteChangedExactly(p.world, p.bases, final, |p.bases|, q);
    forall i | 0 <= i < |final| && final[i].name == q.name ensures i == IndexOf(p.bases, q.name) {
      TheOne(p.bases, p.bases[i]);
    }
  }

  // Something was stored by one of the passes.
  ghost predicate StoredBy(d: Decider, ps: seq<Pass>, rs: seq<Request>, q: Quota, n: nat) {
    n < |ps| && StoresIn(d, ps[n], rs, q.name) && q == FinalIn(d, ps[n], rs, q.name)
  }

  lemma StoredByLater(d: Decider, p: Pass, rest: seq<Pass>, rs: seq<Request>, q: Quota)
    ensures (exists n :: StoredBy(d, [p] + rest, rs, q, n)) <==>
      StoredBy(d, [p], rs, q, 0) || exists n :: StoredBy(d, rest, rs, q, n)
  {
    hide StoresIn;
    var ps := [p] + rest;
    assert ps[0] == p && forall n | 0 < n < |ps| :: ps[n] == rest[n - 1];
    if n: nat :| StoredBy(d, ps, rs, q, n) {
      assert n > 0 ==> StoredBy(d, rest, rs, q, n - 1);
      assert n == 0 ==> StoredBy(d, [p], rs, q, 0);
    }
    if n: nat :| StoredBy(d, rest, rs, q, n) {
      assert StoredBy(d, ps, rs, q, n + 1);
    } else if StoredBy(d, [p], rs, q, 0) {
      assert StoredBy(d, ps, rs, q, 0);
    }
  }

  lemma OnePassStores(d: Decider, p: Pass, rs: seq<Request>, q: Quota)
    requires DistinctNames(p.bases)
    ensures q in WritesIn(d, p, rs).world.stored <==> q in p.world.stored || StoredBy(d, [p], rs, q, 0)
    ensures (exists n :: StoredBy(d, [p], rs, q, n)) <==> StoredBy(d, [p], rs, q, 0)
  {
    PassStoresExactly(d, p, rs, q);
  }

  // A batch that charges nobody writes nothing.
  lemma NoCharge(d: Decider, p: Pass, rs: seq<Request>)
    requires AwaitsWrite !in Outcomes(d, p.bases, rs)
    ensures WritesIn(d, p, rs) == Writing(p.world, [])
  {
    NothingAwaited(d, p.bases, rs);
    NothingWritten(p.world, p.bases, |p.bases|);
  }

  lemma {:induction false} NothingWritten(w: World, quotas: seq<Quota>, n: nat)
    requires n <= |quotas|
    ensures WriteChanged(w, quotas, quotas, n) == Writing(w, [])
  {
    if n > 0 {
      NothingWritten(w, quotas, n - 1);
    }
  }

  // The last pass leaves the store as its own writes leave it.
  lemma LastPassStores(d: Decider, p: Pass, rs: seq<Request>, results: seq<Result>, retries: nat)
    requires |rs| == |results| && !Retried(d, p, rs, retries)
    ensures CheckFrom(d, p, rs, results, retries).world.stored == WritesIn(d, p, rs).world.stored
  {
    if AwaitsWrite !in Outcomes(d, p.bases, rs) {
      NoCharge(d, p, rs);
    }
  }

  lemma {:induction false} StoredByPasses(d: Decider, p: Pass, rs: seq<Request>, results: seq<Result>, retries: nat,
                                          q: Quota)
    requires |rs| == |results| && DistinctNames(p.bases) && ReadsDistinct(p.world)
    ensures q in CheckFrom(d, p, rs, results, retries).world.stored <==>
      q in p.world.stored || exists n :: StoredBy(d, PassesOf(d, p, rs, retries), rs, q, n)
    decreases retries
  {
    hide CheckFrom;
    hide WritesIn;
    hide StoredBy;
    hide Retried;
    OnePassStores(d, p, rs, q);
    assert !Retried(d, p, rs, retries) ==> PassesOf(d, p, rs, retries) == [p];
    if Retried(d, p, rs, retries) {
      RetriedOnce(d, p, rs, results, retries);
      hide PassesOf;
      var next := NextPass(d, p, rs);
      ReadsShrink(d, p, rs);
      StoredByPasses(d, next, rs, Apply(results, Outcomes(d, p.bases, rs)), retries - 1, q);
      StoredByLater(d, p, PassesOf(d, next, rs, retries - 1), rs, q);
    } else {
      LastPassStores(d, p, rs, results, retries);
    }
  }

  lemma ReadsShrink(d: Decider, p: Pass, rs: seq<Request>)
    requires DistinctNames(p.bases) && ReadsDistinct(p.world) && ReadResult(WritesIn(d, p, rs).world).Some?
    ensures var next := NextPass(d, p, rs);
      DistinctNames(next.bases) && ReadsDistinct(next.world) && next.world.stored == WritesIn(d, p, rs).world.stored
  {
    var writing := WritesIn(d, p, rs);
    RunningSameQuotas(d, p.bases, rs);
    WritesOnlyWrite(p.world, p.bases, Running(d, p.bases, rs), |p.bases|);
    var read := ReadResult(writing.world).value;
    assert Some(read) in p.world.readResults;
    NamedDistinct(read, writing.failed);
  }

  /**
   What a batch leaves in the store, through any number of retries: every quota that the last pass
   that looked at it changed and could write, as that pass left it, and nothing else.
   */
  lemma StoredExactly(d: Decider, p: Pass, rs: seq<Request>, results: seq<Result>, retries: nat, q: Quota)
    requires |rs| == |results| && DistinctNames(p.bases) && ReadsDistinct(p.world) && ReadsFind(p.world, q.name)
    requires p.world.stored == []
    ensures var ps := PassesOf(d, p, rs, retries);
      q in CheckFrom(d, p, rs, results, retries).world.stored <==>
        StoredBy(d, ps, rs, q, LastLook(ps, q.name))
  {
    StoredByPasses(d, p, rs, results, retries, q);
    var ps := PassesOf(d, p, rs, retries);
    if n: nat :| StoredBy(d, ps, rs, q, n) {
      OnlyLastLookStores(d, p, rs, retries, q.name, n);
    }
  }

  lemma OnlyLastLookStores(d: Decider, p: Pass, rs: seq<Request>, retries: nat, name: string, n: nat)
    requires n < |PassesOf(d, p, rs, retries)| && ReadsFind(p.world, name)
    requires StoresIn(d, PassesOf(d, p, rs, retries)[n], rs, name)
    ensures n == LastLook(PassesOf(d, p, rs, retries), name)
  {
    var ps := PassesOf(d, p, rs, retries);
    var m := LastLook(ps, name);
    LookedAtBefore(d, p, rs, retries, name, 0, n);
    if n < m {
      LooksAgainExactly(d, p, rs, retries, name, n);
      LookedAtBefore(d, p, rs, retries, name, n + 1, m);
    }
  }
}
