/**
 One lock per quota name, and batches that take the locks of all their quotas in name order:
 no two callers ever get different locks for a name, and no set of batches blocks itself.
 */
module Locks {
  import opened Names
  import opened Sums
  import opened Admission

  // ----- the lock factory -----

  class Mutex {
    var held: bool

    constructor ()
      ensures !held
    {
      held := false;
    }
  }

  class LockFactory {
    var locks: map<string, Mutex>

    ghost predicate Valid()
      reads this
    {
      forall a, b | a in locks && b in locks && a != b :: locks[a] != locks[b]
    }

    constructor ()
      ensures Valid() && locks == map[]
    {
      locks := map[];
    }

    method GetLock(key: string) returns (lock: Mutex)
      requires Valid()
      modifies this
      ensures Valid() && key in locks && locks[key] == lock
      ensures forall k | k in old(locks) :: k in locks && locks[k] == old(locks)[k]
      ensures locks.Keys == old(locks.Keys) + {key}
      ensures key !in old(locks) ==> fresh(lock) && !lock.held
    {
      if key in locks {
        return locks[key];
      }
      lock := new Mutex();
      locks := locks[key := lock];
    }

    // The loop: one lock after the other, in the order given, up to one that somebody else holds.
    method TakeAll(names: seq<string>) returns (taken: seq<Mutex>)
      requires Valid() && Distinct(names)
      modifies this, locks.Values
      ensures Valid() && |taken| <= |names| && Distinct(taken)
      ensures forall i | 0 <= i < |taken| :: Took(names[i], taken[i])
      ensures forall i | 0 <= i < |taken| && names[i] in old(locks) :: !old(locks[names[i]].held)
      ensures |taken| < |names| ==> names[|taken|] in old(locks) && old(locks[names[|taken|]].held)
      ensures forall k | k in old(locks) :: k in locks && locks[k] == old(locks)[k]
      ensures forall k | k in old(locks) && k !in names[..|taken|] :: locks[k].held == old(locks[k].held)
    {
      taken := [];
      for i := 0 to |names|
        invariant Valid() && |taken| == i
        invariant forall j | 0 <= j < i :: Took(names[j], taken[j])
        invariant forall j | 0 <= j < i && names[j] in old(locks) :: !old(locks[names[j]].held)
        invariant forall k | k in old(locks) :: k in locks && locks[k] == old(locks)[k]
        invariant forall k | k in locks && k !in old(locks) :: k in names[..i] && fresh(locks[k])
        invariant forall k | k in old(locks) && k !in names[..i] :: locks[k].held == old(locks[k].held)
      {
        assert names[i] !in names[..i] && names[..i + 1] == names[..i] + [names[i]];
        var lock := GetLock(names[i]);
        if lock.held {
          return;
        }
        lock.held := true;
        taken := taken + [lock];
      }
    }

    /**
     Sorts the quotas and takes their locks in that order, up to the first one that another batch
     holds, where it goes on waiting. Quotas with distinct names have distinct locks, so a batch
     never waits for itself.
     */
    method LockAquisition(quotas: seq<Quota>) returns (sorted: seq<Quota>, taken: seq<Mutex>)
      requires Valid() && Distinct(NamesOf(quotas))
      modifies this, locks.Values
      ensures Valid()
      ensures sorted == SortedByName(quotas)
      ensures |taken| <= |sorted| && Distinct(taken)
      ensures forall i | 0 <= i < |taken| ::
        sorted[i].name in locks && locks[sorted[i].name] == taken[i] && taken[i].held
      ensures forall i | 0 <= i < |taken| && sorted[i].name in old(locks) :: !old(locks[sorted[i].name].held)
      ensures |taken| < |sorted| ==>
        sorted[|taken|].name in old(locks) && old(locks[sorted[|taken|].name].held)
    {
      sorted := SortedByName(quotas);
      SortedNames(quotas);
      taken := TakeAll(NamesOf(sorted));
      assert forall i | 0 <= i < |sorted| :: NamesOf(sorted)[i] == sorted[i].name;
    }

    ghost predicate Took(name: string, lock: Mutex)
      reads this, lock
    {
      name in locks && locks[name] == lock && lock.held
    }

    // The release function: the last lock taken is given back first.
    method Release(taken: seq<Mutex>)
      requires Distinct(taken)
      modifies taken
      ensures forall m | m in taken :: !m.held
    {
      var i := |taken|;
      while i > 0
        invariant 0 <= i <= |taken|
        invariant forall j | i <= j < |taken| :: !taken[j].held
      {
        i := i - 1;
        taken[i].held := false;
      }
    }
  }

  function NamesOf(quotas: seq<Quota>): seq<string> {
    seq(|quotas|, i requires 0 <= i < |quotas| => quotas[i].name)
  }

  lemma SortedQuotas(quotas: seq<Quota>)
    requires Distinct(NamesOf(quotas))
    ensures var sorted := SortedByName(quotas);
      && (forall q :: q in sorted <==> q in quotas)
      && forall i, j | 0 <= i < j < |sorted| :: Less(sorted[i].name, sorted[j].name)
  {
    var key := (q: Quota) => q.name;
    var sorted := SortedByName(quotas);
    SortIsSortedPermutation(quotas, key);
    forall q ensures q in sorted <==> q in quotas {
      assert q in sorted <==> q in multiset(sorted);
      assert q in quotas <==> q in multiset(quotas);
    }
    assert Distinct(quotas) by {
      forall i, j | 0 <= i < j < |quotas| ensures quotas[i] != quotas[j] {
        assert NamesOf(quotas)[i] != NamesOf(quotas)[j];
      }
    }
    DistinctByCount(quotas);
    DistinctByCount(sorted);
    forall i, j | 0 <= i < j < |sorted| ensures Less(sorted[i].name, sorted[j].name) {
      assert !Less(key(sorted[j]), key(sorted[i]));
      NamesDiffer(quotas, sorted[i], sorted[j]);
      LessTotal(sorted[i].name, sorted[j].name);
    }
  }

  lemma NamesDiffer(quotas: seq<Quota>, p: Quota, q: Quota)
    requires Distinct(NamesOf(quotas)) && p in quotas && q in quotas && p != q
    ensures p.name != q.name
  {
    var i :| 0 <= i < |quotas| && quotas[i] == p;
    var j :| 0 <= j < |quotas| && quotas[j] == q;
    assert NamesOf(quotas)[i] == p.name && NamesOf(quotas)[j] == q.name;
  }

  lemma SameNames(a: seq<Quota>, b: seq<Quota>, n: string)
    requires (forall q | q in a :: q in b) && n in NamesOf(a)
    ensures n in NamesOf(b)
  {
    var i :| 0 <= i < |a| && NamesOf(a)[i] == n;
    assert a[i] in b;
    var j :| 0 <= j < |b| && b[j] == a[i];
    assert NamesOf(b)[j] == n;
  }

  /** The locks are taken in strictly increasing order of exactly the quotas' names. */
  lemma SortedNames(quotas: seq<Quota>)
    requires Distinct(NamesOf(quotas))
    ensures var names := NamesOf(SortedByName(quotas));
      && StrictlySorted(names) && Distinct(names)
      && forall n :: n in names <==> n in NamesOf(quotas)
  {
    var sorted := SortedByName(quotas);
    SortedQuotas(quotas);
    forall n ensures n in NamesOf(sorted) <==> n in NamesOf(quotas) {
      if n in NamesOf(sorted) { SameNames(sorted, quotas, n); }
      if n in NamesOf(quotas) { SameNames(quotas, sorted, n); }
    }
    forall i, j | 0 <= i < j < |sorted| ensures NamesOf(sorted)[i] != NamesOf(sorted)[j] {
      assert Less(sorted[i].name, sorted[j].name);
      LessIrreflexive(sorted[i].name);
    }
  }

  // ----- concurrent calls of GetLock -----

  // Missed: the shared-lock lookup found nothing; the exclusive lock is still to be taken.
  datatype Caller = NoCall | Asking(key: string) | Missed(key: string) | Returned(key: string, lock: nat)

  datatype FactoryState = FactoryState(locks: map<string, nat>, created: nat, callers: seq<Caller>)

  datatype FactoryStep = Call(i: nat, key: string) | LookUp(i: nat) | InsertOrFind(i: nat)

  predicate FactoryEnabled(s: FactoryState, step: FactoryStep) {
    match step
    case Call(i, _) => i < |s.callers| && (s.callers[i].NoCall? || s.callers[i].Returned?)
    case LookUp(i) => i < |s.callers| && s.callers[i].Asking?
    case InsertOrFind(i) => i < |s.callers| && s.callers[i].Missed?
  }

  function FactoryAfter(s: FactoryState, step: FactoryStep): FactoryState
    requires FactoryEnabled(s, step)
  {
    match step
    case Call(i, key) => s.(callers := s.callers[i := Asking(key)])
    case LookUp(i) =>
      var key := s.callers[i].key;
      s.(callers := s.callers[i := if key in s.locks then Returned(key, s.locks[key]) else Missed(key)])
    case InsertOrFind(i) =>
      var key := s.callers[i].key;
      if key in s.locks then s.(callers := s.callers[i := Returned(key, s.locks[key])])
      else FactoryState(s.locks[key := s.created], s.created + 1, s.callers[i := Returned(key, s.created)])
  }

  ghost predicate FactoryInv(s: FactoryState) {
    && (forall k | k in s.locks :: s.locks[k] < s.created)
    && (forall a, b | a in s.locks && b in s.locks && a != b :: s.locks[a] != s.locks[b])
    && (forall i | 0 <= i < |s.callers| && s.callers[i].Returned? ::
          s.callers[i].key in s.locks && s.locks[s.callers[i].key] == s.callers[i].lock)
  }

  ghost predicate IsFactoryRun(states: seq<FactoryState>, steps: seq<FactoryStep>) {
    && |states| == |steps| + 1
    && states[0].locks == map[] && (forall i | 0 <= i < |states[0].callers| :: states[0].callers[i].NoCall?)
    && forall n | 0 <= n < |steps| ::
      FactoryEnabled(states[n], steps[n]) && states[n + 1] == FactoryAfter(states[n], steps[n])
  }

  lemma {:induction false} FactoryRunKeepsInv(states: seq<FactoryState>, steps: seq<FactoryStep>, n: nat)
    requires IsFactoryRun(states, steps) && n < |states|
    ensures FactoryInv(states[n])
  {
    if n > 0 {
      FactoryRunKeepsInv(states, steps, n - 1);
    }
  }

  /** Also when callers race: two of them hold the same lock exactly when they asked for the same name. */
  lemma OneLockPerKey(states: seq<FactoryState>, steps: seq<FactoryStep>, n: nat, i: nat, j: nat)
    requires IsFactoryRun(states, steps) && n < |states|
    requires i < |states[n].callers| && j < |states[n].callers|
    requires states[n].callers[i].Returned? && states[n].callers[j].Returned?
    ensures states[n].callers[i].lock == states[n].callers[j].lock <==>
      states[n].callers[i].key == states[n].callers[j].key
  {
    FactoryRunKeepsInv(states, steps, n);
  }

  // ----- batches taking their locks in order -----

  // held counts the locks taken so far, always the first ones of names.
  datatype Worker =
    | Idle
    | Taking(names: seq<string>, held: nat)
    | Running(names: seq<string>)
    | Releasing(names: seq<string>, held: nat)

  type State = seq<Worker>

  datatype Step = Begin(w: nat, names: seq<string>) | Take(w: nat) | Run(w: nat) | Finish(w: nat) | Drop(w: nat)

  function HeldBy(a: Worker): seq<string> {
    match a
    case Idle => []
    case Taking(names, held) => if held <= |names| then names[..held] else names
    case Running(names) => names
    case Releasing(names, held) => if held <= |names| then names[..held] else names
  }

  predicate Free(s: State, name: string) {
    forall w | 0 <= w < |s| :: name !in HeldBy(s[w])
  }

  ghost predicate Enabled(s: State, step: Step) {
    && step.w < |s|
    && match step {
      case Begin(w, names) => s[w].Idle? && StrictlySorted(names)
      case Take(w) => s[w].Taking? && s[w].held < |s[w].names| && Free(s, s[w].names[s[w].held])
      case Run(w) => s[w].Taking? && s[w].held == |s[w].names|
      case Finish(w) => s[w].Running?
      case Drop(w) => s[w].Releasing?
    }
  }

  ghost function After(s: State, step: Step): State
    requires Enabled(s, step)
  {
    match step
    case Begin(w, names) => s[w := Taking(names, 0)]
    case Take(w) => s[w := Taking(s[w].names, s[w].held + 1)]
    case Run(w) => s[w := Running(s[w].names)]
    case Finish(w) => s[w := Releasing(s[w].names, |s[w].names|)]
    case Drop(w) => s[w := if s[w].held == 0 then Idle else Releasing(s[w].names, s[w].held - 1)]
  }

  ghost predicate WorkerOk(a: Worker) {
    && (!a.Idle? ==> StrictlySorted(a.names))
    && (a.Taking? || a.Releasing? ==> a.held <= |a.names|)
  }

  ghost predicate Exclusive(s: State) {
    forall i, j, name | 0 <= i < j < |s| && name in HeldBy(s[i]) :: name !in HeldBy(s[j])
  }

  ghost predicate Inv(s: State) {
    (forall a | a in s :: WorkerOk(a)) && Exclusive(s)
  }

  // What a step adds to the locks its worker holds.
  lemma HeldAfter(s: State, step: Step, name: string)
    requires Enabled(s, step) && WorkerOk(s[step.w])
    ensures WorkerOk(After(s, step)[step.w])
    ensures name in HeldBy(After(s, step)[step.w]) ==> name in HeldBy(s[step.w]) || (step.Take? && Free(s, name))
  {
    var a, b := s[step.w], After(s, step)[step.w];
    if step.Take? {
      assert a.names[..a.held + 1] == a.names[..a.held] + [a.names[a.held]];
    } else if step.Drop? && a.held > 0 {
      assert a.names[..a.held] == a.names[..a.held - 1] + [a.names[a.held - 1]];
    }
  }

  lemma StepKeepsInv(s: State, step: Step)
    requires Inv(s) && Enabled(s, step)
    ensures Inv(After(s, step))
  {
    var t := After(s, step);
    assert s[step.w] in s;
    forall i, j, name | 0 <= i < j < |t| && name in HeldBy(t[i]) ensures name !in HeldBy(t[j]) {
      HeldAfter(s, step, name);
    }
    forall a | a in t ensures WorkerOk(a) {
      HeldAfter(s, step, "");
      assert a in s || a == t[step.w];
    }
  }

  ghost predicate IsRun(states: seq<State>, steps: seq<Step>) {
    && |states| == |steps| + 1
    && (forall a | a in states[0] :: a == Idle)
    && forall n | 0 <= n < |steps| :: Enabled(states[n], steps[n]) && states[n + 1] == After(states[n], steps[n])
  }

  lemma {:induction false} RunKeepsInv(states: seq<State>, steps: seq<Step>, n: nat)
    requires IsRun(states, steps) && n < |states|
    ensures Inv(states[n])
  {
    if n == 0 {
      assert forall i | 0 <= i < |states[0]| :: states[0][i] in states[0];
    } else {
      RunKeepsInv(states, steps, n - 1);
      StepKeepsInv(states[n - 1], steps[n - 1]);
    }
  }

  /** Two batches that share a quota never check it at the same time. */
  lemma SharedQuotaExcludes(states: seq<State>, steps: seq<Step>, n: nat, i: nat, j: nat, name: string)
    requires IsRun(states, steps) && n < |states| && i < |states[n]| && j < |states[n]| && i != j
    requires states[n][i].Running? && name in states[n][i].names
    requires states[n][j].Running?
    ensures name !in states[n][j].names
  {
    RunKeepsInv(states, steps, n);
    assert name in HeldBy(states[n][i]);
    if i < j {
      assert name !in HeldBy(states[n][j]);
    } else {
      assert forall other | other in HeldBy(states[n][j]) :: other !in HeldBy(states[n][i]);
    }
  }

  // ----- deadlock freedom -----

  predicate Wanting(a: Worker) {
    a.Taking? && a.held < |a.names|
  }

  // The worker that wants the last name in the order, among the first n.
  lemma {:induction false} LastWanted(s: State, n: nat) returns (m: nat)
    requires n <= |s| && exists w :: 0 <= w < n && Wanting(s[w])
    ensures m < n && Wanting(s[m])
    ensures forall w | 0 <= w < n && Wanting(s[w]) :: !Less(s[m].names[s[m].held], s[w].names[s[w].held])
  {
    var last := n - 1;
    if exists w :: 0 <= w < last && Wanting(s[w]) {
      m := LastWanted(s, last);
      if Wanting(s[last]) && Less(s[m].names[s[m].held], s[last].names[s[last].held]) {
        forall w | 0 <= w < last && Wanting(s[w])
          ensures !Less(s[last].names[s[last].held], s[w].names[s[w].held])
        {
          if Less(s[last].names[s[last].held], s[w].names[s[w].held]) {
            LessTransitive(s[m].names[s[m].held], s[last].names[s[last].held], s[w].names[s[w].held]);
          }
        }
        LessIrreflexive(s[last].names[s[last].held]);
        m := last;
      }
    } else {
      m := last;
      LessIrreflexive(s[last].names[s[last].held]);
    }
  }

  // Whoever holds a lock and wants another one wants a later name.
  lemma WantsLater(a: Worker, name: string)
    requires WorkerOk(a) && Wanting(a) && name in HeldBy(a)
    ensures Less(name, a.names[a.held])
  {
    var i :| 0 <= i < a.held && a.names[i] == name;
  }

  /** As long as some batch is unfinished, some batch can take, use or give back a lock. */
  lemma NoDeadlock(states: seq<State>, steps: seq<Step>, n: nat, w: nat) returns (step: Step)
    requires IsRun(states, steps) && n < |states| && w < |states[n]| && !states[n][w].Idle?
    ensures Enabled(states[n], step) && !step.Begin?
  {
    var s := states[n];
    RunKeepsInv(states, steps, n);
    if Wanting(s[w]) {
      var m := LastWanted(s, |s|);
      var wanted := s[m].names[s[m].held];
      if Free(s, wanted) {
        return Take(m);
      }
      var u :| 0 <= u < |s| && wanted in HeldBy(s[u]);
      assert s[u] in s && WorkerOk(s[u]);
      if Wanting(s[u]) {
        WantsLater(s[u], wanted);
        assert false;
      } else {
        step := StepOf(s, u);
      }
    } else {
      assert s[w] in s;
      step := StepOf(s, w);
    }
  }

  lemma StepOf(s: State, w: nat) returns (step: Step)
    requires w < |s| && !s[w].Idle? && WorkerOk(s[w]) && !Wanting(s[w])
    ensures Enabled(s, step) && !step.Begin?
  {
    match s[w]
    case Taking(_, _) => step := Run(w);
    case Running(_) => step := Finish(w);
    case Releasing(_, _) => step := Drop(w);
  }

  // ----- every batch finishes -----

  // How many steps a batch still has to make: a lock taken, the check, and every lock given back.
  function StepsLeft(a: Worker): int {
    match a
    case Idle => 0
    case Taking(names, held) => (|names| - held) + |names| + 3
    case Running(names) => |names| + 2
    case Releasing(names, held) => held + 1
  }

  ghost function AllStepsLeft(s: State): int {
    Sum(s, StepsLeft)
  }

  // No step but the beginning of a batch.
  predicate NoneBegins(steps: seq<Step>) {
    forall step | step in steps :: !step.Begin?
  }

  lemma StepIsOneLess(s: State, step: Step)
    requires Inv(s) && Enabled(s, step) && !step.Begin?
    ensures AllStepsLeft(After(s, step)) == AllStepsLeft(s) - 1
  {
    SumReplace(s, step.w, After(s, step)[step.w], StepsLeft);
  }

  lemma StepsLeftSign(s: State)
    requires Inv(s)
    ensures AllStepsLeft(s) >= 0
    ensures AllStepsLeft(s) == 0 <==> forall a | a in s :: a == Idle
  {
    forall a | a in s ensures StepsLeft(a) >= 0 && (StepsLeft(a) == 0 <==> a == Idle) {
      assert WorkerOk(a);
    }
    SumAtMost(s, a => 0, StepsLeft);
    SumZero(s, a => 0);
    if forall a | a in s :: a == Idle {
      SumZero(s, StepsLeft);
    } else if AllStepsLeft(s) == 0 {
      SumTight(s, a => 0, StepsLeft);
    }
  }

  /**
   Whatever the order of their steps, the batches that have begun take exactly as many steps as are
   left to them: each takes all its locks, checks and gives every lock back, one step at a time.
   */
  lemma {:induction false} StepsAreCounted(states: seq<State>, steps: seq<Step>, n: nat, m: nat)
    requires IsRun(states, steps) && n <= m < |states| && NoneBegins(steps[n..m])
    ensures AllStepsLeft(states[m]) == AllStepsLeft(states[n]) - (m - n)
  {
    hide Inv;
    hide Enabled;
    hide After;
    if n < m {
      assert steps[m - 1] == steps[n..m][m - 1 - n];
      assert forall step | step in steps[n..m - 1] :: step in steps[n..m];
      StepsAreCounted(states, steps, n, m - 1);
      RunKeepsInv(states, steps, m - 1);
      StepIsOneLess(states[m - 1], steps[m - 1]);
    }
  }

  /**
   No batch waits forever: unless new ones begin, after that many steps everyone is done, and until
   then somebody can make one.
   */
  lemma EveryBatchFinishes(states: seq<State>, steps: seq<Step>, n: nat)
    requires IsRun(states, steps) && n < |states| && NoneBegins(steps[n..])
    ensures |steps| - n <= AllStepsLeft(states[n])
    ensures |steps| - n == AllStepsLeft(states[n]) <==> forall a | a in states[|steps|] :: a == Idle
    ensures |steps| - n < AllStepsLeft(states[n]) ==> exists step :: Enabled(states[|steps|], step) && !step.Begin?
  {
    assert steps[n..] == steps[n..|steps|];
    StepsAreCounted(states, steps, n, |steps|);
    RunKeepsInv(states, steps, |steps|);
    StepsLeftSign(states[|steps|]);
    if w :| 0 <= w < |states[|steps|]| && states[|steps|][w] != Idle {
      var step := NoDeadlock(states, steps, |steps|, w);
    } else {
      assert forall a | a in states[|steps|] :: a == Idle;
    }
  }
}
