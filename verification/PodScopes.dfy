/** When the recount of pods reads a quota's scopes as admission does, and when it does not. */
module PodScopes {
  import opened Sums
  import opened ResourceLists
  import opened Objects
  import opened Evaluators
  import opened Pods
  import opened PodUsage
  import opened CoreEvaluators
  import opened Admission
  import opened Ledger

  predicate Parses(s: Selector, validValue: string -> bool) {
    s.scopeName == PriorityClass ==>
      && (forall v | v in s.values :: validValue(v))
      && (match s.operator
          case In => s.values != []
          case NotIn => s.values != []
          case Exists => s.values == []
          case DoesNotExist => s.values == []
          case NoOperator => false)
  }

  lemma ScopeParses(s: Selector, pod: Pod, validValue: string -> bool)
    ensures PodMatchesScope(s, pod, validValue).Some? <==> Parses(s, validValue)
  {
  }

  lemma {:induction false} SameChecksSameMatch(e: Evaluator, a: seq<Selector>, b: seq<Selector>, o: Object)
    requires |a| == |b| && forall i | 0 <= i < |a| :: e.scopeMatches(a[i], o) == e.scopeMatches(b[i], o)
    ensures AllMatch(e, a, o) == AllMatch(e, b, o)
  {
    if a != [] {
      SameChecksSameMatch(e, a[1..], b[1..], o);
    }
  }

  /**
   For pods the recount agrees with admission exactly when the quota's plain scopes do not name
   the priority class, whose test needs the operator that only admission supplies, and its
   selectors parse.
   */
  lemma PodReadableExactly(now: int, qualified: Qualified, validValue: string -> bool, q: Quota, pod: Pod)
    ensures Readable(PodEvaluator(now, qualified, validValue), q, PodObject(pod))
       <==> PriorityClass !in q.scopes && forall s | s in q.selectors :: Parses(s, validValue)
  {
    var e, o := PodEvaluator(now, qualified, validValue), PodObject(pod);
    var recount, admission := RecountChecks(q.scopes, q.selectors), AdmissionChecks(q);
    forall s { ScopeParses(s, pod, validValue); }
    assert forall i | 0 <= i < |recount| :: e.scopeMatches(recount[i], o).Some? <==> Parses(recount[i], validValue);
    if PriorityClass in q.scopes {
      var i :| 0 <= i < |q.scopes| && q.scopes[i] == PriorityClass;
      assert recount[i] == Selector(PriorityClass, NoOperator, []);
      assert e.scopeMatches(recount[i], o).None?;
    } else if s :| s in q.selectors && !Parses(s, validValue) {
      var i :| 0 <= i < |q.selectors| && q.selectors[i] == s;
      assert recount[|q.scopes| + i] == s;
      assert e.scopeMatches(recount[|q.scopes| + i], o).None?;
    } else {
      forall i | 0 <= i < |recount| ensures e.scopeMatches(recount[i], o) == e.scopeMatches(admission[i], o) {
        if i < |q.scopes| {
          assert q.scopes[i] in q.scopes;
          assert recount[i] == Selector(q.scopes[i], NoOperator, []);
          assert admission[i] == Selector(q.scopes[i], Exists, []);
        }
      }
      forall i | 0 <= i < |recount| ensures Parses(recount[i], validValue) {
        if i < |q.scopes| {
          assert q.scopes[i] in q.scopes;
        } else {
          assert recount[i] == q.selectors[i - |q.scopes|];
        }
      }
      SameChecksSameMatch(e, recount, admission, o);
    }
  }

  // A check that does not parse ends the recount before the first pod, without an error.
  lemma UnparsedRecount(now: int, qualified: Qualified, validValue: string -> bool, checks: seq<Selector>,
                        pods: seq<Object>)
    requires forall o | o in pods :: o.PodObject?
    requires exists s :: s in checks && !Parses(s, validValue)
    ensures Recount(PodEvaluator(now, qualified, validValue), checks, pods) == Some(map[])
    ensures forall o | o in pods :: AllMatch(PodEvaluator(now, qualified, validValue), checks, o) == None
  {
    var s :| s in checks && !Parses(s, validValue);
    var i :| 0 <= i < |checks| && checks[i] == s;
    forall o | o in pods ensures PodEvaluator(now, qualified, validValue).scopeMatches(checks[i], o).None? {
      ScopeParses(s, o.pod, validValue);
    }
    if pods != [] {
      assert pods[0] in pods;
    }
  }

  /** With the plain priority class among its scopes, a quota's recount of any pods is empty, and no error. */
  lemma PriorityClassForgotten(now: int, qualified: Qualified, validValue: string -> bool, q: Quota, pods: seq<Object>)
    requires PriorityClass in q.scopes && forall o | o in pods :: o.PodObject?
    ensures Recount(PodEvaluator(now, qualified, validValue), RecountChecks(q.scopes, q.selectors), pods) == Some(map[])
  {
    var i :| 0 <= i < |q.scopes| && q.scopes[i] == PriorityClass;
    var checks := RecountChecks(q.scopes, q.selectors);
    assert checks[i] == Selector(PriorityClass, NoOperator, []);
    assert checks[i] in checks && !Parses(checks[i], validValue);
    UnparsedRecount(now, qualified, validValue, checks, pods);
  }

  // Admission holds the quota responsible for this object.
  predicate InScope(e: Evaluator, q: Quota, o: Object) {
    AllMatch(e, AdmissionChecks(q), o) == Some(true)
  }

  /**
   Which pods a quota is held against, scope by scope and selector by selector.
   */
  lemma QuotaSelectsPods(now: int, qualified: Qualified, validValue: string -> bool, q: Quota, pod: Pod)
    ensures InScope(PodEvaluator(now, qualified, validValue), q, PodObject(pod)) <==>
      && (Terminating in q.scopes ==> pod.activeDeadlineSeconds.Some? && pod.activeDeadlineSeconds.value >= 0)
      && (NotTerminating in q.scopes ==> pod.activeDeadlineSeconds.None? || pod.activeDeadlineSeconds.value < 0)
      && (BestEffort in q.scopes ==> QosBySums(pod.containers + pod.initContainers) == BestEffortQos)
      && (NotBestEffort in q.scopes ==> QosBySums(pod.containers + pod.initContainers) != BestEffortQos)
      && (PriorityClass in q.scopes ==> pod.priorityClassName != "")
      && (forall scope | scope in q.scopes :: !scope.OtherScope?)
      && (forall s | s in q.selectors :: PodMatchesScope(s, pod, validValue) == Some(true))
  {
    hide InScope;
    hide PodMatchesScope;
    ScopeByScope(now, qualified, validValue, q, pod);
    forall scope | scope in q.scopes
      ensures PodMatchesScope(Selector(scope, Exists, []), pod, validValue) == Some(true) <==>
        && (scope == Terminating ==> pod.activeDeadlineSeconds.Some? && pod.activeDeadlineSeconds.value >= 0)
        && (scope == NotTerminating ==> pod.activeDeadlineSeconds.None? || pod.activeDeadlineSeconds.value < 0)
        && (scope == BestEffort ==> QosBySums(pod.containers + pod.initContainers) == BestEffortQos)
        && (scope == NotBestEffort ==> QosBySums(pod.containers + pod.initContainers) != BestEffortQos)
        && (scope == PriorityClass ==> pod.priorityClassName != "")
        && !scope.OtherScope?
    {
      ScopeSelects(Selector(scope, Exists, []), pod, validValue);
      if scope == PriorityClass {
        PriorityClassSelects(Selector(scope, Exists, []), pod, validValue);
      }
    }
  }

  /** Without a scope error a quota is skipped exactly when the pod is out of scope or it limits nothing of pods. */
  lemma PodSkippedExactly(now: int, qualified: Qualified, validValue: string -> bool, q: Quota, pod: Pod)
    ensures var e := PodEvaluator(now, qualified, validValue);
      Screen(e, q, PodObject(pod)) == Skipped <==>
        && AllMatch(e, AdmissionChecks(q), PodObject(pod)).Some?
        && (InScope(e, q, PodObject(pod)) ==> forall k | k in q.hard :: !PodAccepts(k))
  {
    var e := PodEvaluator(now, qualified, validValue);
    hide AllMatch;
    forall k ensures e.Accepts(k) <==> PodAccepts(k) {
      assert Keep([k], PodAccepts) == if PodAccepts(k) then [k] else [];
    }
    assert forall k :: k in Restricted(e, q) <==> k in q.hard && PodAccepts(k);
  }

  lemma ScopeByScope(now: int, qualified: Qualified, validValue: string -> bool, q: Quota, pod: Pod)
    ensures InScope(PodEvaluator(now, qualified, validValue), q, PodObject(pod)) <==>
      && (forall scope | scope in q.scopes ::
        PodMatchesScope(Selector(scope, Exists, []), pod, validValue) == Some(true))
      && (forall s | s in q.selectors :: PodMatchesScope(s, pod, validValue) == Some(true))
  {
    var e, checks := PodEvaluator(now, qualified, validValue), AdmissionChecks(q);
    hide PodMatchesScope;
    assert forall s :: e.scopeMatches(s, PodObject(pod)) == PodMatchesScope(s, pod, validValue);
    assert forall i | 0 <= i < |q.scopes| :: checks[i] == Selector(q.scopes[i], Exists, []);
    assert forall i | 0 <= i < |q.selectors| :: checks[|q.scopes| + i] == q.selectors[i];
    assert forall i | |q.scopes| <= i < |checks| :: checks[i] == q.selectors[i - |q.scopes|];
  }

  // What admission charges for all of them.
  ghost function ChargesFor(e: Evaluator, q: Quota, items: seq<Object>, k: ResourceName): int {
    Sum(items, o => Contribution(e, AdmissionChecks(q), o, k))
  }

  ghost predicate RecountAgrees(e: Evaluator, q: Quota, items: seq<Object>) {
    var recount := Recount(e, RecountChecks(q.scopes, q.selectors), items);
    recount.Some? && forall k :: Amount(recount.value, k) == ChargesFor(e, q, items, k)
  }

  lemma AgreesOutOfScope(e: Evaluator, q: Quota, items: seq<Object>)
    requires Recount(e, RecountChecks(q.scopes, q.selectors), items) == Some(map[])
    requires forall o | o in items :: !InScope(e, q, o)
    ensures RecountAgrees(e, q, items)
  {
    forall k ensures ChargesFor(e, q, items, k) == 0 {
      SumZero(items, o => Contribution(e, AdmissionChecks(q), o, k));
    }
  }

  // One charged object is enough for an empty recount to be wrong.
  lemma DisagreesInScope(e: Evaluator, q: Quota, items: seq<Object>, i: nat, k: ResourceName)
    requires Recount(e, RecountChecks(q.scopes, q.selectors), items) == Some(map[])
    requires forall o | o in items :: Contribution(e, AdmissionChecks(q), o, k) >= 0
    requires i < |items| && Contribution(e, AdmissionChecks(q), items[i], k) > 0
    ensures !RecountAgrees(e, q, items)
  {
    var rest := items[..i] + items[i + 1..];
    SumRemove(items, i, o => Contribution(e, AdmissionChecks(q), o, k));
    assert forall o | o in rest :: o in items;
    SumZero(rest, o => 0);
    SumAtMost(rest, o => 0, o => Contribution(e, AdmissionChecks(q), o, k));
    assert ChargesFor(e, q, items, k) > 0;
  }

  lemma AgreesWhenReadable(e: Evaluator, q: Quota, items: seq<Object>)
    requires e.Valid() && forall o | o in items :: Readable(e, q, o) && e.usage(o).Some?
    ensures RecountAgrees(e, q, items)
  {
    var checks := RecountChecks(q.scopes, q.selectors);
    RecountIsSum(e, checks, items, "");
    forall k ensures Amount(Recount(e, checks, items).value, k) == ChargesFor(e, q, items, k) {
      RecountIsSum(e, checks, items, k);
      SumEqual(items, o => Contribution(e, checks, o, k), o => Contribution(e, AdmissionChecks(q), o, k));
    }
  }

  /**
   The recount of a list of pods is what admission charges for them, for every resource, exactly
   when the priority class is not a plain scope of the quota or none of the pods is in its scope.
   */
  lemma PodRecountAgreesExactly(now: int, qualified: Qualified, validValue: string -> bool, q: Quota, pods: seq<Object>)
    requires forall o | o in pods :: o.PodObject?
    ensures RecountAgrees(PodEvaluator(now, qualified, validValue), q, pods) <==>
      PriorityClass !in q.scopes || forall o | o in pods :: !InScope(PodEvaluator(now, qualified, validValue), q, o)
  {
    hide Recount;
    var e := PodEvaluator(now, qualified, validValue);
    if PriorityClass in q.scopes {
      PriorityClassForgotten(now, qualified, validValue, q, pods);
      forall o | o in pods { OnePodCounts(o.pod, now, qualified); }
      if i :| 0 <= i < |pods| && InScope(e, q, pods[i]) {
        DisagreesInScope(e, q, pods, i, POD_COUNT);
      } else {
        AgreesOutOfScope(e, q, pods);
      }
    } else if s :| s in q.selectors && !Parses(s, validValue) {
      assert s in RecountChecks(q.scopes, q.selectors) && s in AdmissionChecks(q);
      UnparsedRecount(now, qualified, validValue, RecountChecks(q.scopes, q.selectors), pods);
      UnparsedRecount(now, qualified, validValue, AdmissionChecks(q), pods);
      AgreesOutOfScope(e, q, pods);
    } else {
      PodValid(now, qualified, validValue);
      forall o | o in pods ensures Readable(e, q, o) {
        PodReadableExactly(now, qualified, validValue, q, o.pod);
      }
      AgreesWhenReadable(e, q, pods);
    }
  }

  lemma OnePodCounts(pod: Pod, now: int, qualified: Qualified)
    ensures Amount(PodUsage.UsageOf(pod, now, qualified), POD_COUNT) == 1
  {
    var requests, limits := Effective(pod, Requests), Effective(pod, Limits);
    CountIsNotCompute(requests, limits, qualified);
    ComputeUsageLookup(requests, limits, POD_COUNT, qualified);
  }
}
