/** Merging rules that differ only in their verbs, through a map that is listed in an arbitrary order. */
module PolicyCompact {
  import opened Objects
  import opened Rules

  datatype SimpleResource = SimpleResource(group: string, resource: string, resourceName: Option<string>)

  // A rule with one group, one resource, at most one name, and a nil URL list.
  function KeyOf(rule: PolicyRule): Option<SimpleResource> {
    if |rule.resourceNames| > 1 || rule.nonResourceURLs.Some? then None
    else if |rule.apiGroups| != 1 || |rule.resources| != 1 then None
    else Some(SimpleResource(rule.apiGroups[0], rule.resources[0],
                             if rule.resourceNames == [] then None else Some(rule.resourceNames[0])))
  }

  method IsSimpleResourceRule(rule: PolicyRule) returns (key: Option<SimpleResource>)
    ensures key == KeyOf(rule)
    ensures key.Some? <==>
      && |rule.apiGroups| == 1 && |rule.resources| == 1 && |rule.resourceNames| <= 1 && rule.nonResourceURLs == None
    ensures key.Some? ==>
      && rule.apiGroups == [key.value.group] && rule.resources == [key.value.resource]
      && rule.resourceNames == match key.value.resourceName case None => [] case Some(name) => [name]
  {
    if |rule.resourceNames| > 1 || |rule.Urls()| > 0 {
      return None;
    }
    if |rule.apiGroups| != 1 || |rule.resources| != 1 {
      return None;
    }
    var simple := PolicyRule(rule.verbs, rule.apiGroups, rule.resources, rule.resourceNames, None);
    if simple != rule {
      return None;
    }
    return Some(SimpleResource(rule.apiGroups[0], rule.resources[0],
                               if |rule.resourceNames| == 0 then None else Some(rule.resourceNames[0])));
  }

  // ----- what the accumulators mean -----

  ghost predicate WellKeyed(simple: map<SimpleResource, PolicyRule>) {
    forall key | key in simple :: KeyOf(simple[key]) == Some(key)
  }

  ghost predicate Together(compacted: seq<PolicyRule>, simple: map<SimpleResource, PolicyRule>, r: Request) {
    AnyAllows(compacted, r) || exists key :: key in simple && Allows(simple[key], r)
  }

  ghost predicate NoneSimple(rules: seq<PolicyRule>) {
    forall rule | rule in rules :: KeyOf(rule).None?
  }

  // Two rules with the same key allow the same things, verbs apart.
  lemma MergeVerbs(a: PolicyRule, b: PolicyRule, r: Request)
    requires KeyOf(a).Some? && KeyOf(a) == KeyOf(b)
    ensures KeyOf(a.(verbs := a.verbs + b.verbs)) == KeyOf(a)
    ensures Allows(a.(verbs := a.verbs + b.verbs), r) <==> Allows(a, r) || Allows(b, r)
  {
    assert a.apiGroups == b.apiGroups && a.resources == b.resources && a.resourceNames == b.resourceNames;
    assert a.(verbs := a.verbs + b.verbs).Urls() == [] && a.Urls() == [] && b.Urls() == [];
  }

  lemma AnyAllowsAppend(rules: seq<PolicyRule>, rule: PolicyRule, r: Request)
    ensures AnyAllows(rules + [rule], r) <==> AnyAllows(rules, r) || Allows(rule, r)
  {
    assert forall x :: x in rules + [rule] <==> x in rules || x == rule;
    if Allows(rule, r) {
      assert rule in rules + [rule];
    }
    if AnyAllows(rules, r) {
      var x :| x in rules && Allows(x, r);
      assert x in rules + [rule];
    }
  }

  datatype Sorted = Sorted(compacted: seq<PolicyRule>, simple: map<SimpleResource, PolicyRule>)

  // A simple rule joins the rule with its key, any other is listed as it is.
  function TakeIn(s: Sorted, rule: PolicyRule): Sorted {
    match KeyOf(rule)
    case None => s.(compacted := s.compacted + [rule])
    case Some(key) =>
      if key in s.simple then
        s.(simple := s.simple[key := s.simple[key].(verbs := s.simple[key].verbs + rule.verbs)])
      else
        s.(simple := s.simple[key := rule])
  }

  lemma TakeInMeans(s: Sorted, rule: PolicyRule, r: Request)
    requires WellKeyed(s.simple)
    ensures Together(TakeIn(s, rule).compacted, TakeIn(s, rule).simple, r)
       <==> Together(s.compacted, s.simple, r) || Allows(rule, r)
  {
    AnyAllowsAppend(s.compacted, rule, r);
    if KeyOf(rule).Some? {
      var key, simple' := KeyOf(rule).value, TakeIn(s, rule).simple;
      assert key in simple' && forall k | k in s.simple && k != key :: simple'[k] == s.simple[k];
      if key in s.simple {
        MergeVerbs(s.simple[key], rule, r);
      }
      if k :| k in s.simple && Allows(s.simple[k], r) { assert k in simple' && Allows(simple'[k], r); }
      if Allows(rule, r) { assert Allows(simple'[key], r); }
    }
  }

  lemma TakeInKeepsKeys(s: Sorted, rule: PolicyRule)
    requires WellKeyed(s.simple) && NoneSimple(s.compacted)
    ensures WellKeyed(TakeIn(s, rule).simple) && NoneSimple(TakeIn(s, rule).compacted)
    ensures |TakeIn(s, rule).compacted| + |TakeIn(s, rule).simple| <= |s.compacted| + |s.simple| + 1
  {
  }

  ghost predicate UniqueKeys(rules: seq<PolicyRule>) {
    forall i, j | 0 <= i < j < |rules| && KeyOf(rules[i]).Some? :: KeyOf(rules[i]) != KeyOf(rules[j])
  }

  method AddRule(s: Sorted, rule: PolicyRule) returns (s': Sorted)
    ensures s' == TakeIn(s, rule)
  {
    var key := IsSimpleResourceRule(rule);
    if key.Some? {
      if key.value in s.simple {
        var existing := s.simple[key.value];
        return s.(simple := s.simple[key.value := existing.(verbs := existing.verbs + rule.verbs)]);
      }
      return s.(simple := s.simple[key.value := rule]);
    }
    return s.(compacted := s.compacted + [rule]);
  }

  // The loop over the rules.
  method Accumulate(rules: seq<PolicyRule>) returns (s: Sorted)
    ensures WellKeyed(s.simple) && NoneSimple(s.compacted)
    ensures forall r :: Together(s.compacted, s.simple, r) <==> AnyAllows(rules, r)
    ensures |s.compacted| + |s.simple| <= |rules|
  {
    s := Sorted([], map[]);
    for i := 0 to |rules|
      invariant WellKeyed(s.simple) && NoneSimple(s.compacted)
      invariant forall r :: Together(s.compacted, s.simple, r) <==> AnyAllows(rules[..i], r)
      invariant |s.compacted| + |s.simple| <= i
    {
      ghost var before := s;
      assert rules[..i + 1] == rules[..i] + [rules[i]];
      TakeInKeepsKeys(before, rules[i]);
      s := AddRule(s, rules[i]);
      forall r ensures Together(s.compacted, s.simple, r) <==> AnyAllows(rules[..i + 1], r) {
        AnyAllowsAppend(rules[..i], rules[i], r);
        TakeInMeans(before, rules[i], r);
      }
    }
    assert rules[..|rules|] == rules;
  }

  /**
   The compacted list allows exactly what the rules allowed, is no longer than they were, and has
   at most one simple rule for each group, resource and name.
   */
  method CompactRules(rules: seq<PolicyRule>) returns (result: seq<PolicyRule>)
    ensures forall r :: AnyAllows(result, r) <==> AnyAllows(rules, r)
    ensures |result| <= |rules|
    ensures forall i, j | 0 <= i < j < |result| ::
      var a, b := result[i], result[j];
      && |a.apiGroups| == 1 && |a.resources| == 1 && |a.resourceNames| <= 1 && a.nonResourceURLs == None
      && b.nonResourceURLs == None
      ==> !(b.apiGroups == a.apiGroups && b.resources == a.resources && b.resourceNames == a.resourceNames)
  {
    var s := Accumulate(rules);
    var simple := s.simple;
    result := s.compacted;
    var keys := simple.Keys;
    assert Rest(simple, keys) == simple;
    while keys != {}
      invariant keys <= simple.Keys
      invariant |result| + |keys| == |s.compacted| + |simple|
      invariant forall r :: Together(result, Rest(simple, keys), r) <==> AnyAllows(rules, r)
      invariant UniqueKeys(result)
      invariant forall i | 0 <= i < |result| && KeyOf(result[i]).Some? :: KeyOf(result[i]).value !in keys
      decreases keys
    {
      var key :| key in keys;
      forall r
        ensures Together(result + [simple[key]], Rest(simple, keys - {key}), r) <==>
          Together(result, Rest(simple, keys), r)
      {
        MoveOver(result, simple, keys, key, r);
      }
      result := result + [simple[key]];
      keys := keys - {key};
    }
    assert Rest(simple, {}) == map[];
    forall i, j | 0 <= i < j < |result| ensures KeyOf(result[i]) != KeyOf(result[j]) || KeyOf(result[i]).None? {}
  }

  ghost function Rest(simple: map<SimpleResource, PolicyRule>, keys: set<SimpleResource>)
    : map<SimpleResource, PolicyRule>
  {
    map key | key in simple && key in keys :: simple[key]
  }

  lemma MoveOver(result: seq<PolicyRule>, simple: map<SimpleResource, PolicyRule>, keys: set<SimpleResource>,
                 key: SimpleResource, r: Request)
    requires key in keys && key in simple
    ensures Together(result + [simple[key]], Rest(simple, keys - {key}), r) <==> Together(result, Rest(simple, keys), r)
  {
    var more, less := Rest(simple, keys), Rest(simple, keys - {key});
    AnyAllowsAppend(result, simple[key], r);
    if k :| k in more && Allows(more[k], r) {
      assert k == key || (k in less && Allows(less[k], r));
    }
    if k :| k in less && Allows(less[k], r) {
      assert k in more && Allows(more[k], r);
    }
    if Allows(simple[key], r) {
      assert key in more && Allows(more[key], r);
    }
  }
}
