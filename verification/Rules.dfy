/** Policy rules and the requests they allow. */
module Rules {
  import opened Names
  import opened Objects

  // A nil URL list and an empty one mean the same but are told apart by compaction.
  datatype PolicyRule = PolicyRule(
    verbs: seq<string>,
    apiGroups: seq<string>,
    resources: seq<string>,
    resourceNames: seq<string>,
    nonResourceURLs: Option<seq<string>>)
  {
    function Urls(): seq<string> {
      match nonResourceURLs case None => [] case Some(urls) => urls
    }
  }

  datatype Request =
    | ResourceRequest(verb: string, apiGroup: string, resource: string, subresource: string, name: string)
    | UrlRequest(verb: string, path: string)

  // ----- strings -----

  predicate HasPrefix(s: string, prefix: string) {
    prefix <= s
  }

  // Every trailing star goes.
  function TrimStars(s: string): (r: string)
    ensures r <= s
    ensures r != [] ==> r[|r| - 1] != '*'
    ensures forall i | |r| <= i < |s| :: s[i] == '*'
  {
    if s != [] && s[|s| - 1] == '*' then TrimStars(s[..|s| - 1]) else s
  }

  // ----- what a rule allows -----

  predicate Lists(names: seq<string>, name: string) {
    "*" in names || name in names
  }

  function Combined(resource: string, subresource: string): string {
    if subresource == "" then resource else resource + "/" + subresource
  }

  predicate ResourceAllowed(pattern: string, combined: string, subresource: string) {
    pattern == "*" || pattern == combined || (subresource != "" && pattern == "*/" + subresource)
  }

  predicate AnyResourceAllowed(patterns: seq<string>, combined: string, subresource: string) {
    exists p | p in patterns :: ResourceAllowed(p, combined, subresource)
  }

  predicate NameAllowed(names: seq<string>, name: string) {
    names == [] || name in names
  }

  predicate UrlAllowed(pattern: string, url: string) {
    pattern == "*" || pattern == url || (HasSuffix(pattern, "*") && HasPrefix(url, TrimStars(pattern)))
  }

  predicate AnyUrlAllowed(patterns: seq<string>, url: string) {
    exists p | p in patterns :: UrlAllowed(p, url)
  }

  predicate Allows(rule: PolicyRule, r: Request) {
    match r
    case ResourceRequest(verb, apiGroup, resource, subresource, name) =>
      && Lists(rule.verbs, verb)
      && Lists(rule.apiGroups, apiGroup)
      && AnyResourceAllowed(rule.resources, Combined(resource, subresource), subresource)
      && NameAllowed(rule.resourceNames, name)
    case UrlRequest(verb, path) =>
      Lists(rule.verbs, verb) && AnyUrlAllowed(rule.Urls(), path)
  }

  predicate AnyAllows(rules: seq<PolicyRule>, r: Request) {
    exists rule | rule in rules :: Allows(rule, r)
  }

  // ----- the scans -----

  // VerbMatches and APIGroupMatches.
  method ListMatches(names: seq<string>, requested: string) returns (matches: bool)
    ensures matches <==> Lists(names, requested)
  {
    for i := 0 to |names|
      invariant "*" !in names[..i] && requested !in names[..i]
    {
      if names[i] == "*" || names[i] == requested {
        return true;
      }
    }
    assert names[..|names|] == names;
    return false;
  }

  lemma WildcardSubresource(pattern: string, subresource: string)
    ensures |pattern| == |subresource| + 2 && HasPrefix(pattern, "*/") && HasSuffix(pattern, subresource)
       <==> pattern == "*/" + subresource
  {
    var whole := "*/" + subresource;
    assert whole[..2] == "*/" && whole[2..] == subresource;
    if |pattern| == |subresource| + 2 && HasPrefix(pattern, "*/") && HasSuffix(pattern, subresource) {
      assert pattern == pattern[..2] + pattern[2..];
    }
  }

  // The wildcard subresource is recognized by length, prefix and suffix.
  method ResourceMatches(patterns: seq<string>, combined: string, subresource: string) returns (matches: bool)
    ensures matches <==> AnyResourceAllowed(patterns, combined, subresource)
  {
    for i := 0 to |patterns|
      invariant forall j | 0 <= j < i :: !ResourceAllowed(patterns[j], combined, subresource)
    {
      var pattern := patterns[i];
      if pattern == "*" || pattern == combined {
        assert ResourceAllowed(pattern, combined, subresource);
        return true;
      }
      if |subresource| == 0 {
        continue;
      }
      WildcardSubresource(pattern, subresource);
      if |pattern| == |subresource| + 2 && HasPrefix(pattern, "*/") && HasSuffix(pattern, subresource) {
        assert ResourceAllowed(pattern, combined, subresource);
        return true;
      }
    }
    return false;
  }

  method ResourceNameMatches(names: seq<string>, requested: string) returns (matches: bool)
    ensures matches <==> NameAllowed(names, requested)
  {
    if |names| == 0 {
      return true;
    }
    for i := 0 to |names|
      invariant requested !in names[..i]
    {
      if names[i] == requested {
        return true;
      }
    }
    assert names[..|names|] == names;
    return false;
  }

  method NonResourceURLMatches(patterns: seq<string>, requested: string) returns (matches: bool)
    ensures matches <==> AnyUrlAllowed(patterns, requested)
  {
    for i := 0 to |patterns|
      invariant forall j | 0 <= j < i :: !UrlAllowed(patterns[j], requested)
    {
      var pattern := patterns[i];
      var prefixed := HasSuffix(pattern, "*") && HasPrefix(requested, TrimStars(pattern));
      if pattern == "*" || pattern == requested || prefixed {
        assert UrlAllowed(pattern, requested);
        return true;
      }
    }
    return false;
  }

  method RuleAllows(r: Request, rule: PolicyRule) returns (allowed: bool)
    ensures allowed <==> Allows(rule, r)
  {
    var verb := ListMatches(rule.verbs, r.verb);
    match r {
      case ResourceRequest(_, apiGroup, resource, subresource, name) =>
        var combined := resource;
        if |subresource| > 0 {
          combined := resource + "/" + subresource;
        }
        var group := ListMatches(rule.apiGroups, apiGroup);
        var res := ResourceMatches(rule.resources, combined, subresource);
        var nam := ResourceNameMatches(rule.resourceNames, name);
        return verb && group && res && nam;
      case UrlRequest(_, path) =>
        var url := NonResourceURLMatches(rule.Urls(), path);
        return verb && url;
    }
  }
}
