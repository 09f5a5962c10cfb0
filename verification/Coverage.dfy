/** What a coverage verdict says about requests: always sound, and exact up to two quirks. */
module Coverage {
  import opened Objects
  import opened Rules
  import opened PolicyComparator

  // The resource part of a request path holds no slash; what follows one is the subresource.
  predicate Proper(r: Request) {
    r.ResourceRequest? ==> '/' !in r.resource
  }

  function BeforeSlash(path: string): string
    requires '/' in path
  {
    if path[0] == '/' then "" else [path[0]] + BeforeSlash(path[1..])
  }

  lemma {:induction false} SplitAtSlash(path: string)
    requires '/' in path
    ensures path == BeforeSlash(path) + "/" + AfterSlash(path)
    ensures '/' !in BeforeSlash(path)
  {
    if path[0] != '/' {
      SplitAtSlash(path[1..]);
      assert path == [path[0]] + path[1..];
    }
  }

  lemma {:induction false} AfterFirstSlash(before: string, after: string)
    requires '/' !in before
    ensures '/' in before + "/" + after && AfterSlash(before + "/" + after) == after
  {
    var path := before + "/" + after;
    if before != [] {
      AfterFirstSlash(before[1..], after);
      assert path[1..] == before[1..] + "/" + after;
      assert path[0] == before[0] && path[0] in before;
    } else {
      assert path == "/" + after;
    }
  }

  // ----- soundness -----

  lemma ResourceCoverSound(owning: seq<string>, pattern: string, resource: string, subresource: string)
    requires '/' !in resource
    requires "*" in owning || ResourceCovered(owning, pattern)
    requires ResourceAllowed(pattern, Combined(resource, subresource), subresource)
    ensures AnyResourceAllowed(owning, Combined(resource, subresource), subresource)
  {
    var combined, starred := Combined(resource, subresource), "*/" + subresource;
    AfterFirstSlash("*", subresource);
    assert "*" + "/" + subresource == starred;
    if "*" in owning {
      assert ResourceAllowed("*", combined, subresource);
    } else if pattern !in owning {
      var wildcard := "*/" + AfterSlash(pattern);
      if pattern == combined {
        assert '/' in combined && subresource != "";
        AfterFirstSlash(resource, subresource);
      }
      assert wildcard in owning && ResourceAllowed(wildcard, combined, subresource);
    }
  }

  // A prefix that does not end in a star lies before any tail of stars.
  lemma BeforeTheStars(o: string, s: string, n: nat)
    requires o <= s && (o != [] ==> o[|o| - 1] != '*')
    requires n <= |s| && forall i | n <= i < |s| :: s[i] == '*'
    ensures |o| <= n && o <= s[..n]
  {
    if o != [] {
      assert o[|o| - 1] == s[|o| - 1];
    }
    assert o == s[..|o|];
  }

  lemma UrlCoverSound(owner: string, pattern: string, url: string)
    requires UrlCovers(owner, pattern) && UrlAllowed(pattern, url)
    ensures UrlAllowed(owner, url)
  {
    if owner != pattern {
      var o := TrimStars(owner);
      if pattern == "*" {
        BeforeTheStars(o, pattern, 0);
      } else if pattern != url {
        var p := TrimStars(pattern);
        BeforeTheStars(o, pattern, |p|);
        assert p == pattern[..|p|];
      }
    }
  }

  lemma RuleCoverSound(owner: PolicyRule, atom: PolicyRule, r: Request)
    requires RuleCovers(owner, atom) && Allows(atom, r) && Proper(r)
    ensures Allows(owner, r)
  {
    match r
    case ResourceRequest(verb, apiGroup, resource, subresource, name) =>
      var p :| p in atom.resources && ResourceAllowed(p, Combined(resource, subresource), subresource);
      ResourceCoverSound(owner.resources, p, resource, subresource);
    case UrlRequest(verb, path) =>
      var p :| p in atom.Urls() && UrlAllowed(p, path);
      var o :| o in owner.Urls() && UrlCovers(o, p);
      UrlCoverSound(o, p, path);
  }

  // A rule that counts for the comparison: one with resource names never counts for a URL.
  predicate Counts(owner: PolicyRule, r: Request) {
    Allows(owner, r) && (r.UrlRequest? ==> owner.resourceNames == [])
  }

  ghost predicate AnyCounts(owners: seq<PolicyRule>, r: Request) {
    exists o | o in owners :: Counts(o, r)
  }

  /** If the owner rules cover the servant rules, they allow everything the servant rules allow. */
  lemma CoversSound(owners: seq<PolicyRule>, servants: seq<PolicyRule>, r: Request)
    requires CoversAll(owners, servants) && Proper(r) && AnyAllows(servants, r)
    ensures AnyCounts(owners, r) && AnyAllows(owners, r)
  {
    var s :| s in servants && Allows(s, r);
    BreakdownMeans(s, r);
    var atom :| atom in Breakdown(s) && Allows(atom, r);
    CoversAllMeans(owners, servants);
    assert Covered(owners, atom);
    var o :| o in owners && RuleCovers(o, atom);
    RuleCoverSound(o, atom, r);
    AtomsAre(s, atom);
    assert Counts(o, r);
  }

  // ----- exactness -----

  function Longest(names: seq<string>): (n: nat)
    ensures forall name | name in names :: |name| <= n
  {
    if names == [] then 0
    else if |names[0]| > Longest(names[1..]) then |names[0]| else Longest(names[1..])
  }

  function LongestIn(rules: seq<PolicyRule>): (n: nat)
    ensures forall rule, name ::
      rule in rules && name in rule.verbs + rule.apiGroups + rule.resources + rule.resourceNames ==> |name| <= n
  {
    if rules == [] then 0
    else
      var first := Longest(rules[0].verbs + rules[0].apiGroups + rules[0].resources + rules[0].resourceNames);
      if first > LongestIn(rules[1..]) then first else LongestIn(rules[1..])
  }

  // A name no rule mentions.
  function Unmentioned(rules: seq<PolicyRule>): (name: string)
    ensures |name| > LongestIn(rules) && |name| > 1 && '/' !in name
  {
    seq(LongestIn(rules) + 2, i => 'x')
  }

  function Other(pattern: string, name: string): string {
    if pattern == "*" then name else pattern
  }

  // A request for what one atom allows, chosen so that only rules covering the atom allow it.
  function AskFor(owners: seq<PolicyRule>, group: string, resource: string, verb: string, names: seq<string>): Request {
    var x := Unmentioned(owners);
    ResourceRequest(
      Other(verb, x), Other(group, x),
      Other(if '/' in resource then BeforeSlash(resource) else resource, x),
      if '/' in resource then AfterSlash(resource) else "",
      if names == [] then x else names[0])
  }

  // Some request asks for it: a slash is followed by a subresource.
  predicate Askable(resource: string) {
    '/' in resource ==> AfterSlash(resource) != ""
  }

  lemma AskForProper(owners: seq<PolicyRule>, g: string, r: string, v: string, names: seq<string>)
    requires Askable(r) && |names| <= 1
    ensures Proper(AskFor(owners, g, r, v, names))
    ensures Allows(ResourceAtom(g, r, v, names), AskFor(owners, g, r, v, names))
  {
    var req, atom := AskFor(owners, g, r, v, names), ResourceAtom(g, r, v, names);
    if '/' in r {
      SplitAtSlash(r);
      assert BeforeSlash(r) == "*" ==> r == "*/" + AfterSlash(r) by { assert "*" + "/" == "*/"; }
    }
    assert ResourceAllowed(r, Combined(req.resource, req.subresource), req.subresource);
    assert r in atom.resources;
  }

  // A pattern of an owner that allows the request covers the atom's resource.
  lemma AskedResource(owners: seq<PolicyRule>, o: PolicyRule, g: string, r: string, v: string, names: seq<string>)
    requires o in owners && Askable(r)
    requires var req := AskFor(owners, g, r, v, names);
      AnyResourceAllowed(o.resources, Combined(req.resource, req.subresource), req.subresource)
    ensures ResourcesCovered(o.resources, [r])
  {
    var req, x := AskFor(owners, g, r, v, names), Unmentioned(owners);
    var combined := Combined(req.resource, req.subresource);
    var p :| p in o.resources && ResourceAllowed(p, combined, req.subresource);
    assert p in o.verbs + o.apiGroups + o.resources + o.resourceNames;
    assert |p| <= LongestIn(owners);
    if '/' in r {
      SplitAtSlash(r);
      assert BeforeSlash(r) != "*" ==> combined == r;
      assert p == combined ==> BeforeSlash(r) != "*" by {
        if BeforeSlash(r) == "*" { assert |combined| > |x|; }
      }
      assert ResourceCovered(o.resources, r) || "*" in o.resources;
    } else if r == "*" {
      assert combined == x;
      assert p == "*";
    }
  }

  lemma AskedName(owners: seq<PolicyRule>, o: PolicyRule, names: seq<string>, requested: string, patterns: seq<string>)
    requires o in owners && (patterns == o.verbs || patterns == o.apiGroups || patterns == o.resourceNames)
    requires requested == Unmentioned(owners)
    ensures requested !in patterns
  {
    forall p | p in patterns ensures |p| <= LongestIn(owners) {
      assert p in o.verbs + o.apiGroups + o.resources + o.resourceNames;
    }
  }

  // An owner rule that allows the request covers the atom it was made for.
  lemma AllowedMeansCovered(owners: seq<PolicyRule>, o: PolicyRule, g: string, r: string, v: string, names: seq<string>)
    requires o in owners && Askable(r) && |names| <= 1 && Allows(o, AskFor(owners, g, r, v, names))
    ensures RuleCovers(o, ResourceAtom(g, r, v, names))
  {
    var x := Unmentioned(owners);
    AskedResource(owners, o, g, r, v, names);
    AskedName(owners, o, names, x, o.verbs);
    AskedName(owners, o, names, x, o.apiGroups);
    AskedName(owners, o, names, x, o.resourceNames);
  }

  // The URL pattern itself, taken as a path: whoever allows it allows everything the pattern does.
  function AskForUrl(owners: seq<PolicyRule>, url: string, verb: string): Request {
    UrlRequest(Other(verb, Unmentioned(owners)), url)
  }

  lemma AllowedUrlMeansCovered(owners: seq<PolicyRule>, o: PolicyRule, url: string, verb: string)
    requires o in owners && Counts(o, AskForUrl(owners, url, verb))
    ensures RuleCovers(o, UrlAtom(url, verb))
  {
    var pattern :| pattern in o.Urls() && UrlAllowed(pattern, url);
    assert UrlCovers(pattern, url);
    AskedName(owners, o, [], Unmentioned(owners), o.verbs);
  }

  predicate Unaskable(atom: PolicyRule) {
    exists p | p in atom.resources :: !Askable(p)
  }

  ghost predicate UnaskableCovered(owners: seq<PolicyRule>, servants: seq<PolicyRule>) {
    forall s, atom | s in servants && atom in Breakdown(s) && Unaskable(atom) :: Covered(owners, atom)
  }

  ghost predicate AllowsNoMore(servants: seq<PolicyRule>, owners: seq<PolicyRule>) {
    forall r | Proper(r) && AnyAllows(servants, r) :: AnyCounts(owners, r)
  }

  // An askable atom has a request of its own, which only rules that cover it allow.
  lemma AtomOfAsked(owners: seq<PolicyRule>, s: PolicyRule, atom: PolicyRule)
    requires atom in Breakdown(s) && !Unaskable(atom)
    requires forall r | Proper(r) && Allows(s, r) :: AnyCounts(owners, r)
    ensures Covered(owners, atom)
  {
    AtomsAre(s, atom);
    if IsUrlAtom(s, atom) {
      var url, verb :| url in s.Urls() && verb in s.verbs && atom == UrlAtom(url, verb);
      var r := AskForUrl(owners, url, verb);
      assert UrlAllowed(url, url) && Allows(s, r);
      var o :| o in owners && Counts(o, r);
      AllowedUrlMeansCovered(owners, o, url, verb);
    } else {
      var g, p, v, names := PartsOf(s, atom);
      assert p in atom.resources;
      var r := AskFor(owners, g, p, v, names);
      AskForProper(owners, g, p, v, names);
      BreakdownMeans(s, r);
      var o :| o in owners && Counts(o, r);
      AllowedMeansCovered(owners, o, g, p, v, names);
    }
  }

  /**
   The verdict is exact, for all rules: covered if and only if every proper request that a servant
   rule allows is allowed by an owner rule, for a URL by one without resource names, and the
   resource names that no request can ask for are covered all the same.
   */
  lemma CoversExactly(owners: seq<PolicyRule>, servants: seq<PolicyRule>)
    ensures CoversAll(owners, servants) <==> AllowsNoMore(servants, owners) && UnaskableCovered(owners, servants)
  {
    CoversAllMeans(owners, servants);
    if CoversAll(owners, servants) {
      forall r | Proper(r) && AnyAllows(servants, r) ensures AnyCounts(owners, r) {
        CoversSound(owners, servants, r);
      }
    }
    if AllowsNoMore(servants, owners) && UnaskableCovered(owners, servants) {
      forall s, atom | s in servants && atom in Breakdown(s) ensures Covered(owners, atom) {
        if !Unaskable(atom) {
          forall r | Proper(r) && Allows(s, r) ensures AnyCounts(owners, r) {
            assert AnyAllows(servants, r);
          }
          AtomOfAsked(owners, s, atom);
        }
      }
    }
  }

  // ----- where it is not exact -----

  lemma OneAtom(owners: seq<PolicyRule>, servant: PolicyRule)
    requires forall atom :: IsResourceAtom(servant, atom) || IsUrlAtom(servant, atom) <==> atom == servant
    ensures CoversAll(owners, [servant]) <==> Covered(owners, servant)
  {
    CoversAllMeans(owners, [servant]);
    forall atom { AtomsAre(servant, atom); }
    assert servant in [servant];
  }

  /**
   A resource name that ends right after its slash can never be asked for, yet it is covered only
   by an owner rule that has its verb, its group and a star, the same name or the bare wildcard.
   */
  lemma TrailingSlashUncovered(owners: seq<PolicyRule>, group: string, before: string, verb: string, r: Request)
    requires '/' !in before && Proper(r)
    ensures var servant := PolicyRule([verb], [group], [before + "/"], [], None);
      && !Allows(servant, r)
      && (CoversAll(owners, [servant]) <==> exists o | o in owners ::
            && ("*" in o.verbs || verb in o.verbs) && ("*" in o.apiGroups || group in o.apiGroups)
            && o.resourceNames == []
            && ("*" in o.resources || before + "/" in o.resources || "*/" in o.resources))
  {
    var pattern := before + "/";
    var servant := PolicyRule([verb], [group], [pattern], [], None);
    AtomMadeOf(servant, servant, group, pattern, verb, []);
    OneAtom(owners, servant);
    AfterFirstSlash(before, "");
    assert before + "/" + "" == pattern;
    assert '/' in pattern && "*/" + AfterSlash(pattern) == "*/";
    forall o ensures RuleCovers(o, servant) <==>
      && ("*" in o.verbs || verb in o.verbs) && ("*" in o.apiGroups || group in o.apiGroups) && o.resourceNames == []
      && ("*" in o.resources || pattern in o.resources || "*/" in o.resources)
    {
      assert HasAll(o.verbs, [verb]) <==> verb in o.verbs;
      assert HasAll(o.apiGroups, [group]) <==> group in o.apiGroups;
      assert ResourcesCovered(o.resources, [pattern]) <==> "*" in o.resources || ResourceCovered(o.resources, pattern);
    }
    if r.ResourceRequest? {
      AfterFirstSlash(r.resource, r.subresource);
      AfterFirstSlash("*", r.subresource);
      assert "*" + "/" + r.subresource == "*/" + r.subresource;
      assert !ResourceAllowed(pattern, Combined(r.resource, r.subresource), r.subresource);
    }
  }

  /** URL rules ignore resource names when they allow, but not when they cover. */
  lemma NamedUrlRuleUncovered(url: string, verb: string, name: string, r: Request)
    ensures var servant := PolicyRule([verb], [], [], [], Some([url]));
      var owner := servant.(resourceNames := [name]);
      !CoversAll([owner], [servant]) && (Allows(servant, r) <==> Allows(owner, r))
  {
    var servant, owner := PolicyRule([verb], [], [], [], Some([url])), PolicyRule([verb], [], [], [name], Some([url]));
    assert servant == UrlAtom(url, verb) && url in servant.Urls() && verb in servant.verbs;
    OneAtom([owner], servant);
  }
}
