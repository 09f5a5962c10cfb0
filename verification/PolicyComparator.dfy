/** Whether one list of rules covers another: broken down to atoms, each compared with every owner rule. */
module PolicyComparator {
  import opened Names
  import opened Objects
  import opened Rules

  // ----- breaking a rule down -----

  function ResourceAtom(group: string, resource: string, verb: string, names: seq<string>): PolicyRule {
    PolicyRule([verb], [group], [resource], names, None)
  }

  function UrlAtom(url: string, verb: string): PolicyRule {
    PolicyRule([verb], [], [], [], Some([url]))
  }

  // One atom per name, or one without a name.
  function NameAtoms(rule: PolicyRule, group: string, resource: string, verb: string): seq<PolicyRule> {
    if rule.resourceNames == [] then
      [ResourceAtom(group, resource, verb, [])]
    else
      seq(|rule.resourceNames|, i requires 0 <= i < |rule.resourceNames| =>
        ResourceAtom(group, resource, verb, [rule.resourceNames[i]]))
  }

  // One list after the other.
  function Flat<S, T>(s: seq<S>, f: S -> seq<T>): seq<T> {
    if s == [] then [] else Flat(s[..|s| - 1], f) + f(s[|s| - 1])
  }

  lemma {:induction false} InFlat<S, T>(s: seq<S>, f: S -> seq<T>, x: T)
    ensures x in Flat(s, f) <==> exists y :: y in s && x in f(y)
  {
    if s != [] {
      var front, last := s[..|s| - 1], s[|s| - 1];
      InFlat(front, f, x);
      assert s == front + [last];
    }
  }

  lemma FlatOneMore<S, T>(s: seq<S>, f: S -> seq<T>, n: nat)
    requires n < |s|
    ensures Flat(s[..n + 1], f) == Flat(s[..n], f) + f(s[n])
  {
    assert s[..n + 1][..n] == s[..n];
  }

  function VerbAtoms(rule: PolicyRule, group: string, resource: string): seq<PolicyRule> {
    Flat(rule.verbs, verb => NameAtoms(rule, group, resource, verb))
  }

  function ResourceAtoms(rule: PolicyRule, group: string): seq<PolicyRule> {
    Flat(rule.resources, resource => VerbAtoms(rule, group, resource))
  }

  function GroupAtoms(rule: PolicyRule): seq<PolicyRule> {
    Flat(rule.apiGroups, group => ResourceAtoms(rule, group))
  }

  function UrlVerbAtoms(rule: PolicyRule, url: string): seq<PolicyRule> {
    Flat(rule.verbs, verb => [UrlAtom(url, verb)])
  }

  function UrlAtoms(rule: PolicyRule): seq<PolicyRule> {
    Flat(rule.Urls(), url => UrlVerbAtoms(rule, url))
  }

  function Breakdown(rule: PolicyRule): seq<PolicyRule> {
    GroupAtoms(rule) + UrlAtoms(rule)
  }

  method BreakdownRule(rule: PolicyRule) returns (subrules: seq<PolicyRule>)
    ensures subrules == Breakdown(rule)
  {
    subrules := [];
    for g := 0 to |rule.apiGroups|
      invariant subrules == Flat(rule.apiGroups[..g], group => ResourceAtoms(rule, group))
    {
      FlatOneMore(rule.apiGroups, group => ResourceAtoms(rule, group), g);
      var more := BreakdownResources(rule, rule.apiGroups[g]);
      subrules := subrules + more;
    }
    assert rule.apiGroups[..|rule.apiGroups|] == rule.apiGroups;
    var urls := BreakdownUrls(rule);
    subrules := subrules + urls;
  }

  method BreakdownUrls(rule: PolicyRule) returns (subrules: seq<PolicyRule>)
    ensures subrules == UrlAtoms(rule)
  {
    subrules := [];
    for u := 0 to |rule.Urls()|
      invariant subrules == Flat(rule.Urls()[..u], url => UrlVerbAtoms(rule, url))
    {
      FlatOneMore(rule.Urls(), url => UrlVerbAtoms(rule, url), u);
      var url := rule.Urls()[u];
      ghost var before := subrules;
      for v := 0 to |rule.verbs|
        invariant subrules == before + Flat(rule.verbs[..v], verb => [UrlAtom(url, verb)])
      {
        FlatOneMore(rule.verbs, verb => [UrlAtom(url, verb)], v);
        subrules := subrules + [UrlAtom(url, rule.verbs[v])];
      }
      assert rule.verbs[..|rule.verbs|] == rule.verbs;
    }
    assert rule.Urls()[..|rule.Urls()|] == rule.Urls();
  }

  method BreakdownResources(rule: PolicyRule, group: string) returns (subrules: seq<PolicyRule>)
    ensures subrules == ResourceAtoms(rule, group)
  {
    subrules := [];
    for r := 0 to |rule.resources|
      invariant subrules == Flat(rule.resources[..r], resource => VerbAtoms(rule, group, resource))
    {
      FlatOneMore(rule.resources, resource => VerbAtoms(rule, group, resource), r);
      var more := BreakdownVerbs(rule, group, rule.resources[r]);
      subrules := subrules + more;
    }
    assert rule.resources[..|rule.resources|] == rule.resources;
  }

  method BreakdownVerbs(rule: PolicyRule, group: string, resource: string) returns (subrules: seq<PolicyRule>)
    ensures subrules == VerbAtoms(rule, group, resource)
  {
    subrules := [];
    for v := 0 to |rule.verbs|
      invariant subrules == Flat(rule.verbs[..v], verb => NameAtoms(rule, group, resource, verb))
    {
      FlatOneMore(rule.verbs, verb => NameAtoms(rule, group, resource, verb), v);
      var more := BreakdownNames(rule, group, resource, rule.verbs[v]);
      subrules := subrules + more;
    }
    assert rule.verbs[..|rule.verbs|] == rule.verbs;
  }

  method BreakdownNames(rule: PolicyRule, group: string, resource: string, verb: string)
    returns (subrules: seq<PolicyRule>)
    ensures subrules == NameAtoms(rule, group, resource, verb)
  {
    if |rule.resourceNames| > 0 {
      subrules := [];
      for n := 0 to |rule.resourceNames|
        invariant subrules == NameAtoms(rule, group, resource, verb)[..n]
      {
        subrules := subrules + [ResourceAtom(group, resource, verb, [rule.resourceNames[n]])];
      }
    } else {
      subrules := [ResourceAtom(group, resource, verb, [])];
    }
  }

  // ----- which atoms there are -----

  // An atom of the rule under a verb, a resource, a group, each with the parts before it.
  ghost predicate OfVerb(rule: PolicyRule, atom: PolicyRule, g: string, r: string, v: string) {
    exists names :: MadeOf(rule, atom, g, r, v, names)
  }

  ghost predicate OfResource(rule: PolicyRule, atom: PolicyRule, g: string, r: string) {
    exists v :: v in rule.verbs && OfVerb(rule, atom, g, r, v)
  }

  ghost predicate OfGroup(rule: PolicyRule, atom: PolicyRule, g: string) {
    exists r :: r in rule.resources && OfResource(rule, atom, g, r)
  }

  ghost predicate IsResourceAtom(rule: PolicyRule, atom: PolicyRule) {
    exists g :: g in rule.apiGroups && OfGroup(rule, atom, g)
  }

  predicate MadeOf(rule: PolicyRule, atom: PolicyRule, g: string, r: string, v: string, names: seq<string>) {
    && g in rule.apiGroups && r in rule.resources && v in rule.verbs
    && (if rule.resourceNames == [] then names == [] else |names| == 1 && names[0] in rule.resourceNames)
    && atom == ResourceAtom(g, r, v, names)
  }

  lemma AtomMadeOf(rule: PolicyRule, atom: PolicyRule, g: string, r: string, v: string, names: seq<string>)
    requires MadeOf(rule, atom, g, r, v, names)
    ensures IsResourceAtom(rule, atom)
  {
    assert OfVerb(rule, atom, g, r, v);
    assert OfResource(rule, atom, g, r);
    assert OfGroup(rule, atom, g);
  }

  lemma PartsOf(rule: PolicyRule, atom: PolicyRule) returns (g: string, r: string, v: string, names: seq<string>)
    requires IsResourceAtom(rule, atom)
    ensures MadeOf(rule, atom, g, r, v, names)
  {
    g :| g in rule.apiGroups && OfGroup(rule, atom, g);
    r :| r in rule.resources && OfResource(rule, atom, g, r);
    v :| v in rule.verbs && OfVerb(rule, atom, g, r, v);
    names :| MadeOf(rule, atom, g, r, v, names);
  }

  ghost predicate IsUrlAtom(rule: PolicyRule, atom: PolicyRule) {
    exists u, v :: u in rule.Urls() && v in rule.verbs && atom == UrlAtom(u, v)
  }

  lemma NameAtomsAre(rule: PolicyRule, g: string, r: string, v: string, atom: PolicyRule)
    requires g in rule.apiGroups && r in rule.resources && v in rule.verbs
    ensures atom in NameAtoms(rule, g, r, v) <==> OfVerb(rule, atom, g, r, v)
  {
    var atoms := NameAtoms(rule, g, r, v);
    if rule.resourceNames == [] {
      assert MadeOf(rule, ResourceAtom(g, r, v, []), g, r, v, []);
    } else {
      if atom in atoms {
        var i :| 0 <= i < |atoms| && atoms[i] == atom;
        assert MadeOf(rule, atom, g, r, v, [rule.resourceNames[i]]);
      }
      if names :| MadeOf(rule, atom, g, r, v, names) {
        var i :| 0 <= i < |rule.resourceNames| && rule.resourceNames[i] == names[0];
        assert names == [rule.resourceNames[i]];
        assert atoms[i] == atom;
      }
    }
  }

  lemma VerbAtomsAre(rule: PolicyRule, g: string, r: string, atom: PolicyRule)
    requires g in rule.apiGroups && r in rule.resources
    ensures atom in VerbAtoms(rule, g, r) <==> OfResource(rule, atom, g, r)
  {
    var f := verb => NameAtoms(rule, g, r, verb);
    InFlat(rule.verbs, f, atom);
    forall v | v in rule.verbs ensures atom in f(v) <==> OfVerb(rule, atom, g, r, v) {
      NameAtomsAre(rule, g, r, v, atom);
    }
  }

  lemma ResourceAtomsAre(rule: PolicyRule, g: string, atom: PolicyRule)
    requires g in rule.apiGroups
    ensures atom in ResourceAtoms(rule, g) <==> OfGroup(rule, atom, g)
  {
    var f := resource => VerbAtoms(rule, g, resource);
    InFlat(rule.resources, f, atom);
    forall r | r in rule.resources ensures atom in f(r) <==> OfResource(rule, atom, g, r) {
      VerbAtomsAre(rule, g, r, atom);
    }
  }

  lemma GroupAtomsAre(rule: PolicyRule, atom: PolicyRule)
    ensures atom in GroupAtoms(rule) <==> IsResourceAtom(rule, atom)
  {
    var f := group => ResourceAtoms(rule, group);
    InFlat(rule.apiGroups, f, atom);
    forall g | g in rule.apiGroups ensures atom in f(g) <==> OfGroup(rule, atom, g) {
      ResourceAtomsAre(rule, g, atom);
    }
  }

  lemma UrlAtomsAre(rule: PolicyRule, atom: PolicyRule)
    ensures atom in UrlAtoms(rule) <==> IsUrlAtom(rule, atom)
  {
    var f := url => UrlVerbAtoms(rule, url);
    InFlat(rule.Urls(), f, atom);
    forall u ensures atom in f(u) <==> exists v :: v in rule.verbs && atom == UrlAtom(u, v) {
      InFlat(rule.verbs, verb => [UrlAtom(u, verb)], atom);
    }
  }

  /** The atoms of a rule are all combinations of its parts, and nothing else. */
  lemma AtomsAre(rule: PolicyRule, atom: PolicyRule)
    ensures atom in Breakdown(rule) <==> IsResourceAtom(rule, atom) || IsUrlAtom(rule, atom)
  {
    GroupAtomsAre(rule, atom);
    UrlAtomsAre(rule, atom);
  }

  /** Breaking a rule down changes nothing about what is allowed. */
  lemma BreakdownMeans(rule: PolicyRule, req: Request)
    ensures AnyAllows(Breakdown(rule), req) <==> Allows(rule, req)
  {
    if Allows(rule, req) {
      var v := if "*" in rule.verbs then "*" else req.verb;
      match req {
        case ResourceRequest(verb, apiGroup, resource, subresource, name) =>
          var g := if "*" in rule.apiGroups then "*" else apiGroup;
          var p :| p in rule.resources && ResourceAllowed(p, Combined(resource, subresource), subresource);
          var names := if rule.resourceNames == [] then [] else [name];
          var atom := ResourceAtom(g, p, v, names);
          AtomMadeOf(rule, atom, g, p, v, names);
          AtomsAre(rule, atom);
          assert p in atom.resources && Allows(atom, req);
        case UrlRequest(verb, path) =>
          var p :| p in rule.Urls() && UrlAllowed(p, path);
          var atom := UrlAtom(p, v);
          AtomsAre(rule, atom);
          assert p in atom.Urls() && Allows(atom, req);
      }
    }
    if AnyAllows(Breakdown(rule), req) {
      var atom :| atom in Breakdown(rule) && Allows(atom, req);
      AtomsAre(rule, atom);
      AtomWithin(rule, atom, req);
    }
  }

  lemma AtomWithin(rule: PolicyRule, atom: PolicyRule, req: Request)
    requires Allows(atom, req) && (IsResourceAtom(rule, atom) || IsUrlAtom(rule, atom))
    ensures Allows(rule, req)
  {
    if IsResourceAtom(rule, atom) {
      var g, r, v, names := PartsOf(rule, atom);
    }
    match req
    case ResourceRequest(_, _, resource, subresource, _) =>
      var p :| p in atom.resources && ResourceAllowed(p, Combined(resource, subresource), subresource);
      assert p in rule.resources;
    case UrlRequest(_, path) =>
      var p :| p in atom.Urls() && UrlAllowed(p, path);
      assert p in rule.Urls();
  }

  // ----- comparing -----

  function AfterSlash(path: string): string
    requires '/' in path
  {
    if path[0] == '/' then path[1..] else AfterSlash(path[1..])
  }

  predicate HasAll(owning: seq<string>, contains: seq<string>) {
    forall e | e in contains :: e in owning
  }

  // An owner's resources cover one resource: by name, or by a wildcard for its subresource.
  predicate ResourceCovered(owning: seq<string>, path: string) {
    path in owning || ('/' in path && "*/" + AfterSlash(path) in owning)
  }

  predicate ResourcesCovered(owning: seq<string>, covers: seq<string>) {
    "*" in owning || forall path | path in covers :: ResourceCovered(owning, path)
  }

  predicate UrlCovers(owner: string, url: string) {
    owner == url || (HasSuffix(owner, "*") && HasPrefix(url, TrimStars(owner)))
  }

  predicate UrlsCovered(owning: seq<string>, covers: seq<string>) {
    forall url | url in covers :: exists owner | owner in owning :: UrlCovers(owner, url)
  }

  predicate NamesCovered(owning: seq<string>, names: seq<string>) {
    owning == [] || (names != [] && HasAll(owning, names))
  }

  predicate RuleCovers(owner: PolicyRule, sub: PolicyRule) {
    && ("*" in owner.verbs || HasAll(owner.verbs, sub.verbs))
    && ("*" in owner.apiGroups || HasAll(owner.apiGroups, sub.apiGroups))
    && ResourcesCovered(owner.resources, sub.resources)
    && UrlsCovered(owner.Urls(), sub.Urls())
    && NamesCovered(owner.resourceNames, sub.resourceNames)
  }

  method Has(names: seq<string>, e: string) returns (found: bool)
    ensures found <==> e in names
  {
    for i := 0 to |names|
      invariant e !in names[..i]
    {
      if names[i] == e {
        return true;
      }
    }
    assert names[..|names|] == names;
    return false;
  }

  method HasEvery(owning: seq<string>, contains: seq<string>) returns (all: bool)
    ensures all <==> HasAll(owning, contains)
  {
    var owned: set<string> := {};
    for i := 0 to |owning|
      invariant forall e :: e in owned <==> e in owning[..i]
    {
      assert owning[..i + 1] == owning[..i] + [owning[i]];
      owned := owned + {owning[i]};
    }
    assert owning[..|owning|] == owning;
    for i := 0 to |contains|
      invariant forall j | 0 <= j < i :: contains[j] in owning
    {
      if contains[i] !in owned {
        assert contains[i] in contains;
        return false;
      }
    }
    return true;
  }

  method ResourceCoversAll(owning: seq<string>, covers: seq<string>) returns (all: bool)
    ensures all <==> ResourcesCovered(owning, covers)
  {
    var star := Has(owning, "*");
    var every := HasEvery(owning, covers);
    if star || every {
      return true;
    }
    for i := 0 to |covers|
      invariant forall j | 0 <= j < i :: ResourceCovered(owning, covers[j])
    {
      var path := covers[i];
      assert path in covers;
      var exact := Has(owning, path);
      if exact {
        continue;
      }
      if '/' !in path {
        return false;
      }
      var wildcard := Has(owning, "*/" + AfterSlash(path));
      if !wildcard {
        return false;
      }
    }
    return true;
  }

  method NonResourceURLsCoversAll(owning: seq<string>, covers: seq<string>) returns (all: bool)
    ensures all <==> UrlsCovered(owning, covers)
  {
    for i := 0 to |covers|
      invariant forall j | 0 <= j < i :: exists owner | owner in owning :: UrlCovers(owner, covers[j])
    {
      var covered := false;
      assert covers[i] in covers;
      for o := 0 to |owning|
        invariant !covered && forall j | 0 <= j < o :: !UrlCovers(owning[j], covers[i])
      {
        if UrlCovers(owning[o], covers[i]) {
          assert owning[o] in owning;
          covered := true;
          break;
        }
      }
      if !covered {
        return false;
      }
    }
    return true;
  }

  method RuleCoversSub(owner: PolicyRule, sub: PolicyRule) returns (covers: bool)
    ensures covers <==> RuleCovers(owner, sub)
  {
    var allVerbs := Has(owner.verbs, "*");
    var verbs := HasEvery(owner.verbs, sub.verbs);
    var allGroups := Has(owner.apiGroups, "*");
    var groups := HasEvery(owner.apiGroups, sub.apiGroups);
    var resources := ResourceCoversAll(owner.resources, sub.resources);
    var urls := NonResourceURLsCoversAll(owner.Urls(), sub.Urls());
    var names := |owner.resourceNames| == 0;
    if |sub.resourceNames| > 0 && !names {
      names := HasEvery(owner.resourceNames, sub.resourceNames);
    }
    return (allVerbs || verbs) && (allGroups || groups) && resources && names && urls;
  }

  predicate Covered(owners: seq<PolicyRule>, atom: PolicyRule) {
    exists o | o in owners :: RuleCovers(o, atom)
  }

  // The atoms of all servant rules, one rule after the other.
  function Atoms(servants: seq<PolicyRule>): seq<PolicyRule> {
    Flat(servants, Breakdown)
  }

  function Uncovered(owners: seq<PolicyRule>, atoms: seq<PolicyRule>): seq<PolicyRule> {
    if atoms == [] then []
    else
      Uncovered(owners, atoms[..|atoms| - 1])
        + (if Covered(owners, atoms[|atoms| - 1]) then [] else [atoms[|atoms| - 1]])
  }

  method Covers(owners: seq<PolicyRule>, servants: seq<PolicyRule>) returns (covered: bool, uncovered: seq<PolicyRule>)
    ensures uncovered == Uncovered(owners, Atoms(servants))
    ensures covered <==> uncovered == []
  {
    var subrules: seq<PolicyRule> := [];
    for s := 0 to |servants|
      invariant subrules == Flat(servants[..s], Breakdown)
    {
      FlatOneMore(servants, Breakdown, s);
      var more := BreakdownRule(servants[s]);
      subrules := subrules + more;
    }
    assert servants[..|servants|] == servants;
    uncovered := LeftOver(owners, subrules);
    covered := |uncovered| == 0;
  }

  // The loop over the atoms.
  method LeftOver(owners: seq<PolicyRule>, subrules: seq<PolicyRule>) returns (uncovered: seq<PolicyRule>)
    ensures uncovered == Uncovered(owners, subrules)
  {
    uncovered := [];
    for i := 0 to |subrules|
      invariant uncovered == Uncovered(owners, subrules[..i])
    {
      assert subrules[..i + 1][..i] == subrules[..i];
      var found := CoveredByOne(owners, subrules[i]);
      if !found {
        uncovered := uncovered + [subrules[i]];
      }
    }
    assert subrules[..|subrules|] == subrules;
  }

  method CoveredByOne(owners: seq<PolicyRule>, atom: PolicyRule) returns (covered: bool)
    ensures covered <==> Covered(owners, atom)
  {
    for o := 0 to |owners|
      invariant forall j | 0 <= j < o :: !RuleCovers(owners[j], atom)
    {
      var covers := RuleCoversSub(owners[o], atom);
      if covers {
        assert owners[o] in owners;
        return true;
      }
    }
    return false;
  }

  // ----- what the comparison finds -----

  lemma {:induction false} UncoveredAre(owners: seq<PolicyRule>, atoms: seq<PolicyRule>, atom: PolicyRule)
    ensures atom in Uncovered(owners, atoms) <==> atom in atoms && !Covered(owners, atom)
  {
    if atoms != [] {
      var front, last := atoms[..|atoms| - 1], atoms[|atoms| - 1];
      UncoveredAre(owners, front, atom);
      assert atoms == front + [last];
    }
  }

  ghost predicate CoversAll(owners: seq<PolicyRule>, servants: seq<PolicyRule>) {
    Uncovered(owners, Atoms(servants)) == []
  }

  /** The verdict: every atom of every servant rule is covered by a single owner rule. */
  lemma CoversAllMeans(owners: seq<PolicyRule>, servants: seq<PolicyRule>)
    ensures CoversAll(owners, servants) <==>
      forall s, atom | s in servants && atom in Breakdown(s) :: Covered(owners, atom)
  {
    var atoms := Atoms(servants);
    forall atom
      ensures atom in Uncovered(owners, atoms) <==>
        (exists s :: s in servants && atom in Breakdown(s)) && !Covered(owners, atom)
    {
      UncoveredAre(owners, atoms, atom);
      InFlat(servants, Breakdown, atom);
    }
    if Uncovered(owners, atoms) != [] {
      assert Uncovered(owners, atoms)[0] in Uncovered(owners, atoms);
    }
  }
}
