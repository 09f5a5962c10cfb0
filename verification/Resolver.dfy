/**
 Authorization by role bindings: listed in full or through an index by subject, visited one
 after the other until a rule allows the request.
 */
module Resolver {
  import opened Objects
  import opened Rules

  datatype SubjectKind = UserKind | GroupKind | ServiceAccountKind | UnknownKind

  datatype Subject = Subject(kind: SubjectKind, name: string, namespace: string)

  datatype User = User(name: string, groups: seq<string>)

  datatype RoleKind = RoleRefKind | ClusterRoleRefKind | UnsupportedKind

  datatype RoleRef = RoleRef(kind: RoleKind, name: string)

  // A cluster role binding has the empty namespace.
  datatype Binding = Binding(namespace: string, subjects: seq<Subject>, roleRef: RoleRef)

  datatype RoleKey = RoleKey(namespace: string, name: string)

  datatype Cluster = Cluster(
    clusterRoleBindings: seq<Binding>,
    roleBindings: seq<Binding>,
    roles: map<RoleKey, seq<PolicyRule>>,
    clusterRoles: map<string, seq<PolicyRule>>,
    clusterListFails: bool,
    roleListFails: bool)

  // ----- subjects -----

  const SERVICE_ACCOUNT_PREFIX := "system:serviceaccount:"
  const SEPARATOR := ":"
  const USER_PREFIX := "user:"
  const GROUP_PREFIX := "group:"

  function MakeUsername(ns: string, name: string): string {
    SERVICE_ACCOUNT_PREFIX + ns + SEPARATOR + name
  }

  // The parts are stripped off the front one by one.
  predicate MatchesUsername(ns: string, name: string, username: string) {
    && HasPrefix(username, SERVICE_ACCOUNT_PREFIX)
    && var rest := username[|SERVICE_ACCOUNT_PREFIX|..];
       HasPrefix(rest, ns) && HasPrefix(rest[|ns|..], SEPARATOR) && rest[|ns|..][|SEPARATOR|..] == name
  }

  lemma MatchesUsernameExactly(ns: string, name: string, username: string)
    ensures MatchesUsername(ns, name, username) <==> username == MakeUsername(ns, name)
  {
    var made, p := MakeUsername(ns, name), |SERVICE_ACCOUNT_PREFIX|;
    assert made[..p] == SERVICE_ACCOUNT_PREFIX && made[p..] == ns + SEPARATOR + name;
    assert made[p..][..|ns|] == ns && made[p..][|ns|..] == SEPARATOR + name;
    assert (SEPARATOR + name)[..1] == SEPARATOR && (SEPARATOR + name)[1..] == name;
    if MatchesUsername(ns, name, username) {
      var rest := username[p..];
      assert username == SERVICE_ACCOUNT_PREFIX + rest;
      assert rest == ns + rest[|ns|..];
      assert rest[|ns|..] == SEPARATOR + name;
    }
  }

  function AccountNamespace(s: Subject, ns: string): string {
    if s.namespace != "" then s.namespace else ns
  }

  predicate AppliesToUser(user: User, s: Subject, ns: string) {
    match s.kind
    case UserKind => user.name == s.name
    case GroupKind => s.name in user.groups
    case ServiceAccountKind =>
      AccountNamespace(s, ns) != "" && MatchesUsername(AccountNamespace(s, ns), s.name, user.name)
    case UnknownKind => false
  }

  /**
   Whom a subject stands for, kind by kind: the user of its name; the members of its group; the
   service account of its name in its own namespace, or in the binding's if it names none, and
   nobody if there is neither; and nobody for any other kind.
   */
  lemma SubjectMeans(user: User, s: Subject, ns: string)
    ensures s.kind == UserKind ==> (AppliesToUser(user, s, ns) <==> user.name == s.name)
    ensures s.kind == GroupKind ==> (AppliesToUser(user, s, ns) <==> s.name in user.groups)
    ensures s.kind == ServiceAccountKind && s.namespace != "" ==>
      (AppliesToUser(user, s, ns) <==> user.name == "system:serviceaccount:" + s.namespace + ":" + s.name)
    ensures s.kind == ServiceAccountKind && s.namespace == "" && ns != "" ==>
      (AppliesToUser(user, s, ns) <==> user.name == "system:serviceaccount:" + ns + ":" + s.name)
    ensures s.kind == ServiceAccountKind && s.namespace == "" && ns == "" ==> !AppliesToUser(user, s, ns)
    ensures s.kind == UnknownKind ==> !AppliesToUser(user, s, ns)
  {
    if s.kind == ServiceAccountKind {
      MatchesUsernameExactly(AccountNamespace(s, ns), s.name, user.name);
    }
  }

  // The index key; empty when the subject can never apply.
  function ConvertSubject(ns: string, s: Subject): string {
    match s.kind
    case UserKind => USER_PREFIX + s.name
    case GroupKind => GROUP_PREFIX + s.name
    case ServiceAccountKind =>
      if AccountNamespace(s, ns) == "" then "" else USER_PREFIX + MakeUsername(AccountNamespace(s, ns), s.name)
    case UnknownKind => ""
  }

  // The keys under which a user is looked up.
  function KeysOf(user: User): seq<string> {
    [USER_PREFIX + user.name] + seq(|user.groups|, i requires 0 <= i < |user.groups| => GROUP_PREFIX + user.groups[i])
  }

  lemma SamePrefixed(prefix: string, a: string, b: string)
    ensures prefix + a == prefix + b <==> a == b
  {
    assert (prefix + a)[|prefix|..] == a && (prefix + b)[|prefix|..] == b;
  }

  lemma InKeysOf(user: User, key: string)
    ensures key in KeysOf(user) <==>
      key == USER_PREFIX + user.name || exists g :: g in user.groups && key == GROUP_PREFIX + g
  {
    var keys := KeysOf(user);
    if key in keys && key != keys[0] {
      var i :| 0 <= i < |keys| && keys[i] == key;
      assert user.groups[i - 1] in user.groups && key == GROUP_PREFIX + user.groups[i - 1];
    }
    if g :| g in user.groups && key == GROUP_PREFIX + g {
      var i :| 0 <= i < |user.groups| && user.groups[i] == g;
      assert keys[i + 1] == key;
    }
  }

  /** A subject applies to a user exactly when its index key is one of the user's keys. */
  lemma KeyMeansApplies(user: User, s: Subject, ns: string)
    ensures AppliesToUser(user, s, ns) <==> ConvertSubject(ns, s) in KeysOf(user)
  {
    var key := ConvertSubject(ns, s);
    InKeysOf(user, key);
    if key != "" {
      assert (key[0] == 'u') == (s.kind != GroupKind);
    }
    assert (USER_PREFIX + user.name)[0] == 'u' && forall g :: (GROUP_PREFIX + g)[0] == 'g';
    match s.kind {
      case UserKind => SamePrefixed(USER_PREFIX, s.name, user.name);
      case GroupKind =>
        forall g ensures GROUP_PREFIX + s.name == GROUP_PREFIX + g <==> s.name == g {
          SamePrefixed(GROUP_PREFIX, s.name, g);
        }
      case ServiceAccountKind =>
        MatchesUsernameExactly(AccountNamespace(s, ns), s.name, user.name);
        SamePrefixed(USER_PREFIX, MakeUsername(AccountNamespace(s, ns), s.name), user.name);
      case UnknownKind =>
    }
  }

  predicate Applies(user: User, subjects: seq<Subject>, ns: string) {
    exists s | s in subjects :: AppliesToUser(user, s, ns)
  }

  method AppliesTo(user: User, subjects: seq<Subject>, ns: string) returns (index: nat, applies: bool)
    ensures applies <==> Applies(user, subjects, ns)
    ensures applies ==> index < |subjects| && AppliesToUser(user, subjects[index], ns)
  {
    for i := 0 to |subjects|
      invariant forall j | 0 <= j < i :: !AppliesToUser(user, subjects[j], ns)
    {
      if AppliesToUser(user, subjects[i], ns) {
        assert subjects[i] in subjects;
        return i, true;
      }
    }
    return 0, false;
  }

  // ----- the index -----

  function IndexKeys(ns: string, subjects: seq<Subject>): seq<string> {
    if subjects == [] then []
    else
      var front, key := IndexKeys(ns, subjects[..|subjects| - 1]), ConvertSubject(ns, subjects[|subjects| - 1]);
      if key != "" then front + [key] else front
  }

  // The index functions registered for bindings.
  method IndexBySubjects(ns: string, subjects: seq<Subject>) returns (keys: seq<string>)
    ensures keys == IndexKeys(ns, subjects)
  {
    keys := [];
    for i := 0 to |subjects|
      invariant keys == IndexKeys(ns, subjects[..i])
    {
      assert subjects[..i + 1][..i] == subjects[..i];
      var key := ConvertSubject(ns, subjects[i]);
      if key != "" {
        keys := keys + [key];
      }
    }
    assert subjects[..|subjects|] == subjects;
  }

  lemma {:induction false} InIndexKeys(ns: string, subjects: seq<Subject>, key: string)
    ensures key in IndexKeys(ns, subjects) <==> key != "" && exists s :: s in subjects && ConvertSubject(ns, s) == key
  {
    if subjects != [] {
      var front, last := subjects[..|subjects| - 1], subjects[|subjects| - 1];
      InIndexKeys(ns, front, key);
      assert subjects == front + [last];
    }
  }

  ghost predicate Indexed(user: User, ns: string, subjects: seq<Subject>) {
    exists key :: key in KeysOf(user) && key in IndexKeys(ns, subjects)
  }

  /** The index finds a binding under one of the user's keys exactly when the binding applies to the user. */
  lemma IndexFindsApplicable(user: User, ns: string, subjects: seq<Subject>)
    ensures Indexed(user, ns, subjects) <==> Applies(user, subjects, ns)
  {
    if key :| key in KeysOf(user) && key in IndexKeys(ns, subjects) {
      InIndexKeys(ns, subjects, key);
      var s :| s in subjects && ConvertSubject(ns, s) == key;
      KeyMeansApplies(user, s, ns);
    }
    if s :| s in subjects && AppliesToUser(user, s, ns) {
      KeyMeansApplies(user, s, ns);
      InIndexKeys(ns, subjects, ConvertSubject(ns, s));
      InKeysOf(user, ConvertSubject(ns, s));
      assert (USER_PREFIX + user.name) != "" && forall g :: GROUP_PREFIX + g != "";
    }
  }

  // List with an index key, within a namespace (the empty one for cluster role bindings).
  method ListByKey(bindings: seq<Binding>, ns: string, key: string) returns (found: seq<Binding>)
    ensures forall b :: b in found <==> b in bindings && b.namespace == ns && key in IndexKeys(ns, b.subjects)
  {
    found := [];
    for i := 0 to |bindings|
      invariant forall b :: b in found <==> b in bindings[..i] && b.namespace == ns && key in IndexKeys(ns, b.subjects)
    {
      assert bindings[..i + 1] == bindings[..i] + [bindings[i]];
      if bindings[i].namespace == ns {
        var keys := IndexBySubjects(ns, bindings[i].subjects);
        if key in keys {
          found := found + [bindings[i]];
        }
      }
    }
    assert bindings[..|bindings|] == bindings;
  }

  method ListInNamespace(bindings: seq<Binding>, ns: string) returns (found: seq<Binding>)
    ensures forall b :: b in found <==> b in bindings && b.namespace == ns
  {
    found := [];
    for i := 0 to |bindings|
      invariant forall b :: b in found <==> b in bindings[..i] && b.namespace == ns
    {
      assert bindings[..i + 1] == bindings[..i] + [bindings[i]];
      if bindings[i].namespace == ns {
        found := found + [bindings[i]];
      }
    }
    assert bindings[..|bindings|] == bindings;
  }

  /**
   What VisitRulesFor goes through: everything in the namespace, or what the index returns for
   each of the user's keys, a binding with several matching subjects coming up several times.
   */
  method ListBindings(bindings: seq<Binding>, user: User, ns: string, listAll: bool) returns (found: seq<Binding>)
    ensures forall b | b in found :: b in bindings && b.namespace == ns
    ensures forall b | b in bindings && b.namespace == ns && Applies(user, b.subjects, ns) :: b in found
  {
    if listAll {
      found := ListInNamespace(bindings, ns);
      return;
    }
    var keys := KeysOf(user);
    found := [];
    for i := 0 to |keys|
      invariant forall b | b in found :: b in bindings && b.namespace == ns
      invariant forall b, j ::
        b in bindings && b.namespace == ns && 0 <= j < i && keys[j] in IndexKeys(ns, b.subjects) ==> b in found
    {
      var more := ListByKey(bindings, ns, keys[i]);
      found := found + more;
    }
    forall b | b in bindings && b.namespace == ns && Applies(user, b.subjects, ns) ensures b in found {
      IndexFindsApplicable(user, ns, b.subjects);
      var key :| key in keys && key in IndexKeys(ns, b.subjects);
      var j :| 0 <= j < |keys| && keys[j] == key;
    }
  }

  // ----- visiting -----

  function RulesFor(c: Cluster, ref: RoleRef, ns: string): Option<seq<PolicyRule>> {
    match ref.kind
    case RoleRefKind => if RoleKey(ns, ref.name) in c.roles then Some(c.roles[RoleKey(ns, ref.name)]) else None
    case ClusterRoleRefKind => if ref.name in c.clusterRoles then Some(c.clusterRoles[ref.name]) else None
    case UnsupportedKind => None
  }

  // What the reason of an allowed request names.
  datatype Source = Source(binding: Binding, subject: Subject)

  class AuthorizingVisitor {
    const request: Request
    var allowed: bool
    var reason: Option<Source>
    var errors: nat

    constructor (request: Request)
      ensures this.request == request && !allowed && reason == None && errors == 0
    {
      this.request := request;
      allowed, reason, errors := false, None, 0;
    }

    method Visit(source: Option<Source>, rule: Option<PolicyRule>, failed: bool) returns (more: bool)
      modifies this
      ensures more <==> !(rule.Some? && Allows(rule.value, request))
      ensures more ==> allowed == old(allowed) && reason == old(reason)
      ensures !more ==> allowed && reason == source
      ensures errors == old(errors) + if more && failed then 1 else 0
    {
      if rule.Some? {
        var allows := RuleAllows(request, rule.value);
        if allows {
          allowed, reason := true, source;
          return false;
        }
      }
      if failed {
        errors := errors + 1;
      }
      return true;
    }
  }

  // This binding lets the user's request through.
  predicate GrantedBy(c: Cluster, b: Binding, user: User, ns: string, r: Request) {
    && Applies(user, b.subjects, ns)
    && RulesFor(c, b.roleRef, ns).Some?
    && AnyAllows(RulesFor(c, b.roleRef, ns).value, r)
  }

  /**
   A binding grants a request through one of its subjects and one rule of its role, which is a role
   of the binding's namespace or a cluster role; a role that is missing, or of another kind, grants nothing.
   */
  lemma GrantMeans(c: Cluster, b: Binding, user: User, ns: string, r: Request)
    ensures GrantedBy(c, b, user, ns, r) <==> exists s, rule ::
      && s in b.subjects && AppliesToUser(user, s, ns) && Allows(rule, r)
      && ((b.roleRef.kind == RoleRefKind
           && RoleKey(ns, b.roleRef.name) in c.roles && rule in c.roles[RoleKey(ns, b.roleRef.name)])
          || (b.roleRef.kind == ClusterRoleRefKind
              && b.roleRef.name in c.clusterRoles && rule in c.clusterRoles[b.roleRef.name]))
    ensures Unresolved(c, b, user, ns) <==>
      && (exists s :: s in b.subjects && AppliesToUser(user, s, ns))
      && (b.roleRef.kind == RoleRefKind ==> RoleKey(ns, b.roleRef.name) !in c.roles)
      && (b.roleRef.kind == ClusterRoleRefKind ==> b.roleRef.name !in c.clusterRoles)
  {
  }

  // This binding applies, but its role cannot be read.
  predicate Unresolved(c: Cluster, b: Binding, user: User, ns: string) {
    Applies(user, b.subjects, ns) && RulesFor(c, b.roleRef, ns).None?
  }

  // The unresolved bindings that come before the first granting one.
  function ErrorsBeforeGrant(c: Cluster, bindings: seq<Binding>, user: User, ns: string, r: Request): (n: nat)
    ensures n <= |bindings|
  {
    if bindings == [] || GrantedBy(c, bindings[0], user, ns, r) then 0
    else (if Unresolved(c, bindings[0], user, ns) then 1 else 0) + ErrorsBeforeGrant(c, bindings[1..], user, ns, r)
  }

  lemma {:induction false} ErrorsWithoutGrant(c: Cluster, bindings: seq<Binding>, user: User, ns: string, r: Request)
    requires forall b | b in bindings :: !GrantedBy(c, b, user, ns, r)
    ensures ErrorsBeforeGrant(c, bindings, user, ns, r) > 0 <==> exists b :: b in bindings && Unresolved(c, b, user, ns)
  {
    if bindings != [] {
      assert bindings == [bindings[0]] + bindings[1..];
      ErrorsWithoutGrant(c, bindings[1..], user, ns, r);
    }
  }

  ghost predicate GoodReason(c: Cluster, reason: Option<Source>, user: User, ns: string, r: Request) {
    && reason.Some?
    && GrantedBy(c, reason.value.binding, user, ns, r)
    && reason.value.subject in reason.value.binding.subjects
    && AppliesToUser(user, reason.value.subject, ns)
  }

  method VisitRules(rules: seq<PolicyRule>, source: Source, visitor: AuthorizingVisitor) returns (more: bool)
    requires !visitor.allowed
    modifies visitor
    ensures visitor.allowed == !more
    ensures visitor.allowed <==> AnyAllows(rules, visitor.request)
    ensures visitor.allowed ==> visitor.reason == Some(source)
    ensures more ==> visitor.reason == old(visitor.reason)
    ensures visitor.errors == old(visitor.errors)
  {
    for i := 0 to |rules|
      invariant !visitor.allowed && visitor.reason == old(visitor.reason) && visitor.errors == old(visitor.errors)
      invariant forall j | 0 <= j < i :: !Allows(rules[j], visitor.request)
    {
      more := visitor.Visit(Some(source), Some(rules[i]), false);
      if !more {
        assert rules[i] in rules;
        return;
      }
    }
    return true;
  }

  // One of the two loops over bindings.
  method VisitBindings(c: Cluster, bindings: seq<Binding>, user: User, ns: string, visitor: AuthorizingVisitor)
    returns (more: bool)
    requires !visitor.allowed
    modifies visitor
    ensures visitor.allowed == !more
    ensures visitor.allowed <==> exists b | b in bindings :: GrantedBy(c, b, user, ns, visitor.request)
    ensures visitor.allowed ==>
      GoodReason(c, visitor.reason, user, ns, visitor.request) && visitor.reason.value.binding in bindings
    ensures visitor.errors == old(visitor.errors) + ErrorsBeforeGrant(c, bindings, user, ns, visitor.request)
  {
    ghost var all := ErrorsBeforeGrant(c, bindings, user, ns, visitor.request);
    for i := 0 to |bindings|
      invariant !visitor.allowed
      invariant visitor.errors + ErrorsBeforeGrant(c, bindings[i..], user, ns, visitor.request)
        == old(visitor.errors) + all
      invariant forall j | 0 <= j < i :: !GrantedBy(c, bindings[j], user, ns, visitor.request)
    {
      var b := bindings[i];
      assert bindings[i..][0] == b && bindings[i..][1..] == bindings[i + 1..];
      var index, applies := AppliesTo(user, b.subjects, ns);
      if !applies {
        continue;
      }
      var rules := RulesFor(c, b.roleRef, ns);
      if rules.None? {
        more := visitor.Visit(None, None, true);
        continue;
      }
      more := VisitRules(rules.value, Source(b, b.subjects[index]), visitor);
      if !more {
        assert b in bindings && GrantedBy(c, b, user, ns, visitor.request);
        return;
      }
    }
    return true;
  }

  /**
   The request is allowed if and only if some binding that applies to the user refers to a role
   with an allowing rule, with the subject index as with the full list; and the reason names such
   a binding and the subject through which it applies. A denial reports an error if and only if
   some list or some applicable binding's role could not be read.
   */
  method Authorize(c: Cluster, user: User, ns: string, r: Request, listAll: bool)
    returns (allowed: bool, reason: Option<Source>, errors: nat)
    ensures allowed <==>
      || (!c.clusterListFails
          && exists b | b in c.clusterRoleBindings && b.namespace == "" :: GrantedBy(c, b, user, "", r))
      || (ns != "" && !c.roleListFails
          && exists b | b in c.roleBindings && b.namespace == ns :: GrantedBy(c, b, user, ns, r))
    ensures allowed ==>
      && reason.Some?
      && var b, s := reason.value.binding, reason.value.subject;
         && s in b.subjects
         && ((b in c.clusterRoleBindings && b.namespace == ""
              && GrantedBy(c, b, user, "", r) && AppliesToUser(user, s, ""))
             || (b in c.roleBindings && b.namespace == ns
                 && GrantedBy(c, b, user, ns, r) && AppliesToUser(user, s, ns)))
    ensures !allowed ==>
      (errors > 0 <==>
        || c.clusterListFails
        || (exists b :: b in c.clusterRoleBindings && b.namespace == "" && Unresolved(c, b, user, ""))
        || (ns != "" && c.roleListFails)
        || (ns != "" && exists b :: b in c.roleBindings && b.namespace == ns && Unresolved(c, b, user, ns)))
  {
    var visitor := new AuthorizingVisitor(r);
    var more := true;
    if c.clusterListFails {
      more := visitor.Visit(None, None, true);
    } else {
      var bindings := ListBindings(c.clusterRoleBindings, user, "", listAll);
      more := VisitBindings(c, bindings, user, "", visitor);
      if !more {
        return visitor.allowed, visitor.reason, visitor.errors;
      }
      ErrorsWithoutGrant(c, bindings, user, "", r);
    }
    if |ns| > 0 {
      if c.roleListFails {
        more := visitor.Visit(None, None, true);
      } else {
        var bindings := ListBindings(c.roleBindings, user, ns, listAll);
        more := VisitBindings(c, bindings, user, ns, visitor);
        if more {
          ErrorsWithoutGrant(c, bindings, user, ns, r);
        }
      }
    }
    return visitor.allowed, visitor.reason, visitor.errors;
  }

  // ----- accounts -----

  /** A user belongs to an account exactly when a cluster-wide binding to the account's subjects would apply. */
  method IsUserPartOfAccount(user: User, subjects: seq<Subject>) returns (part: bool)
    ensures part <==> Applies(user, subjects, "")
  {
    var known := {USER_PREFIX + user.name};
    for i := 0 to |user.groups|
      invariant forall key :: key in known <==> key in KeysOf(user)[..i + 1]
    {
      assert KeysOf(user)[..i + 2] == KeysOf(user)[..i + 1] + [GROUP_PREFIX + user.groups[i]];
      known := known + {GROUP_PREFIX + user.groups[i]};
    }
    assert KeysOf(user)[..|user.groups| + 1] == KeysOf(user);
    for i := 0 to |subjects|
      invariant forall j | 0 <= j < i :: !AppliesToUser(user, subjects[j], "")
    {
      KeyMeansApplies(user, subjects[i], "");
      if ConvertSubject("", subjects[i]) in known {
        assert subjects[i] in subjects;
        return true;
      }
    }
    return false;
  }
}
