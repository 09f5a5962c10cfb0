/**
 The account quota object and the accessor that writes it: account-wide totals, one slice per
 namespace, an optimistically locked store, and a look-aside cache of the accessor's own writes.
 */
module AccountQuotas {
  import opened Names
  import opened Sums
  import opened ResourceLists
  import opened Objects
  import opened Admission

  // An empty list and a nil one read back the same, because both are omitted when stored.
  datatype Status = Status(hard: ResourceList, used: ResourceList)

  datatype Slice = Slice(namespace: string, status: Status)

  datatype AccountQuota = AccountQuota(
    name: string,
    version: nat,
    account: string,
    scopes: seq<ScopeName>,
    selectors: seq<Selector>,
    specHard: ResourceList,
    total: Status,
    namespaces: seq<Slice>)

  // ----- slices -----

  function Find(slices: seq<Slice>, ns: string): Option<Status> {
    if slices == [] then None
    else if slices[0].namespace == ns then Some(slices[0].status)
    else Find(slices[1..], ns)
  }

  function StatusFor(slices: seq<Slice>, ns: string): Status {
    match Find(slices, ns) case Some(status) => status case None => Status(map[], map[])
  }

  ghost function SliceAmount(slices: seq<Slice>, ns: string, k: ResourceName): int {
    Amount(StatusFor(slices, ns).used, k)
  }

  method GetResourceQuotasStatusByNamespace(slices: seq<Slice>, ns: string) returns (status: Status, found: bool)
    ensures found == Find(slices, ns).Some? && status == StatusFor(slices, ns)
  {
    for i := 0 to |slices|
      invariant Find(slices, ns) == Find(slices[i..], ns)
    {
      if slices[i].namespace == ns {
        return slices[i].status, true;
      }
    }
    return Status(map[], map[]), false;
  }

  // Same order as before; a namespace seen for the first time comes last.
  function Replaced(slices: seq<Slice>, s: Slice): seq<Slice> {
    seq(|slices|, i requires 0 <= i < |slices| => if slices[i].namespace == s.namespace then s else slices[i])
  }

  function Inserted(slices: seq<Slice>, s: Slice): seq<Slice> {
    if Find(slices, s.namespace).Some? then Replaced(slices, s) else slices + [s]
  }

  method InsertResourceQuotasStatus(slices: seq<Slice>, newStatus: Slice) returns (result: seq<Slice>)
    ensures result == Inserted(slices, newStatus)
  {
    result := [];
    var found := false;
    for i := 0 to |slices|
      invariant |result| == i
      invariant forall j | 0 <= j < i :: result[j] == Replaced(slices, newStatus)[j]
      invariant found || Find(slices, newStatus.namespace) == Find(slices[i..], newStatus.namespace)
      invariant !found ==> result == slices[..i]
      invariant found ==> Find(slices, newStatus.namespace).Some?
    {
      if slices[i].namespace == newStatus.namespace {
        result := result + [newStatus];
        found := true;
        continue;
      }
      result := result + [slices[i]];
    }
    if !found {
      assert slices[..|slices|] == slices;
      result := result + [newStatus];
    }
  }

  // ----- the conservation law -----

  ghost predicate DistinctNamespaces(slices: seq<Slice>) {
    forall i, j | 0 <= i < j < |slices| :: slices[i].namespace != slices[j].namespace
  }

  ghost function SliceSum(slices: seq<Slice>, k: ResourceName): int {
    Sum(slices, (s: Slice) => Amount(s.status.used, k))
  }

  /** Each namespace appears once, and resource by resource the slices add up to the total. */
  ghost predicate Conserved(aq: AccountQuota) {
    && DistinctNamespaces(aq.namespaces)
    && forall k :: SliceSum(aq.namespaces, k) == Amount(aq.total.used, k)
  }

  lemma {:induction false} FindIndex(slices: seq<Slice>, ns: string) returns (i: nat)
    ensures i <= |slices|
    ensures forall j | 0 <= j < i :: slices[j].namespace != ns
    ensures Find(slices, ns) == if i < |slices| then Some(slices[i].status) else None
    ensures i < |slices| ==> slices[i].namespace == ns
  {
    if slices == [] || slices[0].namespace == ns {
      i := 0;
    } else {
      var n := FindIndex(slices[1..], ns);
      i := n + 1;
    }
  }

  lemma {:induction false} FindAt(slices: seq<Slice>, ns: string, i: nat)
    requires i < |slices| && slices[i].namespace == ns
    requires forall j | 0 <= j < i :: slices[j].namespace != ns
    ensures Find(slices, ns) == Some(slices[i].status)
  {
    if i > 0 {
      FindAt(slices[1..], ns, i - 1);
    }
  }

  /** Inserting a slice changes what is found under its own namespace, and nothing else. */
  lemma InsertedFinds(slices: seq<Slice>, s: Slice, ns: string)
    requires DistinctNamespaces(slices)
    ensures DistinctNamespaces(Inserted(slices, s))
    ensures Find(Inserted(slices, s), ns) == if ns == s.namespace then Some(s.status) else Find(slices, ns)
    ensures forall k ::
      SliceSum(Inserted(slices, s), k)
        == SliceSum(slices, k) - SliceAmount(slices, s.namespace, k) + Amount(s.status.used, k)
  {
    var i := FindIndex(slices, s.namespace);
    var j := FindIndex(slices, ns);
    var after := Inserted(slices, s);
    if i < |slices| {
      assert after == slices[i := s];
      forall k
        ensures SliceSum(after, k)
          == SliceSum(slices, k) - SliceAmount(slices, s.namespace, k) + Amount(s.status.used, k)
      {
        SumReplace(slices, i, s, (x: Slice) => Amount(x.status.used, k));
      }
    } else {
      forall k
        ensures SliceSum(after, k)
          == SliceSum(slices, k) - SliceAmount(slices, s.namespace, k) + Amount(s.status.used, k)
      {
        SumAppend(slices, s, (x: Slice) => Amount(x.status.used, k));
      }
    }
    if j < |slices| {
      FindAt(after, ns, j);
    } else if ns == s.namespace {
      FindAt(after, ns, |slices|);
    } else {
      var n := FindIndex(after, ns);
    }
  }

  // ----- the status write -----

  function ToQuota(aq: AccountQuota, ns: string): Quota {
    Quota(aq.name, aq.version, ns, aq.scopes, aq.selectors, aq.total.hard, aq.total.used)
  }

  /**
   The object an admission write sends: the metadata (with the version) and the total usage are
   the new quota's, everything else is the base's, and the slice moves by the difference.
   */
  function Updated(base: AccountQuota, q: Quota): AccountQuota {
    var mine := StatusFor(base.namespaces, q.namespace);
    base.(
      name := q.name,
      version := q.version,
      total := base.total.(used := q.used),
      namespaces := Inserted(base.namespaces,
        Slice(q.namespace, mine.(used := Plus(mine.used, Minus(q.used, base.total.used))))))
  }

  /** The law survives the write, whichever version of the object the base is. */
  lemma UpdatedConserves(base: AccountQuota, q: Quota)
    requires Conserved(base)
    ensures Conserved(Updated(base, q))
  {
    var mine := StatusFor(base.namespaces, q.namespace);
    var s := Slice(q.namespace, mine.(used := Plus(mine.used, Minus(q.used, base.total.used))));
    InsertedFinds(base.namespaces, s, q.namespace);
    forall k ensures SliceSum(Updated(base, q).namespaces, k) == Amount(q.used, k) {
      assert Amount(Minus(q.used, base.total.used), k) == Amount(q.used, k) - Amount(base.total.used, k);
    }
  }

  // What one slice is after the write.
  lemma UpdatedSlice(base: AccountQuota, q: Quota, ns: string, k: ResourceName)
    requires DistinctNamespaces(base.namespaces)
    ensures SliceAmount(Updated(base, q).namespaces, ns, k)
      == SliceAmount(base.namespaces, ns, k)
       + if ns == q.namespace then Amount(q.used, k) - Amount(base.total.used, k) else 0
  {
    var mine := StatusFor(base.namespaces, q.namespace);
    var s := Slice(q.namespace, mine.(used := Plus(mine.used, Minus(q.used, base.total.used))));
    InsertedFinds(base.namespaces, s, ns);
    assert Amount(Minus(q.used, base.total.used), k) == Amount(q.used, k) - Amount(base.total.used, k);
  }

  ghost predicate ChargesOnly(stored: AccountQuota, written: AccountQuota, q: Quota) {
    forall ns, k :: SliceAmount(written.namespaces, ns, k)
      == SliceAmount(stored.namespaces, ns, k)
       + if ns == q.namespace then Amount(q.used, k) - Amount(stored.total.used, k) else 0
  }

  ghost predicate SameSlicesElsewhere(stored: AccountQuota, base: AccountQuota, q: Quota) {
    forall ns, k | ns != q.namespace :: SliceAmount(base.namespaces, ns, k) == SliceAmount(stored.namespaces, ns, k)
  }

  // Over any list of distinct names that covers the slices, the slices' sum is the sum by name.
  lemma {:induction false} SumByName(slices: seq<Slice>, names: seq<string>, k: ResourceName)
    requires DistinctNamespaces(slices) && Distinct(names)
    requires forall s | s in slices :: s.namespace in names
    ensures SliceSum(slices, k) == Sum(names, ns => SliceAmount(slices, ns, k))
  {
    if slices == [] {
      SumZero(names, ns => SliceAmount(slices, ns, k));
    } else {
      var rest, first := slices[1..], slices[0];
      SumByName(rest, names, k);
      var own := ns => if ns == first.namespace then Amount(first.status.used, k) else 0;
      SumOneHot(names, first.namespace, own);
      var i := FindIndex(rest, first.namespace);
      SumSplit(names, ns => SliceAmount(slices, ns, k), ns => SliceAmount(rest, ns, k), own);
    }
  }

  lemma {:induction false} CommonNames(a: seq<Slice>) returns (names: seq<string>)
    ensures Distinct(names)
    ensures forall s | s in a :: s.namespace in names
  {
    names := [];
    if a != [] {
      names := CommonNames(a[1..]);
      if a[0].namespace !in names {
        names := names + [a[0].namespace];
      }
    }
  }

  // With the other slices alike, the own slice lags behind the total equally far on both sides.
  lemma SameOwnLag(stored: AccountQuota, base: AccountQuota, q: Quota, k: ResourceName)
    requires Conserved(stored) && Conserved(base) && SameSlicesElsewhere(stored, base, q)
    ensures SliceAmount(base.namespaces, q.namespace, k) - Amount(base.total.used, k)
         == SliceAmount(stored.namespaces, q.namespace, k) - Amount(stored.total.used, k)
  {
    var names := CommonNames(stored.namespaces + base.namespaces);
    if q.namespace !in names {
      names := names + [q.namespace];
    }
    var f, g := ns => SliceAmount(stored.namespaces, ns, k), ns => SliceAmount(base.namespaces, ns, k);
    SumByName(stored.namespaces, names, k);
    SumByName(base.namespaces, names, k);
    var i :| 0 <= i < |names| && names[i] == q.namespace;
    SumRemove(names, i, f);
    SumRemove(names, i, g);
    var rest := names[..i] + names[i + 1..];
    forall n | n in rest ensures f(n) == g(n) {
      var j :| 0 <= j < |rest| && rest[j] == n;
      assert n == names[if j < i then j else j + 1];
    }
    SumEqual(rest, f, g);
  }

  /**
   The charge lands in the right slice, and only there, exactly when the base agrees with the
   store on the slices of all other namespaces.
   */
  lemma ChargesOnlyExactly(stored: AccountQuota, base: AccountQuota, q: Quota)
    requires Conserved(stored) && Conserved(base)
    ensures ChargesOnly(stored, Updated(base, q), q) <==> SameSlicesElsewhere(stored, base, q)
  {
    forall ns, k
      ensures SliceAmount(Updated(base, q).namespaces, ns, k)
        == SliceAmount(base.namespaces, ns, k)
         + if ns == q.namespace then Amount(q.used, k) - Amount(base.total.used, k) else 0
    {
      UpdatedSlice(base, q, ns, k);
    }
    if SameSlicesElsewhere(stored, base, q) {
      forall k { SameOwnLag(stored, base, q, k); }
    }
    if ChargesOnly(stored, Updated(base, q), q) {
      forall ns, k | ns != q.namespace
        ensures SliceAmount(base.namespaces, ns, k) == SliceAmount(stored.namespaces, ns, k)
      {
        assert SliceAmount(Updated(base, q).namespaces, ns, k) == SliceAmount(stored.namespaces, ns, k);
      }
    }
  }

  /** A base one version old puts the charge of another namespace into this one's slice. */
  lemma StaleBaseMisattributes()
    ensures exists stored: AccountQuota, base: AccountQuota, q: Quota ::
      && Conserved(stored) && Conserved(base) && base.version < stored.version
      && q.(used := stored.total.used) == ToQuota(stored, q.namespace)
      && !ChargesOnly(stored, Updated(base, q), q)
  {
    var base := AccountQuota("q", 0, "", [], [], map[], Status(map[], map[]), []);
    var stored := base.(
      version := 1, total := Status(map[], map["pods" := 5]),
      namespaces := [Slice("a", Status(map[], map["pods" := 5]))]);
    var q := ToQuota(stored, "b").(used := map["pods" := 7]);
    assert Conserved(base);
    forall k ensures SliceSum(stored.namespaces, k) == Amount(stored.total.used, k) {
      assert stored.namespaces[1..] == [];
    }
    UpdatedSlice(base, q, "a", "pods");
    assert SliceAmount(stored.namespaces, "a", "pods") == 5;
  }
}
