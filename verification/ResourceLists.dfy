/**
 Quantities per resource name, the arithmetic every part of the quota system shares.
 A quantity is an exact integer; a name that is absent counts as zero in sums, but
 presence is tracked, because the admission check refuses quotas without usage numbers.
 */
module ResourceLists {
  import opened Names

  type ResourceName = string

  type ResourceList = map<ResourceName, int>

  function Amount(a: ResourceList, name: ResourceName): int {
    if name in a then a[name] else 0
  }

  function Plus(a: ResourceList, b: ResourceList): ResourceList {
    map k | k in a.Keys + b.Keys :: Amount(a, k) + Amount(b, k)
  }

  function Minus(a: ResourceList, b: ResourceList): ResourceList {
    map k | k in a.Keys + b.Keys :: Amount(a, k) - Amount(b, k)
  }

  function Positive(x: int): int {
    if x > 0 then x else 0
  }

  // Subtraction for charges: never negative, and a name only in b is a plain zero.
  function Monus(a: ResourceList, b: ResourceList): ResourceList {
    map k | k in a.Keys + b.Keys :: if k in a then Positive(a[k] - Amount(b, k)) else 0
  }

  function Larger(a: ResourceList, b: ResourceList): ResourceList {
    map k | k in a.Keys + b.Keys ::
      if k !in b then a[k] else if k !in a then b[k] else if a[k] <= b[k] then b[k] else a[k]
  }

  function Only(a: ResourceList, names: set<ResourceName>): ResourceList {
    map k | k in a && k in names :: a[k]
  }

  predicate Nonnegative(a: ResourceList) {
    forall k | k in a :: a[k] >= 0
  }

  // Every name that both lists mention stays within the second list's value.
  predicate Within(a: ResourceList, b: ResourceList) {
    forall k | k in a && k in b :: a[k] <= b[k]
  }

  // ----- laws of the arithmetic -----

  lemma PlusAssociates(a: ResourceList, b: ResourceList, c: ResourceList)
    ensures Plus(Plus(a, b), c) == Plus(a, Plus(b, c))
  {
    var l, r := Plus(Plus(a, b), c), Plus(a, Plus(b, c));
    assert l.Keys == r.Keys;
    forall k | k in l ensures l[k] == r[k] {
      assert Amount(Plus(a, b), k) == Amount(a, k) + Amount(b, k);
      assert Amount(Plus(b, c), k) == Amount(b, k) + Amount(c, k);
    }
  }

  lemma PlusCommutes(a: ResourceList, b: ResourceList)
    ensures Plus(a, b) == Plus(b, a)
  {
  }

  /** The order in which usages are added never matters, not even for which names are present. */
  lemma PlusLaws(a: ResourceList, b: ResourceList, c: ResourceList)
    ensures Plus(a, b) == Plus(b, a)
    ensures Plus(Plus(a, b), c) == Plus(a, Plus(b, c))
    ensures Plus(a, map[]) == a
  {
    PlusCommutes(a, b);
    PlusAssociates(a, b, c);
  }

  /** Charging the larger part and then giving back exactly what was there restores the target. */
  lemma MinusThenPlus(a: ResourceList, b: ResourceList, name: ResourceName)
    ensures Amount(Plus(b, Minus(a, b)), name) == Amount(a, name)
    ensures Nonnegative(Monus(a, b))
    ensures Nonnegative(b) ==>
      Amount(Plus(b, Monus(a, b)), name)
        == if Amount(a, name) >= Amount(b, name) then Amount(a, name) else Amount(b, name)
  {
    assert Amount(Minus(a, b), name) == Amount(a, name) - Amount(b, name);
  }

  // ----- the operations, each a pass over a Go map in an arbitrary order -----

  method Equals(a: ResourceList, b: ResourceList) returns (equal: bool)
    ensures equal <==> a == b
  {
    if |a| != |b| {
      return false;
    }
    var keys := a.Keys;
    while keys != {}
      invariant keys <= a.Keys
      invariant forall k | k in a.Keys - keys :: k in b && a[k] == b[k]
      decreases keys
    {
      var key :| key in keys;
      if key !in b || a[key] != b[key] {
        return false;
      }
      keys := keys - {key};
    }
    assert a.Keys <= b.Keys && |a.Keys| == |b.Keys|;
    SubsetOfEqualSize(a.Keys, b.Keys);
    return true;
  }

  lemma SubsetOfEqualSize<T>(a: set<T>, b: set<T>)
    requires a <= b && |a| == |b|
    ensures a == b
  {
    assert |b - a| == |b| - |a|;
  }

  method LessThanOrEqual(a: ResourceList, b: ResourceList) returns (result: bool, exceeded: seq<ResourceName>)
    ensures result <==> Within(a, b)
    ensures forall k :: k in exceeded <==> k in a && k in b && a[k] > b[k]
  {
    result, exceeded := true, [];
    var keys := b.Keys;
    while keys != {}
      invariant keys <= b.Keys
      invariant result <==> exceeded == []
      invariant forall k :: k in exceeded <==> k in b.Keys - keys && k in a && a[k] > b[k]
      decreases keys
    {
      var key :| key in keys;
      if key in a && a[key] > b[key] {
        result := false;
        exceeded := exceeded + [key];
      }
      keys := keys - {key};
    }
    if !result {
      assert exceeded[0] in exceeded;
    }
  }

  method Max(a: ResourceList, b: ResourceList) returns (result: ResourceList)
    ensures result == Larger(a, b)
  {
    result := map[];
    var keys := a.Keys;
    while keys != {}
      invariant keys <= a.Keys
      invariant result == map k | k in a.Keys - keys :: Larger(a, b)[k]
      decreases keys
    {
      var key :| key in keys;
      keys := keys - {key};
      if key in b && a[key] <= b[key] {
        result := result[key := b[key]];
      } else {
        result := result[key := a[key]];
      }
    }
    result := FillIn(result, b);
  }

  // The second loop of Max, Add and, with other values, of the subtractions.
  method FillIn(start: ResourceList, b: ResourceList) returns (result: ResourceList)
    ensures result == b + start
  {
    result := start;
    var keys := b.Keys;
    while keys != {}
      invariant keys <= b.Keys
      invariant result == (map k | k in b.Keys - keys :: b[k]) + start
      decreases keys
    {
      var key :| key in keys;
      keys := keys - {key};
      if key !in result {
        result := result[key := b[key]];
      }
    }
  }

  method Add(a: ResourceList, b: ResourceList) returns (result: ResourceList)
    ensures result == Plus(a, b)
  {
    result := map[];
    var keys := a.Keys;
    while keys != {}
      invariant keys <= a.Keys
      invariant result == map k | k in a.Keys - keys :: a[k] + Amount(b, k)
      decreases keys
    {
      var key :| key in keys;
      keys := keys - {key};
      var quantity := a[key];
      if key in b {
        quantity := quantity + b[key];
      }
      result := result[key := quantity];
    }
    result := FillIn(result, b);
  }

  method Subtract(a: ResourceList, b: ResourceList) returns (result: ResourceList)
    ensures result == Minus(a, b)
  {
    result := map[];
    var keys := a.Keys;
    while keys != {}
      invariant keys <= a.Keys
      invariant result == map k | k in a.Keys - keys :: a[k] - Amount(b, k)
      decreases keys
    {
      var key :| key in keys;
      keys := keys - {key};
      var quantity := a[key];
      if key in b {
        quantity := quantity - b[key];
      }
      result := result[key := quantity];
    }
    result := FillIn(result, map k | k in b :: -b[k]);
  }

  method SubtractWithNonNegativeResult(a: ResourceList, b: ResourceList) returns (result: ResourceList)
    ensures result == Monus(a, b)
  {
    result := map[];
    var keys := a.Keys;
    while keys != {}
      invariant keys <= a.Keys
      invariant result == map k | k in a.Keys - keys :: Positive(a[k] - Amount(b, k))
      decreases keys
    {
      var key :| key in keys;
      keys := keys - {key};
      var quantity := a[key];
      if key in b {
        quantity := quantity - b[key];
      }
      result := result[key := if quantity > 0 then quantity else 0];
    }
    var zeros := map k | k in b :: 0;
    result := FillIn(result, zeros);
  }

  method Mask(resources: ResourceList, names: seq<ResourceName>) returns (result: ResourceList)
    ensures result == Only(resources, NameSet(names))
  {
    result := map[];
    var keys := resources.Keys;
    while keys != {}
      invariant keys <= resources.Keys
      invariant result == map k | k in resources.Keys - keys && k in names :: resources[k]
      decreases keys
    {
      var key :| key in keys;
      keys := keys - {key};
      if key in names {
        result := result[key := resources[key]];
      }
    }
  }

  function NameSet(names: seq<ResourceName>): set<ResourceName> {
    set n | n in names
  }

  lemma NameSetAppend(names: seq<ResourceName>, n: ResourceName)
    ensures NameSet(names + [n]) == NameSet(names) + {n}
  {
    assert forall x :: x in names + [n] <==> x in names || x == n;
  }

  method ResourceNames(resources: ResourceList) returns (names: seq<ResourceName>)
    ensures Distinct(names)
    ensures NameSet(names) == resources.Keys
  {
    names := [];
    var keys := resources.Keys;
    while keys != {}
      invariant keys <= resources.Keys
      invariant Distinct(names)
      invariant NameSet(names) == resources.Keys - keys
      decreases keys
    {
      var key :| key in keys;
      assert key !in NameSet(names);
      NameSetAppend(names, key);
      names := names + [key];
      keys := keys - {key};
    }
  }

  // "deduped and sorted": the names of `a` that pass, each once, in increasing order
  method Intersection(a: seq<ResourceName>, b: seq<ResourceName>) returns (result: seq<ResourceName>)
    ensures StrictlySorted(result)
    ensures NameSet(result) == NameSet(a) * NameSet(b)
  {
    result := [];
    for i := 0 to |a|
      invariant Distinct(result)
      invariant NameSet(result) == NameSet(a[..i]) * NameSet(b)
    {
      assert a[..i + 1] == a[..i] + [a[i]];
      NameSetAppend(a[..i], a[i]);
      if a[i] in result || a[i] !in b {
        continue;
      }
      assert a[i] !in NameSet(result);
      NameSetAppend(result, a[i]);
      result := result + [a[i]];
    }
    assert a[..|a|] == a;
    SortDistinct(result);
    result := Sort(result, (n: string) => n);
  }

  method Difference(a: seq<ResourceName>, b: seq<ResourceName>) returns (result: seq<ResourceName>)
    ensures StrictlySorted(result)
    ensures NameSet(result) == NameSet(a) - NameSet(b)
  {
    result := [];
    for i := 0 to |a|
      invariant Distinct(result)
      invariant NameSet(result) == NameSet(a[..i]) - NameSet(b)
    {
      assert a[..i + 1] == a[..i] + [a[i]];
      NameSetAppend(a[..i], a[i]);
      if a[i] in b || a[i] in result {
        continue;
      }
      assert a[i] !in NameSet(result);
      NameSetAppend(result, a[i]);
      result := result + [a[i]];
    }
    assert a[..|a|] == a;
    SortDistinct(result);
    result := Sort(result, (n: string) => n);
  }

  method IsZero(a: ResourceList) returns (zero: bool)
    ensures zero <==> forall k | k in a :: a[k] == 0
  {
    var keys := a.Keys;
    while keys != {}
      invariant keys <= a.Keys
      invariant forall k | k in a.Keys - keys :: a[k] == 0
      decreases keys
    {
      var key :| key in keys;
      if a[key] != 0 {
        return false;
      }
      keys := keys - {key};
    }
    return true;
  }

  method IsNegative(a: ResourceList) returns (names: seq<ResourceName>)
    ensures NameSet(names) == set k | k in a && a[k] < 0
    ensures names == [] <==> Nonnegative(a)
  {
    names := [];
    var keys := a.Keys;
    while keys != {}
      invariant keys <= a.Keys
      invariant NameSet(names) == set k | k in a.Keys - keys && a[k] < 0
      decreases keys
    {
      var key :| key in keys;
      if a[key] < 0 {
        NameSetAppend(names, key);
        names := names + [key];
      }
      keys := keys - {key};
    }
    if names != [] {
      assert names[0] in NameSet(names);
    } else {
      forall k | k in a ensures a[k] >= 0 {
        assert k !in NameSet(names);
      }
    }
  }
}
