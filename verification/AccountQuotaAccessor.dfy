/** The accessor object: reads through an informer and its look-aside cache, writes to the store. */
module AccountQuotaAccessor {
  import opened ResourceLists
  import opened Objects
  import opened Admission
  import opened AccountQuotas

  // The status subresource: metadata and spec of the stored object stay.
  function Accepted(stored: AccountQuota, sent: AccountQuota): AccountQuota {
    stored.(version := stored.version + 1, total := sent.total, namespaces := sent.namespaces)
  }

  ghost predicate WellKeyed(m: map<string, AccountQuota>) {
    forall n | n in m :: m[n].name == n
  }

  ghost predicate OncePerName(aqs: seq<AccountQuota>) {
    forall i, j | 0 <= i < j < |aqs| :: aqs[i].name != aqs[j].name
  }

  // Whether the informer knows a quota of the account under this name.
  ghost predicate OfAccount(informer: map<string, AccountQuota>, account: string, n: string) {
    n in informer && informer[n].account == account
  }

  /** The API server with the informer through which its objects are read, possibly late. */
  class Client {
    var stored: map<string, AccountQuota>
    var informer: map<string, AccountQuota>

    method Get(name: string) returns (aq: Option<AccountQuota>)
      ensures aq == if name in informer then Some(informer[name]) else None
    {
      return if name in informer then Some(informer[name]) else None;
    }

    // The quotas of an account, each once, in some order.
    method List(account: string) returns (aqs: seq<AccountQuota>)
      requires WellKeyed(informer)
      ensures OncePerName(aqs)
      ensures forall aq :: aq in aqs <==> aq.name in informer && aq == informer[aq.name] && aq.account == account
    {
      aqs := [];
      var keys := informer.Keys;
      while keys != {}
        invariant keys <= informer.Keys
        invariant OncePerName(aqs)
        invariant forall aq ::
          aq in aqs <==> aq.name in informer.Keys - keys && aq == informer[aq.name] && aq.account == account
        decreases keys
      {
        var n :| n in keys;
        assert forall aq | aq in aqs :: aq.name != n;
        if informer[n].account == account {
          aqs := aqs + [informer[n]];
        }
        keys := keys - {n};
      }
    }

    // Optimistic concurrency: only the stored version may be replaced. Returns the new object.
    method UpdateStatus(sent: AccountQuota) returns (result: Option<AccountQuota>)
      modifies this
      ensures informer == old(informer)
      ensures result.Some? <==> sent.name in old(stored) && old(stored)[sent.name].version == sent.version
      ensures result.Some? ==> result.value == Accepted(old(stored)[sent.name], sent)
      ensures stored == if result.Some? then old(stored)[sent.name := result.value] else old(stored)
    {
      if sent.name !in stored || stored[sent.name].version != sent.version {
        return None;
      }
      result := Some(Accepted(stored[sent.name], sent));
      stored := stored[sent.name := result.value];
    }
  }

  // What the look-aside cache makes of an object that was read.
  function Fresher(updated: map<string, AccountQuota>, aq: AccountQuota): AccountQuota {
    if aq.name in updated && aq.version < updated[aq.name].version then updated[aq.name] else aq
  }

  function Expired(updated: map<string, AccountQuota>, aq: AccountQuota): map<string, AccountQuota> {
    if aq.name in updated && aq.version >= updated[aq.name].version then updated - {aq.name} else updated
  }

  // One poll for the namespace of a request and the quotas of its account.
  datatype Poll = NotFound | Failed | Labelled(account: string, listFails: bool)

  // None: an error, or the namespace never appeared. Some(""): the namespace has no account.
  function PolledAccount(polls: seq<Poll>): Option<string> {
    if polls == [] then None
    else match polls[0]
      case NotFound => PolledAccount(polls[1..])
      case Failed => None
      case Labelled(account, listFails) => if account != "" && listFails then None else Some(account)
  }

  lemma {:induction false} PolledMeans(polls: seq<Poll>)
    ensures forall i, a, listFails |
      && 0 <= i < |polls| && polls[i] == Labelled(a, listFails)
      && (forall j | 0 <= j < i :: polls[j] == NotFound) ::
      PolledAccount(polls) == if a != "" && listFails then None else Some(a)
    ensures (forall i | 0 <= i < |polls| && polls[i].Labelled? :: exists j :: 0 <= j < i && polls[j] == Failed) ==>
      PolledAccount(polls) == None
  {
    if polls != [] && polls[0].NotFound? {
      var rest := polls[1..];
      PolledMeans(rest);
      assert forall i | 0 <= i < |rest| :: rest[i] == polls[i + 1];
      forall i | 0 <= i < |rest| && rest[i].Labelled?
                 && (exists j :: 0 <= j < i + 1 && polls[j] == Failed)
        ensures exists j :: 0 <= j < i && rest[j] == Failed
      {
        var j :| 0 <= j < i + 1 && polls[j] == Failed;
        assert rest[j - 1] == Failed;
      }
    }
  }

  class Accessor {
    const client: Client
    var updatedAccountQuotas: map<string, AccountQuota>

    constructor (client: Client)
      ensures this.client == client && updatedAccountQuotas == map[]
    {
      this.client := client;
      updatedAccountQuotas := map[];
    }

    ghost predicate Valid()
      reads this, client
    {
      WellKeyed(client.stored) && WellKeyed(client.informer) && WellKeyed(updatedAccountQuotas)
    }

    /**
     Whichever of the read and the cached object has the larger version, the read one if both have
     the same; the cache entry goes exactly when the read object is at least as new.
     */
    method CheckCache(aq: AccountQuota) returns (newer: AccountQuota)
      modifies this
      ensures newer == Fresher(old(updatedAccountQuotas), aq)
      ensures aq.name !in old(updatedAccountQuotas) ==> newer == aq && updatedAccountQuotas == old(updatedAccountQuotas)
      ensures aq.name in old(updatedAccountQuotas) ==>
        var cached := old(updatedAccountQuotas)[aq.name];
        && newer in {aq, cached} && newer.version >= aq.version && newer.version >= cached.version
        && (aq.version >= cached.version ==>
              newer == aq && updatedAccountQuotas == old(updatedAccountQuotas) - {aq.name})
        && (aq.version < cached.version ==> updatedAccountQuotas == old(updatedAccountQuotas))
      ensures updatedAccountQuotas == Expired(old(updatedAccountQuotas), aq)
    {
      if aq.name !in updatedAccountQuotas {
        return aq;
      }
      var cached := updatedAccountQuotas[aq.name];
      if aq.version >= cached.version {
        updatedAccountQuotas := updatedAccountQuotas - {aq.name};
        return aq;
      }
      return cached;
    }

    /**
     Writes the new totals over the freshest object known. It succeeds exactly when the new quota
     carries the stored version; then the result is also remembered for the next read.
     */
    method UpdateQuotaStatus(newQuota: Quota) returns (ok: bool)
      requires Valid()
      modifies this, client
      ensures Valid() && client.informer == old(client.informer)
      ensures ok <==>
        && newQuota.name in client.informer
        && newQuota.name in old(client.stored)
        && old(client.stored)[newQuota.name].version == newQuota.version
      ensures !ok ==> client.stored == old(client.stored)
      ensures ok ==>
        var base := Fresher(old(updatedAccountQuotas), client.informer[newQuota.name]);
        var result := Accepted(old(client.stored)[newQuota.name], Updated(base, newQuota));
        && client.stored == old(client.stored)[newQuota.name := result]
        && updatedAccountQuotas == old(updatedAccountQuotas)[newQuota.name := result]
    {
      var found := client.Get(newQuota.name);
      if found.None? {
        return false;
      }
      var base := CheckCache(found.value);
      var usageDiff := Subtract(newQuota.used, base.total.used);
      var oldTotals, _ := GetResourceQuotasStatusByNamespace(base.namespaces, newQuota.namespace);
      var newUsed := Add(oldTotals.used, usageDiff);
      var slice := Slice(newQuota.namespace, oldTotals.(used := newUsed));
      var namespaces := InsertResourceQuotasStatus(base.namespaces, slice);
      var sent := base.(name := newQuota.name, version := newQuota.version,
                        total := base.total.(used := newQuota.used), namespaces := namespaces);
      assert sent == Updated(base, newQuota);
      var result := client.UpdateStatus(sent);
      if result.None? {
        return false;
      }
      updatedAccountQuotas := updatedAccountQuotas[sent.name := result.value];
      return true;
    }

    // The first poll that is not a missing namespace decides.
    method WaitForAccount(polls: seq<Poll>) returns (account: Option<string>)
      ensures account == PolledAccount(polls)
      ensures forall i, a, listFails |
        && 0 <= i < |polls| && polls[i] == Labelled(a, listFails)
        && (forall j | 0 <= j < i :: polls[j] == NotFound) ::
        account == if a != "" && listFails then None else Some(a)
      ensures (forall i | 0 <= i < |polls| && polls[i].Labelled? :: exists j :: 0 <= j < i && polls[j] == Failed) ==>
        account == None
    {
      PolledMeans(polls);
      for i := 0 to |polls|
        invariant PolledAccount(polls) == PolledAccount(polls[i..])
      {
        match polls[i] {
          case NotFound =>
          case Failed => return None;
          case Labelled(a, listFails) =>
            return if a != "" && listFails then None else Some(a);
        }
      }
      return None;
    }

    /** Every quota of the namespace's account once, each as fresh as the informer and the cache know it. */
    method GetQuotas(namespaceName: string, polls: seq<Poll>) returns (quotas: Option<seq<Quota>>)
      requires Valid()
      modifies this
      ensures Valid()
      ensures quotas.None? <==> PolledAccount(polls).None?
      ensures PolledAccount(polls) == Some("") ==> quotas == Some([])
      ensures quotas.Some? && PolledAccount(polls) != Some("") ==>
        && (forall i, j | 0 <= i < j < |quotas.value| :: quotas.value[i].name != quotas.value[j].name)
        && (forall q | q in quotas.value ::
              && OfAccount(client.informer, PolledAccount(polls).value, q.name)
              && var aq := Fresher(old(updatedAccountQuotas), client.informer[q.name]);
                 q == Quota(aq.name, aq.version, namespaceName, aq.scopes, aq.selectors, aq.total.hard, aq.total.used))
        && (forall n | OfAccount(client.informer, PolledAccount(polls).value, n) ::
              exists q :: q in quotas.value && q.name == n)
    {
      var account := WaitForAccount(polls);
      if account.None? {
        return None;
      }
      if account.value == "" {
        return Some([]);
      }
      var aqs := client.List(account.value);
      var resourceQuotas: seq<Quota> := [];
      for i := 0 to |aqs|
        invariant Valid()
        invariant |resourceQuotas| == i
        invariant forall j | 0 <= j < i ::
          resourceQuotas[j] == ToQuota(Fresher(old(updatedAccountQuotas), aqs[j]), namespaceName)
        invariant forall j | i <= j < |aqs| ::
          Fresher(updatedAccountQuotas, aqs[j]) == Fresher(old(updatedAccountQuotas), aqs[j])
      {
        var accountQuota := CheckCache(aqs[i]);
        resourceQuotas := resourceQuotas + [ToQuota(accountQuota, namespaceName)];
      }
      Converted(client.informer, old(updatedAccountQuotas), account.value, aqs, resourceQuotas, namespaceName);
      return Some(resourceQuotas);
    }
  }

  /**
   What an accessor wrote it reads back, by UpdateQuotaStatus and GetQuotas: after a successful write
   of a quota, and as long as the informer is behind it, every read finds the written usage under the
   version after the one written over, and the cache keeps it.
   */
  lemma ReadsOwnWrite(stored: AccountQuota, base: AccountQuota, updated: map<string, AccountQuota>, q: Quota,
                      later: AccountQuota, ns: string)
    requires stored.version == q.version && stored.name == q.name && later.name == q.name
    ensures var result := Accepted(stored, Updated(base, q));
      var updated' := updated[q.name := result];
      var read := ToQuota(Fresher(updated', later), ns);
      && (later.version <= stored.version ==>
            && read.name == q.name && read.version == stored.version + 1 && read.used == q.used
            && Expired(updated', later) == updated')
      && (later.version > stored.version ==>
            read == ToQuota(later, ns) && q.name !in Expired(updated', later))
  {
  }

  // The converted list has one quota for each object, under its name.
  lemma Converted(informer: map<string, AccountQuota>, updated: map<string, AccountQuota>, account: string,
                  aqs: seq<AccountQuota>, quotas: seq<Quota>, ns: string)
    requires WellKeyed(informer) && WellKeyed(updated) && OncePerName(aqs) && |quotas| == |aqs|
    requires forall aq :: aq in aqs <==> aq.name in informer && aq == informer[aq.name] && aq.account == account
    requires forall i | 0 <= i < |aqs| :: quotas[i] == ToQuota(Fresher(updated, aqs[i]), ns)
    ensures forall i, j | 0 <= i < j < |quotas| :: quotas[i].name != quotas[j].name
    ensures forall q | q in quotas ::
      OfAccount(informer, account, q.name) && q == ToQuota(Fresher(updated, informer[q.name]), ns)
    ensures forall n | OfAccount(informer, account, n) :: exists q :: q in quotas && q.name == n
  {
    forall i | 0 <= i < |aqs| ensures quotas[i].name == aqs[i].name && aqs[i] in aqs {}
    forall n | OfAccount(informer, account, n) ensures exists q :: q in quotas && q.name == n {
      assert informer[n] in aqs;
      var i :| 0 <= i < |aqs| && aqs[i] == informer[n];
      assert quotas[i] in quotas && quotas[i].name == n;
    }
  }
}
