/** The set of resource monitors behind the resync controller, rebuilt whenever discovery changes. */
module Monitors {
  import opened Objects

  datatype GroupVersionResource = GroupVersionResource(groupResource: GroupResource, version: string)

  // Stop channels are numbered in the order in which they are made.
  type Channel = nat

  // Not started yet while it has no stop channel.
  datatype Monitor = Monitor(stopCh: Option<Channel>)

  type MonitorMap = map<GroupVersionResource, Monitor>

  predicate Owned(ms: MonitorMap, c: Channel) {
    exists r | r in ms :: ms[r].stopCh == Some(c)
  }

  function GroupsOf(rs: set<GroupVersionResource>): set<GroupResource> {
    set r | r in rs :: r.groupResource
  }

  class QuotaMonitor {
    var monitors: MonitorMap
    var running: bool
    const ignoredResources: set<GroupResource>
    var evaluators: set<GroupResource>    // the kinds the registry has an evaluator for
    var made: nat                         // how many stop channels there have been
    ghost var closed: multiset<Channel>   // every close of a stop channel

    constructor (ignored: set<GroupResource>, evaluators: set<GroupResource>)
      ensures Valid() && monitors == map[] && !running && made == 0 && closed == multiset{}
      ensures ignoredResources == ignored && this.evaluators == evaluators
    {
      monitors, running := map[], false;
      ignoredResources := ignored;
      this.evaluators := evaluators;
      made, closed := 0, multiset{};
    }

    /**
     Monitors do not share channels; a channel is closed at most once, and it is open exactly as
     long as a current monitor owns it; every monitored resource has an evaluator.
     */
    ghost predicate Valid()
      reads this
    {
      && (forall a, b | a in monitors && b in monitors && a != b && monitors[a].stopCh.Some? ::
            monitors[a].stopCh != monitors[b].stopCh)
      && (forall r | r in monitors && monitors[r].stopCh.Some? :: monitors[r].stopCh.value < made)
      && (forall c: Channel :: closed[c] == if c < made && !Owned(monitors, c) then 1 else 0)
      && (forall r | r in monitors :: r.groupResource in evaluators && r.groupResource !in ignoredResources)
    }

    // Asked for, not ignored, and either monitored already or watchable.
    predicate Wanted(before: MonitorMap, noController: set<GroupVersionResource>, r: GroupVersionResource) {
      r.groupResource !in ignoredResources && (r in before || r !in noController)
    }

    // A resource whose monitor could not be set up.
    predicate Unwatchable(before: MonitorMap, noController: set<GroupVersionResource>, r: GroupVersionResource) {
      r.groupResource !in ignoredResources && r !in before && r in noController
    }

    // What a sync makes of the monitors: the wanted ones, a new one not started.
    function Synced(before: MonitorMap, resources: set<GroupVersionResource>,
                    noController: set<GroupVersionResource>): MonitorMap {
      map r | r in resources && Wanted(before, noController, r) :: if r in before then before[r] else Monitor(None)
    }

    lemma OneMoreSynced(before: MonitorMap, done: set<GroupVersionResource>,
                        noController: set<GroupVersionResource>, r: GroupVersionResource)
      ensures Synced(before, done + {r}, noController) ==
        if Wanted(before, noController, r)
        then Synced(before, done, noController)[r := if r in before then before[r] else Monitor(None)]
        else Synced(before, done, noController)
    {
    }

    // The first loop of SyncMonitors: what stays or is new, and what is left over.
    method Divide(resources: set<GroupVersionResource>, noController: set<GroupVersionResource>)
      returns (current: MonitorMap, toRemove: MonitorMap, errors: nat)
      modifies this`evaluators
      ensures current == Synced(monitors, resources, noController)
      ensures toRemove == monitors - current.Keys
      ensures evaluators == old(evaluators) + GroupsOf(current.Keys - monitors.Keys)
      ensures errors > 0 <==> exists r :: r in resources && Unwatchable(monitors, noController, r)
    {
      current, toRemove, errors := map[], monitors, 0;
      var todo := resources;
      while todo != {}
        invariant todo <= resources
        invariant current == Synced(monitors, resources - todo, noController)
        invariant toRemove == monitors - current.Keys
        invariant evaluators == old(evaluators) + GroupsOf(current.Keys - monitors.Keys)
        invariant errors > 0 <==> exists r :: r in resources - todo && Unwatchable(monitors, noController, r)
        decreases todo
      {
        var resource :| resource in todo;
        assert resources - (todo - {resource}) == (resources - todo) + {resource};
        OneMoreSynced(monitors, resources - todo, noController, resource);
        todo := todo - {resource};
        if resource.groupResource in ignoredResources {
          continue;
        }
        if resource in toRemove {
          current := current[resource := toRemove[resource]];
          toRemove := toRemove - {resource};
          continue;
        }
        if resource in noController {
          assert Unwatchable(monitors, noController, resource) && resource in resources - todo;
          errors := errors + 1;
          continue;
        }
        if resource.groupResource !in evaluators {
          evaluators := evaluators + {resource.groupResource};
        }
        current := current[resource := Monitor(None)];
      }
      assert resources - {} == resources;
    }

    // The second loop: the left-over monitors are stopped.
    method Stop(toRemove: MonitorMap)
      requires forall a, b | a in toRemove && b in toRemove && a != b && toRemove[a].stopCh.Some? ::
        toRemove[a].stopCh != toRemove[b].stopCh
      modifies this`closed
      ensures forall c: Channel :: closed[c] == old(closed)[c] + (if Owned(toRemove, c) then 1 else 0)
    {
      var left := toRemove.Keys;
      while left != {}
        invariant left <= toRemove.Keys
        invariant forall c: Channel :: closed[c] == old(closed)[c] + (if Owned(toRemove - left, c) then 1 else 0)
        decreases left
      {
        var resource :| resource in left;
        OwnedOneMore(toRemove, left, resource);
        if toRemove[resource].stopCh.Some? {
          closed := closed + multiset{toRemove[resource].stopCh.value};
        }
        left := left - {resource};
      }
      assert toRemove - {} == toRemove;
    }

    /**
     Afterwards exactly the wanted resources are monitored, kept ones as they were and new ones
     not started; the channels of dropped monitors, and no others, are closed.
     */
    method SyncMonitors(resources: set<GroupVersionResource>, noController: set<GroupVersionResource>)
      returns (errors: nat)
      requires Valid()
      modifies this
      ensures Valid() && running == old(running) && made == old(made)
      ensures forall r :: r in monitors <==>
        r in resources && r.groupResource !in ignoredResources && (r in old(monitors) || r !in noController)
      ensures forall r | r in monitors :: monitors[r] == if r in old(monitors) then old(monitors)[r] else Monitor(None)
      ensures forall g :: g in evaluators <==>
        g in old(evaluators) || exists r :: r in monitors && r !in old(monitors) && r.groupResource == g
      ensures forall c: Channel ::
        if exists r :: r in old(monitors) && r !in monitors && old(monitors)[r].stopCh == Some(c)
        then closed[c] == old(closed)[c] + 1
        else closed[c] == old(closed)[c]
      ensures errors > 0 <==> exists r ::
        r in resources && r.groupResource !in ignoredResources && r !in old(monitors) && r in noController
    {
      var current, toRemove;
      current, toRemove, errors := Divide(resources, noController);
      forall c: Channel ensures Owned(monitors, c) <==> Owned(current, c) || Owned(toRemove, c) {
        OwnedSplits(monitors, current, toRemove, c);
      }
      forall c: Channel ensures !(Owned(current, c) && Owned(toRemove, c)) {}
      ghost var before := monitors;
      monitors := current;
      Stop(toRemove);
      forall c: Channel
        ensures Owned(toRemove, c) <==> exists r :: r in before && r !in monitors && before[r].stopCh == Some(c)
      {
        if r :| r in before && r !in monitors && before[r].stopCh == Some(c) {
          assert r in toRemove && toRemove[r].stopCh == Some(c);
        }
      }
    }

    /** While running, afterwards every current monitor is started, and those that were keep their channel. */
    method StartMonitors()
      requires Valid()
      modifies this`made, this`monitors
      ensures Valid() && monitors.Keys == old(monitors.Keys)
      ensures running ==> forall r | r in monitors :: monitors[r].stopCh.Some?
      ensures forall r | r in monitors && (old(monitors)[r].stopCh.Some? || !running) :: monitors[r] == old(monitors)[r]
      ensures !running ==> made == old(made)
    {
      hide Owned;
      if !running {
        return;
      }
      var keys := monitors.Keys;
      while keys != {}
        invariant keys <= monitors.Keys == old(monitors.Keys)
        invariant Valid()
        invariant forall r | r in monitors && r !in keys :: monitors[r].stopCh.Some?
        invariant forall r | r in monitors && old(monitors)[r].stopCh.Some? :: monitors[r] == old(monitors)[r]
        decreases keys
      {
        var r :| r in keys;
        keys := keys - {r};
        if monitors[r].stopCh == None {
          Start(r);
        }
      }
    }

    // A new stop channel, and the start of one monitor.
    method Start(r: GroupVersionResource)
      requires Valid() && r in monitors && monitors[r].stopCh == None
      modifies this`made, this`monitors
      ensures Valid() && monitors == old(monitors)[r := Monitor(Some(old(made)))] && made == old(made) + 1
    {
      ghost var before := monitors;
      monitors := monitors[r := Monitor(Some(made))];
      made := made + 1;
      forall c: Channel ensures Owned(monitors, c) <==> Owned(before, c) || c == made - 1 {
        if o :| o in before && before[o].stopCh == Some(c) { assert monitors[o].stopCh == Some(c); }
        assert monitors[r].stopCh == Some(made - 1);
      }
    }

    /** Run makes starting possible and starts what is there. */
    method Run()
      requires Valid()
      modifies this
      ensures Valid() && running && monitors.Keys == old(monitors.Keys)
      ensures forall r | r in monitors :: monitors[r].stopCh.Some?
    {
      running := true;
      StartMonitors();
    }
  }

  /**
   What every method keeps: no channel is closed twice, a channel that was made is open exactly as
   long as a monitor has it, no two monitors share one, and what is monitored has an evaluator.
   */
  lemma ChannelsKept(m: QuotaMonitor, c: Channel)
    requires m.Valid()
    ensures m.closed[c] <= 1
    ensures m.closed[c] == 0 <==> c >= m.made || exists r :: r in m.monitors && m.monitors[r].stopCh == Some(c)
    ensures forall a, b | a in m.monitors && b in m.monitors && a != b && m.monitors[a].stopCh == Some(c) ::
      m.monitors[b].stopCh != Some(c)
    ensures forall r | r in m.monitors :: m.monitors[r].stopCh == Some(c) ==> c < m.made
    ensures forall r | r in m.monitors :: r.groupResource in m.evaluators && r.groupResource !in m.ignoredResources
  {
  }

  lemma OwnedOneMore(ms: MonitorMap, left: set<GroupVersionResource>, r: GroupVersionResource)
    requires r in ms && r in left
    ensures forall c: Channel :: Owned(ms - (left - {r}), c) <==> Owned(ms - left, c) || ms[r].stopCh == Some(c)
  {
    var after, before := ms - (left - {r}), ms - left;
    forall c: Channel ensures Owned(after, c) <==> Owned(before, c) || ms[r].stopCh == Some(c) {
      if o :| o in before && before[o].stopCh == Some(c) { assert o in after && after[o].stopCh == Some(c); }
      if o :| o in after && after[o].stopCh == Some(c) {
        assert o == r || (o in before && before[o].stopCh == Some(c));
      }
      assert r in after && after[r] == ms[r];
    }
  }

  lemma OwnedSplits(ms: MonitorMap, current: MonitorMap, toRemove: MonitorMap, c: Channel)
    requires toRemove == ms - current.Keys
    requires forall r | r in current :: current[r] == if r in ms then ms[r] else Monitor(None)
    ensures Owned(ms, c) <==> Owned(current, c) || Owned(toRemove, c)
  {
    if r :| r in ms && ms[r].stopCh == Some(c) {
      assert if r in current then current[r].stopCh == Some(c) else r in toRemove && toRemove[r].stopCh == Some(c);
    }
    if r :| r in current && current[r].stopCh == Some(c) {
      assert r in ms && ms[r].stopCh == Some(c);
    }
    if r :| r in toRemove && toRemove[r].stopCh == Some(c) {
      assert r in ms && ms[r].stopCh == Some(c);
    }
  }
}
