/**
 The bounded network store as it is implemented: tables updated in place, with a per-group instance
 index, sequence numbers and body reference counts kept alongside the primary tables.

 The maps of the source are the members of two record fields, `store` and `lookups`. Ids are handed
 out in increasing order and set in their map once, so a map's insertion order is the order of its
 ids, and a loop over a map's entries runs over the ids.
 */
module NetworkBuilder {
  import opened Options
  import opened NetworkPriority
  import opened NetworkStore
  import opened BodyCounts
  import opened NetworkReport

  // ----- The derived indexes

  datatype Lookups = Lookups(
    bodyRefCounts: map<nat, nat>,
    groupInstanceIndex: map<nat, set<nat>>,
    instanceSequenceById: map<nat, nat>,
    sequenceCounter: nat)

  ghost predicate GroupIndexExact(index: map<nat, set<nat>>, groups: map<nat, Group>, instances: map<nat, Instance>) {
    && index.Keys == groups.Keys
    && forall g :: g in index ==> index[g] == Members(instances, g)
  }

  ghost predicate SequencesExact(sequences: map<nat, nat>, instances: map<nat, Instance>) {
    && sequences.Keys == instances.Keys
    && forall i :: i in sequences ==> sequences[i] == i + 1
  }

  /** The indexes are exactly what the primary tables imply. */
  ghost predicate Exact(x: Lookups, s: Store) {
    && GroupIndexExact(x.groupInstanceIndex, s.groups, s.instances)
    && SequencesExact(x.instanceSequenceById, s.instances)
    && x.sequenceCounter == s.nextInstance
    && TablesExact(BodyTables(s.bodies, x.bodyRefCounts), s.instances)
  }

  // ----- Removal, one instance at a time

  function TakenOut(s: Store, i: nat, bodies: Bodies): Store
    requires i in s.instances && s.instances[i].groupId in s.groups
  {
    var g := s.instances[i].groupId;
    s.(instances := s.instances - {i},
       redirectUrls := s.redirectUrls - {i},
       groups := s.groups[g := WithEvictions(s.groups[g], 1)],
       bodies := bodies,
       summary := s.summary.(evicted := s.summary.evicted + 1))
  }

  lemma EvictionsOfOne(groups: map<nat, Group>, instances: map<nat, Instance>, i: nat)
    requires i in instances && instances[i].groupId in groups
    ensures Evicted(groups, instances, {i})
         == groups[instances[i].groupId := WithEvictions(groups[instances[i].groupId], 1)]
  {
    forall g | g in groups
      ensures Members(instances, g) * {i} == if g == instances[i].groupId then {i} else {}
    {
    }
  }

  lemma DetachOne(s: Store, i: nat)
    requires i in s.instances && s.instances[i].groupId in s.groups
    ensures Detach(s, {i}) == TakenOut(s, i, Collected(s.bodies, s.instances - {i}))
  {
    EvictionsOfOne(s.groups, s.instances, i);
  }

  lemma MembersAfterRemoval(instances: map<nat, Instance>, i: nat, g: nat)
    ensures Members(instances - {i}, g) == Members(instances, g) - {i}
  {
  }

  function IndexWithout(index: map<nat, set<nat>>, g: nat, i: nat): map<nat, set<nat>> {
    if g in index then index[g := index[g] - {i}] else index
  }

  lemma GroupIndexAfterRemoval(index: map<nat, set<nat>>, groups: map<nat, Group>, instances: map<nat, Instance>, i: nat, group: Group)
    requires GroupIndexExact(index, groups, instances) && i in instances && instances[i].groupId in groups
    ensures GroupIndexExact(
      IndexWithout(index, instances[i].groupId, i), groups[instances[i].groupId := group], instances - {i})
  {
    forall h: nat ensures Members(instances - {i}, h) == Members(instances, h) - {i} {
      MembersAfterRemoval(instances, i, h);
    }
  }

  /** After a removal the tables are those of the detached store, and the indexes are exact for it. */
  lemma TakenOutIsDetached(s: Store, x: Lookups, i: nat)
    requires i in s.instances && s.instances[i].groupId in s.groups && Exact(x, s)
    ensures TakenOut(s, i, ReleasedBoth(BodyTables(s.bodies, x.bodyRefCounts), s.instances[i]).bodies) == Detach(s, {i})
    ensures Exact(LookupsWithout(x, s, i), Detach(s, {i}))
  {
    var g := s.instances[i].groupId;
    ReleasedBothIsCollection(BodyTables(s.bodies, x.bodyRefCounts), s.instances, i);
    DetachOne(s, i);
    GroupIndexAfterRemoval(x.groupInstanceIndex, s.groups, s.instances, i, WithEvictions(s.groups[g], 1));
  }

  function LookupsWithout(x: Lookups, s: Store, i: nat): Lookups
    requires i in s.instances
  {
    Lookups(ReleasedBoth(BodyTables(s.bodies, x.bodyRefCounts), s.instances[i]).counts,
            IndexWithout(x.groupInstanceIndex, s.instances[i].groupId, i),
            x.instanceSequenceById - {i},
            x.sequenceCounter)
  }

  /** When at most group g is empty, dropping the empty groups is dropping g if it is. */
  lemma DropOne(s: Store, g: nat)
    requires GroupsLinked(s.groups, s.groupByShape, s.metadata, s.nextGroup) && g in s.groups
    requires forall h :: h in s.groups && h != g ==> Members(s.instances, h) != {}
    ensures DropEmptyGroups(s) == if Members(s.instances, g) != {} then s else WithoutGroup(s, g)
  {
    var t := if Members(s.instances, g) != {} then s else WithoutGroup(s, g);
    var u := DropEmptyGroups(s);
    assert Indexes(s.groupByShape, s.groups[g].fingerprint, g);
    forall f | f in s.groupByShape ensures f in u.groupByShape <==> f in t.groupByShape {
      assert Indexes(s.groupByShape, f, s.groupByShape[f]);
    }
    hide Indexes, GroupsLinked;
    assert u.groupByShape == t.groupByShape;
    assert u.metadata == t.metadata;
    assert u.groups == t.groups;
  }

  function WithoutGroup(s: Store, g: nat): Store
    requires g in s.groups
  {
    var f := s.groups[g].fingerprint;
    s.(groups := s.groups - {g}, groupByShape := s.groupByShape - {f}, metadata := s.metadata - {f})
  }

  lemma EvictionsTwice(instances: map<nat, Instance>, ids: set<nat>, i: nat, group: Group, g: nat)
    requires i !in ids
    ensures WithEvictions(WithEvictions(group, |Members(instances, g) * ids|), |Members(instances - ids, g) * {i}|)
         == WithEvictions(group, |Members(instances, g) * (ids + {i})|)
  {
    var all := Members(instances, g);
    assert Members(instances - ids, g) * {i} == all * {i};
    assert all * (ids + {i}) == all * ids + all * {i};
  }

  lemma EvictedTwiceAt(groups: map<nat, Group>, instances: map<nat, Instance>, ids: set<nat>, i: nat, g: nat)
    requires i !in ids && g in groups
    ensures Evicted(Evicted(groups, instances, ids), instances - ids, {i})[g] == Evicted(groups, instances, ids + {i})[g]
  {
    EvictionsTwice(instances, ids, i, groups[g], g);
  }

  lemma EvictedTwice(groups: map<nat, Group>, instances: map<nat, Instance>, ids: set<nat>, i: nat)
    requires i !in ids
    ensures Evicted(Evicted(groups, instances, ids), instances - ids, {i}) == Evicted(groups, instances, ids + {i})
  {
    forall g | g in groups
      ensures Evicted(Evicted(groups, instances, ids), instances - ids, {i})[g] == Evicted(groups, instances, ids + {i})[g]
    {
      EvictedTwiceAt(groups, instances, ids, i, g);
    }
    SameEntries(Evicted(Evicted(groups, instances, ids), instances - ids, {i}), Evicted(groups, instances, ids + {i}));
  }

  lemma SameEntries<K, V>(a: map<K, V>, b: map<K, V>)
    requires a.Keys == b.Keys && forall k :: k in a ==> a[k] == b[k]
    ensures a == b
  {
  }

  lemma DetachTwice(s: Store, ids: set<nat>, i: nat)
    requires i !in ids
    ensures Detach(Detach(s, ids), {i}) == Detach(s, ids + {i})
  {
    assert s.instances - ids - {i} == s.instances - (ids + {i});
    assert s.redirectUrls - ids - {i} == s.redirectUrls - (ids + {i});
    EvictedTwice(s.groups, s.instances, ids, i);
    CollectedTwice(s.bodies, s.instances - ids, s.instances - (ids + {i}));
  }

  lemma CollectedTwice(bodies: Bodies, more: map<nat, Instance>, fewer: map<nat, Instance>)
    requires forall i :: i in fewer ==> i in more && more[i] == fewer[i]
    ensures Collected(Collected(bodies, more), fewer) == Collected(bodies, fewer)
  {
    forall b | Used(fewer, b) ensures Used(more, b) {
      var i :| i in fewer && Refers(fewer[i], b);
      assert Refers(more[i], b);
    }
    assert Collected(Collected(bodies, more), fewer).byId == Collected(bodies, fewer).byId;
    assert Collected(Collected(bodies, more), fewer).byHash == Collected(bodies, fewer).byHash;
  }

  lemma DetachNone(s: Store)
    requires BodiesLinked(s.bodies, s.instances)
    ensures Detach(s, {}) == s
  {
    assert s.instances - {} == s.instances;
    assert s.redirectUrls - {} == s.redirectUrls;
    forall g | g in s.groups ensures Evicted(s.groups, s.instances, {})[g] == s.groups[g] {
      assert Members(s.instances, g) * {} == {};
    }
    SameEntries(Evicted(s.groups, s.instances, {}), s.groups);
    CollectingNothing(s.bodies, s.instances);
  }

  lemma CollectingNothing(bodies: Bodies, instances: map<nat, Instance>)
    requires BodiesLinked(bodies, instances)
    ensures Collected(bodies, instances) == bodies
  {
    forall h | h in bodies.byHash ensures Used(instances, bodies.byHash[h]) {
      assert NetworkStore.Indexes(bodies.byHash, h, bodies.byHash[h]);
    }
    SameEntries(Collected(bodies, instances).byHash, bodies.byHash);
    SameEntries(Collected(bodies, instances).byId, bodies.byId);
  }

  ghost predicate Splits(all: set<nat>, done: set<nat>, left: set<nat>) {
    done + left == all && done !! left
  }

  lemma SplitMoves(all: set<nat>, done: set<nat>, left: set<nat>, i: nat)
    requires Splits(all, done, left) && i in left
    ensures Splits(all, done + {i}, left - {i})
  {
  }

  lemma ConsistentOwesOne(s: Store)
    requires Consistent(s)
    ensures Pending(Observed(s), 1)
  {
    assert Pending(s, 0);
    SummaryKeepsPending(s, Observed(s), 0, 1);
  }

  lemma KnownShape(s: Store, shape: Shape)
    requires Linked(s) && HashShape(shape) in s.groupByShape
    ensures var f := HashShape(shape);
      f in s.metadata && s.groupByShape[f] in s.groups && s.groups[s.groupByShape[f]].shape == shape
  {
    assert NetworkStore.Indexes(s.groupByShape, HashShape(shape), s.groupByShape[HashShape(shape)]);
  }

  lemma CountingKeepsExact(x: Lookups, s: Store, f: Fingerprint, m: Metadata)
    requires Exact(x, s)
    ensures Exact(x, s.(metadata := s.metadata[f := m]))
  {
  }

  lemma SuppressingKeepsExact(x: Lookups, s: Store, g: nat)
    requires Exact(x, s) && g in s.groups
    ensures Exact(x, Suppress(s, g))
  {
  }

  lemma SummaryKeepsExact(x: Lookups, s: Store, summary: Summary)
    requires Exact(x, s)
    ensures Exact(x, s.(summary := summary))
  {
  }

  lemma OthersOutliveGroup(s: Store, g: nat)
    requires NoEmptyGroup(s.groups, s.instances)
    ensures var t := Detach(s, Members(s.instances, g));
      && Members(t.instances, g) == {}
      && forall h :: h in t.groups && h != g ==> Members(t.instances, h) != {}
  {
    var left := s.instances - Members(s.instances, g);
    assert Members(left, g) == {};
    forall h | h in s.groups && h != g ensures Members(left, h) != {} {
      assert Members(left, h) == Members(s.instances, h);
    }
  }

  // ----- The search for a victim

  /** The least key among the ids below a bound, if there is any. */
  ghost predicate LeastBelow(keys: map<nat, Key>, bound: nat, lowest: Option<Key>) {
    match lowest
    case None => forall k :: k in keys ==> k >= bound
    case Some(key) =>
      && key.id in keys && keys[key.id] == key && key.id < bound
      && forall k :: k in keys && k < bound && k != key.id ==> Before(key, keys[k])
  }

  /** The least entry, or nothing when there is none. */
  ghost predicate IsVictim(keys: map<nat, Key>, lowest: Option<Key>)
    requires OwnIds(keys)
  {
    if keys == map[] then lowest.None?
    else lowest == Some(keys[Least(keys)]) && lowest.value.id == Least(keys)
  }

  lemma LeastIsUnique(keys: map<nat, Key>, a: nat, b: nat)
    requires IsLeast(keys, a) && IsLeast(keys, b)
    ensures a == b
  {
  }

  lemma LeastFound(keys: map<nat, Key>, bound: nat, lowest: Option<Key>)
    requires OwnIds(keys) && LeastBelow(keys, bound, lowest)
    requires forall k :: k in keys ==> k < bound
    ensures IsVictim(keys, lowest)
  {
    if lowest.Some? {
      LeastIsUnique(keys, lowest.value.id, Least(keys));
    }
  }

  // ----- Commitment in steps

  /** The store with the instance in its group, before its bodies. */
  function Seated(s: Store, g: nat, obs: Observation): Store
    requires g in s.groups
  {
    s.(instances := s.instances[s.nextInstance := NewInstance(s.nextInstance, g, obs)],
       redirectUrls := if obs.redirectToUrl.Some? then s.redirectUrls[s.nextInstance := obs.redirectToUrl.value]
                       else s.redirectUrls,
       groups := s.groups[g := WithOccurrence(s.groups[g])],
       nextInstance := s.nextInstance + 1)
  }

  function LookupsWith(x: Lookups, g: nat, i: nat): Lookups
    requires g in x.groupInstanceIndex
  {
    x.(groupInstanceIndex := x.groupInstanceIndex[g := x.groupInstanceIndex[g] + {i}],
       instanceSequenceById := x.instanceSequenceById[i := i + 1],
       sequenceCounter := i + 1)
  }

  lemma MembersAfterAddition(instances: map<nat, Instance>, i: nat, inst: Instance, h: nat)
    requires i !in instances
    ensures Members(instances[i := inst], h) == if h == inst.groupId then Members(instances, h) + {i} else Members(instances, h)
  {
  }

  lemma GroupIndexAfterAddition(
      index: map<nat, set<nat>>, groups: map<nat, Group>, instances: map<nat, Instance>, i: nat, inst: Instance, group: Group)
    requires GroupIndexExact(index, groups, instances) && i !in instances && inst.groupId in groups
    ensures GroupIndexExact(
      index[inst.groupId := index[inst.groupId] + {i}], groups[inst.groupId := group], instances[i := inst])
  {
    forall h: nat
      ensures Members(instances[i := inst], h) == if h == inst.groupId then Members(instances, h) + {i} else Members(instances, h)
    {
      MembersAfterAddition(instances, i, inst, h);
    }
  }

  lemma SeatingIsExact(s: Store, x: Lookups, g: nat, obs: Observation)
    requires Exact(x, s) && g in s.groups && s.nextInstance !in s.instances
    ensures Exact(LookupsWith(x, g, s.nextInstance), Seated(s, g, obs))
  {
    var inst := NewInstance(s.nextInstance, g, obs);
    GroupIndexAfterAddition(x.groupInstanceIndex, s.groups, s.instances, s.nextInstance, inst, WithOccurrence(s.groups[g]));
    UnreferencingIsExact(BodyTables(s.bodies, x.bodyRefCounts), s.instances, s.nextInstance, inst);
  }

  function WithBodies(s: Store, i: nat, obs: Observation): Store
    requires i in s.instances
  {
    var (afterRequest, requestRef) := Resolved(s.bodies, obs.requestBody);
    var (afterBoth, responseRef) := Resolved(afterRequest, obs.responseBody);
    var inst := s.instances[i].(requestBodyRef := requestRef, responseBodyRef := responseRef);
    s.(bodies := afterBoth, instances := s.instances[i := inst])
  }

  lemma SameRefSameInstances(instances: map<nat, Instance>, i: nat, side: Side)
    requires i in instances && RefAt(instances[i], side) == None
    ensures instances[i := WithRef(instances[i], side, None)] == instances
  {
  }

  lemma BodiesKeepGroupIndex(s: Store, i: nat, obs: Observation)
    requires i in s.instances
    ensures WithBodies(s, i, obs).instances.Keys == s.instances.Keys
    ensures forall h: nat :: Members(WithBodies(s, i, obs).instances, h) == Members(s.instances, h)
  {
  }

  lemma SeatedThenBodies(s: Store, g: nat, obs: Observation)
    requires g in s.groups
    ensures WithBodies(Seated(s, g, obs), s.nextInstance, obs) == Commit(s, g, obs)
  {
  }

  class NetworkBuilder {
    var store: Store
    var lookups: Lookups

    ghost predicate Valid()
      reads this
    {
      Consistent(store) && Exact(lookups, store)
    }

    constructor ()
      ensures Valid() && store == EMPTY
    {
      store := EMPTY;
      lookups := Lookups(map[], map[], map[], 0);
      new;
      EmptyIsConsistent();
    }

    method DecrementBodyRef(bodyId: Option<nat>)
      modifies this`store, this`lookups
      ensures var t := Released(BodyTables(old(store).bodies, old(lookups).bodyRefCounts), bodyId);
        && store == old(store).(bodies := t.bodies)
        && lookups == old(lookups).(bodyRefCounts := t.counts)
    {
      if bodyId.None? {
        return;
      }
      var b := bodyId.value;
      var count: int := if b in lookups.bodyRefCounts then lookups.bodyRefCounts[b] else 0;
      var next := count - 1;
      if next <= 0 {
        lookups := lookups.(bodyRefCounts := lookups.bodyRefCounts - {b});
        if b in store.bodies.byId {
          var body := store.bodies.byId[b];
          store := store.(bodies := store.bodies.(byHash := store.bodies.byHash - {body.fingerprint}));
        }
        store := store.(bodies := store.bodies.(byId := store.bodies.byId - {b}));
      } else {
        lookups := lookups.(bodyRefCounts := lookups.bodyRefCounts[b := next]);
      }
    }

    /** Removes an instance and counts it as evicted; unless told not to, removes a group left empty. */
    method RemoveInstance(instanceId: nat, skipEmptyGroupCleanup: bool)
      requires Exact(lookups, store)
      requires instanceId in store.instances ==> store.instances[instanceId].groupId in store.groups
      requires !skipEmptyGroupCleanup ==> Linked(store) && NoEmptyGroup(store.groups, store.instances)
      modifies this`store, this`lookups
      ensures Exact(lookups, store)
      ensures instanceId !in old(store).instances ==> store == old(store)
      ensures instanceId in old(store).instances ==>
        store == if skipEmptyGroupCleanup then Detach(old(store), {instanceId}) else Discard(old(store), {instanceId})
    {
      if instanceId !in store.instances {
        return;
      }
      var g := store.instances[instanceId].groupId;
      TakeOut(instanceId);
      TakenOutIsDetached(old(store), old(lookups), instanceId);
      if !skipEmptyGroupCleanup {
        OthersStayNonEmpty(old(store), instanceId);
        DetachKeepsLinks(old(store), {instanceId});
        DropOne(store, g);
        RemoveIfEmpty(g);
      }
    }

    /** The part of a removal that leaves the group in place. */
    method TakeOut(instanceId: nat)
      requires instanceId in store.instances && store.instances[instanceId].groupId in store.groups
      modifies this`store, this`lookups
      ensures var s, x := old(store), old(lookups);
        && store == TakenOut(s, instanceId, ReleasedBoth(BodyTables(s.bodies, x.bodyRefCounts), s.instances[instanceId]).bodies)
        && lookups == LookupsWithout(x, s, instanceId)
    {
      var instance := store.instances[instanceId];
      var g := instance.groupId;

      var group := store.groups[g];
      group := group.(counts := group.counts.(evicted := group.counts.evicted + 1));
      store := store.(groups := store.groups[g := group]);
      store := store.(summary := store.summary.(evicted := store.summary.evicted + 1));

      store := store.(instances := store.instances - {instanceId});
      lookups := lookups.(instanceSequenceById := lookups.instanceSequenceById - {instanceId});
      store := store.(redirectUrls := store.redirectUrls - {instanceId});

      if g in lookups.groupInstanceIndex {
        var entry := lookups.groupInstanceIndex[g];
        lookups := lookups.(groupInstanceIndex := lookups.groupInstanceIndex[g := entry - {instanceId}]);
      }

      DecrementBodyRef(instance.requestBodyRef);
      DecrementBodyRef(instance.responseBodyRef);
    }

    /** The clean-up of a group that a removal left empty. */
    method RemoveIfEmpty(g: nat)
      requires g in store.groups && Exact(lookups, store)
      requires var without := if Members(store.instances, g) != {} then store else WithoutGroup(store, g);
        DropEmptyGroups(store) == without
      modifies this`store, this`lookups
      ensures Exact(lookups, store)
      ensures store == DropEmptyGroups(old(store))
    {
      if g in lookups.groupInstanceIndex && lookups.groupInstanceIndex[g] == {} {
        var f := store.groups[g].fingerprint;
        store := store.(groups := store.groups - {g});
        store := store.(groupByShape := store.groupByShape - {f});
        store := store.(metadata := store.metadata - {f});
        lookups := lookups.(groupInstanceIndex := lookups.groupInstanceIndex - {g});
      }
    }

    method RemoveMembers(groupId: nat)
      requires Exact(lookups, store) && groupId in store.groups
      requires BodiesLinked(store.bodies, store.instances)
      modifies this`store, this`lookups
      ensures Exact(lookups, store)
      ensures store == Detach(old(store), Members(old(store).instances, groupId))
    {
      var instanceIds := lookups.groupInstanceIndex[groupId];
      ghost var members, removed := Members(store.instances, groupId), {};
      assert instanceIds == members;
      hide Exact, BodiesLinked, Collected;
      DetachNone(store);
      while instanceIds != {}
        invariant Splits(members, removed, instanceIds)
        invariant store == Detach(old(store), removed)
        invariant Exact(lookups, store)
        decreases instanceIds
      {
        var instanceId :| instanceId in instanceIds;
        assert instanceId in members && instanceId !in removed;
        RemoveInstance(instanceId, true);
        DetachTwice(old(store), removed, instanceId);
        SplitMoves(members, removed, instanceIds, instanceId);
        instanceIds, removed := instanceIds - {instanceId}, removed + {instanceId};
      }
      assert removed == members;
    }

    /** Removes a group with all its instances. */
    method RemoveGroup(groupId: nat)
      requires Linked(store) && Exact(lookups, store) && NoEmptyGroup(store.groups, store.instances)
      modifies this`store, this`lookups
      ensures Exact(lookups, store)
      ensures store == if groupId in old(store).groups then Discard(old(store), Members(old(store).instances, groupId)) else old(store)
    {
      if groupId !in store.groups {
        return;
      }
      RemoveMembers(groupId);
      OthersOutliveGroup(old(store), groupId);
      DetachKeepsLinks(old(store), Members(old(store).instances, groupId));
      DropOne(store, groupId);
      RemoveIfEmpty(groupId);
    }

    method FindLowestPriorityGroup() returns (lowest: Option<Key>)
      requires GroupsLinked(store.groups, store.groupByShape, store.metadata, store.nextGroup)
      ensures IsVictim(GroupKeys(store), lowest)
    {
      lowest := None;
      ghost var keys := GroupKeys(store);
      for groupId := 0 to store.nextGroup
        invariant LeastBelow(keys, groupId, lowest)
      {
        if groupId in store.groups {
          var group := store.groups[groupId];
          var score := PriorityScore(group.shape);
          var firstOffset :=
            if group.fingerprint in store.metadata then store.metadata[group.fingerprint].firstOffsetMs else None;
          if lowest.None? || score < lowest.value.score
             || (score == lowest.value.score && OffsetBefore(firstOffset, lowest.value.offset)) {
            lowest := Some(Key(score, firstOffset, groupId));
          }
        }
      }
      LeastFound(keys, store.nextGroup, lowest);
    }

    method EvictLowestPriorityGroup(incoming: Shape) returns (evicted: bool)
      requires Linked(store) && Exact(lookups, store) && NoEmptyGroup(store.groups, store.instances)
      modifies this`store, this`lookups
      ensures Exact(lookups, store)
      ensures var keys := GroupKeys(old(store));
        && evicted == CanEvict(keys, PriorityScore(incoming))
        && store == if evicted then Discard(old(store), Members(old(store).instances, Least(keys))) else old(store)
    {
      var lowest := FindLowestPriorityGroup();
      if lowest.None? || lowest.value.score >= PriorityScore(incoming) {
        return false;
      }
      RemoveGroup(lowest.value.id);
      return true;
    }

    method FindLowestPriorityInstance() returns (lowest: Option<Key>)
      requires InstancesLinked(store.instances, store.redirectUrls, store.groups.Keys, store.nextInstance)
      requires SequencesExact(lookups.instanceSequenceById, store.instances)
      ensures IsVictim(InstanceKeys(store), lowest)
    {
      lowest := None;
      var lowestSequence := 0;
      ghost var keys := InstanceKeys(store);
      for instanceId := 0 to store.nextInstance
        invariant LeastBelow(keys, instanceId, lowest)
        invariant lowest.Some? ==> lowestSequence == lowest.value.id + 1
      {
        if instanceId in store.instances && store.instances[instanceId].groupId in store.groups {
          var inst := store.instances[instanceId];
          var score := PriorityScore(store.groups[inst.groupId].shape);
          var sequence := lookups.instanceSequenceById[instanceId];
          if lowest.None? || score < lowest.value.score
             || (score == lowest.value.score && OffsetBefore(inst.offsetMs, lowest.value.offset))
             || (score == lowest.value.score && inst.offsetMs == lowest.value.offset && sequence < lowestSequence) {
            lowest, lowestSequence := Some(Key(score, inst.offsetMs, instanceId)), sequence;
          }
        }
      }
      LeastFound(keys, store.nextInstance, lowest);
    }

    method EvictLowestPriorityInstance(incoming: Shape) returns (evicted: bool)
      requires Linked(store) && Exact(lookups, store) && NoEmptyGroup(store.groups, store.instances)
      modifies this`store, this`lookups
      ensures Exact(lookups, store)
      ensures var keys := InstanceKeys(old(store));
        && evicted == CanEvict(keys, PriorityScore(incoming))
        && store == if evicted then Discard(old(store), {Least(keys)}) else old(store)
    {
      var lowest := FindLowestPriorityInstance();
      if lowest.None? || lowest.value.score >= PriorityScore(incoming) {
        return false;
      }
      RemoveInstance(lowest.value.id, false);
      return true;
    }

    method CommitGroup(obs: Observation) returns (groupId: nat)
      requires Linked(store) && Exact(lookups, store)
      modifies this`store, this`lookups
      ensures groupId == old(store).nextGroup && store == AddGroup(old(store), obs)
      ensures Exact(lookups, store)
    {
      groupId := store.nextGroup;
      NewGroupIsEmpty(store);
      store := store.(nextGroup := store.nextGroup + 1);
      store := store.(groups := store.groups[groupId := NewGroup(groupId, obs.shape)]);
      store := store.(groupByShape := store.groupByShape[HashShape(obs.shape) := groupId]);
      lookups := lookups.(groupInstanceIndex := lookups.groupInstanceIndex[groupId := {}]);
      store := store.(metadata := store.metadata[HashShape(obs.shape) := Metadata(obs.offsetMs, obs.offsetMs, 1)]);
    }

    method CommitInstance(groupId: nat, obs: Observation) returns (instanceId: nat)
      requires groupId in store.groups && groupId in lookups.groupInstanceIndex
      requires lookups.sequenceCounter == store.nextInstance
      modifies this`store, this`lookups
      ensures instanceId == old(store).nextInstance && store == Seated(old(store), groupId, obs)
      ensures lookups == LookupsWith(old(lookups), groupId, instanceId)
    {
      instanceId := store.nextInstance;
      store := store.(nextInstance := store.nextInstance + 1);
      lookups := lookups.(sequenceCounter := lookups.sequenceCounter + 1);

      store := store.(instances := store.instances[instanceId := NewInstance(instanceId, groupId, obs)]);
      lookups := lookups.(instanceSequenceById := lookups.instanceSequenceById[instanceId := lookups.sequenceCounter]);
      if obs.redirectToUrl.Some? {
        store := store.(redirectUrls := store.redirectUrls[instanceId := obs.redirectToUrl.value]);
      }
      var entry := lookups.groupInstanceIndex[groupId] + {instanceId};
      lookups := lookups.(groupInstanceIndex := lookups.groupInstanceIndex[groupId := entry]);
      var group := store.groups[groupId];
      group := group.(counts := group.counts.(occurrences := group.counts.occurrences + 1));
      store := store.(groups := store.groups[groupId := group]);
    }

    method ResolveOrAdmitBody(body: ObservedBody) returns (bodyId: Option<nat>)
      requires store.bodies.next !in lookups.bodyRefCounts
      modifies this`store, this`lookups
      ensures var t := BodyTables(old(store).bodies, old(lookups).bodyRefCounts);
        && bodyId == Resolved(t.bodies, Some(body)).1
        && store == old(store).(bodies := Claimed(t, Some(body)).bodies)
        && lookups == old(lookups).(bodyRefCounts := Claimed(t, Some(body)).counts)
    {
      var bodies, counts := store.bodies, lookups.bodyRefCounts;
      if body.fingerprint in bodies.byHash {
        var existing := bodies.byHash[body.fingerprint];
        lookups := lookups.(bodyRefCounts := counts[existing := (if existing in counts then counts[existing] else 0) + 1]);
        return Some(existing);
      }
      if |bodies.byId| >= BODIES_CAP {
        store := store.(bodies := bodies.(omitted := bodies.omitted + 1));
        return None;
      }
      var b := bodies.next;
      bodies := bodies.(next := b + 1);
      bodies := bodies.(byId := bodies.byId[b := NewBody(b, body)]);
      bodies := bodies.(byHash := bodies.byHash[body.fingerprint := b]);
      lookups := lookups.(bodyRefCounts := counts[b := 1]);
      if body.truncated {
        bodies := bodies.(truncated := bodies.truncated + 1);
      }
      store := store.(bodies := bodies);
      return Some(b);
    }

    /** One of the two references of an instance that does not hold it yet. */
    method CommitBody(instanceId: nat, side: Side, observed: Option<ObservedBody>)
      requires instanceId in store.instances && RefAt(store.instances[instanceId], side) == None
      requires TablesExact(BodyTables(store.bodies, lookups.bodyRefCounts), store.instances)
      modifies this`store, this`lookups
      ensures var s, (bodies, ref) := old(store), Resolved(old(store).bodies, observed);
        store == s.(bodies := bodies, instances := s.instances[instanceId := WithRef(s.instances[instanceId], side, ref)])
      ensures lookups == old(lookups).(bodyRefCounts := lookups.bodyRefCounts)
      ensures TablesExact(BodyTables(store.bodies, lookups.bodyRefCounts), store.instances)
    {
      ClaimIsExact(BodyTables(store.bodies, lookups.bodyRefCounts), store.instances, instanceId, side, observed);
      if observed.Some? {
        var bodyId := ResolveOrAdmitBody(observed.value);
        if bodyId.Some? {
          var inst := WithRef(store.instances[instanceId], side, bodyId);
          store := store.(instances := store.instances[instanceId := inst]);
        }
      }
      SameRefSameInstances(old(store).instances, instanceId, side);
    }

    method CommitBodies(instanceId: nat, obs: Observation)
      requires instanceId in store.instances
      requires store.instances[instanceId].requestBodyRef == None && store.instances[instanceId].responseBodyRef == None
      requires TablesExact(BodyTables(store.bodies, lookups.bodyRefCounts), store.instances)
      modifies this`store, this`lookups
      ensures store == WithBodies(old(store), instanceId, obs)
      ensures lookups == old(lookups).(bodyRefCounts := lookups.bodyRefCounts)
      ensures TablesExact(BodyTables(store.bodies, lookups.bodyRefCounts), store.instances)
    {
      CommitBody(instanceId, Request, obs.requestBody);
      CommitBody(instanceId, Response, obs.responseBody);
    }

    /** The group, if it is new, then the instance and its bodies. */
    method CommitObservation(existingGroupId: Option<nat>, obs: Observation)
      requires Linked(store) && Exact(lookups, store)
      requires existingGroupId.Some? ==> existingGroupId.value in store.groups
      modifies this`store, this`lookups
      ensures store == match existingGroupId
        case None => Commit(AddGroup(old(store), obs), old(store).nextGroup, obs)
        case Some(g) => Commit(old(store), g, obs)
      ensures Exact(lookups, store)
    {
      assert store.nextInstance !in store.instances;
      var groupId;
      if existingGroupId.Some? {
        groupId := existingGroupId.value;
      } else {
        groupId := CommitGroup(obs);
      }
      SeatingIsExact(store, lookups, groupId, obs);
      SeatedThenBodies(store, groupId, obs);
      var instanceId := CommitInstance(groupId, obs);
      BodiesKeepGroupIndex(store, instanceId, obs);
      CommitBodies(instanceId, obs);
    }

    /** Frees an instance slot when the cap is reached and something scores lower; spares the given group. */
    method MakeRoom(existingGroupId: Option<nat>, shape: Shape) returns (ok: bool)
      requires Linked(store) && Exact(lookups, store) && NoEmptyGroup(store.groups, store.instances)
      requires existingGroupId.Some? ==>
        existingGroupId.value in store.groups && store.groups[existingGroupId.value].shape == shape
      modifies this`store, this`lookups
      ensures ok == HasRoom(old(store), shape)
      ensures store == if ok then Room(old(store), shape) else old(store)
      ensures Linked(store) && Exact(lookups, store)
      ensures existingGroupId.Some? ==> existingGroupId.value in store.groups
    {
      ok := true;
      if |store.instances| >= INSTANCES_CAP {
        ok := EvictLowestPriorityInstance(shape);
        if ok {
          DiscardKeepsLinks(old(store), {Least(InstanceKeys(old(store)))});
          if existingGroupId.Some? {
            ExistingGroupSurvives(old(store), existingGroupId.value);
          }
        }
      }
    }

    /** The end of an admission: room under the instance cap, and then the commitment. */
    method PlaceObservation(existingGroupId: Option<nat>, obs: Observation)
      requires Linked(store) && Exact(lookups, store) && NoEmptyGroup(store.groups, store.instances)
      requires existingGroupId.Some? ==>
        existingGroupId.value in store.groups && store.groups[existingGroupId.value].shape == obs.shape
      modifies this`store, this`lookups
      ensures store == Place(old(store), existingGroupId, obs)
      ensures Exact(lookups, store)
    {
      hide Commit, AddGroup, Discard, Linked, Exact, NoEmptyGroup, CanEvict, InstanceKeys;
      var ok := MakeRoom(existingGroupId, obs.shape);
      if !ok {
        SummaryKeepsExact(lookups, store, store.summary.(instanceCapDrops := store.summary.instanceCapDrops + 1));
        store := store.(summary := store.summary.(instanceCapDrops := store.summary.instanceCapDrops + 1));
        return;
      }
      CommitObservation(existingGroupId, obs);
    }

    method Admit(obs: Observation)
      requires Valid()
      modifies this`store, this`lookups
      ensures Valid() && store == Admitted(old(store), obs)
    {
      hide AdmitToGroup, AdmitNewShape, Linked, NoEmptyGroup, WithinCaps, GroupsBalance, GroupsSampled, Exact, Owing;
      ConsistentOwesOne(store);
      AdmitKeepsConsistent(store, obs);
      SummaryKeepsExact(lookups, store, Observed(store).summary);
      store := store.(summary := store.summary.(observed := store.summary.observed + 1));

      if IsLowSignalStaticAsset(obs.shape) {
        SummaryKeepsExact(lookups, store, store.summary.(filtered := store.summary.filtered + 1));
        store := store.(summary := store.summary.(filtered := store.summary.filtered + 1));
      } else if HashShape(obs.shape) in store.groupByShape {
        AdmitKnown(obs);
      } else {
        AdmitNew(obs);
      }
    }

    /** An observation of a shape that has a group: counted, and then sampled out or placed. */
    method AdmitKnown(obs: Observation)
      requires Pending(store, 1) && Exact(lookups, store) && HashShape(obs.shape) in store.groupByShape
      modifies this`store, this`lookups
      ensures var f := HashShape(obs.shape);
        old(store).groupByShape[f] in old(store).groups && f in old(store).metadata
        && store == AdmitToGroup(old(store), old(store).groupByShape[f], obs)
      ensures Exact(lookups, store)
    {
      hide Place, Linked, NoEmptyGroup, WithinCaps, GroupsBalance, GroupsSampled, Exact, Owing, PriorityScore;
      var fingerprint := HashShape(obs.shape);
      var existingGroupId := store.groupByShape[fingerprint];
      KnownShape(store, obs.shape);

      var metadata := store.metadata[fingerprint];
      if obs.offsetMs.Some? {
        metadata := metadata.(
          firstOffsetMs := Earlier(metadata.firstOffsetMs, obs.offsetMs),
          lastOffsetMs := Later(metadata.lastOffsetMs, obs.offsetMs));
      }
      metadata := metadata.(total := metadata.total + 1);
      CountingKeepsExact(lookups, store, fingerprint, metadata);
      CountingKeepsLinks(store, existingGroupId, fingerprint, metadata);
      store := store.(metadata := store.metadata[fingerprint := metadata]);

      var k := metadata.total;
      if k > DUPLICATE_SAMPLE_THRESHOLD && (k - DUPLICATE_SAMPLE_THRESHOLD) % DUPLICATE_SAMPLE_STRIDE != 0 {
        var group := store.groups[existingGroupId];
        group := group.(counts := group.counts.(suppressed := group.counts.suppressed + 1));
        group := group.(counts := group.counts.(occurrences := group.counts.occurrences + 1));
        SuppressingKeepsExact(lookups, store, existingGroupId);
        store := store.(groups := store.groups[existingGroupId := group]);
        store := store.(summary := store.summary.(suppressed := store.summary.suppressed + 1));
      } else {
        PlaceObservation(Some(existingGroupId), obs);
      }
    }

    /** An observation of a new shape: a group slot is freed for it if it must and can. */
    method AdmitNew(obs: Observation)
      requires Pending(store, 1) && Exact(lookups, store)
      modifies this`store, this`lookups
      ensures store == AdmitNewShape(old(store), obs)
      ensures Exact(lookups, store)
    {
      hide Place, Discard, Linked, Exact, NoEmptyGroup, CanEvict, GroupKeys;
      if |store.groups| >= GROUPS_CAP {
        var evicted := EvictLowestPriorityGroup(obs.shape);
        if !evicted {
          SummaryKeepsExact(lookups, store, store.summary.(groupCapDrops := store.summary.groupCapDrops + 1));
          store := store.(summary := store.summary.(groupCapDrops := store.summary.groupCapDrops + 1));
          return;
        }
        DiscardKeepsLinks(old(store), Members(old(store).instances, Least(GroupKeys(old(store)))));
      }
      PlaceObservation(None, obs);
    }

    method FinalizeGroups()
      requires forall i :: i in store.instances ==> i < store.nextInstance
      requires forall g :: g in store.groups ==> g < store.nextGroup
      requires forall g :: g in store.groups ==> store.groups[g].firstOffsetMs == None && store.groups[g].lastOffsetMs == None
      modifies this`store
      ensures store == old(store).(groups := map g | g in old(store).groups :: FinalGroup(old(store), old(store).groups[g], g))
    {
      hide Members;
      var counts := CountRetained(store.instances, store.nextInstance);
      for g := 0 to store.nextGroup
        invariant store == old(store).(groups := store.groups)
        invariant store.groups.Keys == old(store).groups.Keys
        invariant forall h :: h in store.groups ==>
          store.groups[h] == if h < g then FinalGroup(old(store), old(store).groups[h], h) else old(store).groups[h]
      {
        if g in store.groups {
          var group := store.groups[g];
          assert group == old(store).groups[g];
          group := group.(counts := group.counts.(retained := CountOf(counts, g)));
          if group.fingerprint in store.metadata {
            var metadata := store.metadata[group.fingerprint];
            if metadata.firstOffsetMs.Some? {
              group := group.(firstOffsetMs := metadata.firstOffsetMs);
            }
            if metadata.lastOffsetMs.Some? {
              group := group.(lastOffsetMs := metadata.lastOffsetMs);
            }
          }
          assert group == FinalGroup(old(store), old(store).groups[g], g);
          store := store.(groups := store.groups[g := group]);
        }
      }
      SameEntries(store.groups, map g | g in old(store).groups :: FinalGroup(old(store), old(store).groups[g], g));
    }

    /** The report. Neither of the two checks of the books can fail. */
    method Finalize() returns (r: Result<Report, InvariantError>)
      requires Valid()
      modifies this`store
      ensures r.Ok? && Reports(old(store), r.value)
    {
      hide Consistent, Exact, FinalGroup, TimeBefore, Matching, Annotated, Members;
      ReadyToReport(store);
      var inOrder := SortInstances(store.instances, store.nextInstance);
      ListedIdsAreDistinct(inOrder, store.instances);
      var instances := AnnotateRedirects(inOrder, store.redirectUrls);

      FinalizeGroups();
      store := store.(summary := store.summary.(
        retainedInstances := |store.instances|, retainedGroups := |store.groups|, retainedBodies := |store.bodies.byId|));
      assert store.groups.Keys == old(store).groups.Keys;
      var check := AssertInvariants(store.summary, store.groups, store.nextGroup);
      match check
      case Err(error) =>
        r := Err(error);
      case Ok(_) =>
        r := Ok(Report(store.summary, instances, store.groups, store.bodies.byId));
    }
  }

  lemma OthersStayNonEmpty(s: Store, i: nat)
    requires i in s.instances && NoEmptyGroup(s.groups, s.instances)
    ensures var t := Detach(s, {i});
      forall h :: h in t.groups && h != s.instances[i].groupId ==> Members(t.instances, h) != {}
  {
    forall h | h in s.groups && h != s.instances[i].groupId ensures Members(s.instances - {i}, h) != {} {
      MembersAfterRemoval(s.instances, i, h);
      assert i !in Members(s.instances, h);
    }
  }
}
