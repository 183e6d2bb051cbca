/**
 What the store holds, told from the observations alone: every retained instance is one of them, every
 body was observed, and every live group's first and last offsets are those of the observations it counted.
 */
module NetworkHistory {
  import opened Options
  import opened NetworkPriority
  import opened NetworkStore

  // ----- An admission in two parts: what is cleared away, and what is committed

  /** From s to t things are only removed, counters and a new group apart. */
  ghost predicate Cleared(s: Store, t: Store) {
    && t.instances.Keys <= s.instances.Keys
    && (forall i :: i in t.instances ==> t.instances[i] == s.instances[i])
    && (forall i :: i in t.instances ==> SameUrl(s, t, i))
    && GroupsClear(s.groups, t.groups, s.nextGroup)
    && t.redirectUrls.Keys <= s.redirectUrls.Keys
    && t.nextInstance == s.nextInstance
    && ClearedBodies(s.bodies, t.bodies)
    && BodiesIndexed(t.bodies)
  }

  ghost predicate GroupsClear(a: map<nat, Group>, b: map<nat, Group>, next: nat) {
    && b.Keys <= a.Keys + {next}
    && forall g :: g in b ==>
         if g in a then b[g].shape == a[g].shape && b[g].counts.occurrences == a[g].counts.occurrences
         else b[g].counts.occurrences == 0
  }

  predicate SameUrl(s: Store, t: Store, i: nat) {
    && (i in t.redirectUrls <==> i in s.redirectUrls)
    && (i in t.redirectUrls && i in s.redirectUrls ==> t.redirectUrls[i] == s.redirectUrls[i])
  }

  ghost predicate ClearedBodies(a: Bodies, b: Bodies) {
    && b.byId.Keys <= a.byId.Keys
    && (forall k :: k in b.byId ==> b.byId[k] == a.byId[k])
    && b.next == a.next && b.omitted == a.omitted && b.truncated == a.truncated
  }

  lemma ClearedItself(s: Store, t: Store)
    requires Linked(s) && t.instances == s.instances && t.redirectUrls == s.redirectUrls && t.bodies == s.bodies
    requires t.nextInstance == s.nextInstance && GroupsClear(s.groups, t.groups, s.nextGroup)
    ensures Cleared(s, t)
  {
    hide GroupsClear;
  }

  lemma DiscardClears(s: Store, ids: set<nat>)
    requires Linked(s)
    ensures Cleared(s, Discard(s, ids))
    ensures Discard(s, ids).nextGroup == s.nextGroup && Discard(s, ids).groups.Keys <= s.groups.Keys
  {
    hide Linked, Cleared, GroupsClear, GroupsLinked, InstancesLinked, BodiesLinked, BodiesIndexed, ClearedBodies, Collected, Evicted;
    LinkedBodies(s);
    CollectedClears(s.bodies, s.instances - ids);
    EvictedShapes(s.groups, s.instances, ids, s.nextGroup);
    DiscardedParts(s, ids);
    PartsClear(s, Discard(s, ids));
  }

  lemma LinkedBodies(s: Store)
    requires Linked(s)
    ensures BodiesIndexed(s.bodies) && s.redirectUrls.Keys <= s.instances.Keys
  {
    hide GroupsLinked, BodiesIndexed;
  }

  lemma DiscardedParts(s: Store, ids: set<nat>)
    requires GroupsClear(s.groups, Evicted(s.groups, s.instances, ids), s.nextGroup)
    requires Evicted(s.groups, s.instances, ids).Keys == s.groups.Keys
    ensures var t := Discard(s, ids);
      && t.instances == s.instances - ids && t.redirectUrls == s.redirectUrls - ids
      && t.nextInstance == s.nextInstance && t.nextGroup == s.nextGroup
      && t.bodies == Collected(s.bodies, s.instances - ids)
      && GroupsClear(s.groups, t.groups, s.nextGroup) && t.groups.Keys <= s.groups.Keys
  {
    hide Evicted, Collected, Members;
  }

  lemma PartsClear(s: Store, t: Store)
    requires exists ids: set<nat> :: t.instances == s.instances - ids && t.redirectUrls == s.redirectUrls - ids
    requires t.nextInstance == s.nextInstance && GroupsClear(s.groups, t.groups, s.nextGroup)
    requires ClearedBodies(s.bodies, t.bodies) && BodiesIndexed(t.bodies) && s.redirectUrls.Keys <= s.instances.Keys
    ensures Cleared(s, t)
  {
    hide ClearedBodies, BodiesIndexed, GroupsClear;
  }

  lemma EvictedShapes(groups: map<nat, Group>, instances: map<nat, Instance>, ids: set<nat>, next: nat)
    ensures GroupsClear(groups, Evicted(groups, instances, ids), next)
    ensures Evicted(groups, instances, ids).Keys == groups.Keys
  {
  }

  lemma CollectedClears(bodies: Bodies, instances: map<nat, Instance>)
    requires BodiesIndexed(bodies)
    ensures ClearedBodies(bodies, Collected(bodies, instances)) && BodiesIndexed(Collected(bodies, instances))
  {
    hide BodiesIndexed;
    CollectedIndexed(bodies, instances);
  }

  lemma AddGroupClears(s: Store, room: Store, obs: Observation)
    requires Linked(s) && Cleared(s, room) && room.nextGroup == s.nextGroup && room.groups.Keys <= s.groups.Keys
    requires HashShape(obs.shape) !in s.groupByShape
    ensures Cleared(s, AddGroup(room, obs)) && Seated(s, AddGroup(room, obs), room.nextGroup, obs)
    ensures room.nextGroup in AddGroup(room, obs).groups
    ensures AddGroup(room, obs).groups[room.nextGroup].shape == obs.shape
  {
    hide BodiesLinked, InstancesLinked, BodiesIndexed;
    assert s.nextGroup !in s.groups;
  }

  lemma RoomClears(s: Store, shape: Shape)
    requires Linked(s) && HasRoom(s, shape)
    ensures Cleared(s, Room(s, shape)) && Room(s, shape).nextGroup == s.nextGroup
    ensures Room(s, shape).groups.Keys <= s.groups.Keys
  {
    hide Linked, Cleared, Discard;
    if |s.instances| < INSTANCES_CAP {
      ClearedItself(s, s);
    } else {
      DiscardClears(s, {Least(InstanceKeys(s))});
    }
  }

  /** An admission that stores the observation clears room for it and commits it to a group of its shape. */
  ghost predicate Decomposes(s: Store, t: Store, obs: Observation, room: Store, g: nat) {
    && Cleared(s, room) && Seated(s, room, g, obs)
    && g in room.groups && room.groups[g].shape == obs.shape && t == Commit(room, g, obs)
  }

  /** The group is the shape's own if it had one, and the one new group if not. */
  ghost predicate Seated(s: Store, room: Store, g: nat, obs: Observation) {
    && (g in s.groups <==> HashShape(obs.shape) in s.groupByShape)
    && room.groups.Keys <= s.groups.Keys + {g}
  }

  lemma PlaceDecomposes(s: Store, existing: Option<nat>, obs: Observation) returns (room: Store, g: nat)
    requires Linked(s) && NoEmptyGroup(s.groups, s.instances) && HasRoom(s, obs.shape)
    requires existing.Some? ==> existing.value in s.groups && s.groups[existing.value].shape == obs.shape
    requires existing.Some? <==> HashShape(obs.shape) in s.groupByShape
    ensures Decomposes(s, Place(s, existing, obs), obs, room, g)
  {
    hide Linked, NoEmptyGroup, HasRoom, Room, Cleared, Commit;
    room := Room(s, obs.shape);
    RoomClears(s, obs.shape);
    match existing
    case None =>
      AddGroupClears(s, room, obs);
      g := room.nextGroup;
      room := AddGroup(room, obs);
    case Some(h) =>
      SurvivesRoom(s, h, obs.shape);
      ShapeStays(s, room, h);
      g := h;
  }

  lemma ShapeStays(s: Store, room: Store, g: nat)
    requires Cleared(s, room) && g in s.groups && g in room.groups
    ensures room.groups[g].shape == s.groups[g].shape
  {
  }

  /** What was cleared from a store with the same tables was cleared from the store. */
  lemma ClearedFrom(s: Store, o: Store, room: Store)
    requires Cleared(o, room) && o.instances == s.instances && o.redirectUrls == s.redirectUrls && o.bodies == s.bodies
    requires o.groups == s.groups && o.nextInstance == s.nextInstance && o.nextGroup == s.nextGroup
    ensures Cleared(s, room)
  {
  }

  lemma ReplacementDecomposes(s: Store, obs: Observation) returns (room: Store, g: nat)
    requires Linked(s) && NoEmptyGroup(s.groups, s.instances) && |s.instances| <= INSTANCES_CAP
    requires CanEvict(GroupKeys(s), PriorityScore(obs.shape)) && HashShape(obs.shape) !in s.groupByShape
    ensures Decomposes(s, Place(Discard(s, Members(s.instances, Least(GroupKeys(s)))), None, obs), obs, room, g)
  {
    var v := Least(GroupKeys(s));
    hide Linked, NoEmptyGroup, Cleared, Commit, Discard;
    room := Discard(s, Members(s.instances, v));
    GroupEvictionMakesRoom(s, v);
    DiscardClears(s, Members(s.instances, v));
    AddGroupClears(s, room, obs);
    g := room.nextGroup;
    room := AddGroup(room, obs);
  }

  lemma NewShapeDecomposes(s: Store, obs: Observation) returns (room: Store, g: nat)
    requires Linked(s) && NoEmptyGroup(s.groups, s.instances) && |s.instances| <= INSTANCES_CAP
    requires |s.groups| >= GROUPS_CAP || |s.instances| >= INSTANCES_CAP ==> Lower(s, PriorityScore(obs.shape))
    requires HashShape(obs.shape) !in s.groupByShape
    ensures Decomposes(s, AdmitNewShape(s, obs), obs, room, g)
  {
    hide Linked, NoEmptyGroup, Lower, Place, Discard, CanEvict, Decomposes;
    InstanceEvictable(s, PriorityScore(obs.shape));
    GroupEvictable(s, PriorityScore(obs.shape));
    if |s.groups| < GROUPS_CAP {
      room, g := PlaceDecomposes(s, None, obs);
    } else {
      room, g := ReplacementDecomposes(s, obs);
    }
  }

  lemma KnownShapeDecomposes(s: Store, h: nat, obs: Observation) returns (room: Store, g: nat)
    requires Linked(s) && NoEmptyGroup(s.groups, s.instances) && |s.instances| <= INSTANCES_CAP
    requires Indexes(s.groupByShape, HashShape(obs.shape), h) && h in s.groups && s.groups[h].shape == obs.shape
    requires HashShape(obs.shape) in s.metadata && !IsSampledOut(s.metadata[HashShape(obs.shape)].total + 1)
    requires |s.instances| >= INSTANCES_CAP ==> Lower(s, PriorityScore(obs.shape))
    ensures Decomposes(s, AdmitToGroup(Observed(s), h, obs), obs, room, g)
  {
    hide Linked, NoEmptyGroup, Lower, Place, CanEvict, OnlyLeastEvicted, Decomposes, IsSampledOut;
    var o, f := Observed(s), HashShape(obs.shape);
    var counted := WithMetadata(o, f, Counted(o.metadata[f], obs.offsetMs));
    KnownCountingKeepsLinks(s, h, obs);
    SameTablesSameJudgement(s, counted, counted, PriorityScore(obs.shape));
    InstanceEvictable(counted, PriorityScore(obs.shape));
    room, g := PlaceDecomposes(counted, Some(h), obs);
    DecomposesFrom(s, counted, Place(counted, Some(h), obs), obs, room, g);
  }

  lemma KnownCountingKeepsLinks(s: Store, h: nat, obs: Observation)
    requires Linked(s) && Indexes(s.groupByShape, HashShape(obs.shape), h) && h in s.groups
    requires HashShape(obs.shape) in s.metadata
    ensures
      var o, f := Observed(s), HashShape(obs.shape);
      Linked(WithMetadata(o, f, Counted(o.metadata[f], obs.offsetMs)))
  {
    var o, f := Observed(s), HashShape(obs.shape);
    CountingKeepsLinks(o, h, f, Counted(o.metadata[f], obs.offsetMs));
  }

  lemma StoredDecomposes(s: Store, obs: Observation) returns (room: Store, g: nat)
    requires Consistent(s) && FateOf(s, obs) == Stored
    ensures Decomposes(s, Admitted(s, obs), obs, room, g)
  {
    hide AdmitToGroup, AdmitNewShape, GroupsLinked, InstancesLinked, BodiesLinked, TotalsBalance, GroupsBalance,
      GroupsSampled, NoEmptyGroup, Lower, Decomposes;
    ObservedIsLinked(s);
    var o, f := Observed(s), HashShape(obs.shape);
    if f in s.groupByShape {
      KnownShapeIsGroups(s, s.groupByShape[f], obs);
      room, g := KnownShapeDecomposes(s, s.groupByShape[f], obs);
    } else {
      SameTablesSameJudgement(s, o, o, PriorityScore(obs.shape));
      room, g := NewShapeDecomposes(o, obs);
      DecomposesFrom(s, o, AdmitNewShape(o, obs), obs, room, g);
    }
  }

  lemma DecomposesFrom(s: Store, o: Store, t: Store, obs: Observation, room: Store, g: nat)
    requires o.instances == s.instances && o.redirectUrls == s.redirectUrls && o.bodies == s.bodies
    requires o.groups == s.groups && o.groupByShape == s.groupByShape
    requires o.nextInstance == s.nextInstance && o.nextGroup == s.nextGroup
    requires Decomposes(o, t, obs, room, g)
    ensures Decomposes(s, t, obs, room, g)
  {
    hide Commit, Cleared;
    ClearedFrom(s, o, room);
  }

  // ----- Every retained instance is an observation

  /** The body is the observed one, every field. */
  predicate Holds(body: Body, observed: Option<ObservedBody>) {
    && observed.Some?
    && body.content == observed.value.content && body.contentType == observed.value.contentType
    && body.truncated == observed.value.truncated && body.fingerprint == observed.value.fingerprint
  }

  /** A reference leads to a stored body with the fingerprint of the observed one. */
  predicate Carries(bodies: Bodies, ref: Option<nat>, observed: Option<ObservedBody>) {
    ref.Some? ==>
      && observed.Some? && ref.value in bodies.byId
      && bodies.byId[ref.value].fingerprint == observed.value.fingerprint
  }

  /** The i-th instance is this observation: its request, its group's shape, its redirect and its bodies. */
  predicate Shows(s: Store, i: nat, obs: Observation) {
    && i in s.instances
    && s.instances[i].httpMethod == obs.shape.httpMethod
    && s.instances[i].url == obs.shape.url
    && s.instances[i].status == obs.shape.status
    && s.instances[i].offsetMs == obs.offsetMs
    && s.instances[i].context == obs.context
    && s.instances[i].groupId in s.groups && s.groups[s.instances[i].groupId].shape == obs.shape
    && (i in s.redirectUrls <==> obs.redirectToUrl.Some?)
    && (i in s.redirectUrls && obs.redirectToUrl.Some? ==> s.redirectUrls[i] == obs.redirectToUrl.value)
    && Carries(s.bodies, s.instances[i].requestBodyRef, obs.requestBody)
    && Carries(s.bodies, s.instances[i].responseBodyRef, obs.responseBody)
  }

  /** How many bodies of the observation the instance has no reference for. */
  function Missing(ref: Option<nat>, observed: Option<ObservedBody>): nat {
    if observed.Some? && ref.None? then 1 else 0
  }

  /** The bodies stored since before. */
  ghost function FreshBodies(before: Bodies, after: Bodies): set<nat> {
    set b | b in after.byId && b >= before.next
  }

  ghost function TruncatedAmong(bodies: Bodies, ids: set<nat>): set<nat> {
    set b | b in ids && b in bodies.byId && bodies.byId[b].truncated
  }

  /** What one body of an observation does to the bodies. */
  ghost predicate TakesIn(before: Bodies, after: Bodies, ref: Option<nat>, observed: Option<ObservedBody>) {
    && BodiesIndexed(after) && before.next <= after.next
    && (forall b :: b in before.byId ==> b in after.byId && after.byId[b] == before.byId[b])
    && (forall b :: b in after.byId && b !in before.byId ==> b >= before.next && Holds(after.byId[b], observed))
    && Carries(after, ref, observed)
    && (ref.None? && observed.Some? ==> |before.byId| >= BODIES_CAP && after.byId == before.byId)
    && after.omitted == before.omitted + Missing(ref, observed)
    && after.truncated == before.truncated + |TruncatedAmong(after, FreshBodies(before, after))|
  }

  lemma ResolvedTakesIn(bodies: Bodies, observed: Option<ObservedBody>)
    requires BodiesIndexed(bodies)
    ensures var (after, ref) := Resolved(bodies, observed); TakesIn(bodies, after, ref, observed) && BodiesIndexed(after)
  {
    if observed.Some? && observed.value.fingerprint !in bodies.byHash && |bodies.byId| < BODIES_CAP {
      NewBodyTakenIn(bodies, observed.value);
    } else {
      KnownBodyTakenIn(bodies, observed);
    }
  }

  lemma NewBodyTakenIn(bodies: Bodies, observed: ObservedBody)
    requires BodiesIndexed(bodies) && observed.fingerprint !in bodies.byHash && |bodies.byId| < BODIES_CAP
    ensures var (after, ref) := Resolved(bodies, Some(observed)); TakesIn(bodies, after, ref, Some(observed))
  {
    var (after, ref) := Resolved(bodies, Some(observed));
    NewBodyKeepsIndex(bodies, observed);
    FreshIsNew(bodies, after, observed);
    hide BodiesIndexed, FreshBodies, TruncatedAmong;
  }

  lemma KnownBodyTakenIn(bodies: Bodies, observed: Option<ObservedBody>)
    requires BodiesIndexed(bodies)
    requires observed.Some? && observed.value.fingerprint !in bodies.byHash ==> |bodies.byId| >= BODIES_CAP
    ensures var (after, ref) := Resolved(bodies, observed); TakesIn(bodies, after, ref, observed)
  {
    var (after, ref) := Resolved(bodies, observed);
    assert FreshBodies(bodies, after) == {} && TruncatedAmong(after, {}) == {};
    if observed.Some? && observed.value.fingerprint in bodies.byHash {
      assert Indexes(bodies.byHash, observed.value.fingerprint, bodies.byHash[observed.value.fingerprint]);
    }
  }

  lemma FreshIsNew(bodies: Bodies, after: Bodies, observed: ObservedBody)
    requires forall b :: b in bodies.byId ==> b < bodies.next
    requires after.byId == bodies.byId[bodies.next := NewBody(bodies.next, observed)]
    ensures bodies.next !in bodies.byId
    ensures FreshBodies(bodies, after) == {bodies.next}
    ensures TruncatedAmong(after, FreshBodies(bodies, after)) == if observed.truncated then {bodies.next} else {}
  {
  }

  /** What committing leaves of the store it is done in. */
  ghost predicate Grows(room: Store, t: Store, obs: Observation) {
    && t.instances.Keys == room.instances.Keys + {room.nextInstance} && t.nextInstance == room.nextInstance + 1
    && (forall i :: i in room.instances && i != room.nextInstance ==> t.instances[i] == room.instances[i])
    && (forall i :: i in room.instances && i != room.nextInstance ==> SameUrl(room, t, i))
    && t.groups.Keys == room.groups.Keys
    && (forall g :: g in t.groups && g in room.groups ==> t.groups[g].shape == room.groups[g].shape)
    && (forall b :: b in t.bodies.byId ==> KeptOrFresh(room.bodies, t.bodies, b, obs))
  }

  /** A stored body was there before, unchanged, or is one of the observation's own. */
  predicate KeptOrFresh(before: Bodies, after: Bodies, b: nat, obs: Observation)
    requires b in after.byId
  {
    || (b in before.byId && after.byId[b] == before.byId[b])
    || (b >= before.next && (Holds(after.byId[b], obs.requestBody) || Holds(after.byId[b], obs.responseBody)))
  }

  lemma CommitGrows(room: Store, g: nat, obs: Observation)
    requires g in room.groups && BodiesIndexed(room.bodies)
    ensures Grows(room, Commit(room, g, obs), obs)
  {
    hide BodiesIndexed, Resolved, TakesIn;
    var (afterRequest, requestRef) := Resolved(room.bodies, obs.requestBody);
    var (afterBoth, responseRef) := Resolved(afterRequest, obs.responseBody);
    ResolvedTakesIn(room.bodies, obs.requestBody);
    ResolvedTakesIn(afterRequest, obs.responseBody);
    TakenInTwice(room.bodies, afterRequest, afterBoth, requestRef, responseRef, obs);
    hide KeptOrFresh;
  }

  lemma TakenInTwice(
      before: Bodies, between: Bodies, after: Bodies, requestRef: Option<nat>, responseRef: Option<nat>, obs: Observation)
    requires TakesIn(before, between, requestRef, obs.requestBody)
    requires TakesIn(between, after, responseRef, obs.responseBody)
    ensures forall b :: b in after.byId ==> KeptOrFresh(before, after, b, obs)
    ensures Carries(after, requestRef, obs.requestBody) && Carries(after, responseRef, obs.responseBody)
  {
    hide Holds, BodiesIndexed;
  }

  lemma CommitShows(room: Store, g: nat, obs: Observation)
    requires g in room.groups && room.groups[g].shape == obs.shape && BodiesIndexed(room.bodies)
    requires room.nextInstance !in room.redirectUrls
    ensures Shows(Commit(room, g, obs), room.nextInstance, obs)
  {
    hide BodiesIndexed, Resolved, TakesIn, Carries, KeptOrFresh;
    var (afterRequest, requestRef) := Resolved(room.bodies, obs.requestBody);
    var (afterBoth, responseRef) := Resolved(afterRequest, obs.responseBody);
    ResolvedTakesIn(room.bodies, obs.requestBody);
    ResolvedTakesIn(afterRequest, obs.responseBody);
    TakenInTwice(room.bodies, afterRequest, afterBoth, requestRef, responseRef, obs);
  }

  /** Instances, redirects, bodies and shapes that are still there are as they were. */
  ghost predicate Keeps(s: Store, t: Store) {
    && (forall i :: i in t.instances && i in s.instances ==> t.instances[i] == s.instances[i])
    && (forall i :: i in t.instances && i in s.instances ==> SameUrl(s, t, i))
    && (forall g :: g in t.groups && g in s.groups ==> t.groups[g].shape == s.groups[g].shape)
    && (forall b :: b in t.bodies.byId && b in s.bodies.byId ==> t.bodies.byId[b] == s.bodies.byId[b])
  }

  lemma SurvivorsStillShow(s: Store, t: Store, i: nat, obs: Observation)
    requires Shows(s, i, obs) && Keeps(s, t) && i in t.instances && Linked(t)
    ensures Shows(t, i, obs)
  {
    RefersToStored(t, i);
    hide Linked;
  }

  lemma RefersToStored(t: Store, i: nat)
    requires Linked(t) && i in t.instances
    ensures t.instances[i].groupId in t.groups
    ensures forall b :: t.instances[i].requestBodyRef == Some(b) ==> b in t.bodies.byId
    ensures forall b :: t.instances[i].responseBodyRef == Some(b) ==> b in t.bodies.byId
  {
    hide GroupsLinked, BodiesIndexed;
    forall b | t.instances[i].requestBodyRef == Some(b) ensures b in t.bodies.byId {
      assert Refers(t.instances[i], b);
    }
    forall b | t.instances[i].responseBodyRef == Some(b) ensures b in t.bodies.byId {
      assert Refers(t.instances[i], b);
    }
  }

  /** What an observation that is stored does: it is the newcomer, and all else that remains is as it was. */
  ghost predicate Enters(s: Store, t: Store, obs: Observation) {
    && Shows(t, s.nextInstance, obs)
    && t.nextInstance == s.nextInstance + 1
    && t.instances.Keys <= s.instances.Keys + {s.nextInstance}
    && Keeps(s, t)
    && (forall b :: b in t.bodies.byId ==> KeptOrFresh(s.bodies, t.bodies, b, obs))
  }

  /** What an observation that is not stored does. */
  ghost predicate Passes(s: Store, t: Store) {
    && t.instances == s.instances && t.nextInstance == s.nextInstance && t.bodies == s.bodies
    && Keeps(s, t)
  }

  lemma DecomposedEnters(s: Store, t: Store, obs: Observation, room: Store, g: nat)
    requires Linked(s) && Decomposes(s, t, obs, room, g)
    ensures Enters(s, t, obs)
  {
    NewIdIsFree(s, room);
    hide Commit, Shows, Linked, BodiesIndexed;
    CommitShows(room, g, obs);
    CommitGrows(room, g, obs);
    hide Decomposes;
    ClearedThenGrown(s, room, t, obs);
  }

  lemma NewIdIsFree(s: Store, room: Store)
    requires Linked(s) && Cleared(s, room)
    ensures room.nextInstance == s.nextInstance && s.nextInstance !in s.instances && room.nextInstance !in room.redirectUrls
    ensures s.nextInstance !in room.instances
    ensures forall b :: b in s.bodies.byId ==> b < s.bodies.next
  {
    hide GroupsLinked, ClearedBodies;
  }

  lemma ClearedThenGrown(s: Store, room: Store, t: Store, obs: Observation)
    requires Cleared(s, room) && Grows(room, t, obs) && s.nextInstance !in s.instances
    requires forall b :: b in s.bodies.byId ==> b < s.bodies.next
    ensures t.nextInstance == s.nextInstance + 1 && t.instances.Keys <= s.instances.Keys + {s.nextInstance}
    ensures Keeps(s, t)
    ensures forall b :: b in t.bodies.byId ==> KeptOrFresh(s.bodies, t.bodies, b, obs)
  {
    hide Holds, BodiesIndexed;
  }

  // ----- Observations that are not stored

  lemma PassesItself(s: Store, t: Store)
    requires t.instances == s.instances && t.redirectUrls == s.redirectUrls && t.bodies == s.bodies
    requires t.nextInstance == s.nextInstance
    requires forall g :: g in t.groups && g in s.groups ==> t.groups[g].shape == s.groups[g].shape
    ensures Passes(s, t)
  {
  }

  lemma NoPlacePasses(s: Store, existing: Option<nat>, obs: Observation)
    requires Linked(s) && !HasRoom(s, obs.shape)
    ensures Passes(s, Place(s, existing, obs))
  {
    hide Linked, HasRoom, Passes;
    PassesItself(s, Place(s, existing, obs));
  }

  lemma KnownShapePasses(s: Store, h: nat, obs: Observation)
    requires Linked(s) && NoEmptyGroup(s.groups, s.instances)
    requires Indexes(s.groupByShape, HashShape(obs.shape), h) && h in s.groups && s.groups[h].shape == obs.shape
    requires HashShape(obs.shape) in s.metadata
    requires IsSampledOut(s.metadata[HashShape(obs.shape)].total + 1)
      || (|s.instances| >= INSTANCES_CAP && !Lower(s, PriorityScore(obs.shape)))
    ensures Passes(s, AdmitToGroup(Observed(s), h, obs))
  {
    hide Linked, NoEmptyGroup, Lower, Place, CanEvict, OnlyLeastEvicted, Indexes, IsSampledOut, Passes;
    var o, f := Observed(s), HashShape(obs.shape);
    var counted := WithMetadata(o, f, Counted(o.metadata[f], obs.offsetMs));
    KnownCountingKeepsLinks(s, h, obs);
    SameTablesSameJudgement(s, counted, counted, PriorityScore(obs.shape));
    if IsSampledOut(counted.metadata[f].total) {
      PassesItself(s, Suppress(counted, h));
    } else {
      InstanceEvictable(counted, PriorityScore(obs.shape));
      NoPlacePasses(counted, Some(h), obs);
      PassesFrom(s, counted, Place(counted, Some(h), obs));
    }
  }

  lemma PassesFrom(s: Store, o: Store, t: Store)
    requires Passes(o, t) && o.instances == s.instances && o.redirectUrls == s.redirectUrls && o.bodies == s.bodies
    requires o.groups == s.groups && o.nextInstance == s.nextInstance
    ensures Passes(s, t)
  {
  }

  lemma NewShapePasses(s: Store, obs: Observation)
    requires Linked(s) && NoEmptyGroup(s.groups, s.instances)
    requires |s.groups| >= GROUPS_CAP || |s.instances| >= INSTANCES_CAP
    requires !Lower(s, PriorityScore(obs.shape))
    ensures Passes(s, AdmitNewShape(s, obs))
  {
    hide Linked, NoEmptyGroup, Lower, Place, Discard, CanEvict, Passes;
    InstanceEvictable(s, PriorityScore(obs.shape));
    GroupEvictable(s, PriorityScore(obs.shape));
    if |s.groups| < GROUPS_CAP {
      NoPlacePasses(s, None, obs);
    } else {
      PassesItself(s, AdmitNewShape(s, obs));
    }
  }

  lemma UnstoredPasses(s: Store, obs: Observation)
    requires Consistent(s) && FateOf(s, obs) != Stored
    ensures Passes(s, Admitted(s, obs))
  {
    hide AdmitToGroup, AdmitNewShape, GroupsLinked, InstancesLinked, BodiesLinked, TotalsBalance, GroupsBalance,
      GroupsSampled, NoEmptyGroup, Lower, Passes;
    ObservedIsLinked(s);
    var o, f := Observed(s), HashShape(obs.shape);
    if IsLowSignalStaticAsset(obs.shape) {
      PassesItself(s, Admitted(s, obs));
    } else if f in s.groupByShape {
      KnownShapeIsGroups(s, s.groupByShape[f], obs);
      KnownShapePasses(s, s.groupByShape[f], obs);
    } else {
      SameTablesSameJudgement(s, o, o, PriorityScore(obs.shape));
      NewShapePasses(o, obs);
      PassesFrom(s, o, AdmitNewShape(o, obs));
    }
  }

  // ----- Every run

  /**
   One admission: an observation that is stored is the newcomer itself, and in every case what remains of the
   store is as it was.
   */
  lemma AdmissionIsFaithful(s: Store, obs: Observation)
    requires Consistent(s)
    ensures if FateOf(s, obs) == Stored then Enters(s, Admitted(s, obs), obs) else Passes(s, Admitted(s, obs))
  {
    hide FateOf, Admitted, Decomposes, Enters, Passes, NoEmptyGroup, WithinCaps, TotalsBalance, GroupsBalance,
      GroupsSampled, Linked;
    if FateOf(s, obs) == Stored {
      var room, g := StoredDecomposes(s, obs);
      DecomposedEnters(s, Admitted(s, obs), obs, room, g);
    } else {
      UnstoredPasses(s, obs);
    }
  }

  /** Which observation each instance id was given to. */
  ghost function Origins(observations: seq<Observation>): map<nat, nat> {
    if observations == [] then map[]
    else
      var n := |observations| - 1;
      var s := Run(observations[..n]);
      if FateOf(s, observations[n]) == Stored then Origins(observations[..n])[s.nextInstance := n]
      else Origins(observations[..n])
  }

  ghost predicate Increasing(origins: map<nat, nat>, next: nat, n: nat) {
    && (forall i :: i in origins ==> i < next && origins[i] < n)
    && (forall i, j :: i in origins && j in origins && i < j ==> origins[i] < origins[j])
  }

  /** Ids are given in the order of the observations. */
  lemma {:induction false} OriginsIncrease(observations: seq<Observation>)
    ensures Increasing(Origins(observations), Run(observations).nextInstance, |observations|)
  {
    if observations != [] {
      var n := |observations| - 1;
      OriginsIncrease(observations[..n]);
      hide FateOf, Admitted, Run, Increasing;
      RunStep(observations);
      OriginsStep(observations);
      var s, t := Run(observations[..n]), Run(observations);
      hide Origins, Consistent, Enters, Passes;
      AdmissionIsFaithful(s, observations[n]);
      IdsAdvance(s, t, observations[n]);
      IncreasingStep(Origins(observations[..n]), s.nextInstance, n);
    }
  }

  lemma IdsAdvance(s: Store, t: Store, obs: Observation)
    ensures Enters(s, t, obs) ==> t.nextInstance == s.nextInstance + 1
    ensures Passes(s, t) ==> t.nextInstance == s.nextInstance
  {
    hide Shows, Keeps, KeptOrFresh;
  }

  lemma IncreasingStep(origins: map<nat, nat>, next: nat, n: nat)
    requires Increasing(origins, next, n)
    ensures Increasing(origins, next, n + 1) && Increasing(origins[next := n], next + 1, n + 1)
  {
  }

  /** Every retained instance is the observation it was given its id for. */
  ghost predicate Traced(s: Store, origins: map<nat, nat>, observations: seq<Observation>) {
    forall i :: i in s.instances ==>
      && i in origins && origins[i] < |observations|
      && Shows(s, i, observations[origins[i]])
  }

  lemma {:induction false} EveryInstanceWasObserved(observations: seq<Observation>)
    ensures Traced(Run(observations), Origins(observations), observations)
  {
    if observations != [] {
      var n := |observations| - 1;
      EveryInstanceWasObserved(observations[..n]);
      hide FateOf, Admitted, Run;
      RunStep(observations);
      OriginsStep(observations);
      var s, t := Run(observations[..n]), Run(observations);
      var before := Origins(observations[..n]);
      hide Origins, Consistent, Enters, Passes, Traced;
      AdmissionIsFaithful(s, observations[n]);
      TracedStep(s, t, before, observations, FateOf(s, observations[n]) == Stored);
    }
  }

  lemma RunStep(observations: seq<Observation>)
    requires observations != []
    ensures
      var n := |observations| - 1;
      && Consistent(Run(observations[..n])) && Consistent(Run(observations))
      && Run(observations) == Admitted(Run(observations[..n]), observations[n])
  {
    hide Consistent, Admitted;
  }

  lemma OriginsStep(observations: seq<Observation>)
    requires observations != []
    ensures
      var n := |observations| - 1;
      var s := Run(observations[..n]);
      && Linked(s)
      && Origins(observations) ==
         if FateOf(s, observations[n]) == Stored then Origins(observations[..n])[s.nextInstance := n]
         else Origins(observations[..n])
  {
    hide FateOf, GroupsLinked, InstancesLinked, BodiesLinked, NoEmptyGroup, WithinCaps, TotalsBalance, GroupsBalance,
      GroupsSampled, Run;
  }

  lemma TracedStep(s: Store, t: Store, origins: map<nat, nat>, observations: seq<Observation>, stored: bool)
    requires observations != [] && Linked(t) && Traced(s, origins, observations[..|observations| - 1])
    requires if stored then Enters(s, t, observations[|observations| - 1]) else Passes(s, t)
    ensures
      Traced(t, if stored then origins[s.nextInstance := |observations| - 1] else origins, observations)
  {
    hide Shows, Linked, Keeps;
    forall i | i in t.instances && !(stored && i == s.nextInstance)
      ensures i in origins && origins[i] < |observations| && Shows(t, i, observations[origins[i]])
    {
      SurvivorsStillShow(s, t, i, observations[origins[i]]);
    }
  }

  // ----- Bodies

  /** What a stored observation does to the body counters: each body left out and each new truncated body counts. */
  ghost predicate BodiesCounted(s: Store, t: Store, obs: Observation)
    requires s.nextInstance in t.instances
  {
    var inst := t.instances[s.nextInstance];
    && t.bodies.omitted ==
       s.bodies.omitted + Missing(inst.requestBodyRef, obs.requestBody) + Missing(inst.responseBodyRef, obs.responseBody)
    && (t.bodies.omitted > s.bodies.omitted ==> |t.bodies.byId| >= BODIES_CAP)
    && t.bodies.truncated == s.bodies.truncated + |TruncatedAmong(t.bodies, FreshBodies(s.bodies, t.bodies))|
  }

  lemma BodiesAreCounted(s: Store, obs: Observation)
    requires Consistent(s) && FateOf(s, obs) == Stored
    ensures s.nextInstance in Admitted(s, obs).instances && BodiesCounted(s, Admitted(s, obs), obs)
  {
    hide Admitted, FateOf, Linked, NoEmptyGroup, WithinCaps, TotalsBalance, GroupsBalance, GroupsSampled,
      BodiesIndexed, Commit, BodiesCounted, ClearedBodies;
    var room, g := StoredDecomposes(s, obs);
    CommitCounts(room, g, obs);
    CountedFrom(s, room, Admitted(s, obs), obs);
  }

  lemma CommitCounts(room: Store, g: nat, obs: Observation)
    requires g in room.groups && BodiesIndexed(room.bodies)
    ensures room.nextInstance in Commit(room, g, obs).instances && BodiesCounted(room, Commit(room, g, obs), obs)
  {
    hide BodiesIndexed, Resolved, TakesIn, TruncatedAmong;
    var (afterRequest, requestRef) := Resolved(room.bodies, obs.requestBody);
    var (afterBoth, responseRef) := Resolved(afterRequest, obs.responseBody);
    ResolvedTakesIn(room.bodies, obs.requestBody);
    ResolvedTakesIn(afterRequest, obs.responseBody);
    CountedTwice(room.bodies, afterRequest, afterBoth, requestRef, responseRef, obs);
  }

  lemma CountedFrom(s: Store, room: Store, t: Store, obs: Observation)
    requires ClearedBodies(s.bodies, room.bodies) && room.nextInstance == s.nextInstance
    requires room.nextInstance in t.instances && BodiesCounted(room, t, obs)
    ensures BodiesCounted(s, t, obs)
  {
    hide TruncatedAmong;
    assert FreshBodies(room.bodies, t.bodies) == FreshBodies(s.bodies, t.bodies);
  }

  lemma CountedTwice(
      before: Bodies, between: Bodies, after: Bodies, requestRef: Option<nat>, responseRef: Option<nat>, obs: Observation)
    requires TakesIn(before, between, requestRef, obs.requestBody)
    requires TakesIn(between, after, responseRef, obs.responseBody)
    ensures after.omitted ==
      before.omitted + Missing(requestRef, obs.requestBody) + Missing(responseRef, obs.responseBody)
    ensures after.omitted > before.omitted ==> |after.byId| >= BODIES_CAP
    ensures after.truncated == before.truncated + |TruncatedAmong(after, FreshBodies(before, after))|
  {
    hide Holds, Carries;
    SubsetSize(between.byId.Keys, after.byId.Keys);
    SubsetSize(before.byId.Keys, between.byId.Keys);
    FreshInTwo(before, between, after);
  }

  lemma FreshInTwo(before: Bodies, between: Bodies, after: Bodies)
    requires BodiesIndexed(between) && before.next <= between.next
    requires forall b :: b in between.byId ==> b in after.byId && after.byId[b] == between.byId[b]
    requires forall b :: b in after.byId && b !in between.byId ==> b >= between.next
    ensures |TruncatedAmong(after, FreshBodies(before, after))| ==
      |TruncatedAmong(between, FreshBodies(before, between))| + |TruncatedAmong(after, FreshBodies(between, after))|
  {
    var first := TruncatedAmong(between, FreshBodies(before, between));
    var second := TruncatedAmong(after, FreshBodies(between, after));
    assert forall b :: b in between.byId ==> b < between.next;
    hide BodiesIndexed;
    assert TruncatedAmong(after, FreshBodies(before, after)) == first + second;
    assert first !! second;
  }

  ghost predicate WasObserved(body: Body, observations: seq<Observation>) {
    exists k :: 0 <= k < |observations|
      && (Holds(body, observations[k].requestBody) || Holds(body, observations[k].responseBody))
  }

  /** Every stored body is one of the observed bodies, with all it holds. */
  lemma {:induction false} EveryBodyWasObserved(observations: seq<Observation>)
    ensures forall b :: b in Run(observations).bodies.byId ==> WasObserved(Run(observations).bodies.byId[b], observations)
  {
    if observations != [] {
      var n := |observations| - 1;
      EveryBodyWasObserved(observations[..n]);
      hide FateOf, Admitted, Run;
      RunStep(observations);
      var s, t := Run(observations[..n]), Run(observations);
      hide Consistent, WasObserved;
      AdmissionIsFaithful(s, observations[n]);
      hide Keeps, Shows;
      forall b | b in t.bodies.byId ensures WasObserved(t.bodies.byId[b], observations) {
        ObservedStep(s.bodies, t.bodies, b, observations);
      }
    }
  }

  lemma ObservedStep(before: Bodies, after: Bodies, b: nat, observations: seq<Observation>)
    requires observations != [] && b in after.byId
    requires forall c :: c in before.byId ==> WasObserved(before.byId[c], observations[..|observations| - 1])
    requires after == before || KeptOrFresh(before, after, b, observations[|observations| - 1])
    ensures WasObserved(after.byId[b], observations)
  {
    hide Holds;
    if b in before.byId && after.byId[b] == before.byId[b] {
      var k :| 0 <= k < |observations| - 1
        && (Holds(after.byId[b], observations[..|observations| - 1][k].requestBody)
            || Holds(after.byId[b], observations[..|observations| - 1][k].responseBody));
      assert Holds(after.byId[b], observations[k].requestBody) || Holds(after.byId[b], observations[k].responseBody);
    }
  }

  ghost predicate Bodied(observations: seq<Observation>, body: ObservedBody) {
    exists k :: 0 <= k < |observations|
      && (observations[k].requestBody == Some(body) || observations[k].responseBody == Some(body))
  }

  /** Equal fingerprints come from equal content of equal type: the digest is over these two. */
  ghost predicate DigestTells(observations: seq<Observation>) {
    forall x, y :: Bodied(observations, x) && Bodied(observations, y) && x.fingerprint == y.fingerprint ==>
      x.content == y.content && x.contentType == y.contentType
  }

  /** Bodies with equal fingerprints were also cut at the same place, or neither was: the digest does not say. */
  ghost predicate FlagsAgree(observations: seq<Observation>) {
    forall x, y :: Bodied(observations, x) && Bodied(observations, y) && x.fingerprint == y.fingerprint ==>
      x.truncated == y.truncated
  }

  /** The reference leads to the content observed. */
  predicate Reads(bodies: Bodies, ref: Option<nat>, observed: Option<ObservedBody>) {
    ref.Some? ==>
      && observed.Some? && ref.value in bodies.byId
      && bodies.byId[ref.value].content == observed.value.content
      && bodies.byId[ref.value].contentType == observed.value.contentType
      && bodies.byId[ref.value].fingerprint == observed.value.fingerprint
  }

  predicate Flagged(bodies: Bodies, ref: Option<nat>, observed: Option<ObservedBody>) {
    ref.Some? && observed.Some? && ref.value in bodies.byId ==>
      bodies.byId[ref.value].truncated == observed.value.truncated
  }

  /** The bodies of a retained instance are those of its observation. */
  lemma RetainedBodiesAreObserved(observations: seq<Observation>, i: nat)
    requires DigestTells(observations) && i in Run(observations).instances
    ensures i in Origins(observations) && Origins(observations)[i] < |observations|
    ensures
      var inst, obs := Run(observations).instances[i], observations[Origins(observations)[i]];
      var bodies := Run(observations).bodies;
      && Reads(bodies, inst.requestBodyRef, obs.requestBody) && Reads(bodies, inst.responseBodyRef, obs.responseBody)
      && (FlagsAgree(observations) ==>
            Flagged(bodies, inst.requestBodyRef, obs.requestBody) && Flagged(bodies, inst.responseBodyRef, obs.responseBody))
  {
    EveryInstanceWasObserved(observations);
    EveryBodyWasObserved(observations);
    var t := Run(observations);
    hide Run, Origins, WasObserved, DigestTells, FlagsAgree;
    var k := Origins(observations)[i];
    var inst, obs := t.instances[i], observations[k];
    if inst.requestBodyRef.Some? {
      assert observations[k].requestBody == obs.requestBody;
      SameFingerprintSameBody(observations, t.bodies.byId[inst.requestBodyRef.value], obs.requestBody.value, k);
    }
    if inst.responseBodyRef.Some? {
      assert observations[k].responseBody == obs.responseBody;
      SameFingerprintSameBody(observations, t.bodies.byId[inst.responseBodyRef.value], obs.responseBody.value, k);
    }
  }

  lemma SameFingerprintSameBody(observations: seq<Observation>, body: Body, observed: ObservedBody, k: nat)
    requires WasObserved(body, observations) && body.fingerprint == observed.fingerprint && DigestTells(observations)
    requires k < |observations|
    requires observations[k].requestBody == Some(observed) || observations[k].responseBody == Some(observed)
    ensures body.content == observed.content && body.contentType == observed.contentType
    ensures FlagsAgree(observations) ==> body.truncated == observed.truncated
  {
    var j :| 0 <= j < |observations|
      && (Holds(body, observations[j].requestBody) || Holds(body, observations[j].responseBody));
    var other :=
      if Holds(body, observations[j].requestBody) then observations[j].requestBody.value
      else observations[j].responseBody.value;
    assert Bodied(observations, other) && Bodied(observations, observed);
  }

  /** An observation with nothing but a shape and a request body. */
  function Requested(shape: Shape, context: Context, body: ObservedBody): Observation {
    Observation(shape, None, context, None, Some(body), None)
  }

  /**
   Two bodies with one fingerprint, one after the other: the second instance is given the first body, so it is
   told as observed exactly when the two are the same, flag included.
   */
  lemma SharedBodyIsTheFirst(shape: Shape, context: Context, x: ObservedBody, y: ObservedBody)
    requires !IsLowSignalStaticAsset(shape) && x.fingerprint == y.fingerprint
    ensures
      var t := Run([Requested(shape, context, x), Requested(shape, context, y)]);
      && 1 in t.instances && t.instances[1].requestBodyRef == Some(0) && 0 in t.bodies.byId
      && (Holds(t.bodies.byId[0], Some(y)) <==> x == y)
  {
    var first, second := Requested(shape, context, x), Requested(shape, context, y);
    assert [first, second][..1] == [first] && [first][..0] == [];
    hide Run;
    EmptyRun();
    RunStep([first]);
    RunStep([first, second]);
    hide Consistent, Admitted;
    FirstIsStored(first);
    SecondIsShared(Run([first]), shape, context, x, y);
  }

  lemma EmptyRun()
    ensures Run([]) == EMPTY
  {
  }

  /** The store that knows one body of one request. */
  ghost predicate HoldsOne(s: Store, shape: Shape, x: ObservedBody) {
    && s.instances.Keys == {0} && s.nextInstance == 1
    && 0 in s.groups && HashShape(shape) in s.groupByShape && s.groupByShape[HashShape(shape)] == 0
    && HashShape(shape) in s.metadata && s.metadata[HashShape(shape)].total == 1
    && s.bodies.byHash == map[x.fingerprint := 0]
    && s.bodies.byId == map[0 := Body(0, x.content, x.contentType, x.truncated, x.fingerprint)]
  }

  lemma FirstIsStored(first: Observation)
    requires !IsLowSignalStaticAsset(first.shape) && first.requestBody.Some? && first.responseBody.None?
    requires Linked(EMPTY)
    ensures HoldsOne(Admitted(EMPTY, first), first.shape, first.requestBody.value)
  {
    hide Linked, IsLowSignalStaticAsset, CanEvict, GroupKeys, InstanceKeys;
    assert Admitted(EMPTY, first) == Commit(AddGroup(Observed(EMPTY), first), 0, first);
  }

  lemma SecondIsShared(s: Store, shape: Shape, context: Context, x: ObservedBody, y: ObservedBody)
    requires Linked(s) && !IsLowSignalStaticAsset(shape) && HoldsOne(s, shape, x) && y.fingerprint == x.fingerprint
    ensures
      var t := Admitted(s, Requested(shape, context, y));
      && 1 in t.instances && t.instances[1].requestBodyRef == Some(0) && 0 in t.bodies.byId
      && (Holds(t.bodies.byId[0], Some(y)) <==> x == y)
  {
    hide Linked, IsLowSignalStaticAsset, CanEvict, GroupKeys, InstanceKeys;
    var counted := WithMetadata(Observed(s), HashShape(shape), Counted(s.metadata[HashShape(shape)], None));
    assert |s.instances| == |s.instances.Keys|;
    assert Admitted(s, Requested(shape, context, y)) == Commit(counted, 0, Requested(shape, context, y));
  }
}
