/**
 The meaning of the bounded network store, on values.

 Removal is stated as garbage collection: a group lives while an instance belongs to it, and a body
 lives while an instance refers to it. The reference counts, per-group instance sets and sequence
 numbers of the implementation do not occur here; `NetworkBuilder` is proved to compute these
 functions with them.
 */
module NetworkStore {
  import opened Options
  import opened NetworkPriority

  const INSTANCES_CAP: nat := 500
  const GROUPS_CAP: nat := 200
  const BODIES_CAP: nat := 100
  const DUPLICATE_SAMPLE_THRESHOLD: nat := 3
  const DUPLICATE_SAMPLE_STRIDE: nat := 10

  // ----- Observations and records

  datatype ObservedBody = ObservedBody(
    content: string, contentType: Option<string>, truncated: bool, fingerprint: string)

  /** The instance fields that are carried through untouched. */
  datatype Context = Context(
    durationMs: Option<real>, timings: Option<seq<real>>, traceId: Option<string>,
    spanId: Option<string>, requestId: Option<string>, correlationId: Option<string>)

  datatype Observation = Observation(
    shape: Shape, offsetMs: Option<real>, context: Context, redirectToUrl: Option<string>,
    requestBody: Option<ObservedBody>, responseBody: Option<ObservedBody>)

  /** SHA-1 of the canonical JSON of a shape, taken to be injective. */
  datatype Fingerprint = ShapeHash(shape: Shape)

  function HashShape(shape: Shape): Fingerprint { ShapeHash(shape) }

  datatype Metadata = Metadata(firstOffsetMs: Option<real>, lastOffsetMs: Option<real>, total: nat)

  datatype Counts = Counts(occurrences: nat, retained: nat, suppressed: nat, evicted: nat)

  datatype Group = Group(
    id: nat, shape: Shape, fingerprint: Fingerprint, counts: Counts,
    firstOffsetMs: Option<real>, lastOffsetMs: Option<real>)

  datatype Instance = Instance(
    id: nat, groupId: nat, httpMethod: string, url: string, status: int,
    offsetMs: Option<real>, context: Context,
    requestBodyRef: Option<nat>, responseBodyRef: Option<nat>,
    redirectToId: Option<nat>, redirectFromId: Option<nat>)

  datatype Body = Body(
    id: nat, content: string, contentType: Option<string>, truncated: bool, fingerprint: string)

  datatype Summary = Summary(
    observed: nat, retainedInstances: nat, retainedGroups: nat, retainedBodies: nat,
    filtered: nat, groupCapDrops: nat, instanceCapDrops: nat, suppressed: nat, evicted: nat)

  /** The deduplicated bodies, with the two counters that only body storage touches. */
  datatype Bodies = Bodies(
    byId: map<nat, Body>, byHash: map<string, nat>, next: nat, omitted: nat, truncated: nat)

  datatype Store = Store(
    groups: map<nat, Group>,
    groupByShape: map<Fingerprint, nat>,
    metadata: map<Fingerprint, Metadata>,
    instances: map<nat, Instance>,
    redirectUrls: map<nat, string>,
    bodies: Bodies,
    nextGroup: nat, nextInstance: nat,
    summary: Summary)

  const EMPTY := Store(
    map[], map[], map[], map[], map[], Bodies(map[], map[], 0, 0, 0), 0, 0, Summary(0, 0, 0, 0, 0, 0, 0, 0, 0))

  // ----- Membership and reference

  ghost function Members(instances: map<nat, Instance>, g: nat): set<nat> {
    set i | i in instances && instances[i].groupId == g
  }

  ghost predicate Refers(inst: Instance, b: nat) {
    inst.requestBodyRef == Some(b) || inst.responseBodyRef == Some(b)
  }

  ghost predicate Used(instances: map<nat, Instance>, b: nat) {
    exists i :: i in instances && Refers(instances[i], b)
  }

  // ----- The eviction order

  /** Lowest score first, then the oldest offset (a missing one is latest), then the oldest id. */
  datatype Key = Key(score: int, offset: Option<real>, id: nat)

  predicate OffsetBefore(a: Option<real>, b: Option<real>) {
    a.Some? && (b.None? || a.value < b.value)
  }

  predicate Before(a: Key, b: Key) {
    || a.score < b.score
    || (a.score == b.score && OffsetBefore(a.offset, b.offset))
    || (a.score == b.score && a.offset == b.offset && a.id < b.id)
  }

  ghost function GroupKeys(s: Store): (keys: map<nat, Key>)
    ensures OwnIds(keys)
  {
    map g | g in s.groups ::
      Key(PriorityScore(s.groups[g].shape),
          if s.groups[g].fingerprint in s.metadata then s.metadata[s.groups[g].fingerprint].firstOffsetMs else None,
          g)
  }

  ghost function InstanceKeys(s: Store): (keys: map<nat, Key>)
    ensures OwnIds(keys)
  {
    map i | i in s.instances && s.instances[i].groupId in s.groups ::
      Key(PriorityScore(s.groups[s.instances[i].groupId].shape), s.instances[i].offsetMs, i)
  }

  ghost predicate IsLeast(keys: map<nat, Key>, k: nat) {
    k in keys && forall j :: j in keys && j != k ==> Before(keys[k], keys[j])
  }

  ghost predicate OwnIds(keys: map<nat, Key>) {
    forall k :: k in keys ==> keys[k].id == k
  }

  lemma LeastExists(keys: map<nat, Key>)
    requires keys != map[] && OwnIds(keys)
    ensures exists k :: IsLeast(keys, k)
    decreases |keys|
  {
    var k :| k in keys;
    var rest := keys - {k};
    if rest == map[] {
      assert IsLeast(keys, k) by {
        assert forall j :: j in keys && j != k ==> j in rest;
      }
    } else {
      LeastExists(rest);
      var j :| IsLeast(rest, j);
      var least := if Before(keys[j], keys[k]) then j else k;
      forall i | i in keys && i != least ensures Before(keys[least], keys[i]) {
        if i != k && i != j { assert i in rest; }
      }
      assert IsLeast(keys, least);
    }
  }

  ghost function Least(keys: map<nat, Key>): (k: nat)
    requires keys != map[] && OwnIds(keys)
    ensures IsLeast(keys, k)
  {
    LeastExists(keys);
    var k :| IsLeast(keys, k);
    k
  }

  /** Something ranks strictly below the score. */
  ghost predicate CanEvict(keys: map<nat, Key>, score: int)
    requires OwnIds(keys)
  {
    keys != map[] && keys[Least(keys)].score < score
  }

  // ----- Removal

  /** Keeps the bodies that some instance still refers to. */
  ghost function Collected(bodies: Bodies, instances: map<nat, Instance>): Bodies {
    bodies.(byId := map b | b in bodies.byId && Used(instances, b) :: bodies.byId[b],
            byHash := map h | h in bodies.byHash && Used(instances, bodies.byHash[h]) :: bodies.byHash[h])
  }

  function WithEvictions(group: Group, n: nat): Group {
    group.(counts := group.counts.(evicted := group.counts.evicted + n))
  }

  /** Each group counts its members among the evicted. */
  ghost function Evicted(groups: map<nat, Group>, instances: map<nat, Instance>, ids: set<nat>): map<nat, Group> {
    map g | g in groups :: WithEvictions(groups[g], |Members(instances, g) * ids|)
  }

  /** Takes instances out, counts them as evicted, and drops every body nothing refers to any more. */
  ghost function Detach(s: Store, ids: set<nat>): Store {
    var instances := s.instances - ids;
    s.(instances := instances,
       redirectUrls := s.redirectUrls - ids,
       groups := Evicted(s.groups, s.instances, ids),
       bodies := Collected(s.bodies, instances),
       summary := s.summary.(evicted := s.summary.evicted + |ids|))
  }

  ghost function DropEmptyGroups(s: Store): Store {
    var index := map f | f in s.groupByShape && Members(s.instances, s.groupByShape[f]) != {} :: s.groupByShape[f];
    s.(groups := map g | g in s.groups && Members(s.instances, g) != {} :: s.groups[g],
       groupByShape := index,
       metadata := map f | f in s.metadata && f in index :: s.metadata[f])
  }

  ghost function Discard(s: Store, ids: set<nat>): Store {
    DropEmptyGroups(Detach(s, ids))
  }

  // ----- Admission

  /** Whether the k-th counted observation of a shape is left out by duplicate sampling. */
  predicate IsSampledOut(k: nat) {
    && k > DUPLICATE_SAMPLE_THRESHOLD
    && (k - DUPLICATE_SAMPLE_THRESHOLD) % DUPLICATE_SAMPLE_STRIDE != 0
  }

  function Earlier(a: Option<real>, offset: Option<real>): Option<real> {
    if offset.None? || (a.Some? && a.value <= offset.value) then a else offset
  }

  function Later(a: Option<real>, offset: Option<real>): Option<real> {
    if offset.None? || (a.Some? && a.value >= offset.value) then a else offset
  }

  function Counted(m: Metadata, offset: Option<real>): Metadata {
    Metadata(Earlier(m.firstOffsetMs, offset), Later(m.lastOffsetMs, offset), m.total + 1)
  }

  function NewGroup(g: nat, shape: Shape): Group {
    Group(g, shape, HashShape(shape), Counts(0, 0, 0, 0), None, None)
  }

  function NewInstance(i: nat, g: nat, obs: Observation): Instance {
    Instance(i, g, obs.shape.httpMethod, obs.shape.url, obs.shape.status, obs.offsetMs, obs.context,
             None, None, None, None)
  }

  function NewBody(b: nat, observed: ObservedBody): Body {
    Body(b, observed.content, observed.contentType, observed.truncated, observed.fingerprint)
  }

  function AddGroup(s: Store, obs: Observation): Store {
    s.(groups := s.groups[s.nextGroup := NewGroup(s.nextGroup, obs.shape)],
       groupByShape := s.groupByShape[HashShape(obs.shape) := s.nextGroup],
       metadata := s.metadata[HashShape(obs.shape) := Metadata(obs.offsetMs, obs.offsetMs, 1)],
       nextGroup := s.nextGroup + 1)
  }

  function WithOccurrence(group: Group): Group {
    group.(counts := group.counts.(occurrences := group.counts.occurrences + 1))
  }

  /** Shares a stored body, or stores a new one below the cap, or leaves the body out. */
  function Resolved(bodies: Bodies, observed: Option<ObservedBody>): (Bodies, Option<nat>) {
    if observed.None? then
      (bodies, None)
    else if observed.value.fingerprint in bodies.byHash then
      (bodies, Some(bodies.byHash[observed.value.fingerprint]))
    else if |bodies.byId| >= BODIES_CAP then
      (bodies.(omitted := bodies.omitted + 1), None)
    else
      (Bodies(bodies.byId[bodies.next := NewBody(bodies.next, observed.value)],
              bodies.byHash[observed.value.fingerprint := bodies.next],
              bodies.next + 1,
              bodies.omitted,
              bodies.truncated + if observed.value.truncated then 1 else 0),
       Some(bodies.next))
  }

  /** Stores the instance in group g, and its request and response bodies in that order. */
  function Commit(s: Store, g: nat, obs: Observation): Store
    requires g in s.groups
  {
    var (afterRequest, requestRef) := Resolved(s.bodies, obs.requestBody);
    var (afterBoth, responseRef) := Resolved(afterRequest, obs.responseBody);
    var inst := NewInstance(s.nextInstance, g, obs).(requestBodyRef := requestRef, responseBodyRef := responseRef);
    s.(instances := s.instances[s.nextInstance := inst],
       redirectUrls := if obs.redirectToUrl.Some? then s.redirectUrls[s.nextInstance := obs.redirectToUrl.value]
                       else s.redirectUrls,
       groups := s.groups[g := WithOccurrence(s.groups[g])],
       bodies := afterBoth,
       nextInstance := s.nextInstance + 1)
  }

  ghost predicate HasRoom(s: Store, shape: Shape) {
    |s.instances| < INSTANCES_CAP || CanEvict(InstanceKeys(s), PriorityScore(shape))
  }

  ghost function Room(s: Store, shape: Shape): Store
    requires HasRoom(s, shape)
  {
    if |s.instances| < INSTANCES_CAP then s else Discard(s, {Least(InstanceKeys(s))})
  }

  /** Makes room under the instance cap if it must and can, then commits to the group. */
  ghost function Place(s: Store, existing: Option<nat>, obs: Observation): Store {
    if !HasRoom(s, obs.shape) then
      s.(summary := s.summary.(instanceCapDrops := s.summary.instanceCapDrops + 1))
    else
      var room := Room(s, obs.shape);
      match existing
      case None => Commit(AddGroup(room, obs), room.nextGroup, obs)
      case Some(g) =>
        // ExistingGroupSurvives shows that the guard always holds.
        if g in room.groups then Commit(room, g, obs) else room
  }

  function WithSuppression(group: Group): Group {
    group.(counts := group.counts.(suppressed := group.counts.suppressed + 1, occurrences := group.counts.occurrences + 1))
  }

  function Suppress(s: Store, g: nat): Store
    requires g in s.groups
  {
    s.(groups := s.groups[g := WithSuppression(s.groups[g])],
       summary := s.summary.(suppressed := s.summary.suppressed + 1))
  }

  function WithMetadata(s: Store, f: Fingerprint, m: Metadata): Store {
    s.(metadata := s.metadata[f := m])
  }

  ghost function AdmitToGroup(s: Store, g: nat, obs: Observation): Store
    requires g in s.groups && HashShape(obs.shape) in s.metadata
  {
    var m := Counted(s.metadata[HashShape(obs.shape)], obs.offsetMs);
    var counted := WithMetadata(s, HashShape(obs.shape), m);
    if IsSampledOut(m.total) then Suppress(counted, g) else Place(counted, Some(g), obs)
  }

  ghost function AdmitNewShape(s: Store, obs: Observation): Store {
    var keys := GroupKeys(s);
    if |s.groups| < GROUPS_CAP then
      Place(s, None, obs)
    else if !CanEvict(keys, PriorityScore(obs.shape)) then
      s.(summary := s.summary.(groupCapDrops := s.summary.groupCapDrops + 1))
    else
      Place(Discard(s, Members(s.instances, Least(keys))), None, obs)
  }

  function Observed(s: Store): Store {
    s.(summary := s.summary.(observed := s.summary.observed + 1))
  }

  ghost function Admitted(s: Store, obs: Observation): Store
    requires Linked(s)
  {
    var s := Observed(s);
    if IsLowSignalStaticAsset(obs.shape) then
      s.(summary := s.summary.(filtered := s.summary.filtered + 1))
    else
      if HashShape(obs.shape) in s.groupByShape then
        assert Indexes(s.groupByShape, HashShape(obs.shape), s.groupByShape[HashShape(obs.shape)]);
        AdmitToGroup(s, s.groupByShape[HashShape(obs.shape)], obs)
      else
        AdmitNewShape(s, obs)
  }

  ghost function Run(observations: seq<Observation>): (s: Store)
    ensures Consistent(s)
  {
    if observations == [] then
      EmptyIsConsistent();
      EMPTY
    else
      var before := Run(observations[..|observations| - 1]);
      AdmitKeepsConsistent(before, observations[|observations| - 1]);
      Admitted(before, observations[|observations| - 1])
  }

  // ----- What every admission keeps

  ghost predicate GroupLinked(group: Group, g: nat, nextGroup: nat) {
    && g < nextGroup
    && group.id == g
    && group.fingerprint == HashShape(group.shape)
    && group.counts.retained == 0
    && group.firstOffsetMs == None
    && group.lastOffsetMs == None
  }

  ghost predicate Indexes<K>(index: map<K, nat>, key: K, id: nat) {
    key in index && index[key] == id
  }

  /** Groups and their index by shape are mutual inverses; metadata covers exactly the live shapes. */
  ghost predicate GroupsLinked(
      groups: map<nat, Group>, index: map<Fingerprint, nat>, metadata: map<Fingerprint, Metadata>, nextGroup: nat)
  {
    && (forall g :: g in groups ==> GroupLinked(groups[g], g, nextGroup))
    && (forall g :: g in groups ==> Indexes(index, groups[g].fingerprint, g))
    && (forall f, g :: Indexes(index, f, g) ==> g in groups && groups[g].fingerprint == f)
    && metadata.Keys == index.Keys
  }

  ghost predicate InstanceLinked(inst: Instance, i: nat, groups: set<nat>, nextInstance: nat) {
    && i < nextInstance
    && inst.id == i
    && inst.groupId in groups
    && inst.redirectToId == None
    && inst.redirectFromId == None
  }

  ghost predicate InstancesLinked(instances: map<nat, Instance>, redirectUrls: map<nat, string>, groups: set<nat>, nextInstance: nat) {
    && (forall i :: i in instances ==> InstanceLinked(instances[i], i, groups, nextInstance))
    && redirectUrls.Keys <= instances.Keys
  }

  /** Bodies and their index by hash are mutual inverses; exactly the bodies in use are stored. */
  ghost predicate BodiesLinked(bodies: Bodies, instances: map<nat, Instance>) {
    && BodiesIndexed(bodies)
    && (forall b :: b in bodies.byId ==> Used(instances, b))
    && (forall i, b {:trigger Refers(instances[i], b)} ::
          i in instances && Refers(instances[i], b) ==> b in bodies.byId)
  }

  ghost predicate BodiesIndexed(bodies: Bodies) {
    && (forall b :: b in bodies.byId ==> b < bodies.next && bodies.byId[b].id == b)
    && (forall b :: b in bodies.byId ==> Indexes(bodies.byHash, bodies.byId[b].fingerprint, b))
    && (forall h, b :: Indexes(bodies.byHash, h, b) ==> b in bodies.byId && bodies.byId[b].fingerprint == h)
  }

  ghost predicate Linked(s: Store) {
    && GroupsLinked(s.groups, s.groupByShape, s.metadata, s.nextGroup)
    && InstancesLinked(s.instances, s.redirectUrls, s.groups.Keys, s.nextInstance)
    && BodiesLinked(s.bodies, s.instances)
  }

  ghost predicate NoEmptyGroup(groups: map<nat, Group>, instances: map<nat, Instance>) {
    forall g :: g in groups ==> Members(instances, g) != {}
  }

  ghost predicate WithinCaps(s: Store) {
    |s.instances| <= INSTANCES_CAP && |s.groups| <= GROUPS_CAP && |s.bodies.byId| <= BODIES_CAP
  }

  /** The sum the implementation checks at the end, with the instances still to be counted. */
  ghost predicate TotalsBalance(s: Store) {
    s.summary.observed ==
    |s.instances| + s.summary.filtered + s.summary.groupCapDrops + s.summary.instanceCapDrops
    + s.summary.suppressed + s.summary.evicted
  }

  ghost predicate GroupsBalance(groups: map<nat, Group>, instances: map<nat, Instance>) {
    forall g :: g in groups ==> GroupBalances(groups[g].counts, |Members(instances, g)|)
  }

  predicate GroupBalances(counts: Counts, retained: nat) {
    counts.occurrences == retained + counts.suppressed + counts.evicted
  }

  function SuppressedAmong(n: nat): int {
    n - (if n < 3 then n else 3) - (if n < 3 then 0 else (n - 3) / 10)
  }

  /** Duplicate sampling in closed form, and the filter at work: nothing scores 1. */
  ghost predicate GroupsSampled(groups: map<nat, Group>, metadata: map<Fingerprint, Metadata>) {
    forall g :: g in groups && groups[g].fingerprint in metadata ==>
      && groups[g].counts.suppressed == SuppressedAmong(metadata[groups[g].fingerprint].total)
      && PriorityScore(groups[g].shape) != 1
  }

  ghost predicate Consistent(s: Store) {
    && Linked(s)
    && NoEmptyGroup(s.groups, s.instances)
    && WithinCaps(s)
    && TotalsBalance(s)
    && GroupsBalance(s.groups, s.instances)
    && GroupsSampled(s.groups, s.metadata)
  }

  // ----- Proofs: removal

  /** Counters may change freely: links depend on ids, shapes and fingerprints only. */
  ghost predicate SameIdentities(a: map<nat, Group>, b: map<nat, Group>) {
    a.Keys == b.Keys && forall g :: g in a ==> SameIdentity(a[g], b[g])
  }

  ghost predicate SameIdentity(a: Group, b: Group) {
    && b.id == a.id && b.shape == a.shape && b.fingerprint == a.fingerprint
    && b.counts.retained == a.counts.retained
    && b.firstOffsetMs == a.firstOffsetMs && b.lastOffsetMs == a.lastOffsetMs
  }

  lemma SameIdentitiesKeepLinks(
      a: map<nat, Group>, b: map<nat, Group>, index: map<Fingerprint, nat>, metadata: map<Fingerprint, Metadata>, nextGroup: nat)
    requires GroupsLinked(a, index, metadata, nextGroup) && SameIdentities(a, b)
    ensures GroupsLinked(b, index, metadata, nextGroup)
  {
  }

  lemma CollectedIndexed(bodies: Bodies, instances: map<nat, Instance>)
    requires BodiesIndexed(bodies)
    ensures BodiesIndexed(Collected(bodies, instances))
  {
    var after := Collected(bodies, instances);
    forall h, b | Indexes(after.byHash, h, b) ensures b in after.byId && after.byId[b].fingerprint == h {
      assert Indexes(bodies.byHash, h, b);
    }
    forall b | b in after.byId ensures Indexes(after.byHash, after.byId[b].fingerprint, b) {
      assert Indexes(bodies.byHash, bodies.byId[b].fingerprint, b);
    }
  }

  lemma DetachKeepsBodies(bodies: Bodies, instances: map<nat, Instance>, ids: set<nat>)
    requires BodiesLinked(bodies, instances)
    ensures BodiesLinked(Collected(bodies, instances - ids), instances - ids)
  {
    var left := instances - ids;
    CollectedIndexed(bodies, left);
    forall i, b | i in left && Refers(left[i], b) ensures b in Collected(bodies, left).byId {
      assert Refers(instances[i], b);
    }
  }

  lemma DetachKeepsInstances(
      instances: map<nat, Instance>, urls: map<nat, string>, groups: set<nat>, nextInstance: nat, ids: set<nat>)
    requires InstancesLinked(instances, urls, groups, nextInstance)
    ensures InstancesLinked(instances - ids, urls - ids, groups, nextInstance)
  {
  }

  lemma DetachKeepsLinks(s: Store, ids: set<nat>)
    requires Linked(s)
    ensures Linked(Detach(s, ids))
    ensures SameIdentities(s.groups, Detach(s, ids).groups)
  {
    var t := Detach(s, ids);
    assert t.groups.Keys == s.groups.Keys;
    SameIdentitiesKeepLinks(s.groups, t.groups, s.groupByShape, s.metadata, s.nextGroup);
    DetachKeepsInstances(s.instances, s.redirectUrls, s.groups.Keys, s.nextInstance, ids);
    DetachKeepsBodies(s.bodies, s.instances, ids);
  }

  lemma SplitSize<T>(all: set<T>, part: set<T>)
    ensures |all| == |all - part| + |all * part|
  {
    assert all == (all - part) + (all * part);
  }

  lemma DetachSize(s: Store, ids: set<nat>)
    requires ids <= s.instances.Keys
    ensures |Detach(s, ids).instances| == |s.instances| - |ids|
  {
    SplitSize(s.instances.Keys, ids);
    assert (s.instances - ids).Keys == s.instances.Keys - ids;
    assert s.instances.Keys * ids == ids;
  }

  lemma DetachKeepsBalance(s: Store, ids: set<nat>)
    requires GroupsBalance(s.groups, s.instances)
    ensures GroupsBalance(Detach(s, ids).groups, Detach(s, ids).instances)
  {
    var t := Detach(s, ids);
    forall g | g in t.groups
      ensures GroupBalances(t.groups[g].counts, |Members(t.instances, g)|)
    {
      SplitSize(Members(s.instances, g), ids);
      assert Members(t.instances, g) == Members(s.instances, g) - ids;
    }
  }

  lemma DropEmptyKeepsGroups(s: Store)
    requires GroupsLinked(s.groups, s.groupByShape, s.metadata, s.nextGroup)
    ensures var t := DropEmptyGroups(s); GroupsLinked(t.groups, t.groupByShape, t.metadata, t.nextGroup)
  {
    var t := DropEmptyGroups(s);
    forall f, g | Indexes(t.groupByShape, f, g) ensures g in t.groups && t.groups[g].fingerprint == f {
      assert Indexes(s.groupByShape, f, g);
    }
    forall g | g in t.groups ensures Indexes(t.groupByShape, t.groups[g].fingerprint, g) {
      assert Indexes(s.groupByShape, s.groups[g].fingerprint, g);
    }
  }

  lemma DropEmptyKeepsLinks(s: Store)
    requires Linked(s)
    ensures Linked(DropEmptyGroups(s)) && NoEmptyGroup(DropEmptyGroups(s).groups, DropEmptyGroups(s).instances)
  {
    var t := DropEmptyGroups(s);
    DropEmptyKeepsGroups(s);
    forall i | i in t.instances ensures InstanceLinked(t.instances[i], i, t.groups.Keys, t.nextInstance) {
      assert i in Members(s.instances, s.instances[i].groupId);
    }
  }

  lemma DropEmptyKeepsBalance(s: Store)
    requires GroupsBalance(s.groups, s.instances)
    ensures GroupsBalance(DropEmptyGroups(s).groups, DropEmptyGroups(s).instances)
  {
  }

  lemma SubsetSize<T>(a: set<T>, b: set<T>)
    requires a <= b
    ensures |a| <= |b|
    ensures |a| == |b| ==> a == b
  {
    assert b == a + (b - a);
  }

  lemma DiscardKeepsLinks(s: Store, ids: set<nat>)
    requires Linked(s)
    ensures Linked(Discard(s, ids)) && NoEmptyGroup(Discard(s, ids).groups, Discard(s, ids).instances)
  {
    DetachKeepsLinks(s, ids);
    DropEmptyKeepsLinks(Detach(s, ids));
  }

  lemma DiscardKeepsSampling(s: Store, ids: set<nat>)
    requires GroupsSampled(s.groups, s.metadata)
    ensures GroupsSampled(Discard(s, ids).groups, Discard(s, ids).metadata)
  {
  }

  lemma DiscardKeepsCaps(s: Store, ids: set<nat>)
    requires ids <= s.instances.Keys && WithinCaps(s)
    ensures WithinCaps(Discard(s, ids))
    ensures |Discard(s, ids).instances| == |s.instances| - |ids|
  {
    DetachSize(s, ids);
    SubsetSize(Discard(s, ids).groups.Keys, s.groups.Keys);
    SubsetSize(Discard(s, ids).bodies.byId.Keys, s.bodies.byId.Keys);
  }

  // ----- Proofs: commitment

  lemma AddGroupKeepsLinks(s: Store, obs: Observation)
    requires Linked(s) && HashShape(obs.shape) !in s.groupByShape
    ensures Linked(AddGroup(s, obs))
    ensures s.nextGroup !in s.groups
  {
    var t := AddGroup(s, obs);
    forall g | g in t.groups ensures Indexes(t.groupByShape, t.groups[g].fingerprint, g) {
      assert g in s.groups ==> Indexes(s.groupByShape, s.groups[g].fingerprint, g);
    }
    forall f, g | Indexes(t.groupByShape, f, g) ensures g in t.groups && t.groups[g].fingerprint == f {
      assert f != HashShape(obs.shape) ==> Indexes(s.groupByShape, f, g);
    }
  }

  /** The bodies are linked once the instance i, which is new, also refers to ref. */
  ghost predicate LinkedWith(bodies: Bodies, instances: map<nat, Instance>, refs: set<nat>) {
    && BodiesIndexed(bodies)
    && (forall b :: b in bodies.byId ==> b in refs || Used(instances, b))
    && (forall i, b {:trigger Refers(instances[i], b)} ::
          i in instances && Refers(instances[i], b) ==> b in bodies.byId)
    && refs <= bodies.byId.Keys
    && |bodies.byId| <= BODIES_CAP
  }

  function RefSet(ref: Option<nat>): set<nat> {
    if ref.Some? then {ref.value} else {}
  }

  lemma NewBodyKeepsIndex(bodies: Bodies, observed: ObservedBody)
    requires BodiesIndexed(bodies) && observed.fingerprint !in bodies.byHash && |bodies.byId| < BODIES_CAP
    ensures BodiesIndexed(Resolved(bodies, Some(observed)).0)
    ensures bodies.next !in bodies.byId
  {
    var after := Resolved(bodies, Some(observed)).0;
    forall b | b in after.byId ensures Indexes(after.byHash, after.byId[b].fingerprint, b) {
      assert b in bodies.byId ==> Indexes(bodies.byHash, bodies.byId[b].fingerprint, b);
    }
    forall h, b | Indexes(after.byHash, h, b) ensures b in after.byId && after.byId[b].fingerprint == h {
      assert h != observed.fingerprint ==> Indexes(bodies.byHash, h, b);
    }
  }

  lemma ResolvedKeepsLinks(bodies: Bodies, instances: map<nat, Instance>, refs: set<nat>, observed: Option<ObservedBody>)
    requires LinkedWith(bodies, instances, refs)
    ensures var (after, ref) := Resolved(bodies, observed); LinkedWith(after, instances, refs + RefSet(ref))
  {
    if observed.Some? {
      var h := observed.value.fingerprint;
      if h in bodies.byHash {
        assert Indexes(bodies.byHash, h, bodies.byHash[h]);
      } else if |bodies.byId| < BODIES_CAP {
        NewBodyKeepsIndex(bodies, observed.value);
        assert Resolved(bodies, observed).0.byId.Keys == bodies.byId.Keys + {bodies.next};
      }
    }
  }

  lemma NewInstanceLinks(bodies: Bodies, instances: map<nat, Instance>, i: nat, inst: Instance)
    requires i !in instances
    requires LinkedWith(bodies, instances, RefSet(inst.requestBodyRef) + RefSet(inst.responseBodyRef))
    ensures BodiesLinked(bodies, instances[i := inst])
  {
    var after := instances[i := inst];
    forall b | b in bodies.byId ensures Used(after, b) {
      if Used(instances, b) {
        var j :| j in instances && Refers(instances[j], b);
        assert Refers(after[j], b);
      } else {
        assert Refers(after[i], b);
      }
    }
  }

  lemma CommitKeepsBodies(s: Store, g: nat, obs: Observation)
    requires g in s.groups && s.nextInstance !in s.instances
    requires BodiesLinked(s.bodies, s.instances) && |s.bodies.byId| <= BODIES_CAP
    ensures BodiesLinked(Commit(s, g, obs).bodies, Commit(s, g, obs).instances)
    ensures |Commit(s, g, obs).bodies.byId| <= BODIES_CAP
  {
    var (afterRequest, requestRef) := Resolved(s.bodies, obs.requestBody);
    assert LinkedWith(s.bodies, s.instances, {});
    ResolvedKeepsLinks(s.bodies, s.instances, {}, obs.requestBody);
    ResolvedKeepsLinks(afterRequest, s.instances, {} + RefSet(requestRef), obs.responseBody);
    assert {} + RefSet(requestRef) == RefSet(requestRef);
    NewInstanceLinks(Commit(s, g, obs).bodies, s.instances, s.nextInstance, Commit(s, g, obs).instances[s.nextInstance]);
  }

  lemma CommitKeepsLinks(s: Store, g: nat, obs: Observation)
    requires Linked(s) && g in s.groups && |s.bodies.byId| <= BODIES_CAP
    ensures Linked(Commit(s, g, obs))
    ensures |Commit(s, g, obs).bodies.byId| <= BODIES_CAP
  {
    var t := Commit(s, g, obs);
    assert t.groups.Keys == s.groups.Keys;
    SameIdentitiesKeepLinks(s.groups, t.groups, s.groupByShape, s.metadata, s.nextGroup);
    CommitKeepsBodies(s, g, obs);
  }

  // ----- Proofs: every admission keeps the store consistent

  /** The totals are short by n observations that have been counted but not yet placed. */
  ghost predicate Owing(s: Store, n: nat) {
    s.summary.observed ==
    |s.instances| + s.summary.filtered + s.summary.groupCapDrops + s.summary.instanceCapDrops
    + s.summary.suppressed + s.summary.evicted + n
  }

  /** Consistent, but for n observations still to be placed. */
  ghost predicate Pending(s: Store, n: nat) {
    && Linked(s)
    && NoEmptyGroup(s.groups, s.instances)
    && WithinCaps(s)
    && Owing(s, n)
    && GroupsBalance(s.groups, s.instances)
    && GroupsSampled(s.groups, s.metadata)
  }

  lemma DiscardKeepsPending(s: Store, ids: set<nat>, n: nat)
    requires Pending(s, n) && ids <= s.instances.Keys
    ensures Pending(Discard(s, ids), n)
  {
    DiscardKeepsLinks(s, ids);
    DiscardKeepsCaps(s, ids);
    DiscardKeepsSampling(s, ids);
    DetachKeepsBalance(s, ids);
    DropEmptyKeepsBalance(Detach(s, ids));
  }

  lemma CommitKeepsBalance(s: Store, g: nat, obs: Observation)
    requires g in s.groups && s.nextInstance !in s.instances && GroupsBalance(s.groups, s.instances)
    requires forall h :: h in s.groups && h != g ==> Members(s.instances, h) != {}
    ensures GroupsBalance(Commit(s, g, obs).groups, Commit(s, g, obs).instances)
    ensures NoEmptyGroup(Commit(s, g, obs).groups, Commit(s, g, obs).instances)
  {
    var t := Commit(s, g, obs);
    forall h | h in t.groups
      ensures GroupBalances(t.groups[h].counts, |Members(t.instances, h)|)
      ensures Members(t.instances, h) != {}
    {
      if h == g {
        assert Members(t.instances, h) == Members(s.instances, h) + {s.nextInstance};
        assert s.nextInstance in Members(t.instances, h) && s.nextInstance !in Members(s.instances, h);
      } else {
        assert Members(t.instances, h) == Members(s.instances, h);
      }
    }
  }

  lemma CommitKeepsTotals(s: Store, g: nat, obs: Observation)
    requires g in s.groups && s.nextInstance !in s.instances
    requires WithinCaps(s) && |s.instances| < INSTANCES_CAP && Owing(s, 1)
    requires |Commit(s, g, obs).bodies.byId| <= BODIES_CAP
    ensures WithinCaps(Commit(s, g, obs)) && Owing(Commit(s, g, obs), 0)
  {
    var t := Commit(s, g, obs);
    assert t.instances.Keys == s.instances.Keys + {s.nextInstance};
    assert t.groups.Keys == s.groups.Keys;
  }

  lemma CommitKeepsSampling(s: Store, g: nat, obs: Observation)
    requires g in s.groups && GroupsSampled(s.groups, s.metadata)
    ensures GroupsSampled(Commit(s, g, obs).groups, Commit(s, g, obs).metadata)
  {
  }

  lemma CommitSettles(s: Store, g: nat, obs: Observation)
    requires Linked(s) && g in s.groups && WithinCaps(s) && |s.instances| < INSTANCES_CAP
    requires Owing(s, 1) && GroupsBalance(s.groups, s.instances) && GroupsSampled(s.groups, s.metadata)
    requires forall h :: h in s.groups && h != g ==> Members(s.instances, h) != {}
    ensures Pending(Commit(s, g, obs), 0)
  {
    CommitKeepsLinks(s, g, obs);
    CommitKeepsBalance(s, g, obs);
    CommitKeepsTotals(s, g, obs);
    CommitKeepsSampling(s, g, obs);
  }

  /** Only the counters of the summary differ. */
  lemma SummaryKeepsPending(s: Store, t: Store, n: nat, m: nat)
    requires Pending(s, n) && t == s.(summary := t.summary) && Owing(t, m)
    ensures Pending(t, m)
  {
  }

  lemma AddGroupKeepsCaps(s: Store, obs: Observation)
    requires WithinCaps(s) && |s.groups| < GROUPS_CAP && s.nextGroup !in s.groups
    ensures WithinCaps(AddGroup(s, obs))
  {
    assert AddGroup(s, obs).groups.Keys == s.groups.Keys + {s.nextGroup};
  }

  lemma NewGroupSettles(s: Store, obs: Observation)
    requires Pending(s, 1) && |s.instances| < INSTANCES_CAP && |s.groups| < GROUPS_CAP
    requires HashShape(obs.shape) !in s.groupByShape && PriorityScore(obs.shape) != 1
    ensures Pending(Commit(AddGroup(s, obs), s.nextGroup, obs), 0)
  {
    AddGroupKeepsLinks(s, obs);
    AddGroupKeepsRest(s, obs);
    AddGroupKeepsCaps(s, obs);
    CommitSettles(AddGroup(s, obs), s.nextGroup, obs);
  }

  lemma UpdateKeepsBalance(groups: map<nat, Group>, instances: map<nat, Instance>, g: nat, group: Group)
    requires GroupsBalance(groups, instances) && GroupBalances(group.counts, |Members(instances, g)|)
    ensures GroupsBalance(groups[g := group], instances)
  {
  }

  lemma UpdateKeepsSampling(
      groups: map<nat, Group>, metadata: map<Fingerprint, Metadata>, g: nat, group: Group, m: Metadata)
    requires GroupsSampled(groups, metadata)
    requires forall h :: h in groups && h != g ==> groups[h].fingerprint != group.fingerprint
    requires group.counts.suppressed == SuppressedAmong(m.total) && PriorityScore(group.shape) != 1
    ensures GroupsSampled(groups[g := group], metadata[group.fingerprint := m])
  {
  }

  lemma OthersDiffer(
      groups: map<nat, Group>, index: map<Fingerprint, nat>, metadata: map<Fingerprint, Metadata>, nextGroup: nat,
      g: nat, f: Fingerprint)
    requires GroupsLinked(groups, index, metadata, nextGroup)
    requires f in index ==> index[f] == g
    ensures forall h :: h in groups && h != g ==> groups[h].fingerprint != f
  {
  }

  lemma NewGroupIsEmpty(s: Store)
    requires InstancesLinked(s.instances, s.redirectUrls, s.groups.Keys, s.nextInstance) && s.nextGroup !in s.groups
    ensures Members(s.instances, s.nextGroup) == {}
  {
  }

  lemma AddGroupKeepsRest(s: Store, obs: Observation)
    requires Linked(s) && s.nextGroup !in s.groups
    requires HashShape(obs.shape) !in s.groupByShape && PriorityScore(obs.shape) != 1
    requires GroupsBalance(s.groups, s.instances) && GroupsSampled(s.groups, s.metadata)
    ensures GroupsBalance(AddGroup(s, obs).groups, s.instances)
    ensures GroupsSampled(AddGroup(s, obs).groups, AddGroup(s, obs).metadata)
  {
    NewGroupIsEmpty(s);
    OthersDiffer(s.groups, s.groupByShape, s.metadata, s.nextGroup, s.nextGroup, HashShape(obs.shape));
    UpdateKeepsBalance(s.groups, s.instances, s.nextGroup, NewGroup(s.nextGroup, obs.shape));
    UpdateKeepsSampling(s.groups, s.metadata, s.nextGroup, NewGroup(s.nextGroup, obs.shape),
                        Metadata(obs.offsetMs, obs.offsetMs, 1));
  }

  lemma SurvivingMemberKeepsGroup(s: Store, ids: set<nat>, g: nat, i: nat)
    requires GroupsLinked(s.groups, s.groupByShape, s.metadata, s.nextGroup)
    requires g in s.groups && i in Members(s.instances, g) && i !in ids
    ensures g in Discard(s, ids).groups
  {
    assert i in Members(Detach(s, ids).instances, g);
  }

  /** The group id read before an eviction is still live after it: a victim scores strictly lower. */
  lemma ExistingGroupSurvives(s: Store, g: nat)
    requires Linked(s) && NoEmptyGroup(s.groups, s.instances) && g in s.groups
    requires CanEvict(InstanceKeys(s), PriorityScore(s.groups[g].shape))
    ensures g in Discard(s, {Least(InstanceKeys(s))}).groups
  {
    var v := Least(InstanceKeys(s));
    var i :| i in Members(s.instances, g);
    assert InstanceKeys(s)[v].score == PriorityScore(s.groups[s.instances[v].groupId].shape);
    SurvivingMemberKeepsGroup(s, {v}, g, i);
  }

  lemma PlaceSettles(s: Store, existing: Option<nat>, obs: Observation)
    requires Pending(s, 1) && PriorityScore(obs.shape) != 1
    requires match existing
      case Some(g) => g in s.groups && s.groups[g].shape == obs.shape
      case None => HashShape(obs.shape) !in s.groupByShape && |s.groups| < GROUPS_CAP
    ensures Pending(Place(s, existing, obs), 0)
  {
    if !HasRoom(s, obs.shape) {
      SummaryKeepsPending(s, Place(s, existing, obs), 1, 0);
    } else {
      RoomIsPending(s, obs.shape);
      match existing
      case None =>
        NewGroupSettles(Room(s, obs.shape), obs);
      case Some(g) =>
        if |s.instances| >= INSTANCES_CAP { ExistingGroupSurvives(s, g); }
        CommitSettles(Room(s, obs.shape), g, obs);
    }
  }

  lemma RoomIsPending(s: Store, shape: Shape)
    requires Pending(s, 1) && HasRoom(s, shape)
    ensures Pending(Room(s, shape), 1)
    ensures |Room(s, shape).instances| < INSTANCES_CAP
    ensures |Room(s, shape).groups| <= |s.groups|
    ensures Room(s, shape).groupByShape.Keys <= s.groupByShape.Keys
  {
    if |s.instances| >= INSTANCES_CAP {
      var ids := {Least(InstanceKeys(s))};
      DiscardKeepsPending(s, ids, 1);
      DiscardShrinks(s, ids);
    }
  }

  lemma DiscardShrinks(s: Store, ids: set<nat>)
    requires ids <= s.instances.Keys
    ensures |Discard(s, ids).instances| == |s.instances| - |ids|
    ensures Discard(s, ids).groups.Keys <= s.groups.Keys
    ensures |Discard(s, ids).groups| <= |s.groups|
    ensures Discard(s, ids).groupByShape.Keys <= s.groupByShape.Keys
  {
    DetachSize(s, ids);
    SubsetSize(Discard(s, ids).groups.Keys, s.groups.Keys);
  }

  /** Evicting a group frees a group slot and, since the group was not empty, an instance slot too. */
  lemma GroupEvictionMakesRoom(s: Store, g: nat)
    requires NoEmptyGroup(s.groups, s.instances) && g in s.groups
    ensures |Discard(s, Members(s.instances, g)).groups| < |s.groups|
    ensures |Discard(s, Members(s.instances, g)).instances| < |s.instances|
  {
    var t := Discard(s, Members(s.instances, g));
    DiscardShrinks(s, Members(s.instances, g));
    assert |Members(s.instances, g)| > 0;
    assert g !in t.groups by {
      assert Members(Detach(s, Members(s.instances, g)).instances, g) == {};
    }
    SubsetSize(t.groups.Keys, s.groups.Keys);
  }

  lemma SamplingStep(n: nat)
    requires n >= 1
    ensures SuppressedAmong(n) == SuppressedAmong(n - 1) + if IsSampledOut(n) then 1 else 0
  {
  }

  lemma UpdateGroupKeepsLinks(s: Store, t: Store, g: nat, f: Fingerprint)
    requires Linked(s) && g in s.groups && f in s.metadata
    requires t == s.(groups := t.groups, metadata := t.metadata, summary := t.summary) && g in t.groups && f in t.metadata
    requires t.groups == s.groups[g := t.groups[g]] && t.metadata == s.metadata[f := t.metadata[f]]
    requires SameIdentity(s.groups[g], t.groups[g])
    ensures Linked(t) && t.groups.Keys == s.groups.Keys
  {
    assert t.groups.Keys == s.groups.Keys && t.metadata.Keys == s.metadata.Keys;
    SameIdentitiesKeepLinks(s.groups, t.groups, s.groupByShape, t.metadata, s.nextGroup);
  }

  lemma CountingKeepsLinks(s: Store, g: nat, f: Fingerprint, m: Metadata)
    requires Linked(s) && g in s.groups && f in s.metadata
    ensures Linked(WithMetadata(s, f, m))
  {
    assert s.groups[g := s.groups[g]] == s.groups;
    UpdateGroupKeepsLinks(s, WithMetadata(s, f, m), g, f);
  }

  lemma CountingKeepsPending(s: Store, g: nat, f: Fingerprint, m: Metadata)
    requires Pending(s, 1) && g in s.groups && s.groups[g].fingerprint == f && f in s.metadata
    requires s.groups[g].counts.suppressed == SuppressedAmong(m.total)
    ensures Pending(WithMetadata(s, f, m), 1)
  {
    assert s.groups[g := s.groups[g]] == s.groups;
    UpdateGroupKeepsPending(s, WithMetadata(s, f, m), g, f, 1);
  }

  /** Replacing one group's counters and its shape's metadata keeps whatever the new values keep. */
  lemma UpdateGroupKeepsPending(s: Store, t: Store, g: nat, f: Fingerprint, n: nat)
    requires Pending(s, 1) && g in s.groups && s.groups[g].fingerprint == f && f in s.metadata && f in t.metadata
    requires t == s.(groups := t.groups, metadata := t.metadata, summary := t.summary) && g in t.groups
    requires t.groups == s.groups[g := t.groups[g]] && t.metadata == s.metadata[f := t.metadata[f]]
    requires SameIdentity(s.groups[g], t.groups[g])
    requires GroupBalances(t.groups[g].counts, |Members(s.instances, g)|)
    requires t.groups[g].counts.suppressed == SuppressedAmong(t.metadata[f].total)
    requires Owing(t, n)
    ensures Pending(t, n)
  {
    UpdateGroupKeepsLinks(s, t, g, f);
    OthersDiffer(s.groups, s.groupByShape, s.metadata, s.nextGroup, g, f);
    UpdateKeepsBalance(s.groups, s.instances, g, t.groups[g]);
    UpdateKeepsSampling(s.groups, s.metadata, g, t.groups[g], t.metadata[f]);
  }

  lemma AdmitToGroupSettles(s: Store, g: nat, obs: Observation)
    requires Pending(s, 1) && g in s.groups && s.groups[g].shape == obs.shape
    requires PriorityScore(obs.shape) != 1
    ensures Pending(AdmitToGroup(s, g, obs), 0)
  {
    var f := HashShape(obs.shape);
    var m := Counted(s.metadata[f], obs.offsetMs);
    var counted := WithMetadata(s, f, m);
    SamplingStep(m.total);
    hide Pending, Place;
    if IsSampledOut(m.total) {
      UpdateGroupKeepsPending(s, Suppress(counted, g), g, f, 0);
    } else {
      CountingKeepsPending(s, g, f, m);
      PlaceSettles(counted, Some(g), obs);
    }
  }

  lemma AdmitNewShapeSettles(s: Store, obs: Observation)
    requires Pending(s, 1) && HashShape(obs.shape) !in s.groupByShape && PriorityScore(obs.shape) != 1
    ensures Pending(AdmitNewShape(s, obs), 0)
  {
    hide Place, Discard, Linked, GroupsBalance, GroupsSampled;
    var keys := GroupKeys(s);
    if |s.groups| < GROUPS_CAP {
      PlaceSettles(s, None, obs);
    } else if !CanEvict(keys, PriorityScore(obs.shape)) {
      SummaryKeepsPending(s, AdmitNewShape(s, obs), 1, 0);
    } else {
      var ids := Members(s.instances, Least(keys));
      DiscardKeepsPending(s, ids, 1);
      DiscardShrinks(s, ids);
      GroupEvictionMakesRoom(s, Least(keys));
      PlaceSettles(Discard(s, ids), None, obs);
    }
  }

  lemma EmptyIsConsistent()
    ensures Consistent(EMPTY)
  {
  }

  /** The class invariant: one admission, whatever it evicts, drops or samples out, keeps all of it. */
  lemma AdmitKeepsConsistent(s: Store, obs: Observation)
    requires Consistent(s)
    ensures Consistent(Admitted(s, obs))
  {
    var o := Observed(s);
    assert Pending(s, 0);
    SummaryKeepsPending(s, o, 0, 1);
    if IsLowSignalStaticAsset(obs.shape) {
      SummaryKeepsPending(o, Admitted(s, obs), 1, 0);
    } else {
      if PriorityScore(obs.shape) == 1 { LowestScoreIsTheFilter(obs.shape); }
      if HashShape(obs.shape) in o.groupByShape {
        assert Indexes(o.groupByShape, HashShape(obs.shape), o.groupByShape[HashShape(obs.shape)]);
        AdmitToGroupSettles(o, o.groupByShape[HashShape(obs.shape)], obs);
      } else {
        AdmitNewShapeSettles(o, obs);
      }
      assert Pending(Admitted(s, obs), 0);
    }
  }

  // ----- What a run and an admission mean to the caller

  ghost function ScoreOf(s: Store, i: nat): int
    requires Linked(s) && i in s.instances
  {
    PriorityScore(s.groups[s.instances[i].groupId].shape)
  }

  /** Every observation ever made ends in exactly one bucket. */
  lemma {:induction false} RunAccountsForEverything(observations: seq<Observation>)
    ensures var s := Run(observations);
      |observations| == |s.instances| + s.summary.filtered + s.summary.groupCapDrops
                        + s.summary.instanceCapDrops + s.summary.suppressed + s.summary.evicted
  {
    RunCounts(observations);
  }

  lemma {:induction false} RunCounts(observations: seq<Observation>)
    ensures Run(observations).summary.observed == |observations|
  {
    if observations != [] {
      var before := observations[..|observations| - 1];
      RunCounts(before);
      AdmittedCounts(Run(before), observations[|observations| - 1]);
    }
  }

  lemma PlaceCounts(s: Store, existing: Option<nat>, obs: Observation)
    ensures Place(s, existing, obs).summary.observed == s.summary.observed
  {
  }

  lemma NewShapeCounts(s: Store, obs: Observation)
    ensures AdmitNewShape(s, obs).summary.observed == s.summary.observed
  {
    var keys := GroupKeys(s);
    if |s.groups| < GROUPS_CAP {
      PlaceCounts(s, None, obs);
    } else if CanEvict(keys, PriorityScore(obs.shape)) {
      PlaceCounts(Discard(s, Members(s.instances, Least(keys))), None, obs);
    }
  }

  lemma AdmittedCounts(s: Store, obs: Observation)
    requires Linked(s)
    ensures Admitted(s, obs).summary.observed == s.summary.observed + 1
  {
    var o, f := Observed(s), HashShape(obs.shape);
    if f in s.groupByShape {
      assert Indexes(s.groupByShape, f, s.groupByShape[f]);
      PlaceCounts(WithMetadata(o, f, Counted(o.metadata[f], obs.offsetMs)), Some(s.groupByShape[f]), obs);
    } else {
      NewShapeCounts(o, obs);
    }
  }

  /** The stored bodies are exactly the referenced ones: none dangles and none is left behind. */
  lemma BodiesAreExactlyTheReferenced(observations: seq<Observation>, b: nat)
    ensures b in Run(observations).bodies.byId <==> Used(Run(observations).instances, b)
  {
    var s := Run(observations);
    if Used(s.instances, b) {
      var i :| i in s.instances && Refers(s.instances[i], b);
    }
  }

  /** Something retained scores below the score. */
  ghost predicate Lower(s: Store, score: int)
    requires Linked(s)
  {
    exists i :: i in s.instances && ScoreOf(s, i) < score
  }

  lemma LeastScoreIsLeast(keys: map<nat, Key>, j: nat)
    requires OwnIds(keys) && j in keys
    ensures keys[Least(keys)].score <= keys[j].score
  {
  }

  /** What may be gone from s to t when a shape of the given score came in. */
  ghost predicate OnlyLeastEvicted(s: Store, t: Store, score: int)
    requires Linked(s)
  {
    && (forall i :: i in s.instances && i in t.instances ==> t.instances[i] == s.instances[i])
    && (forall i :: i in s.instances && i !in t.instances ==> ScoreOf(s, i) < score)
    && (forall i, j :: i in s.instances && i !in t.instances && j in s.instances ==> ScoreOf(s, i) <= ScoreOf(s, j))
  }

  lemma RoomEvictsTheLeast(s: Store, shape: Shape)
    requires Linked(s) && HasRoom(s, shape)
    ensures OnlyLeastEvicted(s, Room(s, shape), PriorityScore(shape))
    ensures Room(s, shape).nextInstance !in s.instances && Room(s, shape).instances.Keys <= s.instances.Keys
  {
    if |s.instances| >= INSTANCES_CAP {
      var keys := InstanceKeys(s);
      forall j | j in s.instances ensures keys[Least(keys)].score <= ScoreOf(s, j) {
        LeastScoreIsLeast(keys, j);
      }
    }
  }

  lemma CommitRetains(s: Store, g: nat, obs: Observation)
    requires g in s.groups && s.nextInstance !in s.instances
    ensures Commit(s, g, obs).instances.Keys == s.instances.Keys + {s.nextInstance}
    ensures forall i :: i in s.instances ==> Commit(s, g, obs).instances[i] == s.instances[i]
  {
  }

  lemma CommitEvicts(s: Store, room: Store, g: nat, obs: Observation)
    requires Linked(s) && g in room.groups && OnlyLeastEvicted(s, room, PriorityScore(obs.shape))
    requires room.nextInstance !in s.instances && room.instances.Keys <= s.instances.Keys
    ensures OnlyLeastEvicted(s, Commit(room, g, obs), PriorityScore(obs.shape))
  {
    CommitRetains(room, g, obs);
  }

  lemma PlaceEvictsTheLeast(s: Store, existing: Option<nat>, obs: Observation)
    requires Linked(s) && NoEmptyGroup(s.groups, s.instances)
    requires existing.Some? ==> existing.value in s.groups && s.groups[existing.value].shape == obs.shape
    ensures OnlyLeastEvicted(s, Place(s, existing, obs), PriorityScore(obs.shape))
  {
    if HasRoom(s, obs.shape) {
      var room := Room(s, obs.shape);
      RoomEvictsTheLeast(s, obs.shape);
      match existing
      case None =>
        CommitEvicts(s, AddGroup(room, obs), room.nextGroup, obs);
      case Some(g) =>
        if |s.instances| >= INSTANCES_CAP { ExistingGroupSurvives(s, g); }
        CommitEvicts(s, room, g, obs);
    }
  }

  lemma GroupEvictionTakesTheLeast(s: Store, shape: Shape)
    requires Linked(s) && CanEvict(GroupKeys(s), PriorityScore(shape))
    ensures OnlyLeastEvicted(s, Discard(s, Members(s.instances, Least(GroupKeys(s)))), PriorityScore(shape))
    ensures Discard(s, Members(s.instances, Least(GroupKeys(s)))).nextInstance !in s.instances
    ensures Discard(s, Members(s.instances, Least(GroupKeys(s)))).instances.Keys <= s.instances.Keys
  {
    var keys := GroupKeys(s);
    forall j | j in s.instances ensures keys[Least(keys)].score <= ScoreOf(s, j) {
      LeastScoreIsLeast(keys, s.instances[j].groupId);
    }
  }

  lemma ReplacedGroupIsTheLeast(s: Store, obs: Observation)
    requires Pending(s, 1) && CanEvict(GroupKeys(s), PriorityScore(obs.shape))
    ensures OnlyLeastEvicted(
      s, Place(Discard(s, Members(s.instances, Least(GroupKeys(s)))), None, obs), PriorityScore(obs.shape))
  {
    GroupEvictionTakesTheLeast(s, obs.shape);
    GroupEvictionMakesRoom(s, Least(GroupKeys(s)));
    PlaceAfterEviction(s, Discard(s, Members(s.instances, Least(GroupKeys(s)))), obs);
  }

  lemma NewShapeEvictsTheLeast(s: Store, obs: Observation)
    requires Pending(s, 1)
    ensures OnlyLeastEvicted(s, AdmitNewShape(s, obs), PriorityScore(obs.shape))
  {
    var score, t := PriorityScore(obs.shape), AdmitNewShape(s, obs);
    if |s.groups| < GROUPS_CAP {
      assert t == Place(s, None, obs);
      PlaceEvictsTheLeast(s, None, obs);
    } else if CanEvict(GroupKeys(s), score) {
      assert t == Place(Discard(s, Members(s.instances, Least(GroupKeys(s)))), None, obs);
      ReplacedGroupIsTheLeast(s, obs);
    } else {
      assert t.instances == s.instances;
    }
  }

  lemma PlaceAfterEviction(s: Store, room: Store, obs: Observation)
    requires Linked(s) && OnlyLeastEvicted(s, room, PriorityScore(obs.shape))
    requires room.nextInstance !in s.instances && room.instances.Keys <= s.instances.Keys
    requires |room.instances| < INSTANCES_CAP
    ensures OnlyLeastEvicted(s, Place(room, None, obs), PriorityScore(obs.shape))
  {
    CommitEvicts(s, AddGroup(room, obs), room.nextGroup, obs);
  }

  /** Neither counting an observation nor its shape changes what an eviction is judged by. */
  lemma SameTablesSameJudgement(s: Store, o: Store, t: Store, score: int)
    requires Linked(s) && Linked(o) && o.groups == s.groups && o.instances == s.instances
    ensures OnlyLeastEvicted(o, t, score) ==> OnlyLeastEvicted(s, t, score)
    ensures Lower(o, score) <==> Lower(s, score)
  {
    assert forall i :: i in s.instances ==> ScoreOf(o, i) == ScoreOf(s, i);
  }

  /** Retained instances never change, and only the least important are evicted, for something better. */
  lemma AdmitEvictsTheLeast(s: Store, obs: Observation)
    requires Consistent(s)
    ensures OnlyLeastEvicted(s, Admitted(s, obs), PriorityScore(obs.shape))
  {
    hide Place, AdmitNewShape, NoEmptyGroup, WithinCaps, GroupsBalance, GroupsSampled, Lower, InstancesLinked,
      BodiesLinked;
    var o, f := Observed(s), HashShape(obs.shape);
    assert Pending(s, 0);
    SummaryKeepsPending(s, o, 0, 1);
    if !IsLowSignalStaticAsset(obs.shape) {
      if f in o.groupByShape {
        var g := o.groupByShape[f];
        assert Indexes(o.groupByShape, f, g);
        var counted := WithMetadata(o, f, Counted(o.metadata[f], obs.offsetMs));
        CountingKeepsLinks(o, g, f, counted.metadata[f]);
        PlaceEvictsTheLeast(counted, Some(g), obs);
        SameTablesSameJudgement(s, counted, Admitted(s, obs), PriorityScore(obs.shape));
      } else {
        NewShapeEvictsTheLeast(o, obs);
        SameTablesSameJudgement(s, o, Admitted(s, obs), PriorityScore(obs.shape));
      }
    }
  }

  /** Below both caps nothing is evicted. */
  lemma NothingEvictedBelowTheCaps(s: Store, obs: Observation)
    requires Linked(s) && |s.instances| < INSTANCES_CAP && |s.groups| < GROUPS_CAP
    ensures s.instances.Keys <= Admitted(s, obs).instances.Keys
  {
    var f := HashShape(obs.shape);
    if f in s.groupByShape { assert Indexes(s.groupByShape, f, s.groupByShape[f]); }
  }

  // ----- What becomes of an observation

  datatype Fate = Filtered | SampledOut | DroppedByGroupCap | DroppedByInstanceCap | Stored

  /** What becomes of an observation, told from the store it meets. */
  ghost function FateOf(s: Store, obs: Observation): Fate
    requires Linked(s)
  {
    var f, lower := HashShape(obs.shape), Lower(s, PriorityScore(obs.shape));
    if IsLowSignalStaticAsset(obs.shape) then Filtered
    else if f in s.groupByShape && f in s.metadata && IsSampledOut(s.metadata[f].total + 1) then SampledOut
    else if f !in s.groupByShape && |s.groups| >= GROUPS_CAP && !lower then DroppedByGroupCap
    else if |s.instances| >= INSTANCES_CAP && !lower then DroppedByInstanceCap
    else Stored
  }

  /** The counters of the observations that are not stored. */
  datatype Tally = Tally(filtered: int, suppressed: int, groupCapDrops: int, instanceCapDrops: int)

  function TallyOf(summary: Summary): Tally {
    Tally(summary.filtered, summary.suppressed, summary.groupCapDrops, summary.instanceCapDrops)
  }

  function Tallied(t: Tally, fate: Fate): Tally {
    match fate
    case Filtered => t.(filtered := t.filtered + 1)
    case SampledOut => t.(suppressed := t.suppressed + 1)
    case DroppedByGroupCap => t.(groupCapDrops := t.groupCapDrops + 1)
    case DroppedByInstanceCap => t.(instanceCapDrops := t.instanceCapDrops + 1)
    case Stored => t
  }

  /** From s to t the fate is counted; the new instance is there exactly when it is stored, and nothing moves otherwise. */
  ghost predicate Befalls(fate: Fate, s: Store, t: Store) {
    && TallyOf(t.summary) == Tallied(TallyOf(s.summary), fate)
    && (s.nextInstance in t.instances <==> fate == Stored)
    && (fate != Stored ==> t.instances == s.instances)
  }

  lemma InstanceEvictable(s: Store, score: int)
    requires Linked(s)
    ensures CanEvict(InstanceKeys(s), score) <==> Lower(s, score)
  {
    var keys := InstanceKeys(s);
    assert forall i :: i in s.instances ==> i in keys && keys[i].score == ScoreOf(s, i);
    if i :| i in s.instances && ScoreOf(s, i) < score {
      LeastScoreIsLeast(keys, i);
    }
  }

  lemma GroupEvictable(s: Store, score: int)
    requires Linked(s) && NoEmptyGroup(s.groups, s.instances)
    ensures CanEvict(GroupKeys(s), score) <==> Lower(s, score)
  {
    var keys := GroupKeys(s);
    if CanEvict(keys, score) {
      var i :| i in Members(s.instances, Least(keys));
      assert ScoreOf(s, i) == keys[Least(keys)].score;
    }
    if i :| i in s.instances && ScoreOf(s, i) < score {
      LeastScoreIsLeast(keys, s.instances[i].groupId);
    }
  }

  lemma RoomKeepsTally(s: Store, shape: Shape)
    requires HasRoom(s, shape)
    ensures TallyOf(Room(s, shape).summary) == TallyOf(s.summary) && Room(s, shape).nextInstance == s.nextInstance
  {
  }

  lemma CommitKeepsTally(s: Store, g: nat, obs: Observation)
    requires g in s.groups
    ensures Commit(s, g, obs).summary == s.summary && s.nextInstance in Commit(s, g, obs).instances
  {
  }

  lemma PlaceBefalls(s: Store, existing: Option<nat>, obs: Observation)
    requires Linked(s) && NoEmptyGroup(s.groups, s.instances)
    requires existing.Some? ==> existing.value in s.groups && s.groups[existing.value].shape == obs.shape
    ensures
      var lower := Lower(s, PriorityScore(obs.shape));
      var fate := if |s.instances| >= INSTANCES_CAP && !lower then DroppedByInstanceCap else Stored;
      Befalls(fate, s, Place(s, existing, obs))
  {
    hide Linked, Lower, Befalls, NoEmptyGroup, CanEvict;
    NextIsNew(s);
    InstanceEvictable(s, PriorityScore(obs.shape));
    if HasRoom(s, obs.shape) {
      hide Place;
      PlaceStores(s, existing, obs);
      StoredBefalls(s, Place(s, existing, obs));
    } else {
      DroppedBefalls(s, Place(s, existing, obs));
    }
  }

  lemma PlaceStores(s: Store, existing: Option<nat>, obs: Observation)
    requires Linked(s) && NoEmptyGroup(s.groups, s.instances) && HasRoom(s, obs.shape)
    requires existing.Some? ==> existing.value in s.groups && s.groups[existing.value].shape == obs.shape
    ensures
      var t := Place(s, existing, obs);
      TallyOf(t.summary) == TallyOf(s.summary) && s.nextInstance in t.instances
  {
    hide Linked, Commit, NoEmptyGroup, HasRoom, Room;
    var room := Room(s, obs.shape);
    RoomKeepsTally(s, obs.shape);
    match existing
    case None =>
      CommitKeepsTally(AddGroup(room, obs), room.nextGroup, obs);
    case Some(g) =>
      SurvivesRoom(s, g, obs.shape);
      CommitKeepsTally(room, g, obs);
  }

  lemma NextIsNew(s: Store)
    requires Linked(s)
    ensures s.nextInstance !in s.instances
  {
  }

  lemma SurvivesRoom(s: Store, g: nat, shape: Shape)
    requires Linked(s) && NoEmptyGroup(s.groups, s.instances) && g in s.groups && s.groups[g].shape == shape
    requires HasRoom(s, shape)
    ensures g in Room(s, shape).groups
  {
    hide Linked, NoEmptyGroup;
    if |s.instances| >= INSTANCES_CAP {
      ExistingGroupSurvives(s, g);
    }
  }

  lemma StoredBefalls(s: Store, t: Store)
    requires TallyOf(t.summary) == TallyOf(s.summary) && s.nextInstance in t.instances
    ensures Befalls(Stored, s, t)
  {
  }

  lemma DroppedBefalls(s: Store, t: Store)
    requires t == s.(summary := s.summary.(instanceCapDrops := s.summary.instanceCapDrops + 1))
    requires s.nextInstance !in s.instances
    ensures Befalls(DroppedByInstanceCap, s, t)
  {
  }

  lemma ReplacedGroupBefalls(s: Store, obs: Observation)
    requires Linked(s) && NoEmptyGroup(s.groups, s.instances) && |s.instances| <= INSTANCES_CAP
    requires CanEvict(GroupKeys(s), PriorityScore(obs.shape))
    ensures Befalls(Stored, s, Place(Discard(s, Members(s.instances, Least(GroupKeys(s)))), None, obs))
  {
    var g := Least(GroupKeys(s));
    var room := Discard(s, Members(s.instances, g));
    GroupEvictionMakesRoom(s, g);
    assert TallyOf(room.summary) == TallyOf(s.summary) && room.nextInstance == s.nextInstance;
    hide Discard, Commit, Linked, NoEmptyGroup, Befalls;
    var added := AddGroup(room, obs);
    CommitKeepsTally(added, room.nextGroup, obs);
    StoredBefalls(s, Place(room, None, obs));
  }

  lemma NewShapeBefalls(s: Store, obs: Observation)
    requires Linked(s) && NoEmptyGroup(s.groups, s.instances) && |s.instances| <= INSTANCES_CAP
    ensures
      var lower := Lower(s, PriorityScore(obs.shape));
      var fate :=
        if |s.groups| >= GROUPS_CAP && !lower then DroppedByGroupCap
        else if |s.instances| >= INSTANCES_CAP && !lower then DroppedByInstanceCap
        else Stored;
      Befalls(fate, s, AdmitNewShape(s, obs))
  {
    hide Linked, NoEmptyGroup, Lower, Place, Discard, CanEvict;
    NextIsNew(s);
    GroupEvictable(s, PriorityScore(obs.shape));
    if |s.groups| < GROUPS_CAP {
      hide Befalls;
      PlaceBefalls(s, None, obs);
    } else if CanEvict(GroupKeys(s), PriorityScore(obs.shape)) {
      hide Befalls;
      ReplacedGroupBefalls(s, obs);
    }
  }

  lemma KnownShapeBefalls(s: Store, o: Store, g: nat, obs: Observation)
    requires Linked(s) && NoEmptyGroup(s.groups, s.instances) && |s.instances| <= INSTANCES_CAP
    requires o == Observed(s) && Indexes(s.groupByShape, HashShape(obs.shape), g)
    requires g in o.groups && HashShape(obs.shape) in o.metadata && s.groups[g].shape == obs.shape
    ensures
      var lower := Lower(s, PriorityScore(obs.shape));
      var fate :=
        if IsSampledOut(s.metadata[HashShape(obs.shape)].total + 1) then SampledOut
        else if |s.instances| >= INSTANCES_CAP && !lower then DroppedByInstanceCap
        else Stored;
      Befalls(fate, s, AdmitToGroup(o, g, obs))
  {
    var f := HashShape(obs.shape);
    var counted := WithMetadata(o, f, Counted(o.metadata[f], obs.offsetMs));
    CountingKeepsLinks(o, g, f, counted.metadata[f]);
    SameTablesSameJudgement(s, counted, counted, PriorityScore(obs.shape));
    NextIsNew(s);
    hide Linked, NoEmptyGroup, Lower, Place, Indexes, Befalls;
    if IsSampledOut(counted.metadata[f].total) {
      SuppressBefalls(s, counted, g);
    } else {
      PlaceBefalls(counted, Some(g), obs);
      SameFate(s, counted, Place(counted, Some(g), obs), obs);
    }
  }

  lemma SuppressBefalls(s: Store, counted: Store, g: nat)
    requires g in counted.groups && TallyOf(counted.summary) == TallyOf(s.summary)
    requires counted.instances == s.instances && s.nextInstance !in s.instances
    ensures Befalls(SampledOut, s, Suppress(counted, g))
  {
  }

  lemma SameFate(s: Store, o: Store, t: Store, obs: Observation)
    requires TallyOf(o.summary) == TallyOf(s.summary) && o.instances == s.instances && o.nextInstance == s.nextInstance
    ensures forall fate :: Befalls(fate, o, t) ==> Befalls(fate, s, t)
  {
  }

  /**
   The fate of every observation, exactly: it is counted in its one counter, the newcomer is stored exactly
   when no rule turns it away, and what turns it away is the rule's own cap with nothing lower retained.
   */
  lemma EveryFateIsTold(s: Store, obs: Observation)
    requires Consistent(s)
    ensures Befalls(FateOf(s, obs), s, Admitted(s, obs))
  {
    hide AdmitToGroup, AdmitNewShape, GroupsLinked, InstancesLinked, BodiesLinked, TotalsBalance, GroupsBalance,
      GroupsSampled, NoEmptyGroup, FateOf, Befalls;
    var o, f := Observed(s), HashShape(obs.shape);
    ObservedIsLinked(s);
    if IsLowSignalStaticAsset(obs.shape) {
      FilteredIsTold(s, obs);
    } else if f in s.groupByShape {
      KnownShapeIsTold(s, s.groupByShape[f], obs);
    } else {
      NewShapeIsTold(s, obs);
    }
  }

  lemma FilteredIsTold(s: Store, obs: Observation)
    requires Linked(s) && IsLowSignalStaticAsset(obs.shape)
    ensures Befalls(FateOf(s, obs), s, Admitted(s, obs))
  {
    hide Linked, Lower, AdmitToGroup, AdmitNewShape;
    NextIsNew(s);
  }

  lemma KnownShapeIsTold(s: Store, g: nat, obs: Observation)
    requires Linked(s) && NoEmptyGroup(s.groups, s.instances) && |s.instances| <= INSTANCES_CAP
    requires !IsLowSignalStaticAsset(obs.shape) && Indexes(s.groupByShape, HashShape(obs.shape), g)
    ensures g in s.groups && HashShape(obs.shape) in s.metadata
    ensures Befalls(FateOf(s, obs), s, AdmitToGroup(Observed(s), g, obs))
  {
    hide Linked, NoEmptyGroup, Lower, AdmitToGroup, Befalls, Indexes, IsSampledOut;
    KnownShapeIsGroups(s, g, obs);
    KnownShapeBefalls(s, Observed(s), g, obs);
  }

  lemma NewShapeIsTold(s: Store, obs: Observation)
    requires Linked(s) && NoEmptyGroup(s.groups, s.instances) && |s.instances| <= INSTANCES_CAP
    requires !IsLowSignalStaticAsset(obs.shape) && HashShape(obs.shape) !in s.groupByShape
    ensures Befalls(FateOf(s, obs), s, AdmitNewShape(Observed(s), obs))
  {
    var o := Observed(s);
    hide Linked, NoEmptyGroup, Lower, AdmitNewShape, Befalls, OnlyLeastEvicted;
    ObservedIsLinked(s);
    SameTablesSameJudgement(s, o, o, PriorityScore(obs.shape));
    NewShapeBefalls(o, obs);
    SameFate(s, o, AdmitNewShape(o, obs), obs);
  }

  lemma ObservedIsLinked(s: Store)
    requires Linked(s)
    ensures Linked(Observed(s))
    ensures forall f :: f in s.groupByShape ==> Indexes(s.groupByShape, f, s.groupByShape[f])
  {
  }

  lemma KnownShapeIsGroups(s: Store, g: nat, obs: Observation)
    requires Linked(s) && Indexes(s.groupByShape, HashShape(obs.shape), g)
    ensures g in s.groups && s.groups[g].shape == obs.shape
    ensures HashShape(obs.shape) in s.groupByShape && HashShape(obs.shape) in s.metadata
  {
  }

  /** What a drop by either cap takes: that very cap reached, and everything retained scoring at least as high. */
  ghost predicate DropsJustified(s: Store, t: Store, obs: Observation)
    requires Linked(s)
  {
    && (t.summary.groupCapDrops != s.summary.groupCapDrops ==>
          && |s.groups| == GROUPS_CAP && HashShape(obs.shape) !in s.groupByShape
          && t.instances == s.instances
          && forall i :: i in s.instances ==> ScoreOf(s, i) >= PriorityScore(obs.shape))
    && (t.summary.instanceCapDrops != s.summary.instanceCapDrops ==>
          && |s.instances| == INSTANCES_CAP
          && t.instances == s.instances
          && forall i :: i in s.instances ==> ScoreOf(s, i) >= PriorityScore(obs.shape))
  }

  lemma DropsAreJustified(s: Store, obs: Observation)
    requires Consistent(s)
    ensures DropsJustified(s, Admitted(s, obs), obs)
  {
    hide Linked, NoEmptyGroup, TotalsBalance, GroupsBalance, GroupsSampled, Admitted;
    EveryFateIsTold(s, obs);
  }
}
