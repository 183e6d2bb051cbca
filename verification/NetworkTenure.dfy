/**
 Times and ranks in the store, told from the observations: a group's first and last offsets are those of the
 observations counted since the group was made, the oldest go first among equals, and what gives way to what.
 */
module NetworkTenure {
  import opened Options
  import opened NetworkPriority
  import opened NetworkStore
  import opened NetworkHistory

  // ----- What an admission does to the metadata

  ghost predicate Within<K(!new), V>(a: map<K, V>, b: map<K, V>) {
    forall k :: k in a ==> k in b && a[k] == b[k]
  }

  /** The metadata with this observation counted. */
  function CountedIn(metadata: map<Fingerprint, Metadata>, obs: Observation): map<Fingerprint, Metadata> {
    var f := HashShape(obs.shape);
    metadata[f := if f in metadata then Counted(metadata[f], obs.offsetMs) else Metadata(obs.offsetMs, obs.offsetMs, 1)]
  }

  lemma DiscardWithin(s: Store, ids: set<nat>)
    ensures Within(Discard(s, ids).metadata, s.metadata)
  {
  }

  lemma RoomWithin(s: Store, shape: Shape)
    requires HasRoom(s, shape)
    ensures Within(Room(s, shape).metadata, s.metadata)
  {
    hide Discard;
    if |s.instances| >= INSTANCES_CAP { DiscardWithin(s, {Least(InstanceKeys(s))}); }
  }

  lemma PlaceKnownWithin(s: Store, g: nat, obs: Observation)
    ensures Within(Place(s, Some(g), obs).metadata, s.metadata)
  {
    hide HasRoom, Room;
    if HasRoom(s, obs.shape) { RoomWithin(s, obs.shape); }
  }

  lemma PlaceNewWithin(s: Store, obs: Observation)
    requires HashShape(obs.shape) !in s.metadata
    ensures Within(Place(s, None, obs).metadata, CountedIn(s.metadata, obs))
  {
    hide HasRoom, Room;
    if HasRoom(s, obs.shape) { RoomWithin(s, obs.shape); }
  }

  lemma NewShapeWithin(s: Store, obs: Observation)
    requires HashShape(obs.shape) !in s.metadata
    ensures Within(AdmitNewShape(s, obs).metadata, CountedIn(s.metadata, obs))
  {
    hide Place, Discard;
    if |s.groups| < GROUPS_CAP {
      PlaceNewWithin(s, obs);
    } else if CanEvict(GroupKeys(s), PriorityScore(obs.shape)) {
      var ids := Members(s.instances, Least(GroupKeys(s)));
      DiscardWithin(s, ids);
      PlaceNewWithin(Discard(s, ids), obs);
    }
  }

  lemma KnownShapeWithin(s: Store, g: nat, obs: Observation)
    requires g in s.groups && HashShape(obs.shape) in s.metadata
    ensures Within(AdmitToGroup(s, g, obs).metadata, CountedIn(s.metadata, obs))
  {
    hide Place, IsSampledOut;
    var counted := WithMetadata(s, HashShape(obs.shape), Counted(s.metadata[HashShape(obs.shape)], obs.offsetMs));
    PlaceKnownWithin(counted, g, obs);
  }

  lemma AdmittedWithin(s: Store, obs: Observation)
    requires Linked(s)
    ensures Within(Admitted(s, obs).metadata,
              if IsLowSignalStaticAsset(obs.shape) then s.metadata else CountedIn(s.metadata, obs))
    ensures Admitted(s, obs).metadata.Keys == s.metadata.Keys || !IsLowSignalStaticAsset(obs.shape)
  {
    hide AdmitToGroup, AdmitNewShape, InstancesLinked, BodiesLinked, CountedIn, IsLowSignalStaticAsset;
    var o, f := Observed(s), HashShape(obs.shape);
    if !IsLowSignalStaticAsset(obs.shape) {
      if f in s.groupByShape {
        assert Indexes(s.groupByShape, f, s.groupByShape[f]);
        KnownShapeWithin(o, s.groupByShape[f], obs);
      } else {
        NewShapeWithin(o, obs);
      }
    }
  }

  // ----- The observations a group has counted

  /** The shape has a group after the first m observations. */
  ghost predicate Live(observations: seq<Observation>, f: Fingerprint, m: nat)
    requires m <= |observations|
  {
    f in Run(observations[..m]).metadata
  }

  /** The shape has had a group ever since the k-th observation. */
  ghost predicate LiveSince(observations: seq<Observation>, f: Fingerprint, k: nat) {
    forall m :: k < m <= |observations| ==> Live(observations, f, m)
  }

  /** The observations of the shape since its group was made. */
  ghost function Tenure(observations: seq<Observation>, f: Fingerprint): set<nat> {
    set k | 0 <= k < |observations| && HashShape(observations[k].shape) == f && LiveSince(observations, f, k)
  }

  ghost predicate IsEarliest(offset: Option<real>, observations: seq<Observation>, among: set<nat>) {
    match offset
    case None => forall k :: k in among && k < |observations| ==> observations[k].offsetMs == None
    case Some(x) =>
      && (exists k :: k in among && k < |observations| && observations[k].offsetMs == Some(x))
      && forall k :: k in among && k < |observations| && observations[k].offsetMs.Some? ==> x <= observations[k].offsetMs.value
  }

  ghost predicate IsLatest(offset: Option<real>, observations: seq<Observation>, among: set<nat>) {
    match offset
    case None => forall k :: k in among && k < |observations| ==> observations[k].offsetMs == None
    case Some(x) =>
      && (exists k :: k in among && k < |observations| && observations[k].offsetMs == Some(x))
      && forall k :: k in among && k < |observations| && observations[k].offsetMs.Some? ==> x >= observations[k].offsetMs.value
  }

  ghost predicate Tells(m: Metadata, observations: seq<Observation>, tenure: set<nat>) {
    m.total == |tenure| && IsEarliest(m.firstOffsetMs, observations, tenure) && IsLatest(m.lastOffsetMs, observations, tenure)
  }

  lemma TenureStep(observations: seq<Observation>, f: Fingerprint)
    requires observations != [] && Live(observations, f, |observations|)
    ensures
      var n := |observations| - 1;
      var before := Tenure(observations[..n], f);
      && Tenure(observations, f) == (if HashShape(observations[n].shape) == f then before + {n} else before)
      && (!Live(observations, f, n) ==> before == {})
      && forall k :: k in before ==> k < n
  {
    hide Live, LiveSince;
    var n := |observations| - 1;
    LastIsLive(observations, f);
    forall k | 0 <= k < n
      ensures observations[..n][k] == observations[k]
      ensures LiveSince(observations, f, k) <==> LiveSince(observations[..n], f, k)
      ensures LiveSince(observations[..n], f, k) ==> Live(observations, f, n)
    {
      LiveStep(observations, f, k);
    }
  }

  lemma LastIsLive(observations: seq<Observation>, f: Fingerprint)
    requires observations != [] && Live(observations, f, |observations|)
    ensures LiveSince(observations, f, |observations| - 1)
  {
    hide Live;
  }

  lemma LiveStep(observations: seq<Observation>, f: Fingerprint, k: nat)
    requires observations != [] && Live(observations, f, |observations|) && k < |observations| - 1
    ensures LiveSince(observations, f, k) <==> LiveSince(observations[..|observations| - 1], f, k)
    ensures LiveSince(observations[..|observations| - 1], f, k) ==> Live(observations, f, |observations| - 1)
  {
    hide Live;
    var n := |observations| - 1;
    forall m | 0 <= m <= n ensures Live(observations[..n], f, m) <==> Live(observations, f, m) {
      LiveInPrefix(observations, f, m, n);
    }
  }

  lemma LiveInPrefix(observations: seq<Observation>, f: Fingerprint, m: nat, n: nat)
    requires m <= n <= |observations|
    ensures Live(observations[..n], f, m) <==> Live(observations, f, m)
  {
    hide Run, Consistent;
    assert observations[..n][..m] == observations[..m];
  }

  lemma TellsStep(m: Metadata, observations: seq<Observation>, tenure: set<nat>)
    requires observations != [] && (forall k :: k in tenure ==> k < |observations| - 1)
    requires Tells(m, observations[..|observations| - 1], tenure)
    ensures Tells(m, observations, tenure)
    ensures Tells(Counted(m, observations[|observations| - 1].offsetMs), observations, tenure + {|observations| - 1})
  {
    EarliestStep(m.firstOffsetMs, observations, tenure);
    LatestStep(m.lastOffsetMs, observations, tenure);
  }

  lemma EarliestStep(offset: Option<real>, observations: seq<Observation>, tenure: set<nat>)
    requires observations != [] && (forall k :: k in tenure ==> k < |observations| - 1)
    requires IsEarliest(offset, observations[..|observations| - 1], tenure)
    ensures IsEarliest(offset, observations, tenure)
    ensures IsEarliest(Earlier(offset, observations[|observations| - 1].offsetMs), observations, tenure + {|observations| - 1})
  {
    var n := |observations| - 1;
    if offset.Some? {
      var k :| k in tenure && k < n && observations[..n][k].offsetMs == offset;
      assert k in tenure + {n} && observations[k].offsetMs == offset;
    }
    assert n in tenure + {n};
    assert forall k :: k in tenure ==> observations[..n][k] == observations[k];
  }

  lemma LatestStep(offset: Option<real>, observations: seq<Observation>, tenure: set<nat>)
    requires observations != [] && (forall k :: k in tenure ==> k < |observations| - 1)
    requires IsLatest(offset, observations[..|observations| - 1], tenure)
    ensures IsLatest(offset, observations, tenure)
    ensures IsLatest(Later(offset, observations[|observations| - 1].offsetMs), observations, tenure + {|observations| - 1})
  {
    var n := |observations| - 1;
    if offset.Some? {
      var k :| k in tenure && k < n && observations[..n][k].offsetMs == offset;
      assert k in tenure + {n} && observations[k].offsetMs == offset;
    }
    assert n in tenure + {n};
    assert forall k :: k in tenure ==> observations[..n][k] == observations[k];
  }

  /** The metadata of every shape that has a group: how many were counted, and the first and last time. */
  lemma {:induction false} MetadataTellsTheTenure(observations: seq<Observation>, f: Fingerprint)
    requires f in Run(observations).metadata
    ensures Tells(Run(observations).metadata[f], observations, Tenure(observations, f))
    ensures !IsLowSignalStaticAsset(f.shape)
  {
    hide Run, Tells, Tenure, IsLowSignalStaticAsset, Admitted, NoEmptyGroup, WithinCaps, TotalsBalance, GroupsBalance,
      GroupsSampled, Linked;
    if observations == [] {
      EmptyRun();
    } else {
      var n := |observations| - 1;
      RunStep(observations);
      var s, t := Run(observations[..n]), Run(observations);
      AdmittedWithin(s, observations[n]);
      assert observations[..n + 1] == observations;
      TenureStep(observations, f);
      if f in s.metadata {
        MetadataTellsTheTenure(observations[..n], f);
        TellsStep(s.metadata[f], observations, Tenure(observations[..n], f));
      } else {
        FirstTells(observations);
      }
    }
  }

  lemma FirstTells(observations: seq<Observation>)
    requires observations != []
    ensures
      var n := |observations| - 1;
      Tells(Metadata(observations[n].offsetMs, observations[n].offsetMs, 1), observations, {n})
  {
    assert |observations| - 1 in {|observations| - 1};
  }

  // ----- Occurrences

  /** From s to t a group's occurrences stay, and the shape's own grow by n. */
  ghost predicate OccursIn(s: Store, t: Store, obs: Observation, n: nat) {
    forall g :: g in t.groups ==> OccurrencesTell(s, t, g, obs, n)
  }

  predicate OccurrencesTell(s: Store, t: Store, g: nat, obs: Observation, n: nat)
    requires g in t.groups
  {
    && (g in s.groups ==> t.groups[g].shape == s.groups[g].shape)
    && (g !in s.groups ==> t.groups[g].shape == obs.shape && HashShape(obs.shape) !in s.groupByShape)
    && t.groups[g].counts.occurrences ==
       (if g in s.groups then s.groups[g].counts.occurrences else 0) + (if t.groups[g].shape == obs.shape then n else 0)
  }

  ghost predicate OneGroupAShape(groups: map<nat, Group>) {
    forall g, h :: g in groups && h in groups && groups[g].shape == groups[h].shape ==> g == h
  }

  lemma LinkedShapesDiffer(t: Store)
    requires Linked(t)
    ensures OneGroupAShape(t.groups)
  {
    hide InstancesLinked, BodiesLinked;
    assert forall g :: g in t.groups ==> t.groups[g].fingerprint == HashShape(t.groups[g].shape);
  }

  lemma StoredOccurs(s: Store, obs: Observation)
    requires Consistent(s) && FateOf(s, obs) == Stored
    ensures OccursIn(s, Admitted(s, obs), obs, 1)
  {
    hide FateOf, Admitted, NoEmptyGroup, WithinCaps, TotalsBalance, GroupsBalance, GroupsSampled, Linked, Cleared,
      Seated, Commit, OneGroupAShape, OccursIn;
    var room, g := StoredDecomposes(s, obs);
    AdmitKeepsConsistent(s, obs);
    LinkedShapesDiffer(Admitted(s, obs));
    CommitOccurs(room, g, obs);
    ClearedGroups(s, room);
    SeatedOccurs(s, room, g, Admitted(s, obs), obs);
  }

  lemma ClearedGroups(s: Store, room: Store)
    requires Cleared(s, room)
    ensures GroupsClear(s.groups, room.groups, s.nextGroup)
  {
    hide GroupsClear, ClearedBodies, BodiesIndexed;
  }

  lemma CommitOccurs(room: Store, g: nat, obs: Observation)
    requires g in room.groups
    ensures Commit(room, g, obs).groups == room.groups[g := WithOccurrence(room.groups[g])]
  {
    hide Resolved;
  }

  lemma SeatedOccurs(s: Store, room: Store, g: nat, t: Store, obs: Observation)
    requires GroupsClear(s.groups, room.groups, s.nextGroup) && Seated(s, room, g, obs)
    requires g in room.groups && room.groups[g].shape == obs.shape
    requires t.groups == room.groups[g := WithOccurrence(room.groups[g])] && OneGroupAShape(t.groups)
    ensures OccursIn(s, t, obs, 1)
  {
    assert t.groups[g].shape == obs.shape;
  }

  lemma SameGroupsOccur(s: Store, t: Store, obs: Observation)
    requires t.groups == s.groups
    ensures OccursIn(s, t, obs, 0)
  {
  }

  lemma SuppressOccurs(s: Store, h: nat, obs: Observation)
    requires h in s.groups && s.groups[h].shape == obs.shape && OneGroupAShape(s.groups)
    ensures OccursIn(s, Suppress(s, h), obs, 1)
  {
  }

  lemma KnownShapeOccurs(s: Store, h: nat, obs: Observation)
    requires Linked(s) && NoEmptyGroup(s.groups, s.instances)
    requires Indexes(s.groupByShape, HashShape(obs.shape), h) && h in s.groups && s.groups[h].shape == obs.shape
    requires HashShape(obs.shape) in s.metadata
    requires !IsSampledOut(s.metadata[HashShape(obs.shape)].total + 1) ==>
      |s.instances| >= INSTANCES_CAP && !Lower(s, PriorityScore(obs.shape))
    ensures
      OccursIn(s, AdmitToGroup(Observed(s), h, obs), obs,
               if IsSampledOut(s.metadata[HashShape(obs.shape)].total + 1) then 1 else 0)
  {
    hide Linked, NoEmptyGroup, Lower, CanEvict, OnlyLeastEvicted, Indexes, IsSampledOut, OccursIn, OneGroupAShape;
    var o, f := Observed(s), HashShape(obs.shape);
    var counted := WithMetadata(o, f, Counted(o.metadata[f], obs.offsetMs));
    KnownCountingKeepsLinks(s, h, obs);
    LinkedShapesDiffer(counted);
    if IsSampledOut(counted.metadata[f].total) {
      SuppressOccurs(counted, h, obs);
      OccursFrom(s, counted, Suppress(counted, h), obs, 1);
    } else {
      SameTablesSameJudgement(s, counted, counted, PriorityScore(obs.shape));
      InstanceEvictable(counted, PriorityScore(obs.shape));
      SameGroupsOccur(s, Place(counted, Some(h), obs), obs);
    }
  }

  lemma OccursFrom(s: Store, o: Store, t: Store, obs: Observation, n: nat)
    requires o.groups == s.groups && o.groupByShape == s.groupByShape && OccursIn(o, t, obs, n)
    ensures OccursIn(s, t, obs, n)
  {
  }

  lemma UnstoredOccurs(s: Store, obs: Observation)
    requires Consistent(s) && FateOf(s, obs) != Stored
    ensures OccursIn(s, Admitted(s, obs), obs, if FateOf(s, obs) == SampledOut then 1 else 0)
  {
    hide AdmitToGroup, GroupsLinked, InstancesLinked, BodiesLinked, TotalsBalance, GroupsBalance, GroupsSampled,
      NoEmptyGroup, Lower, OccursIn, IsSampledOut, IsLowSignalStaticAsset, CanEvict, Place, Discard;
    ObservedIsLinked(s);
    var o, f := Observed(s), HashShape(obs.shape);
    if IsLowSignalStaticAsset(obs.shape) {
      SameGroupsOccur(s, Admitted(s, obs), obs);
    } else if f in s.groupByShape {
      KnownShapeIsGroups(s, s.groupByShape[f], obs);
      KnownShapeOccurs(s, s.groupByShape[f], obs);
    } else {
      SameTablesSameJudgement(s, o, o, PriorityScore(obs.shape));
      NewShapeDropped(o, obs);
      SameGroupsOccur(s, Admitted(s, obs), obs);
    }
  }

  lemma NewShapeDropped(s: Store, obs: Observation)
    requires Linked(s) && NoEmptyGroup(s.groups, s.instances)
    requires |s.groups| >= GROUPS_CAP || |s.instances| >= INSTANCES_CAP
    requires !Lower(s, PriorityScore(obs.shape))
    ensures AdmitNewShape(s, obs).groups == s.groups
  {
    hide Linked, NoEmptyGroup, Lower, CanEvict;
    InstanceEvictable(s, PriorityScore(obs.shape));
    GroupEvictable(s, PriorityScore(obs.shape));
  }

  /** Whether an observation is counted as an occurrence: it is stored, or sampled out. */
  ghost predicate Occurred(observations: seq<Observation>, k: nat)
    requires k < |observations|
  {
    var fate := FateOf(Run(observations[..k]), observations[k]);
    fate == Stored || fate == SampledOut
  }

  ghost function Occurrences(observations: seq<Observation>, f: Fingerprint): set<nat> {
    set k | k in Tenure(observations, f) && k < |observations| && Occurred(observations, k)
  }

  lemma OccurrencesStep(observations: seq<Observation>, f: Fingerprint)
    requires observations != [] && Live(observations, f, |observations|)
    ensures
      var n := |observations| - 1;
      var before := Occurrences(observations[..n], f);
      && Occurrences(observations, f) ==
         (if HashShape(observations[n].shape) == f && Occurred(observations, n) then before + {n} else before)
      && (!Live(observations, f, n) ==> before == {})
      && n !in before
  {
    hide Live, Tenure, Occurred;
    var n := |observations| - 1;
    TenureStep(observations, f);
    forall k | 0 <= k < n ensures Occurred(observations[..n], k) <==> Occurred(observations, k) {
      OccurredInPrefix(observations, k, n);
    }
  }

  lemma OccurredInPrefix(observations: seq<Observation>, k: nat, n: nat)
    requires k < n <= |observations|
    ensures Occurred(observations[..n], k) <==> Occurred(observations, k)
  {
    hide Run, Consistent, FateOf;
    assert observations[..n][..k] == observations[..k];
  }

  /** A group's occurrences are the observations of its tenure that were stored or sampled out. */
  lemma {:induction false} OccurrencesTellTheTenure(observations: seq<Observation>, g: nat)
    requires g in Run(observations).groups
    ensures Run(observations).groups[g].counts.occurrences ==
      |Occurrences(observations, HashShape(Run(observations).groups[g].shape))|
  {
    hide Run, Occurrences, Admitted, NoEmptyGroup, WithinCaps, TotalsBalance, GroupsBalance, GroupsSampled, Linked,
      FateOf;
    if observations == [] {
      EmptyRun();
    } else {
      var n := |observations| - 1;
      RunStep(observations);
      var s, t := Run(observations[..n]), Run(observations);
      var f := HashShape(t.groups[g].shape);
      if FateOf(s, observations[n]) == Stored { StoredOccurs(s, observations[n]); } else { UnstoredOccurs(s, observations[n]); }
      assert OccurrencesTell(s, t, g, observations[n], if Occurred(observations, n) then 1 else 0);
      LiveGroup(t, g);
      assert observations[..n + 1] == observations;
      OccurrencesStep(observations, f);
      if g in s.groups {
        OccurrencesTellTheTenure(observations[..n], g);
      } else {
        NoGroupIsDead(s, f);
      }
    }
  }

  lemma LiveGroup(t: Store, g: nat)
    requires Linked(t) && g in t.groups
    ensures HashShape(t.groups[g].shape) in t.metadata
  {
    assert Indexes(t.groupByShape, t.groups[g].fingerprint, g);
  }

  lemma NoGroupIsDead(s: Store, f: Fingerprint)
    requires Linked(s) && f !in s.groupByShape
    ensures f !in s.metadata
  {
  }

  // ----- The oldest of equals goes first

  /** No later than, where a missing offset is the latest. */
  predicate NoLater(a: Option<real>, b: Option<real>) {
    b.Some? ==> a.Some? && a.value <= b.value
  }

  predicate GoesFirst(a: Option<real>, i: nat, b: Option<real>, j: nat) {
    NoLater(a, b) && (a == b ==> i < j)
  }

  lemma LeastGoesFirst(keys: map<nat, Key>, k: nat, j: nat)
    requires OwnIds(keys) && IsLeast(keys, k) && j in keys && j != k && keys[j].score == keys[k].score
    ensures GoesFirst(keys[k].offset, k, keys[j].offset, j)
  {
    assert Before(keys[k], keys[j]);
  }

  /** Whether the admission takes the path on which single instances are evicted. */
  predicate TakesASlot(s: Store, obs: Observation) {
    HashShape(obs.shape) in s.groupByShape || |s.groups| < GROUPS_CAP
  }

  lemma PlaceEvictsOldest(s: Store, existing: Option<nat>, obs: Observation, i: nat, j: nat)
    requires Linked(s) && NoEmptyGroup(s.groups, s.instances)
    requires existing.Some? ==> existing.value in s.groups && s.groups[existing.value].shape == obs.shape
    requires i in s.instances && i !in Place(s, existing, obs).instances
    requires j in s.instances && j in Place(s, existing, obs).instances && ScoreOf(s, i) == ScoreOf(s, j)
    ensures GoesFirst(s.instances[i].offsetMs, i, s.instances[j].offsetMs, j)
  {
    hide NoEmptyGroup, GroupsLinked, BodiesLinked, Resolved, CanEvict, GoesFirst;
    if HasRoom(s, obs.shape) && existing.Some? { SurvivesRoom(s, existing.value, obs.shape); }
    var keys := InstanceKeys(s);
    assert |s.instances| >= INSTANCES_CAP && HasRoom(s, obs.shape);
    CanEvictSomething(keys, PriorityScore(obs.shape));
    assert i == Least(keys);
    LeastGoesFirst(keys, i, j);
  }

  lemma CanEvictSomething(keys: map<nat, Key>, score: int)
    requires OwnIds(keys) && CanEvict(keys, score)
    ensures keys != map[] && IsLeast(keys, Least(keys))
  {
  }

  /** Among instances that score alike the one with the earliest offset is evicted, and the first admitted of those. */
  lemma OldestInstanceGoesFirst(s: Store, obs: Observation, i: nat, j: nat)
    requires Consistent(s) && TakesASlot(s, obs)
    requires i in s.instances && i !in Admitted(s, obs).instances
    requires j in s.instances && j in Admitted(s, obs).instances && ScoreOf(s, i) == ScoreOf(s, j)
    ensures GoesFirst(s.instances[i].offsetMs, i, s.instances[j].offsetMs, j)
  {
    hide Linked, NoEmptyGroup, WithinCaps, TotalsBalance, GroupsBalance, GroupsSampled, Place, GoesFirst, PriorityScore;
    var o, f := Observed(s), HashShape(obs.shape);
    ObservedIsLinked(s);
    if f in s.groupByShape {
      var g := s.groupByShape[f];
      KnownShapeIsGroups(s, g, obs);
      KnownCountingKeepsLinks(s, g, obs);
      var counted := WithMetadata(o, f, Counted(o.metadata[f], obs.offsetMs));
      SameScores(s, counted, i, j);
      PlaceEvictsOldest(counted, Some(g), obs, i, j);
    } else {
      SameScores(s, o, i, j);
      PlaceEvictsOldest(o, None, obs, i, j);
    }
  }

  lemma SameScores(s: Store, o: Store, i: nat, j: nat)
    requires Linked(s) && Linked(o) && o.groups == s.groups && o.instances == s.instances
    requires i in s.instances && j in s.instances
    ensures ScoreOf(o, i) == ScoreOf(s, i) && ScoreOf(o, j) == ScoreOf(s, j)
  {
  }

  /** Among groups that score alike the one first seen is evicted, and the first made of those. */
  lemma OldestGroupGoesFirst(s: Store, obs: Observation, i: nat, j: nat)
    requires Consistent(s) && !TakesASlot(s, obs)
    requires i in s.instances && i !in Admitted(s, obs).instances
    requires j in s.instances && j in Admitted(s, obs).instances && ScoreOf(s, i) == ScoreOf(s, j)
    ensures
      var g, h := s.instances[i].groupId, s.instances[j].groupId;
      && g in s.groups && s.groups[g].fingerprint in s.metadata
      && h in s.groups && s.groups[h].fingerprint in s.metadata
      && GoesFirst(s.metadata[s.groups[g].fingerprint].firstOffsetMs, g,
                   s.metadata[s.groups[h].fingerprint].firstOffsetMs, h)
  {
    GroupOf(s, i);
    GroupOf(s, j);
    hide Linked, NoEmptyGroup, WithinCaps, TotalsBalance, GroupsBalance, GroupsSampled, GoesFirst, PriorityScore,
      Place, Discard;
    var o, keys := Observed(s), GroupKeys(Observed(s));
    assert CanEvict(keys, PriorityScore(obs.shape));
    CanEvictSomething(keys, PriorityScore(obs.shape));
    ReplacementEvicts(o, obs, i);
    ReplacementEvicts(o, obs, j);
    LeastGoesFirst(keys, s.instances[i].groupId, s.instances[j].groupId);
  }

  lemma GroupOf(s: Store, i: nat)
    requires Linked(s) && i in s.instances
    ensures s.instances[i].groupId in s.groups && s.groups[s.instances[i].groupId].fingerprint in s.metadata
    ensures Linked(Observed(s)) && i < s.nextInstance
  {
    var g := s.instances[i].groupId;
    assert InstanceLinked(s.instances[i], i, s.groups.Keys, s.nextInstance);
    assert Indexes(s.groupByShape, s.groups[g].fingerprint, g);
  }

  /** Replacing the least group takes out its members and nothing else. */
  lemma ReplacementEvicts(s: Store, obs: Observation, i: nat)
    requires NoEmptyGroup(s.groups, s.instances) && |s.instances| <= INSTANCES_CAP
    requires CanEvict(GroupKeys(s), PriorityScore(obs.shape))
    requires i in s.instances && i < s.nextInstance
    ensures
      var v := Least(GroupKeys(s));
      i in Place(Discard(s, Members(s.instances, v)), None, obs).instances <==> s.instances[i].groupId != v
  {
    hide NoEmptyGroup, PriorityScore, Commit, Collected, Evicted;
    var v := Least(GroupKeys(s));
    GroupEvictionMakesRoom(s, v);
    var room := Discard(s, Members(s.instances, v));
    assert room.instances == s.instances - Members(s.instances, v) && room.nextInstance == s.nextInstance;
    hide Discard;
    CommitAddsOne(AddGroup(room, obs), room.nextGroup, obs);
  }

  lemma CommitAddsOne(s: Store, g: nat, obs: Observation)
    requires g in s.groups
    ensures Commit(s, g, obs).instances.Keys == s.instances.Keys + {s.nextInstance}
  {
    hide Resolved;
  }

  // ----- What gives way to what

  /** A failure that is not an abort. */
  predicate Fails(shape: Shape) {
    shape.failureText.Some? && !IsAbortFailureText(shape.failureText)
  }

  /**
   A retained server error gives way to nothing, a real failure only to a server error, another error status only
   to these two, and a fetch only to an error or a failure.
   */
  lemma WhatGivesWay(s: Store, obs: Observation, i: nat)
    requires Consistent(s) && i in s.instances && i !in Admitted(s, obs).instances
    ensures s.instances[i].groupId in s.groups
    ensures
      var shape := s.groups[s.instances[i].groupId].shape;
      && shape.status < 500
      && (Fails(shape) ==> obs.shape.status >= 500)
      && (shape.status >= 400 ==> obs.shape.status >= 500 || Fails(obs.shape))
      && (shape.resourceType == Some("fetch") || shape.resourceType == Some("xhr") ==>
            obs.shape.status >= 400 || Fails(obs.shape))
  {
    hide Linked, NoEmptyGroup, WithinCaps, TotalsBalance, GroupsBalance, GroupsSampled, Admitted, IsAbortFailureText,
      PriorityScore;
    AdmitEvictsTheLeast(s, obs);
    GroupOf(s, i);
    HigherScores(s.groups[s.instances[i].groupId].shape, obs.shape);
  }

  lemma HigherScores(a: Shape, b: Shape)
    requires PriorityScore(a) < PriorityScore(b)
    ensures a.status < 500
    ensures Fails(a) ==> b.status >= 500
    ensures a.status >= 400 ==> b.status >= 500 || Fails(b)
    ensures a.resourceType == Some("fetch") || a.resourceType == Some("xhr") ==> b.status >= 400 || Fails(b)
  {
    hide IsAbortFailureText, LOW_SIGNAL_RESOURCE_TYPES;
  }

  /** Once retained, a server error is retained to the end of every run. */
  lemma {:induction false} ServerErrorsStay(observations: seq<Observation>, m: nat, i: nat)
    requires m <= |observations| && i in Run(observations[..m]).instances
    requires Run(observations[..m]).instances[i].status >= 500
    ensures i in Run(observations).instances && Run(observations).instances[i] == Run(observations[..m]).instances[i]
  {
    hide Run, Admitted, NoEmptyGroup, WithinCaps, TotalsBalance, GroupsBalance, GroupsSampled, Linked;
    if m == |observations| {
      assert observations[..m] == observations;
    } else {
      var n := |observations| - 1;
      assert observations[..n][..m] == observations[..m];
      ServerErrorsStay(observations[..n], m, i);
      RunStep(observations);
      EveryInstanceWasObserved(observations[..n]);
      AdmitEvictsTheLeast(Run(observations[..n]), observations[n]);
      if i !in Run(observations).instances {
        WhatGivesWay(Run(observations[..n]), observations[n], i);
      }
    }
  }
}
