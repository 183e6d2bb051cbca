/** The report of a run, told from the observations and from its own contents. */
module NetworkAccount {
  import opened Options
  import opened NetworkStore
  import opened NetworkReport
  import opened NetworkHistory
  import opened NetworkTenure

  // ----- The report and the store

  /** The instance but for its links. */
  predicate SameButLinks(a: Instance, b: Instance) {
    && a.id == b.id && a.groupId == b.groupId && a.httpMethod == b.httpMethod && a.url == b.url
    && a.status == b.status && a.offsetMs == b.offsetMs && a.context == b.context
    && a.requestBodyRef == b.requestBodyRef && a.responseBodyRef == b.responseBodyRef
  }

  ghost predicate Reported(instances: seq<Instance>, i: nat) {
    exists k :: 0 <= k < |instances| && instances[k].id == i
  }

  /** The stored instances, each once, the oldest first and those without an offset last. */
  ghost predicate IsListing(stored: map<nat, Instance>, instances: seq<Instance>) {
    && (forall k :: 0 <= k < |instances| ==> instances[k].id in stored && SameButLinks(instances[k], stored[instances[k].id]))
    && (forall i :: i in stored ==> Reported(instances, i))
    && (forall j, k :: 0 <= j < k < |instances| ==> instances[j].id != instances[k].id)
    && (forall j, k :: 0 <= j < k < |instances| ==>
          GoesFirst(instances[j].offsetMs, instances[j].id, instances[k].offsetMs, instances[k].id))
  }

  lemma ReportListsTheStored(s: Store, report: Report)
    requires Consistent(s) && Reports(s, report)
    ensures IsListing(s.instances, report.instances)
  {
    OwnInstanceIds(s);
    hide Consistent;
    hide Matching, FinalSummary, FinalGroup, InTimeOrder, Lists, DistinctIds;
    var sorted: seq<Instance> :|
      && InTimeOrder(sorted) && Lists(sorted, s.instances) && DistinctIds(sorted)
      && IsAnnotation(sorted, s.redirectUrls, report.instances);
    AnnotatedListing(sorted, s, report.instances);
  }

  lemma OwnInstanceIds(s: Store)
    requires Consistent(s)
    ensures forall i :: i in s.instances ==> s.instances[i].id == i
  {
    hide GroupsLinked, BodiesLinked, NoEmptyGroup, WithinCaps, TotalsBalance, GroupsBalance, GroupsSampled;
  }

  lemma AnnotatedListing(sorted: seq<Instance>, s: Store, out: seq<Instance>)
    requires InTimeOrder(sorted) && Lists(sorted, s.instances) && DistinctIds(sorted)
    requires IsAnnotation(sorted, s.redirectUrls, out)
    requires forall i :: i in s.instances ==> s.instances[i].id == i
    ensures IsListing(s.instances, out)
  {
    hide Matching, InTimeOrder, DistinctIds, Lists, IsListing;
    AnnotatedAlike(sorted, s.redirectUrls, out);
    hide IsAnnotation;
    AlikeIsListing(sorted, s.instances, out);
  }

  lemma AnnotatedAlike(sorted: seq<Instance>, urls: map<nat, string>, out: seq<Instance>)
    requires IsAnnotation(sorted, urls, out)
    ensures |out| == |sorted| && forall k :: 0 <= k < |sorted| ==> SameButLinks(out[k], sorted[k])
  {
    hide Matching, IdAt, SourceOf, TargetAt;
  }

  lemma AlikeIsListing(sorted: seq<Instance>, stored: map<nat, Instance>, out: seq<Instance>)
    requires InTimeOrder(sorted) && Lists(sorted, stored) && DistinctIds(sorted)
    requires forall i :: i in stored ==> stored[i].id == i
    requires |out| == |sorted| && forall k :: 0 <= k < |sorted| ==> SameButLinks(out[k], sorted[k])
    ensures IsListing(stored, out)
  {
    forall i | i in stored ensures Reported(out, i) {
      assert stored[i] in sorted;
      var k :| 0 <= k < |sorted| && sorted[k] == stored[i];
      assert SameButLinks(out[k], sorted[k]);
    }
    forall j, k | 0 <= j < k < |out|
      ensures out[j].id != out[k].id && GoesFirst(out[j].offsetMs, out[j].id, out[k].offsetMs, out[k].id)
    {
      assert SameButLinks(out[j], sorted[j]) && SameButLinks(out[k], sorted[k]);
      assert TimeBefore(sorted[j], sorted[k]);
    }
  }

  // ----- The report and the observations

  /** The reported instance is this observation. */
  ghost predicate Tells(report: Report, k: nat, obs: Observation)
    requires k < |report.instances|
  {
    var inst := report.instances[k];
    && inst.httpMethod == obs.shape.httpMethod && inst.url == obs.shape.url && inst.status == obs.shape.status
    && inst.offsetMs == obs.offsetMs && inst.context == obs.context
    && inst.groupId in report.groups && report.groups[inst.groupId].shape == obs.shape
    && (inst.redirectToId.Some? ==>
          obs.redirectToUrl.Some? && obs.redirectToUrl.value != "" && LeadsTo(report.instances, k, obs.redirectToUrl.value))
    && TellsBody(report.bodies, inst.requestBodyRef, obs.requestBody)
    && TellsBody(report.bodies, inst.responseBodyRef, obs.responseBody)
  }

  /** The link of the k-th instance leads to a later request to the URL, which is linked back. */
  ghost predicate LeadsTo(instances: seq<Instance>, k: nat, url: string)
    requires k < |instances|
  {
    exists j :: k < j < |instances| && Some(instances[j].id) == instances[k].redirectToId
      && instances[j].url == url && instances[j].redirectFromId == Some(instances[k].id)
  }

  predicate TellsBody(bodies: map<nat, Body>, ref: Option<nat>, observed: Option<ObservedBody>) {
    ref.Some? ==>
      && observed.Some? && ref.value in bodies
      && bodies[ref.value].content == observed.value.content
      && bodies[ref.value].contentType == observed.value.contentType
      && bodies[ref.value].fingerprint == observed.value.fingerprint
  }

  /** A reported link leads to a later request to the URL the store keeps for it. */
  lemma LinksLead(s: Store, report: Report, k: nat)
    requires Consistent(s) && Reports(s, report) && k < |report.instances| && report.instances[k].redirectToId.Some?
    ensures report.instances[k].id in s.redirectUrls && s.redirectUrls[report.instances[k].id] != ""
    ensures LeadsTo(report.instances, k, s.redirectUrls[report.instances[k].id])
  {
    hide InTimeOrder, Lists, DistinctIds, Matching, FinalSummary, FinalGroup, NoEmptyGroup, WithinCaps, TotalsBalance,
      GroupsBalance, GroupsSampled, Linked, TimeBefore, Annotated, LeadsTo;
    var sorted: seq<Instance> :|
      && InTimeOrder(sorted) && Lists(sorted, s.instances) && DistinctIds(sorted)
      && IsAnnotation(sorted, s.redirectUrls, report.instances);
    var targets :| |targets| == |sorted| && Matching(sorted, s.redirectUrls, targets)
      && Annotated(sorted, targets, report.instances);
    LinkLeads(sorted, s.redirectUrls, targets, report.instances, k);
  }

  lemma LinkLeads(s: seq<Instance>, urls: map<nat, string>, targets: seq<Option<nat>>, out: seq<Instance>, k: nat)
    requires Matching(s, urls, targets) && |targets| == |s| && Annotated(s, targets, out) && DistinctIds(s)
    requires k < |out| && out[k].redirectToId.Some?
    ensures out[k].id in urls && urls[out[k].id] != "" && LeadsTo(out, k, urls[out[k].id])
  {
    hide Matching, DistinctIds;
    LinkHasTarget(s, targets, out, k);
    TargetIsLater(s, urls, targets, k);
    LinksAreInverse(s, urls, targets, out, k, targets[k].value);
  }

  lemma LinkHasTarget(s: seq<Instance>, targets: seq<Option<nat>>, out: seq<Instance>, k: nat)
    requires |targets| == |s| && Annotated(s, targets, out) && k < |out| && out[k].redirectToId.Some?
    ensures targets[k].Some?
  {
  }

  /** A later request to the URL of a redirect that is not its link, and not after its link, is an earlier one's. */
  lemma LinksAreGreedy(s: Store, report: Report, k: nat, m: nat)
    requires Consistent(s) && Reports(s, report) && k < m < |report.instances|
    requires report.instances[k].id in s.redirectUrls && s.redirectUrls[report.instances[k].id] == report.instances[m].url
    requires report.instances[m].url != ""
    requires forall j :: 0 <= j <= m ==> Some(report.instances[j].id) != report.instances[k].redirectToId
    ensures exists i :: 0 <= i < k && report.instances[i].redirectToId == Some(report.instances[m].id)
  {
    hide InTimeOrder, Lists, DistinctIds, Matching, FinalSummary, FinalGroup, NoEmptyGroup, WithinCaps, TotalsBalance,
      GroupsBalance, GroupsSampled, Linked, TimeBefore, Annotated;
    var sorted: seq<Instance> :|
      && InTimeOrder(sorted) && Lists(sorted, s.instances) && DistinctIds(sorted)
      && IsAnnotation(sorted, s.redirectUrls, report.instances);
    var targets :| |targets| == |sorted| && Matching(sorted, s.redirectUrls, targets)
      && Annotated(sorted, targets, report.instances);
    GreedyLinks(sorted, s.redirectUrls, targets, report.instances, k, m);
  }

  lemma GreedyLinks(
      s: seq<Instance>, urls: map<nat, string>, targets: seq<Option<nat>>, out: seq<Instance>, k: nat, m: nat)
    requires Matching(s, urls, targets) && |targets| == |s| && Annotated(s, targets, out)
    requires k < m < |out| && out[k].id in urls && urls[out[k].id] == out[m].url && out[m].url != ""
    requires forall j :: 0 <= j <= m ==> Some(out[j].id) != out[k].redirectToId
    ensures exists i :: 0 <= i < k && out[i].redirectToId == Some(out[m].id)
  {
    hide SourceOf;
    assert LinkedToFirst(s, urls, targets, k);
    assert Taken(targets, k, m) by {
      if targets[k].Some? { assert Some(out[targets[k].value].id) == out[k].redirectToId; }
    }
    var i :| 0 <= i < k && targets[i] == Some(m);
    assert out[i].redirectToId == Some(out[m].id);
  }

  /** Every reported instance is an observation of the run, and all it leads to is that observation's. */
  lemma ReportTellsTheRun(observations: seq<Observation>, report: Report, k: nat)
    requires Reports(Run(observations), report) && DigestTells(observations) && k < |report.instances|
    ensures report.instances[k].id in Origins(observations)
    ensures Origins(observations)[report.instances[k].id] < |observations|
    ensures Tells(report, k, observations[Origins(observations)[report.instances[k].id]])
  {
    hide Origins, DigestTells, FlagsAgree, Run, NoEmptyGroup, WithinCaps, TotalsBalance, GroupsBalance, GroupsSampled,
      Linked, LeadsTo, InTimeOrder, Lists, IsAnnotation, Flagged, Carries, FinalSummary, Consistent;
    var s, i := Run(observations), report.instances[k].id;
    ReportListsTheStored(s, report);
    EveryInstanceWasObserved(observations);
    RetainedBodiesAreObserved(observations, i);
    if report.instances[k].redirectToId.Some? { LinksLead(s, report, k); }
  }

  /** How many reported instances belong to the group. */
  ghost function MembersOf(instances: seq<Instance>, g: nat): set<nat> {
    set k | 0 <= k < |instances| && instances[k].groupId == g
  }

  /** The reported times and sampling of a group are those of the observations counted since it was made. */
  ghost predicate TellsGroup(report: Report, observations: seq<Observation>, g: nat)
    requires g in report.groups
  {
    var group := report.groups[g];
    var tenure := Tenure(observations, HashShape(group.shape));
    && IsEarliest(group.firstOffsetMs, observations, tenure) && IsLatest(group.lastOffsetMs, observations, tenure)
    && group.counts.suppressed == SuppressedAmong(|tenure|)
    && group.counts.retained == |MembersOf(report.instances, g)|
    && group.counts.occurrences == |Occurrences(observations, HashShape(group.shape))|
    && group.counts.occurrences == group.counts.retained + group.counts.suppressed + group.counts.evicted
  }

  lemma ReportTellsTheGroups(observations: seq<Observation>, report: Report, g: nat)
    requires Reports(Run(observations), report) && g in report.groups
    ensures TellsGroup(report, observations, g)
  {
    hide Run, NoEmptyGroup, WithinCaps, TotalsBalance, InTimeOrder, Lists, IsAnnotation, Tenure, IsEarliest, IsLatest,
      SuppressedAmong, Occurrences;
    var s := Run(observations);
    ReportListsTheStored(s, report);
    MembersAreReported(s.instances, report.instances, g);
    LiveShape(s, g);
    MetadataTellsTheTenure(observations, HashShape(s.groups[g].shape));
    OccurrencesTellTheTenure(observations, g);
  }

  lemma LiveShape(s: Store, g: nat)
    requires Linked(s) && g in s.groups
    ensures s.groups[g].fingerprint == HashShape(s.groups[g].shape) && s.groups[g].fingerprint in s.metadata
  {
    assert Indexes(s.groupByShape, s.groups[g].fingerprint, g);
  }

  lemma MembersAreReported(stored: map<nat, Instance>, instances: seq<Instance>, g: nat)
    requires IsListing(stored, instances)
    ensures |Members(stored, g)| == |MembersOf(instances, g)|
  {
    hide GoesFirst;
    var indexes := MembersOf(instances, g);
    assert forall k :: k in indexes ==> instances[k].id in Members(stored, g);
    SameSize(indexes, Members(stored, g), instances);
  }

  /** Positions with distinct ids are as many as the ids. */
  lemma {:induction false} SameSize(indexes: set<nat>, ids: set<nat>, instances: seq<Instance>)
    requires forall k :: k in indexes ==> k < |instances| && instances[k].id in ids
    requires forall i :: i in ids ==> exists k :: k in indexes && k < |instances| && instances[k].id == i
    requires forall j, k :: 0 <= j < k < |instances| ==> instances[j].id != instances[k].id
    ensures |indexes| == |ids|
    decreases indexes
  {
    if indexes == {} {
      assert ids == {};
    } else {
      var k :| k in indexes;
      SameSize(indexes - {k}, ids - {instances[k].id}, instances);
    }
  }

  /** The counts of a report are those of its own lists, and they add up to the observations. */
  lemma ReportAddsUp(observations: seq<Observation>, report: Report)
    requires Reports(Run(observations), report)
    ensures report.summary.retainedInstances == |report.instances|
    ensures report.summary.retainedGroups == |report.groups| && report.summary.retainedBodies == |report.bodies|
    ensures |observations| == |report.instances| + report.summary.filtered + report.summary.groupCapDrops
      + report.summary.instanceCapDrops + report.summary.suppressed + report.summary.evicted
    ensures |report.instances| <= 500 && |report.groups| <= 200 && |report.bodies| <= 100
  {
    RunCounts(observations);
    hide Run, NoEmptyGroup, Linked, GroupsBalance, GroupsSampled, InTimeOrder, Lists, IsAnnotation, FinalGroup;
    var s := Run(observations);
    ReportListsTheStored(s, report);
    AllAreListed(s.instances, report.instances);
    assert report.groups.Keys == s.groups.Keys;
    assert |report.groups.Keys| == |report.groups| && |s.groups.Keys| == |s.groups|;
  }

  lemma AllAreListed(stored: map<nat, Instance>, instances: seq<Instance>)
    requires IsListing(stored, instances)
    ensures |instances| == |stored|
  {
    hide GoesFirst;
    var indexes := Below(|instances|);
    SameSize(indexes, stored.Keys, instances);
    assert |stored.Keys| == |stored|;
  }

  function {:induction false} Below(n: nat): (s: set<nat>)
    ensures |s| == n && forall k: nat :: k in s <==> k < n
  {
    if n == 0 then {} else Below(n - 1) + {n - 1}
  }
}
