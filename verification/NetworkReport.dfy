/** The end of the network store: temporal order, redirect links and the final check of its books. */
module NetworkReport {
  import opened Options
  import opened NetworkStore

  datatype Report = Report(summary: Summary, instances: seq<Instance>, groups: map<nat, Group>, bodies: map<nat, Body>)

  datatype InvariantError =
    | TotalsDiffer(observed: nat, accounted: nat)
    | GroupDiffers(group: nat, occurrences: nat, expected: nat)

  // ----- Temporal order

  /** By offset, a missing one last, and then by order of admission. */
  predicate TimeBefore(a: Instance, b: Instance) {
    OffsetBefore(a.offsetMs, b.offsetMs) || (a.offsetMs == b.offsetMs && a.id < b.id)
  }

  ghost predicate InTimeOrder(s: seq<Instance>) {
    forall i, j :: 0 <= i < j < |s| ==> TimeBefore(s[i], s[j])
  }

  ghost predicate Lists(s: seq<Instance>, instances: map<nat, Instance>) {
    && (forall k :: 0 <= k < |s| ==> s[k].id in instances && instances[s[k].id] == s[k])
    && (forall i :: i in instances ==> instances[i] in s)
  }

  /** A listing in time order is unique, so it does not matter how the sort works. */
  lemma {:induction false} TimeOrderIsUnique(s: seq<Instance>, t: seq<Instance>)
    requires InTimeOrder(s) && InTimeOrder(t) && forall x :: x in s <==> x in t
    ensures s == t
  {
    assert s != [] ==> s[0] in s;
    assert t != [] ==> t[0] in t;
    if s != [] && t != [] {
      var k :| 0 <= k < |t| && t[k] == s[0];
      var l :| 0 <= l < |s| && s[l] == t[0];
      assert k == 0 && l == 0;
      forall x ensures x in s[1..] <==> x in t[1..] {
        TailMembers(s, x);
        TailMembers(t, x);
      }
      TimeOrderIsUnique(s[1..], t[1..]);
      assert s == [s[0]] + s[1..] && t == [t[0]] + t[1..];
    }
  }

  lemma TailMembers(s: seq<Instance>, x: Instance)
    requires InTimeOrder(s) && s != []
    ensures x in s[1..] <==> x in s && x != s[0]
  {
    if x in s && x != s[0] {
      var k :| 0 <= k < |s| && s[k] == x;
      assert s[1..][k - 1] == x;
    }
  }

  /** Sorts the instances with ids below a bound by inserting one after the other. */
  method SortInstances(instances: map<nat, Instance>, bound: nat) returns (sorted: seq<Instance>)
    requires forall i :: i in instances ==> i < bound && instances[i].id == i
    ensures InTimeOrder(sorted) && Lists(sorted, instances)
  {
    sorted := [];
    for id := 0 to bound
      invariant InTimeOrder(sorted)
      invariant forall k :: 0 <= k < |sorted| ==> sorted[k].id in instances && sorted[k].id < id && instances[sorted[k].id] == sorted[k]
      invariant forall i :: i in instances && i < id ==> instances[i] in sorted
    {
      if id in instances {
        var x := instances[id];
        var k := 0;
        while k < |sorted| && TimeBefore(sorted[k], x)
          invariant 0 <= k <= |sorted|
          invariant forall j :: 0 <= j < k ==> TimeBefore(sorted[j], x)
        {
          k := k + 1;
        }
        InsertionSorts(sorted, k, x);
        sorted := sorted[..k] + [x] + sorted[k..];
      }
    }
  }

  lemma InsertionSorts(s: seq<Instance>, k: nat, x: Instance)
    requires InTimeOrder(s) && k <= |s| && forall j :: 0 <= j < |s| ==> s[j].id != x.id
    requires forall j :: 0 <= j < k ==> TimeBefore(s[j], x)
    requires k < |s| ==> !TimeBefore(s[k], x)
    ensures InTimeOrder(s[..k] + [x] + s[k..])
    ensures forall y :: y in s[..k] + [x] + s[k..] <==> y in s || y == x
  {
    BeforeTheRest(s, k, x);
    hide TimeBefore, InTimeOrder;
    InsertedInOrder(s, k, x);
    assert s == s[..k] + s[k..];
  }

  lemma BeforeTheRest(s: seq<Instance>, k: nat, x: Instance)
    requires InTimeOrder(s) && k <= |s|
    requires k < |s| ==> s[k].id != x.id && !TimeBefore(s[k], x)
    ensures forall j :: k <= j < |s| ==> TimeBefore(x, s[j])
  {
    if k < |s| { assert TimeBefore(x, s[k]); }
  }

  lemma InsertedInOrder(s: seq<Instance>, k: nat, x: Instance)
    requires InTimeOrder(s) && k <= |s|
    requires forall j :: 0 <= j < k ==> TimeBefore(s[j], x)
    requires forall j :: k <= j < |s| ==> TimeBefore(x, s[j])
    ensures InTimeOrder(s[..k] + [x] + s[k..])
  {
    hide TimeBefore;
    var t := s[..k] + [x] + s[k..];
    assert forall j :: 0 <= j < |t| ==> t[j] == if j < k then s[j] else if j == k then x else s[j - 1];
  }

  // ----- Redirect links

  /** The URL an instance was redirected to; an empty one counts as none. */
  function RedirectUrl(urls: map<nat, string>, inst: Instance): Option<string> {
    if inst.id in urls && urls[inst.id] != "" then Some(urls[inst.id]) else None
  }

  ghost predicate Taken(targets: seq<Option<nat>>, n: nat, j: nat)
    requires n <= |targets|
  {
    exists i :: 0 <= i < n && targets[i] == Some(j)
  }

  /** targets[i] is the first later instance with i's redirect URL that no earlier redirect has taken. */
  ghost predicate LinkedToFirst(s: seq<Instance>, urls: map<nat, string>, targets: seq<Option<nat>>, i: nat)
    requires i < |targets| <= |s|
  {
    match RedirectUrl(urls, s[i])
    case None => targets[i] == None
    case Some(url) =>
      && (targets[i].Some? ==> i < targets[i].value < |s| && s[targets[i].value].url == url && !Taken(targets, i, targets[i].value))
      && (forall k :: i < k < (if targets[i].Some? then targets[i].value else |s|) && s[k].url == url ==> Taken(targets, i, k))
  }

  ghost predicate Matching(s: seq<Instance>, urls: map<nat, string>, targets: seq<Option<nat>>) {
    |targets| <= |s| && forall i :: 0 <= i < |targets| ==> LinkedToFirst(s, urls, targets, i)
  }

  function SourceOf(targets: seq<Option<nat>>, j: nat): Option<nat> {
    if targets == [] then None
    else if targets[|targets| - 1] == Some(j) then Some(|targets| - 1)
    else SourceOf(targets[..|targets| - 1], j)
  }

  function IdAt(s: seq<Instance>, index: Option<nat>): Option<nat> {
    if index.Some? && index.value < |s| then Some(s[index.value].id) else None
  }

  function TargetAt(targets: seq<Option<nat>>, i: nat): Option<nat> {
    if i < |targets| then targets[i] else None
  }

  function WithLinks(inst: Instance, to: Option<nat>, from: Option<nat>): Instance {
    inst.(redirectToId := to, redirectFromId := from)
  }

  /** The instances, with the links that the targets stand for. */
  ghost predicate Annotated(s: seq<Instance>, targets: seq<Option<nat>>, out: seq<Instance>) {
    && |out| == |s|
    && forall i :: 0 <= i < |s| ==> out[i] == WithLinks(s[i], IdAt(s, TargetAt(targets, i)), IdAt(s, SourceOf(targets, i)))
  }

  lemma {:induction false} SourceIsTaker(targets: seq<Option<nat>>, j: nat)
    ensures SourceOf(targets, j).Some? <==> Taken(targets, |targets|, j)
    ensures SourceOf(targets, j).Some? ==> SourceOf(targets, j).value < |targets| && targets[SourceOf(targets, j).value] == Some(j)
  {
    if targets != [] {
      var n := |targets| - 1;
      SourceIsTaker(targets[..n], j);
      TakenInPrefix(targets, n, n, j);
      assert Taken(targets, |targets|, j) <==> Taken(targets, n, j) || targets[n] == Some(j);
    }
  }

  /** No two redirects share a target. */
  lemma MatchingIsOneToOne(s: seq<Instance>, urls: map<nat, string>, targets: seq<Option<nat>>, i: nat, k: nat)
    requires Matching(s, urls, targets) && i < k < |targets| && targets[i].Some?
    ensures targets[k] != targets[i]
  {
    assert LinkedToFirst(s, urls, targets, k);
    assert Taken(targets, k, targets[i].value);
  }

  lemma {:induction false} MatchingIsUnique(s: seq<Instance>, urls: map<nat, string>, a: seq<Option<nat>>, b: seq<Option<nat>>)
    requires Matching(s, urls, a) && Matching(s, urls, b) && |a| == |b|
    ensures a == b
  {
    if a != [] {
      var n := |a| - 1;
      PrefixMatches(s, urls, a);
      PrefixMatches(s, urls, b);
      MatchingIsUnique(s, urls, a[..n], b[..n]);
      assert forall i :: 0 <= i < n ==> a[i] == a[..n][i] == b[..n][i] == b[i];
      forall j ensures Taken(a, n, j) <==> Taken(b, n, j) {
      }
      assert LinkedToFirst(s, urls, a, n) && LinkedToFirst(s, urls, b, n);
      assert a[n] == b[n];
      assert a == a[..n] + [a[n]] && b == b[..n] + [b[n]];
    }
  }

  lemma TakenInPrefix(targets: seq<Option<nat>>, n: nat, m: nat, j: nat)
    requires n <= m <= |targets|
    ensures Taken(targets[..m], n, j) <==> Taken(targets, n, j)
  {
    if Taken(targets, n, j) {
      var i :| 0 <= i < n && targets[i] == Some(j);
      assert targets[..m][i] == Some(j);
    }
  }

  lemma PrefixMatches(s: seq<Instance>, urls: map<nat, string>, targets: seq<Option<nat>>)
    requires Matching(s, urls, targets) && targets != []
    ensures Matching(s, urls, targets[..|targets| - 1])
  {
    var n := |targets| - 1;
    forall i | 0 <= i < n ensures LinkedToFirst(s, urls, targets[..n], i) {
      assert LinkedToFirst(s, urls, targets, i);
      forall j ensures Taken(targets[..n], i, j) <==> Taken(targets, i, j) {
        TakenInPrefix(targets, i, n, j);
      }
    }
  }

  lemma ExtendMatching(s: seq<Instance>, urls: map<nat, string>, targets: seq<Option<nat>>, target: Option<nat>)
    requires Matching(s, urls, targets) && |targets| < |s|
    requires LinkedToFirst(s, urls, targets + [target], |targets|)
    ensures Matching(s, urls, targets + [target])
  {
    var more := targets + [target];
    forall i | 0 <= i < |targets| ensures LinkedToFirst(s, urls, more, i) {
      assert LinkedToFirst(s, urls, targets, i);
      forall j ensures Taken(targets, i, j) <==> Taken(more, i, j) {
        TakenInPrefix(more, i, |targets|, j);
        assert more[..|targets|] == targets;
      }
    }
  }

  ghost predicate DistinctIds(s: seq<Instance>) {
    forall i, j :: 0 <= i < j < |s| ==> s[i].id != s[j].id
  }

  ghost predicate Unlinked(s: seq<Instance>) {
    forall i :: 0 <= i < |s| ==> s[i].redirectToId == None && s[i].redirectFromId == None
  }

  lemma IdNamesIndex(s: seq<Instance>, index: Option<nat>, j: nat)
    requires DistinctIds(s) && j < |s| && (index.Some? ==> index.value < |s|)
    ensures IdAt(s, index) == Some(s[j].id) <==> index == Some(j)
  {
  }

  lemma SourceIffTarget(s: seq<Instance>, urls: map<nat, string>, targets: seq<Option<nat>>, i: nat, j: nat)
    requires Matching(s, urls, targets) && i < |targets|
    ensures targets[i] == Some(j) <==> SourceOf(targets, j) == Some(i)
  {
    SourceIsTaker(targets, j);
    if targets[i] == Some(j) {
      assert Taken(targets, |targets|, j);
      var k := SourceOf(targets, j).value;
      if i < k {
        MatchingIsOneToOne(s, urls, targets, i, k);
      } else if k < i {
        MatchingIsOneToOne(s, urls, targets, k, i);
      }
    }
  }

  lemma TargetIsLater(s: seq<Instance>, urls: map<nat, string>, targets: seq<Option<nat>>, i: nat)
    requires Matching(s, urls, targets) && i < |targets| && targets[i].Some?
    ensures i < targets[i].value < |s| && RedirectUrl(urls, s[i]) == Some(s[targets[i].value].url)
  {
    assert LinkedToFirst(s, urls, targets, i);
  }

  /** In the annotated instances the two kinds of link are inverse, and go forward in the order. */
  lemma LinksAreInverse(
      s: seq<Instance>, urls: map<nat, string>, targets: seq<Option<nat>>, out: seq<Instance>, i: nat, j: nat)
    requires Matching(s, urls, targets) && |targets| == |s| && Annotated(s, targets, out) && DistinctIds(s)
    requires i < |s| && j < |s|
    ensures out[i].redirectToId == Some(s[j].id) <==> out[j].redirectFromId == Some(s[i].id)
    ensures out[i].redirectToId == Some(s[j].id) ==> i < j && RedirectUrl(urls, s[i]) == Some(s[j].url)
  {
    hide Matching, DistinctIds, IdAt, RedirectUrl, SourceOf;
    if targets[i].Some? { TargetIsLater(s, urls, targets, i); }
    SourceIsTaker(targets, j);
    SourceIffTarget(s, urls, targets, i, j);
    IdNamesIndex(s, targets[i], j);
    IdNamesIndex(s, SourceOf(targets, j), i);
  }

  /** Every request to the URL after i and before end is some earlier redirect's target. */
  ghost predicate AllTaken(s: seq<Instance>, targets: seq<Option<nat>>, i: nat, url: string, end: nat)
    requires i <= |targets| && end <= |s|
  {
    forall k {:trigger s[k]} :: i < k < end && s[k].url == url ==> Taken(targets, i, k)
  }

  /** The scan for one redirect's target: the first later request to its URL that nothing leads to yet. */
  method FindRedirectTarget(
      s: seq<Instance>, urls: map<nat, string>, out: seq<Instance>, ghost targets: seq<Option<nat>>, index: nat)
      returns (target: Option<nat>)
    requires Annotated(s, targets, out) && |targets| == index < |s|
    ensures target.Some? ==> index < target.value < |s| && !Taken(targets, index, target.value)
    ensures LinkedToFirst(s, urls, targets + [target], index)
  {
    RedirectsAlike(s, urls, targets, out, index);
    hide RedirectUrl, Annotated, Taken, LinkedToFirst, AllTaken;
    target := None;
    var redirectTo := RedirectUrl(urls, out[index]);
    if redirectTo.Some? {
      var candidate := index + 1;
      NoneBetween(s, targets, index, redirectTo.value);
      while candidate < |s| && target.None?
        invariant index < candidate <= |s|
        invariant AllTaken(s, targets, index, redirectTo.value, candidate)
        invariant target.Some? ==>
          target.value == candidate < |s| && s[candidate].url == redirectTo.value && !Taken(targets, index, candidate)
        decreases |s| - candidate, if target.None? then 1 else 0
      {
        NothingFromUntaken(s, targets, out, candidate);
        AllTakenStep(s, targets, index, redirectTo.value, candidate);
        if out[candidate].url == redirectTo.value && out[candidate].redirectFromId == None {
          target := Some(candidate);
        } else {
          candidate := candidate + 1;
        }
      }
      FirstIsLinked(s, urls, targets, index, redirectTo.value, target);
    } else {
      NoneIsLinked(s, urls, targets, index);
    }
  }

  lemma NoneBetween(s: seq<Instance>, targets: seq<Option<nat>>, i: nat, url: string)
    requires i <= |targets| && i < |s|
    ensures AllTaken(s, targets, i, url, i + 1)
  {
  }

  lemma AllTakenStep(s: seq<Instance>, targets: seq<Option<nat>>, i: nat, url: string, end: nat)
    requires i <= |targets| && end < |s| && AllTaken(s, targets, i, url, end)
    ensures s[end].url != url || Taken(targets, i, end) ==> AllTaken(s, targets, i, url, end + 1)
  {
    hide Taken;
  }

  lemma FirstIsLinked(
      s: seq<Instance>, urls: map<nat, string>, targets: seq<Option<nat>>, i: nat, url: string, target: Option<nat>)
    requires i == |targets| < |s| && RedirectUrl(urls, s[i]) == Some(url)
    requires target.Some? ==> i < target.value < |s| && s[target.value].url == url && !Taken(targets, i, target.value)
    requires AllTaken(s, targets, i, url, if target.Some? then target.value else |s|)
    ensures LinkedToFirst(s, urls, targets + [target], i)
  {
    hide RedirectUrl, Taken;
    TakenInMore(targets, target, i);
  }

  lemma NoneIsLinked(s: seq<Instance>, urls: map<nat, string>, targets: seq<Option<nat>>, i: nat)
    requires i == |targets| < |s| && RedirectUrl(urls, s[i]) == None
    ensures LinkedToFirst(s, urls, targets + [None], i)
  {
    hide RedirectUrl, Taken;
  }

  /** The instances, with the links of their greedy matching. */
  ghost predicate IsAnnotation(s: seq<Instance>, urls: map<nat, string>, out: seq<Instance>) {
    exists targets :: |targets| == |s| && Matching(s, urls, targets) && Annotated(s, targets, out)
  }

  method AnnotateRedirects(s: seq<Instance>, urls: map<nat, string>) returns (out: seq<Instance>)
    requires Unlinked(s)
    ensures IsAnnotation(s, urls, out)
  {
    hide Matching, LinkedToFirst, Unlinked, Taken;
    out := s;
    ghost var targets: seq<Option<nat>> := [];
    NothingAnnotated(s, urls);
    for index := 0 to |s|
      invariant |targets| == index && |out| == |s|
      invariant Matching(s, urls, targets) && Annotated(s, targets, out)
    {
      var target := FindRedirectTarget(s, urls, out, targets, index);
      hide Annotated;
      ExtendMatching(s, urls, targets, target);
      LinkOne(s, targets, out, target);
      if target.Some? {
        out := out[index := out[index].(redirectToId := Some(out[target.value].id))];
        out := out[target.value := out[target.value].(redirectFromId := Some(out[index].id))];
      }
      targets := targets + [target];
    }
  }

  lemma NothingAnnotated(s: seq<Instance>, urls: map<nat, string>)
    requires Unlinked(s)
    ensures Matching(s, urls, []) && Annotated(s, [], s)
  {
  }

  /** An instance has a source in the annotation exactly when it is some redirect's target. */
  lemma NothingFromUntaken(s: seq<Instance>, targets: seq<Option<nat>>, out: seq<Instance>, k: nat)
    requires Annotated(s, targets, out) && |targets| <= |s| && k < |s|
    ensures |out| == |s| && out[k].url == s[k].url
    ensures out[k].redirectFromId == None <==> !Taken(targets, |targets|, k)
  {
    SourceIsTaker(targets, k);
  }

  lemma RedirectsAlike(s: seq<Instance>, urls: map<nat, string>, targets: seq<Option<nat>>, out: seq<Instance>, i: nat)
    requires Annotated(s, targets, out) && i < |s|
    ensures |out| == |s| && RedirectUrl(urls, out[i]) == RedirectUrl(urls, s[i])
  {
    hide SourceOf;
  }

  lemma TakenInMore(targets: seq<Option<nat>>, target: Option<nat>, n: nat)
    requires n <= |targets|
    ensures forall j :: Taken(targets + [target], n, j) <==> Taken(targets, n, j)
  {
    forall j: nat ensures Taken(targets + [target], n, j) <==> Taken(targets, n, j) {
      TakenInPrefix(targets + [target], n, |targets|, j);
      assert (targets + [target])[..|targets|] == targets;
    }
  }

  function LinkedPair(out: seq<Instance>, i: nat, target: Option<nat>): seq<Instance>
    requires i < |out| && (target.Some? ==> target.value < |out|)
  {
    if target.None? then out
    else
      var to := out[i := out[i].(redirectToId := Some(out[target.value].id))];
      to[target.value := to[target.value].(redirectFromId := Some(to[i].id))]
  }

  lemma SourceOfMore(targets: seq<Option<nat>>, target: Option<nat>, i: nat)
    ensures SourceOf(targets + [target], i) == if target == Some(i) then Some(|targets|) else SourceOf(targets, i)
  {
    assert (targets + [target])[..|targets|] == targets;
  }

  lemma LinkOne(s: seq<Instance>, targets: seq<Option<nat>>, out: seq<Instance>, target: Option<nat>)
    requires Annotated(s, targets, out) && |targets| < |s|
    requires target.Some? ==> |targets| < target.value < |s|
    ensures Annotated(s, targets + [target], LinkedPair(out, |targets|, target))
  {
    hide SourceOf;
    var more, linked := targets + [target], LinkedPair(out, |targets|, target);
    forall i: nat | i < |s|
      ensures linked[i] == WithLinks(s[i], IdAt(s, TargetAt(more, i)), IdAt(s, SourceOf(more, i)))
    {
      SourceOfMore(targets, target, i);
      assert out[i] == WithLinks(s[i], IdAt(s, TargetAt(targets, i)), IdAt(s, SourceOf(targets, i)));
    }
  }

  lemma ListedIdsAreDistinct(s: seq<Instance>, instances: map<nat, Instance>)
    requires InTimeOrder(s) && Lists(s, instances)
    ensures DistinctIds(s)
  {
    forall i, j | 0 <= i < j < |s| ensures s[i].id != s[j].id {
      assert TimeBefore(s[i], s[j]);
    }
  }

  // ----- The books

  function CountOf(counts: map<nat, nat>, g: nat): nat {
    if g in counts then counts[g] else 0
  }

  ghost function MembersBelow(instances: map<nat, Instance>, g: nat, bound: nat): set<nat> {
    set i | i in instances && instances[i].groupId == g && i < bound
  }

  method CountRetained(instances: map<nat, Instance>, bound: nat) returns (counts: map<nat, nat>)
    requires forall i :: i in instances ==> i < bound
    ensures forall g: nat :: CountOf(counts, g) == |Members(instances, g)|
  {
    counts := map[];
    for id := 0 to bound
      invariant forall g: nat :: CountOf(counts, g) == |MembersBelow(instances, g, id)|
    {
      forall g: nat
        ensures |MembersBelow(instances, g, id + 1)|
             == |MembersBelow(instances, g, id)| + if id in instances && instances[id].groupId == g then 1 else 0
      {
        MembersStep(instances, g, id);
      }
      if id in instances {
        var g := instances[id].groupId;
        ghost var before := counts;
        counts := counts[g := CountOf(counts, g) + 1];
        assert forall h: nat :: CountOf(counts, h) == CountOf(before, h) + if h == g then 1 else 0;
      }
    }
    forall g: nat ensures MembersBelow(instances, g, bound) == Members(instances, g) {
    }
  }

  lemma MembersStep(instances: map<nat, Instance>, g: nat, id: nat)
    ensures |MembersBelow(instances, g, id + 1)|
         == |MembersBelow(instances, g, id)| + if id in instances && instances[id].groupId == g then 1 else 0
  {
    var one := if id in instances && instances[id].groupId == g then {id} else {};
    assert MembersBelow(instances, g, id + 1) == MembersBelow(instances, g, id) + one;
  }

  function Accounted(summary: Summary): nat {
    summary.retainedInstances + summary.filtered + summary.groupCapDrops + summary.instanceCapDrops
    + summary.suppressed + summary.evicted
  }

  /** Checks the sums; fails exactly when one of them is off. */
  method AssertInvariants(summary: Summary, groups: map<nat, Group>, bound: nat) returns (r: Result<(), InvariantError>)
    requires forall g :: g in groups ==> g < bound
    ensures r.Ok? <==>
      && Accounted(summary) == summary.observed
      && forall g :: g in groups ==> GroupBalances(groups[g].counts, groups[g].counts.retained)
  {
    if Accounted(summary) != summary.observed {
      return Err(TotalsDiffer(summary.observed, Accounted(summary)));
    }
    for g := 0 to bound
      invariant forall h :: h in groups && h < g ==> GroupBalances(groups[h].counts, groups[h].counts.retained)
    {
      if g in groups {
        var counts := groups[g].counts;
        var expected := counts.retained + counts.suppressed + counts.evicted;
        if expected != counts.occurrences {
          return Err(GroupDiffers(g, counts.occurrences, expected));
        }
      }
    }
    return Ok(());
  }

  // ----- The report of a store

  ghost function FinalGroup(s: Store, group: Group, g: nat): Group {
    var m := if group.fingerprint in s.metadata then s.metadata[group.fingerprint] else Metadata(None, None, 0);
    group.(counts := group.counts.(retained := |Members(s.instances, g)|),
           firstOffsetMs := m.firstOffsetMs, lastOffsetMs := m.lastOffsetMs)
  }

  function FinalSummary(s: Store): Summary {
    s.summary.(retainedInstances := |s.instances|, retainedGroups := |s.groups|, retainedBodies := |s.bodies.byId|)
  }

  /** What the report says of the store. */
  ghost predicate Reports(s: Store, report: Report) {
    && report.summary == FinalSummary(s)
    && report.groups == (map g | g in s.groups :: FinalGroup(s, s.groups[g], g))
    && report.bodies == s.bodies.byId
    && exists sorted: seq<Instance> ::
         && InTimeOrder(sorted) && Lists(sorted, s.instances) && DistinctIds(sorted)
         && IsAnnotation(sorted, s.redirectUrls, report.instances)
  }

  /** In a report the two kinds of link are inverse, and go forward. */
  lemma ReportLinksAreInverse(s: Store, report: Report, i: nat, j: nat)
    requires Reports(s, report) && i < |report.instances| && j < |report.instances|
    ensures report.instances[i].redirectToId == Some(report.instances[j].id) <==>
      report.instances[j].redirectFromId == Some(report.instances[i].id)
    ensures report.instances[i].redirectToId == Some(report.instances[j].id) ==> i < j
  {
    hide InTimeOrder, Lists, DistinctIds, Matching;
    var sorted: seq<Instance> :|
      && InTimeOrder(sorted) && Lists(sorted, s.instances) && DistinctIds(sorted)
      && IsAnnotation(sorted, s.redirectUrls, report.instances);
    var targets :| |targets| == |sorted| && Matching(sorted, s.redirectUrls, targets)
      && Annotated(sorted, targets, report.instances);
    LinksAreInverse(sorted, s.redirectUrls, targets, report.instances, i, j);
  }

  /** Two reports of one store are the same report. */
  lemma ReportIsUnique(s: Store, a: Report, b: Report)
    requires Reports(s, a) && Reports(s, b)
    ensures a == b
  {
    hide FinalSummary, FinalGroup;
    var sortedA: seq<Instance> :|
      && InTimeOrder(sortedA) && Lists(sortedA, s.instances) && DistinctIds(sortedA)
      && IsAnnotation(sortedA, s.redirectUrls, a.instances);
    var sortedB: seq<Instance> :|
      && InTimeOrder(sortedB) && Lists(sortedB, s.instances) && DistinctIds(sortedB)
      && IsAnnotation(sortedB, s.redirectUrls, b.instances);
    TimeOrderIsUnique(sortedA, sortedB);
    AnnotationIsUnique(sortedA, s.redirectUrls, a.instances, b.instances);
  }

  lemma AnnotationIsUnique(s: seq<Instance>, urls: map<nat, string>, a: seq<Instance>, b: seq<Instance>)
    requires IsAnnotation(s, urls, a) && IsAnnotation(s, urls, b)
    ensures a == b
  {
    hide Matching;
    var targetsA :| |targetsA| == |s| && Matching(s, urls, targetsA) && Annotated(s, targetsA, a);
    var targetsB :| |targetsB| == |s| && Matching(s, urls, targetsB) && Annotated(s, targetsB, b);
    MatchingIsUnique(s, urls, targetsA, targetsB);
  }

  /** In the report of a consistent store every body reference leads to a body. */
  lemma ReportedReferencesAreStored(s: Store, report: Report, k: nat, b: nat)
    requires Consistent(s) && Reports(s, report)
    requires k < |report.instances| && Refers(report.instances[k], b)
    ensures b in report.bodies
  {
    hide InTimeOrder, Matching, DistinctIds, FinalSummary, FinalGroup, WithinCaps, TotalsBalance, GroupsBalance,
      GroupsSampled, NoEmptyGroup, GroupsLinked;
    var sorted: seq<Instance> :|
      && InTimeOrder(sorted) && Lists(sorted, s.instances) && DistinctIds(sorted)
      && IsAnnotation(sorted, s.redirectUrls, report.instances);
    assert Refers(s.instances[sorted[k].id], b);
  }

  /** What finalisation needs of a consistent store: bounds on the ids, and books that balance. */
  lemma ReadyToReport(s: Store)
    requires Consistent(s)
    ensures forall i :: i in s.instances ==> i < s.nextInstance && s.instances[i].id == i
    ensures forall i :: i in s.instances ==> s.instances[i].redirectToId == None && s.instances[i].redirectFromId == None
    ensures forall g :: g in s.groups ==>
      g < s.nextGroup && s.groups[g].firstOffsetMs == None && s.groups[g].lastOffsetMs == None
    ensures forall g :: g in s.groups ==>
      GroupBalances(FinalGroup(s, s.groups[g], g).counts, FinalGroup(s, s.groups[g], g).counts.retained)
    ensures Accounted(FinalSummary(s)) == s.summary.observed
  {
  }
}
