/** Reference counting of the deduplicated bodies, proved to be the garbage collection of `NetworkStore`. */
module BodyCounts {
  import opened Options
  import opened NetworkStore

  // ----- Reference counts against references

  datatype Side = Request | Response

  function RefAt(inst: Instance, side: Side): Option<nat> {
    match side
    case Request => inst.requestBodyRef
    case Response => inst.responseBodyRef
  }

  function WithRef(inst: Instance, side: Side, ref: Option<nat>): Instance {
    match side
    case Request => inst.(requestBodyRef := ref)
    case Response => inst.(responseBodyRef := ref)
  }

  ghost function UsersAt(instances: map<nat, Instance>, side: Side, b: nat): set<nat> {
    set i | i in instances && RefAt(instances[i], side) == Some(b)
  }

  ghost function RefCount(instances: map<nat, Instance>, b: nat): nat {
    |UsersAt(instances, Request, b)| + |UsersAt(instances, Response, b)|
  }

  /** The tables body storage touches. */
  datatype BodyTables = BodyTables(bodies: Bodies, counts: map<nat, nat>)

  function CountsAfterRelease(counts: map<nat, nat>, b: nat): map<nat, nat> {
    if b in counts && counts[b] > 1 then counts[b := counts[b] - 1] else counts - {b}
  }

  /** Dropping one reference: the last one takes the body and its hash with it. */
  function Released(t: BodyTables, ref: Option<nat>): BodyTables {
    if ref.None? then t
    else
      var b := ref.value;
      var counts := CountsAfterRelease(t.counts, b);
      if b in counts then
        t.(counts := counts)
      else
        var byHash := if b in t.bodies.byId then t.bodies.byHash - {t.bodies.byId[b].fingerprint} else t.bodies.byHash;
        BodyTables(t.bodies.(byId := t.bodies.byId - {b}, byHash := byHash), counts)
  }

  /** Adding one reference to the body an observation resolves to. */
  function Claimed(t: BodyTables, observed: Option<ObservedBody>): BodyTables {
    var (bodies, ref) := Resolved(t.bodies, observed);
    BodyTables(bodies, if ref.Some? then CountsAfterClaim(t.counts, ref.value) else t.counts)
  }

  function CountsAfterClaim(counts: map<nat, nat>, b: nat): map<nat, nat> {
    counts[b := (if b in counts then counts[b] else 0) + 1]
  }

  /** Every count is the number of references, and is positive. */
  ghost predicate CountsMatch(counts: map<nat, nat>, instances: map<nat, Instance>) {
    && (forall b :: b in counts ==> counts[b] == RefCount(instances, b) > 0)
    && (forall b :: RefCount(instances, b) > 0 ==> b in counts)
  }

  /** Counts are exact and the bodies stored are those with a count. */
  ghost predicate TablesExact(t: BodyTables, instances: map<nat, Instance>) {
    t.counts.Keys == t.bodies.byId.Keys && CountsMatch(t.counts, instances) && BodiesIndexed(t.bodies)
  }

  lemma UsersAfterUpdate(instances: map<nat, Instance>, i: nat, side: Side, ref: Option<nat>, other: Side, b: nat)
    requires i in instances
    ensures var users, after := UsersAt(instances, other, b), UsersAt(instances[i := WithRef(instances[i], side, ref)], other, b);
      after == if side != other then users else if ref == Some(b) then users + {i} else users - {i}
  {
  }

  lemma CountAfterUpdate(instances: map<nat, Instance>, i: nat, side: Side, ref: Option<nat>, b: nat)
    requires i in instances && (ref.Some? ==> RefAt(instances[i], side).None?)
    ensures RefCount(instances[i := WithRef(instances[i], side, ref)], b)
         == RefCount(instances, b) + (if ref == Some(b) then 1 else 0) - if RefAt(instances[i], side) == Some(b) then 1 else 0
  {
    UsersAfterUpdate(instances, i, side, ref, Request, b);
    UsersAfterUpdate(instances, i, side, ref, Response, b);
  }

  lemma ReleaseKeepsCounts(counts: map<nat, nat>, instances: map<nat, Instance>, i: nat, side: Side, b: nat)
    requires CountsMatch(counts, instances) && i in instances && RefAt(instances[i], side) == Some(b)
    ensures CountsMatch(CountsAfterRelease(counts, b), instances[i := WithRef(instances[i], side, None)])
    ensures b in counts
  {
    var after := instances[i := WithRef(instances[i], side, None)];
    forall c: nat ensures RefCount(after, c) == RefCount(instances, c) - if c == b then 1 else 0 {
      CountAfterUpdate(instances, i, side, None, c);
    }
    assert i in UsersAt(instances, side, b);
  }

  lemma RemovalKeepsIndex(bodies: Bodies, b: nat)
    requires BodiesIndexed(bodies) && b in bodies.byId
    ensures BodiesIndexed(bodies.(byId := bodies.byId - {b}, byHash := bodies.byHash - {bodies.byId[b].fingerprint}))
  {
    var after := bodies.(byId := bodies.byId - {b}, byHash := bodies.byHash - {bodies.byId[b].fingerprint});
    assert Indexes(bodies.byHash, bodies.byId[b].fingerprint, b);
    forall c | c in after.byId ensures Indexes(after.byHash, after.byId[c].fingerprint, c) {
      assert Indexes(bodies.byHash, bodies.byId[c].fingerprint, c);
    }
    forall h, c | Indexes(after.byHash, h, c) ensures c in after.byId && after.byId[c].fingerprint == h {
      assert Indexes(bodies.byHash, h, c);
    }
  }

  lemma ReleaseIsExact(t: BodyTables, instances: map<nat, Instance>, i: nat, side: Side)
    requires TablesExact(t, instances) && i in instances
    ensures TablesExact(Released(t, RefAt(instances[i], side)), instances[i := WithRef(instances[i], side, None)])
  {
    var ref := RefAt(instances[i], side);
    if ref.Some? {
      ReleaseKeepsCounts(t.counts, instances, i, side, ref.value);
      RemovalKeepsIndex(t.bodies, ref.value);
    } else {
      assert instances[i := WithRef(instances[i], side, None)] == instances;
    }
  }

  lemma ClaimKeepsCounts(counts: map<nat, nat>, instances: map<nat, Instance>, i: nat, side: Side, b: nat)
    requires CountsMatch(counts, instances) && i in instances && RefAt(instances[i], side) == None
    ensures CountsMatch(CountsAfterClaim(counts, b), instances[i := WithRef(instances[i], side, Some(b))])
  {
    var after := instances[i := WithRef(instances[i], side, Some(b))];
    forall c: nat ensures RefCount(after, c) == RefCount(instances, c) + if c == b then 1 else 0 {
      CountAfterUpdate(instances, i, side, Some(b), c);
    }
  }

  lemma ClaimIsExact(t: BodyTables, instances: map<nat, Instance>, i: nat, side: Side, observed: Option<ObservedBody>)
    requires TablesExact(t, instances) && i in instances && RefAt(instances[i], side) == None
    ensures TablesExact(Claimed(t, observed), instances[i := WithRef(instances[i], side, Resolved(t.bodies, observed).1)])
  {
    var (bodies, ref) := Resolved(t.bodies, observed);
    if ref.Some? {
      ClaimKeepsCounts(t.counts, instances, i, side, ref.value);
      if observed.value.fingerprint in t.bodies.byHash {
        assert Indexes(t.bodies.byHash, observed.value.fingerprint, ref.value);
      } else {
        NewBodyKeepsIndex(t.bodies, observed.value);
      }
    } else {
      assert instances[i := WithRef(instances[i], side, None)] == instances;
    }
  }

  /** A fresh or stripped instance adds no references. */
  lemma UnreferencingIsExact(t: BodyTables, instances: map<nat, Instance>, i: nat, inst: Instance)
    requires TablesExact(t, instances) && i !in instances
    requires inst.requestBodyRef == None && inst.responseBodyRef == None
    ensures TablesExact(t, instances[i := inst])
  {
    forall b: nat ensures RefCount(instances[i := inst], b) == RefCount(instances, b) {
      assert UsersAt(instances[i := inst], Request, b) == UsersAt(instances, Request, b);
      assert UsersAt(instances[i := inst], Response, b) == UsersAt(instances, Response, b);
    }
  }

  lemma RemovalIsExact(t: BodyTables, instances: map<nat, Instance>, i: nat)
    requires TablesExact(t, instances) && i in instances
    requires instances[i].requestBodyRef == None && instances[i].responseBodyRef == None
    ensures TablesExact(t, instances - {i})
  {
    forall b: nat ensures RefCount(instances - {i}, b) == RefCount(instances, b) {
      assert UsersAt(instances - {i}, Request, b) == UsersAt(instances, Request, b);
      assert UsersAt(instances - {i}, Response, b) == UsersAt(instances, Response, b);
    }
  }

  /** The reference-counted release of both references of an instance. */
  function ReleasedBoth(t: BodyTables, inst: Instance): BodyTables {
    Released(Released(t, inst.requestBodyRef), inst.responseBodyRef)
  }

  lemma ReleasedBothIsExact(t: BodyTables, instances: map<nat, Instance>, i: nat)
    requires TablesExact(t, instances) && i in instances
    ensures TablesExact(ReleasedBoth(t, instances[i]), instances - {i})
  {
    var inst := instances[i];
    var one := instances[i := WithRef(inst, Request, None)];
    var both := one[i := WithRef(one[i], Response, None)];
    ReleaseIsExact(t, instances, i, Request);
    ReleaseIsExact(Released(t, inst.requestBodyRef), one, i, Response);
    RemovalIsExact(ReleasedBoth(t, inst), both, i);
    assert both - {i} == instances - {i};
  }

  lemma CountedIffUsed(instances: map<nat, Instance>, b: nat)
    ensures RefCount(instances, b) > 0 <==> Used(instances, b)
  {
    if Used(instances, b) {
      var i :| i in instances && Refers(instances[i], b);
      assert i in UsersAt(instances, Request, b) || i in UsersAt(instances, Response, b);
    } else {
      assert forall i :: i in instances ==> !Refers(instances[i], b);
      assert UsersAt(instances, Request, b) == {} && UsersAt(instances, Response, b) == {};
    }
  }

  ghost predicate Shrunk(a: Bodies, b: Bodies) {
    && b == a.(byId := b.byId, byHash := b.byHash)
    && (forall k :: k in b.byId ==> k in a.byId && b.byId[k] == a.byId[k])
    && (forall h, k :: Indexes(b.byHash, h, k) ==> Indexes(a.byHash, h, k))
  }

  lemma ReleaseShrinks(t: BodyTables, ref: Option<nat>)
    ensures Shrunk(t.bodies, Released(t, ref).bodies)
  {
  }

  /** Reference counting is garbage collection: what is left is exactly what is still in use. */
  lemma CountingIsCollection(t: BodyTables, u: BodyTables, left: map<nat, Instance>)
    requires BodiesIndexed(t.bodies) && TablesExact(u, left) && Shrunk(t.bodies, u.bodies)
    ensures u.bodies == Collected(t.bodies, left)
  {
    var c := Collected(t.bodies, left);
    forall b: nat ensures b in u.bodies.byId <==> b in t.bodies.byId && Used(left, b) {
      CountedIffUsed(left, b);
    }
    assert u.bodies.byId == c.byId;
    forall h ensures h in u.bodies.byHash <==> h in t.bodies.byHash && Used(left, t.bodies.byHash[h]) {
      if h in u.bodies.byHash {
        assert Indexes(u.bodies.byHash, h, u.bodies.byHash[h]);
        assert Indexes(t.bodies.byHash, h, u.bodies.byHash[h]);
      }
      if h in t.bodies.byHash && Used(left, t.bodies.byHash[h]) {
        var b := t.bodies.byHash[h];
        assert Indexes(t.bodies.byHash, h, b);
        assert b in u.bodies.byId;
        assert Indexes(u.bodies.byHash, u.bodies.byId[b].fingerprint, b);
      }
    }
    forall h | h in u.bodies.byHash ensures u.bodies.byHash[h] == t.bodies.byHash[h] {
      assert Indexes(u.bodies.byHash, h, u.bodies.byHash[h]);
    }
    assert u.bodies.byHash == c.byHash;
  }

  lemma ReleasedBothIsCollection(t: BodyTables, instances: map<nat, Instance>, i: nat)
    requires TablesExact(t, instances) && i in instances
    ensures TablesExact(ReleasedBoth(t, instances[i]), instances - {i})
    ensures ReleasedBoth(t, instances[i]).bodies == Collected(t.bodies, instances - {i})
  {
    ReleasedBothIsExact(t, instances, i);
    ReleaseShrinks(t, instances[i].requestBodyRef);
    ReleaseShrinks(Released(t, instances[i].requestBodyRef), instances[i].responseBodyRef);
    CountingIsCollection(t, ReleasedBoth(t, instances[i]), instances - {i});
  }
}
