/**
 Which variables a lint rule takes to be mutated, and where: mutations recorded under one name are
 propagated along alias links until nothing changes.
 */
module AliasMutations {
  import opened Options

  type Variable = nat

  /** One entry of the alias map; a list of them is the map in insertion order. */
  datatype Link = Link(alias: Variable, target: Variable)

  type Mutations = map<Variable, seq<int>>

  function ListOf(mutations: Mutations, v: Variable): seq<int> {
    if v in mutations then mutations[v] else []
  }

  function Targets(links: seq<Link>): set<Variable> {
    set i | 0 <= i < |links| :: links[i].target
  }

  /** One step along the alias links. */
  ghost predicate Linked(links: seq<Link>, u: Variable, v: Variable) {
    exists i :: 0 <= i < |links| && links[i] == Link(u, v)
  }

  /** v is where n links lead from u. */
  ghost predicate LeadsIn(links: seq<Link>, u: Variable, v: Variable, n: nat)
    decreases n
  {
    if n == 0 then u == v
    else exists w :: Linked(links, u, w) && LeadsIn(links, w, v, n - 1)
  }

  ghost predicate Reaches(links: seq<Link>, u: Variable, v: Variable) {
    exists n: nat :: LeadsIn(links, u, v, n)
  }

  /** p is in v's list. */
  predicate Has(mutations: Mutations, v: Variable, p: int) {
    p in ListOf(mutations, v)
  }

  /** p was recorded under a variable that reaches v. */
  ghost predicate ComesTo(links: seq<Link>, before: Mutations, v: Variable, p: int) {
    exists u :: Reaches(links, u, v) && Has(before, u, p)
  }

  /** Every list holds exactly the positions that come to its variable. */
  ghost predicate Propagated(links: seq<Link>, before: Mutations, after: Mutations) {
    forall v, p :: Has(after, v, p) <==> ComesTo(links, before, v, p)
  }

  /** No link leads from a mutation to a variable without it. */
  ghost predicate Closed(links: seq<Link>, mutations: Mutations) {
    forall i, p {:trigger Has(mutations, links[i].alias, p)} ::
      0 <= i < |links| && Has(mutations, links[i].alias, p) ==> Has(mutations, links[i].target, p)
  }

  ghost predicate Extends(before: Mutations, after: Mutations) {
    forall v, p {:trigger Has(after, v, p)} {:trigger Has(before, v, p)} :: Has(before, v, p) ==> Has(after, v, p)
  }

  ghost predicate Justified(links: seq<Link>, before: Mutations, after: Mutations) {
    forall v, p {:trigger Has(after, v, p)} :: Has(after, v, p) ==> ComesTo(links, before, v, p)
  }

  lemma {:induction false} LeadsFurther(links: seq<Link>, u: Variable, v: Variable, w: Variable, n: nat)
    requires LeadsIn(links, u, v, n) && Linked(links, v, w)
    ensures LeadsIn(links, u, w, n + 1)
    decreases n
  {
    if n == 0 {
      assert LeadsIn(links, w, w, 0);
    } else {
      var x :| Linked(links, u, x) && LeadsIn(links, x, v, n - 1);
      LeadsFurther(links, x, v, w, n - 1);
    }
  }

  lemma {:induction false} ClosedLeads(links: seq<Link>, mutations: Mutations, u: Variable, v: Variable, n: nat, p: int)
    requires Closed(links, mutations) && LeadsIn(links, u, v, n) && Has(mutations, u, p)
    ensures Has(mutations, v, p)
    decreases n
  {
    if n > 0 {
      var w :| Linked(links, u, w) && LeadsIn(links, w, v, n - 1);
      var i :| 0 <= i < |links| && links[i] == Link(u, w);
      ClosedLeads(links, mutations, w, v, n - 1, p);
    }
  }

  /** A closed extension has at least what reaching asks for. */
  lemma ClosedHasAll(links: seq<Link>, before: Mutations, after: Mutations, u: Variable, v: Variable, p: int)
    requires Extends(before, after) && Closed(links, after) && Reaches(links, u, v) && Has(before, u, p)
    ensures Has(after, v, p)
  {
    var n: nat :| LeadsIn(links, u, v, n);
    ClosedLeads(links, after, u, v, n, p);
  }

  lemma ReachesItself(links: seq<Link>, v: Variable)
    ensures Reaches(links, v, v)
  {
    assert LeadsIn(links, v, v, 0);
  }

  lemma ReachesFurther(links: seq<Link>, u: Variable, v: Variable, w: Variable)
    requires Reaches(links, u, v) && Linked(links, v, w)
    ensures Reaches(links, u, w)
  {
    var n: nat :| LeadsIn(links, u, v, n);
    LeadsFurther(links, u, v, w, n);
  }

  lemma JustifiedAtFirst(links: seq<Link>, before: Mutations)
    ensures Justified(links, before, before)
  {
    forall v, p {:trigger Has(before, v, p)} | Has(before, v, p) ensures ComesTo(links, before, v, p) {
      ReachesItself(links, v);
    }
  }

  /** Closed, justified and extending is propagated, however the links run. */
  lemma FixpointIsPropagated(links: seq<Link>, before: Mutations, after: Mutations)
    requires Extends(before, after) && Closed(links, after) && Justified(links, before, after)
    ensures Propagated(links, before, after)
  {
    hide Has, Reaches, Closed, Extends;
    forall v, p ensures Has(after, v, p) <==> ComesTo(links, before, v, p) {
      if ComesTo(links, before, v, p) {
        var u :| Reaches(links, u, v) && Has(before, u, p);
        ClosedHasAll(links, before, after, u, v, p);
      }
    }
  }

  /** What comes to v goes on along a link. */
  lemma ComesAlong(links: seq<Link>, before: Mutations, i: nat, p: int)
    requires i < |links| && ComesTo(links, before, links[i].alias, p)
    ensures ComesTo(links, before, links[i].target, p)
  {
    hide Has, Reaches;
    var u :| Reaches(links, u, links[i].alias) && Has(before, u, p);
    assert links[i] == Link(links[i].alias, links[i].target);
    ReachesFurther(links, u, links[i].alias, links[i].target);
  }

  /** What propagation reaches is the least closed extension: it is one, and inside every other. */
  lemma PropagatedIsLeast(links: seq<Link>, before: Mutations, after: Mutations, other: Mutations)
    requires Propagated(links, before, after)
    ensures Extends(before, after) && Closed(links, after)
    ensures Extends(before, other) && Closed(links, other) ==> Extends(after, other)
  {
    hide Has, Reaches, ComesTo;
    JustifiedAtFirst(links, before);
    forall i, p | 0 <= i < |links| && Has(after, links[i].alias, p) ensures Has(after, links[i].target, p) {
      ComesAlong(links, before, i, p);
    }
    if Extends(before, other) && Closed(links, other) {
      forall v, p | Has(after, v, p) ensures Has(other, v, p) {
        AllComesTo(links, before, other, v, p);
      }
    }
  }

  lemma AllComesTo(links: seq<Link>, before: Mutations, other: Mutations, v: Variable, p: int)
    requires Extends(before, other) && Closed(links, other) && ComesTo(links, before, v, p)
    ensures Has(other, v, p)
  {
    hide Has, Reaches;
    var u :| Reaches(links, u, v) && Has(before, u, p);
    ClosedHasAll(links, before, other, u, v, p);
  }

  /** A variable counts as mutated before an observation when one that reaches it was, under its own name. */
  lemma MutatedThroughAliases(links: seq<Link>, before: Mutations, after: Mutations, v: Variable, observation: int)
    requires Propagated(links, before, after)
    ensures (exists p :: Has(after, v, p) && p < observation) <==>
      exists u, p :: Reaches(links, u, v) && Has(before, u, p) && p < observation
  {
    hide Has, Reaches;
    if p :| Has(after, v, p) && p < observation {
      var u :| Reaches(links, u, v) && Has(before, u, p);
    }
    if u, p :| Reaches(links, u, v) && Has(before, u, p) && p < observation {
      assert ComesTo(links, before, v, p);
    }
  }

  /** What one link's part of a pass does to the lists. */
  ghost predicate LinkStep(link: Link, before: Mutations, after: Mutations) {
    && after.Keys <= before.Keys + {link.target}
    && forall v, p {:trigger Has(after, v, p)} {:trigger Has(before, v, p)} ::
         Has(after, v, p) <==> Has(before, v, p) || (v == link.target && Has(before, link.alias, p))
  }

  lemma StepIsJustified(links: seq<Link>, i: nat, start: Mutations, before: Mutations, after: Mutations)
    requires i < |links| && LinkStep(links[i], before, after)
    requires Extends(start, before) && Justified(links, start, before)
    ensures Extends(start, after) && Justified(links, start, after)
  {
    hide Has, ComesTo;
    forall v, p {:trigger Has(after, v, p)} | Has(after, v, p) ensures ComesTo(links, start, v, p) {
      if !Has(before, v, p) {
        ComesAlong(links, start, i, p);
      }
    }
  }

  // ----- Termination

  /** The positions in the lists, as pairs with their variable. */
  function Pairs(mutations: Mutations): set<(Variable, int)> {
    set v, p | v in mutations && p in mutations[v] :: (v, p)
  }

  /** All the pairs there can ever be. */
  function Room(links: seq<Link>, mutations: Mutations): set<(Variable, int)> {
    var positions := set v, p | v in mutations && p in mutations[v] :: p;
    set v, p | v in mutations.Keys + Targets(links) && p in positions :: (v, p)
  }

  lemma PairsFit(links: seq<Link>, before: Mutations, after: Mutations)
    requires Justified(links, before, after) && after.Keys <= before.Keys + Targets(links)
    ensures Pairs(after) <= Room(links, before)
  {
    forall v, p | (v, p) in Pairs(after) ensures (v, p) in Room(links, before) {
      assert Has(after, v, p);
      var u :| Reaches(links, u, v) && Has(before, u, p);
    }
  }

  lemma MoreRoomTaken(room: set<(Variable, int)>, before: set<(Variable, int)>, after: set<(Variable, int)>)
    requires before <= after <= room
    ensures |room - after| <= |room - before|
    ensures before != after ==> |room - after| < |room - before|
  {
    assert room - after <= room - before;
    if before != after {
      assert room - before == (room - after) + (after - before);
      assert after - before != {};
      assert |room - before| == |room - after| + |after - before|;
    }
  }

  lemma ExtendsItself(mutations: Mutations)
    ensures Extends(mutations, mutations)
  {
  }

  lemma NothingIsClosed(mutations: Mutations)
    ensures Closed([], mutations)
  {
  }

  /** A step that changes nothing finds its link closed. */
  lemma StepCloses(links: seq<Link>, i: nat, before: Mutations, after: Mutations)
    requires i < |links| && LinkStep(links[i], before, after)
    ensures Closed(links[..i], before) && before == after ==> Closed(links[..i + 1], after)
  {
    hide Has;
  }

  lemma StepGrows(links: seq<Link>, i: nat, before: Mutations, after: Mutations, changed: bool)
    requires i < |links| && LinkStep(links[i], before, after)
    requires changed ==> exists p :: Has(after, links[i].target, p) && !Has(before, links[i].target, p)
    ensures Pairs(before) <= Pairs(after) && (changed ==> Pairs(before) != Pairs(after))
    ensures after.Keys <= before.Keys + Targets(links)
  {
    var link := links[i];
    assert link.target in Targets(links);
    forall v, p | (v, p) in Pairs(before) ensures (v, p) in Pairs(after) {
      assert Has(before, v, p);
      assert Has(after, v, p);
    }
    if changed {
      var p :| Has(after, link.target, p) && !Has(before, link.target, p);
      assert (link.target, p) in Pairs(after) && (link.target, p) !in Pairs(before);
    }
  }

  class MutationRecords {
    var mutations: Mutations
    var aliasTargets: seq<Link>

    /** root is the variable at the root of the mutated expression, if there is one. */
    method RecordMutation(root: Option<Variable>, position: int)
      modifies this`mutations
      ensures root == None ==> mutations == old(mutations)
      ensures forall v :: root == Some(v) ==> mutations == old(mutations)[v := ListOf(old(mutations), v) + [position]]
    {
      match root
      case None =>
      case Some(variable) =>
        var positions := if variable in mutations then mutations[variable] else [];
        mutations := mutations[variable := positions + [position]];
    }

    predicate WasMutated(variable: Variable, observationPosition: int)
      reads this`mutations
      ensures WasMutated(variable, observationPosition) <==>
        exists p :: Has(mutations, variable, p) && p < observationPosition
    {
      assert variable in mutations ==> forall i :: 0 <= i < |mutations[variable]| ==>
        Has(mutations, variable, mutations[variable][i]);
      variable in mutations &&
      exists i :: 0 <= i < |mutations[variable]| && mutations[variable][i] < observationPosition
    }

    /** One link's part of a pass: the alias's positions that the target lacks are added to it. */
    method PropagateLink(link: Link) returns (changed: bool)
      modifies this`mutations
      ensures LinkStep(link, old(mutations), mutations)
      ensures !changed ==> mutations == old(mutations)
      ensures changed ==> exists p :: Has(mutations, link.target, p) && !Has(old(mutations), link.target, p)
    {
      var aliasMutations := if link.alias in mutations then mutations[link.alias] else [];
      var targetMutations := if link.target in mutations then mutations[link.target] else [];
      ghost var before := targetMutations;
      changed := false;
      for i := 0 to |aliasMutations|
        invariant forall p :: p in targetMutations <==> p in before || p in aliasMutations[..i]
        invariant !changed ==> targetMutations == before
        invariant changed ==> exists p :: p in targetMutations && p !in before
      {
        var position := aliasMutations[i];
        assert aliasMutations[..i + 1] == aliasMutations[..i] + [position];
        if position !in targetMutations {
          targetMutations := targetMutations + [position];
          assert position in targetMutations && position !in before;
          changed := true;
        }
      }
      assert aliasMutations[..|aliasMutations|] == aliasMutations;
      if |targetMutations| > 0 {
        mutations := mutations[link.target := targetMutations];
      }
      if changed {
        ghost var p :| p in targetMutations && p !in before;
        assert Has(mutations, link.target, p) && !Has(old(mutations), link.target, p);
      }
    }

    /** The pass over all the links, in order. */
    method PropagatePass(ghost start: Mutations) returns (changed: bool)
      requires Extends(start, mutations) && Justified(aliasTargets, start, mutations)
      modifies this`mutations
      ensures Extends(start, mutations) && Justified(aliasTargets, start, mutations)
      ensures mutations.Keys <= old(mutations).Keys + Targets(aliasTargets)
      ensures !changed ==> mutations == old(mutations) && Closed(aliasTargets, mutations)
      ensures Pairs(old(mutations)) <= Pairs(mutations)
      ensures changed ==> Pairs(old(mutations)) != Pairs(mutations)
    {
      hide Extends, Justified, Closed, Pairs, Has, LinkStep;
      changed := false;
      NothingIsClosed(mutations);
      for i := 0 to |aliasTargets|
        invariant Extends(start, mutations) && Justified(aliasTargets, start, mutations)
        invariant mutations.Keys <= old(mutations).Keys + Targets(aliasTargets)
        invariant !changed ==> mutations == old(mutations) && Closed(aliasTargets[..i], mutations)
        invariant Pairs(old(mutations)) <= Pairs(mutations)
        invariant changed ==> Pairs(old(mutations)) != Pairs(mutations)
      {
        ghost var before := mutations;
        var linkChanged := PropagateLink(aliasTargets[i]);
        StepIsJustified(aliasTargets, i, start, before, mutations);
        StepGrows(aliasTargets, i, before, mutations, linkChanged);
        StepCloses(aliasTargets, i, before, mutations);
        changed := changed || linkChanged;
      }
      assert aliasTargets[..|aliasTargets|] == aliasTargets;
    }

    /**
     Ends on every set of links, cyclic ones too: each variable's positions are then exactly those
     recorded under the variables that reach it.
     */
    method PropagateAliasMutations()
      modifies this`mutations
      ensures Propagated(aliasTargets, old(mutations), mutations)
    {
      hide Extends, Justified, Closed, Pairs, Room, Has;
      ghost var room := Room(aliasTargets, mutations);
      var changed := true;
      JustifiedAtFirst(aliasTargets, mutations);
      ExtendsItself(mutations);
      while changed
        invariant Extends(old(mutations), mutations) && Justified(aliasTargets, old(mutations), mutations)
        invariant mutations.Keys <= old(mutations).Keys + Targets(aliasTargets)
        invariant !changed ==> Closed(aliasTargets, mutations)
        decreases |room - Pairs(mutations)|, changed
      {
        ghost var before := Pairs(mutations);
        changed := PropagatePass(old(mutations));
        PairsFit(aliasTargets, old(mutations), mutations);
        MoreRoomTaken(room, before, Pairs(mutations));
      }
      FixpointIsPropagated(aliasTargets, old(mutations), mutations);
    }
  }
}
