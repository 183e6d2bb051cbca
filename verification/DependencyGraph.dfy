/** The dependency graph of chained embeds: cycle detection and topological sort. */
module DependencyGraph {
  import opened Options

  type Path = string

  /** Insertion-ordered JavaScript sets are sequences without duplicates. */
  datatype Graph = Graph(destinations: seq<Path>, dependencies: map<Path, seq<Path>>)

  datatype DestinationEntry = DestinationEntry(path: Path, content: string, sources: seq<Path>)

  ghost predicate NoDuplicates<T>(s: seq<T>) {
    forall i, j :: 0 <= i < j < |s| ==> s[i] != s[j]
  }

  ghost predicate Depends(g: Graph, a: Path, b: Path) {
    a in g.dependencies && b in g.dependencies[a]
  }

  ghost predicate Closed(g: Graph) {
    && NoDuplicates(g.destinations)
    && (forall d :: d in g.dependencies <==> d in g.destinations)
    && (forall d :: d in g.dependencies ==> NoDuplicates(g.dependencies[d]))
    && (forall a, b :: Depends(g, a, b) ==> b in g.dependencies)
  }

  // ----- Building

  function Those(sources: seq<Path>, destinations: seq<Path>): seq<Path> {
    if sources == [] then []
    else
      var last := sources[|sources| - 1];
      Those(sources[..|sources| - 1], destinations) + if last in destinations then [last] else []
  }

  lemma {:induction false} ThoseMembers(sources: seq<Path>, destinations: seq<Path>)
    requires NoDuplicates(sources)
    ensures forall s :: s in Those(sources, destinations) <==> s in sources && s in destinations
    ensures NoDuplicates(Those(sources, destinations))
  {
    if sources != [] {
      var n := |sources| - 1;
      ThoseMembers(sources[..n], destinations);
      assert sources == sources[..n] + [sources[n]];
    }
  }

  function Paths(entries: seq<DestinationEntry>): seq<Path> {
    seq(|entries|, i requires 0 <= i < |entries| => entries[i].path)
  }

  /** Each entry's dependencies are those of its sources that are destinations themselves. */
  ghost predicate DependsOnThose(g: Graph, entries: seq<DestinationEntry>) {
    && g.destinations == Paths(entries)
    && (forall d :: d in g.dependencies <==> d in g.destinations)
    && forall i :: 0 <= i < |entries| ==>
         && entries[i].path in g.dependencies
         && g.dependencies[entries[i].path] == Those(entries[i].sources, g.destinations)
  }

  /** The graph of the entries: each depends on those of its sources that are entries themselves. */
  function GraphOf(entries: seq<DestinationEntry>): Graph
    requires NoDuplicates(Paths(entries))
  {
    assert forall i :: 0 <= i < |entries| ==> Paths(entries)[i] == entries[i].path;
    Graph(Paths(entries), map i | 0 <= i < |entries| :: entries[i].path := Those(entries[i].sources, Paths(entries)))
  }

  lemma ThoseAreTheGraph(g: Graph, entries: seq<DestinationEntry>)
    requires DependsOnThose(g, entries) && NoDuplicates(Paths(entries))
    ensures g == GraphOf(entries)
  {
    forall d | d in g.dependencies ensures exists i :: 0 <= i < |entries| && entries[i].path == d {
      var i :| 0 <= i < |g.destinations| && g.destinations[i] == d;
      assert entries[i].path == d;
    }
    assert g.dependencies == GraphOf(entries).dependencies;
  }

  method BuildDependencyGraph(entries: seq<DestinationEntry>) returns (g: Graph)
    requires NoDuplicates(Paths(entries))
    requires forall i :: 0 <= i < |entries| ==> NoDuplicates(entries[i].sources)
    ensures g == GraphOf(entries)
    ensures Closed(g) && g.destinations == Paths(entries)
    ensures forall i, b :: 0 <= i < |entries| ==>
      (Depends(g, entries[i].path, b) <==> b in entries[i].sources && b in g.destinations)
  {
    var destinations := Paths(entries);
    var dependencies: map<Path, seq<Path>> := map[];
    for i := 0 to |destinations|
      invariant forall d :: d in dependencies <==> d in destinations[..i]
    {
      dependencies := dependencies[destinations[i] := []];
    }
    assert destinations[..|destinations|] == destinations;
    dependencies := AddDependencies(entries, destinations, dependencies);
    g := Graph(destinations, dependencies);
    ThoseMakeClosed(g, entries);
    ThoseAreTheGraph(g, entries);
  }

  method AddDependencies(entries: seq<DestinationEntry>, destinations: seq<Path>, empty: map<Path, seq<Path>>)
      returns (dependencies: map<Path, seq<Path>>)
    requires destinations == Paths(entries) && NoDuplicates(destinations)
    requires forall d :: d in empty <==> d in destinations
    ensures DependsOnThose(Graph(destinations, dependencies), entries)
  {
    dependencies := empty;
    for i := 0 to |entries|
      invariant forall d :: d in dependencies <==> d in destinations
      invariant forall j :: 0 <= j < i ==> dependencies[destinations[j]] == Those(entries[j].sources, destinations)
    {
      var sources, found := entries[i].sources, [];
      for k := 0 to |sources|
        invariant found == Those(sources[..k], destinations)
      {
        assert sources[..k + 1][..k] == sources[..k];
        if sources[k] in destinations {
          found := found + [sources[k]];
        }
      }
      assert sources[..|sources|] == sources;
      assert entries[i].path == destinations[i];
      dependencies := dependencies[entries[i].path := found];
    }
  }

  lemma ThoseMakeClosed(g: Graph, entries: seq<DestinationEntry>)
    requires DependsOnThose(g, entries) && NoDuplicates(g.destinations)
    requires forall i :: 0 <= i < |entries| ==> NoDuplicates(entries[i].sources)
    ensures Closed(g)
    ensures forall i, b :: 0 <= i < |entries| ==>
      (Depends(g, entries[i].path, b) <==> b in entries[i].sources && b in g.destinations)
  {
    forall i | 0 <= i < |entries|
      ensures NoDuplicates(g.dependencies[entries[i].path])
      ensures forall b :: Depends(g, entries[i].path, b) <==> b in entries[i].sources && b in g.destinations
    {
      ThoseMembers(entries[i].sources, g.destinations);
    }
    forall d | d in g.dependencies
      ensures NoDuplicates(g.dependencies[d]) && forall b :: b in g.dependencies[d] ==> b in g.destinations
    {
      var i :| 0 <= i < |g.destinations| && g.destinations[i] == d;
      assert entries[i].path == d;
      assert forall b :: b in g.dependencies[d] ==> Depends(g, d, b);
    }
  }

  // ----- Cycles and orders

  ghost predicate IsCycle(g: Graph, c: seq<Path>) {
    && |c| >= 2
    && c[0] == c[|c| - 1]
    && IsChain(g, c)
  }

  ghost predicate IsChain(g: Graph, c: seq<Path>) {
    forall i :: 0 <= i < |c| - 1 ==> Depends(g, c[i], c[i + 1])
  }

  ghost predicate HasCycle(g: Graph) {
    exists c :: IsCycle(g, c)
  }

  /** Everything an element depends on comes before it. */
  ghost predicate Ordered(g: Graph, order: seq<Path>) {
    forall i, b :: 0 <= i < |order| && Depends(g, order[i], b) ==> b in order[..i]
  }

  ghost function Rank(order: seq<Path>, x: Path): (i: nat)
    requires x in order
    ensures i < |order| && order[i] == x && x !in order[..i]
  {
    if order[0] == x then 0 else 1 + Rank(order[1..], x)
  }

  lemma {:induction false} RankAtMost(order: seq<Path>, x: Path, k: nat)
    requires k < |order| && order[k] == x
    ensures x in order && Rank(order, x) <= k
  {
    if order[0] != x { RankAtMost(order[1..], x, k - 1); }
  }

  lemma RankBound(order: seq<Path>, x: Path, n: nat)
    requires n <= |order| && x in order[..n]
    ensures x in order && Rank(order, x) < n
  {
    var k :| 0 <= k < n && order[k] == x;
    RankAtMost(order, x, k);
  }

  /** Along a chain the rank in an order goes strictly down. */
  lemma {:induction false} ChainGoesDown(g: Graph, order: seq<Path>, c: seq<Path>, k: nat)
    requires Ordered(g, order) && IsChain(g, c) && k < |c| && c[0] in order
    ensures c[k] in order && Rank(order, c[k]) <= Rank(order, c[0]) - k
  {
    if k > 0 {
      ChainGoesDown(g, order, c, k - 1);
      assert Depends(g, c[k - 1], c[k]);
      RankBound(order, c[k], Rank(order, c[k - 1]));
    }
  }

  lemma OrderExcludesCycles(g: Graph, order: seq<Path>)
    requires Ordered(g, order) && forall d :: d in g.dependencies ==> d in order
    ensures !HasCycle(g)
  {
    forall c ensures !IsCycle(g, c) {
      if |c| >= 2 && IsChain(g, c) {
        assert Depends(g, c[0], c[1]);
        ChainGoesDown(g, order, c, |c| - 1);
      }
    }
  }

  // ----- Pigeonhole: a walk that never leaves a finite set closes a cycle

  ghost predicate HasSuccessor(g: Graph, rest: set<Path>, d: Path) {
    exists e :: e in rest && Depends(g, d, e)
  }

  ghost predicate Stuck(g: Graph, rest: set<Path>) {
    forall d {:trigger HasSuccessor(g, rest, d)} :: d in rest ==> HasSuccessor(g, rest, d)
  }

  ghost function Successor(g: Graph, rest: set<Path>, d: Path): (e: Path)
    requires Stuck(g, rest) && d in rest
    ensures e in rest && Depends(g, d, e)
  {
    assert HasSuccessor(g, rest, d);
    var e :| e in rest && Depends(g, d, e);
    e
  }

  ghost function Walk(g: Graph, rest: set<Path>, start: Path, n: nat): (w: seq<Path>)
    requires Stuck(g, rest) && start in rest
    ensures |w| == n + 1 && IsChain(g, w) && forall i :: 0 <= i < |w| ==> w[i] in rest
  {
    if n == 0 then [start]
    else
      var w := Walk(g, rest, start, n - 1);
      w + [Successor(g, rest, w[|w| - 1])]
  }

  lemma {:induction false} DistinctFit<T>(s: seq<T>, rest: set<T>)
    requires NoDuplicates(s) && forall i :: 0 <= i < |s| ==> s[i] in rest
    ensures |s| <= |rest|
  {
    if s != [] {
      var n := |s| - 1;
      assert forall i :: 0 <= i < n ==> s[i] != s[n];
      DistinctFit(s[..n], rest - {s[n]});
    }
  }

  lemma StuckHasCycle(g: Graph, rest: set<Path>)
    requires rest != {} && Stuck(g, rest)
    ensures HasCycle(g)
  {
    var start :| start in rest;
    var w := Walk(g, rest, start, |rest|);
    if NoDuplicates(w) { DistinctFit(w, rest); }
    var i, j :| 0 <= i < j < |w| && w[i] == w[j];
    assert IsCycle(g, w[i..j + 1]);
  }

  // ----- Depth-first search

  datatype Mark = Unvisited | Visiting | Visited

  class CycleDetector {
    const graph: Graph
    var visited: map<Path, Mark>
    var path: seq<Path>
    var cycleNode: Option<Path>
    /** The nodes in the order in which their visits ended. */
    ghost var finished: seq<Path>

    ghost predicate Valid()
      reads this
    {
      && Closed(graph)
      && MarksAgree(graph, visited, path, finished)
      && IsChain(graph, path)
      && Ordered(graph, finished)
    }

    constructor (graph: Graph)
      requires Closed(graph)
      ensures this.graph == graph && Valid() && path == [] && finished == []
      ensures forall d :: d in graph.dependencies ==> visited[d] == Unvisited
    {
      this.graph := graph;
      visited := map d | d in graph.dependencies :: Unvisited;
      path, cycleNode, finished := [], None, [];
    }

    /** The path from the search's root leads into a cycle through cycleNode. */
    ghost predicate FoundCycle()
      reads this
    {
      && path != [] && IsChain(graph, path)
      && cycleNode.Some? && cycleNode.value in path
      && Depends(graph, path[|path| - 1], cycleNode.value)
    }

    method Visit(node: Path) returns (found: bool)
      requires Valid() && node in graph.dependencies
      requires path != [] ==> Depends(graph, path[|path| - 1], node)
      requires path == [] ==> visited[node] == Unvisited
      modifies this
      ensures found ==> FoundCycle()
      ensures !found ==> Valid() && path == old(path) && node in finished && old(finished) <= finished
      decreases UnvisitedIn(visited)
    {
      hide IsChain, Ordered, NoDuplicates;
      if visited[node] == Visiting {
        cycleNode := Some(node);
        return true;
      }
      if visited[node] == Visited {
        return false;
      }
      StartNode(graph, visited, path, finished, node);
      visited := visited[node := Visiting];
      path := path + [node];

      var deps := graph.dependencies[node];
      for k := 0 to |deps|
        invariant Valid() && path == old(path) + [node] && old(finished) <= finished
        invariant forall j :: 0 <= j < k ==> deps[j] in finished
        invariant UnvisitedIn(visited) < UnvisitedIn(old(visited))
      {
        assert Depends(graph, node, deps[k]);
        ghost var before := finished;
        found := Visit(deps[k]);
        if found {
          return;
        }
        assert forall x :: x in before ==> x in finished;
        StillUnvisited(graph, old(visited), visited, old(path), old(finished), path, finished, node);
      }
      FinishNode(graph, visited, old(path), finished, node);
      visited := visited[node := Visited];
      path := path[..|path| - 1];
      finished := finished + [node];
      return false;
    }
  }

  function IndexOf(path: seq<Path>, x: Path): (i: nat)
    requires x in path
    ensures i < |path| && path[i] == x && x !in path[..i]
  {
    if path[0] == x then 0 else 1 + IndexOf(path[1..], x)
  }

  lemma FoundIsCycle(g: Graph, path: seq<Path>, x: Path, i: nat)
    requires path != [] && IsChain(g, path) && Depends(g, path[|path| - 1], x)
    requires i < |path| && path[i] == x
    ensures IsCycle(g, path[i..] + [x])
  {
  }

  /** Returns a cycle, first node repeated at the end, exactly when there is one. */
  method DetectCircularDependency(g: Graph) returns (r: Option<seq<Path>>)
    requires Closed(g)
    ensures r.Some? ==> IsCycle(g, r.value)
    ensures r.None? ==> !HasCycle(g)
  {
    var detector := new CycleDetector(g);
    for i := 0 to |g.destinations|
      invariant detector.graph == g && detector.Valid() && detector.path == [] && fresh(detector)
      invariant forall j :: 0 <= j < i ==> g.destinations[j] in detector.finished
    {
      ghost var before := detector.finished;
      if detector.visited[g.destinations[i]] == Unvisited {
        var found := detector.Visit(g.destinations[i]);
        if found {
          var cycleNode := detector.cycleNode.value;
          var cycleStart := IndexOf(detector.path, cycleNode);
          FoundIsCycle(g, detector.path, cycleNode, cycleStart);
          return Some(detector.path[cycleStart..] + [cycleNode]);
        }
      }
      assert forall x :: x in before ==> x in detector.finished;
    }
    OrderExcludesCycles(g, detector.finished);
    return None;
  }

  ghost function UnvisitedIn(visited: map<Path, Mark>): set<Path> {
    set d | d in visited && visited[d] == Unvisited
  }

  /** A node is being visited when it is on the path, and visited when it is finished. */
  ghost predicate MarksAgree(g: Graph, visited: map<Path, Mark>, path: seq<Path>, finished: seq<Path>) {
    && visited.Keys == g.dependencies.Keys
    && NoDuplicates(path)
    && (forall d :: d in path <==> d in visited && visited[d] == Visiting)
    && (forall d :: d in finished <==> d in visited && visited[d] == Visited)
  }

  lemma StillUnvisited(g: Graph, before: map<Path, Mark>, after: map<Path, Mark>, path: seq<Path>, finished: seq<Path>,
      path': seq<Path>, finished': seq<Path>, node: Path)
    requires MarksAgree(g, before, path, finished) && MarksAgree(g, after, path', finished')
    requires path' == path + [node] && finished <= finished' && node in before && before[node] == Unvisited
    ensures UnvisitedIn(after) < UnvisitedIn(before)
  {
    assert node in path';
    forall d | d in UnvisitedIn(after) ensures d in UnvisitedIn(before) {
      assert before[d] == Visiting ==> d in path';
      assert before[d] == Visited ==> d in finished';
    }
    assert node !in UnvisitedIn(after) && node in UnvisitedIn(before);
  }

  lemma StartNode(g: Graph, visited: map<Path, Mark>, path: seq<Path>, finished: seq<Path>, node: Path)
    requires MarksAgree(g, visited, path, finished) && node in visited && visited[node] == Unvisited
    requires IsChain(g, path) && (path != [] ==> Depends(g, path[|path| - 1], node))
    ensures MarksAgree(g, visited[node := Visiting], path + [node], finished)
    ensures IsChain(g, path + [node])
    ensures UnvisitedIn(visited[node := Visiting]) < UnvisitedIn(visited)
  {
    assert node !in path && node in UnvisitedIn(visited);
    assert forall d :: d in path + [node] <==> d in path || d == node;
  }

  lemma FinishNode(g: Graph, visited: map<Path, Mark>, path: seq<Path>, finished: seq<Path>, node: Path)
    requires MarksAgree(g, visited, path + [node], finished) && Ordered(g, finished)
    requires node in g.dependencies && forall j :: 0 <= j < |g.dependencies[node]| ==> g.dependencies[node][j] in finished
    ensures MarksAgree(g, visited[node := Visited], path, finished + [node]) && Ordered(g, finished + [node])
  {
    var all := path + [node];
    assert forall d :: d in all <==> d in path || d == node;
    forall i | 0 <= i < |path| ensures path[i] != node {
      assert all[i] == path[i] && all[|path|] == node;
    }
    var order := finished + [node];
    forall i, b | 0 <= i < |order| && Depends(g, order[i], b) ensures b in order[..i] {
      if i < |finished| {
        assert order[..i] == finished[..i];
      } else {
        assert order[..i] == finished;
      }
    }
    forall i, j | 0 <= i < j < |path| ensures path[i] != path[j] {
      assert all[i] == path[i] && all[j] == path[j];
    }
  }

  // ----- Kahn's algorithm

  /** The dependencies of d that are not in the result yet. */
  ghost function Open(g: Graph, result: seq<Path>, d: Path): set<Path>
    requires d in g.dependencies
  {
    set b | b in g.dependencies[d] && b !in result
  }

  ghost predicate DegreesAgree(g: Graph, inDegree: map<Path, nat>, result: seq<Path>, pending: set<Path>) {
    && inDegree.Keys == g.dependencies.Keys
    && forall d :: d in inDegree ==> inDegree[d] == |Open(g, result, d)| + if d in pending then 1 else 0
  }

  ghost predicate QueueAgrees(inDegree: map<Path, nat>, result: seq<Path>, queue: seq<Path>) {
    && NoDuplicates(result + queue)
    && forall d :: d in result || d in queue <==> d in inDegree && inDegree[d] == 0
  }

  ghost predicate DependentsAgree(g: Graph, dependents: map<Path, seq<Path>>) {
    && dependents.Keys == g.dependencies.Keys
    && (forall x :: x in dependents ==> NoDuplicates(dependents[x]))
    && (forall x, d :: x in dependents ==> (d in dependents[x] <==> Depends(g, d, x)))
  }

  ghost function SeqSet<T>(s: seq<T>): set<T> {
    set x | x in s
  }

  lemma {:induction false} DistinctCount<T>(s: seq<T>)
    requires NoDuplicates(s)
    ensures |SeqSet(s)| == |s|
  {
    if s != [] {
      var n := |s| - 1;
      DistinctCount(s[..n]);
      assert SeqSet(s) == SeqSet(s[..n]) + {s[n]};
      assert s[n] !in s[..n];
    }
  }

  method ReverseAdjacency(g: Graph) returns (dependents: map<Path, seq<Path>>)
    requires Closed(g)
    ensures DependentsAgree(g, dependents)
  {
    dependents := map d | d in g.dependencies :: [];
    ghost var n := |g.destinations|;
    for i := 0 to |g.destinations|
      invariant dependents.Keys == g.dependencies.Keys
      invariant forall x :: x in dependents ==> NoDuplicates(dependents[x])
      invariant forall x, d :: x in dependents ==> (d in dependents[x] <==> d in g.destinations[..i] && Depends(g, d, x))
    {
      var destination := g.destinations[i];
      assert destination !in g.destinations[..i];
      dependents := AddDependent(g, dependents, destination);
      assert g.destinations[..i + 1] == g.destinations[..i] + [destination];
    }
    assert g.destinations[..n] == g.destinations;
  }

  method AddDependent(g: Graph, dependents: map<Path, seq<Path>>, destination: Path) returns (r: map<Path, seq<Path>>)
    requires Closed(g) && destination in g.dependencies && dependents.Keys == g.dependencies.Keys
    requires forall x :: x in dependents ==> NoDuplicates(dependents[x]) && destination !in dependents[x]
    ensures r.Keys == dependents.Keys
    ensures forall x :: x in r ==> NoDuplicates(r[x])
    ensures forall x, d :: x in r ==> (d in r[x] <==> d in dependents[x] || (d == destination && Depends(g, d, x)))
  {
    r := dependents;
    var deps := g.dependencies[destination];
    for k := 0 to |deps|
      invariant r.Keys == dependents.Keys
      invariant forall x :: x in r ==> r[x] == if x in deps[..k] then dependents[x] + [destination] else dependents[x]
    {
      assert Depends(g, destination, deps[k]);
      assert deps[k] !in deps[..k];
      r := r[deps[k] := r[deps[k]] + [destination]];
    }
    assert deps[..|deps|] == deps;
  }

  /** Dequeuing current makes it pending at its dependents, whose open sets lose it. */
  lemma DequeueStep(g: Graph, inDegree: map<Path, nat>, result: seq<Path>, current: Path, dependents: seq<Path>)
    requires Closed(g) && DegreesAgree(g, inDegree, result, {}) && current !in result
    requires forall d :: d in dependents <==> Depends(g, d, current)
    ensures DegreesAgree(g, inDegree, result + [current], SeqSet(dependents))
  {
    forall d | d in inDegree
      ensures |Open(g, result, d)| == |Open(g, result + [current], d)| + if d in SeqSet(dependents) then 1 else 0
    {
      if Depends(g, d, current) {
        assert Open(g, result, d) == Open(g, result + [current], d) + {current};
      } else {
        assert Open(g, result, d) == Open(g, result + [current], d);
      }
    }
  }

  lemma OpenEmptyMeansOrdered(g: Graph, result: seq<Path>, current: Path)
    requires Ordered(g, result) && current in g.dependencies && Open(g, result, current) == {}
    ensures Ordered(g, result + [current])
  {
    var order := result + [current];
    forall i, b | 0 <= i < |order| && Depends(g, order[i], b) ensures b in order[..i] {
      if i < |result| {
        assert order[..i] == result[..i];
      } else {
        assert order[..i] == result;
        assert b !in Open(g, result, current);
      }
    }
  }

  lemma QueueMoves(result: seq<Path>, queue: seq<Path>)
    requires queue != [] && NoDuplicates(result + queue)
    ensures (result + [queue[0]]) + queue[1..] == result + queue
    ensures queue[0] !in result
  {
    assert forall i :: 0 <= i < |result| ==> (result + queue)[i] == result[i];
    assert (result + queue)[|result|] == queue[0];
  }

  lemma Enqueued(inDegree: map<Path, nat>, result: seq<Path>, queue: seq<Path>, d: Path, n: nat)
    requires QueueAgrees(inDegree, result, queue) && d in inDegree && inDegree[d] > 0
    ensures QueueAgrees(inDegree[d := n], result, if n == 0 then queue + [d] else queue)
  {
    assert d !in result && d !in queue;
    assert result + (queue + [d]) == (result + queue) + [d];
    assert forall x :: x in result + queue <==> x in result || x in queue;
  }

  /** Lowers the in-degree of every dependent of the node just sorted, queueing those that reach zero. */
  method LowerDegrees(g: Graph, inDegree0: map<Path, nat>, result: seq<Path>, queue0: seq<Path>, dependents: seq<Path>)
      returns (inDegree: map<Path, nat>, queue: seq<Path>)
    requires DegreesAgree(g, inDegree0, result, SeqSet(dependents)) && QueueAgrees(inDegree0, result, queue0)
    requires NoDuplicates(dependents) && forall d :: d in dependents ==> d in inDegree0
    ensures DegreesAgree(g, inDegree, result, {}) && QueueAgrees(inDegree, result, queue)
  {
    inDegree, queue := inDegree0, queue0;
    for k := 0 to |dependents|
      invariant DegreesAgree(g, inDegree, result, SeqSet(dependents[k..]))
      invariant QueueAgrees(inDegree, result, queue)
    {
      var dependent := dependents[k];
      assert dependents[k..] == [dependent] + dependents[k + 1..];
      assert dependent !in SeqSet(dependents[k + 1..]);
      assert SeqSet(dependents[k..]) == SeqSet(dependents[k + 1..]) + {dependent};
      var newDegree := inDegree[dependent] - 1;
      Enqueued(inDegree, result, queue, dependent, newDegree);
      inDegree := inDegree[dependent := newDegree];
      if newDegree == 0 {
        queue := queue + [dependent];
      }
    }
    assert SeqSet(dependents[|dependents|..]) == {};
  }

  method InitialQueue(g: Graph) returns (inDegree: map<Path, nat>, queue: seq<Path>)
    requires Closed(g)
    ensures DegreesAgree(g, inDegree, [], {}) && QueueAgrees(inDegree, [], queue)
  {
    inDegree := map d | d in g.dependencies :: |g.dependencies[d]|;
    forall d | d in g.dependencies ensures |g.dependencies[d]| == |Open(g, [], d)| {
      DistinctCount(g.dependencies[d]);
      assert SeqSet(g.dependencies[d]) == Open(g, [], d);
    }
    queue := [];
    for i := 0 to |g.destinations|
      invariant NoDuplicates(queue)
      invariant forall d :: d in queue <==> d in g.destinations[..i] && inDegree[d] == 0
    {
      var destination := g.destinations[i];
      assert destination !in g.destinations[..i];
      assert g.destinations[..i + 1] == g.destinations[..i] + [destination];
      if inDegree[destination] == 0 {
        queue := queue + [destination];
      }
    }
    assert g.destinations[..|g.destinations|] == g.destinations;
    assert [] + queue == queue;
  }

  lemma DrainedMeansStuck(g: Graph, inDegree: map<Path, nat>, result: seq<Path>, rest: set<Path>)
    requires Closed(g) && DegreesAgree(g, inDegree, result, {}) && QueueAgrees(inDegree, result, [])
    requires rest == SeqSet(g.destinations) - SeqSet(result)
    ensures Stuck(g, rest)
  {
    forall d | d in rest ensures HasSuccessor(g, rest, d) {
      assert inDegree[d] > 0;
      var b :| b in Open(g, result, d);
      assert Depends(g, d, b);
    }
  }

  /** With the queue drained, whatever was not sorted is stuck behind a cycle. */
  lemma DrainedOrStuck(g: Graph, inDegree: map<Path, nat>, result: seq<Path>)
    requires Closed(g) && DegreesAgree(g, inDegree, result, {}) && QueueAgrees(inDegree, result, [])
    ensures NoDuplicates(result) && forall d :: d in result ==> d in g.dependencies
    ensures |result| == |g.destinations| ==> forall d :: d in g.dependencies ==> d in result
    ensures |result| != |g.destinations| ==> HasCycle(g)
  {
    var rest := SeqSet(g.destinations) - SeqSet(result);
    DrainedMeansStuck(g, inDegree, result, rest);
    assert result + [] == result;
    DistinctCount(result);
    DistinctCount(g.destinations);
    assert SeqSet(result) <= SeqSet(g.destinations);
    assert SeqSet(g.destinations) == SeqSet(result) + rest;
    hide Stuck, DegreesAgree;
    if |result| != |g.destinations| {
      StuckHasCycle(g, rest);
    }
  }

  datatype SortError = GraphHasCycle

  /** An order of all destinations with every dependency first, or the error, exactly when there is a cycle. */
  method TopologicalSort(g: Graph) returns (r: Result<seq<Path>, SortError>)
    requires Closed(g)
    ensures r.Ok? ==> NoDuplicates(r.value) && Ordered(g, r.value) && forall d :: d in r.value <==> d in g.destinations
    ensures r.Err? <==> HasCycle(g)
  {
    var inDegree, queue := InitialQueue(g);
    var dependents := ReverseAdjacency(g);
    var result: seq<Path> := [];
    while queue != []
      invariant DegreesAgree(g, inDegree, result, {}) && QueueAgrees(inDegree, result, queue)
      invariant Ordered(g, result)
      decreases |g.destinations| - |result|
    {
      var current := queue[0];
      QueueMoves(result, queue);
      FitsAmong(g, result + queue);
      OpenEmptyMeansOrdered(g, result, current);
      DequeueStep(g, inDegree, result, current, dependents[current]);
      MovedQueueAgrees(inDegree, result, queue);
      queue := queue[1..];
      result := result + [current];
      inDegree, queue := LowerDegrees(g, inDegree, result, queue, dependents[current]);
    }
    DrainedOrStuck(g, inDegree, result);
    if |result| != |g.destinations| {
      return Err(GraphHasCycle);
    }
    OrderExcludesCycles(g, result);
    return Ok(result);
  }

  lemma MovedQueueAgrees(inDegree: map<Path, nat>, result: seq<Path>, queue: seq<Path>)
    requires QueueAgrees(inDegree, result, queue) && queue != []
    ensures QueueAgrees(inDegree, result + [queue[0]], queue[1..])
  {
    QueueMoves(result, queue);
    assert queue == [queue[0]] + queue[1..];
  }

  lemma FitsAmong(g: Graph, s: seq<Path>)
    requires NoDuplicates(s) && NoDuplicates(g.destinations) && forall x :: x in s ==> x in g.destinations
    ensures |s| <= |g.destinations|
  {
    DistinctCount(g.destinations);
    DistinctFit(s, SeqSet(g.destinations));
  }

  /** The two algorithms agree on every closed graph: one finds a cycle exactly when the other cannot sort. */
  method SortAfterDetection(g: Graph) returns (cycle: Option<seq<Path>>, order: seq<Path>)
    requires Closed(g)
    ensures cycle.Some? <==> HasCycle(g)
    ensures cycle.Some? ==> IsCycle(g, cycle.value)
    ensures cycle.None? ==> NoDuplicates(order) && Ordered(g, order) && forall d :: d in order <==> d in g.destinations
  {
    order := [];
    cycle := DetectCircularDependency(g);
    if cycle.None? {
      var sorted := TopologicalSort(g);
      order := sorted.value;
    }
  }
}
