/** Dependency graphs and Kahn's algorithm.

Both the workflow engine (Go) and the CI planner (Python) sort a dependency graph with Kahn's
algorithm. A graph maps each node to the list of the nodes it depends on; the list may name a
dependency twice, and both programs then count it twice in the in-degree and in the adjacency list. */
module DepGraph {

  ghost predicate NoDup<N>(s: seq<N>) {
    forall i, j :: 0 <= i < j < |s| ==> s[i] != s[j]
  }

  function Elements<N>(s: seq<N>): set<N> {
    set x | x in s
  }

  /** Every dependency is itself a node. */
  ghost predicate Closed<N>(g: map<N, seq<N>>) {
    forall n, d {:trigger d in g[n]} :: n in g && d in g[n] ==> d in g
  }

  /** Each node of the path depends on the next one. */
  ghost predicate Path<N>(g: map<N, seq<N>>, p: seq<N>) {
    |p| >= 2 ==> p[0] in g && p[1] in g[p[0]] && Path(g, p[1..])
  }

  ghost predicate Cycle<N>(g: map<N, seq<N>>, p: seq<N>) {
    |p| >= 2 && Path(g, p) && p[0] == p[|p| - 1]
  }

  ghost predicate Acyclic<N(!new)>(g: map<N, seq<N>>) {
    forall p :: !Cycle(g, p)
  }

  /** The dependencies of every listed node are listed before it. */
  ghost predicate DepsFirst<N>(g: map<N, seq<N>>, o: seq<N>) {
    forall i, d :: 0 <= i < |o| && o[i] in g && d in g[o[i]] ==> d in o[..i]
  }

  /** o lists every node once, each after all of its dependencies. */
  ghost predicate TopoOrder<N>(g: map<N, seq<N>>, o: seq<N>) {
    && NoDup(o)
    && Elements(o) == g.Keys
    && DepsFirst(g, o)
  }

  // ---- counting ----

  lemma {:induction false} NoDupCardinality<N>(s: seq<N>)
    requires NoDup(s)
    ensures |Elements(s)| == |s|
  {
    if s != [] {
      var front, last := s[..|s| - 1], s[|s| - 1];
      NoDupCardinality(front);
      assert Elements(s) == Elements(front) + {last};
    }
  }

  lemma NoDupFits<N>(s: seq<N>, universe: set<N>)
    requires NoDup(s) && Elements(s) <= universe
    ensures |s| <= |universe|
    ensures |s| == |universe| ==> Elements(s) == universe
  {
    NoDupCardinality(s);
    SubsetCardinality(Elements(s), universe);
  }

  lemma SubsetCardinality<N>(a: set<N>, b: set<N>)
    requires a <= b
    ensures |a| <= |b|
    ensures |a| == |b| ==> a == b
  {
    assert b == a + (b - a);
  }

  /** How many entries of the list are not yet done: the value the in-degree counter holds. */
  ghost function Waiting<N>(ds: seq<N>, done: set<N>): nat {
    if ds == [] then 0
    else Waiting(ds[1..], done) + if ds[0] in done then 0 else 1
  }

  lemma {:induction false} WaitingZero<N>(ds: seq<N>, done: set<N>)
    ensures Waiting(ds, done) == 0 <==> forall d :: d in ds ==> d in done
  {
    if ds != [] {
      WaitingZero(ds[1..], done);
      assert forall d :: d in ds <==> d == ds[0] || d in ds[1..];
    }
  }

  lemma {:induction false} WaitingNone<N>(ds: seq<N>)
    ensures Waiting(ds, {}) == |ds|
  {
    if ds != [] {
      WaitingNone(ds[1..]);
    }
  }

  /** How often x is listed. */
  ghost function Count<N>(s: seq<N>, x: N): nat {
    if s == [] then 0 else Count(s[1..], x) + if s[0] == x then 1 else 0
  }

  lemma {:induction false} CountAppend<N>(s: seq<N>, y: N, x: N)
    ensures Count(s + [y], x) == Count(s, x) + if x == y then 1 else 0
  {
    if s == [] {
      assert s + [y] == [y];
    } else {
      assert (s + [y])[1..] == s[1..] + [y];
      CountAppend(s[1..], y, x);
    }
  }

  lemma {:induction false} CountAbsent<N>(s: seq<N>, x: N)
    requires x !in s
    ensures Count(s, x) == 0
  {
    if s != [] {
      CountAbsent(s[1..], x);
    }
  }

  lemma CountPrefix<N>(s: seq<N>, k: nat, x: N)
    requires k < |s|
    ensures Count(s[..k + 1], x) == Count(s[..k], x) + if x == s[k] then 1 else 0
  {
    assert s[..k + 1] == s[..k] + [s[k]];
    CountAppend(s[..k], s[k], x);
  }

  lemma {:induction false} CountBound<N>(s: seq<N>, k: nat, x: N)
    requires k <= |s|
    ensures Count(s[..k], x) <= Count(s, x)
  {
    if k > 0 {
      assert s[..k][1..] == s[1..][..k - 1];
      CountBound(s[1..], k - 1, x);
    }
  }

  /** Finishing c lowers the count by the number of times c is listed. */
  lemma {:induction false} WaitingStep<N>(ds: seq<N>, done: set<N>, c: N)
    requires c !in done
    ensures Waiting(ds, done + {c}) == Waiting(ds, done) - Count(ds, c)
  {
    if ds != [] {
      WaitingStep(ds[1..], done, c);
    }
  }

  // ---- cycles ----

  /** Walking along dependencies walks backwards in a topological order. */
  lemma {:induction false} PathDescends<N>(g: map<N, seq<N>>, o: seq<N>, p: seq<N>, i: nat) returns (j: nat)
    requires TopoOrder(g, o) && Path(g, p) && p != []
    requires i < |o| && o[i] == p[0]
    ensures j <= i && o[j] == p[|p| - 1]
    ensures |p| >= 2 ==> j < i
    decreases |p|
  {
    if |p| == 1 {
      j := i;
    } else {
      assert p[1] in g[p[0]];
      assert p[1] in o[..i];
      var k :| 0 <= k < i && o[k] == p[1];
      j := PathDescends(g, o, p[1..], k);
    }
  }

  lemma TopoOrderAcyclic<N(!new)>(g: map<N, seq<N>>, o: seq<N>)
    requires TopoOrder(g, o)
    ensures Acyclic(g)
  {
    forall p ensures !Cycle(g, p) {
      if Cycle(g, p) {
        assert p[0] in g;
        assert p[0] in Elements(o);
        var i :| 0 <= i < |o| && o[i] == p[0];
        var j := PathDescends(g, o, p, i);
        assert false;
      }
    }
  }

  /** Every node that is not done still waits for a dependency that is not done. */
  ghost predicate Stuck<N>(g: map<N, seq<N>>, done: set<N>) {
    forall n :: n in g && n !in done ==> Waiting(g[n], done) > 0
  }

  lemma {:induction false} ExtendWalk<N>(g: map<N, seq<N>>, p: seq<N>, d: N)
    requires p != [] && Path(g, p) && p[|p| - 1] in g && d in g[p[|p| - 1]]
    ensures Path(g, p + [d])
  {
    if |p| >= 2 {
      ExtendWalk(g, p[1..], d);
      assert (p + [d])[1..] == p[1..] + [d];
    }
  }

  lemma {:induction false} WalkSuffix<N>(g: map<N, seq<N>>, p: seq<N>, k: nat)
    requires k <= |p| && Path(g, p)
    ensures Path(g, p[k..])
    decreases k
  {
    if 0 < k {
      if |p| >= 2 {
        WalkSuffix(g, p[1..], k - 1);
      }
      assert p[k..] == p[1..][k - 1..];
    }
  }

  lemma CloseWalk<N>(g: map<N, seq<N>>, p: seq<N>, k: nat)
    requires k < |p| - 1 && Path(g, p) && p[k] == p[|p| - 1]
    ensures Cycle(g, p[k..])
  {
    WalkSuffix(g, p, k);
  }

  /** Among stuck nodes any duplicate-free walk can be continued until it meets itself. */
  lemma {:induction false} StuckWalk<N>(g: map<N, seq<N>>, done: set<N>, p: seq<N>) returns (cycle: seq<N>)
    requires Closed(g) && Stuck(g, done)
    requires p != [] && NoDup(p) && Path(g, p) && Elements(p) <= g.Keys - done
    ensures Cycle(g, cycle)
    decreases |g.Keys - done| - |p|
  {
    var last := p[|p| - 1];
    assert last in Elements(p);
    WaitingZero(g[last], done);
    var d :| d in g[last] && d !in done;
    ExtendWalk(g, p, d);
    if k :| 0 <= k < |p| && p[k] == d {
      CloseWalk(g, p + [d], k);
      cycle := (p + [d])[k..];
    } else {
      assert Elements(p + [d]) == Elements(p) + {d};
      NoDupFits(p + [d], g.Keys - done);
      cycle := StuckWalk(g, done, p + [d]);
    }
  }

  // ---- Kahn's algorithm ----

  /** adj lists n under d once for each time n's dependency list names d. */
  ghost predicate Adjacency<N>(g: map<N, seq<N>>, adj: map<N, seq<N>>) {
    && adj.Keys == g.Keys
    && (forall d, n {:trigger n in adj[d]} :: d in adj && n in adj[d] ==> n in g)
    && forall d, n {:trigger Count(adj[d], n)} {:trigger Count(g[n], d)} :: d in g && n in g ==> Count(adj[d], n) == Count(g[n], d)
  }

  /** The counters and adjacency lists both programs build before they start sorting. */
  ghost predicate Counted<N>(g: map<N, seq<N>>, adj: map<N, seq<N>>, inDegree: map<N, int>) {
    && Closed(g)
    && Adjacency(g, adj)
    && inDegree.Keys == g.Keys
    && forall n :: n in g ==> inDegree[n] == |g[n]|
  }

  lemma AddNode<N>(g: map<N, seq<N>>, adj: map<N, seq<N>>, inDegree: map<N, int>, n: N)
    requires Counted(g, adj, inDegree) && n !in g
    ensures Counted(g[n := []], adj[n := []], inDegree[n := 0])
  {
    forall m | m in g ensures n !in adj[m] && n !in g[m] {
      assert n in adj[m] ==> n in g;
      assert n in g[m] ==> n in g;
    }
    forall m | m in g ensures Count(adj[m], n) == 0 && Count(g[m], n) == 0 {
      CountAbsent(adj[m], n);
      CountAbsent(g[m], n);
    }
  }

  lemma AddEdge<N>(g: map<N, seq<N>>, adj: map<N, seq<N>>, inDegree: map<N, int>, n: N, d: N)
    requires Counted(g, adj, inDegree) && n in g && d in g
    ensures Counted(g[n := g[n] + [d]], adj[d := adj[d] + [n]], inDegree[n := inDegree[n] + 1])
  {
    AddEdgeAdjacency(g, adj, n, d);
    assert Closed(g[n := g[n] + [d]]);
  }

  lemma AddEdgeAdjacency<N>(g: map<N, seq<N>>, adj: map<N, seq<N>>, n: N, d: N)
    requires Adjacency(g, adj) && n in g && d in g
    ensures Adjacency(g[n := g[n] + [d]], adj[d := adj[d] + [n]])
  {
    var g', adj' := g[n := g[n] + [d]], adj[d := adj[d] + [n]];
    forall e, m | e in g && m in g ensures Count(adj'[e], m) == Count(g'[m], e) {
      CountAppend(adj[d], n, m);
      CountAppend(g[n], d, e);
      assert Count(adj[e], m) == Count(g[m], e);
    }
  }

  /** The state between two iterations: order is done, queue holds exactly the other nodes whose
      counter reached zero, and each counter counts the dependencies not yet done. */
  ghost predicate KahnState<N>(g: map<N, seq<N>>, order: seq<N>, queue: seq<N>, inDegree: map<N, int>) {
    && NoDup(order) && Elements(order) <= g.Keys && DepsFirst(g, order)
    && inDegree.Keys == g.Keys
    && (forall n :: n in g ==> inDegree[n] == Waiting(g[n], Elements(order)))
    && QueueIsZeros(g, Elements(order), queue, inDegree)
  }

  /** The queue holds, once each, the nodes outside sorted whose counter is zero; all of sorted is zero. */
  ghost predicate QueueIsZeros<N>(g: map<N, seq<N>>, sorted: set<N>, queue: seq<N>, inDegree: map<N, int>)
    requires inDegree.Keys == g.Keys
  {
    && NoDup(queue)
    && (forall n :: n in queue ==> n in g && n !in sorted)
    && forall n :: n in g ==> (inDegree[n] == 0 <==> n in sorted || n in queue)
  }

  /** The queue is exactly the set of nodes that may come next. */
  ghost predicate Available<N>(g: map<N, seq<N>>, done: set<N>, n: N) {
    n in g && n !in done && forall d :: d in g[n] ==> d in done
  }

  lemma QueueIsAvailable<N>(g: map<N, seq<N>>, order: seq<N>, queue: seq<N>, inDegree: map<N, int>, n: N)
    requires KahnState(g, order, queue, inDegree)
    ensures n in queue <==> Available(g, Elements(order), n)
  {
    if n in g {
      WaitingZero(g[n], Elements(order));
    }
  }

  lemma KahnStart<N>(g: map<N, seq<N>>, adj: map<N, seq<N>>, queue: seq<N>, inDegree: map<N, int>)
    requires Counted(g, adj, inDegree) && NoDup(queue)
    requires forall n :: n in queue <==> n in g && inDegree[n] == 0
    ensures KahnState(g, [], queue, inDegree)
  {
    assert Elements<N>([]) == {};
    forall n | n in g ensures inDegree[n] == Waiting(g[n], {}) {
      WaitingNone(g[n]);
    }
  }

  /** The nodes whose counter is zero, in the arbitrary order in which a map is iterated. */
  method ZeroDegree<N(==)>(inDegree: map<N, int>) returns (queue: seq<N>)
    ensures NoDup(queue)
    ensures forall n :: n in queue <==> n in inDegree && inDegree[n] == 0
  {
    queue := [];
    var todo := inDegree.Keys;
    while todo != {}
      invariant todo <= inDegree.Keys && NoDup(queue)
      invariant forall n :: n in queue <==> n in inDegree && n !in todo && inDegree[n] == 0
      decreases todo
    {
      var n :| n in todo;
      todo := todo - {n};
      if inDegree[n] == 0 {
        queue := queue + [n];
      }
    }
  }

  /** When the queue runs dry: either every node is sorted, or the graph has a cycle. */
  lemma KahnEnd<N(!new)>(g: map<N, seq<N>>, order: seq<N>, inDegree: map<N, int>)
    requires Closed(g) && KahnState(g, order, [], inDegree)
    ensures |order| == |g| <==> Acyclic(g)
    ensures |order| <= |g|
    ensures |order| == |g| ==> TopoOrder(g, order)
  {
    NoDupFits(order, g.Keys);
    if |order| == |g| {
      TopoOrderAcyclic(g, order);
    } else {
      NoDupCardinality(order);
      LeftoversCycle(g, order, inDegree);
    }
  }

  lemma LeftoversCycle<N(!new)>(g: map<N, seq<N>>, order: seq<N>, inDegree: map<N, int>)
    requires Closed(g) && KahnState(g, order, [], inDegree)
    requires Elements(order) != g.Keys
    ensures !Acyclic(g)
  {
    assert exists n :: n in g && n !in Elements(order) by {
      assert Elements(order) <= g.Keys;
    }
    var n :| n in g && n !in Elements(order);
    var cycle := StuckWalk(g, Elements(order), [n]);
    assert Cycle(g, cycle);
  }

  /** The state inside the loop over the dependents of cur, after the first k of them. */
  ghost predicate MidVisit<N>(g: map<N, seq<N>>, done: set<N>, cur: N, dependents: seq<N>, k: nat, queue: seq<N>, degree: map<N, int>)
    requires k <= |dependents|
  {
    && degree.Keys == g.Keys
    && (forall n {:trigger degree[n]} :: n in g ==> degree[n] == Waiting(g[n], done) - Count(dependents[..k], n))
    && QueueIsZeros(g, done + {cur}, queue, degree)
  }

  /** The dependents of cur, each as often as it depends on cur. */
  ghost predicate DependentsOf<N>(g: map<N, seq<N>>, cur: N, dependents: seq<N>) {
    forall k {:trigger dependents[k]} :: 0 <= k < |dependents| ==>
      dependents[k] in g && Count(dependents, dependents[k]) == Count(g[dependents[k]], cur)
  }

  lemma MidVisitStep<N>(g: map<N, seq<N>>, done: set<N>, cur: N, dependents: seq<N>, k: nat, queue: seq<N>, degree: map<N, int>, queue': seq<N>, degree': map<N, int>)
    requires k < |dependents| && DependentsOf(g, cur, dependents) && cur !in done
    requires MidVisit(g, done, cur, dependents, k, queue, degree)
    requires degree' == degree[dependents[k] := degree[dependents[k]] - 1]
    requires queue' == if degree'[dependents[k]] == 0 then queue + [dependents[k]] else queue
    ensures MidVisit(g, done, cur, dependents, k + 1, queue', degree')
  {
    var next := dependents[k];
    WaitingStep(g[next], done, cur);
    CountPrefix(dependents, k, next);
    CountBound(dependents, k + 1, next);
    assert degree[next] > 0;
    forall n | n in g ensures degree'[n] == Waiting(g[n], done) - Count(dependents[..k + 1], n) {
      CountPrefix(dependents, k, n);
    }
  }

  /** The inner loop of Kahn's algorithm in both programs: lower the counter of each dependent of cur and
      queue those that reach zero. */
  method LowerDependents<N(==)>(ghost g: map<N, seq<N>>, ghost done: set<N>, ghost cur: N, dependents: seq<N>, rest: seq<N>, inDegree: map<N, int>)
    returns (queue: seq<N>, degree: map<N, int>)
    requires cur !in done && DependentsOf(g, cur, dependents)
    requires MidVisit(g, done, cur, dependents, 0, rest, inDegree)
    ensures MidVisit(g, done, cur, dependents, |dependents|, queue, degree)
  {
    queue, degree := rest, inDegree;
    for k := 0 to |dependents|
      invariant MidVisit(g, done, cur, dependents, k, queue, degree)
    {
      var next := dependents[k];
      ghost var queued, counts := queue, degree;
      degree := degree[next := degree[next] - 1];
      if degree[next] == 0 {
        queue := queue + [next];
      }
      MidVisitStep(g, done, cur, dependents, k, queued, counts, queue, degree);
    }
  }

  /** One iteration of Kahn's algorithm, for the node cur that was taken from the queue. */
  method Visit<N(==)>(ghost g: map<N, seq<N>>, adj: map<N, seq<N>>, ghost order: seq<N>, cur: N, rest: seq<N>, inDegree: map<N, int>)
    returns (queue: seq<N>, degree: map<N, int>)
    requires Adjacency(g, adj)
    requires KahnState(g, order, [cur] + rest, inDegree)
    ensures KahnState(g, order + [cur], queue, degree)
  {
    CurIsNext(g, order, cur, rest, inDegree);
    assert DependentsOf(g, cur, adj[cur]) by {
      assert forall n :: n in adj[cur] ==> n in g && Count(adj[cur], n) == Count(g[n], cur);
    }
    queue, degree := LowerDependents(g, Elements(order), cur, adj[cur], rest, inDegree);
    VisitEnd(g, adj, order, cur, queue, degree);
  }

  lemma VisitEnd<N>(g: map<N, seq<N>>, adj: map<N, seq<N>>, order: seq<N>, cur: N, queue: seq<N>, degree: map<N, int>)
    requires Adjacency(g, adj) && cur in g && cur !in Elements(order)
    requires NoDup(order) && Elements(order) <= g.Keys && DepsFirst(g, order + [cur])
    requires MidVisit(g, Elements(order), cur, adj[cur], |adj[cur]|, queue, degree)
    ensures KahnState(g, order + [cur], queue, degree)
  {
    assert adj[cur][..|adj[cur]|] == adj[cur];
    assert Elements(order + [cur]) == Elements(order) + {cur};
    forall n | n in g ensures degree[n] == Waiting(g[n], Elements(order + [cur])) {
      WaitingStep(g[n], Elements(order), cur);
    }
  }

  lemma CurIsNext<N>(g: map<N, seq<N>>, order: seq<N>, cur: N, rest: seq<N>, inDegree: map<N, int>)
    requires KahnState(g, order, [cur] + rest, inDegree)
    ensures cur in g && cur !in Elements(order)
    ensures DepsFirst(g, order + [cur])
    ensures forall dependents :: MidVisit(g, Elements(order), cur, dependents, 0, rest, inDegree)
  {
    var queue, o := [cur] + rest, order + [cur];
    assert queue[0] == cur && rest == queue[1..];
    assert forall n :: n in queue <==> n == cur || n in rest;
    QueueIsAvailable(g, order, queue, inDegree, cur);
    forall i, d | 0 <= i < |o| && o[i] in g && d in g[o[i]] ensures d in o[..i] {
      assert o[..i] == order[..i];
    }
  }
}
