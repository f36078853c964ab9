/** The CI planner of scripts/ci_impact_analyzer.py: build_dag orders the affected tests after their
declared dependencies with Kahn's algorithm, taking the smallest available test first. */
module CiPlanner {
  import opened DepGraph

  /** A (device, test) pair, the unit that is scheduled. */
  datatype Node = Node(dev: string, test: string)

  // ---- the order Python gives to tuples of strings ----

  predicate StrLess(a: string, b: string) {
    b != [] && (a == [] || a[0] < b[0] || (a[0] == b[0] && StrLess(a[1..], b[1..])))
  }

  predicate Less(a: Node, b: Node) {
    StrLess(a.dev, b.dev) || (a.dev == b.dev && StrLess(a.test, b.test))
  }

  lemma {:induction false} StrLessTotal(a: string, b: string)
    ensures a == b || StrLess(a, b) || StrLess(b, a)
    ensures !(StrLess(a, b) && StrLess(b, a))
    ensures !StrLess(a, a)
  {
    if a != [] {
      StrLessTotal(a[1..], if b == [] then [] else b[1..]);
      if b != [] && a[0] == b[0] && a[1..] == b[1..] {
        assert a == [a[0]] + a[1..] == b;
      }
    }
  }

  lemma {:induction false} StrLessTransitive(a: string, b: string, c: string)
    requires StrLess(a, b) && StrLess(b, c)
    ensures StrLess(a, c)
  {
    if a != [] && a[0] == b[0] == c[0] {
      StrLessTransitive(a[1..], b[1..], c[1..]);
    }
  }

  lemma LessTotal(a: Node, b: Node)
    ensures a == b || Less(a, b) || Less(b, a)
    ensures !(Less(a, b) && Less(b, a))
    ensures !Less(a, a)
  {
    StrLessTotal(a.dev, b.dev);
    StrLessTotal(a.test, b.test);
  }

  lemma LessTransitive(a: Node, b: Node, c: Node)
    requires Less(a, b) && Less(b, c)
    ensures Less(a, c)
  {
    if StrLess(a.dev, b.dev) && StrLess(b.dev, c.dev) {
      StrLessTransitive(a.dev, b.dev, c.dev);
    } else if a.dev == b.dev == c.dev {
      StrLessTransitive(a.test, b.test, c.test);
    }
  }

  // ---- sorting ----

  /** Each entry is smaller than all that follow; in particular nothing is repeated. */
  ghost predicate StrictlySorted(s: seq<Node>) {
    forall i, j :: 0 <= i < j < |s| ==> Less(s[i], s[j])
  }

  function Insert(n: Node, s: seq<Node>): (r: seq<Node>)
    requires StrictlySorted(s) && n !in s
    ensures StrictlySorted(r)
    ensures forall x :: x in r <==> x == n || x in s
    ensures |r| == |s| + 1
  {
    if s == [] then [n]
    else
      LessTotal(n, s[0]);
      if Less(n, s[0]) then
        InsertFirst(n, s);
        [n] + s
      else
        InsertLater(n, s[0], Insert(n, s[1..]));
        assert forall x :: x in s <==> x == s[0] || x in s[1..];
        [s[0]] + Insert(n, s[1..])
  }

  lemma InsertFirst(n: Node, s: seq<Node>)
    requires StrictlySorted(s) && s != [] && Less(n, s[0])
    ensures StrictlySorted([n] + s)
  {
    forall j | 0 < j < |s| ensures Less(n, s[j]) {
      LessTransitive(n, s[0], s[j]);
    }
  }

  lemma InsertLater(n: Node, first: Node, s: seq<Node>)
    requires StrictlySorted(s) && forall x :: x in s ==> Less(first, x)
    ensures StrictlySorted([first] + s)
  {
  }

  /** list.sort() on a list without repetitions. */
  function Sort(s: seq<Node>): (r: seq<Node>)
    requires NoDup(s)
    ensures StrictlySorted(r)
    ensures forall x :: x in r <==> x in s
    ensures |r| == |s|
  {
    if s == [] then []
    else
      assert forall x :: x in s <==> x == s[0] || x in s[1..];
      Insert(s[0], Sort(s[1..]))
  }

  // ---- the graph ----

  /** Python's whitespace, as str.strip() understands it. */
  predicate IsSpace(c: char) {
    var u := c as int;
    9 <= u <= 13 || 28 <= u <= 32 || u == 0x85 || u == 0xA0 || u == 0x1680 || 0x2000 <= u <= 0x200A
    || u == 0x2028 || u == 0x2029 || u == 0x202F || u == 0x205F || u == 0x3000
  }

  predicate Blank(s: string) {
    forall i :: 0 <= i < |s| ==> IsSpace(s[i])
  }

  /** The non-blank entries of a dependency list, on the same device, in the listed order. */
  function OnDevice(dev: string, deps: seq<string>): seq<Node> {
    if deps == [] then []
    else
      var front := OnDevice(dev, deps[..|deps| - 1]);
      if Blank(deps[|deps| - 1]) then front else front + [Node(dev, deps[|deps| - 1])]
  }

  /** What a test's sidecar file declares; a test without a sidecar declares nothing. */
  function Declared(sidecars: map<string, seq<string>>, n: Node): seq<Node> {
    if n.test in sidecars then OnDevice(n.dev, sidecars[n.test]) else []
  }

  ghost function AddedBy(tests: set<Node>, sidecars: map<string, seq<string>>): set<Node> {
    set n, d | n in tests && d in Declared(sidecars, n) :: d
  }

  /** The graph that is sorted: the affected tests with their declared dependencies, and those
      dependencies themselves, which get none (only one level is expanded). */
  ghost function PlanGraph(affected: set<Node>, sidecars: map<string, seq<string>>): map<Node, seq<Node>> {
    ExpandedGraph(affected, affected, sidecars)
  }

  /** The graph when the dependencies of some of the affected tests have been added. */
  ghost function ExpandedGraph(affected: set<Node>, expanded: set<Node>, sidecars: map<string, seq<string>>): map<Node, seq<Node>> {
    map n | n in affected + AddedBy(expanded, sidecars) :: if n in expanded then Declared(sidecars, n) else []
  }

  // ---- the plan ----

  /** n is the smallest node whose dependencies are all done. */
  ghost predicate LeastAvailable(g: map<Node, seq<Node>>, done: set<Node>, n: Node) {
    Available(g, done, n) && forall m :: Available(g, done, m) ==> m == n || Less(n, m)
  }

  ghost predicate Greedy(g: map<Node, seq<Node>>, o: seq<Node>) {
    forall k :: 0 <= k < |o| ==> LeastAvailable(g, Elements(o[..k]), o[k])
  }

  /** Dictionary order on sequences of nodes. */
  ghost predicate LexLeq(a: seq<Node>, b: seq<Node>) {
    a == [] || (b != [] && (Less(a[0], b[0]) || (a[0] == b[0] && LexLeq(a[1..], b[1..]))))
  }

  ghost predicate LexLeastOrder(g: map<Node, seq<Node>>, o: seq<Node>) {
    TopoOrder(g, o) && forall q :: TopoOrder(g, q) ==> LexLeq(o, q)
  }

  /** What build_dag promises: the smallest of all valid orders, or the sorted nodes if there is none. */
  ghost predicate IsPlan(g: map<Node, seq<Node>>, plan: seq<Node>) {
    if Acyclic(g) then LexLeastOrder(g, plan)
    else StrictlySorted(plan) && Elements(plan) == g.Keys
  }

  /** Any valid order continues with an available node, so a greedy order is never beaten. */
  lemma {:induction false} GreedyIsLeast(g: map<Node, seq<Node>>, o: seq<Node>, q: seq<Node>, k: nat)
    requires TopoOrder(g, o) && Greedy(g, o) && TopoOrder(g, q)
    requires k <= |o| == |q| && o[..k] == q[..k]
    ensures LexLeq(o[k..], q[k..])
    decreases |o| - k
  {
    if k < |o| {
      assert q[k] in Elements(q);
      assert Available(g, Elements(q[..k]), q[k]);
      assert LeastAvailable(g, Elements(o[..k]), o[k]);
      if o[k] == q[k] {
        assert o[..k + 1] == o[..k] + [o[k]] == q[..k + 1];
        GreedyIsLeast(g, o, q, k + 1);
        assert o[k..][1..] == o[k + 1..] && q[k..][1..] == q[k + 1..];
      }
    }
  }

  lemma GreedyIsLexLeast(g: map<Node, seq<Node>>, o: seq<Node>)
    requires TopoOrder(g, o) && Greedy(g, o)
    ensures LexLeastOrder(g, o)
  {
    forall q | TopoOrder(g, q) ensures LexLeq(o, q) {
      NoDupCardinality(o);
      NoDupCardinality(q);
      GreedyIsLeast(g, o, q, 0);
      assert o[0..] == o && q[0..] == q;
    }
  }

  lemma {:induction false} LexLeqAntisymmetric(a: seq<Node>, b: seq<Node>)
    requires LexLeq(a, b) && LexLeq(b, a)
    ensures a == b
  {
    if a != [] {
      LessTotal(a[0], b[0]);
      LexLeqAntisymmetric(a[1..], b[1..]);
    }
  }

  lemma {:induction false} SortedUnique(a: seq<Node>, b: seq<Node>)
    requires StrictlySorted(a) && StrictlySorted(b) && Elements(a) == Elements(b)
    ensures a == b
  {
    if a != [] {
      assert a[0] in Elements(b);
    }
    if b != [] {
      assert b[0] in Elements(a);
      assert a != [];
      LessTotal(a[0], b[0]);
      assert a[0] == b[0];
      forall i | 1 <= i < |a| ensures a[i] != a[0] { LessTotal(a[0], a[i]); }
      forall i | 1 <= i < |b| ensures b[i] != b[0] { LessTotal(b[0], b[i]); }
      assert Elements(a[1..]) == Elements(a) - {a[0]} == Elements(b[1..]);
      SortedUnique(a[1..], b[1..]);
    }
  }

  /** The plan is a function of the graph: the iteration order of sets and dicts has no influence. */
  lemma PlanUnique(g: map<Node, seq<Node>>, p: seq<Node>, q: seq<Node>)
    requires IsPlan(g, p) && IsPlan(g, q)
    ensures p == q
  {
    if Acyclic(g) {
      LexLeqAntisymmetric(p, q);
    } else {
      SortedUnique(p, q);
    }
  }

  lemma {:induction false} OnDeviceMeans(dev: string, deps: seq<string>, d: Node)
    ensures d in OnDevice(dev, deps) <==> d.dev == dev && d.test in deps && !Blank(d.test)
  {
    if deps != [] {
      var front, last := deps[..|deps| - 1], deps[|deps| - 1];
      OnDeviceMeans(dev, front, d);
      assert d.test in deps <==> d.test in front || d.test == last;
    }
  }

  /** The plan schedules exactly the affected tests and their non-blank declared dependencies. */
  lemma PlanCovers(affected: set<Node>, sidecars: map<string, seq<string>>, plan: seq<Node>, d: Node)
    requires IsPlan(PlanGraph(affected, sidecars), plan)
    ensures d in plan <==> d in affected || exists t ::
      Node(d.dev, t) in affected && t in sidecars && d.test in sidecars[t] && !Blank(d.test)
  {
    var g := PlanGraph(affected, sidecars);
    assert d in plan <==> d in g;
    if d in g && d !in affected {
      var n :| n in affected && d in Declared(sidecars, n);
      OnDeviceMeans(n.dev, sidecars[n.test], d);
      assert Node(d.dev, n.test) == n;
    }
    forall t | Node(d.dev, t) in affected && t in sidecars && d.test in sidecars[t] && !Blank(d.test)
      ensures d in g
    {
      OnDeviceMeans(d.dev, sidecars[t], d);
      assert d in Declared(sidecars, Node(d.dev, t));
    }
  }

  /** An affected test runs after every non-blank dependency its sidecar declares, unless the graph has a cycle. */
  lemma DeclaredFirst(affected: set<Node>, sidecars: map<string, seq<string>>, plan: seq<Node>, i: nat, t: string)
    requires IsPlan(PlanGraph(affected, sidecars), plan) && Acyclic(PlanGraph(affected, sidecars))
    requires i < |plan| && plan[i] in affected && plan[i].test in sidecars
    requires t in sidecars[plan[i].test] && !Blank(t)
    ensures Node(plan[i].dev, t) in plan[..i]
  {
    OnDeviceMeans(plan[i].dev, sidecars[plan[i].test], Node(plan[i].dev, t));
  }

  // ---- build_dag ----

  /** One edge; a dependency not seen before becomes a node of its own. */
  method AddDependency(ghost g: map<Node, seq<Node>>, adj: map<Node, seq<Node>>, inDegree: map<Node, int>, n: Node, d: Node)
    returns (ghost g': map<Node, seq<Node>>, adj': map<Node, seq<Node>>, inDegree': map<Node, int>)
    requires Counted(g, adj, inDegree) && n in g
    ensures Counted(g', adj', inDegree')
    ensures g'.Keys == g.Keys + {d} && g'[n] == g[n] + [d]
    ensures forall m :: m in g' && m != n ==> g'[m] == if m in g then g[m] else []
  {
    g', adj', inDegree' := g, adj, inDegree;
    if d !in adj {
      AddNode(g, adj, inDegree, d);
      g', adj', inDegree' := g[d := []], adj[d := []], inDegree[d := 0];
    }
    AddEdge(g', adj', inDegree', n, d);
    g', adj', inDegree' := g'[n := g'[n] + [d]], adj'[d := adj'[d] + [n]], inDegree'[n := inDegree'[n] + 1];
  }

  /** The edges of one affected test. */
  method AddDependencies(ghost g: map<Node, seq<Node>>, adj: map<Node, seq<Node>>, inDegree: map<Node, int>, n: Node, deps: seq<string>)
    returns (ghost g': map<Node, seq<Node>>, adj': map<Node, seq<Node>>, inDegree': map<Node, int>)
    requires Counted(g, adj, inDegree) && n in g && g[n] == []
    ensures Counted(g', adj', inDegree')
    ensures g'.Keys == g.Keys + Elements(OnDevice(n.dev, deps))
    ensures g'[n] == OnDevice(n.dev, deps)
    ensures forall m :: m in g' && m != n ==> g'[m] == if m in g then g[m] else []
  {
    g', adj', inDegree' := g, adj, inDegree;
    for k := 0 to |deps|
      invariant Counted(g', adj', inDegree')
      invariant g'.Keys == g.Keys + Elements(OnDevice(n.dev, deps[..k]))
      invariant g'[n] == OnDevice(n.dev, deps[..k])
      invariant forall m :: m in g' && m != n ==> g'[m] == if m in g then g[m] else []
    {
      assert deps[..k + 1][..k] == deps[..k];
      if !Blank(deps[k]) {
        g', adj', inDegree' := AddDependency(g', adj', inDegree', n, Node(n.dev, deps[k]));
      }
    }
    assert deps[..|deps|] == deps;
  }

  method BuildGraph(affected: set<Node>, sidecars: map<string, seq<string>>)
    returns (adj: map<Node, seq<Node>>, inDegree: map<Node, int>)
    ensures Counted(PlanGraph(affected, sidecars), adj, inDegree)
  {
    adj, inDegree := map n | n in affected :: [], map n | n in affected :: 0;
    ghost var g := ExpandedGraph(affected, {}, sidecars);
    var todo := affected;
    while todo != {}
      invariant todo <= affected && Counted(g, adj, inDegree)
      invariant g == ExpandedGraph(affected, affected - todo, sidecars)
      decreases todo
    {
      var n :| n in todo;
      assert affected - (todo - {n}) == affected - todo + {n};
      var deps := if n.test in sidecars then sidecars[n.test] else [];
      ghost var g';
      g', adj, inDegree := AddDependencies(g, adj, inDegree, n, deps);
      ExpandOne(affected, affected - todo, n, sidecars, g');
      g, todo := g', todo - {n};
    }
    assert affected - {} == affected;
  }

  lemma ExpandOne(affected: set<Node>, expanded: set<Node>, n: Node, sidecars: map<string, seq<string>>, g': map<Node, seq<Node>>)
    requires expanded <= affected && n in affected - expanded
    requires var g := ExpandedGraph(affected, expanded, sidecars);
             && g'.Keys == g.Keys + Elements(Declared(sidecars, n))
             && g'[n] == Declared(sidecars, n)
             && forall m :: m in g' && m != n ==> g'[m] == if m in g then g[m] else []
    ensures g' == ExpandedGraph(affected, expanded + {n}, sidecars)
  {
    AddedByOne(expanded, n, sidecars);
    var all := ExpandedGraph(affected, expanded + {n}, sidecars);
    assert g'.Keys == all.Keys;
    forall m | m in all ensures g'[m] == all[m] {
      if m != n && m !in affected + AddedBy(expanded, sidecars) {
        assert m !in expanded;
      }
    }
  }

  lemma AddedByOne(expanded: set<Node>, n: Node, sidecars: map<string, seq<string>>)
    ensures AddedBy(expanded + {n}, sidecars) == AddedBy(expanded, sidecars) + Elements(Declared(sidecars, n))
  {
  }

  /** One more smallest available node keeps the order greedy. */
  lemma GreedyStep(g: map<Node, seq<Node>>, order: seq<Node>, queue: seq<Node>, inDegree: map<Node, int>)
    requires KahnState(g, order, queue, inDegree) && Greedy(g, order)
    requires queue != [] && StrictlySorted(queue)
    ensures Greedy(g, order + [queue[0]])
  {
    var o := order + [queue[0]];
    forall k | 0 <= k < |o| ensures LeastAvailable(g, Elements(o[..k]), o[k]) {
      assert o[..k] == order[..k];
      if k == |order| {
        assert order[..k] == order;
        QueueIsAvailable(g, order, queue, inDegree, queue[0]);
        forall m | Available(g, Elements(order), m) ensures m == queue[0] || Less(queue[0], m) {
          QueueIsAvailable(g, order, queue, inDegree, m);
        }
      }
    }
  }

  lemma SortKeepsState(g: map<Node, seq<Node>>, order: seq<Node>, queue: seq<Node>, inDegree: map<Node, int>)
    requires KahnState(g, order, queue, inDegree)
    ensures KahnState(g, order, Sort(queue), inDegree)
  {
    var s := Sort(queue);
    forall i, j | 0 <= i < j < |s| ensures s[i] != s[j] {
      LessTotal(s[i], s[j]);
    }
  }

  /** The sorting loop: the queue is sorted before each node is taken. */
  method SortGreedily(ghost g: map<Node, seq<Node>>, adj: map<Node, seq<Node>>, inDegree: map<Node, int>)
    returns (order: seq<Node>)
    requires Counted(g, adj, inDegree)
    ensures |order| <= |g| && (|order| == |g| <==> Acyclic(g))
    ensures Acyclic(g) ==> LexLeastOrder(g, order)
  {
    var degree := inDegree;
    var queue := ZeroDegree(degree);
    KahnStart(g, adj, queue, degree);
    order := [];
    while queue != []
      invariant KahnState(g, order, queue, degree) && Greedy(g, order)
      decreases |g| - |order|
    {
      SortKeepsState(g, order, queue, degree);
      queue := Sort(queue);
      GreedyStep(g, order, queue, degree);
      var cur, rest := queue[0], queue[1..];
      assert queue == [cur] + rest;
      queue, degree := Visit(g, adj, order, cur, rest, degree);
      order := order + [cur];
      NoDupFits(order, g.Keys);
    }
    KahnEnd(g, order, degree);
    if |order| == |g| {
      GreedyIsLexLeast(g, order);
    }
  }

  /** sorted(list(adj.keys())). */
  method SortedKeys(keys: set<Node>) returns (r: seq<Node>)
    ensures StrictlySorted(r) && Elements(r) == keys
  {
    r := [];
    var todo := keys;
    while todo != {}
      invariant todo <= keys && NoDup(r)
      invariant forall n :: n in r <==> n in keys && n !in todo
      decreases todo
    {
      var n :| n in todo;
      todo := todo - {n};
      r := r + [n];
    }
    r := Sort(r);
  }

  /** build_dag: the lexicographically least order that puts every affected test after its declared
      dependencies, or all nodes sorted when the dependencies are cyclic. */
  method BuildDag(affected: set<Node>, sidecars: map<string, seq<string>>) returns (plan: seq<Node>)
    ensures IsPlan(PlanGraph(affected, sidecars), plan)
  {
    ghost var g := PlanGraph(affected, sidecars);
    var adj, inDegree := BuildGraph(affected, sidecars);
    plan := SortGreedily(g, adj, inDegree);
    if |plan| < |adj| {
      plan := SortedKeys(adj.Keys);
    }
  }
}
