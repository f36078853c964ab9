/** The Workflow object of go-orchestrator/internal/core/workflow.go, proved against the step state machine
of module Workflows. */
module WorkflowManager {
  import opened DepGraph
  import opened Workflows

  function DepsOf(steps: map<string, Step>): Graph {
    map n | n in steps :: steps[n].def.dependsOn
  }

  function StatusOf(steps: map<string, Step>): Statuses {
    map n | n in steps :: steps[n].status
  }

  /** Two step tables that differ in statuses only. */
  ghost predicate SameButStatus(a: map<string, Step>, b: map<string, Step>) {
    a.Keys == b.Keys && forall n :: n in a ==> a[n].def == b[n].def && a[n].attempts == b[n].attempts
  }

  // ---- construction ----

  datatype Error = NoSteps | EmptyId(index: nat) | DuplicateId(id: string) | UnknownDep(id: string, dep: string) | CycleDetected

  datatype Result = Ok(workflow: Workflow) | Err(error: Error)

  /** Every ID is non-empty and new. */
  ghost predicate GoodIds(defs: seq<WorkflowStep>) {
    && (forall i :: 0 <= i < |defs| ==> defs[i].id != "")
    && (forall i, j :: 0 <= i < j < |defs| ==> defs[i].id != defs[j].id)
  }

  /** The step table after the indexing loop. */
  function Indexed(defs: seq<WorkflowStep>): map<string, Step> {
    if defs == [] then map[]
    else
      var last := defs[|defs| - 1];
      Indexed(defs[..|defs| - 1])[last.id := Step(last, Pending, 0)]
  }

  lemma {:induction false} IndexedKeys(defs: seq<WorkflowStep>, id: string)
    ensures id in Indexed(defs) <==> exists i :: 0 <= i < |defs| && defs[i].id == id
    ensures id in Indexed(defs) ==> Indexed(defs)[id].status == Pending && Indexed(defs)[id].attempts == 0
  {
    if defs != [] {
      var front := defs[..|defs| - 1];
      IndexedKeys(front, id);
      if id in Indexed(front) {
        var i :| 0 <= i < |front| && front[i].id == id;
        assert defs[i].id == id;
      }
      forall i | 0 <= i < |front| ensures defs[i] == front[i] {}
    }
  }

  /** What NewWorkflow accepts. */
  ghost predicate Acceptable(defs: seq<WorkflowStep>) {
    && defs != [] && GoodIds(defs)
    && Closed(DepsOf(Indexed(defs))) && Acyclic(DepsOf(Indexed(defs)))
  }

  ghost predicate Justified(defs: seq<WorkflowStep>, e: Error) {
    match e
    case NoSteps => defs == []
    case EmptyId(i) => i < |defs| && GoodIds(defs[..i]) && defs[i].id == ""
    case DuplicateId(id) => exists i, j :: 0 <= i < j < |defs| && GoodIds(defs[..j]) && defs[i].id == defs[j].id == id
    case UnknownDep(id, dep) =>
      GoodIds(defs) && id in Indexed(defs) && dep in Indexed(defs)[id].def.dependsOn && dep !in Indexed(defs)
    case CycleDetected => GoodIds(defs) && Closed(DepsOf(Indexed(defs))) && !Acyclic(DepsOf(Indexed(defs)))
  }

  /** The indexing loop: empty and repeated IDs are refused. */
  method IndexSteps(defs: seq<WorkflowStep>) returns (steps: map<string, Step>, bad: bool, e: Error)
    ensures bad ==> !GoodIds(defs) && Justified(defs, e)
    ensures !bad ==> GoodIds(defs) && steps == Indexed(defs)
  {
    steps, bad, e := map[], false, NoSteps;
    for i := 0 to |defs|
      invariant !bad && steps == Indexed(defs[..i]) && GoodIds(defs[..i])
    {
      var d := defs[i];
      assert defs[..i + 1] == defs[..i] + [d];
      if d.id == "" {
        return steps, true, EmptyId(i);
      }
      IndexedKeys(defs[..i], d.id);
      if d.id in steps {
        ghost var k :| 0 <= k < i && defs[..i][k].id == d.id;
        assert defs[k].id == d.id;
        return steps, true, DuplicateId(d.id);
      }
      steps := steps[d.id := Step(d, Pending, 0)];
      assert defs[..i + 1][..i] == defs[..i];
    }
    assert defs[..|defs|] == defs;
  }

  /** Every dependency must name a step. */
  method CheckDependencies(steps: map<string, Step>) returns (missing: bool, id: string, dep: string)
    ensures missing ==> id in steps && dep in steps[id].def.dependsOn && dep !in steps
    ensures !missing ==> Closed(DepsOf(steps))
  {
    missing, id, dep := false, "", "";
    var todo := steps.Keys;
    while todo != {}
      invariant todo <= steps.Keys
      invariant !missing
      invariant forall n, d {:trigger d in steps[n].def.dependsOn} :: n in steps && n !in todo && d in steps[n].def.dependsOn ==> d in steps
      decreases todo
    {
      id :| id in todo;
      var deps := steps[id].def.dependsOn;
      for i := 0 to |deps|
        invariant forall d :: d in deps[..i] ==> d in steps
      {
        if deps[i] !in steps {
          return true, id, deps[i];
        }
        assert deps[..i + 1] == deps[..i] + [deps[i]];
      }
      assert deps[..|deps|] == deps;
      todo := todo - {id};
    }
  }

  /** The adjacency lists and in-degrees. */
  method CountDependencies(steps: map<string, Step>) returns (adj: map<string, seq<string>>, inDegree: map<string, int>)
    requires Closed(DepsOf(steps))
    ensures Counted(DepsOf(steps), adj, inDegree)
  {
    adj, inDegree := map n | n in steps :: [], map n | n in steps :: 0;
    ghost var g: Graph := map n | n in steps :: [];
    var todo := steps.Keys;
    while todo != {}
      invariant todo <= steps.Keys && g.Keys == steps.Keys && Counted(g, adj, inDegree)
      invariant forall n :: n in steps ==> g[n] == if n in todo then [] else steps[n].def.dependsOn
      decreases todo
    {
      var n :| n in todo;
      g, adj, inDegree := CountOne(g, adj, inDegree, n, steps[n].def.dependsOn);
      todo := todo - {n};
    }
    assert g == DepsOf(steps);
  }

  method CountOne(ghost g: Graph, adj: map<string, seq<string>>, inDegree: map<string, int>, n: string, deps: seq<string>)
    returns (ghost g': Graph, adj': map<string, seq<string>>, inDegree': map<string, int>)
    requires Counted(g, adj, inDegree) && n in g && g[n] == [] && forall d :: d in deps ==> d in g
    ensures Counted(g', adj', inDegree') && g' == g[n := deps]
  {
    g', adj', inDegree' := g, adj, inDegree;
    for i := 0 to |deps|
      invariant Counted(g', adj', inDegree') && g' == g[n := deps[..i]]
    {
      AddEdge(g', adj', inDegree', n, deps[i]);
      adj', inDegree' := adj'[deps[i] := adj'[deps[i]] + [n]], inDegree'[n := inDegree'[n] + 1];
      g' := g'[n := g'[n] + [deps[i]]];
      assert deps[..i + 1] == deps[..i] + [deps[i]];
    }
    assert deps[..|deps|] == deps;
  }

  /** Kahn's algorithm over a first-in first-out queue. */
  method KahnSort(ghost g: Graph, adj: map<string, seq<string>>, inDegree: map<string, int>) returns (order: seq<string>)
    requires Counted(g, adj, inDegree)
    ensures |order| == |g| <==> Acyclic(g)
    ensures |order| == |g| ==> TopoOrder(g, order)
  {
    var degree := inDegree;
    var queue := ZeroDegree(degree);
    KahnStart(g, adj, queue, degree);
    order := [];
    while queue != []
      invariant KahnState(g, order, queue, degree)
      decreases |g| - |order|
    {
      var cur, rest := queue[0], queue[1..];
      assert queue == [cur] + rest;
      queue, degree := Visit(g, adj, order, cur, rest, degree);
      order := order + [cur];
      NoDupFits(order, g.Keys);
    }
    KahnEnd(g, order, degree);
  }

  /** NewWorkflow: accepts exactly the acceptable step lists and says why it refuses the others. */
  method NewWorkflow(defs: seq<WorkflowStep>) returns (r: Result)
    ensures r.Ok? <==> Acceptable(defs)
    ensures r.Err? ==> Justified(defs, r.error)
    ensures r.Ok? ==> fresh(r.workflow) && r.workflow.Valid() && r.workflow.steps == Indexed(defs)
  {
    if defs == [] {
      return Err(NoSteps);
    }
    var steps, bad, e := IndexSteps(defs);
    if bad {
      return Err(e);
    }
    var missing, id, dep := CheckDependencies(steps);
    if missing {
      assert dep in DepsOf(steps)[id];
      return Err(UnknownDep(id, dep));
    }
    assert DepsOf(steps).Keys == steps.Keys;
    var adj, inDegree := CountDependencies(steps);
    var order := KahnSort(DepsOf(steps), adj, inDegree);
    if |order| != |steps| {
      return Err(CycleDetected);
    }
    var w := new Workflow(steps, order);
    return Ok(w);
  }

  // ---- execution ----

  class Workflow {
    var steps: map<string, Step>
    var order: seq<string>

    ghost predicate Valid()
      reads this
    {
      Closed(DepsOf(steps)) && TopoOrder(DepsOf(steps), order)
    }

    constructor (steps: map<string, Step>, order: seq<string>)
      ensures this.steps == steps && this.order == order
    {
      this.steps, this.order := steps, order;
    }

    method DepsAllPassed(deps: seq<string>) returns (all: bool)
      requires Covers(deps, StatusOf(steps))
      ensures all == AllPassed(deps, StatusOf(steps))
    {
      for i := 0 to |deps|
        invariant AllPassed(deps, StatusOf(steps)) == AllPassed(deps[i..], StatusOf(steps))
      {
        assert deps[i] in StatusOf(steps);
        if steps[deps[i]].status != Passed {
          return false;
        }
      }
      return true;
    }

    method DepsAnyFailed(deps: seq<string>) returns (any: bool)
      requires Covers(deps, StatusOf(steps))
      ensures any == AnyDown(deps, StatusOf(steps))
    {
      for i := 0 to |deps|
        invariant AnyDown(deps, StatusOf(steps)) == AnyDown(deps[i..], StatusOf(steps))
      {
        var status := steps[deps[i]].status;
        if status == Failed || status == Skipped {
          return true;
        }
      }
      return false;
    }

    /** The ready steps, each once, in topological order. */
    method Ready() returns (ready: seq<string>)
      requires Valid()
      ensures ready == ReadyIn(DepsOf(steps), StatusOf(steps), order)
    {
      ready := [];
      for i := 0 to |order|
        invariant ready == ReadyIn(DepsOf(steps), StatusOf(steps), order[..i])
      {
        assert order[..i + 1][..i] == order[..i];
        var s := order[i];
        assert s in Elements(order);
        if steps[s].status == Pending {
          assert Covers(steps[s].def.dependsOn, StatusOf(steps)) by {
            assert forall d :: d in DepsOf(steps)[s] ==> d in DepsOf(steps);
          }
          var all := DepsAllPassed(steps[s].def.dependsOn);
          if all {
            ready := ready + [s];
          }
        }
      }
      assert order[..|order|] == order;
    }

    method IsDone() returns (done: bool)
      ensures done == AllDone(StatusOf(steps))
    {
      var todo := steps.Keys;
      while todo != {}
        invariant todo <= steps.Keys
        invariant forall n :: n in steps && n !in todo ==> steps[n].status != Pending && steps[n].status != Running
        decreases todo
      {
        var n :| n in todo;
        if steps[n].status == Pending || steps[n].status == Running {
          assert StatusOf(steps)[n] == steps[n].status;
          return false;
        }
        todo := todo - {n};
      }
      return true;
    }

    method IsBlocked() returns (blocked: bool)
      requires Valid()
      ensures blocked <==> !AllDone(StatusOf(steps)) && forall n :: n in steps ==> !ReadyStep(DepsOf(steps), StatusOf(steps), n)
    {
      var done := IsDone();
      if done {
        return false;
      }
      var ready := Ready();
      forall n ensures n in ready <==> ReadyStep(DepsOf(steps), StatusOf(steps), n) {
        ReadyInMeans(DepsOf(steps), StatusOf(steps), order, n);
        assert n in order <==> n in Elements(order);
      }
      assert ready != [] ==> ready[0] in ready;
      return |ready| == 0;
    }

    method MarkRunning(id: string) returns (ok: bool)
      requires Valid()
      modifies this
      ensures Valid() && order == old(order) && ok == (id in old(steps))
      ensures steps == if ok then old(steps)[id := Step(old(steps)[id].def, Running, old(steps)[id].attempts + 1)] else old(steps)
    {
      if id !in steps {
        return false;
      }
      ghost var deps := DepsOf(steps);
      steps := steps[id := Step(steps[id].def, Running, steps[id].attempts + 1)];
      assert DepsOf(steps) == deps;
      return true;
    }

    /** One pass over the topological order. */
    method PropagateSkip()
      requires Valid()
      modifies this`steps
      ensures Valid() && SameButStatus(old(steps), steps)
      ensures StatusOf(steps) == SkipPass(old(DepsOf(steps)), order, |order|, old(StatusOf(steps)))
    {
      ghost var g, st := DepsOf(steps), StatusOf(steps);
      for i := 0 to |order|
        invariant DepsOf(steps) == g && SameButStatus(old(steps), steps)
        invariant StatusOf(steps) == SkipPass(g, order, i, st)
      {
        var s := order[i];
        assert s in Elements(order);
        if steps[s].status == Pending {
          assert Covers(steps[s].def.dependsOn, StatusOf(steps)) by {
            assert forall d :: d in g[s] ==> d in g;
          }
          var any := DepsAnyFailed(steps[s].def.dependsOn);
          if any {
            SkipInTable(steps, s);
            steps := steps[s := steps[s].(status := Skipped)];
          }
        }
      }
    }

    /** Record the outcome of a step; a failure skips everything downstream. */
    method Advance(id: string, status: StepStatus) returns (ok: bool)
      requires Valid()
      modifies this`steps
      ensures Valid() && SameButStatus(old(steps), steps) && ok == (id in old(steps))
      ensures StatusOf(steps) == if ok then AdvanceTo(old(DepsOf(steps)), order, old(StatusOf(steps)), id, status)
                                 else old(StatusOf(steps))
    {
      if id !in steps {
        return false;
      }
      ghost var g, st := DepsOf(steps), StatusOf(steps);
      steps := steps[id := steps[id].(status := status)];
      assert DepsOf(steps) == g && StatusOf(steps) == st[id := status];
      if status == Failed {
        PropagateSkip();
      }
      return true;
    }

    /** How many steps passed, failed and were skipped. */
    method Summary() returns (passed: nat, failed: nat, skipped: nat)
      ensures passed == |With(StatusOf(steps), Passed)|
      ensures failed == |With(StatusOf(steps), Failed)|
      ensures skipped == |With(StatusOf(steps), Skipped)|
    {
      passed, failed, skipped := 0, 0, 0;
      var todo := steps.Keys;
      while todo != {}
        invariant todo <= steps.Keys
        invariant passed == |With(StatusOf(steps), Passed) - todo|
        invariant failed == |With(StatusOf(steps), Failed) - todo|
        invariant skipped == |With(StatusOf(steps), Skipped) - todo|
        decreases todo
      {
        var n :| n in todo;
        CountIn(steps, Passed, todo, n);
        CountIn(steps, Failed, todo, n);
        CountIn(steps, Skipped, todo, n);
        todo := todo - {n};
        match steps[n].status {
          case Passed => passed := passed + 1;
          case Failed => failed := failed + 1;
          case Skipped => skipped := skipped + 1;
          case _ =>
        }
      }
    }
  }

  lemma CountIn(steps: map<string, Step>, status: StepStatus, todo: set<string>, n: string)
    requires n in steps && n in todo
    ensures |With(StatusOf(steps), status) - (todo - {n})|
         == |With(StatusOf(steps), status) - todo| + if steps[n].status == status then 1 else 0
  {
    var before := With(StatusOf(steps), status) - todo;
    assert With(StatusOf(steps), status) - (todo - {n}) == if steps[n].status == status then before + {n} else before;
  }

  lemma SkipInTable(steps: map<string, Step>, s: string)
    requires s in steps
    ensures DepsOf(steps[s := steps[s].(status := Skipped)]) == DepsOf(steps)
    ensures StatusOf(steps[s := steps[s].(status := Skipped)]) == StatusOf(steps)[s := Skipped]
  {
  }

  /** The ready steps among those listed, in the listed order. */
  ghost function ReadyIn(g: Graph, st: Statuses, listed: seq<string>): seq<string>
    requires Over(g, st)
  {
    if listed == [] then []
    else
      var front, last := ReadyIn(g, st, listed[..|listed| - 1]), listed[|listed| - 1];
      if ReadyStep(g, st, last) then front + [last] else front
  }

  /** Ready returns the ready steps, each once. */
  lemma {:induction false} ReadyInMeans(g: Graph, st: Statuses, listed: seq<string>, n: string)
    requires Over(g, st)
    ensures n in ReadyIn(g, st, listed) <==> n in listed && ReadyStep(g, st, n)
    ensures NoDup(listed) ==> NoDup(ReadyIn(g, st, listed))
  {
    if listed != [] {
      var front, last := listed[..|listed| - 1], listed[|listed| - 1];
      assert listed == front + [last];
      ReadyInMeans(g, st, front, n);
      ReadyInMeans(g, st, front, last);
    }
  }
}
