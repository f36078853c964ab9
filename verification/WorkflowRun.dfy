/** The body of runWorkflow in go-orchestrator/internal/core/execution_engine.go on the Workflow object: construction,
launching and receiving take the steps of the driver's transition system. */
module WorkflowRun {
  import opened DepGraph
  import opened Workflows
  import opened WorkflowManager
  import D = WorkflowDriver

  ghost function Attempts(steps: map<string, Step>): map<string, nat> {
    map n | n in steps :: steps[n].attempts
  }

  ghost function RetryLimits(steps: map<string, Step>): map<string, int> {
    map n | n in steps :: steps[n].def.retryMax
  }

  /** A step table with its order, and the running set, are those of a state of the driver. */
  ghost predicate Shows(steps: map<string, Step>, order: seq<string>, running: set<string>, c: D.Config, s: D.State) {
    && c.g == DepsOf(steps) && c.order == order && c.retryMax == RetryLimits(steps)
    && s.st == StatusOf(steps) && s.launches == Attempts(steps) && s.running == running
  }

  /** An accepted step list starts a run of the driver, whatever the agents will reply. */
  method Start(defs: seq<WorkflowStep>, ghost reply: (string, nat) -> bool) returns (r: Result, ghost c: D.Config, ghost s: D.State)
    ensures r.Ok? <==> Acceptable(defs)
    ensures r.Ok? ==> r.workflow.Valid() && D.Init(c, s) && Shows(r.workflow.steps, r.workflow.order, {}, c, s) && c.reply == reply
  {
    r := NewWorkflow(defs);
    if r.Ok? {
      var steps := r.workflow.steps;
      forall n | n in steps ensures steps[n].status == Pending && steps[n].attempts == 0 { IndexedKeys(defs, n); }
      c := D.Config(DepsOf(steps), r.workflow.order, RetryLimits(steps), reply);
      s := D.State(StatusOf(steps), Attempts(steps), {}, map[], [], D.Top);
    } else {
      c, s := *, *;
    }
  }

  /** The step table after the steps in launched have been marked running. */
  ghost function Marked(steps: map<string, Step>, launched: set<string>): map<string, Step> {
    map n | n in steps :: if n in launched then Step(steps[n].def, Running, steps[n].attempts + 1) else steps[n]
  }

  ghost function ToLaunch(steps: map<string, Step>, running: set<string>): set<string>
    requires Over(DepsOf(steps), StatusOf(steps))
  {
    set n | n in steps && ReadyStep(DepsOf(steps), StatusOf(steps), n) && n !in running
  }

  /** The launching loop: every ready step that is not running is marked running, once. */
  method LaunchReady(w: Workflow, running: set<string>) returns (running': set<string>)
    requires w.Valid()
    modifies w
    ensures w.Valid() && w.order == old(w.order)
    ensures var launched := ToLaunch(old(w.steps), running);
            w.steps == Marked(old(w.steps), launched) && running' == running + launched
  {
    ghost var steps := w.steps;
    var ready := w.Ready();
    ReadyOnce(w);
    assert Fresh(ready, running) == ToLaunch(steps, running);
    running' := MarkAll(w, ready, running);
  }

  method MarkAll(w: Workflow, ready: seq<string>, running: set<string>) returns (running': set<string>)
    requires w.Valid() && forall i :: 0 <= i < |ready| ==> ready[i] in w.steps
    modifies w
    ensures w.Valid() && w.order == old(w.order) && w.steps == Marked(old(w.steps), Fresh(ready, running))
    ensures running' == running + Fresh(ready, running)
  {
    ghost var steps := w.steps;
    running' := running;
    for i := 0 to |ready|
      invariant w.Valid() && w.order == old(w.order) && w.steps == Marked(steps, Fresh(ready[..i], running))
      invariant running' == running + Fresh(ready[..i], running)
    {
      FreshMore(ready, i, running);
      running' := MarkNext(w, ready[i], running', running, steps, Fresh(ready[..i], running));
    }
    assert ready[..|ready|] == ready;
  }

  /** One ready step: it is skipped if it is in the running set, otherwise added to it and marked. */
  method MarkNext(w: Workflow, id: string, running: set<string>, ghost before: set<string>, ghost steps: map<string, Step>, ghost launched: set<string>)
    returns (running': set<string>)
    requires w.Valid() && id in steps && w.steps == Marked(steps, launched) && running == before + launched
    modifies w
    ensures w.Valid() && w.order == old(w.order)
    ensures var launched' := launched + if id in before then {} else {id};
            w.steps == Marked(steps, launched') && running' == before + launched'
  {
    running' := running;
    if id !in running {
      MarkOne(steps, launched, id);
      running' := running + {id};
      var _ := w.MarkRunning(id);
    } else {
      assert launched + (if id in before then {} else {id}) == launched;
    }
  }

  ghost function Fresh(ready: seq<string>, running: set<string>): set<string> {
    set n | n in ready && n !in running
  }

  lemma FreshMore(ready: seq<string>, i: nat, running: set<string>)
    requires i < |ready|
    ensures Fresh(ready[..i + 1], running) == Fresh(ready[..i], running) + if ready[i] in running then {} else {ready[i]}
  {
    assert ready[..i + 1] == ready[..i] + [ready[i]];
  }

  lemma MarkOne(steps: map<string, Step>, launched: set<string>, id: string)
    requires id in steps && id !in launched
    ensures id in Marked(steps, launched) && Marked(steps, launched)[id] == steps[id]
    ensures Marked(steps, launched + {id}) == Marked(steps, launched)[id := Step(steps[id].def, Running, steps[id].attempts + 1)]
  {
  }

  lemma ReadyOnce(w: Workflow)
    requires w.Valid()
    ensures forall n :: n in ReadyIn(DepsOf(w.steps), StatusOf(w.steps), w.order)
                   <==> n in w.steps && ReadyStep(DepsOf(w.steps), StatusOf(w.steps), n)
  {
    forall n ensures n in ReadyIn(DepsOf(w.steps), StatusOf(w.steps), w.order)
                <==> n in w.steps && ReadyStep(DepsOf(w.steps), StatusOf(w.steps), n)
    {
      ReadyInMeans(DepsOf(w.steps), StatusOf(w.steps), w.order, n);
      assert n in w.order <==> n in Elements(w.order);
    }
  }

  /** That is the driver's launching step. */
  lemma LaunchIsLoopStep(steps: map<string, Step>, order: seq<string>, running: set<string>, c: D.Config, s: D.State)
    requires Over(DepsOf(steps), StatusOf(steps)) && Shows(steps, order, running, c, s) && !AllDone(s.st)
    ensures s.launches.Keys == c.g.Keys
    ensures var launched := ToLaunch(steps, running);
            Shows(Marked(steps, launched), order, running + launched, c, D.LoopStep(c, s))
  {
    var launched := ToLaunch(steps, running);
    assert D.Launched(c, s) == launched;
    MarkedShows(steps, launched);
  }

  lemma MarkedShows(steps: map<string, Step>, launched: set<string>)
    ensures DepsOf(Marked(steps, launched)) == DepsOf(steps) && RetryLimits(Marked(steps, launched)) == RetryLimits(steps)
    ensures StatusOf(Marked(steps, launched)) == D.MarkRunning(StatusOf(steps), launched)
    ensures Attempts(Marked(steps, launched)) == map n | n in Attempts(steps) :: Attempts(steps)[n] + if n in launched then 1 else 0
  {
  }

  /** The receiving branch: the step leaves the running set and its outcome is recorded. */
  method ReceiveResult(w: Workflow, running: set<string>, id: string, passed: bool) returns (running': set<string>)
    requires w.Valid() && id in w.steps
    modifies w
    ensures w.Valid() && w.order == old(w.order) && SameButStatus(old(w.steps), w.steps)
    ensures StatusOf(w.steps) == AdvanceTo(old(DepsOf(w.steps)), w.order, old(StatusOf(w.steps)), id, D.Verdict(passed))
    ensures running' == running - {id}
  {
    running' := running - {id};
    var _ := w.Advance(id, if passed then Passed else Failed);
  }

  /** That is the driver's receiving step. */
  lemma ReceiveIsReceived(steps: map<string, Step>, order: seq<string>, running: set<string>, steps': map<string, Step>, c: D.Config, s: D.State)
    requires D.WellFormed(c) && Shows(steps, order, running, c, s) && SameButStatus(steps, steps')
    requires s.channel != [] && s.channel[0].step in steps
    requires StatusOf(steps') == AdvanceTo(DepsOf(steps), order, StatusOf(steps), s.channel[0].step, D.Verdict(s.channel[0].passed))
    ensures Over(c.g, s.st) && Shows(steps', order, running - {s.channel[0].step}, c, D.Received(c, s))
  {
    assert DepsOf(steps') == DepsOf(steps) && RetryLimits(steps') == RetryLimits(steps) && Attempts(steps') == Attempts(steps);
  }
}
