/** The concurrent driver of a workflow, runWorkflow in go-orchestrator/internal/core/execution_engine.go,
as a transition system: a loop that launches every ready step, one goroutine per launched step that
retries and then reports on a buffered channel, and results received in whatever order they arrive. */
module WorkflowDriver {
  import opened DepGraph
  import opened Workflows

  /** What is fixed during a run. reply(n, k) says whether attempt k of step n comes back passed; any
      other reply, and every transport error, counts as not passed. */
  datatype Config = Config(g: Graph, order: seq<string>, retryMax: map<string, int>, reply: (string, nat) -> bool)

  /** A goroutine: about to send attempt k, or done and about to report. */
  datatype Worker = Trying(attempt: nat) | Reporting(passed: bool)

  datatype Message = Message(step: string, passed: bool)

  datatype Control = Top | Waiting | Finished | Cancelled

  datatype State = State(st: Statuses, launches: map<string, nat>, running: set<string>,
                         workers: map<string, Worker>, channel: seq<Message>, pc: Control)

  datatype Event = Loop | Attempt(n: string) | Report(n: string) | Receive | Cancel

  ghost predicate WellFormed(c: Config) {
    TopoOrder(c.g, c.order) && Closed(c.g) && c.retryMax.Keys == c.g.Keys
  }

  /** The last attempt number; a negative retry count means no retries. */
  function LastAttempt(c: Config, n: string): nat
    requires n in c.retryMax
  {
    if c.retryMax[n] < 0 then 0 else c.retryMax[n]
  }

  /** A step passes when one of its attempts does. */
  ghost predicate Outcome(c: Config, n: string)
    requires n in c.retryMax
  {
    exists k: nat :: k <= LastAttempt(c, n) && c.reply(n, k)
  }

  ghost function Verdict(passed: bool): StepStatus {
    if passed then Passed else Failed
  }

  // ---- transitions ----

  ghost predicate Init(c: Config, s: State) {
    && WellFormed(c)
    && s.st == (map n | n in c.g :: Pending)
    && s.launches == (map n | n in c.g :: 0)
    && s.running == {} && s.workers == map[] && s.channel == [] && s.pc == Top
  }

  ghost function Launched(c: Config, s: State): set<string>
    requires Over(c.g, s.st)
  {
    set n | n in c.g && ReadyStep(c.g, s.st, n) && n !in s.running
  }

  /** The top of the loop: stop when done, otherwise launch everything that is ready. */
  ghost function LoopStep(c: Config, s: State): State
    requires Over(c.g, s.st) && s.launches.Keys == c.g.Keys
  {
    if AllDone(s.st) then s.(pc := Finished)
    else
      var launched := Launched(c, s);
      s.(st := MarkRunning(s.st, launched),
         launches := map n | n in s.launches :: s.launches[n] + if n in launched then 1 else 0,
         running := s.running + launched,
         workers := s.workers + (map n | n in launched :: Trying(0)),
         pc := Waiting)
  }

  /** A result is taken from the channel and recorded. */
  ghost function Received(c: Config, s: State): State
    requires WellFormed(c) && Over(c.g, s.st) && s.channel != [] && s.channel[0].step in c.g
  {
    var m := s.channel[0];
    s.(st := AdvanceTo(c.g, c.order, s.st, m.step, Verdict(m.passed)),
       running := s.running - {m.step}, channel := s.channel[1..], pc := Top)
  }

  ghost function MarkRunning(st: Statuses, launched: set<string>): Statuses {
    map n | n in st :: if n in launched then Running else st[n]
  }

  ghost function AfterAttempt(c: Config, n: string, k: nat): Worker
    requires n in c.retryMax
  {
    if c.reply(n, k) then Reporting(true)
    else if k < LastAttempt(c, n) then Trying(k + 1)
    else Reporting(false)
  }

  ghost predicate Next(c: Config, s: State, e: Event, s': State)
    requires WellFormed(c) && Over(c.g, s.st) && s.launches.Keys == c.g.Keys
  {
    match e
    case Loop =>
      s.pc == Top && s' == LoopStep(c, s)
    case Attempt(n) =>
      && n in s.workers && n in c.g && s.workers[n].Trying?
      && s' == s.(workers := s.workers[n := AfterAttempt(c, n, s.workers[n].attempt)])
    case Report(n) =>
      && n in s.workers && s.workers[n].Reporting?
      && |s.channel| < |c.g|
      && s' == s.(workers := s.workers - {n}, channel := s.channel + [Message(n, s.workers[n].passed)])
    case Receive =>
      s.pc == Waiting && s.channel != [] && s.channel[0].step in c.g && s' == Received(c, s)
    case Cancel =>
      s.pc == Waiting && s' == s.(pc := Cancelled)
  }

  /** The state of the goroutine of step n after k attempts. */
  ghost function AfterAttempts(c: Config, n: string, k: nat): Worker
    requires n in c.retryMax
  {
    if k == 0 then Trying(0)
    else
      match AfterAttempts(c, n, k - 1)
      case Trying(attempt) => AfterAttempt(c, n, attempt)
      case w => w
  }

  /** The retry loop of the goroutine: it passes exactly when some attempt up to the last allowed one does, and takes
      the Attempt steps of the transition system. */
  method RetryLoop(c: Config, n: string) returns (passed: bool)
    requires n in c.retryMax
    ensures passed == Outcome(c, n)
    ensures exists k: nat :: AfterAttempts(c, n, k) == Reporting(passed)
  {
    var maxAttempts := c.retryMax[n];
    if maxAttempts < 0 {
      maxAttempts := 0;
    }
    passed := true;
    var attempt := 0;
    while attempt <= maxAttempts
      invariant 0 <= attempt <= maxAttempts + 1
      invariant forall k: nat :: k < attempt ==> !c.reply(n, k)
      invariant attempt > 0 ==> !passed
      invariant AfterAttempts(c, n, attempt) == if attempt <= maxAttempts then Trying(attempt) else Reporting(false)
    {
      if c.reply(n, attempt) {
        assert AfterAttempts(c, n, attempt + 1) == Reporting(true);
        return true;
      }
      passed := false;
      attempt := attempt + 1;
    }
    assert AfterAttempts(c, n, attempt) == Reporting(false);
  }

  // ---- what every reachable state satisfies ----

  predicate Started(s: StepStatus) {
    s == Running || s == Passed || s == Failed
  }

  /** Statuses agree with the dependencies: a started step has only passed dependencies, a skipped one has a
      failed or skipped dependency, a pending one has none. */
  ghost predicate Consistent(g: Graph, st: Statuses)
    requires Over(g, st)
  {
    && (forall n :: n in g && Started(st[n]) ==> AllPassed(g[n], st))
    && (forall n :: n in g && st[n] == Skipped ==> AnyDown(g[n], st))
    && (forall n :: n in g && st[n] == Pending ==> !AnyDown(g[n], st))
  }

  ghost predicate Verdicts(c: Config, st: Statuses)
    requires WellFormed(c) && Over(c.g, st)
  {
    && (forall n :: n in c.g && st[n] == Passed ==> Outcome(c, n))
    && (forall n :: n in c.g && st[n] == Failed ==> !Outcome(c, n))
  }

  /** Exactly the running steps are marked running, and a step was launched once if it ever started. */
  ghost predicate Marked(g: Graph, st: Statuses, running: set<string>, launches: map<string, nat>)
    requires Over(g, st) && launches.Keys == g.Keys
  {
    && running == (set n | n in g && st[n] == Running)
    && forall n :: n in g ==> launches[n] == if Started(st[n]) then 1 else 0
  }

  ghost function Senders(channel: seq<Message>): seq<string> {
    seq(|channel|, i requires 0 <= i < |channel| => channel[i].step)
  }

  /** Each running step is either a goroutine or one message, never both. */
  ghost predicate InFlight(running: set<string>, workers: map<string, Worker>, channel: seq<Message>) {
    && NoDup(Senders(channel))
    && Elements(Senders(channel)) !! workers.Keys
    && Elements(Senders(channel)) + workers.Keys == running
  }

  ghost predicate Honest(c: Config, n: string, w: Worker) {
    && n in c.retryMax
    && match w
       case Trying(k) => k <= LastAttempt(c, n) && forall j: nat :: j < k ==> !c.reply(n, j)
       case Reporting(passed) => passed == Outcome(c, n)
  }

  ghost predicate HonestWorkers(c: Config, workers: map<string, Worker>) {
    forall n :: n in workers ==> Honest(c, n, workers[n])
  }

  ghost predicate HonestMessages(c: Config, channel: seq<Message>) {
    forall i :: 0 <= i < |channel| ==> Honest(c, channel[i].step, Reporting(channel[i].passed))
  }

  /** While the driver waits, something is running and nothing is left to launch. */
  ghost predicate Parked(g: Graph, st: Statuses, running: set<string>, pc: Control)
    requires Over(g, st)
  {
    && (pc == Waiting ==> running != {} && forall n :: n in g ==> !ReadyStep(g, st, n))
    && (pc == Finished ==> AllDone(st))
  }

  ghost predicate StatusInv(c: Config, s: State) {
    && WellFormed(c) && Over(c.g, s.st) && s.launches.Keys == c.g.Keys
    && Consistent(c.g, s.st) && Verdicts(c, s.st)
    && Marked(c.g, s.st, s.running, s.launches)
    && Parked(c.g, s.st, s.running, s.pc)
  }

  ghost predicate FlightInv(c: Config, s: State) {
    && InFlight(s.running, s.workers, s.channel)
    && HonestWorkers(c, s.workers) && HonestMessages(c, s.channel)
  }

  ghost predicate Inv(c: Config, s: State) {
    StatusInv(c, s) && FlightInv(c, s)
  }

  lemma InitInv(c: Config, s: State)
    requires Init(c, s)
    ensures Inv(c, s)
  {
    forall n | n in c.g ensures !AnyDown(c.g[n], s.st) {
      AnyDownMeans(c.g[n], s.st);
    }
  }

  lemma AttemptHonest(c: Config, n: string, k: nat)
    requires Honest(c, n, Trying(k))
    ensures Honest(c, n, AfterAttempt(c, n, k))
  {
    if !c.reply(n, k) {
      assert forall j: nat :: j < k + 1 ==> !c.reply(n, j);
    }
  }

  lemma AttemptInv(c: Config, s: State, n: string, s': State)
    requires Inv(c, s) && Next(c, s, Attempt(n), s')
    ensures Inv(c, s')
  {
    AttemptHonest(c, n, s.workers[n].attempt);
    assert s'.workers.Keys == s.workers.Keys;
  }

  lemma ReportFlight(c: Config, running: set<string>, workers: map<string, Worker>, channel: seq<Message>, m: Message)
    requires InFlight(running, workers, channel) && HonestWorkers(c, workers) && HonestMessages(c, channel)
    requires m.step in workers && workers[m.step] == Reporting(m.passed)
    ensures InFlight(running, workers - {m.step}, channel + [m])
    ensures HonestWorkers(c, workers - {m.step}) && HonestMessages(c, channel + [m])
  {
    assert Senders(channel + [m]) == Senders(channel) + [m.step];
    assert Elements(Senders(channel) + [m.step]) == Elements(Senders(channel)) + {m.step};
  }

  lemma ReportInv(c: Config, s: State, n: string, s': State)
    requires Inv(c, s) && Next(c, s, Report(n), s')
    ensures Inv(c, s')
  {
    ReportFlight(c, s.running, s.workers, s.channel, Message(n, s.workers[n].passed));
  }

  // ---- launching ----

  /** In a consistent state that is not done, something is running or ready: the driver never deadlocks. */
  lemma {:induction false} SomethingToDo(g: Graph, order: seq<string>, st: Statuses, k: nat) returns (n: string)
    requires Over(g, st) && TopoOrder(g, order) && Consistent(g, st) && !AllDone(st)
    requires k <= |order| && forall i :: 0 <= i < k ==> st[order[i]] != Pending && st[order[i]] != Running
    ensures n in g && (st[n] == Running || ReadyStep(g, st, n))
    decreases |order| - k
  {
    if k == |order| {
      forall m | m in g ensures st[m] != Pending && st[m] != Running {
        assert m in Elements(order);
      }
      assert false;
    } else {
      n := order[k];
      assert n in Elements(order);
      if st[n] == Pending {
        AllPassedMeans(g[n], st);
        AnyDownMeans(g[n], st);
        forall d | d in g[n] ensures st[d] == Passed {
          assert d in order[..k];
        }
      } else if st[n] != Running {
        n := SomethingToDo(g, order, st, k + 1);
      }
    }
  }

  /** Marking pending steps running disturbs no passed and no failed or skipped step. */
  lemma {:induction false} LaunchKeeps(ds: seq<string>, st: Statuses, st': Statuses)
    requires Covers(ds, st) && Covers(ds, st')
    requires forall d :: d in ds ==> st'[d] == st[d] || (st[d] == Pending && st'[d] == Running)
    ensures AllPassed(ds, st) == AllPassed(ds, st') && AnyDown(ds, st) == AnyDown(ds, st')
  {
    if ds != [] {
      LaunchKeeps(ds[1..], st, st');
    }
  }

  lemma LaunchStatuses(g: Graph, order: seq<string>, st: Statuses, launched: set<string>)
    requires Over(g, st) && TopoOrder(g, order) && Consistent(g, st) && !AllDone(st)
    requires launched == (set n | n in g && ReadyStep(g, st, n))
    ensures Over(g, MarkRunning(st, launched)) && Consistent(g, MarkRunning(st, launched))
    ensures forall n :: n in g ==> !ReadyStep(g, MarkRunning(st, launched), n)
    ensures exists n :: n in g && MarkRunning(st, launched)[n] == Running
  {
    var st' := MarkRunning(st, launched);
    forall n | n in g
      ensures AllPassed(g[n], st) == AllPassed(g[n], st') && AnyDown(g[n], st) == AnyDown(g[n], st')
    {
      LaunchKeeps(g[n], st, st');
    }
    var n := SomethingToDo(g, order, st, 0);
    assert st'[n] == Running;
  }

  lemma LaunchFlight(c: Config, running: set<string>, workers: map<string, Worker>, channel: seq<Message>, launched: set<string>)
    requires InFlight(running, workers, channel) && HonestWorkers(c, workers)
    requires launched !! running && launched <= c.retryMax.Keys
    ensures var workers' := workers + (map n | n in launched :: Trying(0));
            InFlight(running + launched, workers', channel) && HonestWorkers(c, workers')
  {
    var workers' := workers + (map n | n in launched :: Trying(0));
    assert workers'.Keys == workers.Keys + launched;
    forall n | n in workers' ensures Honest(c, n, workers'[n]) {
      if n !in launched {
        assert Honest(c, n, workers[n]);
      }
    }
  }

  lemma LaunchMarks(c: Config, s: State, s': State)
    requires WellFormed(c) && Over(c.g, s.st) && s.launches.Keys == c.g.Keys && !AllDone(s.st)
    requires Verdicts(c, s.st) && Marked(c.g, s.st, s.running, s.launches)
    requires s' == LoopStep(c, s)
    ensures Over(c.g, s'.st) && Verdicts(c, s'.st) && Marked(c.g, s'.st, s'.running, s'.launches)
  {
  }

  lemma LoopStatus(c: Config, s: State, s': State)
    requires StatusInv(c, s) && Next(c, s, Loop, s')
    ensures StatusInv(c, s')
  {
    if !AllDone(s.st) {
      LaunchConsistent(c, s, s');
      LaunchMarks(c, s, s');
      LaunchParks(c, s, s');
    }
  }

  lemma LaunchConsistent(c: Config, s: State, s': State)
    requires WellFormed(c) && Over(c.g, s.st) && !AllDone(s.st) && s.launches.Keys == c.g.Keys
    requires Consistent(c.g, s.st) && Marked(c.g, s.st, s.running, s.launches) && s' == LoopStep(c, s)
    ensures Over(c.g, s'.st) && Consistent(c.g, s'.st)
    ensures forall n :: n in c.g ==> !ReadyStep(c.g, s'.st, n)
    ensures exists n :: n in c.g && s'.st[n] == Running
  {
    var launched := Launched(c, s);
    assert launched == set n | n in c.g && ReadyStep(c.g, s.st, n);
    LaunchStatuses(c.g, c.order, s.st, launched);
  }

  lemma LaunchParks(c: Config, s: State, s': State)
    requires WellFormed(c) && Over(c.g, s.st) && !AllDone(s.st) && s.launches.Keys == c.g.Keys
    requires s' == LoopStep(c, s) && Over(c.g, s'.st) && Marked(c.g, s'.st, s'.running, s'.launches)
    requires forall n :: n in c.g ==> !ReadyStep(c.g, s'.st, n)
    requires exists n :: n in c.g && s'.st[n] == Running
    ensures Parked(c.g, s'.st, s'.running, s'.pc)
  {
    var n :| n in c.g && s'.st[n] == Running;
    assert n in s'.running;
  }

  lemma LoopInv(c: Config, s: State, s': State)
    requires Inv(c, s) && Next(c, s, Loop, s')
    ensures Inv(c, s')
  {
    LoopStatus(c, s, s');
    if !AllDone(s.st) {
      LaunchFlight(c, s.running, s.workers, s.channel, Launched(c, s));
    }
  }

  // ---- receiving a result ----

  lemma {:induction false} AllPassedMono(ds: seq<string>, st: Statuses, st': Statuses)
    requires Covers(ds, st) && Covers(ds, st') && AllPassed(ds, st)
    requires forall d :: d in ds && st[d] == Passed ==> st'[d] == Passed
    ensures AllPassed(ds, st')
  {
    if ds != [] {
      AllPassedMono(ds[1..], st, st');
    }
  }

  lemma {:induction false} AnyDownMono(ds: seq<string>, st: Statuses, st': Statuses)
    requires Covers(ds, st) && Covers(ds, st') && AnyDown(ds, st)
    requires forall d :: d in ds && Down(st[d]) ==> Down(st'[d])
    ensures AnyDown(ds, st')
  {
    if !Down(st[ds[0]]) {
      AnyDownMono(ds[1..], st, st');
    }
  }

  /** Only the reported step and pending steps change, and pending steps only to skipped. */
  ghost predicate Advanced(g: Graph, st: Statuses, n: string, outcome: StepStatus, st': Statuses)
    requires Over(g, st)
  {
    && Over(g, st') && n in g
    && st'[n] == outcome
    && forall m :: m in g && m != n ==> st'[m] == st[m] || (st[m] == Pending && st'[m] == Skipped)
  }

  lemma AdvancePassed(g: Graph, st: Statuses, n: string)
    requires Over(g, st) && Consistent(g, st) && n in g && st[n] == Running
    ensures Over(g, st[n := Passed]) && Consistent(g, st[n := Passed])
  {
    var st' := st[n := Passed];
    forall m | m in g && Started(st'[m]) ensures AllPassed(g[m], st') {
      AllPassedMono(g[m], st, st');
    }
    forall m | m in g && st'[m] == Skipped ensures AnyDown(g[m], st') {
      AnyDownMono(g[m], st, st');
    }
    forall m | m in g && st'[m] == Pending ensures !AnyDown(g[m], st') {
      if AnyDown(g[m], st') {
        AnyDownMono(g[m], st', st);
      }
    }
  }

  lemma AdvanceFailed(g: Graph, st: Statuses, n: string, fin: Statuses)
    requires Over(g, st) && Consistent(g, st) && n in g && st[n] == Running
    requires SkipFixpoint(g, st[n := Failed], fin)
    ensures Consistent(g, fin) && Advanced(g, st, n, Failed, fin)
  {
    forall m | m in g && Started(fin[m]) ensures AllPassed(g[m], fin) {
      AllPassedMono(g[m], st, fin);
    }
    forall m | m in g && fin[m] == Skipped ensures AnyDown(g[m], fin) {
      if st[m] == Skipped {
        AnyDownMono(g[m], st, fin);
      }
    }
  }

  /** Advance keeps the statuses consistent; in particular after every Advance no pending step has a failed
      or skipped dependency. */
  lemma AdvanceConsistent(g: Graph, order: seq<string>, st: Statuses, n: string, passed: bool)
    requires Over(g, st) && TopoOrder(g, order) && Consistent(g, st) && n in g && st[n] == Running
    ensures Consistent(g, AdvanceTo(g, order, st, n, Verdict(passed)))
    ensures Advanced(g, st, n, Verdict(passed), AdvanceTo(g, order, st, n, Verdict(passed)))
  {
    if passed {
      AdvancePassed(g, st, n);
    } else {
      PropagateSkipExact(g, order, st[n := Failed]);
      AdvanceFailed(g, st, n, AdvanceTo(g, order, st, n, Failed));
    }
  }

  /** A failed or skipped step that n depends on, directly or not. */
  ghost predicate LostAncestor(g: Graph, st: Statuses, p: seq<string>)
    requires Over(g, st)
  {
    |p| >= 2 && Path(g, p) && p[|p| - 1] in g && Down(st[p[|p| - 1]])
  }

  lemma {:induction false} DoomPathIsPath(g: Graph, st: Statuses, p: seq<string>)
    requires Over(g, st) && DoomPath(g, st, p)
    ensures LostAncestor(g, st, p)
  {
    if |p| > 2 {
      DoomPathIsPath(g, st, p[1..]);
    }
  }

  lemma {:induction false} PassedUpstream(g: Graph, st: Statuses, p: seq<string>)
    requires Over(g, st) && forall n :: n in g && Started(st[n]) ==> AllPassed(g[n], st)
    requires |p| >= 2 && Path(g, p) && Started(st[p[0]])
    ensures p[|p| - 1] in g && st[p[|p| - 1]] == Passed
  {
    AllPassedMeans(g[p[0]], st);
    if |p| > 2 {
      PassedUpstream(g, st, p[1..]);
    }
  }

  lemma {:induction false} LostAncestorDooms(g: Graph, st: Statuses, p: seq<string>)
    requires Over(g, st) && forall n :: n in g && Started(st[n]) ==> AllPassed(g[n], st)
    requires LostAncestor(g, st, p) && st[p[0]] == Pending
    ensures Doomed(g, st, p[0])
  {
    var d := p[1];
    if |p| > 2 && !Down(st[d]) {
      if st[d] == Pending {
        LostAncestorDooms(g, st, p[1..]);
      } else {
        PassedUpstream(g, st, p[1..]);
        assert false;
      }
    }
    DoomedBy(g, st, p[0], d);
  }

  /** Where started steps have passed dependencies, as in every reachable state, the steps that propagateSkip
      skips are exactly the pending steps with a failed or skipped ancestor, near or far. */
  lemma SkipsLostDescendants(g: Graph, order: seq<string>, st: Statuses, n: string)
    requires Over(g, st) && TopoOrder(g, order) && n in g && st[n] == Pending
    requires forall n :: n in g && Started(st[n]) ==> AllPassed(g[n], st)
    ensures SkipPass(g, order, |order|, st)[n] == Skipped <==> exists p :: LostAncestor(g, st, p) && p[0] == n
  {
    PropagateSkipExact(g, order, st);
    if Doomed(g, st, n) {
      var p :| DoomPath(g, st, p) && p[0] == n;
      DoomPathIsPath(g, st, p);
    }
    if p :| LostAncestor(g, st, p) && p[0] == n {
      LostAncestorDooms(g, st, p);
    }
  }

  /** A step that depends on another, directly or not. */
  ghost predicate DependsOn(g: Graph, n: string, d: string) {
    exists p :: |p| >= 2 && Path(g, p) && p[0] == n && p[|p| - 1] == d
  }

  /** Where the statuses are consistent, nothing that is not lost has a lost ancestor. */
  lemma {:induction false} NoneLost(g: Graph, st: Statuses, p: seq<string>)
    requires Over(g, st) && Consistent(g, st) && |p| >= 2 && Path(g, p) && !Down(st[p[0]])
    ensures p[|p| - 1] in g && !Down(st[p[|p| - 1]])
  {
    AllPassedMeans(g[p[0]], st);
    AnyDownMeans(g[p[0]], st);
    if |p| > 2 {
      NoneLost(g, st, p[1..]);
    }
  }

  lemma FailureSkipsIn(g: Graph, order: seq<string>, st: Statuses, d: string, n: string)
    requires Over(g, st) && TopoOrder(g, order) && Consistent(g, st)
    requires d in g && st[d] == Running && n in g && st[n] == Pending
    ensures SkipPass(g, order, |order|, st[d := Failed])[n] == Skipped <==> DependsOn(g, n, d)
  {
    var st' := st[d := Failed];
    FailureStarted(g, st, d);
    SkipsLostDescendants(g, order, st', n);
    if p :| LostAncestor(g, st', p) && p[0] == n {
      NoneLost(g, st, p);
      assert p[|p| - 1] == d;
    }
    if p :| |p| >= 2 && Path(g, p) && p[0] == n && p[|p| - 1] == d {
      assert LostAncestor(g, st', p);
    }
  }

  /** When a failure is received, in any reachable state, exactly the pending steps that depend on the failed step,
      directly or not, are skipped. */
  lemma FailureSkips(c: Config, s: State, s': State, n: string)
    requires Inv(c, s) && Next(c, s, Receive, s') && !s.channel[0].passed && n in c.g && s.st[n] == Pending
    ensures n in s'.st && (s'.st[n] == Skipped <==> DependsOn(c.g, n, s.channel[0].step))
  {
    ReceiveFacts(c, s, s');
    FailureSkipsIn(c.g, c.order, s.st, s.channel[0].step, n);
  }

  lemma FailureStarted(g: Graph, st: Statuses, d: string)
    requires Over(g, st) && Consistent(g, st) && d in g && st[d] == Running
    ensures forall n :: n in g && Started(st[d := Failed][n]) ==> AllPassed(g[n], st[d := Failed])
  {
    forall n | n in g && Started(st[d := Failed][n]) ensures AllPassed(g[n], st[d := Failed]) {
      AllPassedMono(g[n], st, st[d := Failed]);
    }
  }

  lemma AdvancedMarks(c: Config, st: Statuses, n: string, passed: bool, st': Statuses, running: set<string>, launches: map<string, nat>)
    requires WellFormed(c) && Over(c.g, st) && launches.Keys == c.g.Keys
    requires Advanced(c.g, st, n, Verdict(passed), st') && st[n] == Running && passed == Outcome(c, n)
    requires Verdicts(c, st) && Marked(c.g, st, running, launches)
    ensures Verdicts(c, st') && Marked(c.g, st', running - {n}, launches)
  {
    forall m | m in c.g ensures Started(st'[m]) == Started(st[m]) {
    }
  }

  lemma ReceiveFlight(c: Config, running: set<string>, workers: map<string, Worker>, channel: seq<Message>)
    requires InFlight(running, workers, channel) && HonestMessages(c, channel) && channel != []
    ensures channel[0].step in running
    ensures InFlight(running - {channel[0].step}, workers, channel[1..]) && HonestMessages(c, channel[1..])
  {
    var senders := Senders(channel);
    assert Senders(channel[1..]) == senders[1..];
    assert senders[0] == channel[0].step && senders[0] in Elements(senders);
    assert Elements(senders[1..]) == Elements(senders) - {senders[0]};
  }

  lemma ReceiveInv(c: Config, s: State, s': State)
    requires Inv(c, s) && Next(c, s, Receive, s')
    ensures Inv(c, s')
  {
    var m := s.channel[0];
    ReceiveFlight(c, s.running, s.workers, s.channel);
    assert Honest(c, m.step, Reporting(m.passed));
    AdvanceConsistent(c.g, c.order, s.st, m.step, m.passed);
    AdvancedMarks(c, s.st, m.step, m.passed, s'.st, s.running, s.launches);
  }

  lemma NextInv(c: Config, s: State, e: Event, s': State)
    requires Inv(c, s) && Next(c, s, e, s')
    ensures Inv(c, s')
  {
    match e
    case Loop => LoopInv(c, s, s');
    case Attempt(n) => AttemptInv(c, s, n, s');
    case Report(n) => ReportInv(c, s, n, s');
    case Receive => ReceiveInv(c, s, s');
    case Cancel =>
  }

  // ---- runs ----

  ghost predicate Step(c: Config, s: State, s': State) {
    && WellFormed(c) && Over(c.g, s.st) && s.launches.Keys == c.g.Keys
    && exists e :: Next(c, s, e, s')
  }

  ghost predicate IsRun(c: Config, run: seq<State>) {
    && run != []
    && if |run| == 1 then Init(c, run[0])
       else IsRun(c, run[..|run| - 1]) && Step(c, run[|run| - 2], run[|run| - 1])
  }

  lemma {:induction false} RunInv(c: Config, run: seq<State>)
    requires IsRun(c, run)
    ensures Inv(c, run[|run| - 1])
  {
    if |run| == 1 {
      InitInv(c, run[0]);
    } else {
      RunInv(c, run[..|run| - 1]);
      var s, s' := run[|run| - 2], run[|run| - 1];
      var e :| Next(c, s, e, s');
      NextInv(c, s, e, s');
    }
  }

  // ---- confluence ----

  /** The recursive meaning of a workflow: a step is skipped unless all its dependencies passed, and
      otherwise gets its own outcome. */
  ghost predicate IsEvaluation(c: Config, st: Statuses)
    requires WellFormed(c)
  {
    && Over(c.g, st)
    && forall n :: n in c.g ==>
         st[n] == if AllPassed(c.g[n], st) then Verdict(Outcome(c, n)) else Skipped
  }

  lemma FinishedIsEvaluation(c: Config, s: State)
    requires Inv(c, s) && s.pc == Finished
    ensures IsEvaluation(c, s.st)
  {
    forall n | n in c.g
      ensures s.st[n] == if AllPassed(c.g[n], s.st) then Verdict(Outcome(c, n)) else Skipped
    {
      AllPassedMeans(c.g[n], s.st);
      AnyDownMeans(c.g[n], s.st);
    }
  }

  lemma {:induction false} AllPassedAgree(ds: seq<string>, a: Statuses, b: Statuses)
    requires Covers(ds, a) && Covers(ds, b) && forall d :: d in ds ==> a[d] == b[d]
    ensures AllPassed(ds, a) == AllPassed(ds, b)
  {
    if ds != [] {
      AllPassedAgree(ds[1..], a, b);
    }
  }

  lemma {:induction false} EvaluationUnique(c: Config, a: Statuses, b: Statuses, k: nat)
    requires WellFormed(c) && IsEvaluation(c, a) && IsEvaluation(c, b) && k <= |c.order|
    ensures forall i :: 0 <= i < k ==> a[c.order[i]] == b[c.order[i]]
  {
    if k > 0 {
      EvaluationUnique(c, a, b, k - 1);
      var n := c.order[k - 1];
      assert n in Elements(c.order);
      forall d | d in c.g[n] ensures a[d] == b[d] {
        assert d in c.order[..k - 1];
      }
      AllPassedAgree(c.g[n], a, b);
    }
  }

  lemma EvaluationsEqual(c: Config, a: Statuses, b: Statuses)
    requires WellFormed(c) && IsEvaluation(c, a) && IsEvaluation(c, b)
    ensures a == b
  {
    EvaluationUnique(c, a, b, |c.order|);
    forall n | n in c.g ensures a[n] == b[n] {
      assert n in Elements(c.order);
    }
  }

  lemma OrderIrrelevant(c: Config, order': seq<string>, st: Statuses)
    requires WellFormed(c) && WellFormed(c.(order := order')) && IsEvaluation(c.(order := order'), st)
    ensures IsEvaluation(c, st)
  {
    forall n | n in c.g ensures Outcome(c, n) == Outcome(c.(order := order'), n) {}
  }

  lemma FinishedRun(c: Config, run: seq<State>)
    requires IsRun(c, run) && run[|run| - 1].pc == Finished
    ensures WellFormed(c) && IsEvaluation(c, run[|run| - 1].st)
  {
    RunInv(c, run);
    FinishedIsEvaluation(c, run[|run| - 1]);
  }

  /** Confluence: whatever the interleaving of launches, attempts, reports and receipts, and whatever
      topological order was chosen, a finished run ends with the one evaluation of the graph. */
  lemma Confluence(c: Config, order': seq<string>, run: seq<State>, run': seq<State>)
    requires IsRun(c, run) && run[|run| - 1].pc == Finished
    requires IsRun(c.(order := order'), run') && run'[|run'| - 1].pc == Finished
    ensures WellFormed(c) && IsEvaluation(c, run[|run| - 1].st)
    ensures run[|run| - 1].st == run'[|run'| - 1].st
  {
    FinishedRun(c, run);
    FinishedRun(c.(order := order'), run');
    OrderIrrelevant(c, order', run'[|run'| - 1].st);
    EvaluationsEqual(c, run[|run| - 1].st, run'[|run'| - 1].st);
  }

  lemma AllOutcomesPass(c: Config, st: Statuses)
    requires WellFormed(c) && IsEvaluation(c, st) && forall n :: n in c.g ==> Outcome(c, n)
    ensures st == map n | n in c.g :: Passed
  {
    var passed: Statuses := map n | n in c.g :: Passed;
    forall n | n in c.g ensures AllPassed(c.g[n], passed) {
      AllPassedMeans(c.g[n], passed);
    }
    EvaluationsEqual(c, st, passed);
  }

  lemma NothingLostIff(c: Config, st: Statuses)
    requires WellFormed(c) && IsEvaluation(c, st)
    ensures (forall n :: n in c.g ==> !Down(st[n])) <==> (forall n :: n in c.g ==> Outcome(c, n))
  {
    if forall n :: n in c.g ==> Outcome(c, n) {
      AllOutcomesPass(c, st);
    }
  }

  /** runWorkflow returns no error exactly when every step has a passing attempt. */
  lemma ReturnsNilIff(c: Config, run: seq<State>)
    requires IsRun(c, run) && run[|run| - 1].pc == Finished
    ensures WellFormed(c)
    ensures var st := run[|run| - 1].st;
            !(|With(st, Failed)| > 0 || |With(st, Skipped)| > 0) <==> forall n :: n in c.g ==> Outcome(c, n)
  {
    FinishedRun(c, run);
    var st := run[|run| - 1].st;
    NothingLostIff(c, st);
    if |With(st, Failed)| == 0 && |With(st, Skipped)| == 0 {
      forall n | n in c.g ensures !Down(st[n]) {
        assert n !in With(st, Failed) && n !in With(st, Skipped);
      }
    }
  }

  // ---- progress ----

  /** Each step is launched at most once, and exactly once if it ever started. */
  lemma LaunchedOnce(c: Config, run: seq<State>, n: string)
    requires IsRun(c, run) && n in c.g
    ensures var s := run[|run| - 1];
            n in s.launches && n in s.st && s.launches[n] <= 1 && (s.launches[n] == 1 <==> Started(s.st[n]))
  {
    RunInv(c, run);
  }

  /** A goroutine that has its result never blocks on the channel. */
  lemma ChannelHasRoom(c: Config, s: State, n: string)
    requires Inv(c, s) && n in s.workers
    ensures |s.channel| < |c.g|
  {
    var senders := Senders(s.channel);
    NoDupFits(senders, c.g.Keys - {n});
  }

  /** Without any cancellation the driver can always move until it is finished. */
  lemma NeverStuck(c: Config, s: State) returns (e: Event, s': State)
    requires Inv(c, s) && (s.pc == Top || s.pc == Waiting)
    ensures e != Cancel && Next(c, s, e, s') && s'.pc != Cancelled
  {
    if s.pc == Top {
      e, s' := Loop, LoopStep(c, s);
    } else if s.channel != [] {
      ReceiveFlight(c, s.running, s.workers, s.channel);
      e, s' := Receive, Received(c, s);
    } else {
      assert Elements(Senders(s.channel)) == {};
      var n :| n in s.running;
      assert n in s.workers;
      if s.workers[n].Trying? {
        e, s' := Attempt(n), s.(workers := s.workers[n := AfterAttempt(c, n, s.workers[n].attempt)]);
      } else {
        ChannelHasRoom(c, s, n);
        e := Report(n);
        s' := s.(workers := s.workers - {n}, channel := s.channel + [Message(n, s.workers[n].passed)]);
      }
    }
  }

  /** IsBlocked: not done and nothing ready. Its documentation adds that nothing is running, which no
      reachable state satisfies: a blocked workflow always has a step running. */
  lemma BlockedMeansRunning(c: Config, s: State)
    requires Inv(c, s) && !AllDone(s.st) && forall n :: n in c.g ==> !ReadyStep(c.g, s.st, n)
    ensures s.running != {}
  {
    var n := SomethingToDo(c.g, c.order, s.st, 0);
    assert n in s.running;
  }

  // ---- termination ----

  /** What is still to be done for a step, at most. */
  ghost function Effort(c: Config, s: State, n: string): nat
    requires n in c.retryMax && n in s.st
  {
    match s.st[n]
    case Pending => LastAttempt(c, n) + 5
    case Running =>
      if n !in s.workers then 2
      else (match s.workers[n]
            case Trying(k) => if k <= LastAttempt(c, n) then LastAttempt(c, n) - k + 4 else 4
            case Reporting(_) => 3)
    case _ => 0
  }

  ghost function ControlEffort(pc: Control): nat {
    match pc case Top => 2 case Waiting => 1 case Finished => 0 case Cancelled => 0
  }

  ghost function TotalEffort(c: Config, s: State, order: seq<string>): nat
    requires forall n :: n in order ==> n in c.retryMax && n in s.st
  {
    if order == [] then ControlEffort(s.pc)
    else Effort(c, s, order[0]) + TotalEffort(c, s, order[1..])
  }

  /** If no step's effort grows and the control effort grows by less than one step's effort shrinks, the
      total shrinks. */
  lemma {:induction false} TotalShrinks(c: Config, s: State, s': State, order: seq<string>, n: string, drop: nat)
    requires forall m :: m in order ==> m in c.retryMax && m in s.st && m in s'.st
    requires forall m :: m in order ==> Effort(c, s', m) <= Effort(c, s, m)
    requires n in order ==> Effort(c, s', n) + drop <= Effort(c, s, n)
    ensures TotalEffort(c, s', order) + (if n in order then drop else 0) + ControlEffort(s.pc)
            <= TotalEffort(c, s, order) + ControlEffort(s'.pc)
  {
    if order != [] {
      TotalShrinks(c, s, s', order[1..], n, if order[0] == n then 0 else drop);
      assert n in order <==> order[0] == n || n in order[1..];
    }
  }

  ghost predicate Sized(c: Config, s: State) {
    WellFormed(c) && s.st.Keys == c.g.Keys
  }

  ghost function Remaining(c: Config, s: State): nat
    requires Sized(c, s)
  {
    assert forall n :: n in c.order ==> n in Elements(c.order);
    TotalEffort(c, s, c.order)
  }

  lemma Shrinks(c: Config, s: State, s': State, n: string, drop: nat)
    requires Sized(c, s) && Sized(c, s') && n in c.g
    requires forall m :: m in c.g ==> Effort(c, s', m) <= Effort(c, s, m)
    requires Effort(c, s', n) + drop <= Effort(c, s, n)
    requires ControlEffort(s'.pc) < ControlEffort(s.pc) + drop
    ensures Remaining(c, s') < Remaining(c, s)
  {
    assert forall m :: m in c.order <==> m in Elements(c.order);
    TotalShrinks(c, s, s', c.order, n, drop);
  }

  lemma ReceiveFacts(c: Config, s: State, s': State)
    requires Inv(c, s) && Next(c, s, Receive, s')
    ensures var n := s.channel[0].step; n !in s.workers && n in c.g && s.st[n] == Running
    ensures Advanced(c.g, s.st, s.channel[0].step, Verdict(s.channel[0].passed), s'.st)
  {
    var m := s.channel[0];
    ReceiveFlight(c, s.running, s.workers, s.channel);
    assert Senders(s.channel)[0] in Elements(Senders(s.channel));
    AdvanceConsistent(c.g, c.order, s.st, m.step, m.passed);
  }

  lemma ReceiveShrinks(c: Config, s: State, s': State, n: string, passed: bool)
    requires Sized(c, s) && Over(c.g, s.st) && Advanced(c.g, s.st, n, Verdict(passed), s'.st)
    requires s'.workers == s.workers && n !in s.workers && s.st[n] == Running
    requires s.pc == Waiting && s'.pc == Top
    ensures Remaining(c, s') < Remaining(c, s)
  {
    Shrinks(c, s, s', n, 2);
  }

  lemma LaunchEffort(c: Config, s: State, s': State, m: string)
    requires Sized(c, s) && Over(c.g, s.st) && s.launches.Keys == c.g.Keys && s' == LoopStep(c, s) && m in c.g
    ensures m in s'.st && Effort(c, s', m) <= Effort(c, s, m)
  {
  }

  lemma LoopShrinks(c: Config, s: State, s': State)
    requires Sized(c, s) && Over(c.g, s.st) && s.launches.Keys == c.g.Keys && Next(c, s, Loop, s')
    ensures Sized(c, s') && Remaining(c, s') < Remaining(c, s)
  {
    forall m | m in c.g ensures m in s'.st && Effort(c, s', m) <= Effort(c, s, m) {
      LaunchEffort(c, s, s', m);
    }
    assert s'.st.Keys == s.st.Keys;
    PcShrinks(c, s, s');
  }

  /** Only the control effort shrinks. */
  lemma PcShrinks(c: Config, s: State, s': State)
    requires Sized(c, s) && Sized(c, s') && ControlEffort(s'.pc) < ControlEffort(s.pc)
    requires forall m :: m in c.g ==> Effort(c, s', m) <= Effort(c, s, m)
    ensures Remaining(c, s') < Remaining(c, s)
  {
    if c.g.Keys == {} {
      assert forall n :: n in c.order ==> n in Elements(c.order);
    } else {
      var n :| n in c.g.Keys;
      Shrinks(c, s, s', n, 0);
    }
  }

  lemma WorkerShrinks(c: Config, s: State, s': State, n: string)
    requires Sized(c, s) && s'.st == s.st && s'.pc == s.pc && n in c.g && s.st[n] == Running
    requires n in s.workers && forall m :: m != n ==> (m in s.workers <==> m in s'.workers)
    requires forall m :: m != n && m in s.workers ==> s.workers[m] == s'.workers[m]
    requires Effort(c, s', n) < Effort(c, s, n)
    ensures Sized(c, s') && Remaining(c, s') < Remaining(c, s)
  {
    Shrinks(c, s, s', n, 1);
  }

  lemma WorkerFacts(c: Config, s: State, n: string)
    requires Inv(c, s) && n in s.workers
    ensures Sized(c, s) && n in c.g && s.st[n] == Running && Honest(c, n, s.workers[n])
  {
  }

  lemma AttemptShrinks(c: Config, s: State, n: string, s': State)
    requires Sized(c, s) && n in s.workers && n in c.g && s.st[n] == Running && Honest(c, n, s.workers[n])
    requires s.workers[n].Trying?
    requires s' == s.(workers := s.workers[n := AfterAttempt(c, n, s.workers[n].attempt)])
    ensures Sized(c, s') && Remaining(c, s') < Remaining(c, s)
  {
    WorkerShrinks(c, s, s', n);
  }

  lemma ReportShrinks(c: Config, s: State, n: string, s': State)
    requires Sized(c, s) && n in s.workers && n in c.g && s.st[n] == Running && s.workers[n].Reporting?
    requires s'.workers == s.workers - {n} && s'.st == s.st && s'.pc == s.pc
    ensures Sized(c, s') && Remaining(c, s') < Remaining(c, s)
  {
    WorkerShrinks(c, s, s', n);
  }

  lemma ReceiveStepShrinks(c: Config, s: State, s': State)
    requires Inv(c, s) && Next(c, s, Receive, s')
    ensures Sized(c, s') && Remaining(c, s') < Remaining(c, s)
  {
    ReceiveFacts(c, s, s');
    ReceiveShrinks(c, s, s', s.channel[0].step, s.channel[0].passed);
  }

  lemma CancelShrinks(c: Config, s: State, s': State)
    requires Sized(c, s) && s.pc == Waiting && s' == s.(pc := Cancelled)
    ensures Sized(c, s') && Remaining(c, s') < Remaining(c, s)
  {
    PcShrinks(c, s, s');
  }

  /** Every step of driver, goroutines and channel leaves strictly less to do. */
  lemma StepShrinks(c: Config, s: State, e: Event, s': State)
    requires Inv(c, s) && Next(c, s, e, s')
    ensures Sized(c, s') && Remaining(c, s') < Remaining(c, s)
  {
    match e
    case Loop => LoopShrinks(c, s, s');
    case Attempt(n) => WorkerFacts(c, s, n); AttemptShrinks(c, s, n, s');
    case Report(n) => WorkerFacts(c, s, n); ReportShrinks(c, s, n, s');
    case Receive => ReceiveStepShrinks(c, s, s');
    case Cancel => CancelShrinks(c, s, s');
  }

  /** Every run ends: it has at most as many steps as the initial state has work. */
  lemma {:induction false} RunBounded(c: Config, run: seq<State>)
    requires IsRun(c, run)
    ensures Sized(c, run[0]) && Sized(c, run[|run| - 1])
    ensures |run| - 1 + Remaining(c, run[|run| - 1]) <= Remaining(c, run[0])
  {
    if |run| > 1 {
      var front := run[..|run| - 1];
      RunBounded(c, front);
      RunInv(c, front);
      var s, s' := run[|run| - 2], run[|run| - 1];
      var e :| Next(c, s, e, s');
      StepShrinks(c, s, e, s');
    }
  }

  // ---- every run can be finished ----

  ghost function Work(c: Config, s: State): nat {
    if Sized(c, s) then Remaining(c, s) else 0
  }

  lemma Extends(c: Config, run: seq<State>, e: Event, s': State)
    requires IsRun(c, run) && Inv(c, run[|run| - 1]) && Next(c, run[|run| - 1], e, s')
    ensures IsRun(c, run + [s'])
  {
    assert (run + [s'])[..|run|] == run;
  }

  lemma OneMore(c: Config, run: seq<State>, s: State) returns (run': seq<State>, s': State)
    requires IsRun(c, run) && s == run[|run| - 1] && (s.pc == Top || s.pc == Waiting)
    ensures IsRun(c, run') && run <= run' && s' == run'[|run'| - 1]
    ensures s'.pc != Cancelled && Work(c, s') < Work(c, s)
  {
    RunInv(c, run);
    var e;
    e, s' := NeverStuck(c, s);
    StepShrinks(c, s, e, s');
    Extends(c, run, e, s');
    run' := run + [s'];
  }

  /** From every state of every run in which the driver has not returned, some continuation without cancellation
      finishes the workflow. */
  lemma EveryRunFinishes(c: Config, run: seq<State>) returns (run': seq<State>)
    requires IsRun(c, run) && (run[|run| - 1].pc == Top || run[|run| - 1].pc == Waiting)
    ensures IsRun(c, run') && run <= run' && run'[|run'| - 1].pc == Finished
  {
    run' := run;
    var s := run[|run| - 1];
    while s.pc != Finished
      invariant run' != [] && IsRun(c, run') && run <= run' && s == run'[|run'| - 1] && s.pc != Cancelled
      decreases Work(c, s)
    {
      run', s := OneMore(c, run', s);
    }
  }

  /** So every workflow has its evaluation. */
  lemma EvaluationExists(c: Config) returns (st: Statuses)
    requires WellFormed(c)
    ensures IsEvaluation(c, st)
  {
    var s := State(map n | n in c.g :: Pending, map n | n in c.g :: 0, {}, map[], [], Top);
    var run := EveryRunFinishes(c, [s]);
    FinishedRun(c, run);
    st := run[|run| - 1].st;
  }
}
