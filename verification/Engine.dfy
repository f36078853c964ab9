/** Scheduler, resource allocator and the life of a test run, from scheduler.go, allocator.go and
executeTestRun in execution_engine.go, as one transition system: a single worker, any number of concurrent
submitters and finishing runs, and a wake-up channel with one slot. */
module Engine {
  import opened DepGraph

  type Run = string

  /** The limits, and the allocation every VM asks for. */
  datatype Config = Config(maxConcurrent: int, totalCpus: int, totalMem: int, cpus: int, mem: int)

  /** Where an executing run is between its dispatch and the end of executeTestRun. Closing is after the VM is
      gone, or was never created, with the allocation still held. */
  datatype Phase = Started | Acquired | VmCreated | VmStarted | Closing

  /** Checking: the worker is about to enter the critical section of Next. Parked: it has left it empty-handed
      and receives from the channel. */
  datatype Worker = Checking | Parked

  /** senders counts the callers of Enqueue and Release between unlocking and sending; returning counts the
      goroutines that have left executeTestRun but not yet released their slot. */
  datatype State = State(
    queue: seq<Run>, active: int, token: bool, senders: nat, worker: Worker,
    phase: map<Run, Phase>, returning: nat, sleeping: set<Run>, finished: set<Run>, submitted: set<Run>,
    usedCpus: int, usedMem: int, vms: set<Run>,
    enqueued: seq<Run>, dispatched: seq<Run>)

  datatype Event =
    | Submit(r: Run) | Wake(r: Run) | Signal | Check | Receive | Release
    | Exit(r: Run) | TryAcquire(r: Run) | CreateVm(r: Run, ok: bool) | StartVm(r: Run, ok: bool)
    | Teardown(r: Run) | Close(r: Run)

  // ---- atomic operations ----

  /** The critical section of Enqueue; the caller has yet to signal. */
  function Enqueued(s: State, r: Run): State {
    s.(queue := s.queue + [r], enqueued := s.enqueued + [r], senders := s.senders + 1)
  }

  predicate CanDispatch(c: Config, s: State) {
    s.active < c.maxConcurrent && |s.queue| > 0
  }

  /** The critical section of Next: take the first run if a slot is free. */
  function Checked(c: Config, s: State): State {
    if CanDispatch(c, s) then
      s.(queue := s.queue[1..], active := s.active + 1, dispatched := s.dispatched + [s.queue[0]],
         phase := s.phase[s.queue[0] := Started])
    else s.(worker := Parked)
  }

  /** The critical section of Release, with its guard against underflow. */
  function Released(s: State): State
    requires s.returning > 0
  {
    s.(active := if s.active > 0 then s.active - 1 else s.active,
       returning := s.returning - 1, senders := s.senders + 1)
  }

  predicate Fits(c: Config, usedCpus: int, usedMem: int) {
    c.cpus >= 0 && c.mem >= 0 && usedCpus + c.cpus <= c.totalCpus && usedMem + c.mem <= c.totalMem
  }

  /** Subtraction clamped at zero, as in the allocator's Release. */
  function Clamped(used: int, amount: int): int {
    if used - amount < 0 then 0 else used - amount
  }

  /** executeTestRun returns: the run goes where it goes, the slot is still held. */
  function Returned(s: State, r: Run): State {
    s.(phase := s.phase - {r}, returning := s.returning + 1)
  }

  ghost predicate In(s: State, r: Run, p: Phase) {
    r in s.phase && s.phase[r] == p
  }

  ghost predicate Next(c: Config, s: State, e: Event, s': State) {
    match e
    case Submit(r) => r !in s.submitted && s' == Enqueued(s, r).(submitted := s.submitted + {r})
    case Wake(r) => r in s.sleeping && s' == Enqueued(s, r).(sleeping := s.sleeping - {r})
    case Signal => s.senders > 0 && s' == s.(senders := s.senders - 1, token := true)
    case Check => s.worker == Checking && s' == Checked(c, s)
    case Receive => s.worker == Parked && s.token && s' == s.(token := false, worker := Checking)
    case Release => s.returning > 0 && s' == Released(s)
    // store failure, unknown device, non-QEMU device, unloadable suite
    case Exit(r) => In(s, r, Started) && s' == Returned(s, r).(finished := s.finished + {r})
    case TryAcquire(r) =>
      && In(s, r, Started)
      && s' == if Fits(c, s.usedCpus, s.usedMem)
               then s.(phase := s.phase[r := Acquired], usedCpus := s.usedCpus + c.cpus, usedMem := s.usedMem + c.mem)
               else Returned(s, r).(sleeping := s.sleeping + {r})
    case CreateVm(r, ok) =>
      && In(s, r, Acquired)
      && s' == if ok then s.(phase := s.phase[r := VmCreated], vms := s.vms + {r}) else s.(phase := s.phase[r := Closing])
    case StartVm(r, ok) =>
      && In(s, r, VmCreated)
      && s' == if ok then s.(phase := s.phase[r := VmStarted])
               else s.(phase := s.phase[r := Closing], vms := s.vms - {r})
    case Teardown(r) => In(s, r, VmStarted) && s' == s.(phase := s.phase[r := Closing], vms := s.vms - {r})
    case Close(r) =>
      && In(s, r, Closing)
      && s' == Returned(s, r).(finished := s.finished + {r},
                               usedCpus := Clamped(s.usedCpus, c.cpus), usedMem := Clamped(s.usedMem, c.mem))
  }

  ghost predicate Init(c: Config, s: State) {
    && c.maxConcurrent >= 1 && c.totalCpus >= 0 && c.totalMem >= 0
    && s == State([], 0, false, 0, Checking, map[], 0, {}, {}, {}, 0, 0, {}, [], [])
  }

  // ---- the invariant ----

  /** Every submitted run is in exactly one place. */
  ghost predicate Conserved(queue: seq<Run>, executing: set<Run>, sleeping: set<Run>, finished: set<Run>, submitted: set<Run>) {
    && NoDup(queue)
    && Elements(queue) !! executing !! sleeping !! finished
    && Elements(queue) + executing + sleeping + finished == submitted
  }

  /** Every slot belongs to an executing run or to one that is about to release it. */
  ghost predicate SlotsCounted(c: Config, active: int, executing: set<Run>, returning: nat) {
    active == |executing| + returning <= c.maxConcurrent
  }

  ghost function Holders(phase: map<Run, Phase>): set<Run> {
    set r | r in phase && phase[r] != Started
  }

  ghost function WithVm(phase: map<Run, Phase>): set<Run> {
    set r | r in phase && (phase[r] == VmCreated || phase[r] == VmStarted)
  }

  /** The budget in use is the sum of the allocations held, and within the totals. */
  ghost predicate BudgetExact(c: Config, holders: set<Run>, usedCpus: int, usedMem: int) {
    && usedCpus == Sum(|holders|, c.cpus) <= c.totalCpus && usedMem == Sum(|holders|, c.mem) <= c.totalMem
    && (holders != {} ==> c.cpus >= 0 && c.mem >= 0)
  }

  /** n equal allocations together. */
  ghost function Sum(n: nat, unit: int): int {
    if n == 0 then 0 else Sum(n - 1, unit) + unit
  }

  lemma {:induction false} SumNonNegative(n: nat, unit: int)
    requires unit >= 0
    ensures Sum(n, unit) >= 0
  {
    if n > 0 {
      SumNonNegative(n - 1, unit);
    }
  }

  /** A parked worker with something to do is about to be woken. */
  ghost predicate NoLostWakeup(c: Config, s: State) {
    s.worker == Parked && CanDispatch(c, s) ==> s.token || s.senders > 0
  }

  ghost predicate Inv(c: Config, s: State) {
    && Conserved(s.queue, s.phase.Keys, s.sleeping, s.finished, s.submitted)
    && SlotsCounted(c, s.active, s.phase.Keys, s.returning)
    && BudgetExact(c, Holders(s.phase), s.usedCpus, s.usedMem)
    && s.vms == WithVm(s.phase)
    && s.enqueued == s.dispatched + s.queue
    && NoLostWakeup(c, s)
  }

  lemma InitInv(c: Config, s: State)
    requires Init(c, s)
    ensures Inv(c, s)
  {
  }

  // ---- every step keeps it ----

  lemma EnqueueConserved(queue: seq<Run>, executing: set<Run>, sleeping: set<Run>, finished: set<Run>, submitted: set<Run>, r: Run)
    requires Conserved(queue, executing, sleeping, finished, submitted)
    ensures r !in submitted ==> Conserved(queue + [r], executing, sleeping, finished, submitted + {r})
    ensures r in sleeping ==> Conserved(queue + [r], executing, sleeping - {r}, finished, submitted)
  {
    assert Elements(queue + [r]) == Elements(queue) + {r};
  }

  lemma DispatchConserved(queue: seq<Run>, executing: set<Run>, sleeping: set<Run>, finished: set<Run>, submitted: set<Run>)
    requires Conserved(queue, executing, sleeping, finished, submitted) && queue != []
    ensures Conserved(queue[1..], executing + {queue[0]}, sleeping, finished, submitted)
    ensures queue[0] !in executing
  {
    assert queue == [queue[0]] + queue[1..];
    assert queue[0] in Elements(queue) && Elements(queue) == {queue[0]} + Elements(queue[1..]);
  }

  lemma ReturnConserved(queue: seq<Run>, executing: set<Run>, sleeping: set<Run>, finished: set<Run>, submitted: set<Run>, r: Run)
    requires Conserved(queue, executing, sleeping, finished, submitted) && r in executing
    ensures Conserved(queue, executing - {r}, sleeping + {r}, finished, submitted)
    ensures Conserved(queue, executing - {r}, sleeping, finished + {r}, submitted)
  {
  }

  lemma ConservedStep(c: Config, s: State, e: Event, s': State)
    requires Conserved(s.queue, s.phase.Keys, s.sleeping, s.finished, s.submitted) && Next(c, s, e, s')
    ensures Conserved(s'.queue, s'.phase.Keys, s'.sleeping, s'.finished, s'.submitted)
  {
    match e
    case Submit(r) => EnqueueConserved(s.queue, s.phase.Keys, s.sleeping, s.finished, s.submitted, r);
    case Wake(r) => EnqueueConserved(s.queue, s.phase.Keys, s.sleeping, s.finished, s.submitted, r);
    case Check =>
      if CanDispatch(c, s) {
        DispatchConserved(s.queue, s.phase.Keys, s.sleeping, s.finished, s.submitted);
        assert s'.phase.Keys == s.phase.Keys + {s.queue[0]};
      }
    case Exit(r) => LeaveConserved(s, r, s');
    case Close(r) => LeaveConserved(s, r, s');
    case TryAcquire(r) => if Fits(c, s.usedCpus, s.usedMem) { StayConserved(s, r, s'); } else { LeaveConserved(s, r, s'); }
    case CreateVm(r, _) => StayConserved(s, r, s');
    case StartVm(r, _) => StayConserved(s, r, s');
    case Teardown(r) => StayConserved(s, r, s');
    case _ =>
  }

  lemma StayConserved(s: State, r: Run, s': State)
    requires Conserved(s.queue, s.phase.Keys, s.sleeping, s.finished, s.submitted) && r in s.phase
    requires s'.queue == s.queue && s'.phase.Keys == s.phase.Keys && s'.sleeping == s.sleeping
    requires s'.finished == s.finished && s'.submitted == s.submitted
    ensures Conserved(s'.queue, s'.phase.Keys, s'.sleeping, s'.finished, s'.submitted)
  {
  }

  lemma LeaveConserved(s: State, r: Run, s': State)
    requires Conserved(s.queue, s.phase.Keys, s.sleeping, s.finished, s.submitted) && r in s.phase
    requires s'.queue == s.queue && s'.phase == s.phase - {r} && s'.submitted == s.submitted
    requires (s'.sleeping == s.sleeping + {r} && s'.finished == s.finished)
             || (s'.sleeping == s.sleeping && s'.finished == s.finished + {r})
    ensures Conserved(s'.queue, s'.phase.Keys, s'.sleeping, s'.finished, s'.submitted)
  {
    ReturnConserved(s.queue, s.phase.Keys, s.sleeping, s.finished, s.submitted, r);
    assert s'.phase.Keys == s.phase.Keys - {r};
  }

  lemma Joins(phase: map<Run, Phase>, r: Run)
    requires r !in phase
    ensures |phase[r := Started].Keys| == |phase.Keys| + 1 && Holders(phase[r := Started]) == Holders(phase)
  {
    assert phase[r := Started].Keys == phase.Keys + {r};
  }

  lemma Moves(phase: map<Run, Phase>, r: Run, p: Phase)
    requires r in phase && p != Started
    ensures phase[r := p].Keys == phase.Keys && Holders(phase[r := p]) == Holders(phase) + {r}
  {
  }

  lemma Leaves(phase: map<Run, Phase>, r: Run)
    requires r in phase
    ensures |(phase - {r}).Keys| == |phase.Keys| - 1 && Holders(phase - {r}) == Holders(phase) - {r}
  {
    assert (phase - {r}).Keys == phase.Keys - {r};
  }

  lemma SlotsStep(c: Config, s: State, e: Event, s': State)
    requires SlotsCounted(c, s.active, s.phase.Keys, s.returning) && Next(c, s, e, s')
    requires s.queue != [] ==> s.queue[0] !in s.phase
    ensures SlotsCounted(c, s'.active, s'.phase.Keys, s'.returning)
    ensures e.Release? ==> s.active > 0
  {
    match e
    case Check => if CanDispatch(c, s) { Joins(s.phase, s.queue[0]); }
    case Exit(r) => Leaves(s.phase, r);
    case Close(r) => Leaves(s.phase, r);
    case TryAcquire(r) => if Fits(c, s.usedCpus, s.usedMem) { Moves(s.phase, r, Acquired); } else { Leaves(s.phase, r); }
    case CreateVm(r, _) => Moves(s.phase, r, s'.phase[r]);
    case StartVm(r, _) => Moves(s.phase, r, s'.phase[r]);
    case Teardown(r) => Moves(s.phase, r, Closing);
    case _ =>
  }

  lemma BudgetGrows(c: Config, holders: set<Run>, r: Run, usedCpus: int, usedMem: int)
    requires BudgetExact(c, holders, usedCpus, usedMem) && r !in holders && Fits(c, usedCpus, usedMem)
    ensures BudgetExact(c, holders + {r}, usedCpus + c.cpus, usedMem + c.mem)
  {
    assert |holders + {r}| == |holders| + 1;
  }

  /** Releasing a held allocation never reaches the clamp. */
  lemma BudgetShrinks(c: Config, holders: set<Run>, r: Run, usedCpus: int, usedMem: int)
    requires BudgetExact(c, holders, usedCpus, usedMem) && r in holders
    ensures usedCpus >= c.cpus && usedMem >= c.mem
    ensures BudgetExact(c, holders - {r}, Clamped(usedCpus, c.cpus), Clamped(usedMem, c.mem))
  {
    assert |holders| == |holders - {r}| + 1;
    SumNonNegative(|holders - {r}|, c.cpus);
    SumNonNegative(|holders - {r}|, c.mem);
  }

  /** Allocations change hands only when TryAcquire succeeds and when a run closes. */
  ghost predicate HoldersChange(c: Config, s: State, e: Event, holders: set<Run>, holders': set<Run>) {
    match e
    case TryAcquire(r) => if Fits(c, s.usedCpus, s.usedMem) then r !in holders && holders' == holders + {r} else holders' == holders
    case Close(r) => r in holders && holders' == holders - {r}
    case _ => holders' == holders
  }

  lemma HoldersStep(c: Config, s: State, e: Event, s': State)
    requires Next(c, s, e, s') && (s.queue != [] ==> s.queue[0] !in s.phase)
    ensures HoldersChange(c, s, e, Holders(s.phase), Holders(s'.phase))
  {
    match e
    case Check => if CanDispatch(c, s) { Joins(s.phase, s.queue[0]); }
    case Exit(r) => Leaves(s.phase, r); Absent(Holders(s.phase), r);
    case TryAcquire(r) => if Fits(c, s.usedCpus, s.usedMem) { Moves(s.phase, r, Acquired); } else { Leaves(s.phase, r); Absent(Holders(s.phase), r); }
    case CreateVm(r, _) => Moves(s.phase, r, s'.phase[r]); Present(Holders(s.phase), r);
    case StartVm(r, _) => Moves(s.phase, r, s'.phase[r]); Present(Holders(s.phase), r);
    case Teardown(r) => Moves(s.phase, r, Closing); Present(Holders(s.phase), r);
    case Close(r) => Leaves(s.phase, r);
    case _ =>
  }

  lemma BudgetStep(c: Config, s: State, e: Event, s': State, holders: set<Run>, holders': set<Run>)
    requires BudgetExact(c, holders, s.usedCpus, s.usedMem) && Next(c, s, e, s')
    requires HoldersChange(c, s, e, holders, holders')
    ensures BudgetExact(c, holders', s'.usedCpus, s'.usedMem)
    ensures e.Close? ==> s.usedCpus >= c.cpus && s.usedMem >= c.mem
  {
    match e
    case TryAcquire(r) => if Fits(c, s.usedCpus, s.usedMem) { BudgetGrows(c, holders, r, s.usedCpus, s.usedMem); }
    case Close(r) => BudgetShrinks(c, holders, r, s.usedCpus, s.usedMem);
    case _ =>
  }

  lemma Present(a: set<Run>, r: Run)
    ensures r in a ==> a + {r} == a
  {
  }

  lemma Absent(a: set<Run>, r: Run)
    ensures r !in a ==> a - {r} == a
  {
  }

  /** A VM exists exactly while its run is between CreateVM and DestroyVM, on every exit path. */
  lemma VmStep(c: Config, s: State, e: Event, s': State)
    requires s.vms == WithVm(s.phase) && Next(c, s, e, s')
    requires s.queue != [] ==> s.queue[0] !in s.phase
    ensures s'.vms == WithVm(s'.phase)
  {
  }

  /** Runs are dispatched in the order in which they were enqueued. */
  lemma OrderStep(c: Config, s: State, e: Event, s': State)
    requires s.enqueued == s.dispatched + s.queue && Next(c, s, e, s')
    ensures s'.enqueued == s'.dispatched + s'.queue
  {
    if e.Check? && CanDispatch(c, s) {
      assert s.queue == [s.queue[0]] + s.queue[1..];
    }
  }

  lemma WakeupStep(c: Config, s: State, e: Event, s': State)
    requires NoLostWakeup(c, s) && Next(c, s, e, s')
    ensures NoLostWakeup(c, s')
  {
  }

  /** Every step keeps the invariant; in particular the guard in Release and the clamp in the allocator's
      Release never act. */
  lemma NextInv(c: Config, s: State, e: Event, s': State)
    requires Inv(c, s) && Next(c, s, e, s')
    ensures Inv(c, s')
    ensures e.Release? ==> s.active > 0
    ensures e.Close? ==> s.usedCpus >= c.cpus && s.usedMem >= c.mem
  {
    if s.queue != [] {
      DispatchConserved(s.queue, s.phase.Keys, s.sleeping, s.finished, s.submitted);
    }
    ConservedStep(c, s, e, s');
    SlotsStep(c, s, e, s');
    HoldersStep(c, s, e, s');
    BudgetStep(c, s, e, s', Holders(s.phase), Holders(s'.phase));
    VmStep(c, s, e, s');
    OrderStep(c, s, e, s');
    WakeupStep(c, s, e, s');
  }

  // ---- runs ----

  ghost predicate Step(c: Config, s: State, s': State) {
    exists e :: Next(c, s, e, s')
  }

  /** A run of the engine: it starts empty and consecutive states are steps. */
  ghost predicate IsRun(c: Config, run: seq<State>) {
    && run != [] && Init(c, run[0])
    && forall k {:trigger LinkedAt(c, run, k)} :: 0 <= k < |run| - 1 ==> LinkedAt(c, run, k)
  }

  ghost predicate LinkedAt(c: Config, run: seq<State>, k: nat) {
    k + 1 < |run| && Step(c, run[k], run[k + 1])
  }

  lemma StepInv(c: Config, s: State, s': State)
    requires Inv(c, s) && Step(c, s, s')
    ensures Inv(c, s')
  {
    var e :| Next(c, s, e, s');
    NextInv(c, s, e, s');
  }

  lemma LinkInv(c: Config, run: seq<State>, k: nat, s: State, s': State)
    requires LinkedAt(c, run, k) && s == run[k] && s' == run[k + 1] && Inv(c, s)
    ensures Inv(c, s')
  {
    StepInv(c, s, s');
  }

  /** The invariant holds in every state of every run. */
  lemma RunInv(c: Config, run: seq<State>, k: nat)
    requires IsRun(c, run) && k < |run|
    ensures Inv(c, run[k])
  {
    var s, i := run[0], 0;
    InitInv(c, s);
    while i < k
      invariant i <= k && s == run[i] && Inv(c, s)
    {
      LinkInv(c, run, i, s, run[i + 1]);
      s, i := run[i + 1], i + 1;
    }
  }

  /** In every reachable state each live VM belongs to a run that holds a slot and an allocation, no more VMs
      live than slots exist, and together they stay within the CPU and memory budget. */
  lemma LiveVmsCovered(c: Config, run: seq<State>, k: nat, s: State)
    requires IsRun(c, run) && k < |run| && s == run[k]
    ensures s.vms <= Holders(s.phase) <= s.phase.Keys
    ensures |s.vms| <= |Holders(s.phase)| <= s.active <= c.maxConcurrent
    ensures Sum(|s.vms|, c.cpus) <= s.usedCpus <= c.totalCpus
    ensures Sum(|s.vms|, c.mem) <= s.usedMem <= c.totalMem
  {
    RunInv(c, run, k);
    CoveredByInv(c, s);
  }

  lemma CoveredByInv(c: Config, s: State)
    requires Inv(c, s)
    ensures s.vms <= Holders(s.phase) <= s.phase.Keys
    ensures |s.vms| <= |Holders(s.phase)| <= s.active <= c.maxConcurrent
    ensures Sum(|s.vms|, c.cpus) <= s.usedCpus <= c.totalCpus
    ensures Sum(|s.vms|, c.mem) <= s.usedMem <= c.totalMem
  {
    SubsetCardinality(s.vms, Holders(s.phase));
    SubsetCardinality(Holders(s.phase), s.phase.Keys);
    if s.vms != {} {
      assert Holders(s.phase) != {};
      SumMonotone(|s.vms|, |Holders(s.phase)|, c.cpus);
      SumMonotone(|s.vms|, |Holders(s.phase)|, c.mem);
    } else {
      NoVms(c, s);
    }
  }

  lemma NoVms(c: Config, s: State)
    requires BudgetExact(c, Holders(s.phase), s.usedCpus, s.usedMem)
    ensures Sum(0, c.cpus) <= s.usedCpus && Sum(0, c.mem) <= s.usedMem
  {
    if Holders(s.phase) != {} {
      SumNonNegative(|Holders(s.phase)|, c.cpus);
      SumNonNegative(|Holders(s.phase)|, c.mem);
    }
  }

  lemma {:induction false} SumMonotone(m: nat, n: nat, unit: int)
    requires m <= n && unit >= 0
    ensures Sum(m, unit) <= Sum(n, unit)
  {
    if m < n {
      SumMonotone(m, n - 1, unit);
    }
  }

  /** First in, first out: the dispatched runs are the first of the enqueued ones, in the same order. */
  lemma DispatchedInOrder(c: Config, run: seq<State>, k: nat, s: State)
    requires IsRun(c, run) && k < |run| && s == run[k]
    ensures s.dispatched <= s.enqueued && s.enqueued[|s.dispatched|..] == s.queue
  {
    RunInv(c, run, k);
  }

  // ---- a free slot is always used ----

  /** A step of the wake-up protocol alone: a pending send, the receive, or the check. */
  ghost predicate Internal(c: Config, s: State, s': State) {
    Next(c, s, Signal, s') || Next(c, s, Receive, s') || Next(c, s, Check, s')
  }

  ghost predicate InternalSteps(c: Config, s: State, n: nat, s': State)
    decreases n
  {
    if n == 0 then s' == s else exists mid :: Internal(c, s, mid) && InternalSteps(c, mid, n - 1, s')
  }

  lemma InternalFirst(c: Config, s: State, mid: State, n: nat, s': State)
    requires Internal(c, s, mid) && InternalSteps(c, mid, n, s')
    ensures InternalSteps(c, s, n + 1, s')
  {
  }

  /** From every reachable state with a run queued and a slot free, the channel and the worker alone dispatch the
      first run within three steps: no wake-up is ever lost. */
  lemma FirstIsDispatched(c: Config, s: State) returns (n: nat, s': State)
    requires Inv(c, s) && CanDispatch(c, s)
    ensures 1 <= n <= 3 && InternalSteps(c, s, n, s')
    ensures s'.dispatched == s.dispatched + [s.queue[0]]
  {
    if s.worker == Checking {
      n, s' := 1, Checked(c, s);
      assert InternalSteps(c, s', 0, s');
      InternalFirst(c, s, s', 0, s');
    } else {
      n, s' := WakesUp(c, s);
    }
  }

  lemma WakesUp(c: Config, s: State) returns (n: nat, s': State)
    requires NoLostWakeup(c, s) && CanDispatch(c, s) && s.worker == Parked
    ensures 2 <= n <= 3 && InternalSteps(c, s, n, s')
    ensures s'.dispatched == s.dispatched + [s.queue[0]]
  {
    var ready := if s.token then s else s.(senders := s.senders - 1, token := true);
    var woken := ready.(token := false, worker := Checking);
    n, s' := 2, Checked(c, woken);
    assert InternalSteps(c, s', 0, s');
    InternalFirst(c, woken, s', 0, s');
    InternalFirst(c, ready, woken, 1, s');
    if !s.token {
      n := 3;
      InternalFirst(c, s, ready, 2, s');
    }
  }

  // ---- in every interleaving ----

  ghost predicate StepBy(c: Config, run: seq<State>, events: seq<Event>, k: nat) {
    k < |events| && k + 1 < |run| && Next(c, run[k], events[k], run[k + 1])
  }

  /** A stretch of an interleaving with the events that happened. */
  ghost predicate Trace(c: Config, run: seq<State>, events: seq<Event>) {
    |run| == |events| + 1 && forall k {:trigger StepBy(c, run, events, k)} :: 0 <= k < |events| ==> StepBy(c, run, events, k)
  }

  predicate IsWorkerStep(e: Event) {
    e.Check? || e.Receive?
  }

  /** The steps of the worker among the first n events. */
  function WorkerSteps(events: seq<Event>, n: nat): nat
    requires n <= |events|
  {
    if n == 0 then 0 else WorkerSteps(events, n - 1) + if IsWorkerStep(events[n - 1]) then 1 else 0
  }

  /** Whether a caller has sent among the first n events. */
  predicate Signalled(events: seq<Event>, n: nat)
    requires n <= |events|
  {
    n > 0 && (Signalled(events, n - 1) || events[n - 1].Signal?)
  }

  /** The worker can take its next step: it is about to check, or a token is there to receive. */
  predicate WorkerEnabled(s: State) {
    s.worker == Checking || s.token
  }

  /** The first run of s is still first in t, with a slot free and the worker w steps further. */
  ghost predicate StillFirst(c: Config, s: State, t: State, w: nat) {
    && CanDispatch(c, s) && CanDispatch(c, t) && t.queue[0] == s.queue[0] && t.dispatched == s.dispatched
    && w <= 1 && (w == 1 ==> t.worker == Checking) && (s.worker == Checking ==> w == 0 && t.worker == Checking)
  }

  ghost predicate FirstWent(s: State, t: State) {
    s.queue != [] && s.dispatched + [s.queue[0]] <= t.dispatched
  }

  lemma Monotone(c: Config, s: State, e: Event, s': State)
    requires Next(c, s, e, s')
    ensures s.dispatched <= s'.dispatched
  {
  }

  /** While the first run waits with a slot free, any event but a check leaves it so, and a check dispatches it. */
  lemma StillFirstStep(c: Config, s: State, t: State, w: nat, e: Event, t': State)
    requires StillFirst(c, s, t, w) && Next(c, t, e, t')
    ensures e.Check? ==> FirstWent(s, t')
    ensures !e.Check? ==> StillFirst(c, s, t', w + if e.Receive? then 1 else 0)
    ensures !e.Check? && (e.Signal? || WorkerEnabled(t)) ==> WorkerEnabled(t')
  {
  }

  lemma {:induction false} TraceStep(c: Config, run: seq<State>, events: seq<Event>, n: nat)
    requires Trace(c, run, events) && n <= |events| && CanDispatch(c, run[0])
    ensures FirstWent(run[0], run[n]) || StillFirst(c, run[0], run[n], WorkerSteps(events, n))
    ensures FirstWent(run[0], run[n]) || (Signalled(events, n) ==> WorkerEnabled(run[n]))
  {
    if n > 0 {
      TraceStep(c, run, events, n - 1);
      assert StepBy(c, run, events, n - 1);
      if FirstWent(run[0], run[n - 1]) {
        Monotone(c, run[n - 1], events[n - 1], run[n]);
      } else {
        StillFirstStep(c, run[0], run[n - 1], WorkerSteps(events, n - 1), events[n - 1], run[n]);
      }
    }
  }

  /** In every interleaving that starts with a run queued and a slot free: after two steps of the worker the run has
      been dispatched, whatever else happens; and as long as it has not, the worker can take its next step or a caller
      is about to send, after which it can. */
  lemma EveryInterleavingDispatches(c: Config, run: seq<State>, events: seq<Event>)
    requires Trace(c, run, events) && Inv(c, run[0]) && CanDispatch(c, run[0])
    ensures WorkerSteps(events, |events|) >= 2 ==> FirstWent(run[0], run[|events|])
    ensures var t := run[|events|];
            FirstWent(run[0], t) || WorkerEnabled(t) || (t.senders > 0 && !Signalled(events, |events|))
  {
    TraceStep(c, run, events, |events|);
    TraceInv(c, run, events, |events|);
  }

  lemma TraceLink(c: Config, run: seq<State>, events: seq<Event>, k: nat, s: State, s': State)
    requires Trace(c, run, events) && k < |events| && s == run[k] && s' == run[k + 1] && Inv(c, s)
    ensures Inv(c, s')
  {
    assert StepBy(c, run, events, k);
    NextInv(c, s, events[k], s');
  }

  lemma TraceInv(c: Config, run: seq<State>, events: seq<Event>, n: nat)
    requires Trace(c, run, events) && Inv(c, run[0]) && n <= |events|
    ensures Inv(c, run[n])
  {
    var s, i := run[0], 0;
    while i < n
      invariant i <= n && s == run[i] && Inv(c, s)
    {
      TraceLink(c, run, events, i, s, run[i + 1]);
      s, i := run[i + 1], i + 1;
    }
  }
}
