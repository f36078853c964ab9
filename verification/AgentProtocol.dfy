/** The command/result protocol of AgentCoordinator in go-orchestrator/internal/core/agent_state.go, between any
number of concurrent SendCommand and DeliverResult calls, and the command IDs that runWorkflow gives it. */
module AgentProtocol {
  import opened Common

  /** What an agent reports, with the ID of the command it answers. */
  datatype Result = Result(commandId: string, status: string)

  datatype Outcome = Waiting | Got(result: Result) | Cancelled

  /** A SendCommand call: the agent registration it found, its command, its own result channel. */
  datatype Call = Call(agent: nat, commandId: string, channel: nat, outcome: Outcome)

  /** A DeliverResult call that has looked up its waiter and is about to send. */
  datatype Delivery = Delivery(channel: nat, result: Result)

  datatype Slot = Empty | Full(result: Result)

  /** Registrations of a VM and result channels are numbered as they are created. waiters is keyed by the
      registration and the command ID; owner remembers for which command a channel was made. */
  datatype State = State(
    agents: map<string, nat>, nextAgent: nat, waiters: map<(nat, string), nat>,
    slots: map<nat, Slot>, owner: map<nat, string>, nextChannel: nat,
    calls: map<nat, Call>, deliveries: map<nat, Delivery>)

  datatype Event =
    | Register(vm: string) | Unregister(vm: string)
    | Send(call: nat, agent: nat, commandId: string)  // create the channel and register the waiter
    | Take(call: nat)                                 // receive the result
    | Cancel(call: nat)                               // the context is done
    | Leave(call: nat)                                // the deferred removal of the waiter
    | LookUp(delivery: nat, agent: nat, result: Result)
    | Put(delivery: nat)                              // the send to the waiter's channel
    | Expire(delivery: nat)                           // five seconds have passed

  ghost predicate Next(s: State, e: Event, s': State) {
    match e
    case Register(vm) => s' == s.(agents := s.agents[vm := s.nextAgent], nextAgent := s.nextAgent + 1)
    case Unregister(vm) => s' == s.(agents := s.agents - {vm})
    case Send(k, agent, id) =>
      && agent < s.nextAgent && k !in s.calls
      && s' == s.(waiters := s.waiters[(agent, id) := s.nextChannel],
                  slots := s.slots[s.nextChannel := Empty], owner := s.owner[s.nextChannel := id],
                  nextChannel := s.nextChannel + 1,
                  calls := s.calls[k := Call(agent, id, s.nextChannel, Waiting)])
    case Take(k) =>
      && k in s.calls && s.calls[k].outcome == Waiting
      && s.calls[k].channel in s.slots && s.slots[s.calls[k].channel].Full?
      && s' == s.(slots := s.slots[s.calls[k].channel := Empty],
                  calls := s.calls[k := s.calls[k].(outcome := Got(s.slots[s.calls[k].channel].result))])
    case Cancel(k) =>
      && k in s.calls && s.calls[k].outcome == Waiting
      && s' == s.(calls := s.calls[k := s.calls[k].(outcome := Cancelled)])
    case Leave(k) =>
      && k in s.calls && s.calls[k].outcome != Waiting
      && s' == s.(waiters := s.waiters - {(s.calls[k].agent, s.calls[k].commandId)})
    case LookUp(d, agent, r) =>
      && d !in s.deliveries && (agent, r.commandId) in s.waiters
      && s' == s.(deliveries := s.deliveries[d := Delivery(s.waiters[(agent, r.commandId)], r)])
    case Put(d) =>
      && d in s.deliveries && s.deliveries[d].channel in s.slots && s.slots[s.deliveries[d].channel].Empty?
      && s' == s.(slots := s.slots[s.deliveries[d].channel := Full(s.deliveries[d].result)],
                  deliveries := s.deliveries - {d})
    case Expire(d) => d in s.deliveries && s' == s.(deliveries := s.deliveries - {d})
  }

  ghost predicate Init(s: State) {
    s == State(map[], 0, map[], map[], map[], 0, map[], map[])
  }

  // ---- what every reachable state satisfies ----

  /** The channel exists and was made for this command. */
  ghost predicate For(s: State, channel: nat, commandId: string) {
    channel < s.nextChannel && channel in s.owner && s.owner[channel] == commandId
  }

  ghost predicate WaitersOk(s: State) {
    forall w {:trigger s.waiters[w]} :: w in s.waiters ==> For(s, s.waiters[w], w.1)
  }

  ghost predicate SlotsOk(s: State) {
    forall ch {:trigger s.slots[ch]} :: ch in s.slots && s.slots[ch].Full? ==> For(s, ch, s.slots[ch].result.commandId)
  }

  ghost predicate DeliveriesOk(s: State) {
    forall d {:trigger s.deliveries[d]} :: d in s.deliveries ==> For(s, s.deliveries[d].channel, s.deliveries[d].result.commandId)
  }

  /** Each call waits on a channel of its own, made for its command, and has at most taken a result for it. */
  ghost predicate CallsOk(s: State) {
    && (forall k {:trigger s.calls[k]} :: k in s.calls ==>
          && For(s, s.calls[k].channel, s.calls[k].commandId)
          && (s.calls[k].outcome.Got? ==> s.calls[k].outcome.result.commandId == s.calls[k].commandId))
    && (forall k, m :: k in s.calls && m in s.calls && k != m ==> s.calls[k].channel != s.calls[m].channel)
  }

  ghost predicate Inv(s: State) {
    WaitersOk(s) && SlotsOk(s) && DeliveriesOk(s) && CallsOk(s)
  }

  lemma NextInv(s: State, e: Event, s': State)
    requires Inv(s) && Next(s, e, s')
    ensures Inv(s')
  {
    match e
    case Send(k, agent, id) => SendInv(s, k, agent, id, s');
    case Take(k) => TakeInv(s, k, s');
    case Put(d) => PutInv(s, d, s');
    case LookUp(d, agent, r) => LookUpInv(s, d, agent, r, s');
    case _ =>
  }

  lemma LookUpInv(s: State, d: nat, agent: nat, r: Result, s': State)
    requires Inv(s) && Next(s, LookUp(d, agent, r), s')
    ensures Inv(s')
  {
    assert For(s, s.waiters[(agent, r.commandId)], r.commandId);
  }

  lemma TakeInv(s: State, k: nat, s': State)
    requires Inv(s) && Next(s, Take(k), s')
    ensures Inv(s')
  {
    assert For(s, s.calls[k].channel, s.slots[s.calls[k].channel].result.commandId);
  }

  lemma PutInv(s: State, d: nat, s': State)
    requires Inv(s) && Next(s, Put(d), s')
    ensures Inv(s')
  {
    assert For(s, s.deliveries[d].channel, s.deliveries[d].result.commandId);
  }

  lemma SendInv(s: State, k: nat, agent: nat, id: string, s': State)
    requires Inv(s) && Next(s, Send(k, agent, id), s')
    ensures Inv(s')
  {
  }

  ghost predicate Step(s: State, s': State) {
    exists e :: Next(s, e, s')
  }

  ghost predicate StepAt(run: seq<State>, k: nat) {
    k + 1 < |run| && Step(run[k], run[k + 1])
  }

  ghost predicate IsRun(run: seq<State>) {
    run != [] && Init(run[0]) && forall k {:trigger StepAt(run, k)} :: 0 <= k < |run| - 1 ==> StepAt(run, k)
  }

  lemma RunInv(run: seq<State>, k: nat)
    requires IsRun(run) && k < |run|
    ensures Inv(run[k])
  {
    var s, i := run[0], 0;
    while i < k
      invariant i <= k && s == run[i] && Inv(s)
    {
      assert StepAt(run, i);
      var e :| Next(s, e, run[i + 1]);
      NextInv(s, e, run[i + 1]);
      s, i := run[i + 1], i + 1;
    }
  }

  /** In every interleaving of sends, cancellations, retries and late or repeated deliveries, a SendCommand call
      returns only a result that answers its own command. */
  lemma OwnResultOnly(run: seq<State>, k: nat, call: nat)
    requires IsRun(run) && k < |run| && call in run[k].calls && run[k].calls[call].outcome.Got?
    ensures run[k].calls[call].outcome.result.commandId == run[k].calls[call].commandId
  {
    RunInv(run, k);
  }

  // ---- command IDs ----

  function Decimal(n: nat): string {
    if n < 10 then [Digit(n)] else Decimal(n / 10) + [Digit(n % 10)]
  }

  function Digit(d: nat): char
    requires d < 10
  {
    ['0', '1', '2', '3', '4', '5', '6', '7', '8', '9'][d]
  }

  /** "cmd-step-%s-%s-%d". */
  function StepCommandId(runId: string, stepId: string, attempt: nat): string {
    "cmd-step-" + runId + "-" + stepId + "-" + Decimal(attempt)
  }

  lemma DecimalLength(n: nat)
    ensures n < 10 <==> |Decimal(n)| == 1
  {
    if n >= 100 {
      DecimalLength(n / 10);
    }
  }

  lemma {:induction false} DecimalInjective(m: nat, n: nat)
    requires Decimal(m) == Decimal(n)
    ensures m == n
  {
    DecimalLength(m);
    DecimalLength(n);
    var a, b := Decimal(m), Decimal(n);
    assert a[|a| - 1] == Digit(m % 10) && b[|b| - 1] == Digit(n % 10);
    if m >= 10 {
      assert Decimal(m / 10) == a[..|a| - 1] == b[..|b| - 1] == Decimal(n / 10);
      DecimalInjective(m / 10, n / 10);
    }
  }

  lemma {:induction false} DecimalNoDash(n: nat)
    ensures '-' !in Decimal(n)
  {
    if n >= 10 {
      DecimalNoDash(n / 10);
    }
  }

  lemma NoDashAfter(s: string, a: string)
    requires '-' !in a
    ensures forall i :: |s| < i < |s| + 1 + |a| ==> (s + "-" + a)[i] != '-'
  {
    forall i | |s| < i < |s| + 1 + |a| ensures (s + "-" + a)[i] != '-' {
      assert (s + "-" + a)[i] == a[i - |s| - 1];
    }
  }

  /** The last dash separates step and attempt. */
  lemma LastDash(s: string, t: string, a: string, b: string)
    requires s + "-" + a == t + "-" + b && '-' !in a && '-' !in b
    ensures s == t && a == b
  {
    var x, y := s + "-" + a, t + "-" + b;
    NoDashAfter(s, a);
    NoDashAfter(t, b);
    assert x[|s|] == '-' && y[|t|] == '-';
    assert s == x[..|s|] == y[..|t|] == t;
    assert a == x[|s| + 1..] == y[|t| + 1..] == b;
  }

  /** The part of the ID after the run. */
  function Tail(stepId: string, attempt: nat): string {
    stepId + "-" + Decimal(attempt)
  }

  lemma TailInjective(s: string, m: nat, t: string, n: nat)
    requires Tail(s, m) == Tail(t, n)
    ensures s == t && m == n
  {
    DecimalNoDash(m);
    DecimalNoDash(n);
    LastDash(s, t, Decimal(m), Decimal(n));
    DecimalInjective(m, n);
  }

  lemma SplitId(r: string, s: string, m: nat)
    ensures StepCommandId(r, s, m) == "cmd-step-" + (r + "-" + Tail(s, m))
  {
  }

  /** Within one run, and so within one VM, IDs identify step and attempt. */
  lemma IdIdentifies(r: string, s: string, m: nat, t: string, n: nat)
    requires StepCommandId(r, s, m) == StepCommandId(r, t, n)
    ensures s == t && m == n
  {
    SplitId(r, s, m);
    SplitId(r, t, n);
    var x, y := StepCommandId(r, s, m), StepCommandId(r, t, n);
    assert Tail(s, m) == x[9 + |r| + 1..] == y[9 + |r| + 1..] == Tail(t, n);
    TailInjective(s, m, t, n);
  }

  /** A late or repeated result of one attempt is never credited to another attempt or another step: what a call
      for (step, attempt) returns was reported for exactly that step and attempt. */
  lemma CreditedToItsAttempt(run: seq<State>, k: nat, call: nat, r: string, s: string, m: nat, t: string, n: nat)
    requires IsRun(run) && k < |run| && call in run[k].calls && run[k].calls[call].outcome.Got?
    requires run[k].calls[call].commandId == StepCommandId(r, s, m)
    requires run[k].calls[call].outcome.result.commandId == StepCommandId(r, t, n)
    ensures s == t && m == n
  {
    OwnResultOnly(run, k, call);
    IdIdentifies(r, s, m, t, n);
  }

  /** q continues r with a dash. */
  predicate Continues(r: string, q: string) {
    r + "-" <= q
  }

  /** Attempts of two steps, with IDs that a workflow accepts, get the same command ID. */
  ghost predicate Collide(r: string, q: string) {
    exists s, m, t, n :: s != "" && t != "" && (r, s, m) != (q, t, n) && StepCommandId(r, s, m) == StepCommandId(q, t, n)
  }

  lemma CollisionContinues(r: string, s: string, m: nat, q: string, t: string, n: nat)
    requires StepCommandId(r, s, m) == StepCommandId(q, t, n) && |r| < |q|
    ensures Continues(r, q)
  {
    SplitId(r, s, m);
    SplitId(q, t, n);
    var x := StepCommandId(r, s, m)[9..];
    assert x == r + "-" + Tail(s, m) == q + "-" + Tail(t, n);
    assert q == x[..|q|] && r + "-" == x[..|r| + 1];
  }

  lemma ContinuesCollides(r: string, q: string)
    requires Continues(r, q)
    ensures Collide(r, q)
  {
    var s := q[|r| + 1..] + "-a";
    SplitId(r, s, 0);
    SplitId(q, "a", 0);
    assert q == r + "-" + q[|r| + 1..];
    assert r + "-" + Tail(s, 0) == q + "-" + Tail("a", 0);
    assert StepCommandId(r, s, 0) == StepCommandId(q, "a", 0);
  }

  /** Across runs the format is ambiguous exactly when one run ID continues the other with a dash; run IDs of equal
      length never collide. */
  lemma CollideIff(r: string, q: string)
    ensures Collide(r, q) <==> Continues(r, q) || Continues(q, r)
  {
    if Collide(r, q) {
      var s, m, t, n :| s != "" && t != "" && (r, s, m) != (q, t, n) && StepCommandId(r, s, m) == StepCommandId(q, t, n);
      if |r| < |q| {
        CollisionContinues(r, s, m, q, t, n);
      } else if |q| < |r| {
        CollisionContinues(q, t, n, r, s, m);
      } else {
        SameLength(r, s, m, q, t, n);
      }
    }
    if Continues(r, q) {
      ContinuesCollides(r, q);
    } else if Continues(q, r) {
      ContinuesCollides(q, r);
      var s, m, t, n :| s != "" && t != "" && (q, s, m) != (r, t, n) && StepCommandId(q, s, m) == StepCommandId(r, t, n);
      assert (r, t, n) != (q, s, m) && StepCommandId(r, t, n) == StepCommandId(q, s, m);
    }
  }

  lemma SameLength(r: string, s: string, m: nat, q: string, t: string, n: nat)
    requires StepCommandId(r, s, m) == StepCommandId(q, t, n) && |r| == |q|
    ensures r == q && s == t && m == n
  {
    SplitId(r, s, m);
    SplitId(q, t, n);
    var x := StepCommandId(r, s, m)[9..];
    assert x == r + "-" + Tail(s, m) == q + "-" + Tail(t, n);
    assert r == x[..|r|] == q;
    IdIdentifies(r, s, m, t, n);
  }

  // ---- the coordinator ----

  /** AgentCoordinator with the agentState objects it hands out. Each method is one critical section or channel
      operation of its namesake; calls and deliveries, which live on goroutine stacks, are ghost. */
  class Coordinator {
    var agents: map<string, nat>
    var nextAgent: nat
    var waiters: map<(nat, string), nat>
    var slots: map<nat, Slot>
    var nextChannel: nat
    ghost var owner: map<nat, string>
    ghost var calls: map<nat, Call>
    ghost var deliveries: map<nat, Delivery>

    ghost function View(): State
      reads this
    {
      State(agents, nextAgent, waiters, slots, owner, nextChannel, calls, deliveries)
    }

    constructor ()
      ensures Init(View())
    {
      agents, nextAgent, waiters, slots, nextChannel := map[], 0, map[], map[], 0;
      owner, calls, deliveries := map[], map[], map[];
    }

    method RegisterVm(vm: string)
      modifies this
      ensures Next(old(View()), Register(vm), View())
    {
      agents, nextAgent := agents[vm := nextAgent], nextAgent + 1;
    }

    method UnregisterVm(vm: string)
      modifies this
      ensures Next(old(View()), Unregister(vm), View())
    {
      if vm in agents {
        agents := agents - {vm};
      }
    }

    /** The start of SendCommand: a fresh channel, registered under the command's ID. */
    method BeginSend(ghost call: nat, agent: nat, id: string) returns (channel: nat)
      requires agent < nextAgent && call !in calls
      modifies this
      ensures Next(old(View()), Send(call, agent, id), View()) && channel == calls[call].channel
    {
      channel := nextChannel;
      waiters, slots, nextChannel := waiters[(agent, id) := channel], slots[channel := Empty], nextChannel + 1;
      owner, calls := owner[channel := id], calls[call := Call(agent, id, channel, Waiting)];
    }

    /** The result branch of the final select; None if there is nothing to receive. */
    method TryReceive(ghost call: nat, channel: nat) returns (r: Option<Result>)
      requires call in calls && calls[call].outcome == Waiting && calls[call].channel == channel
      modifies this
      ensures r.None? ==> View() == old(View()) && (channel in slots ==> slots[channel].Empty?)
      ensures r.Some? ==> Next(old(View()), Take(call), View()) && calls[call].outcome == Got(r.value)
    {
      if channel in slots && slots[channel].Full? {
        r := Some(slots[channel].result);
        calls := calls[call := calls[call].(outcome := Got(slots[channel].result))];
        slots := slots[channel := Empty];
      } else {
        r := None;
      }
    }

    /** The deferred removal of the waiter. */
    method EndSend(ghost call: nat, agent: nat, id: string)
      requires call in calls && calls[call].outcome != Waiting && calls[call].agent == agent && calls[call].commandId == id
      modifies this
      ensures Next(old(View()), Leave(call), View())
    {
      waiters := waiters - {(agent, id)};
    }

    /** The look-up of DeliverResult; None is the "no waiter" error. */
    method FindWaiter(ghost delivery: nat, agent: nat, r: Result) returns (channel: Option<nat>)
      requires delivery !in deliveries
      modifies this`deliveries
      ensures channel.None? ==> (agent, r.commandId) !in waiters && View() == old(View())
      ensures channel.Some? ==> Next(old(View()), LookUp(delivery, agent, r), View())
      ensures channel.Some? ==> deliveries[delivery].channel == channel.value
    {
      if (agent, r.commandId) in waiters {
        channel := Some(waiters[(agent, r.commandId)]);
        deliveries := deliveries[delivery := Delivery(waiters[(agent, r.commandId)], r)];
      } else {
        channel := None;
      }
    }

    /** The end of DeliverResult: the send if the buffer has room, otherwise the timeout. */
    method Deliver(ghost delivery: nat, channel: nat, r: Result) returns (ok: bool)
      requires delivery in deliveries && deliveries[delivery] == Delivery(channel, r)
      modifies this
      ensures Next(old(View()), if ok then Put(delivery) else Expire(delivery), View())
    {
      ok := channel in slots && slots[channel].Empty?;
      if ok {
        slots := slots[channel := Full(r)];
      }
      deliveries := deliveries - {delivery};
    }
  }
}
