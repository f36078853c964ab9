/** The DAG workflow of go-orchestrator/internal/core/workflow.go: validation, topological order, and the
step state machine (Ready, MarkRunning, Advance with skip propagation). */
module Workflows {
  import opened DepGraph

  datatype StepStatus = Pending | Running | Passed | Failed | Skipped

  /** The fields of a WorkflowStep that the workflow manager looks at. */
  datatype WorkflowStep = WorkflowStep(id: string, dependsOn: seq<string>, retryMax: int)

  datatype Step = Step(def: WorkflowStep, status: StepStatus, attempts: nat)

  type Graph = map<string, seq<string>>
  type Statuses = map<string, StepStatus>

  // ---- statuses of dependency lists ----

  predicate Down(s: StepStatus) {
    s == Failed || s == Skipped
  }

  ghost predicate Covers(ds: seq<string>, st: Statuses) {
    forall d :: d in ds ==> d in st
  }

  predicate AllPassed(ds: seq<string>, st: Statuses)
    requires Covers(ds, st)
  {
    ds == [] || (st[ds[0]] == Passed && AllPassed(ds[1..], st))
  }

  predicate AnyDown(ds: seq<string>, st: Statuses)
    requires Covers(ds, st)
  {
    ds != [] && (Down(st[ds[0]]) || AnyDown(ds[1..], st))
  }

  lemma {:induction false} AllPassedMeans(ds: seq<string>, st: Statuses)
    requires Covers(ds, st)
    ensures AllPassed(ds, st) <==> forall d :: d in ds ==> st[d] == Passed
  {
    if ds != [] {
      AllPassedMeans(ds[1..], st);
      assert forall d :: d in ds <==> d == ds[0] || d in ds[1..];
    }
  }

  lemma {:induction false} AnyDownMeans(ds: seq<string>, st: Statuses)
    requires Covers(ds, st)
    ensures AnyDown(ds, st) <==> exists d :: d in ds && Down(st[d])
  {
    if ds != [] {
      AnyDownMeans(ds[1..], st);
      assert forall d :: d in ds <==> d == ds[0] || d in ds[1..];
    }
  }

  /** Statuses over the nodes of a graph all of whose dependencies are nodes. */
  ghost predicate Over(g: Graph, st: Statuses) {
    Closed(g) && st.Keys == g.Keys
  }

  ghost predicate ReadyStep(g: Graph, st: Statuses, n: string)
    requires Over(g, st)
  {
    n in g && st[n] == Pending && AllPassed(g[n], st)
  }

  ghost predicate AllDone(st: Statuses) {
    forall n :: n in st ==> st[n] != Pending && st[n] != Running
  }

  /** The steps with a given status; their number is what Summary reports. */
  ghost function With(st: Statuses, status: StepStatus): set<string> {
    set n | n in st && st[n] == status
  }

  // ---- skip propagation ----

  function SkipOne(g: Graph, st: Statuses, n: string): (r: Statuses)
    requires Over(g, st) && n in g
    ensures Over(g, r)
  {
    if st[n] == Pending && AnyDown(g[n], st) then st[n := Skipped] else st
  }

  /** The statuses after the pass of propagateSkip has visited the first k steps of the order. */
  ghost function SkipPass(g: Graph, order: seq<string>, k: nat, st: Statuses): (r: Statuses)
    requires Over(g, st) && Elements(order) == g.Keys && k <= |order|
    ensures Over(g, r)
  {
    if k == 0 then st
    else
      assert order[k - 1] in Elements(order);
      SkipOne(g, SkipPass(g, order, k - 1, st), order[k - 1])
  }

  /** A chain of pending steps, each depending on the next, that ends at a failed or skipped step. */
  ghost predicate DoomPath(g: Graph, st: Statuses, p: seq<string>)
    requires Over(g, st)
  {
    && |p| >= 2
    && p[0] in g && p[1] in g && p[1] in g[p[0]] && st[p[0]] == Pending
    && if |p| == 2 then Down(st[p[1]]) else DoomPath(g, st, p[1..])
  }

  ghost predicate Doomed(g: Graph, st: Statuses, n: string)
    requires Over(g, st)
  {
    exists p :: DoomPath(g, st, p) && p[0] == n
  }

  lemma DoomedBy(g: Graph, st: Statuses, n: string, d: string)
    requires Over(g, st) && n in g && st[n] == Pending && d in g[n]
    requires Down(st[d]) || Doomed(g, st, d)
    ensures Doomed(g, st, n)
  {
    if Down(st[d]) {
      assert DoomPath(g, st, [n, d]);
    } else {
      var p :| DoomPath(g, st, p) && p[0] == d;
      assert ([n] + p)[1..] == p;
      assert DoomPath(g, st, [n] + p);
    }
  }

  lemma DoomedWhy(g: Graph, st: Statuses, n: string) returns (d: string)
    requires Over(g, st) && Doomed(g, st, n)
    ensures n in g && st[n] == Pending && d in g[n]
    ensures Down(st[d]) || Doomed(g, st, d)
  {
    var p :| DoomPath(g, st, p) && p[0] == n;
    d := p[1];
    if |p| > 2 {
      assert p[1..][0] == d;
    }
  }

  /** The pending steps with such a chain are skipped; nothing else changes. */
  ghost function Settled(g: Graph, st: Statuses): (r: Statuses)
    requires Over(g, st)
    ensures Over(g, r)
  {
    map n | n in g :: if Doomed(g, st, n) then Skipped else st[n]
  }

  /** fin differs from st only in skipping the pending steps that have a failed or skipped dependency in fin. */
  ghost predicate SkipFixpoint(g: Graph, st: Statuses, fin: Statuses)
    requires Over(g, st)
  {
    && Over(g, fin)
    && forall n :: n in g ==> fin[n] == if st[n] == Pending && AnyDown(g[n], fin) then Skipped else st[n]
  }

  lemma SettledIsFixpoint(g: Graph, st: Statuses)
    requires Over(g, st)
    ensures SkipFixpoint(g, st, Settled(g, st))
  {
    var fin := Settled(g, st);
    forall n | n in g ensures fin[n] == if st[n] == Pending && AnyDown(g[n], fin) then Skipped else st[n] {
      AnyDownMeans(g[n], fin);
      if Doomed(g, st, n) {
        var d := DoomedWhy(g, st, n);
        assert Down(fin[d]);
      } else if st[n] == Pending {
        forall d | d in g[n] ensures !Down(fin[d]) {
          if Down(st[d]) || Doomed(g, st, d) {
            DoomedBy(g, st, n, d);
          }
        }
      }
    }
  }

  lemma {:induction false} AnyDownAgree(ds: seq<string>, a: Statuses, b: Statuses)
    requires Covers(ds, a) && Covers(ds, b) && forall d :: d in ds ==> a[d] == b[d]
    ensures AnyDown(ds, a) == AnyDown(ds, b)
  {
    if ds != [] {
      AnyDownAgree(ds[1..], a, b);
    }
  }

  /** In topological order one pass reaches any fixpoint, so there is only one. */
  lemma {:induction false} PassReachesFixpoint(g: Graph, order: seq<string>, k: nat, st: Statuses, fin: Statuses)
    requires Over(g, st) && TopoOrder(g, order) && k <= |order| && SkipFixpoint(g, st, fin)
    ensures forall i :: 0 <= i < k ==> SkipPass(g, order, k, st)[order[i]] == fin[order[i]]
    ensures forall i :: k <= i < |order| ==> SkipPass(g, order, k, st)[order[i]] == st[order[i]]
  {
    if k > 0 {
      PassReachesFixpoint(g, order, k - 1, st, fin);
      var now, n := SkipPass(g, order, k - 1, st), order[k - 1];
      forall d | d in g[n] ensures now[d] == fin[d] {
        assert d in order[..k - 1];
      }
      AnyDownAgree(g[n], now, fin);
    }
  }

  /** One pass of propagateSkip in topological order is enough: it skips exactly the pending steps with
      a chain of pending steps to a failed or skipped one, and changes nothing else. */
  lemma PropagateSkipExact(g: Graph, order: seq<string>, st: Statuses)
    requires Over(g, st) && TopoOrder(g, order)
    ensures SkipPass(g, order, |order|, st) == Settled(g, st)
    ensures SkipFixpoint(g, st, SkipPass(g, order, |order|, st))
  {
    SettledIsFixpoint(g, st);
    PassReachesFixpoint(g, order, |order|, st, Settled(g, st));
    forall n | n in g ensures SkipPass(g, order, |order|, st)[n] == Settled(g, st)[n] {
      assert n in Elements(order);
    }
  }

  /** Advance: record the outcome, and propagate skips when it is a failure. */
  ghost function AdvanceTo(g: Graph, order: seq<string>, st: Statuses, n: string, outcome: StepStatus): (r: Statuses)
    requires Over(g, st) && Elements(order) == g.Keys && n in g
    ensures Over(g, r)
  {
    var recorded := st[n := outcome];
    if outcome == Failed then SkipPass(g, order, |order|, recorded) else recorded
  }
}
