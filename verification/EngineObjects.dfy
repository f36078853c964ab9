/** The Scheduler and ResourceAllocator objects of scheduler.go and allocator.go. Each of their critical sections
takes a state of module Engine to the state that Engine's step for it describes. */
module EngineObjects {
  import opened Common
  import Engine

  class Scheduler {
    var maxConcurrent: int
    var activeCount: int
    var queue: seq<Engine.Run>
    var notify: bool    // whether the one-slot channel holds a token

    constructor (limit: int)
      ensures maxConcurrent == (if limit <= 0 then 1 else limit) && activeCount == 0 && queue == [] && !notify
    {
      maxConcurrent := if limit <= 0 then 1 else limit;
      activeCount, queue, notify := 0, [], false;
    }

    /** The object's part of a state of the engine. */
    ghost predicate Shows(c: Engine.Config, s: Engine.State)
      reads this
    {
      c.maxConcurrent == maxConcurrent && s.queue == queue && s.active == activeCount && s.token == notify
    }

    method Enqueue(run: Engine.Run)
      modifies this`queue, this`notify
      ensures queue == old(queue) + [run] && notify
    {
      Append(run);
      Signal();
    }

    /** The critical section of Enqueue. */
    method Append(run: Engine.Run)
      modifies this`queue
      ensures queue == old(queue) + [run]
      ensures forall c, s :: old(Shows(c, s)) ==> Shows(c, Engine.Enqueued(s, run))
    {
      queue := queue + [run];
    }

    /** A send that never blocks: a full channel keeps its token. */
    method Signal()
      modifies this`notify
      ensures notify
      ensures forall c, s :: old(Shows(c, s)) ==> Shows(c, s.(token := true))
    {
      if !notify {
        notify := true;
      }
    }

    /** TryNext, and the critical section of Next. */
    method TryNext() returns (run: Option<Engine.Run>)
      modifies this`queue, this`activeCount
      ensures run.Some? <==> old(activeCount) < maxConcurrent && old(queue) != []
      ensures run.Some? ==> [run.value] + queue == old(queue) && activeCount == old(activeCount) + 1
      ensures run.None? ==> queue == old(queue) && activeCount == old(activeCount)
      ensures forall c, s :: old(Shows(c, s)) ==> Shows(c, Engine.Checked(c, s))
    {
      if activeCount < maxConcurrent && |queue| > 0 {
        run := Some(queue[0]);
        queue := queue[1..];
        activeCount := activeCount + 1;
      } else {
        run := None;
      }
    }

    method Release()
      modifies this`activeCount, this`notify
      ensures notify && activeCount == if old(activeCount) > 0 then old(activeCount) - 1 else old(activeCount)
    {
      FreeSlot();
      Signal();
    }

    /** The critical section of Release. */
    method FreeSlot()
      modifies this`activeCount
      ensures activeCount == if old(activeCount) > 0 then old(activeCount) - 1 else old(activeCount)
      ensures forall c, s :: old(Shows(c, s)) && s.returning > 0 ==> Shows(c, Engine.Released(s))
    {
      if activeCount > 0 {
        activeCount := activeCount - 1;
      }
    }
  }

  datatype Allocation = Allocation(cpus: int, mem: int)

  datatype Budget = Budget(totalCpus: int, totalMem: int, usedCpus: int, usedMem: int)

  /** What TryAcquire grants. */
  predicate Grants(b: Budget, a: Allocation) {
    Engine.Fits(Engine.Config(1, b.totalCpus, b.totalMem, a.cpus, a.mem), b.usedCpus, b.usedMem)
  }

  /** What CanFit answers. */
  predicate Fitting(b: Budget, a: Allocation) {
    b.usedCpus + a.cpus <= b.totalCpus && b.usedMem + a.mem <= b.totalMem
  }

  /** CanFit is documented to say whether TryAcquire would succeed. For a given request it does so, whatever the state
      of the budget, if and only if the request is not negative. */
  lemma CanFitPredicts(a: Allocation)
    ensures (forall b :: Fitting(b, a) <==> Grants(b, a)) <==> a.cpus >= 0 && a.mem >= 0
  {
    assert Fitting(Budget(a.cpus, a.mem, 0, 0), a);
  }

  /** A negative request fits an empty budget and is refused. */
  lemma CanFitMisleads()
    ensures Fitting(Budget(4, 1024, 0, 0), Allocation(-1, 0)) && !Grants(Budget(4, 1024, 0, 0), Allocation(-1, 0))
  {
  }

  class ResourceAllocator {
    var budget: Budget

    constructor (totalCpus: int, totalMem: int)
      ensures budget == Budget(totalCpus, totalMem, 0, 0)
    {
      budget := Budget(totalCpus, totalMem, 0, 0);
    }

    method TryAcquire(a: Allocation) returns (ok: bool)
      modifies this
      ensures ok == Grants(old(budget), a)
      ensures budget == if ok then old(budget).(usedCpus := old(budget).usedCpus + a.cpus, usedMem := old(budget).usedMem + a.mem)
                        else old(budget)
    {
      if a.cpus < 0 || a.mem < 0 {
        return false;
      }
      if budget.usedCpus + a.cpus > budget.totalCpus {
        return false;
      }
      if budget.usedMem + a.mem > budget.totalMem {
        return false;
      }
      budget := budget.(usedCpus := budget.usedCpus + a.cpus, usedMem := budget.usedMem + a.mem);
      return true;
    }

    method Release(a: Allocation)
      modifies this
      ensures budget == old(budget).(usedCpus := Engine.Clamped(old(budget).usedCpus, a.cpus),
                                     usedMem := Engine.Clamped(old(budget).usedMem, a.mem))
    {
      var cpus, mem := budget.usedCpus - a.cpus, budget.usedMem - a.mem;
      if cpus < 0 {
        cpus := 0;
      }
      if mem < 0 {
        mem := 0;
      }
      budget := budget.(usedCpus := cpus, usedMem := mem);
    }

    method CanFit(a: Allocation) returns (fits: bool)
      ensures fits == Fitting(budget, a)
    {
      fits := budget.usedCpus + a.cpus <= budget.totalCpus && budget.usedMem + a.mem <= budget.totalMem;
    }
  }
}
