/** Runs of ioctls from device start-up, and what holds over all of them. */
module GpuRuns {
  import opened Common
  import opened GpuMemory
  import opened GpuPageTable
  import opened GpuSystem
  import opened GpuInvariant
  import opened GpuIoctl
  import opened GpuDevice
  import opened GpuProofs
  import opened GpuKernel

  datatype Op =
    | CreateCtx(dma: nat)
    | Request(c: nat, size: nat, dma: nat)
    | Write(handle: nat, data: seq<byte>)
    | Read(handle: nat, size: nat)
    | FreeVa(va: nat, size: nat)
    | Submit(kernelVa: nat, argVa: nat)

  ghost predicate Init(g: Gpu) {
    && g.ddrNext == BASE && g.buffers == [] && g.nextHandle == 1 && g.host == map[]
    && g.ctx == seq(MAX_CONTEXTS, _ => Unused)
    && |g.mem| == DDR_SIZE
  }

  /** SUBMIT writes the kernel and argument addresses and binds the context in the kernel address. */
  function Programmed(g: Gpu, kernelVa: nat, argVa: nat): Gpu {
    var p := g.(regs := g.regs[SM_PC_LO := Lo(kernelVa)][SM_PC_HI := Hi(kernelVa)]
                              [SM_ARG_LO := Lo(argVa)][SM_ARG_HI := Hi(argVa)]);
    Bind(p, kernelVa / 0x1_0000_0000_0000)
  }

  function ArgRegister(g: Gpu): nat {
    Join(Reg(g.regs, SM_ARG_LO), Reg(g.regs, SM_ARG_HI))
  }

  /** The device reads back the argument address the driver wrote in two halves. */
  lemma ArgRegisterHolds(g: Gpu, kernelVa: nat, argVa: nat)
    requires argVa < TWO64
    ensures ArgRegister(Programmed(g, kernelVa, argVa)) == argVa
  {
    JoinHalves(argVa);
  }

  /** A new coherent allocation gets an address no other allocation has. */
  predicate FreshDma(g: Gpu, dma: nat) {
    dma !in g.host && dma < TWO64
  }

  /** The calls whose behaviour the source defines: context ids come from a successful creation, sizes and addresses
      fit their fields, and a kernel makes only aligned accesses inside the device memory. */
  ghost predicate Allowed(g: Gpu, op: Op) {
    match op
    case CreateCtx(dma) => FreshDma(g, dma)
    case Request(c, size, dma) => FreshDma(g, dma) && size < TWO32 && (c != 0 ==> Usable(g, c))
    case Write(handle, data) => true
    case Read(handle, size) => true
    case FreeVa(va, size) => size < TWO32 && (1 <= VaCtx(va) <= |g.ctx| ==> !g.ctx[VaCtx(va) - 1].Broken?)
    case Submit(kernelVa, argVa) =>
      && kernelVa < TWO64 && argVa < TWO64
      && var p := Programmed(g, kernelVa, argVa); KernelOk(p, ArgRegister(p))
  }

  /** Where the kernel of a SUBMIT writes its 4096 bytes, as an offset into the device memory. */
  function Destination(g: Gpu, kernelVa: nat, argVa: nat): nat
    requires var p := Programmed(g, kernelVa, argVa); KernelOk(p, ArgRegister(p))
  {
    var p := Programmed(g, kernelVa, argVa);
    At(p, Arg(p, ArgRegister(p), 2))
  }

  /** A call does not let a kernel write into a page table in use. This is a condition on SUBMIT alone; the driver
      does not check it. */
  ghost predicate Contained(g: Gpu, op: Op) {
    op.Submit? && Allowed(g, op) ==> MissesTables(g, Destination(g, op.kernelVa, op.argVa))
  }

  /** One ioctl. Where the invariant does not hold the driver may write outside its tables and the DDR, so any
      state may follow; RunInv shows that this never comes about in contained runs. */
  ghost predicate Next(g: Gpu, op: Op, g': Gpu) {
    && Allowed(g, op)
    && (Inv(g) ==>
          match op
          case CreateCtx(dma) => g' == CtxCreate(g, dma).0
          case Request(c, size, dma) => g' == ReqBuf(g, c, size, dma).0
          case Write(handle, data) => g' == WriteBuf(g, handle, data).0
          case Read(handle, size) => g' == ReadBuf(g, handle, size).0
          case FreeVa(va, size) => g' == Free(g, va, size).0
          case Submit(kernelVa, argVa) => var p := Programmed(g, kernelVa, argVa); g' == RunKernel(p, ArgRegister(p)))
  }

  lemma RegsInv(g: Gpu, g': Gpu)
    requires Inv(g) && g' == g.(regs := g'.regs)
    ensures Inv(g')
  {
    forall k | 0 <= k < |g.ctx| && g.ctx[k].Ready?
      ensures CtxOk(g.ctx[k], g.ddrNext, g.host) && TableOk(k, g.ctx[k], g.buffers, g.mem)
    {
      GetCtx(g, k);
    }
  }

  lemma InitInv(g: Gpu)
    requires Init(g)
    ensures Inv(g)
  {
  }

  lemma SubmitInv(g: Gpu, kernelVa: nat, argVa: nat, g': Gpu)
    requires Inv(g) && Next(g, Submit(kernelVa, argVa), g') && Contained(g, Submit(kernelVa, argVa))
    ensures Inv(g')
  {
    var p := Programmed(g, kernelVa, argVa);
    RegsInv(g, p);
    var arg := ArgRegister(p);
    assert MissesTables(p, At(p, Arg(p, arg, 2))) by {
      forall k | 0 <= k < |p.ctx| && Synced(p.buffers, k + 1) ensures OffRange(p.ctx[k], At(p, Arg(p, arg, 2))) {
        assert OffRange(g.ctx[k], Destination(g, kernelVa, argVa));
      }
    }
    AddInv(p, At(p, Arg(p, arg, 0)), At(p, Arg(p, arg, 1)), At(p, Arg(p, arg, 2)));
  }

  /** Every contained ioctl keeps the invariant. */
  lemma NextInv(g: Gpu, op: Op, g': Gpu)
    requires Inv(g) && Next(g, op, g') && Contained(g, op)
    ensures Inv(g')
  {
    match op
    case CreateCtx(dma) => CtxCreateInv(g, dma);
    case Request(c, size, dma) =>
      if c != 0 && DdrAlloc(g.ddrNext, size).Some? {
        ReqBufInv(g, c, size, dma);
      }
    case Write(handle, data) => WriteBufInv(g, handle, data);
    case Read(handle, size) => ReadBufInv(g, handle, size);
    case FreeVa(va, size) => FreeInv(g, va, size);
    case Submit(kernelVa, argVa) => SubmitInv(g, kernelVa, argVa, g');
  }

  /** Every allowed call has a next state. */
  lemma CanStep(g: Gpu, op: Op) returns (g': Gpu)
    requires Inv(g) && Allowed(g, op)
    ensures Next(g, op, g')
  {
    match op
    case CreateCtx(dma) => g' := CtxCreate(g, dma).0;
    case Request(c, size, dma) => g' := ReqBuf(g, c, size, dma).0;
    case Write(handle, data) => g' := WriteBuf(g, handle, data).0;
    case Read(handle, size) => g' := ReadBuf(g, handle, size).0;
    case FreeVa(va, size) => g' := Free(g, va, size).0;
    case Submit(kernelVa, argVa) => var p := Programmed(g, kernelVa, argVa); g' := RunKernel(p, ArgRegister(p));
  }

  ghost predicate StepAt(run: seq<Gpu>, ops: seq<Op>, k: nat) {
    k < |ops| && k + 1 < |run| && Next(run[k], ops[k], run[k + 1])
  }

  /** run goes from its first to its last state by ops. */
  ghost predicate Segment(run: seq<Gpu>, ops: seq<Op>) {
    |run| == |ops| + 1 && forall k {:trigger StepAt(run, ops, k)} :: 0 <= k < |ops| ==> StepAt(run, ops, k)
  }

  /** A segment in which no kernel writes into a page table in use. */
  ghost predicate ContainedSegment(run: seq<Gpu>, ops: seq<Op>) {
    Segment(run, ops) && forall k {:trigger StepAt(run, ops, k)} :: 0 <= k < |ops| ==> Contained(run[k], ops[k])
  }

  /** A run from device start-up. */
  ghost predicate IsRun(run: seq<Gpu>, ops: seq<Op>) {
    ContainedSegment(run, ops) && Init(run[0])
  }

  /** The invariant holds throughout every such run. */
  lemma {:induction false} RunInv(run: seq<Gpu>, ops: seq<Op>, k: nat)
    requires ContainedSegment(run, ops) && k <= |ops| && (Init(run[0]) || Inv(run[0]))
    ensures Inv(run[k])
  {
    if k == 0 {
      if Init(run[0]) {
        InitInv(run[0]);
      }
    } else {
      RunInv(run, ops, k - 1);
      assert StepAt(run, ops, k - 1);
      NextInv(run[k - 1], ops[k - 1], run[k]);
    }
  }

  /** After every run each page table and each buffer lies inside the DDR, and no two of them overlap. */
  lemma RegionsOverRuns(run: seq<Gpu>, ops: seq<Op>)
    requires IsRun(run, ops)
    ensures var g := run[|ops|];
            && (forall k :: 0 <= k < |g.ctx| && g.ctx[k].Ready? ==> InDdr(g.ctx[k].phys, TABLE_SIZE))
            && (forall i :: 0 <= i < |g.buffers| ==> InDdr(g.buffers[i].pa, Align(g.buffers[i].size)))
            && (forall k, l :: 0 <= k < l < |g.ctx| && g.ctx[k].Ready? && g.ctx[l].Ready? ==>
                  Apart(g.ctx[k].phys, TABLE_SIZE, g.ctx[l].phys, TABLE_SIZE))
            && (forall i, j :: 0 <= i < j < |g.buffers| ==>
                  Apart(g.buffers[i].pa, Align(g.buffers[i].size), g.buffers[j].pa, Align(g.buffers[j].size)))
            && (forall i, k :: 0 <= i < |g.buffers| && 0 <= k < |g.ctx| && g.ctx[k].Ready? ==>
                  Apart(g.buffers[i].pa, Align(g.buffers[i].size), g.ctx[k].phys, TABLE_SIZE))
  {
    RunInv(run, ops, |ops|);
    var g := run[|ops|];
    forall k | 0 <= k < |g.ctx| && g.ctx[k].Ready? ensures InDdr(g.ctx[k].phys, TABLE_SIZE) { GetCtx(g, k); }
    forall i | 0 <= i < |g.buffers| ensures InDdr(g.buffers[i].pa, Align(g.buffers[i].size)) { GetBuf(g, i); }
    forall k, l | 0 <= k < l < |g.ctx| && g.ctx[k].Ready? && g.ctx[l].Ready?
      ensures Apart(g.ctx[k].phys, TABLE_SIZE, g.ctx[l].phys, TABLE_SIZE)
    {
      assert TablesApart(g.ctx[k], g.ctx[l]);
    }
    forall i, j | 0 <= i < j < |g.buffers|
      ensures Apart(g.buffers[i].pa, Align(g.buffers[i].size), g.buffers[j].pa, Align(g.buffers[j].size))
    {
      GetDistinct(g.buffers, i, j);
    }
    forall i, k | 0 <= i < |g.buffers| && 0 <= k < |g.ctx| && g.ctx[k].Ready?
      ensures Apart(g.buffers[i].pa, Align(g.buffers[i].size), g.ctx[k].phys, TABLE_SIZE)
    {
      assert OffTable(g.buffers[i], g.ctx[k]);
    }
  }

  /** In every run an allocation that fits the DDR writes only entries that the page table has. */
  lemma EntriesOverRuns(run: seq<Gpu>, ops: seq<Op>, c: nat, size: nat)
    requires IsRun(run, ops) && Usable(run[|ops|], c) && DdrAlloc(run[|ops|].ddrNext, size).Some?
    ensures run[|ops|].ctx[c - 1].vpageNext + Pages(size) < ENTRIES
  {
    RunInv(run, ops, |ops|);
    VpageInTable(run[|ops|], c, size);
  }

  /** No run is cut short: any allowed call extends it. */
  lemma RunExtends(run: seq<Gpu>, ops: seq<Op>, op: Op) returns (g': Gpu)
    requires IsRun(run, ops) && Allowed(run[|ops|], op)
    ensures Segment(run + [g'], ops + [op]) && (Contained(run[|ops|], op) ==> IsRun(run + [g'], ops + [op]))
  {
    RunInv(run, ops, |ops|);
    g' := CanStep(run[|ops|], op);
    var run', ops' := run + [g'], ops + [op];
    forall k | 0 <= k < |ops'| ensures StepAt(run', ops', k) {
      assert k < |ops| ==> StepAt(run, ops, k);
    }
    forall k | 0 <= k < |ops| ensures Contained(run'[k], ops'[k]) {
      assert StepAt(run, ops, k);
    }
  }
}
