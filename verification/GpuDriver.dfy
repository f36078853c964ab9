/** The driver's routines in the form the source has: globals updated step by step, loops over slots, pages and
buffers, register writes followed by a poll. Each is proved equal to its step of the transition system. */
module GpuDriver {
  import opened Common
  import opened GpuMemory
  import opened GpuPageTable
  import opened GpuSystem
  import opened GpuInvariant
  import opened GpuDevice
  import opened GpuKernel
  import Ioctl = GpuIoctl
  import Runs = GpuRuns

  class Driver {
    var ddrNext: nat
    var ctx: seq<Context>
    var buffers: seq<Buffer>
    var nextHandle: nat
    var host: map<nat, seq<byte>>
    var mem: seq<byte>
    var regs: map<nat, nat>

    ghost function State(): Gpu
      reads this
    {
      Gpu(ddrNext, ctx, buffers, nextHandle, host, mem, regs)
    }

    /** A store to a device register; the doorbell makes the device transfer. */
    method WriteReg(addr: nat, value: nat)
      requires addr == DMA_DOORBELL ==> value == 1 && TransferOk(host, mem, regs)
      modifies this`regs, this`mem, this`host
      ensures addr != DMA_DOORBELL ==> mem == old(mem) && host == old(host) && regs == old(regs)[addr := value]
      ensures addr == DMA_DOORBELL ==> State() == Doorbell(old(State()))
    {
      if addr == DMA_DOORBELL {
        var src, dst := DmaSrc(regs), DmaDst(regs);
        var size, direction := Reg(regs, DMA_SIZE), Reg(regs, DMA_CTRL);
        regs := regs[addr := value];
        if direction == H2D {
          mem := Copy(mem, DdrIndex(dst), host[src][..size]);
        } else {
          host := host[dst := Copy(host[dst], 0, mem[DdrIndex(src)..DdrIndex(src) + size])];
        }
        regs := regs[DMA_STATUS := 1];
      } else {
        regs := regs[addr := value];
      }
    }

    method Program(src: nat, dst: nat, size: nat, direction: nat)
      modifies this`regs, this`mem, this`host
      ensures State() == old(State()).(regs := ProgramDma(old(regs), src, dst, size, direction))
    {
      WriteReg(DMA_SRC_LO, Lo(src));
      WriteReg(DMA_SRC_HI, Hi(src));
      WriteReg(DMA_DST_LO, Lo(dst));
      WriteReg(DMA_DST_HI, Hi(dst));
      WriteReg(DMA_SIZE, size);
      WriteReg(DMA_CTRL, direction);
    }

    /** The countdown loop: it gives up exactly when the status bit is not raised. */
    method Poll() returns (ok: bool)
      ensures ok <==> Reg(regs, DMA_STATUS) % 2 == 1
    {
      var timeout := 1000000;
      while Reg(regs, DMA_STATUS) % 2 == 0
        invariant timeout > 0
        decreases timeout
      {
        timeout := timeout - 1;
        if timeout == 0 {
          return false;
        }
      }
      return true;
    }

    /** gp_gpu_dma: program, ring, poll. The device has raised the status bit by the time it is polled, so the
        transfer never times out. */
    method Dma(src: nat, dst: nat, size: nat, direction: nat) returns (ok: bool)
      requires |mem| == DDR_SIZE && src < TWO64 && dst < TWO64 && direction <= 1
      requires direction == H2D ==> InDdr(dst, size) && src in host && size <= |host[src]|
      requires direction == D2H ==> InDdr(src, size) && dst in host && size <= |host[dst]|
      modifies this`regs, this`mem, this`host
      ensures ok
      ensures direction == H2D ==> State() == DmaToDevice(old(State()), src, dst, size)
      ensures direction == D2H ==> State() == DmaToHost(old(State()), src, dst, size)
    {
      GpGpuDma(State(), src, dst, size);
      Program(src, dst, size, direction);
      WriteReg(DMA_DOORBELL, 1);
      ok := Poll();
    }

    /** gpu_ddr_alloc: 0 means that the DDR is exhausted. */
    method DdrAlloc(size: nat) returns (addr: nat)
      requires ddrNext >= BASE
      modifies this`ddrNext
      ensures addr != 0 <==> Ioctl.DdrAlloc(old(ddrNext), size).Some?
      ensures addr != 0 ==> addr == old(ddrNext) && ddrNext == old(ddrNext) + Align(size)
      ensures addr == 0 ==> ddrNext == old(ddrNext)
    {
      if ddrNext + Align(size) > BASE + DDR_SIZE {
        return 0;
      }
      addr := ddrNext;
      ddrNext := ddrNext + Align(size);
    }

    /** The slot loop of gpu_ctx_create. */
    method FirstUnused() returns (i: nat)
      ensures i == Ioctl.FirstUnused(ctx)
    {
      i := 0;
      while i < |ctx|
        invariant i <= Ioctl.FirstUnused(ctx)
      {
        if ctx[i].Unused? {
          return;
        }
        i := i + 1;
      }
    }

    /** gpu_ctx_create: the id of the new context, or 0. */
    method CtxCreate(dma: nat) returns (id: nat)
      requires ddrNext >= BASE
      modifies this`ddrNext, this`ctx, this`host
      ensures State() == Ioctl.CtxCreate(old(State()), dma).0
      ensures Ioctl.CtxCreate(old(State()), dma).1 == if id == 0 then None else Some(id)
    {
      var i := FirstUnused();
      if i == |ctx| {
        return 0;
      }
      AlignedTable();
      var phys := DdrAlloc(TABLE_SIZE);
      if phys == 0 {
        ctx := ctx[i := Broken];
        return 0;
      }
      ctx := ctx[i := Ready(0, dma, phys, EmptyTable())];
      host := host[dma := Encode(EmptyTable())];
      return i + 1;
    }

    /** gpu_alloc for a usable context: the virtual page and physical address, or failure. */
    method Alloc(c: nat, size: nat) returns (ok: bool, vpage: nat, pa: nat)
      requires Inv(State()) && Ioctl.Usable(State(), c)
      modifies this
      ensures ok == Ioctl.DdrAlloc(old(ddrNext), size).Some?
      ensures State() == if ok then Ioctl.Alloc(old(State()), c, size) else old(State())
      ensures ok ==> vpage == old(ctx)[c - 1].vpageNext && pa == old(ddrNext)
    {
      var x := ctx[c - 1];
      assert CtxOk(x, ddrNext, host);
      if Ioctl.DdrAlloc(ddrNext, size).Some? {
        Ioctl.VpageInTable(State(), c, size);
      }
      pa := DdrAlloc(size);
      vpage := x.vpageNext;
      if pa == 0 {
        return false, vpage, pa;
      }
      var table := MapPages(x.table, vpage, pa, Pages(size));
      ctx := ctx[c - 1 := x.(vpageNext := vpage + Pages(size), table := table)];
      host := host[x.dma := Encode(table)];
      ok := Dma(x.dma, x.phys, TABLE_SIZE, H2D);
    }

    /** gpu_free. */
    method Free(va: nat, size: nat) returns (ok: bool)
      requires Inv(State()) && (1 <= VaCtx(va) <= |ctx| ==> !ctx[VaCtx(va) - 1].Broken?)
      modifies this`ctx, this`host
      ensures (State(), ok) == Ioctl.Free(old(State()), va, size)
    {
      var c := VaCtx(va);
      if c == 0 || c > MAX_CONTEXTS {
        return false;
      }
      var x := ctx[c - 1];
      if x.Unused? {
        return Ioctl.FreePages(size) == 0;
      }
      var table;
      table, ok := ClearPages(x.table, VaPage(va), Ioctl.FreePages(size));
      ctx := ctx[c - 1 := x.(table := table)];
      host := host[x.dma := Encode(table)];
    }

    /** find_buffer: the position of the buffer in the list. */
    method FindBuffer(handle: nat) returns (found: Option<nat>)
      ensures found == Ioctl.FindBuffer(buffers, handle)
    {
      for i := 0 to |buffers|
        invariant forall j :: 0 <= j < i ==> buffers[j].handle != handle
      {
        if buffers[i].handle == handle {
          FindFirst(buffers, handle, i);
          return Some(i);
        }
      }
      return None;
    }

    /** REQ_BUF; dma is the address of the fresh host buffer. The handle is 0 on failure. */
    method ReqBuf(c: nat, size: nat, dma: nat) returns (handle: nat)
      requires Inv(State()) && (c != 0 ==> Ioctl.Usable(State(), c)) && nextHandle > 0
      modifies this
      ensures State() == Ioctl.ReqBuf(old(State()), c, size, dma).0
      ensures Ioctl.ReqBuf(old(State()), c, size, dma).1 == if handle == 0 then None else Some(handle)
    {
      if c == 0 {
        return 0;
      }
      var ok, vpage, pa := Alloc(c, size);
      if !ok {
        return 0;
      }
      host := host[dma := Zeros(size)];
      handle := nextHandle;
      nextHandle := nextHandle + 1;
      buffers := [Buffer(handle, size, dma, c, vpage, pa)] + buffers;
    }

    /** WRITE_BUF. */
    method WriteBuf(handle: nat, data: seq<byte>) returns (ok: bool)
      requires Inv(State())
      modifies this`regs, this`mem, this`host
      ensures (State(), ok) == Ioctl.WriteBuf(old(State()), handle, data)
    {
      var found := FindBuffer(handle);
      if found.None? {
        return false;
      }
      var b := buffers[found.value];
      if |data| > b.size {
        return false;
      }
      assert BufOk(b, ctx, ddrNext, host);
      AlignCovers(b.size);
      host := host[b.dma := Copy(host[b.dma], 0, data)];
      ok := Dma(b.dma, b.pa, |data|, H2D);
    }

    /** READ_BUF. */
    method ReadBuf(handle: nat, size: nat) returns (data: Option<seq<byte>>)
      requires Inv(State())
      modifies this`regs, this`mem, this`host
      ensures (State(), data) == Ioctl.ReadBuf(old(State()), handle, size)
    {
      var found := FindBuffer(handle);
      if found.None? {
        return None;
      }
      var b := buffers[found.value];
      if size > b.size {
        return None;
      }
      assert BufOk(b, ctx, ddrNext, host);
      AlignCovers(b.size);
      var ok := Dma(b.pa, b.dma, size, D2H);
      return Some(host[b.dma][..size]);
    }

    /** gpu_bind_context: an id out of range is refused and leaves the old binding. */
    method BindContext(c: nat) returns (ok: bool)
      requires |ctx| == MAX_CONTEXTS
      modifies this`regs, this`mem, this`host
      ensures ok <==> 1 <= c <= MAX_CONTEXTS
      ensures State() == Bind(old(State()), c)
    {
      if c == 0 || c > MAX_CONTEXTS {
        return false;
      }
      var phys := if ctx[c - 1].Ready? then ctx[c - 1].phys else 0;
      WriteReg(PT_BASE_LO, Lo(phys));
      WriteReg(PT_BASE_HI, Hi(phys));
      WriteReg(CTX_ID, if ctx[c - 1].Unused? then 0 else c);
      WriteReg(MMU_ENABLE, 1);
      return true;
    }

    /** SUBMIT: program the registers, bind the context of the kernel address, and let the device run the addition
        on its memory. */
    method Submit(kernelVa: nat, argVa: nat)
      requires |ctx| == MAX_CONTEXTS
      requires var p := Runs.Programmed(State(), kernelVa, argVa); KernelOk(p, Runs.ArgRegister(p))
      modifies this`regs, this`mem, this`host
      ensures var p := Runs.Programmed(old(State()), kernelVa, argVa); State() == RunKernel(p, Runs.ArgRegister(p))
    {
      WriteReg(SM_PC_LO, Lo(kernelVa));
      WriteReg(SM_PC_HI, Hi(kernelVa));
      WriteReg(SM_ARG_LO, Lo(argVa));
      WriteReg(SM_ARG_HI, Hi(argVa));
      var _ := BindContext(kernelVa / 0x1_0000_0000_0000);
      ghost var p := State();
      assert p == Runs.Programmed(old(State()), kernelVa, argVa);
      Start();
    }

    /** The start register: process_vector_addition, on the device memory in place. */
    method Start()
      requires KernelOk(State(), Runs.ArgRegister(State()))
      modifies this`mem
      ensures State() == RunKernel(old(State()), Runs.ArgRegister(old(State())))
    {
      var args := Offset(Join(Reg(regs, SM_ARG_LO), Reg(regs, SM_ARG_HI)));
      var a := Offset(Load(mem, args, 8));
      var b := Offset(Load(mem, args + 8, 8));
      var d := Offset(Load(mem, args + 16, 8));
      AddInPlace(a, b, d);
    }

    method AddInPlace(a: nat, b: nat, d: nat)
      requires a + 4096 <= |mem| && b + 4096 <= |mem| && d + 4096 <= |mem|
      modifies this`mem
      ensures mem == VecAdd(old(mem), a, b, d, 1024)
    {
      var bytes := mem;
      var device := new byte[|bytes|](i requires 0 <= i < |bytes| => bytes[i]);
      assert device[..] == bytes;
      VectorAddition(device, a, b, d);
      mem := device[..];
    }

    /** gpu_local_ddr_address of a translated address. */
    method Offset(va: nat) returns (at: nat)
      requires Reachable(State(), va, 0)
      ensures at == At(State(), va)
    {
      at := LocalOffset(Translate(mem, regs, va).value);
    }
  }

  lemma AlignedTable()
    ensures Align(TABLE_SIZE) == TABLE_SIZE
  {
  }

  lemma {:induction false} FindFirst(buffers: seq<Buffer>, handle: nat, i: nat)
    requires i < |buffers| && buffers[i].handle == handle && forall j :: 0 <= j < i ==> buffers[j].handle != handle
    ensures Ioctl.FindBuffer(buffers, handle) == Some(i)
  {
    if i > 0 {
      FindFirst(buffers[1..], handle, i - 1);
    }
  }
}
