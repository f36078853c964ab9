/** Driver and device as one transition system, one ioctl per step: the memory manager of
gpgpu_memory_manager.c, the buffer list of gpgpu_pcie_ep_driver.c, the DMA engine of gpgpu_dma.c and the
device registers, MMU and kernel of gp_gpu.c. */
module GpuSystem {
  import opened Common
  import opened GpuMemory
  import opened GpuPageTable

  // ---- state ----

  /** A context slot. A slot whose creation failed half-way keeps its id and is never usable (Broken). */
  datatype Context = Unused | Broken | Ready(vpageNext: nat, dma: nat, phys: nat, table: Table)

  /** A buffer of the driver's list. Its gpu_va is kept as the two parts it is packed from. */
  datatype Buffer = Buffer(handle: nat, size: nat, dma: nat, ctx: nat, vpage: nat, pa: nat) {
    function Va(): nat { PackVa(ctx, vpage) }
  }

  /** The driver's globals, the bytes of the coherent host allocations by DMA address, the device's DDR and its
      registers. A page table's allocation is seen by the driver as its array of entries and by DMA as bytes. */
  datatype Gpu = Gpu(ddrNext: nat, ctx: seq<Context>, buffers: seq<Buffer>, nextHandle: nat,
                     host: map<nat, seq<byte>>, mem: seq<byte>, regs: map<nat, nat>)

  // ---- registers ----

  const DMA_CTRL := 0x1000
  const DMA_SIZE := 0x1008
  const DMA_SRC_LO := 0x100c
  const DMA_SRC_HI := 0x1010
  const DMA_DST_LO := 0x1014
  const DMA_DST_HI := 0x1018
  const DMA_DOORBELL := 0x1100
  const DMA_STATUS := 0x1104
  const PT_BASE_LO := 0x508
  const PT_BASE_HI := 0x50c
  const CTX_ID := 0x510
  const MMU_ENABLE := 0x500
  const SM_PC_LO := 0x00
  const SM_PC_HI := 0x04
  const SM_ARG_LO := 0x08
  const SM_ARG_HI := 0x0c

  const H2D: nat := 0
  const D2H: nat := 1

  function Reg(regs: map<nat, nat>, a: nat): nat {
    if a in regs then regs[a] else 0
  }

  // ---- DMA ----

  /** The register writes of gp_gpu_dma before the doorbell, a 64-bit address in two halves. */
  function ProgramDma(regs: map<nat, nat>, src: nat, dst: nat, size: nat, direction: nat): map<nat, nat> {
    regs[DMA_SRC_LO := Lo(src)][DMA_SRC_HI := Hi(src)][DMA_DST_LO := Lo(dst)][DMA_DST_HI := Hi(dst)]
        [DMA_SIZE := size][DMA_CTRL := direction]
  }

  function DmaSrc(regs: map<nat, nat>): nat { Join(Reg(regs, DMA_SRC_LO), Reg(regs, DMA_SRC_HI)) }
  function DmaDst(regs: map<nat, nat>): nat { Join(Reg(regs, DMA_DST_LO), Reg(regs, DMA_DST_HI)) }

  /** The device truncates an address to a 32-bit offset into its DDR. */
  function DdrIndex(addr: nat): nat {
    (addr - BASE) % 0x1_0000_0000
  }

  /** What the programmed transfer needs to stay inside the host allocation and the DDR. */
  predicate TransferOk(host: map<nat, seq<byte>>, mem: seq<byte>, regs: map<nat, nat>) {
    var src, dst, size := DmaSrc(regs), DmaDst(regs), Reg(regs, DMA_SIZE);
    if Reg(regs, DMA_CTRL) == H2D then src in host && size <= |host[src]| && DdrIndex(dst) + size <= |mem|
    else dst in host && size <= |host[dst]| && DdrIndex(src) + size <= |mem|
  }

  /** The doorbell: copy host memory to DDR or DDR to host memory, and raise the status bit. */
  function Doorbell(g: Gpu): Gpu
    requires TransferOk(g.host, g.mem, g.regs)
  {
    var src, dst, size := DmaSrc(g.regs), DmaDst(g.regs), Reg(g.regs, DMA_SIZE);
    var rung := g.(regs := g.regs[DMA_DOORBELL := 1][DMA_STATUS := 1]);
    if Reg(g.regs, DMA_CTRL) == H2D then rung.(mem := Copy(g.mem, DdrIndex(dst), g.host[src][..size]))
    else rung.(host := g.host[dst := Copy(g.host[dst], 0, g.mem[DdrIndex(src)..DdrIndex(src) + size])])
  }

  predicate InDdr(addr: nat, size: nat) {
    BASE <= addr && addr + size <= BASE + DDR_SIZE
  }

  /** The device reads back the 64-bit addresses the driver split into halves. */
  lemma ProgramRead(regs: map<nat, nat>, src: nat, dst: nat, size: nat, direction: nat)
    requires src < TWO64 && dst < TWO64
    ensures var p := ProgramDma(regs, src, dst, size, direction);
            DmaSrc(p) == src && DmaDst(p) == dst && Reg(p, DMA_SIZE) == size && Reg(p, DMA_CTRL) == direction
  {
    JoinHalves(src);
    JoinHalves(dst);
  }

  lemma IndexInDdr(addr: nat, size: nat)
    requires InDdr(addr, size)
    ensures DdrIndex(addr) == addr - BASE && addr < TWO64
  {
  }

  function AfterDma(regs: map<nat, nat>, src: nat, dst: nat, size: nat, direction: nat): map<nat, nat> {
    ProgramDma(regs, src, dst, size, direction)[DMA_DOORBELL := 1][DMA_STATUS := 1]
  }

  /** A completed transfer to the device: the bytes moved, and the registers it leaves behind. */
  function DmaToDevice(g: Gpu, src: nat, dst: nat, size: nat): Gpu
    requires InDdr(dst, size) && |g.mem| == DDR_SIZE && src in g.host && size <= |g.host[src]|
  {
    g.(mem := Copy(g.mem, dst - BASE, g.host[src][..size]), regs := AfterDma(g.regs, src, dst, size, H2D))
  }

  /** A completed transfer to the host. */
  function DmaToHost(g: Gpu, src: nat, dst: nat, size: nat): Gpu
    requires InDdr(src, size) && |g.mem| == DDR_SIZE && dst in g.host && size <= |g.host[dst]|
  {
    g.(host := g.host[dst := Copy(g.host[dst], 0, g.mem[src - BASE..src - BASE + size])],
       regs := AfterDma(g.regs, src, dst, size, D2H))
  }

  /** gp_gpu_dma: program the registers and ring the doorbell. The split into halves, the device's reassembly
      and its truncation to 32 bits lose nothing: exactly the named bytes move. */
  lemma GpGpuDma(g: Gpu, src: nat, dst: nat, size: nat)
    requires |g.mem| == DDR_SIZE
    ensures src < TWO64 && InDdr(dst, size) && src in g.host && size <= |g.host[src]| ==>
              var p := g.(regs := ProgramDma(g.regs, src, dst, size, H2D));
              TransferOk(p.host, p.mem, p.regs) && Doorbell(p) == DmaToDevice(g, src, dst, size)
    ensures dst < TWO64 && InDdr(src, size) && dst in g.host && size <= |g.host[dst]| ==>
              var p := g.(regs := ProgramDma(g.regs, src, dst, size, D2H));
              TransferOk(p.host, p.mem, p.regs) && Doorbell(p) == DmaToHost(g, src, dst, size)
  {
    if src < TWO64 && InDdr(dst, size) {
      IndexInDdr(dst, size);
      ProgramRead(g.regs, src, dst, size, H2D);
    }
    if dst < TWO64 && InDdr(src, size) {
      IndexInDdr(src, size);
      ProgramRead(g.regs, src, dst, size, D2H);
    }
  }
}
