/** The ioctls of the GPU driver, each an atomic step of driver and device. */
module GpuIoctl {
  import opened Common
  import opened GpuMemory
  import opened GpuPageTable
  import opened GpuSystem
  import opened GpuInvariant

  // ---- gpu_ddr_alloc, gpu_ctx_create ----

  function DdrAlloc(ddrNext: nat, size: nat): Option<nat> {
    if ddrNext + Align(size) > BASE + DDR_SIZE then None else Some(ddrNext)
  }

  function FirstUnused(ctx: seq<Context>): (i: nat)
    ensures i <= |ctx|
    ensures forall j :: 0 <= j < i ==> !ctx[j].Unused?
    ensures i < |ctx| ==> ctx[i].Unused?
  {
    if ctx == [] || ctx[0].Unused? then 0 else 1 + FirstUnused(ctx[1..])
  }

  /** Creating a context takes the first unused slot and reserves DDR for its table; when that fails
      the slot is lost. dma is the address of the fresh zero-filled host table. */
  function CtxCreate(g: Gpu, dma: nat): (Gpu, Option<nat>) {
    var i := FirstUnused(g.ctx);
    if i == |g.ctx| then (g, None)
    else
      match DdrAlloc(g.ddrNext, TABLE_SIZE)
      case None => (g.(ctx := g.ctx[i := Broken]), None)
      case Some(phys) =>
        (g.(ctx := g.ctx[i := Ready(0, dma, phys, EmptyTable())],
            ddrNext := g.ddrNext + TABLE_SIZE,
            host := g.host[dma := Encode(EmptyTable())]), Some(i + 1))
  }

  // ---- gpu_alloc, REQ_BUF ----

  predicate Usable(g: Gpu, c: nat) {
    1 <= c <= |g.ctx| && g.ctx[c - 1].Ready?
  }

  /** The array bound gpu_alloc never checks: pages handed out to a context never exceed the DDR that was
      consumed, so an allocation that fits the DDR also fits the page table. */
  lemma VpageInTable(g: Gpu, c: nat, size: nat)
    requires Inv(g) && Usable(g, c) && DdrAlloc(g.ddrNext, size).Some?
    ensures g.ctx[c - 1].vpageNext + Pages(size) < ENTRIES
  {
    assert CtxOk(g.ctx[c - 1], g.ddrNext, g.host);
  }

  /** The driver's half of gpu_alloc: map the pages in the host table. */
  ghost function MapBuffer(g: Gpu, c: nat, size: nat): Gpu
    requires Inv(g) && Usable(g, c) && DdrAlloc(g.ddrNext, size).Some?
  {
    VpageInTable(g, c, size);
    assert CtxOk(g.ctx[c - 1], g.ddrNext, g.host);
    var x := g.ctx[c - 1];
    var table := Mapped(x.table, x.vpageNext, g.ddrNext, Pages(size));
    g.(ddrNext := g.ddrNext + Align(size),
       ctx := g.ctx[c - 1 := x.(vpageNext := x.vpageNext + Pages(size), table := table)],
       host := g.host[x.dma := Encode(table)])
  }

  /** gpu_alloc: map, then copy the whole table to the device. */
  ghost function Alloc(g: Gpu, c: nat, size: nat): Gpu
    requires Inv(g) && Usable(g, c) && DdrAlloc(g.ddrNext, size).Some?
  {
    var m := MapBuffer(g, c, size);
    assert CtxOk(g.ctx[c - 1], g.ddrNext, g.host);
    DmaToDevice(m, g.ctx[c - 1].dma, g.ctx[c - 1].phys, TABLE_SIZE)
  }

  /** REQ_BUF: a host buffer at the fresh address dma, a device buffer, and an entry at the head of the list. */
  ghost function ReqBuf(g: Gpu, c: nat, size: nat, dma: nat): (Gpu, Option<nat>)
    requires Inv(g) && (c != 0 ==> Usable(g, c))
  {
    if c == 0 then (g, None)
    else if DdrAlloc(g.ddrNext, size).None? then (g, None)
    else
      var x := g.ctx[c - 1];
      var a := Alloc(g, c, size);
      (a.(host := a.host[dma := Zeros(size)],
          buffers := [Buffer(g.nextHandle, size, dma, c, x.vpageNext, g.ddrNext)] + g.buffers,
          nextHandle := g.nextHandle + 1), Some(g.nextHandle))
  }

  // ---- WRITE_BUF, READ_BUF ----

  function FindBuffer(buffers: seq<Buffer>, handle: nat): (i: Option<nat>)
    ensures i.None? ==> forall k :: 0 <= k < |buffers| ==> buffers[k].handle != handle
    ensures i.Some? ==> i.value < |buffers| && buffers[i.value].handle == handle
  {
    if buffers == [] then None
    else if buffers[0].handle == handle then Some(0)
    else
      match FindBuffer(buffers[1..], handle)
      case None => None
      case Some(k) => Some(k + 1)
  }

  /** WRITE_BUF: user bytes into the host buffer, then DMA to the device buffer. */
  ghost function WriteBuf(g: Gpu, handle: nat, data: seq<byte>): (Gpu, bool)
    requires Inv(g)
  {
    match FindBuffer(g.buffers, handle)
    case None => (g, false)
    case Some(i) =>
      var b := g.buffers[i];
      if |data| > b.size then (g, false)
      else
        assert BufOk(b, g.ctx, g.ddrNext, g.host);
        var staged := g.(host := g.host[b.dma := Copy(g.host[b.dma], 0, data)]);
        (DmaToDevice(staged, b.dma, b.pa, |data|), true)
  }

  /** READ_BUF: DMA from the device buffer into the host buffer, whose bytes are returned. */
  ghost function ReadBuf(g: Gpu, handle: nat, size: nat): (Gpu, Option<seq<byte>>)
    requires Inv(g)
  {
    match FindBuffer(g.buffers, handle)
    case None => (g, None)
    case Some(i) =>
      var b := g.buffers[i];
      if size > b.size then (g, None)
      else
        assert BufOk(b, g.ctx, g.ddrNext, g.host);
        var fetched := DmaToHost(g, b.pa, b.dma, size);
        (fetched, Some(fetched.host[b.dma][..size]))
  }

  // ---- FREE ----

  /** The page count of gpu_free, whose PAGE_ALIGN works on a 32-bit size. */
  function FreePages(size: nat): nat {
    (size + 4095) % 0x1_0000_0000 / 4096
  }

  /** It wraps around, to zero pages, for the last sizes below 4 GB and only for them. */
  lemma FreePagesIff(size: nat)
    requires size < TWO32
    ensures FreePages(size) == Pages(size) <==> size <= 0xFFFF_F000
    ensures size > 0xFFFF_F000 ==> FreePages(size) == 0
  {
  }

  /** gpu_free: clear entries of the host table only; the device copy is left as it is. A slot that was never
      used has no table entries, so any page count but zero is refused there. */
  ghost function Free(g: Gpu, va: nat, size: nat): (Gpu, bool)
    requires Inv(g) && (1 <= VaCtx(va) <= |g.ctx| ==> !g.ctx[VaCtx(va) - 1].Broken?)
  {
    var c := VaCtx(va);
    if c == 0 || c > MAX_CONTEXTS then (g, false)
    else if g.ctx[c - 1].Unused? then (g, FreePages(size) == 0)
    else
      var x := g.ctx[c - 1];
      var k := ClearCount(x.table, VaPage(va), FreePages(size));
      var table := Cleared(x.table, VaPage(va), k);
      (g.(ctx := g.ctx[c - 1 := x.(table := table)], host := g.host[x.dma := Encode(table)]), k == FreePages(size))
  }
}
