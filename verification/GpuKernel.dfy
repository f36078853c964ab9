/** SUBMIT: the vector addition on translated operands, and what it must not overwrite. */
module GpuKernel {
  import opened Common
  import opened GpuMemory
  import opened GpuPageTable
  import opened GpuSystem
  import opened GpuInvariant
  import opened GpuDevice
  import opened GpuProofs

  // ---- operands ----

  /** The device translates the address to a place in its memory with size bytes after it. Only the first address is
      translated; what follows is taken from the memory behind it. */
  predicate Reachable(g: Gpu, va: nat, size: nat) {
    && TranslateOk(g.mem, g.regs, va) && Translate(g.mem, g.regs, va).Some?
    && 0 <= LocalOffset(Translate(g.mem, g.regs, va).value)
    && LocalOffset(Translate(g.mem, g.regs, va).value) + size <= |g.mem|
  }

  /** The offset of that place in the device memory. */
  function At(g: Gpu, va: nat): nat
    requires Reachable(g, va, 0)
  {
    LocalOffset(Translate(g.mem, g.regs, va).value)
  }

  /** The argument block holds three 64-bit addresses. */
  predicate ArgsOk(g: Gpu, argVa: nat) {
    argVa % 8 == 0 && Reachable(g, argVa, 24)
  }

  function Arg(g: Gpu, argVa: nat, i: nat): nat
    requires ArgsOk(g, argVa) && i < 3
  {
    Load(g.mem, At(g, argVa) + 8 * i, 8)
  }

  /** A pointer to 1024 words. */
  predicate OperandOk(g: Gpu, va: nat) {
    va % 4 == 0 && Reachable(g, va, 4096)
  }

  /** Every access of the kernel is aligned and inside the device memory: exactly when C defines what it does. */
  predicate KernelOk(g: Gpu, argVa: nat) {
    && ArgsOk(g, argVa)
    && OperandOk(g, Arg(g, argVa, 0)) && OperandOk(g, Arg(g, argVa, 1)) && OperandOk(g, Arg(g, argVa, 2))
  }

  lemma AtAligned(g: Gpu, va: nat)
    requires Reachable(g, va, 0)
    ensures At(g, va) % 4096 == va % 4096
  {
    var entry := Load(g.mem, LocalOffset(Reg(g.regs, PT_BASE_LO)) + 8 * VaPage(va), 8);
    OffsetInPage(entry - entry % 4096, va % 4096);
  }

  lemma OffsetInPage(page: nat, offset: nat)
    requires page % 4096 == 0 && offset < 4096
    ensures LocalOffset(page + offset) % 4096 == offset
  {
  }

  /** Neighbouring addresses in one page are translated to neighbouring places. */
  lemma SamePage(g: Gpu, va: nat, k: nat)
    requires |g.mem| == DDR_SIZE && Reachable(g, va, 4096) && va % 4096 + k < 4096
    ensures Reachable(g, va + k, 0) && At(g, va + k) == At(g, va) + k
  {
    InPage(va, k);
    OffsetNear(Translate(g.mem, g.regs, va).value, k);
  }

  lemma InPage(va: nat, k: nat)
    requires va % 4096 + k < 4096
    ensures VaPage(va + k) == VaPage(va) && (va + k) % 4096 == va % 4096 + k
  {
    assert (va + k) / 4096 == va / 4096;
  }

  lemma OffsetNear(addr: nat, k: nat)
    requires 0 <= LocalOffset(addr) && k < 4096 && LocalOffset(addr) + 4096 <= 0x8000_0000
    ensures LocalOffset(addr + k) == LocalOffset(addr) + k
  {
  }

  /** The device memory after the kernel has run on three places. */
  function AddAt(g: Gpu, x: nat, y: nat, z: nat): Gpu
    requires x + 4096 <= |g.mem| && y + 4096 <= |g.mem| && z + 4096 <= |g.mem|
  {
    g.(mem := VecAdd(g.mem, x, y, z, 1024))
  }

  /** process_vector_addition. */
  function RunKernel(g: Gpu, argVa: nat): Gpu
    requires KernelOk(g, argVa)
  {
    AddAt(g, At(g, Arg(g, argVa, 0)), At(g, Arg(g, argVa, 1)), At(g, Arg(g, argVa, 2)))
  }

  // ---- the page tables ----

  predicate OffRange(x: Context, z: nat) {
    x.Ready? ==> Apart(BASE + z, 4096, x.phys, TABLE_SIZE)
  }

  /** The 4096 bytes from offset z overlap no page table that the device uses. */
  ghost predicate MissesTables(g: Gpu, z: nat) {
    forall k {:trigger OffRange(g.ctx[k], z)} :: 0 <= k < |g.ctx| && Synced(g.buffers, k + 1) ==> OffRange(g.ctx[k], z)
  }

  /** Device memory outside the tables in use may hold anything. */
  lemma MemoryInv(g: Gpu, g': Gpu)
    requires Inv(g) && g' == g.(mem := g'.mem) && |g'.mem| == DDR_SIZE
    requires forall k :: 0 <= k < |g.ctx| && g.ctx[k].Ready? && Synced(g.buffers, k + 1) ==>
               CtxOk(g.ctx[k], g.ddrNext, g.host) && DevTable(g'.mem, g.ctx[k].phys) == DevTable(g.mem, g.ctx[k].phys)
    ensures Inv(g')
  {
    forall k | 0 <= k < |g.ctx| && g.ctx[k].Ready?
      ensures CtxOk(g.ctx[k], g.ddrNext, g.host) && TableOk(k, g.ctx[k], g.buffers, g'.mem)
    {
      GetCtx(g, k);
    }
  }

  lemma ChangeInv(g: Gpu, z: nat, g': Gpu)
    requires Inv(g) && z + 4096 <= DDR_SIZE && MissesTables(g, z)
    requires g' == g.(mem := g'.mem) && OnlyChanged(g.mem, g'.mem, z, 4096)
    ensures Inv(g')
  {
    forall k | 0 <= k < |g.ctx| && g.ctx[k].Ready? && Synced(g.buffers, k + 1)
      ensures CtxOk(g.ctx[k], g.ddrNext, g.host) && DevTable(g'.mem, g.ctx[k].phys) == DevTable(g.mem, g.ctx[k].phys)
    {
      assert CtxOk(g.ctx[k], g.ddrNext, g.host) && OffRange(g.ctx[k], z);
    }
    MemoryInv(g, g');
  }

  /** A kernel whose destination overlaps no table in use keeps the invariant, wherever its sources are. */
  lemma AddInv(g: Gpu, x: nat, y: nat, z: nat)
    requires Inv(g) && x + 4096 <= DDR_SIZE && y + 4096 <= DDR_SIZE && z + 4096 <= DDR_SIZE && MissesTables(g, z)
    ensures Inv(AddAt(g, x, y, z))
  {
    VecAddFrame(g.mem, x, y, z);
    ChangeInv(g, z, AddAt(g, x, y, z));
  }

  /** A destination inside one buffer is such a one. */
  lemma InsideBuffer(g: Gpu, i: nat, z: nat)
    requires Inv(g) && i < |g.buffers|
    requires g.buffers[i].pa <= BASE + z && BASE + z + 4096 <= g.buffers[i].pa + Align(g.buffers[i].size)
    ensures MissesTables(g, z)
  {
    forall k | 0 <= k < |g.ctx| && Synced(g.buffers, k + 1) ensures OffRange(g.ctx[k], z) {
      assert OffTable(g.buffers[i], g.ctx[k]);
    }
  }

  /** The buffer that a virtual address of the bound context lies in, and how far from its end. */
  lemma OperandBuffer(g: Gpu, c: nat, va: nat) returns (i: nat, offset: nat)
    requires Inv(g) && Bound(g, c) && Synced(g.buffers, c) && VaPage(va) < ENTRIES && Reachable(g, va, 0)
    ensures i < |g.buffers| && g.buffers[i].ctx == c && offset < Align(g.buffers[i].size)
    ensures offset == (VaPage(va) - g.buffers[i].vpage) * 4096 + va % 4096
    ensures BASE + At(g, va) == g.buffers[i].pa + offset
  {
    i := DevicePage(g, c, va);
    var b := g.buffers[i];
    offset := (VaPage(va) - b.vpage) * 4096 + va % 4096;
    LocalOffsetInDdr(b.pa + offset, 1);
  }

  /** A mapped destination of the bound context misses the tables if it is page-aligned, or more generally if its
      buffer does not end within its 1024 words. */
  lemma MappedDestination(g: Gpu, c: nat, va: nat) returns (i: nat, offset: nat)
    requires Inv(g) && Bound(g, c) && Synced(g.buffers, c) && VaPage(va) < ENTRIES && OperandOk(g, va)
    ensures i < |g.buffers| && g.buffers[i].ctx == c && BASE + At(g, va) == g.buffers[i].pa + offset
    ensures va % 4096 == 0 || offset + 4096 <= Align(g.buffers[i].size) ==> MissesTables(g, At(g, va))
  {
    i, offset := OperandBuffer(g, c, va);
    if va % 4096 == 0 || offset + 4096 <= Align(g.buffers[i].size) {
      InsideBuffer(g, i, At(g, va));
    }
  }

  // ---- what the kernel computes ----

  /** The k-th 32-bit word the device finds at an operand. */
  function WordAt(g: Gpu, va: nat, k: nat): nat
    requires Reachable(g, va, 4096) && k < 1024
  {
    Load(g.mem, At(g, va) + 4 * k, 4)
  }

  /** Memory outside the bound table does not influence translation. */
  lemma SameTranslation(g: Gpu, c: nat, g': Gpu, va: nat)
    requires Inv(g) && Inv(g') && Bound(g, c) && Synced(g.buffers, c) && VaPage(va) < ENTRIES
    requires g' == g.(mem := g'.mem) && CtxOk(g.ctx[c - 1], g.ddrNext, g.host)
    requires DevTable(g'.mem, g.ctx[c - 1].phys) == DevTable(g.mem, g.ctx[c - 1].phys)
    ensures TranslateOk(g.mem, g.regs, va) && TranslateOk(g'.mem, g'.regs, va)
    ensures Translate(g'.mem, g'.regs, va) == Translate(g.mem, g.regs, va)
  {
    TranslateReads(g, c, va);
    TranslateReads(g', c, va);
  }

  lemma KernelTranslation(g: Gpu, c: nat, x: nat, y: nat, z: nat, va: nat)
    requires Inv(g) && Bound(g, c) && Synced(g.buffers, c) && VaPage(va) < ENTRIES
    requires x + 4096 <= DDR_SIZE && y + 4096 <= DDR_SIZE && z + 4096 <= DDR_SIZE && MissesTables(g, z)
    ensures var g' := AddAt(g, x, y, z);
            && TranslateOk(g.mem, g.regs, va) && TranslateOk(g'.mem, g'.regs, va)
            && Translate(g'.mem, g'.regs, va) == Translate(g.mem, g.regs, va)
  {
    var g' := AddAt(g, x, y, z);
    AddInv(g, x, y, z);
    assert OffRange(g.ctx[c - 1], z);
    assert CtxOk(g.ctx[c - 1], g.ddrNext, g.host);
    VecAddFrame(g.mem, x, y, z);
    SameTranslation(g, c, g', va);
  }

  lemma OperandStays(g: Gpu, c: nat, x: nat, y: nat, d: nat)
    requires Inv(g) && Bound(g, c) && Synced(g.buffers, c) && VaPage(d) < ENTRIES && OperandOk(g, d)
    requires x + 4096 <= DDR_SIZE && y + 4096 <= DDR_SIZE && MissesTables(g, At(g, d))
    ensures OperandOk(AddAt(g, x, y, At(g, d)), d) && At(AddAt(g, x, y, At(g, d)), d) == At(g, d)
  {
    KernelTranslation(g, c, x, y, At(g, d), d);
  }

  lemma AddSums(g: Gpu, c: nat, a: nat, b: nat, d: nat, k: nat)
    requires Inv(g) && Bound(g, c) && Synced(g.buffers, c) && VaPage(d) < ENTRIES && k < 1024
    requires OperandOk(g, a) && OperandOk(g, b) && OperandOk(g, d)
    requires MissesTables(g, At(g, d)) && Ahead(At(g, a), At(g, d)) && Ahead(At(g, b), At(g, d))
    ensures var g' := AddAt(g, At(g, a), At(g, b), At(g, d));
            OperandOk(g', d) && At(g', d) == At(g, d) && WordAt(g', d, k) == Sum32(WordAt(g, a, k), WordAt(g, b, k))
  {
    var x, y, z := At(g, a), At(g, b), At(g, d);
    OperandStays(g, c, x, y, d);
    AddWords(g, x, y, z, k);
    SeesWord(AddAt(g, x, y, z), d, z, k, SumRead(g.mem, x, y, k));
  }

  lemma AddWords(g: Gpu, x: nat, y: nat, z: nat, k: nat)
    requires x + 4096 <= |g.mem| && y + 4096 <= |g.mem| && z + 4096 <= |g.mem| && k < 1024 && Ahead(x, z) && Ahead(y, z)
    ensures Load(AddAt(g, x, y, z).mem, z + 4 * k, 4) == SumRead(g.mem, x, y, k)
  {
    VecAddSums(g.mem, x, y, z, k);
  }

  lemma SeesWord(g: Gpu, d: nat, z: nat, k: nat, word: nat)
    requires OperandOk(g, d) && At(g, d) == z && k < 1024 && Load(g.mem, z + 4 * k, 4) == word
    ensures WordAt(g, d, k) == word
  {
  }

  /** What a kernel run leaves behind: its destination is where it was, and at each of its 1024 words holds the 32-bit
      sum of the words that were at the sources, provided that neither source overlaps it from below. */
  lemma KernelSums(g: Gpu, c: nat, argVa: nat, k: nat)
    requires Inv(g) && Bound(g, c) && Synced(g.buffers, c) && KernelOk(g, argVa) && k < 1024
    requires var a, b, d := Arg(g, argVa, 0), Arg(g, argVa, 1), Arg(g, argVa, 2);
             VaPage(d) < ENTRIES && MissesTables(g, At(g, d)) && Ahead(At(g, a), At(g, d)) && Ahead(At(g, b), At(g, d))
    ensures var a, b, d, g' := Arg(g, argVa, 0), Arg(g, argVa, 1), Arg(g, argVa, 2), RunKernel(g, argVa);
            OperandOk(g', d) && At(g', d) == At(g, d) && WordAt(g', d, k) == Sum32(WordAt(g, a, k), WordAt(g, b, k))
  {
    AddSums(g, c, Arg(g, argVa, 0), Arg(g, argVa, 1), Arg(g, argVa, 2), k);
  }

  /** Page-aligned operands are equal or disjoint, so they satisfy the condition on overlaps. */
  lemma AlignedAhead(g: Gpu, a: nat, d: nat)
    requires OperandOk(g, a) && OperandOk(g, d) && a % 4096 == d % 4096 == 0
    ensures Ahead(At(g, a), At(g, d))
  {
    AtAligned(g, a);
    AtAligned(g, d);
  }
}
