/** The device's address translation and its vector-addition kernel, as gp_gpu.c performs them. */
module GpuDevice {
  import opened Common
  import opened GpuMemory
  import opened GpuPageTable
  import opened GpuSystem
  import opened GpuInvariant

  // ---- translation ----

  /** gpu_local_ddr_address keeps the offset in a signed 32-bit integer. */
  function LocalOffset(addr: nat): int {
    var d := (addr - BASE) % 0x1_0000_0000;
    if d >= 0x8000_0000 then d - 0x1_0000_0000 else d
  }

  lemma LocalOffsetInDdr(addr: nat, size: nat)
    requires InDdr(addr, size)
    ensures LocalOffset(addr) == addr - BASE
  {
  }

  /** The entry read by gpu_translate_va lies inside the DDR. */
  predicate TranslateOk(mem: seq<byte>, regs: map<nat, nat>, va: nat) {
    var table := LocalOffset(Reg(regs, PT_BASE_LO));
    0 <= table && table + 8 * VaPage(va) + 8 <= |mem|
  }

  /** gpu_translate_va; None stands for its UINT64_MAX. */
  function Translate(mem: seq<byte>, regs: map<nat, nat>, va: nat): Option<nat>
    requires TranslateOk(mem, regs, va)
  {
    var entry := Load(mem, LocalOffset(Reg(regs, PT_BASE_LO)) + 8 * VaPage(va), 8);
    if IsValid(entry) then Some(PhysPage(entry) + va % 4096) else None
  }

  /** gpu_bind_context: an id out of range changes nothing, a slot without a table has base 0. */
  function Bind(g: Gpu, c: nat): Gpu {
    if 1 <= c <= |g.ctx| then
      var phys := if g.ctx[c - 1].Ready? then g.ctx[c - 1].phys else 0;
      var id := if g.ctx[c - 1].Unused? then 0 else c;
      g.(regs := g.regs[PT_BASE_LO := Lo(phys)][PT_BASE_HI := Hi(phys)][CTX_ID := id][MMU_ENABLE := 1])
    else g
  }

  /** The device's table register points at the table of context c. */
  predicate Bound(g: Gpu, c: nat) {
    1 <= c <= |g.ctx| && g.ctx[c - 1].Ready? && Reg(g.regs, PT_BASE_LO) == g.ctx[c - 1].phys
  }

  /** The low register half alone names the table, because the whole DDR lies below 4 GB. */
  lemma BindBinds(g: Gpu, c: nat)
    requires Inv(g) && 1 <= c <= |g.ctx| && g.ctx[c - 1].Ready?
    ensures Bound(Bind(g, c), c)
  {
    assert CtxOk(g.ctx[c - 1], g.ddrNext, g.host);
  }

  /** The device reads exactly the entry of its own copy of the table. */
  lemma TranslateReads(g: Gpu, c: nat, va: nat)
    requires Inv(g) && Bound(g, c) && VaPage(va) < ENTRIES
    ensures TranslateOk(g.mem, g.regs, va) && CtxOk(g.ctx[c - 1], g.ddrNext, g.host)
    ensures Translate(g.mem, g.regs, va)
         == var entry := DevEntry(DevTable(g.mem, g.ctx[c - 1].phys), VaPage(va));
            if IsValid(entry) then Some(PhysPage(entry) + va % 4096) else None
  {
    var phys, v := g.ctx[c - 1].phys, VaPage(va);
    assert CtxOk(g.ctx[c - 1], g.ddrNext, g.host);
    LocalOffsetInDdr(phys, TABLE_SIZE);
    TableSlice(g.mem, phys - BASE, v);
  }

  lemma TableSlice(mem: seq<byte>, at: nat, v: nat)
    requires at + TABLE_SIZE <= |mem| && v < ENTRIES
    ensures Load(mem, at + 8 * v, 8) == DevEntry(mem[at..at + TABLE_SIZE], v)
  {
    SliceOfSlice(mem, at, at + TABLE_SIZE, 8 * v, 8 * v + 8);
  }

  // ---- the kernel ----

  /** Addition of uint32_t words. */
  function Sum32(x: nat, y: nat): (r: nat)
    ensures r < TWO32
  {
    (x + y) % 0x1_0000_0000
  }

  /** The sum of the words that iteration i reads. */
  function SumRead(mem: seq<byte>, a: nat, b: nat, i: nat): nat
    requires a + 4 * i + 4 <= |mem| && b + 4 * i + 4 <= |mem|
  {
    Sum32(Load(mem, a + 4 * i, 4), Load(mem, b + 4 * i, 4))
  }

  /** Iteration i of the loop of process_vector_addition. */
  function AddWord(mem: seq<byte>, a: nat, b: nat, d: nat, i: nat): (r: seq<byte>)
    requires a + 4 * i + 4 <= |mem| && b + 4 * i + 4 <= |mem| && d + 4 * i + 4 <= |mem|
    ensures |r| == |mem|
  {
    Store(mem, d + 4 * i, SumRead(mem, a, b, i), 4)
  }

  /** The loop of process_vector_addition: n words in turn, in place, with 32-bit wrap-around. */
  function VecAdd(mem: seq<byte>, a: nat, b: nat, d: nat, n: nat): (r: seq<byte>)
    requires a + 4 * n <= |mem| && b + 4 * n <= |mem| && d + 4 * n <= |mem|
    ensures |r| == |mem|
  {
    if n == 0 then mem else AddWord(VecAdd(mem, a, b, d, n - 1), a, b, d, n - 1)
  }

  lemma AddWordLoads(mem: seq<byte>, a: nat, b: nat, d: nat, i: nat)
    requires a + 4 * i + 4 <= |mem| && b + 4 * i + 4 <= |mem| && d + 4 * i + 4 <= |mem|
    ensures Load(AddWord(mem, a, b, d, i), d + 4 * i, 4) == SumRead(mem, a, b, i)
  {
    Pow256Words();
    LoadStored(mem, d + 4 * i, SumRead(mem, a, b, i), 4);
  }

  lemma AddWordOutside(mem: seq<byte>, a: nat, b: nat, d: nat, i: nat, lo: nat, hi: nat)
    requires a + 4 * i + 4 <= |mem| && b + 4 * i + 4 <= |mem| && d + 4 * i + 4 <= |mem|
    requires lo <= hi <= |mem| && Apart(lo, hi - lo, d + 4 * i, 4)
    ensures AddWord(mem, a, b, d, i)[lo..hi] == mem[lo..hi]
  {
    CopyOutside(mem, d + 4 * i, Bytes(SumRead(mem, a, b, i), 4), lo, hi);
  }

  lemma {:induction false} VecAddOutside(mem: seq<byte>, a: nat, b: nat, d: nat, n: nat, lo: nat, hi: nat)
    requires a + 4 * n <= |mem| && b + 4 * n <= |mem| && d + 4 * n <= |mem|
    requires lo <= hi <= |mem| && Apart(lo, hi - lo, d, 4 * n)
    ensures VecAdd(mem, a, b, d, n)[lo..hi] == mem[lo..hi]
  {
    if n > 0 {
      var m := VecAdd(mem, a, b, d, n - 1);
      assert m[lo..hi] == mem[lo..hi] by { VecAddOutside(mem, a, b, d, n - 1, lo, hi); }
      assert AddWord(m, a, b, d, n - 1)[lo..hi] == m[lo..hi] by { AddWordOutside(m, a, b, d, n - 1, lo, hi); }
    }
  }

  /** No destination word lands on a source word that is still to be read: the loop runs upwards, so a source may
      overlap the destination from above but not from below. */
  predicate Ahead(src: nat, d: nat) {
    src >= d || src + 4096 <= d
  }

  /** A source word that has not been overwritten when it is read. */
  lemma SourceWord(mem: seq<byte>, a: nat, b: nat, d: nat, n: nat, src: nat, i: nat)
    requires a + 4 * n <= |mem| && b + 4 * n <= |mem| && d + 4 * n <= |mem|
    requires n <= i < 1024 && src + 4096 <= |mem| && Ahead(src, d)
    ensures Load(VecAdd(mem, a, b, d, n), src + 4 * i, 4) == Load(mem, src + 4 * i, 4)
  {
    VecAddOutside(mem, a, b, d, n, src + 4 * i, src + 4 * i + 4);
  }

  lemma VecAddKeeps(mem: seq<byte>, a: nat, b: nat, d: nat, n: nat, i: nat)
    requires a + 4096 <= |mem| && b + 4096 <= |mem| && d + 4096 <= |mem| && i < n < 1024
    ensures Load(VecAdd(mem, a, b, d, n + 1), d + 4 * i, 4) == Load(VecAdd(mem, a, b, d, n), d + 4 * i, 4)
  {
    AddWordOutside(VecAdd(mem, a, b, d, n), a, b, d, n, d + 4 * i, d + 4 * i + 4);
  }

  /** Word i is the sum of the words read in iteration i, however the ranges overlap. */
  lemma {:induction false} VecAddWord(mem: seq<byte>, a: nat, b: nat, d: nat, n: nat, i: nat)
    requires a + 4096 <= |mem| && b + 4096 <= |mem| && d + 4096 <= |mem| && i < n <= 1024
    ensures Load(VecAdd(mem, a, b, d, n), d + 4 * i, 4) == SumRead(VecAdd(mem, a, b, d, i), a, b, i)
  {
    if i == n - 1 {
      AddWordLoads(VecAdd(mem, a, b, d, i), a, b, d, i);
    } else {
      VecAddWord(mem, a, b, d, n - 1, i);
      VecAddKeeps(mem, a, b, d, n - 1, i);
    }
  }

  /** Each destination word is the 32-bit sum of the original source words, also when the destination is a source. */
  lemma VecAddSums(mem: seq<byte>, a: nat, b: nat, d: nat, i: nat)
    requires a + 4096 <= |mem| && b + 4096 <= |mem| && d + 4096 <= |mem| && i < 1024 && Ahead(a, d) && Ahead(b, d)
    ensures Load(VecAdd(mem, a, b, d, 1024), d + 4 * i, 4) == SumRead(mem, a, b, i)
  {
    VecAddWord(mem, a, b, d, 1024, i);
    SourceWord(mem, a, b, d, i, a, i);
    SourceWord(mem, a, b, d, i, b, i);
  }

  /** Nothing outside n bytes from offset at differs. */
  ghost predicate OnlyChanged(mem: seq<byte>, mem': seq<byte>, at: nat, n: nat) {
    && |mem'| == |mem|
    && forall lo, hi :: 0 <= lo <= hi <= |mem| && Apart(lo, hi - lo, at, n) ==> mem'[lo..hi] == mem[lo..hi]
  }

  /** What the kernel is for: the page at d holds the word-wise 32-bit sums of the old pages at a and b, and
      nothing else changed. */
  ghost predicate Summed(mem: seq<byte>, mem': seq<byte>, a: nat, b: nat, d: nat)
    requires a + 4096 <= |mem| && b + 4096 <= |mem| && d + 4096 <= |mem|
  {
    OnlyChanged(mem, mem', d, 4096) && forall k :: 0 <= k < 1024 ==> SumAt(mem, mem', a, b, d, k)
  }

  predicate SumAt(mem: seq<byte>, mem': seq<byte>, a: nat, b: nat, d: nat, k: nat)
    requires a + 4096 <= |mem| && b + 4096 <= |mem| && d + 4096 <= |mem'| && k < 1024
  {
    Load(mem', d + 4 * k, 4) == SumRead(mem, a, b, k)
  }

  lemma VecAddFrame(mem: seq<byte>, a: nat, b: nat, d: nat)
    requires a + 4096 <= |mem| && b + 4096 <= |mem| && d + 4096 <= |mem|
    ensures OnlyChanged(mem, VecAdd(mem, a, b, d, 1024), d, 4096)
  {
    var mem' := VecAdd(mem, a, b, d, 1024);
    forall lo, hi | 0 <= lo <= hi <= |mem| && Apart(lo, hi - lo, d, 4096) ensures mem'[lo..hi] == mem[lo..hi] {
      VecAddOutside(mem, a, b, d, 1024, lo, hi);
    }
  }

  /** The kernel loop meets its purpose for any source that does not overlap the destination from below; in
      particular when the destination is a source. */
  lemma VecAddMeans(mem: seq<byte>, a: nat, b: nat, d: nat)
    requires a + 4096 <= |mem| && b + 4096 <= |mem| && d + 4096 <= |mem| && Ahead(a, d) && Ahead(b, d)
    ensures Summed(mem, VecAdd(mem, a, b, d, 1024), a, b, d)
  {
    VecAddFrame(mem, a, b, d);
    forall k | 0 <= k < 1024 ensures SumAt(mem, VecAdd(mem, a, b, d, 1024), a, b, d, k) {
      VecAddSums(mem, a, b, d, k);
    }
  }

  // ---- the condition is exact ----

  ghost predicate AlwaysSums(size: nat, a: nat, b: nat, d: nat)
    requires a + 4096 <= size && b + 4096 <= size && d + 4096 <= size
  {
    forall mem: seq<byte> {:trigger VecAdd(mem, a, b, d, 1024)} ::
      |mem| == size ==> Summed(mem, VecAdd(mem, a, b, d, 1024), a, b, d)
  }

  /** All zero but for the word 1 at offset at. */
  function OneAt(size: nat, at: nat): (mem: seq<byte>)
    requires at + 4 <= size
    ensures |mem| == size
  {
    Store(Zeros(size), at, 1, 4)
  }

  lemma OneAtLoad(size: nat, at: nat, other: nat)
    requires at + 4 <= size && other + 4 <= size && (other == at || Apart(at, 4, other, 4))
    ensures Load(OneAt(size, at), other, 4) == if other == at then 1 else 0
  {
    Pow256Words();
    if other == at {
      LoadStored(Zeros(size), at, 1, 4);
    } else {
      LoadElsewhere(Zeros(size), at, 1, 4, other, 4);
      ValueZeros(Zeros(size)[other..other + 4]);
    }
  }

  /** A source that overlaps the destination from below reads back its own first sum: with a single 1 in its first
      word, the word where it meets the destination comes out wrong. a is the overlapping source nearest to d. */
  lemma FeedsBack(size: nat, a: nat, b: nat, d: nat)
    requires a + 4096 <= size && b + 4096 <= size && d + 4096 <= size
    requires a % 4 == 0 && b % 4 == 0 && d % 4 == 0 && a < d < a + 4096 && (Ahead(b, d) || b <= a)
    ensures !AlwaysSums(size, a, b, d)
  {
    var t := (d - a) / 4;
    var mem := OneAtFacts(size, a, b, t);
    FeedBack(mem, a, b, d, t);
    VecAddWord(mem, a, b, d, 1024, t);
    assert !SumAt(mem, VecAdd(mem, a, b, d, 1024), a, b, d, t);
  }

  lemma OneAtFacts(size: nat, a: nat, b: nat, t: nat) returns (mem: seq<byte>)
    requires a + 4 * t + 4 <= size && b + 4 * t + 4 <= size && a % 4 == b % 4 && t > 0
    ensures |mem| == size && Load(mem, a, 4) == 1 && Load(mem, a + 4 * t, 4) == 0
    ensures Load(mem, b, 4) == (if a == b then 1 else 0) && Load(mem, b + 4 * t, 4) <= 1
  {
    mem := OneAt(size, a);
    OneAtLoad(size, a, a);
    OneAtLoad(size, a, b);
    OneAtLoad(size, a, a + 4 * t);
    OneAtLoad(size, a, b + 4 * t);
  }

  lemma FeedBack(mem: seq<byte>, a: nat, b: nat, d: nat, t: nat)
    requires a + 4096 <= |mem| && b + 4096 <= |mem| && d + 4096 <= |mem| && 0 < t < 1024 && d == a + 4 * t
    requires b % 4 == a % 4 && (Ahead(b, d) || b <= a)
    requires Load(mem, a, 4) == 1 && Load(mem, b, 4) == (if a == b then 1 else 0)
    requires Load(mem, a + 4 * t, 4) == 0 && Load(mem, b + 4 * t, 4) <= 1
    ensures SumRead(VecAdd(mem, a, b, d, t), a, b, t) != SumRead(mem, a, b, t)
  {
    ReadsBack(mem, a, b, d, t);
    assert SumRead(mem, a, b, 0) == if a == b then 2 else 1;
    assert SumRead(mem, a, b, t) == Load(mem, b + 4 * t, 4);
  }

  lemma ReadsBack(mem: seq<byte>, a: nat, b: nat, d: nat, t: nat)
    requires a + 4096 <= |mem| && b + 4096 <= |mem| && d + 4096 <= |mem| && 0 < t < 1024 && d == a + 4 * t
    requires b % 4 == a % 4 && (Ahead(b, d) || b <= a)
    ensures SumRead(VecAdd(mem, a, b, d, t), a, b, t)
         == Sum32(SumRead(mem, a, b, 0), if a == b then SumRead(mem, a, b, 0) else Load(mem, b + 4 * t, 4))
  {
    FirstSum(mem, a, b, d, t);
    if a != b {
      Untouched(mem, a, b, d, t);
    }
  }

  lemma FirstSum(mem: seq<byte>, a: nat, b: nat, d: nat, t: nat)
    requires a + 4096 <= |mem| && b + 4096 <= |mem| && d + 4096 <= |mem| && 0 < t < 1024 && d == a + 4 * t
    ensures Load(VecAdd(mem, a, b, d, t), a + 4 * t, 4) == SumRead(mem, a, b, 0)
  {
    VecAddWord(mem, a, b, d, t, 0);
  }

  lemma Untouched(mem: seq<byte>, a: nat, b: nat, d: nat, t: nat)
    requires a + 4096 <= |mem| && b + 4096 <= |mem| && d + 4096 <= |mem| && 0 < t < 1024 && d == a + 4 * t
    requires Ahead(b, d) || b + 4 <= a
    ensures Load(VecAdd(mem, a, b, d, t), b + 4 * t, 4) == Load(mem, b + 4 * t, 4)
  {
    VecAddOutside(mem, a, b, d, t, b + 4 * t, b + 4 * t + 4);
  }

  lemma AddWordCommutes(mem: seq<byte>, a: nat, b: nat, d: nat, i: nat)
    requires a + 4 * i + 4 <= |mem| && b + 4 * i + 4 <= |mem| && d + 4 * i + 4 <= |mem|
    ensures AddWord(mem, a, b, d, i) == AddWord(mem, b, a, d, i)
  {
  }

  lemma {:induction false} VecAddCommutes(mem: seq<byte>, a: nat, b: nat, d: nat, n: nat)
    requires a + 4 * n <= |mem| && b + 4 * n <= |mem| && d + 4 * n <= |mem|
    ensures VecAdd(mem, a, b, d, n) == VecAdd(mem, b, a, d, n)
  {
    if n > 0 {
      VecAddCommutes(mem, a, b, d, n - 1);
      AddWordCommutes(VecAdd(mem, a, b, d, n - 1), a, b, d, n - 1);
    }
  }

  lemma SumsCommute(size: nat, a: nat, b: nat, d: nat)
    requires a + 4096 <= size && b + 4096 <= size && d + 4096 <= size && AlwaysSums(size, a, b, d)
    ensures AlwaysSums(size, b, a, d)
  {
    forall mem: seq<byte> | |mem| == size ensures Summed(mem, VecAdd(mem, b, a, d, 1024), b, a, d) {
      VecAddCommutes(mem, a, b, d, 1024);
      var mem' := VecAdd(mem, b, a, d, 1024);
      forall k | 0 <= k < 1024 ensures SumAt(mem, mem', b, a, d, k) {
        assert SumAt(mem, mem', a, b, d, k);
      }
    }
  }

  /** For word-aligned operands the kernel computes the sums of the old words, whatever the memory holds, if and only
      if neither source overlaps the destination from below. */
  lemma SumsIff(size: nat, a: nat, b: nat, d: nat)
    requires a + 4096 <= size && b + 4096 <= size && d + 4096 <= size && a % 4 == 0 && b % 4 == 0 && d % 4 == 0
    ensures AlwaysSums(size, a, b, d) <==> Ahead(a, d) && Ahead(b, d)
  {
    if Ahead(a, d) && Ahead(b, d) {
      forall mem: seq<byte> | |mem| == size ensures Summed(mem, VecAdd(mem, a, b, d, 1024), a, b, d) {
        VecAddMeans(mem, a, b, d);
      }
    } else if !Ahead(a, d) && (Ahead(b, d) || b <= a) {
      FeedsBack(size, a, b, d);
    } else {
      FeedsBack(size, b, a, d);
      if AlwaysSums(size, a, b, d) {
        SumsCommute(size, a, b, d);
      }
    }
  }

  lemma VecAddStep(mem: seq<byte>, a: nat, b: nat, d: nat, i: nat)
    requires a + 4096 <= |mem| && b + 4096 <= |mem| && d + 4096 <= |mem| && i < 1024
    ensures VecAdd(mem, a, b, d, i + 1) == AddWord(VecAdd(mem, a, b, d, i), a, b, d, i)
  {
  }

  /** Overwrite four bytes of the device memory. */
  method StoreWord(mem: array<byte>, at: nat, x: nat)
    requires at + 4 <= mem.Length
    modifies mem
    ensures mem[..] == Store(old(mem[..]), at, x, 4)
  {
    var word := Bytes(x, 4);
    forall j | 0 <= j < 4 { mem[at + j] := word[j]; }
  }

  /** The kernel loop itself, on the device memory in place. */
  method VectorAddition(mem: array<byte>, a: nat, b: nat, d: nat)
    requires a + 4096 <= mem.Length && b + 4096 <= mem.Length && d + 4096 <= mem.Length
    modifies mem
    ensures mem[..] == VecAdd(old(mem[..]), a, b, d, 1024)
  {
    ghost var before := mem[..];
    for i := 0 to 1024
      invariant mem[..] == VecAdd(before, a, b, d, i)
    {
      var now := mem[..];
      VecAddStep(before, a, b, d, i);
      StoreWord(mem, d + 4 * i, Sum32(Load(now, a + 4 * i, 4), Load(now, b + 4 * i, 4)));
    }
  }

  // ---- where a translated address lies ----

  /** Every address the device translates for a synced context lies in a page that was assigned to exactly that
      context and virtual page, even where the device's entry is stale. */
  lemma DevicePage(g: Gpu, c: nat, va: nat) returns (i: nat)
    requires Inv(g) && Bound(g, c) && Synced(g.buffers, c) && VaPage(va) < ENTRIES
    requires TranslateOk(g.mem, g.regs, va) && Translate(g.mem, g.regs, va).Some?
    ensures i < |g.buffers| && GpuInvariant.Covers(g.buffers[i], c, VaPage(va))
    ensures BufOk(g.buffers[i], g.ctx, g.ddrNext, g.host)
    ensures Translate(g.mem, g.regs, va).value
         == g.buffers[i].pa + (VaPage(va) - g.buffers[i].vpage) * 4096 + va % 4096
  {
    var v := VaPage(va);
    TranslateReads(g, c, va);
    DeviceEntry(g, c, v);
    i := OwnerPage(g, c, v);
  }

  lemma OwnerPage(g: Gpu, c: nat, v: nat) returns (i: nat)
    requires Inv(g) && Owner(g.buffers, c, v) != 0
    ensures i < |g.buffers| && GpuInvariant.Covers(g.buffers[i], c, v) && BufOk(g.buffers[i], g.ctx, g.ddrNext, g.host)
    ensures Owner(g.buffers, c, v) == g.buffers[i].pa + (v - g.buffers[i].vpage) * 4096
    ensures PhysPage(Owner(g.buffers, c, v) + 1) == Owner(g.buffers, c, v)
  {
    i := OwnerBuffer(g.buffers, c, v);
    assert BufOk(g.buffers[i], g.ctx, g.ddrNext, g.host);
    PhysOfPage(g.buffers[i].pa, v - g.buffers[i].vpage);
  }

  /** A valid entry of the device's table holds the page assigned to it. */
  lemma DeviceEntry(g: Gpu, c: nat, v: nat)
    requires Inv(g) && 1 <= c <= |g.ctx| && g.ctx[c - 1].Ready? && Synced(g.buffers, c) && v < ENTRIES
    ensures CtxOk(g.ctx[c - 1], g.ddrNext, g.host)
    ensures var entry := DevEntry(DevTable(g.mem, g.ctx[c - 1].phys), v);
            IsValid(entry) ==> Owner(g.buffers, c, v) != 0 && entry == Owner(g.buffers, c, v) + 1
  {
    var x := g.ctx[c - 1];
    GetCtx(g, c - 1);
    ValidMeansOwned(DevTable(g.mem, x.phys), x.table, g.buffers, c, v);
  }

  lemma ValidMeansOwned(dev: seq<byte>, t: Table, buffers: seq<Buffer>, c: nat, v: nat)
    requires |dev| == TABLE_SIZE && CpuTableOk(t, buffers, c) && DevTableOk(dev, t, buffers, c) && v < ENTRIES
    ensures IsValid(DevEntry(dev, v)) ==> Owner(buffers, c, v) != 0 && DevEntry(dev, v) == Owner(buffers, c, v) + 1
  {
    var entry := DevEntry(dev, v);
    assert !IsValid(0);
    assert entry == t[v] || entry == Owner(buffers, c, v) + 1;
  }

  lemma PhysOfPage(pa: nat, k: nat)
    requires pa % 4096 == 0
    ensures PhysPage(pa + k * 4096 + 1) == pa + k * 4096
  {
  }
}
