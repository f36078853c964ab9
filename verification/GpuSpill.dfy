/** Kernels that write beyond the buffer of their destination: the exact condition under which they are harmless, and
a run in which one is not. */
module GpuSpill {
  import opened Common
  import DepGraph
  import opened GpuMemory
  import opened GpuPageTable
  import opened GpuSystem
  import opened GpuInvariant
  import opened GpuIoctl
  import opened GpuDevice
  import opened GpuProofs
  import opened GpuKernel
  import opened GpuRuns
  import opened GpuTheorems

  // ---- words of entries ----

  lemma {:induction false} ValueSplit(s: seq<byte>, n: nat)
    requires n <= |s|
    ensures Value(s) == Value(s[..n]) + Pow256(n) * Value(s[n..])
  {
    if n == 0 {
      assert s[0..] == s;
    } else {
      ValueSplit(s[1..], n - 1);
      assert s[..n][1..] == s[1..][..n - 1] && s[n..] == s[1..][n - 1..];
      assert s[..n][0] == s[0];
    }
  }

  lemma LoadHalves(mem: seq<byte>, at: nat)
    requires at + 8 <= |mem|
    ensures Load(mem, at, 8) == Load(mem, at, 4) + 0x1_0000_0000 * Load(mem, at + 4, 4)
    ensures Load(mem, at, 4) < 0x1_0000_0000
  {
    var s := mem[at..at + 8];
    ValueSplit(s, 4);
    Pow256Words();
    ValueBound(mem[at..at + 4]);
    assert s[..4] == mem[at..at + 4] && s[4..] == mem[at + 4..at + 8];
  }

  // ---- a place for the sources ----

  /** The i-th candidate overlaps table o, or for o = 16 the destination. */
  predicate Hits(g: Gpu, z: nat, i: nat, o: nat) {
    if o < |g.ctx| then g.ctx[o].Ready? && !Apart(BASE + i * 0x10_0000, 4096, g.ctx[o].phys, TABLE_SIZE)
    else !Apart(i * 0x10_0000, 4096, z, 4096)
  }

  lemma OneHit(g: Gpu, z: nat, i: nat, j: nat, o: nat)
    requires Hits(g, z, i, o) && i != j
    ensures !Hits(g, z, j, o)
  {
  }

  function Upto(n: nat): set<nat> {
    if n == 0 then {} else Upto(n - 1) + {n - 1}
  }

  lemma {:induction false} UptoCount(n: nat)
    ensures |Upto(n)| == n && forall o :: o in Upto(n) <==> 0 <= o < n
  {
    if n > 0 {
      UptoCount(n - 1);
    }
  }

  /** owners[j] is what candidate j overlaps; each of the n things overlaps at most one candidate. */
  lemma {:induction false} FirstFree(g: Gpu, z: nat, n: nat, owners: seq<nat>) returns (i: nat)
    requires DepGraph.NoDup(owners) && forall j :: 0 <= j < |owners| ==> owners[j] in Upto(n) && Hits(g, z, j, owners[j])
    ensures i <= n && forall o :: 0 <= o < n ==> !Hits(g, z, i, o)
    decreases n + 1 - |owners|
  {
    UptoCount(n);
    DepGraph.NoDupFits(owners, Upto(n));
    i := |owners|;
    if o: nat :| o < n && Hits(g, z, i, o) {
      forall j | 0 <= j < i ensures owners[j] != o { OneHit(g, z, j, i, owners[j]); }
      i := FirstFree(g, z, n, owners + [o]);
    }
  }

  /** The DDR is larger than all tables together, so some place is free: of 18 candidates a megabyte apart, each of 16
      tables and the destination overlaps at most one. */
  lemma FreePlace(g: Gpu, z: nat) returns (y: nat)
    requires |g.ctx| == MAX_CONTEXTS
    ensures y + 4096 <= DDR_SIZE && y % 4 == 0 && Apart(y, 4096, z, 4096)
    ensures forall k :: 0 <= k < |g.ctx| && g.ctx[k].Ready? ==> Apart(BASE + y, 4096, g.ctx[k].phys, TABLE_SIZE)
  {
    var i := FirstFree(g, z, 17, []);
    y := i * 0x10_0000;
    assert !Hits(g, z, i, 16);
    forall k | 0 <= k < |g.ctx| && g.ctx[k].Ready? ensures Apart(BASE + y, 4096, g.ctx[k].phys, TABLE_SIZE) {
      assert !Hits(g, z, i, k);
    }
  }

  // ---- the exact condition on the destination ----

  /** Whatever the device memory holds, and wherever the sources are, the kernel keeps the invariant. */
  ghost predicate AlwaysSafe(g: Gpu, z: nat)
    requires z + 4096 <= DDR_SIZE
  {
    forall h: Gpu, x: nat, y: nat {:trigger Runs(g, h, x, y)} :: Runs(g, h, x, y) ==> Inv(AddAt(h, x, y, z))
  }

  ghost predicate Runs(g: Gpu, h: Gpu, x: nat, y: nat) {
    && h == g.(mem := h.mem) && Inv(h)
    && x % 4 == 0 && x + 4096 <= DDR_SIZE && y % 4 == 0 && y + 4096 <= DDR_SIZE
  }

  /** An entry that is neither clear nor of the form the driver writes breaks the invariant. */
  lemma BadEntry(g: Gpu, h: Gpu, k: nat, v: nat)
    requires Inv(g) && k < |g.ctx| && g.ctx[k].Ready? && Synced(g.buffers, k + 1) && v < ENTRIES
    requires h == g.(mem := h.mem) && |h.mem| == DDR_SIZE && InDdr(g.ctx[k].phys, TABLE_SIZE)
    requires var entry := Load(h.mem, g.ctx[k].phys - BASE + 8 * v, 8);
             entry % 0x1_0000_0000 == 2 || entry / 0x1_0000_0000 == 2
    ensures !Inv(h)
  {
    var x, entry := g.ctx[k], Load(h.mem, g.ctx[k].phys - BASE + 8 * v, 8);
    TableSlice(h.mem, x.phys - BASE, v);
    GetCtx(g, k);
    var owner := Owner(g.buffers, k + 1, v);
    if owner != 0 {
      var i := OwnerPage(g, k + 1, v);
      PageBound(g.buffers[i], v);
    }
    assert entry != x.table[v] && entry != owner + 1;
    assert !TableOk(k, h.ctx[k], h.buffers, h.mem);
  }

  lemma PageBound(b: Buffer, v: nat)
    requires b.vpage <= v < b.vpage + Pages(b.size) && b.pa % 4096 == 0 && b.pa + Align(b.size) <= BASE + DDR_SIZE
    ensures (b.pa + (v - b.vpage) * 4096) % 4096 == 0 && b.pa + (v - b.vpage) * 4096 + 1 < 0x1_0000_0000
  {
  }

  /** Sources that hold a single 1 put a 2 into any chosen word of the destination. */
  lemma PutsTwo(g: Gpu, y: nat, z: nat, q: nat) returns (h: Gpu)
    requires Inv(g) && y + 4096 <= DDR_SIZE && z + 4096 <= DDR_SIZE && q < 1024 && Apart(y, 4096, z, 4096)
    requires forall k :: 0 <= k < |g.ctx| && g.ctx[k].Ready? ==> Apart(BASE + y, 4096, g.ctx[k].phys, TABLE_SIZE)
    ensures h == g.(mem := h.mem) && Inv(h) && |h.mem| == DDR_SIZE
    ensures Load(AddAt(h, y, y, z).mem, z + 4 * q, 4) == 2
  {
    h := g.(mem := Store(g.mem, y + 4 * q, 1, 4));
    Pow256Words();
    LoadStored(g.mem, y + 4 * q, 1, 4);
    StoreFrame(g, y, q, h);
    AddWords(h, y, y, z, q);
  }

  lemma StoreFrame(g: Gpu, y: nat, q: nat, h: Gpu)
    requires Inv(g) && y + 4096 <= DDR_SIZE && q < 1024 && h == g.(mem := Store(g.mem, y + 4 * q, 1, 4))
    requires forall k :: 0 <= k < |g.ctx| && g.ctx[k].Ready? ==> Apart(BASE + y, 4096, g.ctx[k].phys, TABLE_SIZE)
    ensures Inv(h)
  {
    forall k | 0 <= k < |g.ctx| && g.ctx[k].Ready? && Synced(g.buffers, k + 1)
      ensures CtxOk(g.ctx[k], g.ddrNext, g.host) && DevTable(h.mem, g.ctx[k].phys) == DevTable(g.mem, g.ctx[k].phys)
    {
      GetCtx(g, k);
      var at := g.ctx[k].phys - BASE;
      CopyOutside(g.mem, y + 4 * q, Bytes(1, 4), at, at + TABLE_SIZE);
    }
    MemoryInv(g, h);
  }

  /** The first byte that two overlapping ranges share. */
  function Meet(t: nat, z: nat): nat {
    if z < t then t else z
  }

  /** A 2 in the first word that destination and table share shows in the entry that holds it. */
  lemma SharedEntry(mem: seq<byte>, t: nat, z: nat)
    requires t % 4096 == 0 && z % 4 == 0 && t + TABLE_SIZE <= |mem| && z + 4096 <= |mem| && !Apart(z, 4096, t, TABLE_SIZE)
    requires Load(mem, Meet(t, z), 4) == 2
    ensures var entry := Load(mem, t + 8 * ((Meet(t, z) - t) / 8), 8);
            entry % 0x1_0000_0000 == 2 || entry / 0x1_0000_0000 == 2
  {
    var p, v := Meet(t, z), (Meet(t, z) - t) / 8;
    assert p == t + 8 * v || p == t + 8 * v + 4;
    LoadHalves(mem, t + 8 * v);
  }

  lemma UnsafeDestination(g: Gpu, z: nat, k: nat)
    requires Inv(g) && z % 4 == 0 && z + 4096 <= DDR_SIZE
    requires k < |g.ctx| && Synced(g.buffers, k + 1) && !OffRange(g.ctx[k], z)
    ensures !AlwaysSafe(g, z)
  {
    GetCtx(g, k);
    var y := FreePlace(g, z);
    var h := Corrupts(g, y, z, k);
    assert Runs(g, h, y, y);
  }

  lemma Corrupts(g: Gpu, y: nat, z: nat, k: nat) returns (h: Gpu)
    requires Inv(g) && z % 4 == 0 && z + 4096 <= DDR_SIZE && y + 4096 <= DDR_SIZE && Apart(y, 4096, z, 4096)
    requires k < |g.ctx| && Synced(g.buffers, k + 1) && g.ctx[k].Ready? && CtxOk(g.ctx[k], g.ddrNext, g.host)
    requires !Apart(z, 4096, g.ctx[k].phys - BASE, TABLE_SIZE)
    requires forall k :: 0 <= k < |g.ctx| && g.ctx[k].Ready? ==> Apart(BASE + y, 4096, g.ctx[k].phys, TABLE_SIZE)
    ensures h == g.(mem := h.mem) && Inv(h) && !Inv(AddAt(h, y, y, z))
  {
    var t := g.ctx[k].phys - BASE;
    var q := (Meet(t, z) - z) / 4;
    assert z + 4 * q == Meet(t, z);
    h := PutsTwo(g, y, z, q);
    TwoBreaks(g, AddAt(h, y, y, z), z, k);
  }

  lemma TwoBreaks(g: Gpu, h: Gpu, z: nat, k: nat)
    requires Inv(g) && z % 4 == 0 && z + 4096 <= DDR_SIZE && h == g.(mem := h.mem) && |h.mem| == DDR_SIZE
    requires k < |g.ctx| && Synced(g.buffers, k + 1) && g.ctx[k].Ready? && CtxOk(g.ctx[k], g.ddrNext, g.host)
    requires !Apart(z, 4096, g.ctx[k].phys - BASE, TABLE_SIZE) && Load(h.mem, Meet(g.ctx[k].phys - BASE, z), 4) == 2
    ensures !Inv(h)
  {
    var t := g.ctx[k].phys - BASE;
    SharedEntry(h.mem, t, z);
    BadEntry(g, h, k, (Meet(t, z) - t) / 8);
  }

  /** A word-aligned destination is safe, whatever the memory holds and wherever the sources are, if and only if its
      4096 bytes overlap no page table in use. */
  lemma DestinationIff(g: Gpu, z: nat)
    requires Inv(g) && z % 4 == 0 && z + 4096 <= DDR_SIZE
    ensures AlwaysSafe(g, z) <==> MissesTables(g, z)
  {
    if MissesTables(g, z) {
      forall h: Gpu, x: nat, y: nat | Runs(g, h, x, y) ensures Inv(AddAt(h, x, y, z)) {
        assert MissesTables(h, z) by {
          forall k | 0 <= k < |h.ctx| && Synced(h.buffers, k + 1) ensures OffRange(h.ctx[k], z) {
            assert OffRange(g.ctx[k], z);
          }
        }
        AddInv(h, x, y, z);
      }
    } else {
      var k :| 0 <= k < |g.ctx| && Synced(g.buffers, k + 1) && !OffRange(g.ctx[k], z);
      UnsafeDestination(g, z, k);
    }
  }

  // ---- a run that spills ----

  /** The layout after some contexts have been created and some buffers of a page requested. */
  datatype Layout = Layout(tables: seq<nat>, vpages: seq<nat>, buffers: seq<Buffer>, next: nat, dmas: set<nat>)

  ghost predicate LaidOut(g: Gpu, l: Layout) {
    && Inv(g) && g.ddrNext == l.next && g.buffers == l.buffers && g.nextHandle == |l.buffers| + 1
    && g.host.Keys == l.dmas && |l.tables| == |l.vpages| <= |g.ctx| == MAX_CONTEXTS
    && (forall k :: 0 <= k < |l.tables| ==>
          g.ctx[k].Ready? && g.ctx[k].phys == l.tables[k] && g.ctx[k].vpageNext == l.vpages[k])
    && (forall k :: |l.tables| <= k < |g.ctx| ==> g.ctx[k].Unused?)
    && (forall c, v {:trigger PageValid(g, c, v)} :: 1 <= c <= |l.tables| && 0 <= v < l.vpages[c - 1] ==> PageValid(g, c, v))
  }

  lemma {:induction false} FirstUnusedIs(ctx: seq<Context>, n: nat)
    requires n < |ctx| && ctx[n].Unused? && forall k :: 0 <= k < n ==> ctx[k].Ready?
    ensures FirstUnused(ctx) == n
  {
    if n > 0 {
      FirstUnusedIs(ctx[1..], n - 1);
    }
  }

  function WithContext(l: Layout, dma: nat): Layout {
    Layout(l.tables + [l.next], l.vpages + [0], l.buffers, l.next + TABLE_SIZE, l.dmas + {dma})
  }

  lemma CreateMeans(g: Gpu, n: nat, dma: nat)
    requires n < |g.ctx| && g.ctx[n].Unused? && (forall k :: 0 <= k < n ==> g.ctx[k].Ready?)
    requires g.ddrNext + TABLE_SIZE <= BASE + DDR_SIZE
    ensures CtxCreate(g, dma).0 == g.(ctx := g.ctx[n := Ready(0, dma, g.ddrNext, EmptyTable())],
                                      ddrNext := g.ddrNext + TABLE_SIZE, host := g.host[dma := Encode(EmptyTable())])
  {
    FirstUnusedIs(g.ctx, n);
    assert Align(TABLE_SIZE) == TABLE_SIZE;
  }

  lemma CreateAt(g: Gpu, l: Layout, dma: nat) returns (g': Gpu)
    requires LaidOut(g, l) && |l.tables| < MAX_CONTEXTS && l.next + TABLE_SIZE <= BASE + DDR_SIZE
    requires dma !in l.dmas && dma < TWO64
    ensures Next(g, CreateCtx(dma), g') && LaidOut(g', WithContext(l, dma))
  {
    g' := CtxCreate(g, dma).0;
    CtxCreateInv(g, dma);
    CreateMeans(g, |l.tables|, dma);
    CreateValid(g, l, g');
  }

  lemma CreateValid(g: Gpu, l: Layout, g': Gpu)
    requires LaidOut(g, l) && |l.tables| < |g.ctx| == |g'.ctx| && g'.ctx == g.ctx[|l.tables| := g'.ctx[|l.tables|]]
    ensures forall c, v {:trigger PageValid(g', c, v)} :: 1 <= c <= |l.tables| && 0 <= v < l.vpages[c - 1] ==> PageValid(g', c, v)
  {
    forall c, v | 1 <= c <= |l.tables| && 0 <= v < l.vpages[c - 1] ensures PageValid(g', c, v) {
      assert PageValid(g, c, v);
    }
  }

  function WithPage(l: Layout, c: nat, dma: nat): Layout
    requires 1 <= c <= |l.vpages|
  {
    Layout(l.tables, l.vpages[c - 1 := l.vpages[c - 1] + 1],
           [Buffer(|l.buffers| + 1, 4096, dma, c, l.vpages[c - 1], l.next)] + l.buffers, l.next + 4096, l.dmas + {dma})
  }

  lemma RequestAt(g: Gpu, l: Layout, c: nat, dma: nat) returns (g': Gpu)
    requires LaidOut(g, l) && 1 <= c <= |l.tables| && l.next + 4096 <= BASE + DDR_SIZE && dma !in l.dmas && dma < TWO64
    ensures Next(g, Request(c, 4096, dma), g') && LaidOut(g', WithPage(l, c, dma))
  {
    assert Pages(4096) == 1;
    ReqBufMeans(g, c, 4096, dma);
    ReqBufInv(g, c, 4096, dma);
    g' := ReqBuf(g, c, 4096, dma).0;
    RequestHost(g, c, dma);
    RequestValid(g, l, c, dma, g');
  }

  lemma RequestValid(g: Gpu, l: Layout, c: nat, dma: nat, g': Gpu)
    requires LaidOut(g, l) && 1 <= c <= |l.tables| && Next(g, Request(c, 4096, dma), g')
    requires DdrAlloc(g.ddrNext, 4096).Some?
    ensures forall e, v {:trigger PageValid(g', e, v)} ::
              1 <= e <= |l.tables| && 0 <= v < WithPage(l, c, dma).vpages[e - 1] ==> PageValid(g', e, v)
  {
    var op := Request(c, 4096, dma);
    RequestLive(g, op, g');
    ReqBufMeans(g, c, 4096, dma);
    forall e, v | 1 <= e <= |l.tables| && 0 <= v < WithPage(l, c, dma).vpages[e - 1] ensures PageValid(g', e, v) {
      if v < l.vpages[e - 1] {
        assert PageValid(g, e, v);
        RequestPages(g, op, g', e, v);
      }
    }
  }

  lemma RequestHost(g: Gpu, c: nat, dma: nat)
    requires Inv(g) && Usable(g, c) && DdrAlloc(g.ddrNext, 4096).Some? && dma !in g.host
    ensures ReqBuf(g, c, 4096, dma).0.host.Keys == g.host.Keys + {dma}
  {
    GetCtx(g, c - 1);
  }

  const FIRST := Buffer(1, 4096, 2, 1, 0, BASE + 0x4_0000)
  const SECOND := Buffer(2, 4096, 4, 2, 0, BASE + 0x8_1000)

  /** A page of each of two contexts; the second context's table starts where the first context's page ends. */
  ghost predicate Neighbours(g: Gpu) {
    && Inv(g) && g.buffers == [SECOND, FIRST] && g.ctx[0].Ready? && g.ctx[1].Ready?
    && g.ctx[0].phys == BASE && g.ctx[1].phys == BASE + 0x4_1000
    && PageValid(g, 1, 0) && PageValid(g, 2, 0)
  }

  lemma InitLaidOut(g: Gpu)
    requires Init(g)
    ensures LaidOut(g, Layout([], [], [], BASE, {}))
  {
    InitInv(g);
  }

  lemma Extend(run: seq<Gpu>, ops: seq<Op>, op: Op, g': Gpu)
    requires Segment(run, ops) && Next(run[|ops|], op, g')
    ensures Segment(run + [g'], ops + [op])
  {
    var run', ops' := run + [g'], ops + [op];
    forall k | 0 <= k < |ops'| ensures StepAt(run', ops', k) {
      assert k < |ops| ==> StepAt(run, ops, k);
    }
  }

  lemma RunCreate(run: seq<Gpu>, ops: seq<Op>, l: Layout, dma: nat) returns (run': seq<Gpu>)
    requires Segment(run, ops) && LaidOut(run[|ops|], l) && |l.tables| < MAX_CONTEXTS
    requires l.next + TABLE_SIZE <= BASE + DDR_SIZE && dma !in l.dmas && dma < TWO64
    ensures Segment(run', ops + [CreateCtx(dma)]) && run' == run + [run'[|run|]] && LaidOut(run'[|run|], WithContext(l, dma))
  {
    var g' := CreateAt(run[|ops|], l, dma);
    Extend(run, ops, CreateCtx(dma), g');
    run' := run + [g'];
  }

  lemma RunRequest(run: seq<Gpu>, ops: seq<Op>, l: Layout, c: nat, dma: nat) returns (run': seq<Gpu>)
    requires Segment(run, ops) && LaidOut(run[|ops|], l) && 1 <= c <= |l.tables| == |l.vpages|
    requires l.next + 4096 <= BASE + DDR_SIZE && dma !in l.dmas && dma < TWO64
    ensures Segment(run', ops + [Request(c, 4096, dma)]) && run' == run + [run'[|run|]]
    ensures LaidOut(run'[|run|], WithPage(l, c, dma))
  {
    var g' := RequestAt(run[|ops|], l, c, dma);
    Extend(run, ops, Request(c, 4096, dma), g');
    run' := run + [g'];
  }

  /** Two contexts and two buffers of a page each, from device start-up. */
  lemma Setup(g0: Gpu) returns (run: seq<Gpu>, ops: seq<Op>)
    requires Init(g0)
    ensures ops == [CreateCtx(1), Request(1, 4096, 2), CreateCtx(3), Request(2, 4096, 4)]
    ensures Segment(run, ops) && run[0] == g0 && Neighbours(run[4]) && Granted(run[3], ops[3])
  {
    InitLaidOut(g0);
    var l0 := Layout([], [], [], BASE, {});
    var l1 := WithContext(l0, 1);
    var l2 := WithPage(l1, 1, 2);
    ops := [];
    run := RunCreate([g0], ops, l0, 1);
    ops := ops + [CreateCtx(1)];
    run := RunRequest(run, ops, l1, 1, 2);
    ops := ops + [Request(1, 4096, 2)];
    run, ops := SecondHalf(run, ops, l2);
  }

  lemma SecondHalf(run: seq<Gpu>, ops: seq<Op>, l: Layout) returns (run': seq<Gpu>, ops': seq<Op>)
    requires |ops| == 2 && Segment(run, ops) && LaidOut(run[2], l)
    requires l == Layout([BASE], [1], [FIRST], BASE + 0x4_1000, {1, 2})
    ensures ops' == ops + [CreateCtx(3)] + [Request(2, 4096, 4)]
    ensures Segment(run', ops') && run'[0] == run[0] && Neighbours(run'[4]) && Granted(run'[3], ops'[3])
  {
    var l3 := WithContext(l, 3);
    run' := RunCreate(run, ops, l, 3);
    ops' := ops + [CreateCtx(3)];
    assert run'[3].ddrNext == l3.next && DdrAlloc(l3.next, 4096).Some?;
    run' := RunRequest(run', ops', l3, 2, 4);
    ops' := ops' + [Request(2, 4096, 4)];
    FinalLayout(run'[4], WithPage(l3, 2, 4));
  }

  lemma FinalLayout(g: Gpu, l: Layout)
    requires LaidOut(g, l) && l.tables == [BASE, BASE + 0x4_1000] && l.vpages == [1, 1] && l.buffers == [SECOND, FIRST]
    ensures Neighbours(g)
  {
    assert PageValid(g, 1, 0) && PageValid(g, 2, 0);
  }

  const VA1: nat := 0x1_0000_0000_0000

  /** Both sources at the start of the first buffer, the destination half a page into it. */
  function Block(): (r: seq<byte>)
    ensures |r| == 24
  {
    Bytes(VA1, 8) + Bytes(VA1, 8) + Bytes(VA1 + 0x800, 8)
  }

  lemma BlockLoads(mem: seq<byte>, at: nat)
    requires at + 24 <= |mem| && mem[at..at + 24] == Block()
    ensures Load(mem, at, 8) == VA1 && Load(mem, at + 8, 8) == VA1 && Load(mem, at + 16, 8) == VA1 + 0x800
  {
    var s := mem[at..at + 24];
    SliceOfSlice(mem, at, at + 24, 0, 8);
    SliceOfSlice(mem, at, at + 24, 8, 16);
    SliceOfSlice(mem, at, at + 24, 16, 24);
    assert s[0..8] == Bytes(VA1, 8) && s[8..16] == Bytes(VA1, 8) && s[16..24] == Bytes(VA1 + 0x800, 8);
    Pow256Words();
    ValueBytes(VA1, 8);
    ValueBytes(VA1 + 0x800, 8);
  }

  /** The argument block is written to the start of the first buffer. */
  lemma WriteBlock(g: Gpu) returns (g': Gpu)
    requires Neighbours(g)
    ensures Next(g, Write(1, Block()), g') && Neighbours(g')
    ensures g'.mem[0x4_0000..0x4_0000 + 24] == Block()
  {
    assert FindBuffer(g.buffers, 1) == Some(1);
    WriteBufMeans(g, 1, Block());
    WriteBufInv(g, 1, Block());
    g' := WriteBuf(g, 1, Block()).0;
    CopyInside(g.mem, 0x4_0000, Block());
    assert PageValid(g', 1, 0) && PageValid(g', 2, 0);
  }

  /** With the first context bound its buffer is translated to its page. */
  lemma BlockAddresses(p: Gpu, offset: nat)
    requires Neighbours(p) && Bound(p, 1) && offset < 4096
    ensures Reachable(p, VA1 + offset, 4096) && At(p, VA1 + offset) == 0x4_0000 + offset
  {
    assert FIRST.Va() == VA1 && Align(4096) == 4096;
    LiveTranslation(p, 1, offset);
    LocalOffsetInDdr(FIRST.pa + offset, 4096);
  }

  lemma BlockBinds(g: Gpu)
    requires Neighbours(g)
    ensures var p := Programmed(g, VA1, VA1); Neighbours(p) && Bound(p, 1) && ArgRegister(p) == VA1
  {
    var p := Programmed(g, VA1, VA1);
    RegsInv(g, p);
    ArgRegisterHolds(g, VA1, VA1);
    BindBinds(g, 1);
    assert PageValid(g, 1, 0) && PageValid(g, 2, 0);
  }

  lemma BlockArgs(p: Gpu)
    requires Neighbours(p) && Bound(p, 1) && p.mem[0x4_0000..0x4_0000 + 24] == Block()
    ensures ArgsOk(p, VA1) && Arg(p, VA1, 0) == VA1 && Arg(p, VA1, 1) == VA1 && Arg(p, VA1, 2) == VA1 + 0x800
  {
    BlockAddresses(p, 0);
    assert VA1 + 0 == VA1;
    BlockLoads(p.mem, 0x4_0000);
  }

  lemma BlockKernel(p: Gpu)
    requires Neighbours(p) && Bound(p, 1) && p.mem[0x4_0000..0x4_0000 + 24] == Block()
    ensures KernelOk(p, VA1) && RunKernel(p, VA1) == AddAt(p, 0x4_0000, 0x4_0000, 0x4_0800)
  {
    BlockArgs(p);
    BlockAddresses(p, 0);
    BlockAddresses(p, 0x800);
    assert VA1 + 0 == VA1;
  }

  lemma SubmitBlock(g: Gpu) returns (g': Gpu)
    requires Neighbours(g) && g.mem[0x4_0000..0x4_0000 + 24] == Block()
    ensures Next(g, Submit(VA1, VA1), g')
    ensures g'.ctx == g.ctx && g'.buffers == g.buffers && g'.mem == VecAdd(g.mem, 0x4_0000, 0x4_0000, 0x4_0800, 1024)
  {
    BlockBinds(g);
    BlockKernel(Programmed(g, VA1, VA1));
    g' := AddAt(Programmed(g, VA1, VA1), 0x4_0000, 0x4_0000, 0x4_0800);
  }

  /** The addition runs through the first buffer into the second context's table and clears the valid bit there. */
  lemma SpillZero(mem: seq<byte>)
    requires |mem| == DDR_SIZE && mem[0x4_0000..0x4_0000 + 24] == Block()
    ensures Load(VecAdd(mem, 0x4_0000, 0x4_0000, 0x4_0800, 1024), 0x4_1000, 4) == 0
  {
    BlockLoads(mem, 0x4_0000);
    LoadHalves(mem, 0x4_0000);
    SpillWord(mem, 0x4_0000, 0x4_0800);
  }

  /** What the first word of the sources holds comes back four-fold a page further on. */
  lemma SpillWord(mem: seq<byte>, x: nat, z: nat)
    requires z == x + 0x800 && z + 4096 <= |mem| && Load(mem, x, 4) == 0
    ensures Load(VecAdd(mem, x, x, z, 1024), x + 4096, 4) == 0
  {
    FirstSum(mem, x, x, z, 512);
    VecAddWord(mem, x, x, z, 1024, 512);
  }

  lemma SpillUnmaps(g: Gpu)
    requires |g.mem| == DDR_SIZE && |g.ctx| == MAX_CONTEXTS && g.ctx[1].Ready? && g.ctx[1].phys == BASE + 0x4_1000
    requires Load(g.mem, 0x4_1000, 4) == 0
    ensures var p := Bind(g, 2); TranslateOk(p.mem, p.regs, SECOND.Va()) && Translate(p.mem, p.regs, SECOND.Va()) == None
  {
    PackRoundTrip(2, 0, 0);
    LoadHalves(g.mem, 0x4_1000);
  }

  /** The device no longer translates the second buffer, though its entry in the driver's table is valid. */
  ghost predicate Lost(g: Gpu) {
    && PageValid(g, 2, 0) && !Inv(g)
    && var p := Bind(g, 2); TranslateOk(p.mem, p.regs, SECOND.Va()) && Translate(p.mem, p.regs, SECOND.Va()) == None
  }

  lemma SubmitLoses(g: Gpu) returns (g': Gpu)
    requires Neighbours(g) && g.mem[0x4_0000..0x4_0000 + 24] == Block()
    ensures Next(g, Submit(VA1, VA1), g') && Lost(g')
  {
    g' := SubmitBlock(g);
    SpillZero(g.mem);
    SpillUnmaps(g');
    assert PageValid(g, 2, 0);
    assert !Inv(g') by {
      if Inv(g') {
        BoundTranslation(g', 0, 0);
      }
    }
  }

  /** A run of six allowed ioctls, from any start-up state, after which the second buffer is allocated and was never
      freed but its address is no longer translated: TranslationOverRuns fails without its condition on kernels. */
  lemma SpillingRun(g0: Gpu) returns (run: seq<Gpu>, ops: seq<Op>)
    requires Init(g0)
    ensures ops == [CreateCtx(1), Request(1, 4096, 2), CreateCtx(3), Request(2, 4096, 4), Write(1, Block()), Submit(VA1, VA1)]
    ensures Segment(run, ops) && run[0] == g0
    ensures Granted(run[3], ops[3]) && run[4].buffers == [SECOND, FIRST]
    ensures Lost(run[6])
  {
    run, ops := Setup(g0);
    var g5 := WriteBlock(run[4]);
    Extend(run, ops, Write(1, Block()), g5);
    run, ops := run + [g5], ops + [Write(1, Block())];
    var g6 := SubmitLoses(g5);
    Extend(run, ops, Submit(VA1, VA1), g6);
    run, ops := run + [g6], ops + [Submit(VA1, VA1)];
  }
}
