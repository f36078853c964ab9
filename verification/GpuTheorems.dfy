/** Translation, isolation and round trips over every run of ioctls. */
module GpuTheorems {
  import opened Common
  import opened GpuMemory
  import opened GpuPageTable
  import opened GpuSystem
  import opened GpuInvariant
  import opened GpuIoctl
  import opened GpuDevice
  import opened GpuProofs
  import opened GpuKernel
  import opened GpuRuns

  // ---- translation of live buffers ----

  /** The page of the buffer that holds this offset has not been freed. */
  predicate LiveAt(g: Gpu, b: Buffer, offset: nat) {
    && 1 <= b.ctx <= |g.ctx| && g.ctx[b.ctx - 1].Ready?
    && b.vpage + offset / 4096 < ENTRIES
    && IsValid(g.ctx[b.ctx - 1].table[b.vpage + offset / 4096])
  }

  /** An address inside a buffer decodes to the buffer's page and offset. */
  lemma AddressInside(b: Buffer, offset: nat)
    requires b.ctx <= MAX_CONTEXTS && b.vpage + offset / 4096 < ENTRIES
    ensures VaPage(b.Va() + offset) == b.vpage + offset / 4096 && (b.Va() + offset) % 4096 == offset % 4096
  {
    PackRoundTrip(b.ctx, b.vpage + offset / 4096, offset % 4096);
  }

  /** The entry of a live page is the same on both sides and names the buffer's own page. */
  lemma LiveEntry(g: Gpu, i: nat, k: nat)
    requires Inv(g) && i < |g.buffers| && k < Pages(g.buffers[i].size)
    requires BufOk(g.buffers[i], g.ctx, g.ddrNext, g.host) && LiveAt(g, g.buffers[i], k * 4096)
    ensures var b := g.buffers[i]; var x := g.ctx[b.ctx - 1];
            && CtxOk(x, g.ddrNext, g.host)
            && x.table[b.vpage + k] == b.pa + k * 4096 + 1
            && DevEntry(DevTable(g.mem, x.phys), b.vpage + k) == b.pa + k * 4096 + 1
  {
    var b := g.buffers[i];
    GetCtx(g, b.ctx - 1);
    OwnerOfBuffer(g.buffers, i, b.vpage + k);
    SyncedIff(g.buffers, b.ctx);
    assert !IsValid(0);
  }

  /** End to end: with its context bound, the device translates every address of a live page of every buffer to
      exactly the corresponding physical address. */
  lemma LiveTranslation(g: Gpu, i: nat, offset: nat)
    requires Inv(g) && i < |g.buffers| && offset < Align(g.buffers[i].size)
    requires LiveAt(g, g.buffers[i], offset) && Bound(g, g.buffers[i].ctx)
    ensures TranslateOk(g.mem, g.regs, g.buffers[i].Va() + offset)
    ensures Translate(g.mem, g.regs, g.buffers[i].Va() + offset) == Some(g.buffers[i].pa + offset)
  {
    var b, k := g.buffers[i], offset / 4096;
    GetBuf(g, i);
    AddressInside(b, offset);
    LiveEntry(g, i, k);
    TranslateReads(g, b.ctx, b.Va() + offset);
    PhysOfPage(b.pa, k);
    PageOfEntry(b.pa, k);
  }

  lemma PageOfEntry(pa: nat, k: nat)
    requires pa % 4096 == 0
    ensures IsValid(pa + k * 4096 + 1)
  {
  }

  lemma BoundTranslation(g: Gpu, i: nat, offset: nat)
    requires Inv(g) && i < |g.buffers| && offset < Align(g.buffers[i].size) && LiveAt(g, g.buffers[i], offset)
    ensures var b, p := g.buffers[i], Bind(g, g.buffers[i].ctx);
            && TranslateOk(p.mem, p.regs, b.Va() + offset)
            && Translate(p.mem, p.regs, b.Va() + offset) == Some(b.pa + offset)
  {
    var p := Bind(g, g.buffers[i].ctx);
    BindBinds(g, g.buffers[i].ctx);
    RegsInv(g, p);
    LiveTranslation(p, i, offset);
  }

  // ---- which pages are live ----

  /** The driver's entry for page v of context c is valid. */
  predicate PageValid(g: Gpu, c: nat, v: nat) {
    Usable(g, c) && v < ENTRIES && IsValid(g.ctx[c - 1].table[v])
  }

  /** Page v has been handed out to context c. */
  predicate Assigned(g: Gpu, c: nat, v: nat) {
    Usable(g, c) && v < g.ctx[c - 1].vpageNext
  }

  /** The call is a FREE whose range includes page v of context c. */
  predicate Frees(op: Op, c: nat, v: nat) {
    op.FreeVa? && VaCtx(op.va) == c && VaPage(op.va) <= v < VaPage(op.va) + FreePages(op.size)
  }

  /** It also gets as far as that page: all pages before it in the range are valid. */
  predicate Clears(g: Gpu, op: Op, c: nat, v: nat) {
    && Frees(op, c, v) && Usable(g, c)
    && v < VaPage(op.va) + ClearCount(g.ctx[c - 1].table, VaPage(op.va), FreePages(op.size))
  }

  /** No page of the buffer has been freed. */
  ghost predicate Live(g: Gpu, b: Buffer) {
    forall v :: b.vpage <= v < b.vpage + Pages(b.size) ==> PageValid(g, b.ctx, v)
  }

  /** A successful REQ_BUF: the context id is given and the DDR suffices. */
  predicate Granted(g: Gpu, op: Op) {
    op.Request? && op.c != 0 && DdrAlloc(g.ddrNext, op.size).Some?
  }

  /** A new buffer is live, and its pages are assigned to it. */
  lemma RequestLive(g: Gpu, op: Op, g': Gpu)
    requires Inv(g) && Granted(g, op) && Next(g, op, g')
    ensures g'.buffers != [] && Live(g', g'.buffers[0])
    ensures var b := g'.buffers[0];
            && b.ctx == op.c && b.size == op.size
            && forall v :: b.vpage <= v < b.vpage + Pages(b.size) ==> Assigned(g', b.ctx, v)
  {
    var c, size, x := op.c, op.size, g.ctx[op.c - 1];
    ReqBufMeans(g, c, size, op.dma);
    VpageInTable(g, c, size);
    MappedMeans(x.table, x.vpageNext, g.ddrNext, Pages(size));
    forall v | x.vpageNext <= v < x.vpageNext + Pages(size) ensures PageValid(g', c, v) {
      PageOfEntry(g.ddrNext, v - x.vpageNext);
    }
  }

  lemma RequestPages(g: Gpu, op: Op, g': Gpu, c: nat, v: nat)
    requires Inv(g) && op.Request? && Next(g, op, g') && Assigned(g, c, v)
    ensures Assigned(g', c, v) && (PageValid(g', c, v) <==> PageValid(g, c, v))
  {
    if Granted(g, op) && op.c == c {
      ReqBufMeans(g, c, op.size, op.dma);
      VpageInTable(g, c, op.size);
      MappedMeans(g.ctx[c - 1].table, g.ctx[c - 1].vpageNext, g.ddrNext, Pages(op.size));
    } else if Granted(g, op) {
      ReqBufMeans(g, op.c, op.size, op.dma);
    }
  }

  /** The only call that ends the life of a page is a FREE that gets to it; nothing revives it. */
  lemma StepPages(g: Gpu, op: Op, g': Gpu, c: nat, v: nat)
    requires Inv(g) && Next(g, op, g') && Assigned(g, c, v)
    ensures Assigned(g', c, v)
    ensures PageValid(g', c, v) <==> PageValid(g, c, v) && !Clears(g, op, c, v)
  {
    match op
    case CreateCtx(dma) =>
    case Request(_, _, _) => RequestPages(g, op, g', c, v);
    case Write(handle, data) => WriteKeepsList(g, handle, data);
    case Read(handle, size) =>
    case FreeVa(va, size) => FreePage(g, va, size, c, v);
    case Submit(kernelVa, argVa) =>
  }

  lemma FreePage(g: Gpu, va: nat, size: nat, c: nat, v: nat)
    requires Inv(g) && (1 <= VaCtx(va) <= |g.ctx| ==> !g.ctx[VaCtx(va) - 1].Broken?) && Assigned(g, c, v)
    ensures var g' := Free(g, va, size).0;
            Assigned(g', c, v) && (PageValid(g', c, v) <==> PageValid(g, c, v) && !Clears(g, FreeVa(va, size), c, v))
  {
    assert !IsValid(0);
  }

  /** Over any stretch of a run, a page is live at the end if and only if it was at the start and no FREE got to it. */
  lemma {:induction false} PagesOverRuns(run: seq<Gpu>, ops: seq<Op>, m: nat, k: nat, c: nat, v: nat)
    requires ContainedSegment(run, ops) && m <= k <= |ops| && (Init(run[0]) || Inv(run[0])) && Assigned(run[m], c, v)
    ensures Assigned(run[k], c, v)
    ensures PageValid(run[k], c, v)
       <==> PageValid(run[m], c, v) && forall j :: m <= j < k ==> !Clears(run[j], ops[j], c, v)
  {
    if m < k {
      PagesOverRuns(run, ops, m, k - 1, c, v);
      PagesAt(run, ops, k - 1, c, v);
    }
  }

  lemma PagesAt(run: seq<Gpu>, ops: seq<Op>, k: nat, c: nat, v: nat)
    requires ContainedSegment(run, ops) && k < |ops| && (Init(run[0]) || Inv(run[0])) && Assigned(run[k], c, v)
    ensures Assigned(run[k + 1], c, v)
    ensures PageValid(run[k + 1], c, v) <==> PageValid(run[k], c, v) && !Clears(run[k], ops[k], c, v)
  {
    RunInv(run, ops, k);
    assert StepAt(run, ops, k);
    StepPages(run[k], ops[k], run[k + 1], c, v);
  }

  /** Buffers are never dropped from the list: the buffer at position i of g is at position j of g'. */
  ghost predicate Stays(g: Gpu, i: nat, g': Gpu, j: nat) {
    i < |g.buffers| && j < |g'.buffers| && g'.buffers[j] == g.buffers[i]
  }

  lemma StepStays(g: Gpu, op: Op, g': Gpu, i: nat) returns (j: nat)
    requires Inv(g) && Next(g, op, g') && i < |g.buffers|
    ensures Stays(g, i, g', j)
  {
    j := i;
    if Granted(g, op) {
      ReqBufMeans(g, op.c, op.size, op.dma);
      j := i + 1;
    } else if op.Write? {
      WriteKeepsList(g, op.handle, op.data);
    }
  }

  lemma WriteKeepsList(g: Gpu, handle: nat, data: seq<byte>)
    requires Inv(g)
    ensures WriteBuf(g, handle, data).0.buffers == g.buffers && |WriteBuf(g, handle, data).0.mem| == DDR_SIZE
    ensures WriteBuf(g, handle, data).0.ctx == g.ctx
  {
  }

  lemma {:induction false} RunStays(run: seq<Gpu>, ops: seq<Op>, m: nat, k: nat, i: nat) returns (j: nat)
    requires ContainedSegment(run, ops) && m <= k <= |ops| && (Init(run[0]) || Inv(run[0])) && i < |run[m].buffers|
    ensures Stays(run[m], i, run[k], j)
  {
    if m == k {
      j := i;
    } else {
      var h := RunStays(run, ops, m, k - 1, i);
      RunInv(run, ops, k - 1);
      assert StepAt(run, ops, k - 1);
      j := StepStays(run[k - 1], ops[k - 1], run[k], h);
    }
  }

  /** The buffer that call m of the run created. */
  ghost predicate Created(run: seq<Gpu>, ops: seq<Op>, m: nat, b: Buffer) {
    && IsRun(run, ops) && m < |ops| && Granted(run[m], ops[m])
    && run[m + 1].buffers != [] && b == run[m + 1].buffers[0]
  }

  /** A page of a buffer that no later FREE asks to clear is live at the end of the run. */
  lemma CreatedLive(run: seq<Gpu>, ops: seq<Op>, m: nat, b: Buffer, v: nat)
    requires Created(run, ops, m, b) && b.vpage <= v < b.vpage + Pages(b.size)
    requires forall k :: m < k < |ops| ==> !Frees(ops[k], b.ctx, v)
    ensures PageValid(run[|ops|], b.ctx, v)
  {
    RunInv(run, ops, m);
    assert StepAt(run, ops, m);
    RequestLive(run[m], ops[m], run[m + 1]);
    PagesOverRuns(run, ops, m + 1, |ops|, b.ctx, v);
  }

  lemma CreatedStays(run: seq<Gpu>, ops: seq<Op>, m: nat, b: Buffer) returns (i: nat)
    requires Created(run, ops, m, b)
    ensures Inv(run[|ops|]) && i < |run[|ops|].buffers| && run[|ops|].buffers[i] == b
  {
    i := RunStays(run, ops, m + 1, |ops|, 0);
    RunInv(run, ops, |ops|);
  }

  /** End to end, over every run of ioctls: a buffer that was allocated, at any offset whose page no later FREE asks to
      clear, is translated by the device to its own memory as soon as its context is bound. */
  lemma TranslationOverRuns(run: seq<Gpu>, ops: seq<Op>, m: nat, b: Buffer, offset: nat)
    requires Created(run, ops, m, b) && offset < Align(b.size)
    requires forall k :: m < k < |ops| ==> !Frees(ops[k], b.ctx, b.vpage + offset / 4096)
    ensures var p := Bind(run[|ops|], b.ctx);
            && TranslateOk(p.mem, p.regs, b.Va() + offset)
            && Translate(p.mem, p.regs, b.Va() + offset) == Some(b.pa + offset)
  {
    CreatedLive(run, ops, m, b, b.vpage + offset / 4096);
    var i := CreatedStays(run, ops, m, b);
    BoundTranslation(run[|ops|], i, offset);
  }

  // ---- stale entries never alias ----

  /** The device's table of context c has a valid entry for page v. */
  predicate DeviceMaps(g: Gpu, c: nat, v: nat) {
    && |g.mem| == DDR_SIZE && 1 <= c <= |g.ctx| && g.ctx[c - 1].Ready? && InDdr(g.ctx[c - 1].phys, TABLE_SIZE)
    && v < ENTRIES && Synced(g.buffers, c)
    && IsValid(DevEntry(DevTable(g.mem, g.ctx[c - 1].phys), v))
  }

  function DevicePhys(g: Gpu, c: nat, v: nat): nat
    requires DeviceMaps(g, c, v)
  {
    PhysPage(DevEntry(DevTable(g.mem, g.ctx[c - 1].phys), v))
  }

  /** Pages of two buffers, or two pages of one, never coincide. */
  lemma PagesDiffer(g: Gpu, i: nat, v: nat, j: nat, w: nat)
    requires Inv(g) && i < |g.buffers| && j < |g.buffers|
    requires GpuInvariant.Covers(g.buffers[i], g.buffers[i].ctx, v) && GpuInvariant.Covers(g.buffers[j], g.buffers[j].ctx, w)
    requires g.buffers[i].pa + (v - g.buffers[i].vpage) * 4096 == g.buffers[j].pa + (w - g.buffers[j].vpage) * 4096
    ensures i == j && v == w
  {
    if i != j {
      GetDistinct(g.buffers, i, j);
      assert false;
    }
  }

  /** A valid device entry, fresh or stale, names a page that was assigned to that context and virtual page and
      to no other. */
  lemma NeverAliasing(g: Gpu, c: nat, v: nat, c': nat, v': nat)
    requires Inv(g) && DeviceMaps(g, c, v) && DeviceMaps(g, c', v')
    ensures DevicePhys(g, c, v) == Owner(g.buffers, c, v) != 0
    ensures DevicePhys(g, c, v) == DevicePhys(g, c', v') ==> c == c' && v == v'
  {
    DeviceEntry(g, c, v);
    DeviceEntry(g, c', v');
    var i := OwnerPage(g, c, v);
    var j := OwnerPage(g, c', v');
    if DevicePhys(g, c, v) == DevicePhys(g, c', v') {
      PagesDiffer(g, i, v, j, v');
    }
  }

  /** A page the device can reach through a table never overlaps any page table. */
  lemma NeverInTable(g: Gpu, c: nat, v: nat, k: nat)
    requires Inv(g) && DeviceMaps(g, c, v) && k < |g.ctx| && g.ctx[k].Ready?
    ensures Apart(DevicePhys(g, c, v), 4096, g.ctx[k].phys, TABLE_SIZE)
  {
    DeviceEntry(g, c, v);
    var i := OwnerPage(g, c, v);
    assert OffTable(g.buffers[i], g.ctx[k]);
  }

  // ---- freeing ----

  lemma ClearAll(t: Table, start: nat, n: nat)
    requires start + n <= ENTRIES && forall v :: start <= v < start + n ==> IsValid(t[v])
    ensures ClearCount(t, start, n) == n
  {
  }

  /** Freeing a live buffer with its own address and size succeeds and clears exactly its entries, in the driver's
      table only. */
  lemma FreeOwn(g: Gpu, i: nat)
    requires Inv(g) && i < |g.buffers| && Live(g, g.buffers[i])
    ensures FreesExactly(g, g.buffers[i])
  {
    var b := g.buffers[i];
    GetBuf(g, i);
    GetCtx(g, b.ctx - 1);
    FreePagesIff(b.size);
    AlignCovers(b.size);
    PackRoundTrip(b.ctx, b.vpage, 0);
    var t := g.ctx[b.ctx - 1].table;
    forall v | b.vpage <= v < b.vpage + Pages(b.size) ensures IsValid(t[v]) {
      assert PageValid(g, b.ctx, v);
    }
    ClearAll(t, b.vpage, Pages(b.size));
  }

  ghost predicate FreesExactly(g: Gpu, b: Buffer) {
    && Inv(g) && Usable(g, b.ctx) && VaCtx(b.Va()) == b.ctx
    && var (g', ok) := Free(g, b.Va(), b.size);
    && ok && g'.mem == g.mem && g'.buffers == g.buffers && g'.regs == g.regs && g'.ddrNext == g.ddrNext
    && g'.ctx == g.ctx[b.ctx - 1 := g.ctx[b.ctx - 1].(table := Cleared(g.ctx[b.ctx - 1].table, b.vpage, Pages(b.size)))]
  }

  /** Over every run: a buffer that was allocated and no page of which a later FREE asks to clear can be freed. */
  lemma FreeOwnOverRuns(run: seq<Gpu>, ops: seq<Op>, m: nat, b: Buffer)
    requires Created(run, ops, m, b)
    requires forall k, v :: m < k < |ops| && b.vpage <= v < b.vpage + Pages(b.size) ==> !Frees(ops[k], b.ctx, v)
    ensures FreesExactly(run[|ops|], b)
  {
    forall v | b.vpage <= v < b.vpage + Pages(b.size) ensures PageValid(run[|ops|], b.ctx, v) {
      CreatedLive(run, ops, m, b, v);
    }
    var i := CreatedStays(run, ops, m, b);
    FreeOwn(run[|ops|], i);
  }

  // ---- isolation and round trip ----

  /** The bytes of a buffer in device memory. */
  function BytesOf(g: Gpu, b: Buffer): seq<byte>
    requires |g.mem| == DDR_SIZE && InDdr(b.pa, Align(b.size))
  {
    g.mem[b.pa - BASE..b.pa - BASE + Align(b.size)]
  }

  /** The call writes the buffer: a WRITE_BUF to its handle, or a kernel whose 4096 destination bytes reach into it. */
  ghost predicate Targets(g: Gpu, op: Op, b: Buffer) {
    match op
    case Write(handle, _) => handle == b.handle
    case Submit(kernelVa, argVa) =>
      Allowed(g, op) && !Apart(b.pa, Align(b.size), BASE + Destination(g, kernelVa, argVa), 4096)
    case _ => false
  }

  lemma OtherWriteKeeps(g: Gpu, handle: nat, data: seq<byte>, i: nat)
    requires Inv(g) && i < |g.buffers| && handle != g.buffers[i].handle
    requires InDdr(g.buffers[i].pa, Align(g.buffers[i].size))
    ensures BytesOf(WriteBuf(g, handle, data).0, g.buffers[i]) == BytesOf(g, g.buffers[i])
  {
    var found := FindBuffer(g.buffers, handle);
    if found.Some? && |data| <= g.buffers[found.value].size {
      var b, w := g.buffers[i], g.buffers[found.value];
      WriteBufMeans(g, handle, data);
      GetDistinct(g.buffers, found.value, i);
      CopyOutside(g.mem, w.pa - BASE, data, b.pa - BASE, b.pa - BASE + Align(b.size));
    }
  }

  lemma RequestKeeps(g: Gpu, c: nat, size: nat, dma: nat, i: nat)
    requires Inv(g) && Usable(g, c) && DdrAlloc(g.ddrNext, size).Some? && dma !in g.host && i < |g.buffers|
    requires InDdr(g.buffers[i].pa, Align(g.buffers[i].size))
    ensures BytesOf(ReqBuf(g, c, size, dma).0, g.buffers[i]) == BytesOf(g, g.buffers[i])
  {
    var b, x, g' := g.buffers[i], g.ctx[c - 1], ReqBuf(g, c, size, dma).0;
    ReqBufMeans(g, c, size, dma);
    assert OffTable(b, x);
    CopyOutside(g.mem, x.phys - BASE, Encode(g'.ctx[c - 1].table), b.pa - BASE, b.pa - BASE + Align(b.size));
  }

  lemma InBuffersDdr(g: Gpu, i: nat)
    requires Inv(g) && i < |g.buffers|
    ensures InDdr(g.buffers[i].pa, Align(g.buffers[i].size))
  {
    GetBuf(g, i);
  }

  lemma SubmitKeeps(g: Gpu, kernelVa: nat, argVa: nat, g': Gpu, i: nat)
    requires Inv(g) && Next(g, Submit(kernelVa, argVa), g') && i < |g.buffers|
    requires !Targets(g, Submit(kernelVa, argVa), g.buffers[i]) && InDdr(g.buffers[i].pa, Align(g.buffers[i].size))
    ensures g'.buffers == g.buffers && |g'.mem| == DDR_SIZE
    ensures BytesOf(g', g.buffers[i]) == BytesOf(g, g.buffers[i])
  {
    var p := Programmed(g, kernelVa, argVa);
    var arg := ArgRegister(p);
    VecAddFrame(p.mem, At(p, Arg(p, arg, 0)), At(p, Arg(p, arg, 1)), At(p, Arg(p, arg, 2)));
  }

  lemma RequestStays(g: Gpu, c: nat, size: nat, dma: nat, g': Gpu, i: nat) returns (j: nat)
    requires Inv(g) && Next(g, Request(c, size, dma), g') && i < |g.buffers| && InDdr(g.buffers[i].pa, Align(g.buffers[i].size))
    ensures Stays(g, i, g', j) && |g'.mem| == DDR_SIZE && BytesOf(g', g.buffers[i]) == BytesOf(g, g.buffers[i])
  {
    if c != 0 && DdrAlloc(g.ddrNext, size).Some? {
      RequestKeeps(g, c, size, dma, i);
      ReqBufMeans(g, c, size, dma);
      j := i + 1;
    } else {
      j := i;
    }
  }

  /** Isolation: a call that does not target a buffer leaves its bytes alone. */
  lemma StepKeeps(g: Gpu, op: Op, g': Gpu, i: nat) returns (j: nat)
    requires Inv(g) && Next(g, op, g') && i < |g.buffers| && !Targets(g, op, g.buffers[i])
    ensures InDdr(g.buffers[i].pa, Align(g.buffers[i].size)) && |g.mem| == |g'.mem| == DDR_SIZE
    ensures Stays(g, i, g', j) && BytesOf(g', g.buffers[i]) == BytesOf(g, g.buffers[i])
  {
    InBuffersDdr(g, i);
    j := i;
    match op
    case CreateCtx(dma) =>
    case Request(c, size, dma) => j := RequestStays(g, c, size, dma, g', i);
    case Write(handle, data) => OtherWriteKeeps(g, handle, data, i); WriteKeepsList(g, handle, data);
    case Read(handle, size) =>
    case FreeVa(va, size) =>
    case Submit(kernelVa, argVa) => SubmitKeeps(g, kernelVa, argVa, g', i);
  }

  /** The bytes of a buffer survive any stretch of calls that do not target it. */
  lemma {:induction false} RunKeeps(run: seq<Gpu>, ops: seq<Op>, i: nat, k: nat) returns (j: nat)
    requires ContainedSegment(run, ops) && Inv(run[0]) && i < |run[0].buffers| && k <= |ops|
    requires forall m :: 0 <= m < k ==> !Targets(run[m], ops[m], run[0].buffers[i])
    ensures Stays(run[0], i, run[k], j) && InDdr(run[0].buffers[i].pa, Align(run[0].buffers[i].size))
    ensures |run[0].mem| == |run[k].mem| == DDR_SIZE
    ensures BytesOf(run[k], run[0].buffers[i]) == BytesOf(run[0], run[0].buffers[i])
  {
    if k == 0 {
      InBuffersDdr(run[0], i);
      j := i;
    } else {
      var h := RunKeeps(run, ops, i, k - 1);
      assert StepAt(run, ops, k - 1);
      RunInv(run, ops, k - 1);
      j := StepKeeps(run[k - 1], ops[k - 1], run[k], h);
    }
  }

  lemma FindIs(g: Gpu, i: nat)
    requires Inv(g) && i < |g.buffers|
    ensures FindBuffer(g.buffers, g.buffers[i].handle) == Some(i)
  {
    var found := FindBuffer(g.buffers, g.buffers[i].handle);
    if found.Some? && found.value != i {
      GetDistinct(g.buffers, found.value, i);
      assert false;
    }
  }

  /** READ_BUF returns the leading bytes of the buffer in device memory. */
  lemma ReadReturns(g: Gpu, i: nat, n: nat)
    requires Inv(g) && i < |g.buffers| && n <= g.buffers[i].size
    ensures InDdr(g.buffers[i].pa, Align(g.buffers[i].size)) && n <= Align(g.buffers[i].size)
    ensures ReadBuf(g, g.buffers[i].handle, n).1 == Some(BytesOf(g, g.buffers[i])[..n])
  {
    var b := g.buffers[i];
    FindIs(g, i);
    GetBuf(g, i);
    AlignCovers(b.size);
    SliceOfSlice(g.mem, b.pa - BASE, b.pa - BASE + Align(b.size), 0, n);
    var bytes := g.mem[b.pa - BASE..b.pa - BASE + n];
    assert Copy(g.host[b.dma], 0, bytes)[..n] == bytes;
  }

  /** WRITE_BUF puts the data at the start of the buffer. */
  lemma WriteStores(g: Gpu, i: nat, data: seq<byte>)
    requires Inv(g) && i < |g.buffers| && |data| <= g.buffers[i].size
    ensures var b, g' := g.buffers[i], WriteBuf(g, g.buffers[i].handle, data).0;
            && InDdr(b.pa, Align(b.size)) && |data| <= Align(b.size) && |g'.mem| == DDR_SIZE
            && BytesOf(g', b)[..|data|] == data
  {
    var b, g' := g.buffers[i], WriteBuf(g, g.buffers[i].handle, data).0;
    FindIs(g, i);
    InBuffersDdr(g, i);
    WriteBufMeans(g, b.handle, data);
    CopyInside(g.mem, b.pa - BASE, data);
    SliceOfSlice(g'.mem, b.pa - BASE, b.pa - BASE + Align(b.size), 0, |data|);
  }

  /** Round trip: what was written is read back after any calls that did not target the buffer. */
  lemma WriteThenRead(g: Gpu, i: nat, data: seq<byte>, run: seq<Gpu>, ops: seq<Op>, n: nat)
    requires Inv(g) && i < |g.buffers| && n <= |data| <= g.buffers[i].size
    requires ContainedSegment(run, ops) && run[0] == WriteBuf(g, g.buffers[i].handle, data).0
    requires forall m :: 0 <= m < |ops| ==> !Targets(run[m], ops[m], g.buffers[i])
    ensures Inv(run[|ops|]) && ReadBuf(run[|ops|], g.buffers[i].handle, n).1 == Some(data[..n])
  {
    var b := g.buffers[i];
    WriteStores(g, i, data);
    WriteBufInv(g, b.handle, data);
    WriteKeepsList(g, b.handle, data);
    var j := RunKeeps(run, ops, i, |ops|);
    RunInv(run, ops, |ops|);
    ReadReturns(run[|ops|], j, n);
    var bytes := BytesOf(run[0], b);
    assert bytes[..n] == bytes[..|data|][..n];
  }
}
