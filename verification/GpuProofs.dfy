/** Every ioctl keeps the invariant of driver and device. */
module GpuProofs {
  import opened Common
  import opened GpuMemory
  import opened GpuPageTable
  import opened GpuSystem
  import opened GpuInvariant
  import opened GpuIoctl
  import opened GpuDevice

  // ---- CTX_CREATE ----

  /** A slot without a table has no buffers. */
  lemma NotSynced(g: Gpu, i: nat)
    requires Inv(g) && i < |g.ctx| && !g.ctx[i].Ready?
    ensures !Synced(g.buffers, i + 1)
  {
    SyncedIff(g.buffers, i + 1);
    forall k | 0 <= k < |g.buffers| ensures g.buffers[k].ctx != i + 1 {
      assert BufOk(g.buffers[k], g.ctx, g.ddrNext, g.host);
    }
  }

  lemma BreakInv(g: Gpu, i: nat)
    requires Inv(g) && i < |g.ctx| && g.ctx[i].Unused?
    ensures Inv(g.(ctx := g.ctx[i := Broken]))
  {
    var ctx' := g.ctx[i := Broken];
    BufsKept(g.buffers, g.nextHandle, g.ctx, g.ddrNext, g.host, ctx', g.ddrNext, g.host);
    forall k | 0 <= k < |ctx'| ensures CtxOk(ctx'[k], g.ddrNext, g.host) {
      assert CtxOk(g.ctx[k], g.ddrNext, g.host);
    }
    forall k, j | 0 <= k < |ctx'| && 0 <= j < |ctx'| && k != j ensures TablesApart(ctx'[k], ctx'[j]) {
      assert TablesApart(g.ctx[k], g.ctx[j]);
    }
    forall k, j | 0 <= k < |g.buffers| && 0 <= j < |ctx'| ensures OffTable(g.buffers[k], ctx'[j]) {
      assert OffTable(g.buffers[k], g.ctx[j]);
    }
    forall k | 0 <= k < |ctx'| && ctx'[k].Ready?
      ensures CtxOk(ctx'[k], g.ddrNext, g.host) && TableOk(k, ctx'[k], g.buffers, g.mem)
    {
      GetCtx(g, k);
    }
  }

  lemma CreateCtxs(ctx: seq<Context>, i: nat, ddrNext: nat, host: map<nat, seq<byte>>, dma: nat)
    requires CtxsOk(ctx, ddrNext, host) && i < |ctx| && ctx[i].Unused?
    requires BASE <= ddrNext && ddrNext % 4096 == 0 && dma !in host && dma < TWO64
    ensures CtxsOk(ctx[i := Ready(0, dma, ddrNext, EmptyTable())], ddrNext + TABLE_SIZE, host[dma := Encode(EmptyTable())])
  {
    var x, host' := Ready(0, dma, ddrNext, EmptyTable()), host[dma := Encode(EmptyTable())];
    var ctx' := ctx[i := x];
    forall k | 0 <= k < |ctx| ensures CtxOk(ctx'[k], ddrNext + TABLE_SIZE, host') {
      assert CtxOk(ctx[k], ddrNext, host);
    }
    forall k, j | 0 <= k < |ctx'| && 0 <= j < |ctx'| && k != j ensures TablesApart(ctx'[k], ctx'[j]) {
      assert TablesApart(ctx[k], ctx[j]);
      assert CtxOk(ctx[k], ddrNext, host) && CtxOk(ctx[j], ddrNext, host);
    }
  }

  lemma CreateSeparate(g: Gpu, i: nat, x: Context)
    requires Inv(g) && i < |g.ctx| && x.Ready? && x.phys == g.ddrNext && x.dma !in g.host
    ensures Separate(g.buffers, g.ctx[i := x])
  {
    var ctx' := g.ctx[i := x];
    forall k, j | 0 <= k < |g.buffers| && 0 <= j < |ctx'| ensures OffTable(g.buffers[k], ctx'[j]) {
      assert BufOk(g.buffers[k], g.ctx, g.ddrNext, g.host);
      assert OffTable(g.buffers[k], g.ctx[j]);
    }
  }

  lemma CreateInv(g: Gpu, i: nat, dma: nat)
    requires Inv(g) && i < |g.ctx| && g.ctx[i].Unused? && dma !in g.host && dma < TWO64
    requires g.ddrNext + TABLE_SIZE <= BASE + DDR_SIZE
    ensures Inv(g.(ctx := g.ctx[i := Ready(0, dma, g.ddrNext, EmptyTable())],
                   ddrNext := g.ddrNext + TABLE_SIZE, host := g.host[dma := Encode(EmptyTable())]))
  {
    var x := Ready(0, dma, g.ddrNext, EmptyTable());
    var ctx', ddrNext', host' := g.ctx[i := x], g.ddrNext + TABLE_SIZE, g.host[dma := Encode(EmptyTable())];
    CreateCtxs(g.ctx, i, g.ddrNext, g.host, dma);
    CreateSeparate(g, i, x);
    BufsKept(g.buffers, g.nextHandle, g.ctx, g.ddrNext, g.host, ctx', ddrNext', host');
    forall k | 0 <= k < |ctx'| && ctx'[k].Ready?
      ensures CtxOk(ctx'[k], ddrNext', host') && TableOk(k, ctx'[k], g.buffers, g.mem)
    {
      assert CtxOk(ctx'[k], ddrNext', host');
      if k == i {
        NotSynced(g, i);
      } else {
        GetCtx(g, k);
      }
    }
  }

  lemma CtxCreateInv(g: Gpu, dma: nat)
    requires Inv(g) && dma !in g.host && dma < TWO64
    ensures Inv(CtxCreate(g, dma).0)
  {
    var i := FirstUnused(g.ctx);
    if i < |g.ctx| {
      if DdrAlloc(g.ddrNext, TABLE_SIZE).None? {
        BreakInv(g, i);
      } else {
        CreateInv(g, i, dma);
      }
    }
  }

  // ---- WRITE_BUF and READ_BUF ----

  /** Rewriting a buffer's host bytes and any DDR outside the page tables keeps the invariant. */
  lemma BufferBytesInv(g: Gpu, i: nat, g': Gpu)
    requires Inv(g) && i < |g.buffers| && |g'.mem| == DDR_SIZE
    requires g' == g.(host := g'.host, mem := g'.mem, regs := g'.regs)
    requires g'.host.Keys == g.host.Keys && HostKept(g.host, g'.host)
    requires forall a :: a in g.host && a != g.buffers[i].dma ==> g'.host[a] == g.host[a]
    requires forall k :: 0 <= k < |g.ctx| && g.ctx[k].Ready? ==>
               CtxOk(g.ctx[k], g.ddrNext, g.host) && DevTable(g'.mem, g.ctx[k].phys) == DevTable(g.mem, g.ctx[k].phys)
    ensures Inv(g')
  {
    forall k | 0 <= k < |g.ctx| && g.ctx[k].Ready? && g.ctx[k].dma in g.host
      ensures g'.host[g.ctx[k].dma] == g.host[g.ctx[k].dma]
    {
      assert OffTable(g.buffers[i], g.ctx[k]);
    }
    CtxsKept(g.ctx, g.ddrNext, g.host, g.ddrNext, g'.host);
    BufsKept(g.buffers, g.nextHandle, g.ctx, g.ddrNext, g.host, g.ctx, g.ddrNext, g'.host);
    forall k | 0 <= k < |g.ctx| && g.ctx[k].Ready?
      ensures CtxOk(g.ctx[k], g.ddrNext, g'.host) && TableOk(k, g.ctx[k], g.buffers, g'.mem)
    {
      GetCtx(g, k);
      assert CtxOk(g.ctx[k], g.ddrNext, g'.host);
    }
  }

  /** A write inside one buffer's DDR leaves every device table alone. */
  lemma TablesOutside(g: Gpu, i: nat, at: nat, data: seq<byte>)
    requires Inv(g) && i < |g.buffers|
    requires g.buffers[i].pa <= at && at + |data| <= g.buffers[i].pa + Align(g.buffers[i].size)
    ensures BufOk(g.buffers[i], g.ctx, g.ddrNext, g.host)
    ensures forall k :: 0 <= k < |g.ctx| && g.ctx[k].Ready? ==>
              CtxOk(g.ctx[k], g.ddrNext, g.host)
              && DevTable(Copy(g.mem, at - BASE, data), g.ctx[k].phys) == DevTable(g.mem, g.ctx[k].phys)
  {
    assert BufOk(g.buffers[i], g.ctx, g.ddrNext, g.host);
    forall k | 0 <= k < |g.ctx| && g.ctx[k].Ready?
      ensures CtxOk(g.ctx[k], g.ddrNext, g.host)
              && DevTable(Copy(g.mem, at - BASE, data), g.ctx[k].phys) == DevTable(g.mem, g.ctx[k].phys)
    {
      assert CtxOk(g.ctx[k], g.ddrNext, g.host) && OffTable(g.buffers[i], g.ctx[k]);
      CopyOutside(g.mem, at - BASE, data, g.ctx[k].phys - BASE, g.ctx[k].phys - BASE + TABLE_SIZE);
    }
  }

  /** What a successful WRITE_BUF does: its bytes arrive at the buffer's address, and no other host
      allocation changes. */
  lemma WriteBufMeans(g: Gpu, handle: nat, data: seq<byte>)
    requires Inv(g) && FindBuffer(g.buffers, handle).Some?
    requires |data| <= g.buffers[FindBuffer(g.buffers, handle).value].size
    ensures var b, g' := g.buffers[FindBuffer(g.buffers, handle).value], WriteBuf(g, handle, data).0;
            && InDdr(b.pa, |data|) && |data| <= Align(b.size)
            && g'.mem == Copy(g.mem, b.pa - BASE, data)
            && g'.host.Keys == g.host.Keys && HostKept(g.host, g'.host)
            && (forall a :: a in g.host && a != b.dma ==> g'.host[a] == g.host[a])
            && g' == g.(host := g'.host, mem := g'.mem, regs := g'.regs)
  {
    var b := g.buffers[FindBuffer(g.buffers, handle).value];
    assert BufOk(b, g.ctx, g.ddrNext, g.host);
    AlignCovers(b.size);
    assert Copy(g.host[b.dma], 0, data)[..|data|] == data;
  }

  lemma WriteBufInv(g: Gpu, handle: nat, data: seq<byte>)
    requires Inv(g)
    ensures Inv(WriteBuf(g, handle, data).0)
  {
    var found := FindBuffer(g.buffers, handle);
    if found.Some? && |data| <= g.buffers[found.value].size {
      var b, g' := g.buffers[found.value], WriteBuf(g, handle, data).0;
      WriteBufMeans(g, handle, data);
      TablesOutside(g, found.value, b.pa, data);
      BufferBytesInv(g, found.value, g');
    }
  }

  lemma ReadBufInv(g: Gpu, handle: nat, size: nat)
    requires Inv(g)
    ensures Inv(ReadBuf(g, handle, size).0)
  {
    var found := FindBuffer(g.buffers, handle);
    if found.Some? && size <= g.buffers[found.value].size {
      var g' := ReadBuf(g, handle, size).0;
      forall k | 0 <= k < |g.ctx| && g.ctx[k].Ready? ensures CtxOk(g.ctx[k], g.ddrNext, g.host) {}
      GetBuf(g, found.value);
      BufferBytesInv(g, found.value, g');
    }
  }

  // ---- replacing one page table ----

  /** Giving slot i a new table, with its bytes in host memory, keeps the slots in order. */
  lemma CtxTableUpdate(ctx: seq<Context>, i: nat, x: Context, ddrNext: nat, ddrNext': nat, host: map<nat, seq<byte>>)
    requires CtxsOk(ctx, ddrNext, host) && ddrNext <= ddrNext' && i < |ctx| && ctx[i].Ready? && x.Ready?
    requires x.dma == ctx[i].dma && x.phys == ctx[i].phys && BASE + TABLE_SIZE + x.vpageNext * 4096 <= ddrNext'
    ensures CtxsOk(ctx[i := x], ddrNext', host[x.dma := Encode(x.table)])
  {
    var ctx', host' := ctx[i := x], host[x.dma := Encode(x.table)];
    forall k | 0 <= k < |ctx'| ensures CtxOk(ctx'[k], ddrNext', host') {
      assert CtxOk(ctx[k], ddrNext, host);
      if k != i {
        assert TablesApart(ctx[k], ctx[i]);
      }
    }
    forall k, j | 0 <= k < |ctx'| && 0 <= j < |ctx'| && k != j ensures TablesApart(ctx'[k], ctx'[j]) {
      assert TablesApart(ctx[k], ctx[j]);
    }
  }

  lemma SeparateUpdate(buffers: seq<Buffer>, ctx: seq<Context>, i: nat, x: Context)
    requires Separate(buffers, ctx) && i < |ctx| && ctx[i].Ready? && x.Ready?
    requires x.dma == ctx[i].dma && x.phys == ctx[i].phys
    ensures Separate(buffers, ctx[i := x])
  {
    var ctx' := ctx[i := x];
    forall k, j | 0 <= k < |buffers| && 0 <= j < |ctx'| ensures OffTable(buffers[k], ctx'[j]) {
      assert OffTable(buffers[k], ctx[j]);
    }
  }

  // ---- FREE ----

  /** Clearing valid entries of the host table leaves the device at worst stale. */
  lemma ClearedTableOk(i: nat, x: Context, start: nat, k: nat, buffers: seq<Buffer>, mem: seq<byte>)
    requires x.Ready? && |mem| == DDR_SIZE && BASE <= x.phys && x.phys + TABLE_SIZE <= BASE + DDR_SIZE
    requires TableOk(i, x, buffers, mem)
    requires forall v :: start <= v < start + k ==> v < ENTRIES && IsValid(x.table[v])
    ensures TableOk(i, x.(table := Cleared(x.table, start, k)), buffers, mem)
  {
    assert !IsValid(0);
  }

  lemma FreeInv(g: Gpu, va: nat, size: nat)
    requires Inv(g) && (1 <= VaCtx(va) <= |g.ctx| ==> !g.ctx[VaCtx(va) - 1].Broken?)
    ensures Inv(Free(g, va, size).0)
  {
    var c := VaCtx(va);
    if 1 <= c <= MAX_CONTEXTS && g.ctx[c - 1].Ready? {
      var x := g.ctx[c - 1];
      var k := ClearCount(x.table, VaPage(va), FreePages(size));
      ClearTableInv(g, c - 1, VaPage(va), k);
    }
  }

  lemma ClearTableInv(g: Gpu, i: nat, start: nat, k: nat)
    requires Inv(g) && i < |g.ctx| && g.ctx[i].Ready? && (k > 0 ==> start + k <= ENTRIES)
    requires forall v :: start <= v < start + k ==> IsValid(g.ctx[i].table[v])
    ensures var x := g.ctx[i].(table := Cleared(g.ctx[i].table, start, k));
            Inv(g.(ctx := g.ctx[i := x], host := g.host[x.dma := Encode(x.table)]))
  {
    var x := g.ctx[i].(table := Cleared(g.ctx[i].table, start, k));
    var ctx', host' := g.ctx[i := x], g.host[x.dma := Encode(x.table)];
    GetCtx(g, i);
    CtxTableUpdate(g.ctx, i, x, g.ddrNext, g.ddrNext, g.host);
    SeparateUpdate(g.buffers, g.ctx, i, x);
    BufsKept(g.buffers, g.nextHandle, g.ctx, g.ddrNext, g.host, ctx', g.ddrNext, host');
    forall j | 0 <= j < |ctx'| && ctx'[j].Ready?
      ensures CtxOk(ctx'[j], g.ddrNext, host') && TableOk(j, ctx'[j], g.buffers, g.mem)
    {
      assert CtxOk(ctx'[j], g.ddrNext, host');
      GetCtx(g, j);
      if j == i {
        ClearedTableOk(i, g.ctx[i], start, k, g.buffers, g.mem);
      }
    }
  }

  // ---- REQ_BUF ----

  /** The new entry covers exactly the newly mapped pages. */
  lemma MappedTableOk(t: Table, buffers: seq<Buffer>, b: Buffer)
    requires CpuTableOk(t, buffers, b.ctx) && b.vpage + Pages(b.size) <= ENTRIES
    requires b.pa % 4096 == 0 && BASE <= b.pa
    ensures CpuTableOk(Mapped(t, b.vpage, b.pa, Pages(b.size)), [b] + buffers, b.ctx)
  {
    MappedMeans(t, b.vpage, b.pa, Pages(b.size));
    assert ([b] + buffers)[1..] == buffers;
  }

  /** A buffer of another context does not change a context's owners. */
  lemma OtherOwners(i: nat, x: Context, buffers: seq<Buffer>, b: Buffer, mem: seq<byte>, mem': seq<byte>)
    requires x.Ready? && |mem| == |mem'| == DDR_SIZE && BASE <= x.phys && x.phys + TABLE_SIZE <= BASE + DDR_SIZE
    requires TableOk(i, x, buffers, mem) && b.ctx != i + 1 && DevTable(mem', x.phys) == DevTable(mem, x.phys)
    ensures TableOk(i, x, [b] + buffers, mem')
  {
    assert ([b] + buffers)[1..] == buffers;
  }

  /** After the table has been copied the device agrees with the driver on every entry. */
  lemma CopiedTableOk(t: Table, buffers: seq<Buffer>, c: nat, dev: seq<byte>)
    requires CpuTableOk(t, buffers, c) && dev == Encode(t)
    requires forall v :: 0 <= v < ENTRIES ==> Owner(buffers, c, v) < TWO64 - 1
    ensures DevTableOk(dev, t, buffers, c)
    ensures forall v :: 0 <= v < ENTRIES ==> DevEntry(dev, v) == t[v]
  {
    forall v | 0 <= v < ENTRIES ensures DevEntry(dev, v) == t[v] {
      assert t[v] == 0 || t[v] == Owner(buffers, c, v) + 1;
      EncodeAt(t, v);
    }
  }

  lemma OwnerBound(buffers: seq<Buffer>, nextHandle: nat, ctx: seq<Context>, ddrNext: nat, host: map<nat, seq<byte>>, c: nat, v: nat)
    requires BufsOk(buffers, nextHandle, ctx, ddrNext, host) && ddrNext <= BASE + DDR_SIZE
    ensures Owner(buffers, c, v) < TWO64 - 1
  {
    if Owner(buffers, c, v) != 0 {
      var i := OwnerBuffer(buffers, c, v);
      assert BufOk(buffers[i], ctx, ddrNext, host);
    }
  }

  /** A buffer at the end of the used DDR, with fresh host memory and the next pages of its context, is distinct
      from all others. */
  lemma NewBuffer(g: Gpu, b: Buffer, ctx': seq<Context>, ddrNext': nat, host': map<nat, seq<byte>>)
    requires Inv(g) && BufsOk(g.buffers, g.nextHandle, ctx', ddrNext', host')
    requires BufOk(b, ctx', ddrNext', host') && b.handle == g.nextHandle && b.pa == g.ddrNext && b.dma !in g.host
    requires 1 <= b.ctx <= |g.ctx| && g.ctx[b.ctx - 1].Ready? && b.vpage == g.ctx[b.ctx - 1].vpageNext
    ensures BufsOk([b] + g.buffers, g.nextHandle + 1, ctx', ddrNext', host')
  {
    var bs := [b] + g.buffers;
    forall i | 0 <= i < |bs| ensures BufOk(bs[i], ctx', ddrNext', host') && bs[i].handle < g.nextHandle + 1 {
      if i > 0 {
        assert BufOk(g.buffers[i - 1], ctx', ddrNext', host');
      }
    }
    forall i | 0 <= i < |g.buffers| ensures Distinct(b, g.buffers[i]) && Distinct(g.buffers[i], b) {
      assert BufOk(g.buffers[i], g.ctx, g.ddrNext, g.host);
    }
    forall i, j | 0 <= i < |bs| && 0 <= j < |bs| && i != j ensures Distinct(bs[i], bs[j]) {
      if i > 0 && j > 0 {
        GetDistinct(g.buffers, i - 1, j - 1);
        assert bs[i] == g.buffers[i - 1] && bs[j] == g.buffers[j - 1];
      }
    }
  }

  lemma GetDistinct(buffers: seq<Buffer>, i: nat, j: nat)
    requires AllDistinct(buffers) && i < |buffers| && j < |buffers| && i != j
    ensures Distinct(buffers[i], buffers[j])
  {
  }

  lemma NewSeparate(g: Gpu, b: Buffer, ctx': seq<Context>)
    requires Inv(g) && Separate(g.buffers, ctx') && b.pa == g.ddrNext && b.dma !in g.host
    requires |ctx'| == |g.ctx| && forall k :: 0 <= k < |ctx'| && ctx'[k].Ready? ==> g.ctx[k].Ready? && ctx'[k].phys == g.ctx[k].phys && ctx'[k].dma == g.ctx[k].dma
    ensures Separate([b] + g.buffers, ctx')
  {
    var bs := [b] + g.buffers;
    forall i, k | 0 <= i < |bs| && 0 <= k < |ctx'| ensures OffTable(bs[i], ctx'[k]) {
      if i > 0 {
        assert OffTable(g.buffers[i - 1], ctx'[k]);
      } else {
        assert CtxOk(g.ctx[k], g.ddrNext, g.host);
      }
    }
  }

  /** g' is the state after a successful REQ_BUF. */
  ghost predicate Requested(g: Gpu, c: nat, size: nat, dma: nat, g': Gpu)
    requires Usable(g, c) && |g.mem| == DDR_SIZE
  {
    var x := g.ctx[c - 1];
    && x.vpageNext + Pages(size) <= ENTRIES && InDdr(x.phys, TABLE_SIZE)
    && var table := Mapped(x.table, x.vpageNext, g.ddrNext, Pages(size));
    && g'.ctx == g.ctx[c - 1 := x.(vpageNext := x.vpageNext + Pages(size), table := table)]
    && g'.host == g.host[x.dma := Encode(table)][dma := Zeros(size)]
    && g'.mem == Copy(g.mem, x.phys - BASE, Encode(table))
    && g'.ddrNext == g.ddrNext + Align(size) <= BASE + DDR_SIZE && g'.nextHandle == g.nextHandle + 1
    && g'.buffers == [Buffer(g.nextHandle, size, dma, c, x.vpageNext, g.ddrNext)] + g.buffers
  }

  lemma ReqBufMeans(g: Gpu, c: nat, size: nat, dma: nat)
    requires Inv(g) && Usable(g, c) && DdrAlloc(g.ddrNext, size).Some? && dma !in g.host
    ensures Requested(g, c, size, dma, ReqBuf(g, c, size, dma).0)
  {
    VpageInTable(g, c, size);
    assert CtxOk(g.ctx[c - 1], g.ddrNext, g.host);
    var x := g.ctx[c - 1];
    var table := Mapped(x.table, x.vpageNext, g.ddrNext, Pages(size));
    assert Encode(table)[..TABLE_SIZE] == Encode(table);
  }

  /** Both copies of the table after REQ_BUF: equal for the context that allocated, untouched for the others. */
  lemma ReqTables(g: Gpu, c: nat, b: Buffer, table: Table, mem': seq<byte>, k: nat)
    requires Inv(g) && Usable(g, c) && k < |g.ctx| && g.ctx[k].Ready?
    requires InDdr(g.ctx[c - 1].phys, TABLE_SIZE) && mem' == Copy(g.mem, g.ctx[c - 1].phys - BASE, Encode(table))
    requires b.ctx == c && CpuTableOk(table, [b] + g.buffers, c)
    requires forall v :: 0 <= v < ENTRIES ==> Owner([b] + g.buffers, c, v) < TWO64 - 1
    ensures CtxOk(g.ctx[k], g.ddrNext, g.host)
    ensures k == c - 1 ==> DevTable(mem', g.ctx[k].phys) == Encode(table)
    ensures k == c - 1 ==> TableOk(k, g.ctx[k].(table := table), [b] + g.buffers, mem')
    ensures k != c - 1 ==> TableOk(k, g.ctx[k], [b] + g.buffers, mem')
  {
    GetCtx(g, k);
    GetCtx(g, c - 1);
    if k == c - 1 {
      OwnTable(g.ctx[k], c, [b] + g.buffers, table, g.mem, mem');
    } else {
      OtherTable(g, c, b, table, mem', k);
    }
  }

  lemma OwnTable(x: Context, c: nat, buffers: seq<Buffer>, table: Table, mem: seq<byte>, mem': seq<byte>)
    requires c > 0 && x.Ready? && InDdr(x.phys, TABLE_SIZE) && |mem| == DDR_SIZE
    requires mem' == Copy(mem, x.phys - BASE, Encode(table)) && CpuTableOk(table, buffers, c)
    requires forall v :: 0 <= v < ENTRIES ==> Owner(buffers, c, v) < TWO64 - 1
    ensures DevTable(mem', x.phys) == Encode(table)
    ensures TableOk(c - 1, x.(table := table), buffers, mem')
  {
    CopyInside(mem, x.phys - BASE, Encode(table));
    CopiedTableOk(table, buffers, c, DevTable(mem', x.phys));
  }

  lemma OtherTable(g: Gpu, c: nat, b: Buffer, table: Table, mem': seq<byte>, k: nat)
    requires Inv(g) && Usable(g, c) && k < |g.ctx| && g.ctx[k].Ready? && k != c - 1
    requires InDdr(g.ctx[c - 1].phys, TABLE_SIZE) && mem' == Copy(g.mem, g.ctx[c - 1].phys - BASE, Encode(table))
    requires b.ctx == c && CtxOk(g.ctx[k], g.ddrNext, g.host)
    ensures TableOk(k, g.ctx[k], [b] + g.buffers, mem')
  {
    var at := g.ctx[c - 1].phys - BASE;
    assert TablesApart(g.ctx[k], g.ctx[c - 1]);
    CopyOutside(g.mem, at, Encode(table), g.ctx[k].phys - BASE, g.ctx[k].phys - BASE + TABLE_SIZE);
    OtherOwners(k, g.ctx[k], g.buffers, b, g.mem, mem');
  }

  lemma ReqRegions(g: Gpu, c: nat, size: nat, dma: nat, g': Gpu)
    requires Inv(g) && Usable(g, c) && Requested(g, c, size, dma, g')
    requires dma !in g.host && dma < TWO64 && size < TWO32
    ensures CtxsOk(g'.ctx, g'.ddrNext, g'.host) && BufsOk(g'.buffers, g'.nextHandle, g'.ctx, g'.ddrNext, g'.host)
    ensures Separate(g'.buffers, g'.ctx)
  {
    var x, b, x' := g.ctx[c - 1], g'.buffers[0], g'.ctx[c - 1];
    assert CtxOk(x, g.ddrNext, g.host);
    CtxTableUpdate(g.ctx, c - 1, x', g.ddrNext, g'.ddrNext, g.host);
    CtxsKept(g'.ctx, g'.ddrNext, g.host[x.dma := Encode(x'.table)], g'.ddrNext, g'.host);
    BufsKept(g.buffers, g.nextHandle, g.ctx, g.ddrNext, g.host, g'.ctx, g'.ddrNext, g'.host);
    NewBuffer(g, b, g'.ctx, g'.ddrNext, g'.host);
    SeparateUpdate(g.buffers, g.ctx, c - 1, x');
    NewSeparate(g, b, g'.ctx);
  }

  lemma ReqTablesOk(g: Gpu, c: nat, size: nat, dma: nat, g': Gpu)
    requires Inv(g) && Usable(g, c) && Requested(g, c, size, dma, g') && |g'.mem| == DDR_SIZE
    requires CtxsOk(g'.ctx, g'.ddrNext, g'.host) && BufsOk(g'.buffers, g'.nextHandle, g'.ctx, g'.ddrNext, g'.host)
    ensures TablesOk(g'.ctx, g'.ddrNext, g'.host, g'.buffers, g'.mem)
    ensures BASE <= g'.ctx[c - 1].phys && DevTable(g'.mem, g'.ctx[c - 1].phys) == Encode(g'.ctx[c - 1].table)
  {
    var b, table := g'.buffers[0], g'.ctx[c - 1].table;
    GetCtx(g, c - 1);
    MappedTableOk(g.ctx[c - 1].table, g.buffers, b);
    forall v | 0 <= v < ENTRIES ensures Owner(g'.buffers, c, v) < TWO64 - 1 {
      OwnerBound(g'.buffers, g'.nextHandle, g'.ctx, g'.ddrNext, g'.host, c, v);
    }
    ReqTables(g, c, b, table, g'.mem, c - 1);
    forall k | 0 <= k < |g'.ctx| && g'.ctx[k].Ready?
      ensures CtxOk(g'.ctx[k], g'.ddrNext, g'.host) && TableOk(k, g'.ctx[k], g'.buffers, g'.mem)
    {
      assert CtxOk(g'.ctx[k], g'.ddrNext, g'.host);
      ReqTables(g, c, b, table, g'.mem, k);
    }
  }

  /** REQ_BUF keeps the invariant, and leaves the device's copy of the context's table equal to the driver's. */
  lemma ReqBufInv(g: Gpu, c: nat, size: nat, dma: nat)
    requires Inv(g) && Usable(g, c) && DdrAlloc(g.ddrNext, size).Some?
    requires dma !in g.host && dma < TWO64 && size < TWO32
    ensures Inv(ReqBuf(g, c, size, dma).0)
    ensures var g' := ReqBuf(g, c, size, dma).0; Usable(g', c) && InDdr(g'.ctx[c - 1].phys, TABLE_SIZE)
    ensures var g' := ReqBuf(g, c, size, dma).0; DevTable(g'.mem, g'.ctx[c - 1].phys) == Encode(g'.ctx[c - 1].table)
  {
    var g' := ReqBuf(g, c, size, dma).0;
    ReqBufMeans(g, c, size, dma);
    AlignCovers(size);
    ReqRegions(g, c, size, dma, g');
    ReqTablesOk(g, c, size, dma, g');
  }
}
