/** What every reachable state of driver and device satisfies. */
module GpuInvariant {
  import opened Common
  import opened GpuMemory
  import opened GpuPageTable
  import opened GpuSystem

  /** Two ranges that do not overlap. */
  predicate Apart(a: nat, n: nat, b: nat, m: nat) {
    a + n <= b || b + m <= a
  }

  // ---- regions ----

  ghost predicate CtxOk(c: Context, ddrNext: nat, host: map<nat, seq<byte>>) {
    c.Ready? ==>
      && c.phys % 4096 == 0 && BASE <= c.phys && c.phys + TABLE_SIZE <= ddrNext
      && c.dma in host && c.dma < TWO64 && host[c.dma] == Encode(c.table)
      && BASE + TABLE_SIZE + c.vpageNext * 4096 <= ddrNext
  }

  predicate TablesApart(x: Context, y: Context) {
    x.Ready? && y.Ready? ==> Apart(x.phys, TABLE_SIZE, y.phys, TABLE_SIZE) && x.dma != y.dma
  }

  ghost predicate CtxsOk(ctx: seq<Context>, ddrNext: nat, host: map<nat, seq<byte>>) {
    && |ctx| == MAX_CONTEXTS
    && (forall i {:trigger CtxOk(ctx[i], ddrNext, host)} :: 0 <= i < |ctx| ==> CtxOk(ctx[i], ddrNext, host))
    && (forall i, j {:trigger TablesApart(ctx[i], ctx[j])} :: 0 <= i < |ctx| && 0 <= j < |ctx| && i != j ==> TablesApart(ctx[i], ctx[j]))
  }

  ghost predicate BufOk(b: Buffer, ctx: seq<Context>, ddrNext: nat, host: map<nat, seq<byte>>) {
    && 1 <= b.ctx <= |ctx| && ctx[b.ctx - 1].Ready?
    && b.vpage + Pages(b.size) <= ctx[b.ctx - 1].vpageNext
    && b.pa % 4096 == 0 && BASE <= b.pa && b.pa + Align(b.size) <= ddrNext
    && b.dma in host && b.dma < TWO64 && |host[b.dma]| == b.size < TWO32
  }

  /** Different buffers have different handles, host memory and DDR, and, in one context, different pages. */
  predicate Distinct(a: Buffer, b: Buffer) {
    && a.handle != b.handle && a.dma != b.dma
    && Apart(a.pa, Align(a.size), b.pa, Align(b.size))
    && (a.ctx == b.ctx ==> Apart(a.vpage, Pages(a.size), b.vpage, Pages(b.size)))
  }

  ghost predicate BufsOk(buffers: seq<Buffer>, nextHandle: nat, ctx: seq<Context>, ddrNext: nat, host: map<nat, seq<byte>>) {
    && (forall i {:trigger BufOk(buffers[i], ctx, ddrNext, host)} :: 0 <= i < |buffers| ==>
          BufOk(buffers[i], ctx, ddrNext, host) && buffers[i].handle < nextHandle)
    && AllDistinct(buffers)
  }

  ghost predicate AllDistinct(buffers: seq<Buffer>) {
    forall i, j {:trigger Distinct(buffers[i], buffers[j])} :: 0 <= i < |buffers| && 0 <= j < |buffers| && i != j ==>
      Distinct(buffers[i], buffers[j])
  }

  predicate OffTable(b: Buffer, x: Context) {
    x.Ready? ==> Apart(b.pa, Align(b.size), x.phys, TABLE_SIZE) && b.dma != x.dma
  }

  /** No buffer overlaps a page table. */
  ghost predicate Separate(buffers: seq<Buffer>, ctx: seq<Context>) {
    forall i, k {:trigger OffTable(buffers[i], ctx[k])} :: 0 <= i < |buffers| && 0 <= k < |ctx| ==>
      OffTable(buffers[i], ctx[k])
  }

  // ---- page tables ----

  predicate Covers(b: Buffer, c: nat, v: nat) {
    b.ctx == c && b.vpage <= v < b.vpage + Pages(b.size)
  }

  /** The physical page once assigned to virtual page v of context c, or 0 if none ever was. */
  function Owner(buffers: seq<Buffer>, c: nat, v: nat): nat {
    if buffers == [] then 0
    else if Covers(buffers[0], c, v) then buffers[0].pa + (v - buffers[0].vpage) * 4096
    else Owner(buffers[1..], c, v)
  }

  /** Whether the context has allocated anything, so that its table was copied to the device. */
  predicate Synced(buffers: seq<Buffer>, c: nat) {
    buffers != [] && (buffers[0].ctx == c || Synced(buffers[1..], c))
  }

  /** The bytes of the device's own copy of a table. */
  function DevTable(mem: seq<byte>, phys: nat): (t: seq<byte>)
    requires |mem| == DDR_SIZE && BASE <= phys && phys + TABLE_SIZE <= BASE + DDR_SIZE
    ensures |t| == TABLE_SIZE
  {
    mem[phys - BASE..phys - BASE + TABLE_SIZE]
  }

  function DevEntry(dev: seq<byte>, v: nat): nat
    requires |dev| == TABLE_SIZE && v < ENTRIES
  {
    Load(dev, 8 * v, 8)
  }

  /** Each entry is clear or names the page assigned to it. */
  ghost predicate CpuTableOk(t: Table, buffers: seq<Buffer>, c: nat) {
    forall v :: 0 <= v < ENTRIES ==>
      t[v] == 0 || (Owner(buffers, c, v) != 0 && t[v] == Owner(buffers, c, v) + 1)
  }

  /** The device agrees with the driver, except that it may still hold the assigned page of a freed entry. */
  ghost predicate DevTableOk(dev: seq<byte>, t: Table, buffers: seq<Buffer>, c: nat)
    requires |dev| == TABLE_SIZE
  {
    forall v :: 0 <= v < ENTRIES ==>
      || DevEntry(dev, v) == t[v]
      || (t[v] == 0 && Owner(buffers, c, v) != 0 && DevEntry(dev, v) == Owner(buffers, c, v) + 1)
  }

  /** Both copies of the table in slot i, which belongs to context i + 1. */
  ghost predicate TableOk(i: nat, x: Context, buffers: seq<Buffer>, mem: seq<byte>)
    requires x.Ready? && |mem| == DDR_SIZE && BASE <= x.phys && x.phys + TABLE_SIZE <= BASE + DDR_SIZE
  {
    && CpuTableOk(x.table, buffers, i + 1)
    && (Synced(buffers, i + 1) ==> DevTableOk(DevTable(mem, x.phys), x.table, buffers, i + 1))
  }

  ghost predicate TablesOk(ctx: seq<Context>, ddrNext: nat, host: map<nat, seq<byte>>, buffers: seq<Buffer>, mem: seq<byte>)
    requires |mem| == DDR_SIZE && ddrNext <= BASE + DDR_SIZE && CtxsOk(ctx, ddrNext, host)
  {
    forall i {:trigger TableOk(i, ctx[i], buffers, mem)} :: 0 <= i < |ctx| && ctx[i].Ready? ==>
      CtxOk(ctx[i], ddrNext, host) && TableOk(i, ctx[i], buffers, mem)
  }

  ghost predicate Inv(g: Gpu) {
    && |g.mem| == DDR_SIZE
    && BASE <= g.ddrNext <= BASE + DDR_SIZE && g.ddrNext % 4096 == 0
    && CtxsOk(g.ctx, g.ddrNext, g.host)
    && BufsOk(g.buffers, g.nextHandle, g.ctx, g.ddrNext, g.host)
    && Separate(g.buffers, g.ctx)
    && TablesOk(g.ctx, g.ddrNext, g.host, g.buffers, g.mem)
  }

  lemma GetCtx(g: Gpu, i: nat)
    requires Inv(g) && i < |g.ctx| && g.ctx[i].Ready?
    ensures CtxOk(g.ctx[i], g.ddrNext, g.host) && TableOk(i, g.ctx[i], g.buffers, g.mem)
  {
    assert CtxOk(g.ctx[i], g.ddrNext, g.host);
    assert TableOk(i, g.ctx[i], g.buffers, g.mem);
  }

  lemma GetBuf(g: Gpu, i: nat)
    requires Inv(g) && i < |g.buffers|
    ensures BufOk(g.buffers[i], g.ctx, g.ddrNext, g.host)
  {
    assert BufOk(g.buffers[i], g.ctx, g.ddrNext, g.host);
  }

  // ---- growing and rewriting keep what they do not touch ----

  /** Every host allocation is still there, with its size. */
  ghost predicate HostKept(host: map<nat, seq<byte>>, host': map<nat, seq<byte>>) {
    forall a :: a in host ==> a in host' && |host'[a]| == |host[a]|
  }

  /** The page tables' allocations are unchanged. */
  ghost predicate TableBytesKept(ctx: seq<Context>, host: map<nat, seq<byte>>, host': map<nat, seq<byte>>) {
    forall i :: 0 <= i < |ctx| && ctx[i].Ready? && ctx[i].dma in host ==>
      ctx[i].dma in host' && host'[ctx[i].dma] == host[ctx[i].dma]
  }

  lemma CtxsKept(ctx: seq<Context>, ddrNext: nat, host: map<nat, seq<byte>>, ddrNext': nat, host': map<nat, seq<byte>>)
    requires CtxsOk(ctx, ddrNext, host) && ddrNext <= ddrNext' && TableBytesKept(ctx, host, host')
    ensures CtxsOk(ctx, ddrNext', host')
  {
    forall i | 0 <= i < |ctx| ensures CtxOk(ctx[i], ddrNext', host') {
      assert CtxOk(ctx[i], ddrNext, host);
    }
  }

  lemma BufsKept(buffers: seq<Buffer>, nextHandle: nat, ctx: seq<Context>, ddrNext: nat, host: map<nat, seq<byte>>,
                 ctx': seq<Context>, ddrNext': nat, host': map<nat, seq<byte>>)
    requires BufsOk(buffers, nextHandle, ctx, ddrNext, host) && ddrNext <= ddrNext' && HostKept(host, host')
    requires |ctx'| == |ctx| && forall i :: 0 <= i < |ctx| && ctx[i].Ready? ==> ctx'[i].Ready? && ctx[i].vpageNext <= ctx'[i].vpageNext
    ensures BufsOk(buffers, nextHandle, ctx', ddrNext', host')
  {
    forall i | 0 <= i < |buffers| ensures BufOk(buffers[i], ctx', ddrNext', host') && buffers[i].handle < nextHandle {
      assert BufOk(buffers[i], ctx, ddrNext, host);
    }
  }

  // ---- owners ----

  /** The owner comes from a buffer of the list. */
  lemma {:induction false} OwnerBuffer(buffers: seq<Buffer>, c: nat, v: nat) returns (i: nat)
    requires Owner(buffers, c, v) != 0
    ensures i < |buffers| && Covers(buffers[i], c, v)
    ensures Owner(buffers, c, v) == buffers[i].pa + (v - buffers[i].vpage) * 4096
  {
    if Covers(buffers[0], c, v) {
      i := 0;
    } else {
      var j := OwnerBuffer(buffers[1..], c, v);
      i := j + 1;
    }
  }

  /** Buffers of one context do not share virtual pages, so each is the owner of its own pages. */
  lemma {:induction false} OwnerOfBuffer(buffers: seq<Buffer>, i: nat, v: nat)
    requires i < |buffers| && buffers[i].vpage <= v < buffers[i].vpage + Pages(buffers[i].size)
    requires AllDistinct(buffers)
    ensures Owner(buffers, buffers[i].ctx, v) == buffers[i].pa + (v - buffers[i].vpage) * 4096
  {
    if i > 0 {
      assert Distinct(buffers[0], buffers[i]);
      TailDistinct(buffers);
      OwnerOfBuffer(buffers[1..], i - 1, v);
    }
  }

  lemma TailDistinct(buffers: seq<Buffer>)
    requires buffers != [] && AllDistinct(buffers)
    ensures AllDistinct(buffers[1..])
  {
    var tail := buffers[1..];
    forall i, j | 0 <= i < |tail| && 0 <= j < |tail| && i != j ensures Distinct(tail[i], tail[j]) {
      assert Distinct(buffers[i + 1], buffers[j + 1]);
    }
  }

  lemma {:induction false} SyncedIff(buffers: seq<Buffer>, c: nat)
    ensures Synced(buffers, c) <==> exists i :: 0 <= i < |buffers| && buffers[i].ctx == c
  {
    if buffers != [] {
      SyncedIff(buffers[1..], c);
      if Synced(buffers[1..], c) {
        var i :| 0 <= i < |buffers[1..]| && buffers[1..][i].ctx == c;
        assert buffers[i + 1].ctx == c;
      }
      if i :| 0 <= i < |buffers| && buffers[i].ctx == c {
        assert i > 0 ==> buffers[1..][i - 1].ctx == c;
      }
    }
  }
}
