/** The flat page table of a GPU context: the driver's array of 64-bit entries, and the bytes of it that
DMA copies and the device reads. */
module GpuPageTable {
  import opened Common
  import opened GpuMemory

  type Table = t: seq<nat> | |t| == ENTRIES witness seq(ENTRIES, _ => 0)

  function EmptyTable(): Table {
    seq(ENTRIES, _ => 0)
  }

  // ---- bytes ----

  function Encode(t: seq<nat>): (r: seq<byte>)
    ensures |r| == 8 * |t|
  {
    if t == [] then [] else Bytes(t[0], 8) + Encode(t[1..])
  }

  lemma {:induction false} EncodeSlice(t: seq<nat>, v: nat)
    requires v < |t|
    ensures Encode(t)[8 * v..8 * v + 8] == Bytes(t[v], 8)
  {
    var first, rest := Bytes(t[0], 8), Encode(t[1..]);
    if v > 0 {
      EncodeSlice(t[1..], v - 1);
      assert (first + rest)[8 * v..8 * v + 8] == rest[8 * (v - 1)..8 * (v - 1) + 8];
    }
  }

  /** The device's memcpy of eight bytes recovers the entry the driver wrote. */
  lemma EncodeAt(t: seq<nat>, v: nat)
    requires v < |t| && t[v] < TWO64
    ensures Load(Encode(t), 8 * v, 8) == t[v]
  {
    EncodeSlice(t, v);
    Pow256Words();
    ValueBytes(t[v], 8);
  }

  // ---- mapping: the loop of gpu_alloc ----

  /** Virtual pages base, base + 1, ... point at consecutive physical pages from pa. */
  function Mapped(t: Table, base: nat, pa: nat, n: nat): Table
    requires base + n <= ENTRIES
  {
    if n == 0 then t
    else Mapped(t, base, pa, n - 1)[base + n - 1 := Entry(pa + (n - 1) * 4096)]
  }

  lemma EntryOfPage(pa: nat, k: nat)
    requires pa % 4096 == 0
    ensures Entry(pa + k * 4096) == pa + k * 4096 + 1
  {
  }

  lemma {:induction false} MappedMeans(t: Table, base: nat, pa: nat, n: nat)
    requires base + n <= ENTRIES && pa % 4096 == 0
    ensures forall v :: 0 <= v < ENTRIES ==>
              Mapped(t, base, pa, n)[v] == if base <= v < base + n then pa + (v - base) * 4096 + 1 else t[v]
  {
    if n > 0 {
      MappedMeans(t, base, pa, n - 1);
      EntryOfPage(pa, n - 1);
    }
  }

  method MapPages(t: Table, base: nat, pa: nat, pages: nat) returns (r: Table)
    requires base + pages <= ENTRIES
    ensures r == Mapped(t, base, pa, pages)
  {
    r := t;
    for i := 0 to pages
      invariant r == Mapped(t, base, pa, i)
    {
      var vpage := base + i;
      r := r[vpage := Entry(pa + i * 4096)];
    }
  }

  // ---- clearing: the loop of gpu_free ----

  /** How many entries the loop clears: it stops at the first page that is out of range or not valid. */
  function ClearCount(t: Table, start: nat, pages: nat): (k: nat)
    ensures k <= pages
    ensures k > 0 ==> start + k <= ENTRIES
    ensures forall v :: start <= v < start + k ==> IsValid(t[v])
    ensures k < pages ==> start + k >= ENTRIES || !IsValid(t[start + k])
    decreases pages
  {
    if pages == 0 || start >= ENTRIES || !IsValid(t[start]) then 0
    else 1 + ClearCount(t, start + 1, pages - 1)
  }

  function Cleared(t: Table, start: nat, k: nat): Table {
    seq(ENTRIES, v requires 0 <= v < ENTRIES => if start <= v < start + k then 0 else t[v])
  }

  /** Freeing clears the longest valid run it was asked for, and reports whether that was all of it. */
  method ClearPages(t: Table, start: nat, pages: nat) returns (r: Table, ok: bool)
    ensures ok <==> ClearCount(t, start, pages) == pages
    ensures r == Cleared(t, start, ClearCount(t, start, pages))
  {
    ghost var k := ClearCount(t, start, pages);
    r := t;
    var i := 0;
    while i < pages
      invariant i <= k
      invariant r == Cleared(t, start, i)
    {
      var vpage := start + i;
      if vpage >= ENTRIES {
        return r, false;
      }
      if !IsValid(r[vpage]) {
        return r, false;
      }
      r := r[vpage := 0];
      i := i + 1;
    }
    return r, true;
  }
}
