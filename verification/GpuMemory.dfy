/** Bytes, little-endian words and the address formats shared by the GPU driver and the device model. */
module GpuMemory {
  import opened Common

  const BASE: nat := 0x8000_0000          // GPU_DDR_BASE_PHYS, ddr_base
  const DDR_SIZE: nat := 0x800_0000       // 128 MB
  const ENTRIES: nat := 0x8000            // page-table entries: DDR_SIZE / 4096
  const TABLE_SIZE: nat := 0x4_0000       // 8 bytes per entry
  const MAX_CONTEXTS: nat := 16
  const TWO32: nat := 0x1_0000_0000
  const TWO36: nat := 0x10_0000_0000
  const TWO64: nat := 0x1_0000_0000_0000_0000

  // ---- memory ----

  /** Overwrite mem from offset at with data. */
  function Copy(mem: seq<byte>, at: nat, data: seq<byte>): (r: seq<byte>)
    requires at + |data| <= |mem|
    ensures |r| == |mem|
  {
    mem[..at] + data + mem[at + |data|..]
  }

  lemma CopyInside(mem: seq<byte>, at: nat, data: seq<byte>)
    requires at + |data| <= |mem|
    ensures Copy(mem, at, data)[at..at + |data|] == data
  {
  }

  /** A copy leaves every range it does not overlap alone. */
  lemma CopyOutside(mem: seq<byte>, at: nat, data: seq<byte>, lo: nat, hi: nat)
    requires at + |data| <= |mem| && lo <= hi <= |mem| && (hi <= at || at + |data| <= lo)
    ensures Copy(mem, at, data)[lo..hi] == mem[lo..hi]
  {
  }

  lemma SliceOfSlice(s: seq<byte>, a: nat, b: nat, c: nat, d: nat)
    requires a <= b <= |s| && c <= d <= b - a
    ensures s[a..b][c..d] == s[a + c..a + d]
  {
    var t := s[a..b];
    assert forall i :: 0 <= i < d - c ==> t[c..d][i] == t[c + i] == s[a + c..a + d][i];
  }

  function Zeros(n: nat): (r: seq<byte>)
    ensures |r| == n
  {
    seq(n, _ => 0)
  }

  // ---- little-endian words ----

  function Value(s: seq<byte>): nat {
    if s == [] then 0 else s[0] + 256 * Value(s[1..])
  }

  /** Byte i of x, counting from the least significant. */
  function Digit(x: nat, i: nat): byte
    decreases i, x
  {
    if i == 0 then x % 256 else Digit(x / 256, i - 1)
  }

  /** The n low bytes of x, least significant first. */
  function Bytes(x: nat, n: nat): (r: seq<byte>)
    ensures |r| == n
  {
    seq(n, i requires 0 <= i < n => Digit(x, i))
  }

  function Pow256(n: nat): nat {
    if n == 0 then 1 else 256 * Pow256(n - 1)
  }

  /** Storing a word that fits and loading it again gives it back. */
  lemma {:induction false} ValueBytes(x: nat, n: nat)
    requires x < Pow256(n)
    ensures Value(Bytes(x, n)) == x
    decreases n
  {
    if n > 0 {
      ValueBytes(x / 256, n - 1);
      assert Digit(x, 0) == x % 256;
      assert Bytes(x, n)[1..] == Bytes(x / 256, n - 1);
    }
  }

  lemma {:induction false} ValueBound(s: seq<byte>)
    ensures Value(s) < Pow256(|s|)
  {
    if s != [] {
      ValueBound(s[1..]);
    }
  }

  lemma {:induction false} ValueZeros(s: seq<byte>)
    requires forall i :: 0 <= i < |s| ==> s[i] == 0
    ensures Value(s) == 0
  {
    if s != [] {
      ValueZeros(s[1..]);
    }
  }

  function Load(mem: seq<byte>, at: nat, n: nat): nat
    requires at + n <= |mem|
  {
    Value(mem[at..at + n])
  }

  function Store(mem: seq<byte>, at: nat, x: nat, n: nat): (r: seq<byte>)
    requires at + n <= |mem|
    ensures |r| == |mem|
  {
    Copy(mem, at, Bytes(x, n))
  }

  lemma LoadStored(mem: seq<byte>, at: nat, x: nat, n: nat)
    requires at + n <= |mem| && x < Pow256(n)
    ensures Load(Store(mem, at, x, n), at, n) == x
  {
    CopyInside(mem, at, Bytes(x, n));
    ValueBytes(x, n);
  }

  lemma LoadElsewhere(mem: seq<byte>, at: nat, x: nat, n: nat, other: nat, k: nat)
    requires at + n <= |mem| && other + k <= |mem| && (other + k <= at || at + n <= other)
    ensures Load(Store(mem, at, x, n), other, k) == Load(mem, other, k)
  {
    CopyOutside(mem, at, Bytes(x, n), other, other + k);
  }

  lemma Pow256Words()
    ensures Pow256(4) == TWO32 && Pow256(8) == TWO64
  {
    assert Pow256(2) == 0x1_0000;
    assert Pow256(3) == 0x100_0000;
    assert Pow256(5) == 0x100_0000_0000;
    assert Pow256(6) == 0x1_0000_0000_0000;
    assert Pow256(7) == 0x100_0000_0000_0000;
  }

  // ---- sizes ----

  /** The number of 4096-byte pages that hold size bytes. */
  function Pages(size: nat): nat {
    (size + 4095) / 4096
  }

  /** PAGE_ALIGN. */
  function Align(size: nat): nat {
    Pages(size) * 4096
  }

  lemma AlignCovers(size: nat)
    ensures size <= Align(size) < size + 4096 && Align(size) % 4096 == 0
  {
  }

  // ---- virtual addresses: context in bits 48-63, page in bits 12-47 ----

  function PackVa(ctx: nat, vpage: nat): nat {
    ctx * 0x1_0000_0000_0000 + vpage * 4096
  }

  function VaCtx(va: nat): nat {
    va / 0x1_0000_0000_0000 % 0x1_0000
  }

  function VaPage(va: nat): nat {
    va / 4096 % 0x10_0000_0000
  }

  /** The decoders of driver and device recover what was packed, for every address inside the page. */
  lemma PackRoundTrip(ctx: nat, vpage: nat, offset: nat)
    requires ctx < 0x1_0000 && vpage < TWO36 && offset < 4096
    ensures VaCtx(PackVa(ctx, vpage) + offset) == ctx
    ensures VaPage(PackVa(ctx, vpage) + offset) == vpage
    ensures (PackVa(ctx, vpage) + offset) % 4096 == offset
  {
    var va := PackVa(ctx, vpage) + offset;
    assert va / 4096 == ctx * 0x10_0000_0000 + vpage;
    assert va / 0x1_0000_0000_0000 == ctx;
  }

  // ---- page-table entries: physical page with the valid bit ----

  function Entry(pa: nat): nat {
    pa - pa % 4096 + 1
  }

  /** Bit 0, which is also bit 0 of the low twelve bits. */
  predicate IsValid(entry: nat) {
    entry % 4096 % 2 == 1
  }

  function PhysPage(entry: nat): nat {
    entry - entry % 4096
  }

  lemma EntryRoundTrip(pa: nat)
    requires pa % 4096 == 0
    ensures IsValid(Entry(pa)) && PhysPage(Entry(pa)) == pa
  {
  }

  // ---- register halves ----

  function Lo(x: nat): nat { x % 0x1_0000_0000 }

  function Hi(x: nat): nat { x / 0x1_0000_0000 % 0x1_0000_0000 }

  function Join(lo: nat, hi: nat): nat { lo + hi * 0x1_0000_0000 }

  lemma JoinHalves(x: nat)
    requires x < TWO64
    ensures Join(Lo(x), Hi(x)) == x
  {
  }
}
