/** The shifts, masks and ors of driver and device on 64-bit words compute the arithmetic used in the model. A word is
its bits, least significant first. */
module GpuBits {
  import opened GpuMemory

  type Word = w: seq<bool> | |w| == 64 witness seq(64, _ => false)

  function Clear(n: nat): seq<bool> { seq(n, _ => false) }

  function ShiftRight(w: Word, k: nat): Word
    requires k <= 64
  {
    w[k..] + Clear(k)
  }

  function ShiftLeft(w: Word, k: nat): Word
    requires k <= 64
  {
    Clear(k) + w[..64 - k]
  }

  function And(a: Word, b: Word): Word { seq(64, i requires 0 <= i < 64 => a[i] && b[i]) }

  function Or(a: Word, b: Word): Word { seq(64, i requires 0 <= i < 64 => a[i] || b[i]) }

  function Not(a: Word): Word { seq(64, i requires 0 <= i < 64 => !a[i]) }

  /** The k low bits, as in 0xFFF for 12. */
  function Mask(k: nat): Word
    requires k <= 64
  {
    seq(64, i => i < k)
  }

  function Number(s: seq<bool>): nat {
    if s == [] then 0 else (if s[0] then 1 else 0) + 2 * Number(s[1..])
  }

  function Pow2(n: nat): nat {
    if n == 0 then 1 else 2 * Pow2(n - 1)
  }

  lemma {:induction false} NumberBound(s: seq<bool>)
    ensures Number(s) < Pow2(|s|)
  {
    if s != [] {
      NumberBound(s[1..]);
    }
  }

  lemma {:induction false} NumberClear(n: nat)
    ensures Number(Clear(n)) == 0
  {
    if n > 0 {
      assert Clear(n)[1..] == Clear(n - 1);
      NumberClear(n - 1);
    }
  }

  lemma {:induction false} NumberConcat(a: seq<bool>, b: seq<bool>)
    ensures Number(a + b) == Number(a) + Pow2(|a|) * Number(b)
  {
    if a == [] {
      assert a + b == b;
    } else {
      assert (a + b)[1..] == a[1..] + b;
      assert (a + b)[0] == a[0];
      NumberConcat(a[1..], b);
      Regroup(Pow2(|a| - 1), Number(b));
    }
  }

  lemma Regroup(p: nat, x: nat)
    ensures 2 * (p * x) == (2 * p) * x
  {
  }

  lemma {:induction false} Pow2Plus(a: nat, b: nat)
    ensures Pow2(a + b) == Pow2(a) * Pow2(b)
    decreases a
  {
    if a > 0 {
      Pow2Plus(a - 1, b);
      Regroup(Pow2(a - 1), Pow2(b));
    }
  }

  lemma Pow2Values()
    ensures Pow2(12) == 0x1000 && Pow2(16) == 0x1_0000 && Pow2(36) == 0x10_0000_0000 && Pow2(48) == 0x1_0000_0000_0000
  {
    Pow2Plus(12, 12);
    Pow2Plus(24, 12);
    Pow2Plus(36, 12);
  }

  lemma MaskKeeps(w: Word, k: nat)
    requires k <= 64
    ensures And(w, Mask(k)) == w[..k] + Clear(64 - k) && Number(And(w, Mask(k))) == Number(w[..k])
  {
    assert And(w, Mask(k)) == w[..k] + Clear(64 - k);
    Padded(w[..k], 64 - k);
  }

  lemma Padded(s: seq<bool>, n: nat)
    ensures Number(s + Clear(n)) == Number(s)
  {
    NumberConcat(s, Clear(n));
    NumberClear(n);
    var p := Pow2(|s|);
    assert p * 0 == 0;
  }

  /** A word in three fields of 12, 36 and 16 bits. */
  lemma Fields(w: Word)
    ensures Number(w) == Number(w[..12]) + 0x1000 * (Number(w[12..48]) + 0x10_0000_0000 * Number(w[48..]))
    ensures Number(w[..12]) < 0x1000 && Number(w[12..48]) < 0x10_0000_0000 && Number(w[48..]) < 0x1_0000
  {
    Pow2Values();
    assert Number(w) == Number(w[..12]) + Pow2(12) * Number(w[12..]) by {
      assert w == w[..12] + w[12..];
      NumberConcat(w[..12], w[12..]);
    }
    assert Number(w[12..]) == Number(w[12..48]) + Pow2(36) * Number(w[48..]) by {
      assert w[12..] == w[12..48] + w[48..];
      NumberConcat(w[12..48], w[48..]);
    }
    NumberBound(w[..12]);
    NumberBound(w[12..48]);
    NumberBound(w[48..]);
  }

  lemma FieldValues(low: nat, page: nat, ctx: nat)
    requires low < 0x1000 && page < 0x10_0000_0000 && ctx < 0x1_0000
    ensures var va := low + 0x1000 * (page + 0x10_0000_0000 * ctx);
            VaPage(va) == page && VaCtx(va) == ctx && va % 4096 == low && va == PackVa(ctx, page) + low
  {
    PackRoundTrip(ctx, page, low);
  }

  /** gpu_va_to_ctx, gpu_va_to_vpage and the device's own decoding, on every 64-bit word. */
  lemma DecodeBits(va: Word)
    ensures Number(And(ShiftRight(va, 48), Mask(16))) == VaCtx(Number(va))
    ensures Number(And(ShiftRight(va, 12), Mask(36))) == VaPage(Number(va))
    ensures Number(And(va, Mask(12))) == Number(va) % 4096
  {
    Fields(va);
    FieldValues(Number(va[..12]), Number(va[12..48]), Number(va[48..]));
    MaskKeeps(ShiftRight(va, 48), 16);
    MaskKeeps(ShiftRight(va, 12), 36);
    MaskKeeps(va, 12);
    assert ShiftRight(va, 48)[..16] == va[48..] && ShiftRight(va, 12)[..36] == va[12..48];
  }

  /** The packing of gpu_alloc: shifting into place and or-ing is the sum, when the parts fit their fields. */
  lemma PackBits(ctx: Word, vpage: Word)
    requires Number(ctx[16..]) == 0 && Number(vpage[36..]) == 0
    ensures Number(Or(ShiftLeft(ctx, 48), ShiftLeft(vpage, 12))) == PackVa(Number(ctx), Number(vpage))
  {
    var va := Or(ShiftLeft(ctx, 48), ShiftLeft(vpage, 12));
    AllClear(vpage[36..]);
    Low(ctx, 16);
    Low(vpage, 36);
    assert va[..12] == Clear(12) && va[12..48] == vpage[..36] && va[48..] == ctx[..16];
    NumberClear(12);
    Fields(va);
    FieldValues(0, Number(vpage), Number(ctx));
  }

  lemma LowBit(n: nat, rest: nat, bit: nat)
    requires n == bit + 2 * rest && bit < 2
    ensures IsValid(n) <==> bit == 1
  {
  }

  /** The valid bit of a page-table entry. */
  lemma ValidBit(entry: Word)
    ensures Number(And(entry, Mask(1))) == 1 <==> IsValid(Number(entry))
  {
    MaskKeeps(entry, 1);
    assert entry[..1][1..] == [] && entry[..1][0] == entry[0];
    LowBit(Number(entry), Number(entry[1..]), if entry[0] then 1 else 0);
  }

  /** The page of a page-table entry. */
  lemma PageBits(entry: Word)
    ensures Number(And(entry, Not(Mask(12)))) == PhysPage(Number(entry))
  {
    var page := And(entry, Not(Mask(12)));
    assert page[..12] == Clear(12) && page[12..48] == entry[12..48] && page[48..] == entry[48..];
    NumberClear(12);
    Fields(page);
    Fields(entry);
    FieldValues(Number(entry[..12]), Number(entry[12..48]), Number(entry[48..]));
  }

  lemma {:induction false} AllClear(s: seq<bool>)
    requires Number(s) == 0
    ensures forall i :: 0 <= i < |s| ==> !s[i]
  {
    if s != [] {
      AllClear(s[1..]);
    }
  }

  lemma Low(w: Word, k: nat)
    requires k <= 64 && Number(w[k..]) == 0
    ensures Number(w) == Number(w[..k])
  {
    assert w == w[..k] + w[k..];
    NumberConcat(w[..k], w[k..]);
  }
}
