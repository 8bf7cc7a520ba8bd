/**
 * AArch64 translation descriptors with a 4 KiB granule (section D8.3 of the Arm
 * Architecture Reference Manual, DDI 0487), as kernel/src/arch/aarch64/page_table.rs
 * packs and unpacks them.  Memory holds a 64-bit word as its bit fields; `Encode`
 * and `Decode` are the two directions of that correspondence, and the lemmas named
 * `...Word` give the words the source assembles with masks and "or".
 */
module Descriptors {
  import opened Arith
  import opened Common

  const ENTRIES: nat := 512
  const SIZE_2M: nat := 0x20_0000
  const SIZE_1G: nat := 0x4000_0000
  const SIZE_512G: nat := 0x80_0000_0000
  const VA_SPAN: nat := 0x1_0000_0000_0000
  const FRAMES_48: nat := 0x10_0000_0000

  /** Bit 0, bit 1, bits 11..2, the address in bits 47..12, and bits 63..48. */
  datatype Pte = Pte(present: bool, table: bool, low: nat, addr: nat, high: nat)

  const ZERO_PTE := Pte(false, false, 0, 0, 0)

  type Table = t: seq<Pte> | |t| == ENTRIES witness seq(ENTRIES, _ => ZERO_PTE)
  type Mem = map<nat, Table>

  const ZERO_TABLE: Table := seq(ENTRIES, _ => ZERO_PTE)

  predicate WellFormed(p: Pte) {
    p.low < 1024 && p.addr % PAGE_SIZE == 0 && p.addr < VA_SPAN && p.high < 0x1_0000
  }

  predicate IsTable(p: Pte) { p.present && p.table }

  predicate IsBlock(p: Pte) { p.present && !p.table }

  function Encode(p: Pte): nat {
    (if p.present then 1 else 0) + (if p.table then 2 else 0) + p.low * 4 + p.addr + p.high * VA_SPAN
  }

  function Decode(w: nat): Pte {
    Pte(w % 2 == 1, w / 2 % 2 == 1, w / 4 % 1024, Mask48(w), w / VA_SPAN)
  }

  /** `w & 0x0000_FFFF_FFFF_F000`. */
  function Mask48(w: nat): nat { w / PAGE_SIZE % FRAMES_48 * PAGE_SIZE }

  /** Bytes spanned by one entry of a table at `level`. */
  function EntrySpan(level: nat): (n: nat)
    requires level <= 3
    ensures n > 0
  {
    if level == 0 then SIZE_512G else if level == 1 then SIZE_1G else if level == 2 then SIZE_2M else PAGE_SIZE
  }

  /** `va_l0_index` .. `va_l3_index`. */
  function Index(level: nat, va: nat): (i: nat)
    requires level <= 3
    ensures i < ENTRIES
  {
    va / EntrySpan(level) % ENTRIES
  }

  /** Output base of a leaf at `level`: the address with the bits below the leaf size masked off. */
  function LeafBase(level: nat, p: Pte): nat
    requires 1 <= level <= 3
  {
    if level == 3 then p.addr else p.addr / EntrySpan(level) * EntrySpan(level)
  }

  /** A block descriptor whose address field is aligned to the block it maps. */
  predicate AlignedBlock(level: nat, p: Pte)
    requires 1 <= level <= 2
  {
    LeafBase(level, p) == p.addr
  }

  /** The descriptor that links a next-level table. */
  function TableDesc(pa: nat): Pte { Pte(true, true, 0, Mask48(pa), 0) }

  datatype MemAttr = NormalCacheable | Device
  datatype MapFlags = MapFlags(memAttr: MemAttr, readable: bool, writable: bool, executable: bool, user: bool)

  /** `pte_attr_bits`, bits 11..2. */
  function AttrLow(f: MapFlags): (bits: nat)
    ensures bits < 1024
  {
    (if f.memAttr.NormalCacheable? then 0x1C0 else 0x101)
    + (if f.user then (if f.writable then 0x10 else 0x30) else if f.writable then 0 else 0x10)
  }

  /** `pte_attr_bits`, bits 63..48: the two execute-never bits. */
  function AttrHigh(f: MapFlags): nat { if f.executable then 0 else 0x60 }

  function PageDesc(pa: nat, f: MapFlags): Pte { Pte(true, true, AttrLow(f), Mask48(pa), AttrHigh(f)) }

  /**
   * Attributes a split block hands to its pieces: bits 51..48 and 11..0 of the
   * block with the user bit (bit 6) set.  Clearing the two execute-never bits (54
   * and 53) changes nothing because the mask has dropped them already.
   */
  function SplitLow(block: Pte): nat {
    if block.low / 16 % 2 == 1 then block.low else block.low + 16
  }

  /** Piece `i` of a block at `level`: a smaller block below level 1, a page below level 2. */
  function Piece(level: nat, block: Pte, i: nat): Pte
    requires 1 <= level <= 2
  {
    Pte(true, block.table || level == 2, SplitLow(block), Mask48(block.addr + i * EntrySpan(level + 1)),
      block.high % 16)
  }

  /** Fields and words are in one-to-one correspondence. */
  lemma DecodeEncode(p: Pte)
    requires WellFormed(p)
    ensures Decode(Encode(p)) == p && Encode(p) < 0x1_0000 * VA_SPAN
  {
    var w := Encode(p);
    var bits := (if p.present then 1 else 0) + (if p.table then 2 else 0);
    var frame := p.addr / PAGE_SIZE;
    DivUnique(w, VA_SPAN, p.high, bits + p.low * 4 + p.addr);
    DivUnique(w, PAGE_SIZE, frame + p.high * FRAMES_48, bits + p.low * 4);
    DivUnique(frame + p.high * FRAMES_48, FRAMES_48, p.high, frame);
    var quarter := p.low + frame * 1024 + p.high * 0x4000_0000_0000;
    DivUnique(w, 4, quarter, bits);
    DivUnique(quarter, 1024, frame + p.high * FRAMES_48, p.low);
    DivUnique(w, 2, quarter * 2 + bits / 2, bits % 2);
    DivUnique(quarter * 2 + bits / 2, 2, quarter, bits / 2);
  }

  lemma EncodeDecode(w: nat)
    requires w < 0x1_0000 * VA_SPAN
    ensures Encode(Decode(w)) == w && WellFormed(Decode(w))
  {
    var n, q := w / PAGE_SIZE, w / 4;
    DivUnique(w, VA_SPAN, n / FRAMES_48, n % FRAMES_48 * PAGE_SIZE + w % PAGE_SIZE);
    DivUnique(w, PAGE_SIZE, q / 1024, q % 1024 * 4 + w % 4);
    DivUnique(w, 4, w / 2 / 2, w / 2 % 2 * 2 + w % 2);
  }

  /** `pa_to_pte_addr(pa) | PTE_VALID | PTE_TYPE_TABLE`, then masked with 0x0000_FFFF_FFFF_F003. */
  lemma TableDescWord(pa: nat)
    ensures Encode(TableDesc(pa)) == Mask48(pa) + 3
  {
  }

  /** `pa_to_pte_addr(pa) | PTE_VALID | PTE_TYPE_PAGE | pte_attr_bits(flags)` for user read-write data. */
  lemma UserDataWord(pa: nat)
    ensures Encode(PageDesc(pa, MapFlags(NormalCacheable, true, true, false, true)))
      == Mask48(pa) + 0x0060_0000_0000_0743
  {
  }

  /** Masking keeps page-aligned addresses below 2^48. */
  lemma Mask48Keeps(pa: nat)
    requires pa % PAGE_SIZE == 0 && pa < VA_SPAN
    ensures Mask48(pa) == pa
  {
  }

  lemma Mask48Bounds(w: nat)
    ensures Mask48(w) % PAGE_SIZE == 0 && Mask48(w) < VA_SPAN
  {
  }

  /** The coarser quotients of an address in terms of its page number. */
  lemma Quotients(va: nat)
    ensures va / SIZE_2M == va / PAGE_SIZE / 512
    ensures va / SIZE_1G == va / PAGE_SIZE / 512 / 512
    ensures va / SIZE_512G == va / PAGE_SIZE / 512 / 512 / 512
  {
    var n, a, b := va / PAGE_SIZE, va / SIZE_2M, va / SIZE_1G;
    DivUnique(va, SIZE_2M, n / 512, n % 512 * PAGE_SIZE + va % PAGE_SIZE);
    DivUnique(va, SIZE_1G, a / 512, a % 512 * SIZE_2M + va % SIZE_2M);
    DivUnique(va, SIZE_512G, b / 512, b % 512 * SIZE_1G + va % SIZE_1G);
  }

  /**
   * Piece `i` sits at the block's own address plus `i` pieces, provided the address
   * bits between block and piece size are clear (piece 0 always does).
   */
  lemma PieceFields(level: nat, block: Pte, i: nat)
    requires 1 <= level <= 2 && WellFormed(block) && IsBlock(block) && i < ENTRIES
    requires i == 0 || LeafBase(level + 1, block) == LeafBase(level, block)
    ensures var p := Piece(level, block, i);
      && WellFormed(p) && p.present && p.table == (level == 2)
      && p.addr == block.addr + i * EntrySpan(level + 1)
      && LeafBase(level + 1, p) == LeafBase(level + 1, block) + i * EntrySpan(level + 1)
  {
    var span := EntrySpan(level + 1);
    var a := block.addr + i * span;
    assert a < VA_SPAN && a % PAGE_SIZE == 0 by {
      PieceInRange(level, block, i);
    }
    Mask48Keeps(a);
    var q := block.addr / span;
    if level == 1 {
      DivUnique(a, SIZE_2M, q + i, block.addr % SIZE_2M);
    }
  }

  lemma PieceInRange(level: nat, block: Pte, i: nat)
    requires 1 <= level <= 2 && WellFormed(block) && i < ENTRIES
    requires i == 0 || LeafBase(level + 1, block) == LeafBase(level, block)
    ensures var a := block.addr + i * EntrySpan(level + 1); a < VA_SPAN && a % PAGE_SIZE == 0
  {
    if level == 1 {
      var k := block.addr / SIZE_1G;
      assert k < 0x4_0000;
      assert i * SIZE_2M <= 511 * SIZE_2M;
    } else {
      var k := block.addr / SIZE_2M;
      assert k < 0x800_0000;
    }
  }
}
