/** The IA-32 Global Descriptor Table: the packing of one segment descriptor
    (Intel SDM Vol. 3A, section 3.4.5), the 7-slot table, the table-pointer
    image handed to `lgdt` (section 2.4.1) and the installation sequence. */
module Gdt {

  /** `struct gdt_entry` (packed, 8 bytes): a 32-bit base and a 20-bit limit
      split across non-contiguous fields. The high nibble of granularity
      holds the flags (G, D/B, L, AVL), its low nibble limit bits 16-19. */
  datatype GdtEntry = GdtEntry(
    limitLow: bv16,
    baseLow: bv16,
    baseMiddle: bv8,
    access: bv8,
    granularity: bv8,
    baseHigh: bv8)

  /** `struct gdt_ptr` (packed, 6 bytes): table size in bytes minus one, then
      the linear address of the table. */
  datatype GdtPtr = GdtPtr(limit: bv16, base: bv32)

  /** `sizeof(struct gdt_entry)` and the number of slots of `gdt`. */
  const EntrySize: nat := 8
  const Slots: nat := 7

  const NullEntry := GdtEntry(0, 0, 0, 0, 0, 0)

  /** Base and limit can be read back from a descriptor. */
  function EntryBase(e: GdtEntry): bv32
  {
    (e.baseLow as bv32) | ((e.baseMiddle as bv32) << 16) | ((e.baseHigh as bv32) << 24)
  }

  function EntryLimit(e: GdtEntry): bv32
  {
    (e.limitLow as bv32) | (((e.granularity & 0x0F) as bv32) << 16)
  }

  /** The descriptor gdt_set_gate builds from its arguments (gdt.c:37-45):
      the base and the low 20 bits of the limit read back from it unchanged. */
  function Gate(base: bv32, limit: bv32, access: bv8, gran: bv8): (e: GdtEntry)
    ensures EntryBase(e) == base
    ensures EntryLimit(e) == limit & 0xFFFFF
    ensures e.granularity & 0xF0 == gran & 0xF0
    ensures e.access == access
  {
    GdtEntry(
      limitLow := (limit & 0xFFFF) as bv16,
      baseLow := (base & 0xFFFF) as bv16,
      baseMiddle := ((base >> 16) & 0xFF) as bv8,
      access := access,
      granularity := ((limit >> 16) & 0x0F) as bv8 | (gran & 0xF0),
      baseHigh := ((base >> 24) & 0xFF) as bv8)
  }

  /** Only bits 0-19 of the limit and bits 4-7 of gran reach the descriptor. */
  lemma GateIgnoresDiscardedBits(base: bv32, limit: bv32, access: bv8, gran: bv8)
    ensures Gate(base, limit, access, gran) == Gate(base, limit & 0xFFFFF, access, gran & 0xF0)
  {
  }

  /** The 8 bytes of a descriptor in memory, in field order, multi-byte
      fields little-endian, without padding. */
  function EncodeEntry(e: GdtEntry): (b: seq<bv8>)
    ensures |b| == EntrySize
  {
    [ (e.limitLow & 0xFF) as bv8, (e.limitLow >> 8) as bv8,
      (e.baseLow & 0xFF) as bv8, (e.baseLow >> 8) as bv8,
      e.baseMiddle, e.access, e.granularity, e.baseHigh ]
  }

  function DecodeEntry(b: seq<bv8>): GdtEntry
    requires |b| == EntrySize
  {
    GdtEntry(
      limitLow := (b[0] as bv16) | ((b[1] as bv16) << 8),
      baseLow := (b[2] as bv16) | ((b[3] as bv16) << 8),
      baseMiddle := b[4], access := b[5], granularity := b[6], baseHigh := b[7])
  }

  /** The byte image determines the descriptor. */
  lemma EntryEncodingRoundTrip(e: GdtEntry)
    ensures DecodeEntry(EncodeEntry(e)) == e
  {
  }

  /** The 6 bytes of the table pointer: limit then base, little-endian. */
  function EncodePtr(p: GdtPtr): (b: seq<bv8>)
    ensures |b| == 6
  {
    [ (p.limit & 0xFF) as bv8, (p.limit >> 8) as bv8,
      (p.base & 0xFF) as bv8, ((p.base >> 8) & 0xFF) as bv8,
      ((p.base >> 16) & 0xFF) as bv8, (p.base >> 24) as bv8 ]
  }

  function DecodePtr(b: seq<bv8>): GdtPtr
    requires |b| == 6
  {
    GdtPtr(
      limit := (b[0] as bv16) | ((b[1] as bv16) << 8),
      base := (b[2] as bv32) | ((b[3] as bv32) << 8) | ((b[4] as bv32) << 16) | ((b[5] as bv32) << 24))
  }

  lemma PtrEncodingRoundTrip(p: GdtPtr)
    ensures DecodePtr(EncodePtr(p)) == p
  {
  }

  /** The table limit gdt_install stores: the size of 7 descriptors minus one. */
  function TableLimit(): (l: bv16)
    ensures l as int == EntrySize * Slots - 1 == 55
  {
    (EntrySize * Slots - 1) as bv16
  }

  /** The access bytes gdt_install gives slots 1-6: kernel code, data, stack
      (ring 0) and user code, data, stack (ring 3). */
  const SegmentAccess: seq<bv8> := [0x9A, 0x92, 0x92, 0xFA, 0xF2, 0xF2]

  /** The table gdt_install writes (gdt.c:54-78). */
  function InstalledTable(): (t: seq<GdtEntry>)
    ensures |t| == Slots
  {
    [ Gate(0, 0, 0, 0),
      Gate(0, 0xFFFF_FFFF, 0x9A, 0xCF),
      Gate(0, 0xFFFF_FFFF, 0x92, 0xCF),
      Gate(0, 0xFFFF_FFFF, 0x92, 0xCF),
      Gate(0, 0xFFFF_FFFF, 0xFA, 0xCF),
      Gate(0, 0xFFFF_FFFF, 0xF2, 0xCF),
      Gate(0, 0xFFFF_FFFF, 0xF2, 0xCF) ]
  }

  /** Slot 0 is the null descriptor; slots 1-6 span the whole 4 GiB with base
      0, limit 0xFFFFF in 4 KiB units, 32-bit operand size, and the access
      bytes of SegmentAccess in order. */
  lemma InstalledTableLayout()
    ensures InstalledTable()[0] == NullEntry
    ensures forall k :: 1 <= k < Slots ==>
      var e := InstalledTable()[k];
      e.baseLow == 0 && e.baseMiddle == 0 && e.baseHigh == 0 &&
      e.limitLow == 0xFFFF && e.granularity == 0xCF && e.access == SegmentAccess[k - 1]
    ensures forall k :: 1 <= k < Slots ==>
      EntryBase(InstalledTable()[k]) == 0 && EntryLimit(InstalledTable()[k]) == 0xFFFFF
  {
  }

  /** Access-byte fields (section 3.4.5): present flag, privilege level,
      descriptor type and type nibble. */
  function Present(access: bv8): bool { access & 0x80 != 0 }
  function Dpl(access: bv8): bv8 { (access >> 5) & 0x3 }
  function CodeOrData(access: bv8): bool { access & 0x10 != 0 }
  function IsCode(access: bv8): bool { access & 0x08 != 0 }

  /** Every installed segment is present and a code/data segment; the first
      three run at ring 0, the last three at ring 3, and only slots 1 and 4
      are code. */
  lemma SegmentAccessMeaning()
    ensures forall k :: 0 <= k < 6 ==>
      Present(SegmentAccess[k]) && CodeOrData(SegmentAccess[k]) &&
      Dpl(SegmentAccess[k]) == (if k < 3 then 0 else 3) &&
      IsCode(SegmentAccess[k]) == (k == 0 || k == 3)
  {
  }

  /** The processor state gdt_install acts on: the global `gdt` array and
      `gp`, and the descriptor-table register that gdt_flush loads. */
  class GdtState {
    /** `struct gdt_entry gdt[7]` */
    const gdt: array<GdtEntry>
    /** `struct gdt_ptr gp` */
    var gp: GdtPtr
    /** The slots written by gdt_set_gate since start-up. */
    ghost var written: set<int>
    /** Whether `lgdt` has been executed, and the image it loaded. */
    var loaded: bool
    var gdtr: GdtPtr

    ghost predicate Valid()
      reads this
    {
      gdt.Length == Slots
    }

    /** Static storage starts zeroed and nothing is loaded. */
    constructor ()
      ensures Valid() && fresh(gdt)
      ensures gdt[..] == seq(Slots, _ => NullEntry)
      ensures gp == GdtPtr(0, 0) && written == {} && !loaded
    {
      gdt := new GdtEntry[Slots](_ => NullEntry);
      gp := GdtPtr(0, 0);
      written := {};
      loaded := false;
      gdtr := GdtPtr(0, 0);
    }

    /** gdt.c:35-46: writes the fields of slot num, and only that slot. */
    method SetGate(num: int, base: bv32, limit: bv32, access: bv8, gran: bv8)
      requires Valid() && 0 <= num < Slots
      modifies gdt, `written
      ensures Valid()
      ensures gdt[num] == Gate(base, limit, access, gran)
      ensures forall k :: 0 <= k < Slots && k != num ==> gdt[k] == old(gdt[k])
      ensures written == old(written) + {num}
    {
      gdt[num] := gdt[num].(baseLow := (base & 0xFFFF) as bv16);
      gdt[num] := gdt[num].(baseMiddle := ((base >> 16) & 0xFF) as bv8);
      gdt[num] := gdt[num].(baseHigh := ((base >> 24) & 0xFF) as bv8);
      gdt[num] := gdt[num].(limitLow := (limit & 0xFFFF) as bv16);
      gdt[num] := gdt[num].(granularity := ((limit >> 16) & 0x0F) as bv8);
      gdt[num] := gdt[num].(granularity := gdt[num].granularity | (gran & 0xF0));
      gdt[num] := gdt[num].(access := access);
      written := written + {num};
    }

    /** gdt_flush, the external `lgdt` routine: executed only once every slot
      has been written; it loads the descriptor-table register from the
      pointer image. */
    method Flush(ptr: GdtPtr)
      requires Valid()
      requires forall k :: 0 <= k < Slots ==> k in written
      modifies `loaded, `gdtr
      ensures loaded && gdtr == ptr
    {
      loaded := true;
      gdtr := ptr;
    }

    /** gdt.c:48-82. tableAddress is `(uint32_t)&gdt`. */
    method Install(tableAddress: bv32)
      requires Valid()
      modifies this, gdt
      ensures Valid()
      ensures gdt[..] == InstalledTable()
      ensures gp == GdtPtr(TableLimit(), tableAddress)
      ensures loaded && gdtr == gp
      ensures forall k :: 0 <= k < Slots ==> k in written
    {
      gp := GdtPtr(TableLimit(), 0);
      gp := gp.(base := tableAddress);
      SetGate(0, 0, 0, 0, 0);
      SetGate(1, 0, 0xFFFF_FFFF, 0x9A, 0xCF);
      SetGate(2, 0, 0xFFFF_FFFF, 0x92, 0xCF);
      SetGate(3, 0, 0xFFFF_FFFF, 0x92, 0xCF);
      SetGate(4, 0, 0xFFFF_FFFF, 0xFA, 0xCF);
      SetGate(5, 0, 0xFFFF_FFFF, 0xF2, 0xCF);
      SetGate(6, 0, 0xFFFF_FFFF, 0xF2, 0xCF);
      Flush(gp);
    }
  }
}
