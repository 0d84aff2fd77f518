/** The segment selectors of gdt.h. A selector (Intel SDM Vol. 3A, section
    3.4.2) holds the requested privilege level in bits 0-1, the table
    indicator in bit 2 (0 = GDT) and the descriptor index from bit 3 on. */
module GdtSelectors {
  import opened Gdt

  const KernelCodeSegment: nat := 0x08
  const KernelDataSegment: nat := 0x10
  const KernelStackSegment: nat := 0x18
  const UserCodeSegment: nat := 0x20
  const UserDataSegment: nat := 0x28
  const UserStackSegment: nat := 0x30

  /** The six selectors in the order of the slots gdt_install fills. */
  const Selectors: seq<nat> := [KernelCodeSegment, KernelDataSegment, KernelStackSegment,
                                UserCodeSegment, UserDataSegment, UserStackSegment]

  function Rpl(sel: nat): nat { sel % 4 }
  function TableIndicator(sel: nat): nat { (sel / 4) % 2 }
  function Index(sel: nat): nat { sel / 8 }

  /** Selector k is slot k + 1 times 8, with table indicator 0 (the GDT) and
      requested privilege level 0. */
  lemma SelectorsAddressSlots()
    ensures |Selectors| == Slots - 1
    ensures forall k :: 0 <= k < |Selectors| ==>
      Selectors[k] == (k + 1) * EntrySize && Index(Selectors[k]) == k + 1 &&
      TableIndicator(Selectors[k]) == 0 && Rpl(Selectors[k]) == 0
  {
  }

  /** The selectors are distinct and none of them selects the null slot. */
  lemma SelectorsDistinct()
    ensures forall j, k :: 0 <= j < k < |Selectors| ==> Selectors[j] != Selectors[k]
    ensures forall k :: 0 <= k < |Selectors| ==> Index(Selectors[k]) != 0
  {
    SelectorsAddressSlots();
  }

  /** Every descriptor a selector refers to lies wholly inside the table the
      pointer image describes: its last byte is at most gp.limit. */
  lemma SelectorsInsideTable()
    ensures forall k :: 0 <= k < |Selectors| ==>
      Selectors[k] + EntrySize - 1 <= TableLimit() as int
  {
    SelectorsAddressSlots();
  }

  /** After installation, selector k names a descriptor with the access byte
      of slot k + 1: 0x08 kernel code (0x9A) through 0x30 user stack (0xF2). */
  lemma SelectorsMatchInstallOrder()
    ensures forall k :: 0 <= k < |Selectors| ==>
      InstalledTable()[Index(Selectors[k])].access == SegmentAccess[k]
  {
    SelectorsAddressSlots();
    InstalledTableLayout();
  }
}
