/** Address translation through /proc/pid/pagemap: one 64-bit entry per page, decoded into a
    frame number or a swap location. A mask with 2^n - 1 is a remainder, a shift a quotient. */
module Pagemap {

  import opened Wrappers
  import opened Arith
  import opened PageWalk

  const ENOMEM: int := 12
  const EIO: int := 5
  const ENTRY_SIZE: nat := 8
  const PM_SWAP: nat := 0x4000_0000_0000_0000
  const PFN_SPACE: nat := 0x80_0000_0000_0000  // 55 bits
  const OFFSET_SPACE: nat := 0x4_0000_0000_0000  // 50 bits
  const WORD: nat := 0x1_0000_0000_0000_0000

  type Entry64 = e: nat | e < 0x1_0000_0000_0000_0000

  predicate IsSwapped(entry: Entry64) {
    entry / PM_SWAP % 2 == 1
  }

  function SwapType(entry: Entry64): nat {
    entry % 32
  }

  function SwapOffset(entry: Entry64): nat {
    entry / 32 % OFFSET_SPACE
  }

  function FrameNumber(entry: Entry64): nat {
    entry % PFN_SPACE
  }

  /** What the system calls do: errno of a failed open, seek or read (0 for success), where the
      seek ends up, how much the read delivers, and the entries of the file. */
  datatype Calls = Calls(openErrno: int, seekErrno: int, seekTo: nat, readErrno: int, readBytes: nat, entries: nat -> Entry64)

  /** The entry of the page was reached and read in full. */
  predicate EntryRead(va: nat, pageSize: nat, c: Calls)
    requires pageSize > 0
  {
    && c.openErrno == 0
    && c.seekErrno == 0 && c.seekTo == va / pageSize * ENTRY_SIZE
    && c.readErrno == 0 && c.readBytes == ENTRY_SIZE
  }

  /** The error of the first call that failed; 5 (EIO) for a seek or read that came out short. */
  function Failure(va: nat, pageSize: nat, c: Calls): int
    requires pageSize > 0
  {
    if c.openErrno != 0 then c.openErrno
    else if c.seekErrno != 0 then c.seekErrno
    else if c.seekTo != va / pageSize * 8 then 5
    else if c.readErrno != 0 then c.readErrno
    else 5
  }

  /** translate_address: the return value, and the address stored through `pa` (`was` if none). */
  method TranslateAddress(was: nat, va: nat, pageSize: nat, c: Calls) returns (ret: int, pa: nat)
    requires va < WORD && 0 < pageSize < WORD
    ensures ret == 0 <==> EntryRead(va, pageSize, c) && !IsSwapped(c.entries(va / pageSize))
    ensures ret == 0 ==> pa == (FrameNumber(c.entries(va / pageSize)) * pageSize + va % pageSize) % WORD
    ensures EntryRead(va, pageSize, c) && IsSwapped(c.entries(va / pageSize)) ==> ret == ENOMEM && pa == 0
    ensures !EntryRead(va, pageSize, c) ==> pa == was && ret == Failure(va, pageSize, c)
  {
    ret, pa := c.openErrno, was;
    if ret != 0 {
      return;
    }
    var offset := va / pageSize * ENTRY_SIZE;
    if c.seekErrno != 0 {
      return c.seekErrno, was;
    }
    if c.seekTo != offset {
      return EIO, was;
    }
    if c.readErrno != 0 {
      return c.readErrno, was;
    }
    if c.readBytes != ENTRY_SIZE {
      return EIO, was;
    }
    var entry := c.entries(offset / ENTRY_SIZE);
    if IsSwapped(entry) {
      return ENOMEM, 0;
    }
    pa := (FrameNumber(entry) * pageSize + va % pageSize) % WORD;
    ret := 0;
  }

  /** An entry put together from a frame number below 2^55 and the flag bits 55 to 63: its frame is
      read back, and it is swapped exactly if bit 62 is set. */
  lemma ComposedFields(frame: nat, flags: nat)
    requires frame < 0x80_0000_0000_0000 && flags < 0x200
    ensures var entry := frame + flags * 0x80_0000_0000_0000;
            entry < WORD && FrameNumber(entry) == frame && (IsSwapped(entry) <==> flags / 0x80 % 2 == 1)
  {
    var entry := frame + flags * 0x80_0000_0000_0000;
    DivUnique(entry, 0x80_0000_0000_0000, flags);
    HighBits(entry);
  }

  lemma HighBits(entry: nat)
    ensures entry / 0x4000_0000_0000_0000 == entry / 0x80_0000_0000_0000 / 0x80
  {
  }

  /** translate_address on every page entry: present or not, dirty or not, shared or not, the frame
      is used if bit 62 is clear, and the page is reported as swapped if it is set. */
  method TranslateComposed(was: nat, va: nat, pageSize: nat, frame: nat, flags: nat) returns (ret: int, pa: nat)
    requires va < WORD && 0 < pageSize < WORD
    requires frame < 0x80_0000_0000_0000 && flags < 0x200
    ensures flags / 0x80 % 2 == 0 ==> ret == 0 && pa == (frame * pageSize + va % pageSize) % 0x1_0000_0000_0000_0000
    ensures flags / 0x80 % 2 == 1 ==> ret == 12 && pa == 0
  {
    ComposedFields(frame, flags);
    var entry: Entry64 := frame + flags * 0x80_0000_0000_0000;
    ret, pa := TranslateAddress(was, va, pageSize, Calls(0, 0, va / pageSize * 8, 0, 8, _ => entry));
  }

  /** A swap entry put together from a type below 32, an offset below 2^50 and the flags. */
  lemma ComposedSwap(kind: nat, offset: nat, flags: nat)
    requires kind < 32 && offset < 0x4_0000_0000_0000 && flags < 0x200
    ensures var entry := kind + 32 * offset + flags * 0x80_0000_0000_0000;
            entry < WORD && SwapType(entry) == kind && SwapOffset(entry) == offset
  {
    var entry := kind + 32 * offset + flags * 0x80_0000_0000_0000;
    DivUnique(entry, 32, offset + flags * 0x4_0000_0000_0000);
    DivUnique(offset + flags * 0x4_0000_0000_0000, 0x4_0000_0000_0000, flags);
  }

  /** The two swap fields recompose the low 55 bits exactly. */
  lemma SwapFieldsRecompose(entry: Entry64)
    ensures SwapOffset(entry) * 32 + SwapType(entry) == entry % PFN_SPACE
  {
  }

  /** The kernel's side of the contract: the entry of a mapped page carries the frame of the
      4 KiB page at the address, counted from the start of the extent that maps it. */
  predicate Describes(entry: Entry64, x: Extent, va: nat)
    requires Covers(x, va)
  {
    !IsSwapped(entry) && FrameNumber(entry) == x.pfn + (va - x.start) / PAGE_SIZE
  }

  /** What translate_address stores for an entry that is not swapped. */
  function Decoded(entry: Entry64, va: nat): nat {
    (FrameNumber(entry) * PAGE_SIZE + va % PAGE_SIZE) % WORD
  }

  lemma PageInExtent(x: Extent, va: nat)
    requires Covers(x, va) && (va - x.start) % PAGE_SIZE == va % PAGE_SIZE
    ensures (x.pfn + (va - x.start) / PAGE_SIZE) * PAGE_SIZE + va % PAGE_SIZE == PaIn(x, va)
  {
  }

  lemma RemOfRem(va: nat, k: nat)
    requires k > 0
    ensures va % (k * PAGE_SIZE) % PAGE_SIZE == va % PAGE_SIZE
  {
    var s := k * PAGE_SIZE;
    var q, r := va / s, va % s;
    assert va == (q * k) * PAGE_SIZE + r by {
      MulAssoc(q, k, PAGE_SIZE);
    }
    var n := q * k + r / PAGE_SIZE;
    assert va == n * PAGE_SIZE + r % PAGE_SIZE;
    DivUnique(va, PAGE_SIZE, n);
  }

  /** Every leaf size keeps the offset in a 4 KiB page. */
  lemma OffsetInPage(va: nat, level: Level)
    ensures Offset(va, Span(level)) % PAGE_SIZE == va % PAGE_SIZE
  {
    match level
    case 1 => RemOfRem(va, 1);
    case 2 => RemOfRem(va, 512);
    case 3 => RemOfRem(va, 0x4_0000);
    case 4 => RemOfRem(va, 0x800_0000);
    case 5 => RemOfRem(va, 0x10_0000_0000);
  }

  lemma WalkKeepsPageOffset(t: Table, level: Level, va: nat)
    requires WellFormed(t, level) && Walk(t, level, va).end.Frame?
    ensures Pa(Walk(t, level, va).end, va) % PAGE_SIZE == va % PAGE_SIZE
  {
    hide Walk, WellFormed, LastEntry, Offset, Span;
    WalkEndsAtLast(t, level, va);
    OffsetInPage(va, LastEntry(t, level, va).1);
  }

  lemma LeafFits(e: Entry, level: Level, va: nat)
    requires EntryOk(e, level) && IsPresentLeaf(e, level)
    ensures e.pfn * PAGE_SIZE + Offset(va, Span(level)) < WORD
  {
  }

  /** For every table tree, every extent it maps and every address in it: decoding the pagemap
      entry that describes the page gives the flat map's address, and hence the page walk's if
      and only if the entry that serves the address is readable. */
  lemma PagemapAgreesWithWalk(t: Table, x: Extent, va: nat, entry: Entry64)
    requires WellFormed(t, 5) && va < VA_SPACE
    requires HasExtent(t, 5, 0, x) && Covers(x, va) && Describes(entry, x, va)
    ensures FlatMap(t, va) == Some(Decoded(entry, va))
    ensures var (e, l) := LastEntry(t, 5, va);
            FoundPa(Walk(t, 5, va).end, va) == Some(Decoded(entry, va)) <==> IsReadable(e, l)
  {
    hide Walk, WellFormed, FlatMap, LastEntry, HasExtent, Span, Offset, FoundPa, IsReadable;
    var (e, l) := LastEntry(t, 5, va);
    ExtentOfLast(t, 5, 0, va, x);
    FlatMapOfLast(t, va);
    OffsetInPage(va, l);
    PageInExtent(x, va);
    LeafFits(e, l, va);
    WalkRefinesFlatMap(t, va);
  }
}
