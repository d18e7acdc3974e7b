/** The software page-table walk: five levels of 512-entry tables, early exits, and leaves at
    the PUD, PMD and PTE levels. */
module PageWalk {

  import opened Arith
  import opened Wrappers

  const PAGE_SIZE: nat := 0x1000
  const ENTRIES: nat := 512
  const MAX_PFN: nat := 0x100_0000_0000  // 52-bit physical addresses
  const ESRCH: int := 3

  /** Levels count down from the PGD: 5 = PGD, 4 = P4D, 3 = PUD, 2 = PMD, 1 = PTE. */
  type Level = l: nat | 1 <= l <= 5 witness 1

  /** The bytes of address space under one entry. */
  function Span(level: Level): (s: nat)
    ensures s > 0 && s % PAGE_SIZE == 0
  {
    match level
    case 1 => 0x1000
    case 2 => 0x20_0000
    case 3 => 0x4000_0000
    case 4 => 0x80_0000_0000
    case 5 => 0x1_0000_0000_0000
  }

  const VA_SPACE: nat := 512 * 0x1_0000_0000_0000

  function Index(va: nat, level: Level): (i: nat)
    ensures i < ENTRIES
  {
    va / Span(level) % ENTRIES
  }

  /** A table lies at a kernel address; an entry is judged by the architecture's predicates. */
  datatype Table = Table(base: nat, entries: seq<Entry>)
  datatype Entry = Entry(raw: nat, none: bool, bad: bool, leaf: bool, present: bool, pfn: nat, next: Table)

  /** The entry is a huge leaf, which exists at two levels. */
  predicate IsHugeLeaf(e: Entry, level: Level) {
    (level == 3 || level == 2) && !e.none && e.leaf
  }

  /** The walk finds a huge page here: `bad` is tested before `leaf`. */
  predicate IsHuge(e: Entry, level: Level) {
    IsHugeLeaf(e, level) && !e.bad
  }

  /** The walk goes on to the next table. */
  predicate Descends(e: Entry, level: Level) {
    level > 1 && !e.none && !e.bad && !IsHuge(e, level)
  }

  predicate WellFormed(t: Table, level: Level)
    decreases level, 1
  {
    && t.base > 0
    && |t.entries| == ENTRIES
    && forall i :: 0 <= i < ENTRIES ==> EntryOk(t.entries[i], level)
  }

  predicate EntryOk(e: Entry, level: Level)
    decreases level, 0
  {
    && (IsHugeLeaf(e, level) ==> e.pfn + Span(level) / PAGE_SIZE <= MAX_PFN)
    && (level == 1 ==> e.pfn < MAX_PFN)
    && (Descends(e, level) ==> WellFormed(e.next, level - 1))
  }

  // ---------------------------------------------------------------------------------------
  // The walk as a function
  // ---------------------------------------------------------------------------------------

  datatype Step = Step(kla: nat, raw: nat)

  datatype End = Nothing | Frame(pfn: nat, span: nat, present: bool)

  /** The entries visited, and where the walk ends. */
  datatype Path = Path(steps: seq<Step>, end: End)

  function Visit(t: Table, level: Level, va: nat): Step
    requires WellFormed(t, level)
  {
    Step(t.base + 8 * Index(va, level), t.entries[Index(va, level)].raw)
  }

  function EndAt(e: Entry, level: Level): End {
    if level == 1 && !e.none then Frame(e.pfn, Span(1), e.present)
    else if IsHuge(e, level) then Frame(e.pfn, Span(level), e.present)
    else Nothing
  }

  function Walk(t: Table, level: Level, va: nat): (p: Path)
    requires WellFormed(t, level)
    ensures 1 <= |p.steps| <= level
    decreases level
  {
    var e := t.entries[Index(va, level)];
    if Descends(e, level) then
      var rest := Walk(e.next, level - 1, va);
      Path([Visit(t, level, va)] + rest.steps, rest.end)
    else Path([Visit(t, level, va)], EndAt(e, level))
  }

  /** The physical address reported: 0 when nothing was found. */
  function Pa(end: End, va: nat): nat {
    match end
    case Nothing => 0
    case Frame(pfn, span, _) => if span == 0 then 0 else pfn * PAGE_SIZE + Offset(va, span)
  }

  function Offset(va: nat, span: nat): nat
    requires span > 0
  {
    va % span
  }

  /** The physical address when the walk ends at `e`. */
  function PaAt(e: Entry, level: Level, va: nat): nat {
    if level == 1 && !e.none then e.pfn * PAGE_SIZE + Offset(va, PAGE_SIZE)
    else if IsHuge(e, level) then e.pfn * PAGE_SIZE + Offset(va, Span(level))
    else 0
  }

  lemma {:induction false} PaFits(t: Table, level: Level, va: nat)
    requires WellFormed(t, level)
    ensures Pa(Walk(t, level, va).end, va) < MAX_PFN * PAGE_SIZE
    decreases level
  {
    var e := t.entries[Index(va, level)];
    assert EntryOk(e, level);
    if Descends(e, level) {
      PaFits(e.next, level - 1, va);
    }
  }

  /** After n steps, what is left of `path` is the walk `rest`. */
  ghost predicate Rest(path: Path, n: nat, rest: Path) {
    n <= |path.steps| && path.steps[n..] == rest.steps && path.end == rest.end
  }

  // ---------------------------------------------------------------------------------------
  // The walk as the driver does it
  // ---------------------------------------------------------------------------------------

  /** The entry of `t` for an address, and where it lies (`pgd_offset` and `pgdp_get`, and so on),
      as step n of `path`. */
  method Lookup(t: Table, level: Level, va: nat, ghost path: Path, ghost n: nat) returns (kla: nat, e: Entry)
    requires WellFormed(t, level) && Rest(path, n, Walk(t, level, va))
    ensures kla > 0 && (Descends(e, level) ==> WellFormed(e.next, level - 1))
    ensures n < |path.steps| && path.steps[n] == Step(kla, e.raw)
    ensures Descends(e, level) ==> Rest(path, n + 1, Walk(e.next, level - 1, va))
    ensures !Descends(e, level) ==> |path.steps| == n + 1 && Pa(path.end, va) == PaAt(e, level, va)
  {
    e := t.entries[Index(va, level)];
    kla := t.base + 8 * Index(va, level);
    assert EntryOk(e, level);
    assert path.steps[n] == path.steps[n..][0];
    assert path.steps[n + 1..] == path.steps[n..][1..];
  }

  /** What a result record holds for the i-th level: 0 where the walk did not get to. */
  function Kla(steps: seq<Step>, i: nat): nat { if i < |steps| then steps[i].kla else 0 }
  function Raw(steps: seq<Step>, i: nat): nat { if i < |steps| then steps[i].raw else 0 }

  class Query {
    var va: nat
    var numLevels: nat
    var pgdTableKla: nat
    var pgdEntryKla: nat
    var p4dEntryKla: nat
    var pudEntryKla: nat
    var pmdEntryKla: nat
    var pteEntryKla: nat
    var pgdEntry: nat
    var p4dEntry: nat
    var pudEntry: nat
    var pmdEntry: nat
    var pteEntry: nat
    var pa: nat

    /** The locked part: fills `numLevels`, and leaves entry addresses and values in locals. */
    method WalkTables(root: Table, vaddr: nat)
        returns (pgdp: nat, p4dp: nat, pudp: nat, pmdp: nat, ptep: nat,
                 pgd: nat, p4d: nat, pud: nat, pmd: nat, pte: nat, paddr: nat)
      requires WellFormed(root, 5)
      modifies this`numLevels
      ensures var path := Walk(root, 5, vaddr);
        && numLevels == |path.steps|
        && pgdp == Kla(path.steps, 0) && pgd == Raw(path.steps, 0)
        && p4dp == Kla(path.steps, 1) && p4d == Raw(path.steps, 1)
        && pudp == Kla(path.steps, 2) && pud == Raw(path.steps, 2)
        && pmdp == Kla(path.steps, 3) && pmd == Raw(path.steps, 3)
        && ptep == Kla(path.steps, 4) && pte == Raw(path.steps, 4)
        && paddr == Pa(path.end, vaddr)
    {
      hide Walk, WellFormed;
      pgdp, p4dp, pudp, pmdp, ptep := 0, 0, 0, 0, 0;
      pgd, p4d, pud, pmd, pte, paddr := 0, 0, 0, 0, 0, 0;
      var t := root;
      ghost var path := Walk(root, 5, vaddr);
      assert Rest(path, 0, path);
      numLevels := 0;
      label walk: {
        numLevels := numLevels + 1;
        var e;
        pgdp, e := Lookup(t, 5, vaddr, path, 0);
        pgd := e.raw;
        if e.none || e.bad { break walk; }
        t := e.next;

        numLevels := numLevels + 1;
        p4dp, e := Lookup(t, 4, vaddr, path, 1);
        p4d := e.raw;
        if e.none || e.bad { break walk; }
        t := e.next;

        numLevels := numLevels + 1;
        pudp, e := Lookup(t, 3, vaddr, path, 2);
        pud := e.raw;
        if e.none || e.bad { break walk; }
        if e.leaf {
          paddr := e.pfn * PAGE_SIZE + Offset(vaddr, Span(3));
          break walk;
        }
        t := e.next;

        numLevels := numLevels + 1;
        pmdp, e := Lookup(t, 2, vaddr, path, 3);
        pmd := e.raw;
        if e.none || e.bad { break walk; }
        if e.leaf {
          paddr := e.pfn * PAGE_SIZE + Offset(vaddr, Span(2));
          break walk;
        }
        t := e.next;

        numLevels := numLevels + 1;
        ptep, e := Lookup(t, 1, vaddr, path, 4);
        pte := e.raw;
        if e.none { break walk; }
        paddr := e.pfn * PAGE_SIZE + Offset(vaddr, PAGE_SIZE);
      }
    }

    /** `mm` is the process's top-level table, None when the process is not found. */
    method QueryPageTable(mm: Option<Table>) returns (ret: int)
      requires mm.Some? ==> WellFormed(mm.value, 5)
      modifies this
      ensures va == old(va)
      ensures mm.None? ==>
        && ret == -3 && numLevels == old(numLevels) && pa == old(pa) && pgdTableKla == old(pgdTableKla)
        && pgdEntryKla == old(pgdEntryKla) && p4dEntryKla == old(p4dEntryKla) && pudEntryKla == old(pudEntryKla)
        && pmdEntryKla == old(pmdEntryKla) && pteEntryKla == old(pteEntryKla)
        && pgdEntry == old(pgdEntry) && p4dEntry == old(p4dEntry) && pudEntry == old(pudEntry)
        && pmdEntry == old(pmdEntry) && pteEntry == old(pteEntry)
      ensures mm.Some? ==> var path := Walk(mm.value, 5, va);
        && ret == 0
        && pgdTableKla == mm.value.base
        && numLevels == |path.steps|
        && pa == Pa(path.end, va)
        && pgdEntryKla == Kla(path.steps, 0) && p4dEntryKla == Kla(path.steps, 1) && pudEntryKla == Kla(path.steps, 2)
        && pmdEntryKla == Kla(path.steps, 3) && pteEntryKla == Kla(path.steps, 4)
        && pgdEntry == Raw(path.steps, 0) && p4dEntry == Raw(path.steps, 1) && pudEntry == Raw(path.steps, 2)
        && pmdEntry == Raw(path.steps, 3) && pteEntry == Raw(path.steps, 4)
      ensures mm.Some? ==>
        && pgdEntryKla != 0 && (p4dEntryKla != 0 <==> numLevels >= 2) && (pudEntryKla != 0 <==> numLevels >= 3)
        && (pmdEntryKla != 0 <==> numLevels >= 4) && (pteEntryKla != 0 <==> numLevels >= 5)
    {
      hide Walk, WellFormed, Pa, Kla, Raw;
      if mm.None? {
        return -ESRCH;
      }
      var pgdp, p4dp, pudp, pmdp, ptep, pgd, p4d, pud, pmd, pte, paddr := WalkTables(mm.value, va);
      pgdTableKla := mm.value.base;
      pgdEntryKla, p4dEntryKla, pudEntryKla, pmdEntryKla, pteEntryKla := pgdp, p4dp, pudp, pmdp, ptep;
      pgdEntry, p4dEntry, pudEntry, pmdEntry, pteEntry := pgd, p4d, pud, pmd, pte;
      pa := paddr;
      ReportsVisited(mm.value, va);
      return 0;
    }
  }

  lemma {:induction false} VisitedNotNull(t: Table, level: Level, va: nat)
    requires WellFormed(t, level)
    ensures forall i :: 0 <= i < |Walk(t, level, va).steps| ==> Walk(t, level, va).steps[i].kla > 0
    decreases level
  {
    var e := t.entries[Index(va, level)];
    assert EntryOk(e, level);
    if Descends(e, level) {
      VisitedNotNull(e.next, level - 1, va);
    }
  }

  /** Where the entries of a table lie: eight bytes each, inside the page that starts at its base,
      in the order of the indices and without overlap. */
  lemma EntryPlaces(t: Table, level: Level, va: nat, wa: nat)
    requires WellFormed(t, level)
    ensures var a, b := Walk(t, level, va).steps[0].kla, Walk(t, level, wa).steps[0].kla;
      && t.base <= a && a + 8 <= t.base + 4096
      && (Index(va, level) == Index(wa, level) ==> a == b)
      && (Index(va, level) < Index(wa, level) ==> a + 8 <= b)
  {
    hide Index, WellFormed;
    WalkStarts(t, level, va);
    WalkStarts(t, level, wa);
  }

  /** The walk visits the entry that the address selects, and goes on from there. */
  lemma WalkStarts(t: Table, level: Level, va: nat)
    requires WellFormed(t, level)
    ensures Walk(t, level, va).steps[0] == Visit(t, level, va)
    ensures var e := t.entries[Index(va, level)];
            Descends(e, level) ==> Walk(t, level, va).steps[1..] == Walk(e.next, level - 1, va).steps
  {
    assert EntryOk(t.entries[Index(va, level)], level);
  }

  /** The non-null entry pointers reported are exactly those of the visited levels. */
  lemma ReportsVisited(t: Table, va: nat)
    requires WellFormed(t, 5)
    ensures var steps := Walk(t, 5, va).steps;
            forall i: nat :: i < 5 ==> (Kla(steps, i) != 0 <==> i < |steps|)
  {
    hide Walk, WellFormed;
    VisitedNotNull(t, 5, va);
  }

  // ---------------------------------------------------------------------------------------
  // The flat map
  // ---------------------------------------------------------------------------------------

  /** A stretch of virtual addresses mapped to consecutive physical memory. */
  datatype Extent = Extent(start: nat, size: nat, pfn: nat)

  predicate Covers(x: Extent, va: nat) {
    x.start <= va < x.start + x.size
  }

  /** The entry maps memory by itself: a present leaf, whether or not the walk judges it bad. */
  predicate IsPresentLeaf(e: Entry, level: Level) {
    e.present && !e.none && (level == 1 || IsHugeLeaf(e, level))
  }

  predicate MapsExtent(e: Entry, level: Level, start: nat, x: Extent) {
    IsPresentLeaf(e, level) && x == Extent(start, Span(level), e.pfn)
  }

  /** What a table that serves the addresses from `start` maps: the union over all entries. */
  ghost predicate HasExtent(t: Table, level: Level, start: nat, x: Extent)
    requires WellFormed(t, level)
    decreases level, 1
  {
    exists i :: 0 <= i < ENTRIES && EntryHasExtent(t.entries[i], level, start + i * Span(level), x)
  }

  ghost predicate EntryHasExtent(e: Entry, level: Level, start: nat, x: Extent)
    requires EntryOk(e, level)
    decreases level, 0
  {
    MapsExtent(e, level, start, x) || (Descends(e, level) && HasExtent(e.next, level - 1, start, x))
  }

  /** The flat view of an address space: the physical address of `va`, if any extent covers it. */
  ghost function FlatMap(t: Table, va: nat): Option<nat>
    requires WellFormed(t, 5)
  {
    if exists x :: HasExtent(t, 5, 0, x) && Covers(x, va) then
      var x :| HasExtent(t, 5, 0, x) && Covers(x, va);
      Some(PaIn(x, va))
    else None
  }

  function PaIn(x: Extent, va: nat): nat
    requires Covers(x, va)
  {
    x.pfn * PAGE_SIZE + (va - x.start)
  }

  lemma SpanStep(level: Level)
    requires level > 1
    ensures Span(level) == ENTRIES * Span(level - 1)
  {
  }

  /** The entry through which a table has an extent. */
  lemma EntryOfExtent(t: Table, level: Level, start: nat, x: Extent) returns (i: nat)
    requires WellFormed(t, level) && HasExtent(t, level, start, x)
    ensures i < ENTRIES == |t.entries| && EntryOk(t.entries[i], level)
    ensures EntryHasExtent(t.entries[i], level, start + i * Span(level), x)
  {
    i :| 0 <= i < ENTRIES && EntryHasExtent(t.entries[i], level, start + i * Span(level), x);
    assert EntryOk(t.entries[i], level);
  }

  lemma {:induction false} ExtentInside(t: Table, level: Level, start: nat, x: Extent)
    requires WellFormed(t, level) && HasExtent(t, level, start, x)
    ensures start <= x.start && x.start + x.size <= start + ENTRIES * Span(level)
    decreases level, 1
  {
    hide Span, WellFormed, HasExtent, EntryHasExtent;
    var i := EntryOfExtent(t, level, start, x);
    MulAtMost(i, ENTRIES, Span(level));
    EntryExtentInside(t.entries[i], level, start + i * Span(level), x);
  }

  lemma {:induction false} EntryExtentInside(e: Entry, level: Level, start: nat, x: Extent)
    requires EntryOk(e, level) && EntryHasExtent(e, level, start, x)
    ensures start <= x.start && x.start + x.size <= start + Span(level)
    decreases level, 0
  {
    if !MapsExtent(e, level, start, x) {
      SpanStep(level);
      ExtentInside(e.next, level - 1, start, x);
    }
  }

  /** Within an aligned table, the entry whose range holds `va` is the one the walk indexes. */
  lemma IndexFromRange(start: nat, level: Level, va: nat, i: nat)
    requires start % (ENTRIES * Span(level)) == 0 && i < ENTRIES
    requires start + i * Span(level) <= va < start + i * Span(level) + Span(level)
    ensures Index(va, level) == i
    ensures (start + i * Span(level)) % Span(level) == 0
  {
    var s := Span(level);
    var q := start / (ENTRIES * s);
    assert start == q * (ENTRIES * s) == (q * ENTRIES) * s by { MulAssoc(q, ENTRIES, s); }
    assert start + i * s == (q * ENTRIES + i) * s;
    DivUnique(va, s, q * ENTRIES + i);
    DivUnique(start + i * s, s, q * ENTRIES + i);
    assert (q * ENTRIES + i) % ENTRIES == i;
  }

  lemma RangeFromIndex(start: nat, level: Level, va: nat)
    requires start % (ENTRIES * Span(level)) == 0
    requires start <= va < start + ENTRIES * Span(level)
    ensures var i := Index(va, level);
            start + i * Span(level) <= va < start + i * Span(level) + Span(level)
  {
    var s := Span(level);
    var i := (va - start) / s;
    assert va - start == i * s + (va - start) % s;
    DivBelow(va - start, s, ENTRIES);
    IndexFromRange(start, level, va, i);
  }

  /** The entry that serves an address, and its level: where following the tables ends. */
  function LastEntry(t: Table, level: Level, va: nat): (r: (Entry, Level))
    requires WellFormed(t, level)
    ensures EntryOk(r.0, r.1) && !Descends(r.0, r.1)
    decreases level
  {
    var e := t.entries[Index(va, level)];
    assert EntryOk(e, level);
    if Descends(e, level) then LastEntry(e.next, level - 1, va) else (e, level)
  }

  lemma {:induction false} WalkEndsAtLast(t: Table, level: Level, va: nat)
    requires WellFormed(t, level)
    ensures var (e, l) := LastEntry(t, level, va);
            Walk(t, level, va).end == EndAt(e, l) && |Walk(t, level, va).steps| == level + 1 - l && l <= level
    decreases level
  {
    var e := t.entries[Index(va, level)];
    assert EntryOk(e, level);
    if Descends(e, level) {
      WalkEndsAtLast(e.next, level - 1, va);
    }
  }

  /** What the entry that serves an address maps it to. */
  function MappedBy(e: Entry, level: Level, va: nat): Option<nat> {
    if IsPresentLeaf(e, level) then Some(e.pfn * PAGE_SIZE + Offset(va, Span(level))) else None
  }

  /** If some extent covers the address, it is that of the entry that serves the address. */
  lemma {:induction false} ExtentOfLast(t: Table, level: Level, start: nat, va: nat, x: Extent)
    requires WellFormed(t, level) && HasExtent(t, level, start, x) && Covers(x, va)
    requires start % (ENTRIES * Span(level)) == 0
    ensures var (e, l) := LastEntry(t, level, va);
            IsPresentLeaf(e, l) && x.pfn == e.pfn && x.size == Span(l) && va - x.start == Offset(va, Span(l))
    decreases level, 1
  {
    hide Span, LastEntry, WellFormed, HasExtent, EntryHasExtent, Index;
    var i := EntryOfExtent(t, level, start, x);
    var e, s := t.entries[i], start + i * Span(level);
    assert s <= x.start && x.start + x.size <= s + Span(level) by {
      EntryExtentInside(e, level, s, x);
    }
    IndexFromRange(start, level, va, i);
    EntryExtentOfLast(e, level, s, va, x);
    LastUnfolds(t, level, va);
  }

  lemma LastUnfolds(t: Table, level: Level, va: nat)
    requires WellFormed(t, level)
    ensures |t.entries| == ENTRIES && EntryOk(t.entries[Index(va, level)], level)
    ensures var e := t.entries[Index(va, level)];
            LastEntry(t, level, va) == if Descends(e, level) then LastEntry(e.next, level - 1, va) else (e, level)
  {
    assert EntryOk(t.entries[Index(va, level)], level);
  }

  lemma {:induction false} EntryExtentOfLast(e: Entry, level: Level, s: nat, va: nat, x: Extent)
    requires EntryOk(e, level) && EntryHasExtent(e, level, s, x) && Covers(x, va)
    requires s % Span(level) == 0
    ensures var (last, l) := if Descends(e, level) then LastEntry(e.next, level - 1, va) else (e, level);
            IsPresentLeaf(last, l) && x.pfn == last.pfn && x.size == Span(l) && va - x.start == Offset(va, Span(l))
    decreases level, 0
  {
    hide Span, LastEntry, WellFormed, HasExtent;
    if MapsExtent(e, level, s, x) {
      DivUnique(va, Span(level), s / Span(level));
    } else {
      SpanStep(level);
      ExtentOfLast(e.next, level - 1, s, va, x);
    }
  }

  /** If the entry that serves the address is a present leaf, its extent covers the address. */
  lemma {:induction false} LastHasExtent(t: Table, level: Level, start: nat, va: nat) returns (x: Extent)
    requires WellFormed(t, level)
    requires start % (ENTRIES * Span(level)) == 0 && start <= va < start + ENTRIES * Span(level)
    requires var (e, l) := LastEntry(t, level, va); IsPresentLeaf(e, l)
    ensures HasExtent(t, level, start, x) && Covers(x, va)
    decreases level
  {
    hide Span, Index, LastEntry, WellFormed;
    var i := Index(va, level);
    LastUnfolds(t, level, va);
    var e, s := t.entries[i], start + i * Span(level);
    RangeFromIndex(start, level, va);
    if Descends(e, level) {
      IndexFromRange(start, level, va, i);
      SpanStep(level);
      x := LastHasExtent(e.next, level - 1, s, va);
    } else {
      x := Extent(s, Span(level), e.pfn);
      assert MapsExtent(e, level, s, x);
    }
    assert EntryHasExtent(t.entries[i], level, start + i * Span(level), x);
  }

  /** No address is mapped twice: two extents that share one are the same. */
  lemma ExtentsDisjoint(t: Table, x: Extent, y: Extent, va: nat)
    requires WellFormed(t, 5) && HasExtent(t, 5, 0, x) && HasExtent(t, 5, 0, y)
    requires Covers(x, va) && Covers(y, va)
    ensures x == y
  {
    ExtentOfLast(t, 5, 0, va, x);
    ExtentOfLast(t, 5, 0, va, y);
  }

  /** The flat map is decided by the entry that serves the address. */
  lemma FlatMapOfLast(t: Table, va: nat)
    requires WellFormed(t, 5) && va < VA_SPACE
    ensures var (e, l) := LastEntry(t, 5, va); FlatMap(t, va) == MappedBy(e, l, va)
  {
    hide LastEntry, WellFormed, HasExtent;
    var (e, l) := LastEntry(t, 5, va);
    if x :| HasExtent(t, 5, 0, x) && Covers(x, va) {
      ExtentOfLast(t, 5, 0, va, x);
      var y :| HasExtent(t, 5, 0, y) && Covers(y, va) && FlatMap(t, va) == Some(PaIn(y, va));
      ExtentsDisjoint(t, x, y, va);
      assert PaIn(x, va) == e.pfn * PAGE_SIZE + Offset(va, Span(l));
      assert FlatMap(t, va) == Some(PaIn(x, va));
      assert MappedBy(e, l, va) == Some(PaIn(x, va));
    } else if IsPresentLeaf(e, l) {
      var x := LastHasExtent(t, 5, 0, va);
      assert false;
    }
  }

  /** What a walk found: nothing, or an address. */
  function FoundPa(end: End, va: nat): Option<nat> {
    if end.Frame? then Some(Pa(end, va)) else None
  }

  /** The entry is taken for what it is: a huge leaf is present exactly when it is not bad, and a
      PTE that is not none is present. */
  predicate IsReadable(e: Entry, level: Level) {
    && (IsHugeLeaf(e, level) ==> e.present == !e.bad)
    && (level == 1 && !e.none ==> e.present)
  }

  /** The walk refines the flat map at an address, for every table tree, if and only if the entry
      that serves the address is readable. */
  lemma WalkRefinesFlatMap(t: Table, va: nat)
    requires WellFormed(t, 5) && va < VA_SPACE
    ensures var (e, l) := LastEntry(t, 5, va);
            FoundPa(Walk(t, 5, va).end, va) == FlatMap(t, va) <==> IsReadable(e, l)
  {
    hide Walk, WellFormed, FlatMap, LastEntry;
    WalkEndsAtLast(t, 5, va);
    FlatMapOfLast(t, va);
  }

  /** In the number the query reports: the flat map's address, or 0 when nothing is mapped. */
  lemma ReportedPa(t: Table, va: nat)
    requires WellFormed(t, 5) && va < VA_SPACE
    requires var (e, l) := LastEntry(t, 5, va); IsReadable(e, l)
    ensures Pa(Walk(t, 5, va).end, va) == if FlatMap(t, va).Some? then FlatMap(t, va).value else 0
  {
    hide Walk, WellFormed, FlatMap, LastEntry;
    WalkRefinesFlatMap(t, va);
  }

  // ---------------------------------------------------------------------------------------
  // Trees at which the walk and the flat map differ
  // ---------------------------------------------------------------------------------------

  const NO_TABLE: Table := Table(0, [])

  /** Every path from `level` down ends in the entry `last` at level `end`. */
  function Comb(level: Level, end: Level, last: Entry): Table
    requires end <= level
    decreases level
  {
    Table(1, seq(ENTRIES, i => if level == end then last else Pointer(Comb(level - 1, end, last))))
  }

  function Pointer(t: Table): Entry {
    Entry(0, false, false, false, true, 0, t)
  }

  lemma {:induction false} CombEndsIn(level: Level, end: Level, last: Entry, va: nat)
    requires end <= level && EntryOk(last, end) && !Descends(last, end)
    ensures WellFormed(Comb(level, end, last), level)
    ensures LastEntry(Comb(level, end, last), level, va) == (last, end)
    decreases level
  {
    var t := Comb(level, end, last);
    if level > end {
      CombEndsIn(level - 1, end, last, va);
    }
    forall i | 0 <= i < ENTRIES
      ensures EntryOk(t.entries[i], level)
    {
    }
  }

  /** A swapped-out page: neither none nor present. The walk reports an address for it. */
  lemma SwappedPteWitness() returns (t: Table)
    ensures WellFormed(t, 5) && FlatMap(t, 0) == None && FoundPa(Walk(t, 5, 0).end, 0) == Some(0x5000)
  {
    hide Walk, WellFormed, FlatMap, LastEntry, Comb;
    var swapped := Entry(1, false, false, false, false, 5, NO_TABLE);
    t := Comb(5, 1, swapped);
    CombEndsIn(5, 1, swapped, 0);
    FlatMapOfLast(t, 0);
    WalkEndsAtLast(t, 5, 0);
  }

  /** A present huge leaf that is judged bad. The walk reports nothing for it. */
  lemma BadLeafWitness() returns (t: Table)
    ensures WellFormed(t, 5) && FlatMap(t, 0) == Some(0x20_0000) && FoundPa(Walk(t, 5, 0).end, 0) == None
  {
    hide Walk, WellFormed, FlatMap, LastEntry, Comb;
    var bad := Entry(1, false, true, true, true, 512, NO_TABLE);
    t := Comb(5, 2, bad);
    CombEndsIn(5, 2, bad, 0);
    FlatMapOfLast(t, 0);
    WalkEndsAtLast(t, 5, 0);
  }
}
