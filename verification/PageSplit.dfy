/** Splitting a huge page: the leaf is replaced by a table that maps the same frames in smaller
    pages. Translation must not change, only the number of levels walked. */
module PageSplit {

  import opened Wrappers
  import opened PageWalk

  /** Entry i of the table that replaces a huge leaf. */
  function SplitEntry(e: Entry, level: Level, i: nat): Entry
    requires IsHuge(e, level)
  {
    var pfn := e.pfn + i * (Span(level - 1) / PAGE_SIZE);
    Entry(pfn, false, false, true, e.present, pfn, e.next)
  }

  /** The entry that points to the replacement table at `base`. */
  function SplitLeaf(e: Entry, level: Level, base: nat): (r: Entry)
    requires IsHuge(e, level)
  {
    Entry(base, false, false, false, true, 0,
          Table(base, seq(ENTRIES, i requires 0 <= i < ENTRIES => SplitEntry(e, level, i))))
  }

  /** Splits the huge leaf that serves `va`, if there is one. */
  function Split(t: Table, level: Level, va: nat, base: nat): (r: Table)
    requires WellFormed(t, level)
    ensures r.base == t.base && |r.entries| == |t.entries|
    decreases level
  {
    var i := Index(va, level);
    t.(entries := t.entries[i := SplitAt(t.entries[i], level, va, base)])
  }

  function SplitAt(e: Entry, level: Level, va: nat, base: nat): Entry
    requires EntryOk(e, level)
    decreases level, 0
  {
    if IsHuge(e, level) then SplitLeaf(e, level, base)
    else if Descends(e, level) then e.(next := Split(e.next, level - 1, va, base))
    else e
  }

  // ---------------------------------------------------------------------------------------
  // The result is a table tree
  // ---------------------------------------------------------------------------------------

  lemma SplitEntryOk(e: Entry, level: Level, i: nat)
    requires IsHuge(e, level) && EntryOk(e, level) && i < ENTRIES
    ensures EntryOk(SplitEntry(e, level, i), level - 1)
  {
  }

  lemma SplitLeafOk(e: Entry, level: Level, base: nat)
    requires IsHuge(e, level) && EntryOk(e, level) && base > 0
    ensures Descends(SplitLeaf(e, level, base), level) && WellFormed(SplitLeaf(e, level, base).next, level - 1)
    ensures EntryOk(SplitLeaf(e, level, base), level)
  {
    var t := SplitLeaf(e, level, base).next;
    forall i | 0 <= i < ENTRIES
      ensures EntryOk(t.entries[i], level - 1)
    {
      SplitEntryOk(e, level, i);
    }
  }

  lemma {:induction false} SplitWellFormed(t: Table, level: Level, va: nat, base: nat)
    requires WellFormed(t, level) && base > 0
    ensures WellFormed(Split(t, level, va, base), level)
    decreases level, 1
  {
    var r := Split(t, level, va, base);
    forall i | 0 <= i < ENTRIES
      ensures EntryOk(r.entries[i], level)
    {
      assert EntryOk(t.entries[i], level);
      if i == Index(va, level) {
        SplitAtOk(t.entries[i], level, va, base);
      }
    }
  }

  lemma {:induction false} SplitAtOk(e: Entry, level: Level, va: nat, base: nat)
    requires EntryOk(e, level) && base > 0
    ensures EntryOk(SplitAt(e, level, va, base), level)
    ensures Descends(e, level) ==> Descends(SplitAt(e, level, va, base), level)
    decreases level, 0
  {
    if IsHuge(e, level) {
      SplitLeafOk(e, level, base);
    } else if Descends(e, level) {
      SplitWellFormed(e.next, level - 1, va, base);
    }
  }

  // ---------------------------------------------------------------------------------------
  // Translation is preserved
  // ---------------------------------------------------------------------------------------

  /** An offset in a huge page: which of the smaller pages, and the offset in that page. */
  lemma PmdInParts(va: nat)
    ensures va % 0x20_0000 == va / 0x1000 % 512 * 0x1000 + va % 0x1000
  {
  }

  lemma PudInParts(va: nat)
    ensures va % 0x4000_0000 == va / 0x20_0000 % 512 * 0x20_0000 + va % 0x20_0000
  {
  }

  /** The frame of the small page plus the shorter offset is the address in the huge page. */
  lemma SplitFrame(e: Entry, level: Level, va: nat)
    requires IsHuge(e, level)
    ensures PaAt(SplitEntry(e, level, Index(va, level - 1)), level - 1, va) == PaAt(e, level, va)
  {
    if level == 2 {
      PmdInParts(va);
    } else {
      PudInParts(va);
    }
  }

  lemma PaAtIsPa(e: Entry, level: Level, va: nat)
    ensures Pa(EndAt(e, level), va) == PaAt(e, level, va)
  {
  }

  /** Both addresses take the same entries at the levels from `from` down to `end`. */
  predicate SamePath(va: nat, wa: nat, from: Level, end: Level) {
    forall l: Level :: end <= l <= from ==> Index(va, l) == Index(wa, l)
  }

  /** `wa` lies in the huge page that serves `va`. */
  predicate InHugePage(t: Table, level: Level, va: nat, wa: nat)
    requires WellFormed(t, level)
  {
    var (e, l) := LastEntry(t, level, va);
    IsHuge(e, l) && SamePath(va, wa, level, l)
  }

  lemma SamePathStep(va: nat, wa: nat, level: Level, end: Level)
    requires end < level
    ensures SamePath(va, wa, level, end) <==> Index(va, level) == Index(wa, level) && SamePath(va, wa, level - 1, end)
  {
  }

  lemma SamePathLast(va: nat, wa: nat, level: Level)
    ensures SamePath(va, wa, level, level) <==> Index(va, level) == Index(wa, level)
  {
  }

  lemma {:induction false} LastBelow(t: Table, level: Level, va: nat)
    requires WellFormed(t, level)
    ensures LastEntry(t, level, va).1 <= level
    decreases level
  {
    LastUnfolds(t, level, va);
    var e := t.entries[Index(va, level)];
    if Descends(e, level) {
      LastBelow(e.next, level - 1, va);
    }
  }

  lemma InHugePageBelow(t: Table, level: Level, va: nat, wa: nat)
    requires WellFormed(t, level) && |t.entries| == ENTRIES && EntryOk(t.entries[Index(va, level)], level)
    requires Descends(t.entries[Index(va, level)], level)
    ensures var next := t.entries[Index(va, level)].next;
            InHugePage(t, level, va, wa) <==> Index(va, level) == Index(wa, level) && InHugePage(next, level - 1, va, wa)
  {
    hide WellFormed, Index, SamePath, LastEntry;
    var e := t.entries[Index(va, level)];
    LastUnfolds(t, level, va);
    LastBelow(e.next, level - 1, va);
    SamePathStep(va, wa, level, LastEntry(t, level, va).1);
  }

  lemma InHugePageHere(t: Table, level: Level, va: nat, wa: nat)
    requires WellFormed(t, level) && |t.entries| == ENTRIES && !Descends(t.entries[Index(va, level)], level)
    ensures InHugePage(t, level, va, wa) <==>
            IsHuge(t.entries[Index(va, level)], level) && Index(va, level) == Index(wa, level)
  {
    hide WellFormed, Index, SamePath, LastEntry;
    LastUnfolds(t, level, va);
    SamePathLast(va, wa, level);
  }

  lemma IndexInside(va: nat, wa: nat, level: Level)
    ensures Index(va, level) < ENTRIES && Index(wa, level) < ENTRIES
  {
  }

  lemma SplitUnfolds(t: Table, level: Level, va: nat, base: nat)
    requires WellFormed(t, level)
    ensures var r, i := Split(t, level, va, base), Index(va, level);
      && |r.entries| == |t.entries| == ENTRIES
      && (forall j: nat :: j < ENTRIES && j != i ==> r.entries[j] == t.entries[j])
      && var e := t.entries[i];
      && (IsHuge(e, level) ==> level > 1 && !Descends(e, level) && r.entries[i] == SplitLeaf(e, level, base))
      && (Descends(e, level) ==> level > 1 && WellFormed(e.next, level - 1) && Descends(r.entries[i], level))
      && (Descends(e, level) ==> r.entries[i].next == Split(e.next, level - 1, va, base))
      && (!Descends(e, level) && !IsHuge(e, level) ==> r.entries[i] == e)
  {
    hide WellFormed, Index, SplitLeaf;
    LastUnfolds(t, level, va);
    assert EntryOk(t.entries[Index(va, level)], level);
  }

  /** After a split, an address in the split page is served by the entry that its index one level
      further down selects; every other address by the same entry as before. */
  ghost predicate ServedAfterSplit(t: Table, level: Level, va: nat, base: nat, wa: nat)
    requires WellFormed(t, level) && WellFormed(Split(t, level, va, base), level)
  {
    var served, now := LastEntry(t, level, wa), LastEntry(Split(t, level, va, base), level, wa);
    if InHugePage(t, level, va, wa) then
      var (e, l) := LastEntry(t, level, va);
      served == (e, l) && now == (SplitEntry(e, l, Index(wa, l - 1)), l - 1)
    else now == served
  }

  /** The split page, or none, is served at this level. */
  lemma SplitLastHere(t: Table, level: Level, va: nat, base: nat, wa: nat)
    requires WellFormed(t, level) && base > 0 && WellFormed(Split(t, level, va, base), level)
    requires |t.entries| == ENTRIES && !Descends(t.entries[Index(va, level)], level)
    ensures ServedAfterSplit(t, level, va, base, wa)
  {
    hide LastEntry, WellFormed, Index, Span, SamePath, InHugePage, SplitEntry, SplitLeaf, Split, Descends, IsHuge;
    var r := Split(t, level, va, base);
    SplitUnfolds(t, level, va, base);
    LastUnfolds(t, level, va);
    LastUnfolds(t, level, wa);
    LastUnfolds(r, level, wa);
    InHugePageHere(t, level, va, wa);
    var e := t.entries[Index(va, level)];
    if Index(va, level) == Index(wa, level) && IsHuge(e, level) {
      SplitLeafLast(e, level, base, wa);
    }
  }

  /** The split page lies in the table below, and `wa` goes the same way. */
  lemma SplitLastBelow(t: Table, level: Level, va: nat, base: nat, wa: nat)
    requires WellFormed(t, level) && base > 0 && WellFormed(Split(t, level, va, base), level)
    requires |t.entries| == ENTRIES && Descends(t.entries[Index(va, level)], level) && Index(va, level) == Index(wa, level)
    requires var next := t.entries[Index(va, level)].next;
             level > 1 && WellFormed(next, level - 1) && WellFormed(Split(next, level - 1, va, base), level - 1)
             && ServedAfterSplit(next, level - 1, va, base, wa)
    ensures ServedAfterSplit(t, level, va, base, wa)
  {
    hide LastEntry, WellFormed, Index, Span, SamePath, InHugePage, SplitEntry, SplitLeaf, Split, Descends, IsHuge;
    var r := Split(t, level, va, base);
    SplitUnfolds(t, level, va, base);
    LastUnfolds(t, level, va);
    LastUnfolds(t, level, wa);
    LastUnfolds(r, level, wa);
    InHugePageBelow(t, level, va, wa);
  }

  /** `wa` goes another way. */
  lemma SplitLastElsewhere(t: Table, level: Level, va: nat, base: nat, wa: nat)
    requires WellFormed(t, level) && base > 0 && WellFormed(Split(t, level, va, base), level)
    requires |t.entries| == ENTRIES && Descends(t.entries[Index(va, level)], level) && Index(va, level) != Index(wa, level)
    ensures ServedAfterSplit(t, level, va, base, wa)
  {
    hide LastEntry, WellFormed, Index, Span, SamePath, InHugePage, SplitEntry, SplitLeaf, Split, Descends, IsHuge;
    var r := Split(t, level, va, base);
    IndexInside(va, wa, level);
    SplitUnfolds(t, level, va, base);
    LastUnfolds(t, level, va);
    LastUnfolds(t, level, wa);
    LastUnfolds(r, level, wa);
    InHugePageBelow(t, level, va, wa);
  }

  lemma {:induction false} SplitLast(t: Table, level: Level, va: nat, base: nat, wa: nat)
    requires WellFormed(t, level) && base > 0
    ensures WellFormed(Split(t, level, va, base), level) && ServedAfterSplit(t, level, va, base, wa)
    decreases level
  {
    hide *;
    SplitWellFormed(t, level, va, base);
    LastUnfolds(t, level, va);
    SplitUnfolds(t, level, va, base);
    if !Descends(t.entries[Index(va, level)], level) {
      SplitLastHere(t, level, va, base, wa);
    } else if Index(va, level) != Index(wa, level) {
      SplitLastElsewhere(t, level, va, base, wa);
    } else {
      SplitLast(t.entries[Index(va, level)].next, level - 1, va, base, wa);
      SplitLastBelow(t, level, va, base, wa);
    }
  }

  lemma SplitLeafLast(e: Entry, level: Level, base: nat, wa: nat)
    requires IsHuge(e, level) && EntryOk(e, level) && base > 0
    ensures var r := SplitLeaf(e, level, base);
            Descends(r, level) && WellFormed(r.next, level - 1)
            && LastEntry(r.next, level - 1, wa) == (SplitEntry(e, level, Index(wa, level - 1)), level - 1)
  {
    hide LastEntry, WellFormed, Index;
    SplitLeafOk(e, level, base);
    LastUnfolds(SplitLeaf(e, level, base).next, level - 1, wa);
  }

  /** A small page of a split translates as the huge page did, and is mapped if that was. */
  lemma SplitEntryTranslates(e: Entry, level: Level, wa: nat)
    requires IsHuge(e, level)
    ensures var small := SplitEntry(e, level, Index(wa, level - 1));
            && Pa(EndAt(small, level - 1), wa) == Pa(EndAt(e, level), wa)
            && FoundPa(EndAt(small, level - 1), wa) == FoundPa(EndAt(e, level), wa)
            && MappedBy(small, level - 1, wa) == MappedBy(e, level, wa)
  {
    hide Index, Pa;
    var small := SplitEntry(e, level, Index(wa, level - 1));
    SplitFrame(e, level, wa);
    PaAtIsPa(e, level, wa);
    PaAtIsPa(small, level - 1, wa);
    assert MappedBy(small, level - 1, wa) == if e.present then Some(PaAt(small, level - 1, wa)) else None;
    assert MappedBy(e, level, wa) == if e.present then Some(PaAt(e, level, wa)) else None;
  }

  /** Splitting the huge page that serves `va` changes no translation in the whole tree, neither
      what the walk finds nor what the entries map, and makes the walk one level longer exactly
      for the addresses inside that page. */
  lemma SplitKeepsTranslation(t: Table, level: Level, va: nat, base: nat, wa: nat)
    requires WellFormed(t, level) && base > 0
    ensures WellFormed(Split(t, level, va, base), level)
    ensures var before, after := Walk(t, level, wa), Walk(Split(t, level, va, base), level, wa);
            Pa(after.end, wa) == Pa(before.end, wa)
            && FoundPa(after.end, wa) == FoundPa(before.end, wa)
            && |after.steps| == |before.steps| + (if InHugePage(t, level, va, wa) then 1 else 0)
    ensures var (e, l) := LastEntry(t, level, wa); var (e', l') := LastEntry(Split(t, level, va, base), level, wa);
            MappedBy(e', l', wa) == MappedBy(e, l, wa)
  {
    hide Walk, WellFormed, LastEntry, SamePath, Index, Pa, EndAt, FoundPa, MappedBy, Split, SplitEntry;
    var r := Split(t, level, va, base);
    SplitLast(t, level, va, base, wa);
    WalkEndsAtLast(t, level, wa);
    WalkEndsAtLast(r, level, wa);
    if InHugePage(t, level, va, wa) {
      var (e, l) := LastEntry(t, level, wa);
      SplitEntryTranslates(e, l, wa);
    }
  }

  /** In the whole address space, two addresses share the path down to a level exactly when
      they lie in the same page of that level's size. */
  lemma {:induction false} SamePathIsSamePage(va: nat, wa: nat, end: Level)
    requires va < VA_SPACE && wa < VA_SPACE
    ensures SamePath(va, wa, 5, end) <==> va / Span(end) == wa / Span(end)
    decreases 5 - end
  {
    if end == 5 {
      SamePathLast(va, wa, 5);
    } else {
      SamePathIsSamePage(va, wa, end + 1);
      PageOfIndex(va, end);
      PageOfIndex(wa, end);
      assert SamePath(va, wa, 5, end) <==> SamePath(va, wa, 5, end + 1) && Index(va, end) == Index(wa, end);
    }
  }

  lemma PageOfIndex(va: nat, level: Level)
    requires level < 5
    ensures va / Span(level) == va / Span(level + 1) * ENTRIES + Index(va, level)
  {
  }

  /** From the top: the walk gets longer exactly inside the page that was split. */
  lemma SplitLengthens(t: Table, va: nat, base: nat, wa: nat)
    requires WellFormed(t, 5) && base > 0 && va < VA_SPACE && wa < VA_SPACE
    ensures WellFormed(Split(t, 5, va, base), 5)
    ensures var end := Walk(t, 5, va).end;
            var split := end.Frame? && end.span > PAGE_SIZE && wa / end.span == va / end.span;
            |Walk(Split(t, 5, va, base), 5, wa).steps| == |Walk(t, 5, wa).steps| + (if split then 1 else 0)
  {
    hide Walk, WellFormed, SamePath, LastEntry, Split;
    SplitKeepsTranslation(t, 5, va, base, wa);
    WalkEndsAtLast(t, 5, va);
    SamePathIsSamePage(va, wa, LastEntry(t, 5, va).1);
  }

  /** The flat map is the same before and after. */
  lemma SplitKeepsFlatMap(t: Table, va: nat, base: nat, wa: nat)
    requires WellFormed(t, 5) && base > 0 && wa < VA_SPACE
    ensures WellFormed(Split(t, 5, va, base), 5)
    ensures FlatMap(Split(t, 5, va, base), wa) == FlatMap(t, wa)
  {
    hide *;
    SplitKeepsTranslation(t, 5, va, base, wa);
    FlatMapOfLast(t, wa);
    FlatMapOfLast(Split(t, 5, va, base), wa);
  }
}
