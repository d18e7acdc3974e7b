/** The memory device driver: a list of open files, each with a list of mapped regions, a
    counter of mappings, and the page references the driver owns. Each method is one driver
    entry point run without interference; MemdevRace interleaves them. */
module MemdevDriver {

  import opened Wrappers
  import opened Sums

  const PAGE_SIZE: nat := 4096

  /** A page reference, named by the allocation that created it. */
  type Page = nat

  datatype Region = Region(pid: int, userVa: nat, size: nat, pages: seq<Page>)

  datatype File = File(id: nat, regions: seq<Region>)

  predicate Matches(r: Region, pid: int, va: nat) {
    r.pid == pid && r.userVa == va
  }

  function Without<T>(s: seq<T>, i: nat): seq<T>
    requires i < |s|
  {
    s[..i] + s[i + 1..]
  }

  // ---------------------------------------------------------------------------------------
  // vma_close
  // ---------------------------------------------------------------------------------------

  /** Position of the first matching region at or after `from`, or the length of the list. */
  function IndexOf(rs: seq<Region>, pid: int, va: nat, from: nat): (i: nat)
    requires from <= |rs|
    ensures from <= i <= |rs|
    ensures i < |rs| ==> Matches(rs[i], pid, va)
    decreases |rs| - from
  {
    if from == |rs| || Matches(rs[from], pid, va) then from else IndexOf(rs, pid, va, from + 1)
  }

  /** The first file at or after `from` that has a matching region, or the number of files. */
  function FileOf(files: seq<File>, pid: int, va: nat, from: nat): (i: nat)
    requires from <= |files|
    ensures from <= i <= |files|
    ensures i < |files| ==> IndexOf(files[i].regions, pid, va, 0) < |files[i].regions|
    decreases |files| - from
  {
    if from == |files| || IndexOf(files[from].regions, pid, va, 0) < |files[from].regions| then from
    else FileOf(files, pid, va, from + 1)
  }

  function Found(files: seq<File>, pid: int, va: nat): Option<Region> {
    var i := FileOf(files, pid, va, 0);
    if i == |files| then None
    else Some(files[i].regions[IndexOf(files[i].regions, pid, va, 0)])
  }

  function Closed(files: seq<File>, pid: int, va: nat): seq<File> {
    var i := FileOf(files, pid, va, 0);
    if i == |files| then files
    else
      var rs := files[i].regions;
      files[i := files[i].(regions := Without(rs, IndexOf(rs, pid, va, 0)))]
  }

  /** What vma_close is for: drop the matching regions, keep all others in their order. */
  function Unmatched(rs: seq<Region>, pid: int, va: nat): seq<Region> {
    if rs == [] then []
    else if Matches(rs[0], pid, va) then Unmatched(rs[1..], pid, va)
    else [rs[0]] + Unmatched(rs[1..], pid, va)
  }

  function AllUnmatched(files: seq<File>, pid: int, va: nat): seq<File> {
    if files == [] then []
    else [files[0].(regions := Unmatched(files[0].regions, pid, va))] + AllUnmatched(files[1..], pid, va)
  }

  function MatchCount(pid: int, va: nat): Region -> nat {
    (r: Region) => if Matches(r, pid, va) then 1 else 0
  }

  function FileMatchCount(pid: int, va: nat): File -> nat {
    (f: File) => Sum(f.regions, MatchCount(pid, va))
  }

  lemma {:induction false} UnmatchedLength(rs: seq<Region>, pid: int, va: nat)
    ensures |Unmatched(rs, pid, va)| + Sum(rs, MatchCount(pid, va)) == |rs|
    ensures Sum(rs, MatchCount(pid, va)) == 0 ==> Unmatched(rs, pid, va) == rs
  {
    if rs != [] {
      UnmatchedLength(rs[1..], pid, va);
    }
  }

  lemma {:induction false} IndexOfTail(rs: seq<Region>, pid: int, va: nat, from: nat)
    requires 0 < from <= |rs|
    ensures IndexOf(rs, pid, va, from) == IndexOf(rs[1..], pid, va, from - 1) + 1
    decreases |rs| - from
  {
    if from < |rs| && !Matches(rs[from], pid, va) {
      IndexOfTail(rs, pid, va, from + 1);
    }
  }

  /** Unlinking the first match is the same as dropping every match exactly when there is one. */
  lemma {:induction false} WithoutFirstMatch(rs: seq<Region>, pid: int, va: nat)
    ensures var i := IndexOf(rs, pid, va, 0);
            if i == |rs| then Sum(rs, MatchCount(pid, va)) == 0
            else Sum(rs, MatchCount(pid, va)) >= 1
                 && (Without(rs, i) == Unmatched(rs, pid, va) <==> Sum(rs, MatchCount(pid, va)) == 1)
  {
    if rs != [] {
      if Matches(rs[0], pid, va) {
        UnmatchedLength(rs[1..], pid, va);
        assert Without(rs, 0) == rs[1..];
      } else {
        IndexOfTail(rs, pid, va, 1);
        WithoutFirstMatch(rs[1..], pid, va);
        var i := IndexOf(rs[1..], pid, va, 0);
        if i < |rs[1..]| {
          SameHead(rs, i, Unmatched(rs[1..], pid, va));
        }
      }
    }
  }

  lemma SameHead(rs: seq<Region>, i: nat, tail: seq<Region>)
    requires i + 1 < |rs|
    ensures Without(rs, i + 1) == [rs[0]] + tail <==> Without(rs[1..], i) == tail
  {
    assert Without(rs, i + 1) == [rs[0]] + Without(rs[1..], i);
    assert ([rs[0]] + tail)[1..] == tail && Without(rs, i + 1)[1..] == Without(rs[1..], i);
  }

  lemma {:induction false} FileOfTail(files: seq<File>, pid: int, va: nat, from: nat)
    requires 0 < from <= |files|
    ensures FileOf(files, pid, va, from) == FileOf(files[1..], pid, va, from - 1) + 1
    decreases |files| - from
  {
    if from < |files| && IndexOf(files[from].regions, pid, va, 0) == |files[from].regions| {
      FileOfTail(files, pid, va, from + 1);
    }
  }

  lemma {:induction false} AllUnmatchedWhenNone(files: seq<File>, pid: int, va: nat)
    ensures |AllUnmatched(files, pid, va)| == |files|
    ensures AllUnmatched(files, pid, va) == files <==> Sum(files, FileMatchCount(pid, va)) == 0
  {
    if files != [] {
      AllUnmatchedWhenNone(files[1..], pid, va);
      UnmatchedLength(files[0].regions, pid, va);
      var u := AllUnmatched(files, pid, va);
      assert u[0] == files[0].(regions := Unmatched(files[0].regions, pid, va));
      assert u[1..] == AllUnmatched(files[1..], pid, va);
      assert u == files <==> u[0] == files[0] && u[1..] == files[1..];
    }
  }

  lemma ClosedHeadTail(files: seq<File>, pid: int, va: nat)
    requires files != []
    ensures var rs := files[0].regions; var i := IndexOf(rs, pid, va, 0);
            Closed(files, pid, va) ==
              if i < |rs| then [files[0].(regions := Without(rs, i))] + files[1..]
              else [files[0]] + Closed(files[1..], pid, va)
  {
    if IndexOf(files[0].regions, pid, va, 0) == |files[0].regions| {
      FileOfTail(files, pid, va, 1);
    }
  }

  /** Wherever the region sits in the nested lists, vma_close removes precisely the regions of
      this process and address, if and only if there is at most one. */
  lemma {:induction false} ClosedIsExact(files: seq<File>, pid: int, va: nat)
    ensures Closed(files, pid, va) == AllUnmatched(files, pid, va)
        <==> Sum(files, FileMatchCount(pid, va)) <= 1
  {
    if files != [] {
      var rs, rest := files[0].regions, files[1..];
      var i := IndexOf(rs, pid, va, 0);
      ClosedHeadTail(files, pid, va);
      WithoutFirstMatch(rs, pid, va);
      UnmatchedLength(rs, pid, va);
      AllUnmatchedWhenNone(rest, pid, va);
      ClosedIsExact(rest, pid, va);
      var c, u := Closed(files, pid, va), AllUnmatched(files, pid, va);
      assert u[0] == files[0].(regions := Unmatched(rs, pid, va)) && u[1..] == AllUnmatched(rest, pid, va);
      assert c == u <==> c[0] == u[0] && c[1..] == u[1..];
    }
  }

  // ---------------------------------------------------------------------------------------
  // What is listed
  // ---------------------------------------------------------------------------------------

  function RegionCount(f: File): nat {
    |f.regions|
  }

  function Listed(files: seq<File>): nat {
    Sum(files, RegionCount)
  }

  function Times(pages: seq<Page>, p: Page): nat {
    multiset(pages)[p]
  }

  function RegionHolds(p: Page): Region -> nat {
    (r: Region) => Times(r.pages, p)
  }

  function FileHolds(p: Page): File -> nat {
    (f: File) => Sum(f.regions, RegionHolds(p))
  }

  lemma {:induction false} SumWithout<T>(s: seq<T>, f: T -> nat, i: nat)
    requires i < |s|
    ensures Sum(Without(s, i), f) + f(s[i]) == Sum(s, f)
  {
    if i == 0 {
      assert Without(s, 0) == s[1..];
    } else {
      assert Without(s, i)[1..] == Without(s[1..], i - 1);
      SumWithout(s[1..], f, i - 1);
    }
  }

  /** Unlinking region j of file i takes exactly that region's pages off the lists. */
  function Unlink(files: seq<File>, i: nat, j: nat): seq<File>
    requires i < |files| && j < |files[i].regions|
  {
    files[i := files[i].(regions := Without(files[i].regions, j))]
  }

  lemma UnlinkAccounts(files: seq<File>, i: nat, j: nat, p: Page)
    requires i < |files| && j < |files[i].regions|
    ensures Listed(Unlink(files, i, j)) + 1 == Listed(files)
    ensures Sum(Unlink(files, i, j), FileHolds(p)) + Times(files[i].regions[j].pages, p) == Sum(files, FileHolds(p))
  {
    var f := files[i].(regions := Without(files[i].regions, j));
    SumUpdate(files, RegionCount, i, f);
    SumUpdate(files, FileHolds(p), i, f);
    SumWithout(files[i].regions, RegionHolds(p), j);
  }

  function Link(files: seq<File>, i: nat, r: Region): seq<File>
    requires i < |files|
  {
    files[i := files[i].(regions := [r] + files[i].regions)]
  }

  lemma LinkAccounts(files: seq<File>, i: nat, r: Region, p: Page)
    requires i < |files|
    ensures Listed(Link(files, i, r)) == Listed(files) + 1
    ensures Sum(Link(files, i, r), FileHolds(p)) == Sum(files, FileHolds(p)) + Times(r.pages, p)
  {
    var f := files[i].(regions := [r] + files[i].regions);
    SumUpdate(files, RegionCount, i, f);
    SumUpdate(files, FileHolds(p), i, f);
    assert f.regions[1..] == files[i].regions;
  }

  /** Linking a region changes its own file only, where the region comes first. */
  lemma LinkedThere(files: seq<File>, i: nat, r: Region)
    requires i < |files|
    ensures var linked := Link(files, i, r);
      && |linked| == |files| && linked[i].id == files[i].id
      && linked[i].regions != [] && linked[i].regions[0] == r && linked[i].regions[1..] == files[i].regions
      && forall j :: 0 <= j < |files| && j != i ==> linked[j] == files[j]
  {
  }

  /** vma_close undoes mmap: if no listed region has the process and address of the new one, it is
      found in the file it was mapped from, and closing it restores the lists. */
  lemma CloseUndoesLink(files: seq<File>, i: nat, r: Region)
    requires i < |files| && Found(files, r.pid, r.userVa) == None
    ensures var linked := Link(files, i, r);
            FileOf(linked, r.pid, r.userVa, 0) == i
            && Found(linked, r.pid, r.userVa) == Some(r) && Closed(linked, r.pid, r.userVa) == files
  {
    var linked := Link(files, i, r);
    FileOfLinked(files, i, r, 0);
    assert Without(linked[i].regions, 0) == files[i].regions;
    assert linked[i := files[i]] == files;
  }

  lemma {:induction false} FileOfLinked(files: seq<File>, i: nat, r: Region, from: nat)
    requires i < |files| && from <= i && FileOf(files, r.pid, r.userVa, from) == |files|
    ensures FileOf(Link(files, i, r), r.pid, r.userVa, from) == i
    decreases i - from
  {
    if from < i {
      FileOfLinked(files, i, r, from + 1);
    }
  }

  /** Releasing a file frees what was mapped from it and nothing else. */
  lemma ReleaseAfterLink(files: seq<File>, i: nat, r: Region)
    requires i < |files|
    ensures PagesOf(Link(files, i, r)[i].regions) == r.pages + PagesOf(files[i].regions)
    ensures Without(Link(files, i, r), i) == Without(files, i)
  {
    LinkedThere(files, i, r);
  }

  /** Pages freed when a list of regions is freed from the front. */
  function PagesOf(rs: seq<Region>): seq<Page> {
    if rs == [] then [] else rs[0].pages + PagesOf(rs[1..])
  }

  function PagesOfFiles(files: seq<File>): seq<Page> {
    if files == [] then [] else PagesOf(files[0].regions) + PagesOfFiles(files[1..])
  }

  function Reversed(s: seq<Page>): seq<Page> {
    if s == [] then [] else Reversed(s[1..]) + [s[0]]
  }

  lemma {:induction false} ReversedTimes(s: seq<Page>, p: Page)
    ensures Times(Reversed(s), p) == Times(s, p)
  {
    if s != [] {
      ReversedTimes(s[1..], p);
      assert s == [s[0]] + s[1..];
    }
  }

  lemma {:induction false} ReversedAt(s: seq<Page>, k: nat)
    requires k < |s|
    ensures |Reversed(s)| == |s| && Reversed(s)[k] == s[|s| - 1 - k]
  {
    if |s| > 1 {
      ReversedAt(s[1..], if k < |s| - 1 then k else 0);
    }
  }

  /** Freeing pages in reverse frees each as often as it is listed. */
  lemma FreedReversed(freed: seq<Page>, pages: seq<Page>)
    ensures forall p: Page :: Times(freed + Reversed(pages), p) == Times(freed, p) + Times(pages, p)
  {
    forall p: Page
      ensures Times(freed + Reversed(pages), p) == Times(freed, p) + Times(pages, p)
    {
      ReversedTimes(pages, p);
    }
  }

  lemma {:induction false} PagesOfTimes(rs: seq<Region>, p: Page)
    ensures Times(PagesOf(rs), p) == Sum(rs, RegionHolds(p))
  {
    if rs != [] {
      PagesOfTimes(rs[1..], p);
    }
  }

  lemma {:induction false} PagesOfFilesTimes(files: seq<File>, p: Page)
    ensures Times(PagesOfFiles(files), p) == Sum(files, FileHolds(p))
  {
    if files != [] {
      PagesOfTimes(files[0].regions, p);
      PagesOfFilesTimes(files[1..], p);
    }
  }

  // ---------------------------------------------------------------------------------------
  // The driver
  // ---------------------------------------------------------------------------------------

  datatype MmapResult = Ok | InvalidSize | NoMemory | MapFailed(error: int)

  predicate UniqueIds(files: seq<File>) {
    forall i, j :: 0 <= i < j < |files| ==> files[i].id != files[j].id
  }

  predicate HasFile(files: seq<File>, id: nat) {
    exists i :: 0 <= i < |files| && files[i].id == id
  }

  /** A newly opened file lists nothing, and ids stay unique exactly when its id is new. */
  lemma OpenAccounts(files: seq<File>, id: nat)
    ensures var more := [File(id, [])] + files;
      && Listed(more) == Listed(files)
      && (forall p: Page :: Sum(more, FileHolds(p)) == Sum(files, FileHolds(p)))
      && (UniqueIds(more) <==> UniqueIds(files) && !HasFile(files, id))
  {
    var more := [File(id, [])] + files;
    assert more[1..] == files;
    forall p: Page
      ensures Sum(more, FileHolds(p)) == Sum(files, FileHolds(p))
    {
      assert FileHolds(p)(more[0]) == 0;
    }
    if UniqueIds(more) {
      forall i, j | 0 <= i < j < |files|
        ensures files[i].id != files[j].id
      {
        assert more[i + 1].id != more[j + 1].id;
      }
      forall i | 0 <= i < |files|
        ensures files[i].id != id
      {
        assert more[0].id != more[i + 1].id;
      }
    }
  }

  lemma FirstFileAccounts(files: seq<File>)
    requires files != []
    ensures Listed(files) == |files[0].regions| + Listed(files[1..])
    ensures PagesOfFiles(files) == PagesOf(files[0].regions) + PagesOfFiles(files[1..])
  {
  }

  lemma NoFiles()
    ensures Listed([]) == 0 && PagesOfFiles([]) == []
  {
  }

  class Driver {
    var files: seq<File>
    var mapped: int
    var nextPage: Page
    var freed: seq<Page>

    constructor ()
      ensures files == [] && mapped == 0 && nextPage == 0 && freed == []
    {
      files, mapped, nextPage, freed := [], 0, 0, [];
    }

    method FreeMappedRegion(region: Region)
      modifies this`mapped, this`freed
      ensures mapped == old(mapped) - 1
      ensures freed == old(freed) + region.pages
    {
      for i := 0 to |region.pages|
        invariant mapped == old(mapped)
        invariant freed == old(freed) + region.pages[..i]
      {
        freed := freed + [region.pages[i]];
      }
      assert region.pages[..|region.pages|] == region.pages;
      mapped := mapped - 1;
    }

    method Open(id: nat)
      modifies this`files
      ensures files == [File(id, [])] + old(files)
      ensures Listed(files) == Listed(old(files))
      ensures forall p: Page :: Sum(files, FileHolds(p)) == Sum(old(files), FileHolds(p))
      ensures UniqueIds(files) <==> UniqueIds(old(files)) && !HasFile(old(files), id)
    {
      OpenAccounts(files, id);
      files := [File(id, [])] + files;
    }

    method VmaClose(pid: int, va: nat)
      modifies this`files, this`mapped, this`freed
      ensures files == Closed(old(files), pid, va)
      ensures var r := Found(old(files), pid, va);
              && mapped == old(mapped) - (if r.Some? then 1 else 0)
              && freed == old(freed) + (if r.Some? then r.value.pages else [])
    {
      var i := 0;
      while i < |files|
        invariant i <= |files| && files == old(files) && mapped == old(mapped) && freed == old(freed)
        invariant FileOf(files, pid, va, 0) == FileOf(files, pid, va, i)
      {
        var rs := files[i].regions;
        var j := 0;
        while j < |rs|
          invariant j <= |rs|
          invariant IndexOf(rs, pid, va, 0) == IndexOf(rs, pid, va, j)
        {
          if Matches(rs[j], pid, va) {
            files := Unlink(files, i, j);
            FreeMappedRegion(rs[j]);
            return;
          }
          j := j + 1;
        }
        i := i + 1;
      }
    }

    /** `state` is the position of the file's state in the list. */
    method Release(state: nat)
      requires state < |files|
      modifies this`files, this`mapped, this`freed
      ensures files == Without(old(files), state)
      ensures mapped == old(mapped) - |old(files)[state].regions|
      ensures freed == old(freed) + PagesOf(old(files)[state].regions)
    {
      FreeAll(state);
      files := Without(files, state);
    }

    /** The freeing loop over one file's regions. */
    method FreeAll(state: nat)
      requires state < |files|
      modifies this`files, this`mapped, this`freed
      ensures files == old(files)[state := old(files)[state].(regions := [])]
      ensures mapped == old(mapped) - |old(files)[state].regions|
      ensures freed == old(freed) + PagesOf(old(files)[state].regions)
    {
      ghost var rs := files[state].regions;
      ghost var k := 0;
      while files[state].regions != []
        invariant k <= |rs| && |files| == |old(files)|
        invariant files == old(files)[state := old(files)[state].(regions := rs[k..])]
        invariant mapped == old(mapped) - k
        invariant freed + PagesOf(rs[k..]) == old(freed) + PagesOf(rs)
        decreases |rs| - k
      {
        var region := files[state].regions[0];
        assert Without(rs[k..], 0) == rs[k + 1..];
        files := Unlink(files, state, 0);
        FreeMappedRegion(region);
        assert rs[k..][1..] == rs[k + 1..];
        k := k + 1;
      }
    }

    /** `granted` pages come back from the bulk allocation, `mapError` from inserting them into
        the address space (0 for success), `regionOk` from allocating the region record. */
    method Mmap(state: nat, pid: int, va: nat, size: nat, arrayOk: bool, granted: nat, mapError: int, regionOk: bool)
        returns (r: MmapResult)
      requires state < |files| && granted <= size / PAGE_SIZE
      modifies this
      ensures r.Ok? <==> size > 0 && size % PAGE_SIZE == 0 && arrayOk && granted == size / PAGE_SIZE && mapError == 0 && regionOk
      ensures r == InvalidSize <==> size == 0 || size % PAGE_SIZE != 0
      ensures r.MapFailed? <==> size > 0 && size % PAGE_SIZE == 0 && arrayOk && granted == size / PAGE_SIZE && mapError != 0
      ensures r.MapFailed? ==> r.error == mapError
      ensures nextPage == old(nextPage) + (if r == InvalidSize || !arrayOk then 0 else granted)
      ensures !r.Ok? && r != InvalidSize && arrayOk ==> forall p: Page ::
        Times(freed, p) == Times(old(freed), p) + Times(NewPages(old(nextPage), granted), p)
      ensures var pages := NewPages(old(nextPage), granted);
        if r.Ok? then files == Link(old(files), state, Region(pid, va, size, pages))
                      && mapped == old(mapped) + 1 && freed == old(freed)
        else files == old(files) && mapped == old(mapped)
             && freed == old(freed) + (if r == InvalidSize || !arrayOk then [] else Reversed(pages))
    {
      if size == 0 || size % PAGE_SIZE != 0 {
        return InvalidSize;
      }
      if !arrayOk {
        return NoMemory;
      }
      var pages := NewPages(nextPage, granted);
      nextPage := nextPage + granted;
      if granted != size / PAGE_SIZE {
        r := NoMemory;
      } else if mapError != 0 {
        r := MapFailed(mapError);
      } else if !regionOk {
        r := NoMemory;
      } else {
        files := Link(files, state, Region(pid, va, size, pages));
        mapped := mapped + 1;
        return Ok;
      }
      FreePages(pages);
    }

    /** The error path of mmap: frees the pages from the last one down. */
    method FreePages(pages: seq<Page>)
      modifies this`freed
      ensures freed == old(freed) + Reversed(pages)
      ensures forall p: Page :: Times(freed, p) == Times(old(freed), p) + Times(pages, p)
    {
      hide Times;
      ghost var start := freed;
      var left := |pages|;
      assert pages[..left] == pages;
      while left > 0
        invariant left <= |pages|
        invariant freed + Reversed(pages[..left]) == old(freed) + Reversed(pages)
      {
        left := left - 1;
        assert pages[..left + 1] == pages[..left] + [pages[left]];
        ReversedSnoc(pages[..left], pages[left]);
        freed := freed + [pages[left]];
      }
      assert freed == start + Reversed(pages);
      FreedReversed(start, pages);
    }

    method Exit() returns (refused: bool)
      modifies this`files, this`mapped, this`freed
      ensures refused == (old(mapped) > 0)
      ensures refused ==> files == old(files) && mapped == old(mapped) && freed == old(freed)
      ensures !refused ==> files == [] && mapped == old(mapped) - Listed(old(files))
                           && freed == old(freed) + PagesOfFiles(old(files))
    {
      hide Listed, PagesOf, PagesOfFiles;
      if mapped > 0 {
        return true;
      }
      ghost var all := files;
      ghost var k := 0;
      while files != []
        invariant k <= |all| && files == all[k..]
        invariant mapped - Listed(all[k..]) == old(mapped) - Listed(all)
        invariant freed + PagesOfFiles(all[k..]) == old(freed) + PagesOfFiles(all)
        decreases |files|
      {
        FirstFileAccounts(all[k..]);
        assert all[k..][1..] == all[k + 1..];
        FreeAll(0);
        files := Without(files, 0);
        assert files == all[k + 1..];
        k := k + 1;
      }
      NoFiles();
      refused := false;
    }
  }

  function NewPages(first: Page, n: nat): (pages: seq<Page>)
    ensures |pages| == n
  {
    seq(n, i requires 0 <= i < n => first + i)
  }

  lemma ReversedSnoc(s: seq<Page>, x: Page)
    ensures Reversed(s + [x]) == [x] + Reversed(s)
  {
    if s == [] {
      assert s + [x] == [x];
    } else {
      ReversedSnoc(s[1..], x);
      assert (s + [x])[1..] == s[1..] + [x];
    }
  }

  const OLDER: Region := Region(7, 0, 4096, [0])
  const NEWER: Region := Region(7, 0, 4096, [1])

  /** Two regions with one process and address: vma_close removes the newer one only. */
  method DuplicateMappingWitness() returns (listed: seq<File>, left: seq<File>)
    ensures listed == [File(1, [NEWER, OLDER])] && left == [File(1, [OLDER])]
    ensures AllUnmatched(listed, 7, 0) == [File(1, [])]
  {
    var d := new Driver();
    d.Open(1);
    var r := d.Mmap(0, 7, 0, 4096, true, 1, 0, true);
    OnePage(0);
    assert d.files == [File(1, [OLDER])] by { assert [OLDER] + [] == [OLDER]; }
    r := d.Mmap(0, 7, 0, 4096, true, 1, 0, true);
    OnePage(1);
    assert d.files == [File(1, [NEWER, OLDER])] by { assert [NEWER] + [OLDER] == [NEWER, OLDER]; }
    listed := d.files;
    d.VmaClose(7, 0);
    left := d.files;
    DuplicatesClosed(listed);
  }

  lemma OnePage(first: Page)
    ensures NewPages(first, 1) == [first]
  {
  }

  lemma DuplicatesClosed(listed: seq<File>)
    requires listed == [File(1, [NEWER, OLDER])]
    ensures Closed(listed, 7, 0) == [File(1, [OLDER])] && AllUnmatched(listed, 7, 0) == [File(1, [])]
  {
    var rs := listed[0].regions;
    assert Without(rs, 0) == [OLDER];
    assert rs[1..][1..] == [] && Unmatched(rs[1..], 7, 0) == [];
    assert listed[1..] == [];
  }
}
