/** The critical sections of the memory device driver, whatever runs in between: each has the
    lists, the freed pages and the count of the uninterrupted entry point in MemdevDriver. */
module MemdevSections {

  import opened Wrappers
  import opened Sums
  import opened MemdevDriver
  import opened MemdevRace

  /** What a section does altogether: the lists it leaves, the pages it frees, in order, and how
      often it counts a region out. */
  datatype Effect = Effect(files: seq<File>, freed: seq<Page>, counted: int)

  /** What is left to do for a thread that takes regions off the lists. */
  function JobEffect(files: seq<File>, job: Job): Effect
    requires FilePresent(files, job)
  {
    match job
    case CloseJob => Effect(files, [], 0)
    case ReleaseJob(id) =>
      var i := Position(files, id);
      Effect(Without(files, i), PagesOf(files[i].regions), |files[i].regions|)
    case ExitJob => Effect([], PagesOfFiles(files), Listed(files))
  }

  /** Thread t is inside dev_lock, and the file it works on is listed. */
  predicate InSection(files: seq<File>, t: Thread) {
    (t.Holding? || t.Freeing?) && FilePresent(files, t.job)
  }

  function Remaining(files: seq<File>, t: Thread): Effect
    requires InSection(files, t)
  {
    var e := JobEffect(files, t.job);
    if t.Freeing? then Effect(e.files, t.pages + e.freed, e.counted + 1) else e
  }

  lemma FreedGrows(s: State, e: Event)
    requires Enabled(s, e)
    ensures s.freed <= Next(s, e).freed
  {
  }

  /** The pages freed by thread k in a run. */
  function OwnFreed(s: State, k: nat, events: seq<Event>): seq<Page>
    requires IsRun(s, events)
    decreases |events|
  {
    if events == [] then []
    else
      var s' := Next(s, events[0]);
      FreedGrows(s, events[0]);
      (if IsStepOf(events[0], k) then s'.freed[|s.freed|..] else []) + OwnFreed(s', k, events[1..])
  }

  /** By how much thread k lowered the counter in a run. */
  function OwnCounted(s: State, k: nat, events: seq<Event>): int
    requires IsRun(s, events)
    decreases |events|
  {
    if events == [] then 0
    else
      var s' := Next(s, events[0]);
      (if IsStepOf(events[0], k) then s.mapped - s'.mapped else 0) + OwnCounted(s', k, events[1..])
  }

  predicate IsStepOf(e: Event, k: nat) {
    e.Act? && e.k == k
  }

  // ---------------------------------------------------------------------------------------
  // One step of the thread inside
  // ---------------------------------------------------------------------------------------

  /** A step does its part of what was left to do. */
  predicate DoesItsPart(s: State, s': State, k: nat)
    requires k < |s.threads| && k < |s'.threads| && InSection(s.files, s.threads[k])
    requires s.freed <= s'.freed
  {
    var before := Remaining(s.files, s.threads[k]);
    if s'.threads[k].Finished? then
      before == Effect(s'.files, [], 0) && s'.freed == s.freed && s'.mapped == s.mapped
    else
      && InSection(s'.files, s'.threads[k])
      && var after := Remaining(s'.files, s'.threads[k]);
      && after.files == before.files
      && before.freed == s'.freed[|s.freed|..] + after.freed
      && before.counted == s.mapped - s'.mapped + after.counted
  }

  lemma UnlinkFirst(files: seq<File>, i: nat)
    requires i < |files| && files[i].regions != []
    ensures Unlink(files, i, 0)[i].regions == files[i].regions[1..]
    ensures Without(Unlink(files, i, 0), i) == Without(files, i)
  {
    assert Without(files[i].regions, 0) == files[i].regions[1..];
  }

  lemma ReleaseTakes(s: State, k: nat, choice: nat)
    requires CanAct(s, k) && s.threads[k].Holding? && s.threads[k].job.ReleaseJob?
    ensures s.freed <= ActNext(s, k, choice).freed && DoesItsPart(s, ActNext(s, k, choice), k)
  {
    var id := s.threads[k].job.id;
    var i := Position(s.files, id);
    if s.files[i].regions != [] {
      PositionAfterUnlink(s.files, id, i, 0);
      UnlinkFirst(s.files, i);
    }
  }

  lemma ExitTakes(s: State, k: nat, choice: nat)
    requires CanAct(s, k) && s.threads[k] == Holding(ExitJob)
    ensures s.freed <= ActNext(s, k, choice).freed && DoesItsPart(s, ActNext(s, k, choice), k)
  {
    if s.files == [] {
      NoFiles();
    } else {
      FirstFileAccounts(s.files);
      if s.files[0].regions != [] {
        UnlinkFirst(s.files, 0);
        var u := Unlink(s.files, 0, 0);
        assert u[1..] == s.files[1..];
        FirstFileAccounts(u);
        TakeFirst(s.files[0].regions[0].pages, PagesOf(s.files[0].regions[1..]), PagesOfFiles(s.files[1..]));
      } else {
        assert Without(s.files, 0) == s.files[1..];
      }
    }
  }

  lemma TakeFirst(a: seq<Page>, b: seq<Page>, c: seq<Page>)
    ensures (a + b) + c == a + (b + c)
  {
  }

  lemma PageFreed(s: State, k: nat, choice: nat)
    requires CanAct(s, k) && s.threads[k].Freeing? && FilePresent(s.files, s.threads[k].job)
    ensures s.freed <= ActNext(s, k, choice).freed && DoesItsPart(s, ActNext(s, k, choice), k)
  {
    hide JobEffect;
    var pages := s.threads[k].pages;
    if pages != [] {
      assert pages == [pages[0]] + pages[1..];
    }
  }

  lemma SectionStep(s: State, k: nat, choice: nat)
    requires CanAct(s, k) && InSection(s.files, s.threads[k])
    ensures s.freed <= ActNext(s, k, choice).freed && DoesItsPart(s, ActNext(s, k, choice), k)
  {
    hide DoesItsPart, ActNext;
    match s.threads[k]
    case Freeing(_, _) => PageFreed(s, k, choice);
    case Holding(CloseJob) => CloseUnlocks(s, k, choice);
    case Holding(ReleaseJob(_)) => ReleaseTakes(s, k, choice);
    case Holding(ExitJob) => ExitTakes(s, k, choice);
  }

  lemma CloseUnlocks(s: State, k: nat, choice: nat)
    requires CanAct(s, k) && s.threads[k] == Holding(CloseJob)
    ensures s.freed <= ActNext(s, k, choice).freed && DoesItsPart(s, ActNext(s, k, choice), k)
  {
  }

  // ---------------------------------------------------------------------------------------
  // Whole sections
  // ---------------------------------------------------------------------------------------

  /** From any point inside dev_lock, whatever runs in between, the thread does exactly what was
      left to do, and nobody else touches the lists. */
  lemma {:induction false} SectionIsAtomic(s: State, k: nat, events: seq<Event>)
    requires Inv(s) && EndsWith(s, k, events) && InSection(s.files, s.threads[k])
    ensures IsRun(s, events)
    ensures Effect(After(s, events).files, OwnFreed(s, k, events), OwnCounted(s, k, events))
         == Remaining(s.files, s.threads[k])
    decreases |events|
  {
    hide Remaining, JobEffect, ActNext, CanAct, Inv, InSection;
    var e := events[0];
    var s' := Next(s, e);
    StepInv(s, e);
    FreedGrows(s, e);
    HoldsInSection(s, k);
    if IsStepOf(e, k) {
      SectionStep(s, k, e.choice);
    } else {
      LockProtectsLists(s, k, e);
    }
    if s'.threads[k].Finished? {
      NotYetFinished(s, k);
      assert events[1..] == [] && IsRun(s', events[1..]);
      assert s'.freed[|s.freed|..] == [];
    } else {
      SectionIsAtomic(s', k, events[1..]);
    }
  }

  lemma HoldsInSection(s: State, k: nat)
    requires k < |s.threads| && InSection(s.files, s.threads[k])
    ensures HoldsLock(s.threads[k]) == 1
  {
  }

  lemma NotYetFinished(s: State, k: nat)
    requires k < |s.threads| && InSection(s.files, s.threads[k])
    ensures !s.threads[k].Finished?
  {
  }

  // ---------------------------------------------------------------------------------------
  // The entry points
  // ---------------------------------------------------------------------------------------

  /** The whole effect of thread k in a run. */
  function EffectOf(s: State, k: nat, events: seq<Event>): Effect
    requires IsRun(s, events)
  {
    Effect(After(s, events).files, OwnFreed(s, k, events), OwnCounted(s, k, events))
  }

  /** A first step that takes the lock and at most unlinks one region. */
  lemma EntryThenSection(s: State, k: nat, events: seq<Event>)
    requires Inv(s) && EndsWith(s, k, events) && IsStepOf(events[0], k)
    requires var s' := Next(s, events[0]);
             k < |s'.threads| && InSection(s'.files, s'.threads[k]) && s'.freed == s.freed && s'.mapped == s.mapped
    ensures IsRun(s, events)
    ensures EffectOf(s, k, events) == var s' := Next(s, events[0]); Remaining(s'.files, s'.threads[k])
  {
    hide Remaining, Inv, ActNext, CanAct;
    var s' := Next(s, events[0]);
    FreedGrows(s, events[0]);
    StepInv(s, events[0]);
    NotYetFinished(s', k);
    SectionIsAtomic(s', k, events[1..]);
    assert s'.freed[|s.freed|..] == [];
  }

  /** vma_close, interleaved with anything, is Driver.VmaClose from the moment it takes the lock. */
  lemma VmaCloseIsAtomic(s: State, k: nat, pid: int, va: nat, events: seq<Event>)
    requires Inv(s) && EndsWith(s, k, events) && IsStepOf(events[0], k) && s.threads[k] == Closing(pid, va)
    ensures IsRun(s, events)
    ensures var r := Found(s.files, pid, va);
            EffectOf(s, k, events) == Effect(Closed(s.files, pid, va),
              if r.Some? then r.value.pages else [], if r.Some? then 1 else 0)
  {
    hide Inv;
    var s' := Next(s, events[0]);
    if FileOf(s.files, pid, va, 0) < |s.files| {
      EntryThenSection(s, k, events);
    } else {
      FreedGrows(s, events[0]);
      assert events[1..] == [] && IsRun(s', events[1..]);
      assert s'.freed[|s.freed|..] == [];
      assert After(s', events[1..]) == s' && OwnFreed(s', k, events[1..]) == [] && OwnCounted(s', k, events[1..]) == 0;
    }
  }

  /** release, interleaved with anything, is Driver.Release of its own file. */
  lemma ReleaseIsAtomic(s: State, k: nat, id: nat, events: seq<Event>)
    requires Inv(s) && EndsWith(s, k, events) && IsStepOf(events[0], k) && s.threads[k] == Releasing(id)
    requires HasFile(s.files, id)
    ensures IsRun(s, events)
    ensures var i := Position(s.files, id); var rs := s.files[i].regions;
            EffectOf(s, k, events) == Effect(Without(s.files, i), PagesOf(rs), |rs|)
  {
    hide Inv;
    EntryThenSection(s, k, events);
  }

  /** exit, once past its check and interleaved with anything, is the rest of Driver.Exit. */
  lemma ExitIsAtomic(s: State, k: nat, events: seq<Event>)
    requires Inv(s) && EndsWith(s, k, events) && IsStepOf(events[0], k) && s.threads[k] == Exiting
    ensures IsRun(s, events)
    ensures EffectOf(s, k, events) == Effect([], PagesOfFiles(s.files), Listed(s.files))
  {
    hide Inv;
    EntryThenSection(s, k, events);
  }

  // ---------------------------------------------------------------------------------------
  // mmap
  // ---------------------------------------------------------------------------------------

  /** The lists before and after each step of thread k that changes them. */
  function OwnChanges(s: State, k: nat, events: seq<Event>): seq<(seq<File>, seq<File>)>
    requires IsRun(s, events)
    decreases |events|
  {
    if events == [] then []
    else
      var s' := Next(s, events[0]);
      (if IsStepOf(events[0], k) && s'.files != s.files then [(s.files, s'.files)] else [])
      + OwnChanges(s', k, events[1..])
  }

  /** How an mmap of thread k ends: all pages freed from the last one down and nothing else done, or
      one region linked into its own file, in whatever state the lists were then, and counted. */
  datatype MmapOutcome = Failed(granted: nat) | Linked(files: seq<File>)

  predicate EndsAs(s: State, k: nat, events: seq<Event>, id: nat, region: Region, o: MmapOutcome)
    requires IsRun(s, events)
  {
    match o
    case Failed(granted) =>
      granted <= |region.pages| && OwnChanges(s, k, events) == []
      && OwnFreed(s, k, events) == Reversed(region.pages[..granted]) && OwnCounted(s, k, events) == 0
    case Linked(files) =>
      HasFile(files, id) && OwnChanges(s, k, events) == [(files, Link(files, Position(files, id), region))]
      && OwnFreed(s, k, events) == [] && OwnCounted(s, k, events) == -1
  }

  /** One event of a run, as thread k sees it. */
  lemma OwnEvent(s: State, k: nat, events: seq<Event>)
    requires IsRun(s, events) && events != []
    ensures var e, s' := events[0], Next(s, events[0]);
      && s.freed <= s'.freed
      && OwnFreed(s, k, events) == (if IsStepOf(e, k) then s'.freed[|s.freed|..] else []) + OwnFreed(s', k, events[1..])
      && OwnCounted(s, k, events) == (if IsStepOf(e, k) then s.mapped - s'.mapped else 0) + OwnCounted(s', k, events[1..])
      && OwnChanges(s, k, events)
         == (if IsStepOf(e, k) && s'.files != s.files then [(s.files, s'.files)] else []) + OwnChanges(s', k, events[1..])
  {
    FreedGrows(s, events[0]);
  }

  lemma NoEvents(s: State, k: nat)
    ensures IsRun(s, []) && OwnFreed(s, k, []) == [] && OwnCounted(s, k, []) == 0 && OwnChanges(s, k, []) == []
  {
  }

  lemma {:induction false} EndsWithIsRun(s: State, k: nat, events: seq<Event>)
    requires EndsWith(s, k, events)
    ensures IsRun(s, events)
    decreases |events|
  {
    var s' := Next(s, events[0]);
    if !(k < |s'.threads| && s'.threads[k].Finished?) {
      EndsWithIsRun(s', k, events[1..]);
    } else {
      assert events[1..] == [] && IsRun(s', events[1..]);
    }
  }

  lemma OthersKeep(s: State, k: nat, e: Event)
    requires Enabled(s, e) && k < |s.threads| && !IsStepOf(e, k)
    ensures k < |Next(s, e).threads| && Next(s, e).threads[k] == s.threads[k]
  {
    hide HasFile, Position, Link, Unlink, Without, FileOf, IndexOf, HoldingNext;
    if e.Act? && s.threads[e.k].Holding? {
      HoldingChangesOne(s, e.k, s.threads[e.k].job);
    }
  }

  lemma HoldingChangesOne(s: State, k: nat, job: Job)
    requires k < |s.threads| && FilePresent(s.files, job)
    ensures var s' := HoldingNext(s, k, job);
            |s'.threads| == |s.threads| && s'.threads == s.threads[k := s'.threads[k]]
  {
  }

  lemma {:induction false} UnwindingEnds(s: State, k: nat, events: seq<Event>)
    requires EndsWith(s, k, events) && s.threads[k].Unwinding?
    ensures IsRun(s, events) && OwnChanges(s, k, events) == []
    ensures OwnFreed(s, k, events) == Reversed(s.threads[k].pages) && OwnCounted(s, k, events) == 0
    decreases |events|
  {
    hide Reversed, OwnFreed, OwnCounted, OwnChanges, Next, Enabled;
    var e, s', pages := events[0], Next(s, events[0]), s.threads[k].pages;
    EndsWithIsRun(s, k, events);
    OwnEvent(s, k, events);
    if IsStepOf(e, k) {
      UnwindingStep(s, k, e.choice);
      if pages == [] {
        assert events[1..] == [];
        NoEvents(s', k);
      } else {
        UnwindingEnds(s', k, events[1..]);
        ReversedSnoc(pages[..|pages| - 1], pages[|pages| - 1]);
        assert pages == pages[..|pages| - 1] + [pages[|pages| - 1]];
      }
    } else {
      OthersKeep(s, k, e);
      UnwindingEnds(s', k, events[1..]);
    }
  }

  lemma UnwindingStep(s: State, k: nat, choice: nat)
    requires k < |s.threads| && s.threads[k].Unwinding? && CanAct(s, k)
    ensures var s', pages := Next(s, Act(k, choice)), s.threads[k].pages;
      && |s'.threads| == |s.threads| && s'.files == s.files && s'.mapped == s.mapped && s.freed <= s'.freed
      && if pages == [] then s'.threads[k].Finished? && s'.freed[|s.freed|..] == [] && Reversed(pages) == []
         else s'.threads[k] == Unwinding(pages[..|pages| - 1]) && s'.freed[|s.freed|..] == [pages[|pages| - 1]]
  {
  }

  lemma {:induction false} CountingEnds(s: State, k: nat, events: seq<Event>)
    requires EndsWith(s, k, events) && s.threads[k].Counting?
    ensures IsRun(s, events) && OwnChanges(s, k, events) == []
    ensures OwnFreed(s, k, events) == [] && OwnCounted(s, k, events) == -1
    decreases |events|
  {
    hide OwnFreed, OwnCounted, OwnChanges, Next, Enabled;
    var e, s' := events[0], Next(s, events[0]);
    EndsWithIsRun(s, k, events);
    OwnEvent(s, k, events);
    if IsStepOf(e, k) {
      CountingStep(s, k, e.choice);
      assert events[1..] == [];
      NoEvents(s', k);
    } else {
      OthersKeep(s, k, e);
      CountingEnds(s', k, events[1..]);
    }
  }

  lemma CountingStep(s: State, k: nat, choice: nat)
    requires k < |s.threads| && s.threads[k].Counting? && CanAct(s, k)
    ensures var s' := Next(s, Act(k, choice));
      && |s'.threads| == |s.threads| && s'.files == s.files && s'.mapped == s.mapped + 1
      && s.freed <= s'.freed && s'.freed[|s.freed|..] == [] && s'.threads[k].Finished?
  {
  }

  /** What an mmap that has its pages will list, if it succeeds. */
  function RegionOf(t: Thread): Region
    requires t.Filled? || t.Mapped? || t.Linking?
  {
    if t.Linking? then t.region else Region(t.pid, t.va, t.want * PAGE_SIZE, t.pages)
  }

  lemma {:induction false} GrantedEnds(s: State, k: nat, events: seq<Event>) returns (o: MmapOutcome)
    requires EndsWith(s, k, events) && (s.threads[k].Filled? || s.threads[k].Mapped? || s.threads[k].Linking?)
    ensures IsRun(s, events)
    ensures EndsAs(s, k, events, s.threads[k].id, RegionOf(s.threads[k]), o)
    ensures o.Failed? ==> o.granted == |RegionOf(s.threads[k]).pages|
    ensures o.Linked? && s.threads[k].Filled? ==> |s.threads[k].pages| == s.threads[k].want
    decreases |events|
  {
    hide Reversed, OwnFreed, OwnCounted, OwnChanges, Next, Link, Position, HasFile, CanAct;
    var e, s', t := events[0], Next(s, events[0]), s.threads[k];
    EndsWithIsRun(s, k, events);
    OwnEvent(s, k, events);
    if !IsStepOf(e, k) {
      OthersKeep(s, k, e);
      o := GrantedEnds(s', k, events[1..]);
    } else {
      GrantedStep(s, k, e.choice);
      if t.Linking? {
        CountingEnds(s', k, events[1..]);
        o := Linked(s.files);
      } else if s'.threads[k].Unwinding? {
        UnwindingEnds(s', k, events[1..]);
        o := Failed(|t.pages|);
        assert t.pages[..|t.pages|] == t.pages;
      } else {
        o := GrantedEnds(s', k, events[1..]);
      }
    }
  }

  lemma GrantedStep(s: State, k: nat, choice: nat)
    requires CanAct(s, k) && (s.threads[k].Filled? || s.threads[k].Mapped? || s.threads[k].Linking?)
    ensures var s', t := Next(s, Act(k, choice)), s.threads[k];
      && |s'.threads| == |s.threads| && s'.mapped == s.mapped && s.freed <= s'.freed && s'.freed[|s.freed|..] == []
      && if t.Linking? then
           HasFile(s.files, t.id) && s'.files == Link(s.files, Position(s.files, t.id), t.region)
           && s'.files != s.files && s'.threads[k].Counting?
         else
           var t' := s'.threads[k];
           s'.files == s.files
           && (t' == Unwinding(t.pages)
               || ((t'.Mapped? || t'.Linking?) && t'.id == t.id && RegionOf(t') == RegionOf(t)
                   && (t.Filled? ==> |t.pages| == t.want)))
  {
    if s.threads[k].Linking? {
      LinkedThere(s.files, Position(s.files, s.threads[k].id), s.threads[k].region);
    }
  }

  /** mmap, interleaved with anything, has one of the effects of Driver.Mmap: the region listed is
      that of its own process, address and size, with its own new pages, all of them, in its own
      file; or the pages granted are freed from the last one down, and nothing else is done. */
  lemma MmapIsAtomic(s: State, k: nat, id: nat, pid: int, va: nat, want: nat, events: seq<Event>) returns (o: MmapOutcome)
    requires EndsWith(s, k, events) && IsStepOf(events[0], k) && s.threads[k] == Filling(id, pid, va, want)
    ensures IsRun(s, events)
    ensures EndsAs(s, k, events, id, Region(pid, va, want * PAGE_SIZE, NewPages(s.nextPage, want)), o)
  {
    hide Reversed, OwnFreed, OwnCounted, OwnChanges, Link, Position, HasFile;
    var s' := Next(s, events[0]);
    var granted := Min(events[0].choice, want);
    EndsWithIsRun(s, k, events);
    OwnEvent(s, k, events);
    assert s'.freed[|s.freed|..] == [];
    o := GrantedEnds(s', k, events[1..]);
    assert NewPages(s.nextPage, want)[..granted] == NewPages(s.nextPage, granted);
    assert NewPages(s.nextPage, granted)[..granted] == NewPages(s.nextPage, granted);
  }
}
