/** What an exit of the memory device driver that has passed its check of the counter can meet
    when it takes dev_lock. */
module MemdevExit {

  import opened Wrappers
  import opened Sums
  import opened MemdevDriver
  import opened MemdevRace
  import opened MemdevSections
  import opened MemdevOrder
  import opened MemdevProgress

  // ---------------------------------------------------------------------------------------
  // What can still be listed
  // ---------------------------------------------------------------------------------------

  predicate IsHolder(s: State, h: nat) {
    h < |s.threads| && HoldsLock(s.threads[h]) == 1
  }

  function LeftBy(files: seq<File>, t: Thread): Option<seq<File>> {
    if InSection(files, t) then Some(Remaining(files, t).files) else None
  }

  /** The lists once dev_lock is free: those of now, or those that its holder leaves. None when
      the holder has lost its file state and will never unlock. */
  ghost function Left(s: State): Option<seq<File>> {
    if !s.locked then Some(s.files)
    else if h: nat :| IsHolder(s, h) then LeftBy(s.files, s.threads[h])
    else None
  }

  /** An mmap that may still list a region: its pages were all granted, or still may be. */
  predicate CanStillMap(t: Thread) {
    t.Filling? || (t.Filled? && |t.pages| == t.want) || t.Mapped? || t.Linking?
  }

  predicate MapsInto(t: Thread, files: seq<File>) {
    CanStillMap(t) && HasFile(files, t.id)
  }

  /** Regions will be listed when dev_lock is free, or an mmap can still list one. */
  ghost predicate RegionsAhead(s: State) {
    && Left(s).Some?
    && (Listed(Left(s).value) > 0 || exists j :: 0 <= j < |s.threads| && MapsInto(s.threads[j], Left(s).value))
  }

  lemma HolderOf(s: State) returns (h: nat)
    requires Inv(s) && s.locked
    ensures IsHolder(s, h)
  {
    assert Laws(s, 0);
    h := SumPositive(s.threads, HoldsLock);
  }

  lemma LeftOfHolder(s: State, h: nat)
    requires Inv(s) && IsHolder(s, h)
    ensures s.locked && Left(s) == LeftBy(s.files, s.threads[h])
  {
    hide Sum, LeftBy;
    assert Laws(s, 0);
    SumAtLeast(s.threads, HoldsLock, h);
    forall g: nat | IsHolder(s, g)
      ensures g == h
    {
      if g < h { SumPair(s.threads, HoldsLock, g, h); }
      if h < g { SumPair(s.threads, HoldsLock, h, g); }
    }
  }

  // ---------------------------------------------------------------------------------------
  // Without new mmaps, nothing comes from nothing
  // ---------------------------------------------------------------------------------------

  /** No mmap starts, and a file that is opened is a new one. */
  predicate IsQuiet(s: State, e: Event) {
    !e.Mmap? && (e.Open? ==> !IsNeeded(s, e.id))
  }

  predicate IsQuietRun(s: State, events: seq<Event>)
    decreases |events|
  {
    events == [] || (Enabled(s, events[0]) && IsQuiet(s, events[0]) && IsQuietRun(Next(s, events[0]), events[1..]))
  }

  lemma ActMaps(s: State, k: nat, choice: nat)
    requires CanAct(s, k) && k < |ActNext(s, k, choice).threads| && CanStillMap(ActNext(s, k, choice).threads[k])
    ensures CanStillMap(s.threads[k]) && s.threads[k].id == ActNext(s, k, choice).threads[k].id
  {
    hide HasFile, Position, Link, Unlink, Without, FileOf, IndexOf, HoldingNext;
    if s.threads[k].Holding? {
      HoldingKeepsJob(s, k, s.threads[k].job);
    }
  }

  /** Whoever can still map could before. */
  lemma QuietMaps(s: State, e: Event, j: nat)
    requires Enabled(s, e) && IsQuiet(s, e) && j < |Next(s, e).threads| && CanStillMap(Next(s, e).threads[j])
    ensures j < |s.threads| && CanStillMap(s.threads[j]) && s.threads[j].id == Next(s, e).threads[j].id
  {
    hide ActNext, CanAct;
    if e.Act? {
      ActChangesOne(s, e.k, e.choice);
      if e.k == j {
        ActMaps(s, j, e.choice);
      }
    }
  }

  /** The lists to come offer no more: no region unless one was to come, no file that is needed
      unless it was there. */
  ghost predicate OffersNoMore(s: State, s': State) {
    Left(s').Some? ==>
      && Left(s).Some?
      && (Listed(Left(s).value) == 0 ==> Listed(Left(s').value) == 0)
      && forall id :: IsNeeded(s, id) && HasFile(Left(s').value, id) ==> HasFile(Left(s).value, id)
  }

  lemma AheadBefore(s: State, e: Event)
    requires Enabled(s, e) && IsQuiet(s, e) && RegionsAhead(Next(s, e)) && OffersNoMore(s, Next(s, e))
    ensures RegionsAhead(s)
  {
    hide Next, Enabled, IsQuiet, Left, Listed, HasFile, CanStillMap;
    var s' := Next(s, e);
    if j :| 0 <= j < |s'.threads| && MapsInto(s'.threads[j], Left(s').value) {
      QuietMaps(s, e, j);
      MapperNeeds(s, j);
      assert MapsInto(s.threads[j], Left(s).value);
    }
  }

  lemma MapperNeeds(s: State, j: nat)
    requires j < |s.threads| && CanStillMap(s.threads[j])
    ensures IsNeeded(s, s.threads[j].id)
  {
    assert FileNeeded(s.threads[j]) == Some(s.threads[j].id);
  }

  /** A step of somebody else while dev_lock is held. */
  lemma HeldOffersNoMore(s: State, e: Event, h: nat)
    requires Inv(s) && Enabled(s, e) && IsHolder(s, h) && !IsStepOf(e, h)
    ensures OffersNoMore(s, Next(s, e))
  {
    hide LeftBy, Left, Inv, Next, Enabled, HoldsLock;
    LeftOfHolder(s, h);
    StepInv(s, e);
    LockProtectsLists(s, h, e);
    LeftOfHolder(Next(s, e), h);
  }

  /** A step of the holder itself. */
  lemma HolderOffersNoMore(s: State, h: nat, choice: nat)
    requires Inv(s) && IsHolder(s, h) && CanAct(s, h)
    ensures OffersNoMore(s, ActNext(s, h, choice))
  {
    hide Left, Remaining, Inv, ActNext, CanAct, HoldsLock, InSection, Listed, HasFile;
    var s' := ActNext(s, h, choice);
    LeftOfHolder(s, h);
    StepInv(s, Act(h, choice)) by { ActIsNext(s, h, choice); }
    ActIsNext(s, h, choice);
    ActChangesOne(s, h, choice);
    if InSection(s.files, s.threads[h]) {
      SectionStep(s, h, choice);
      if s'.threads[h].Finished? {
        FinishingUnlocks(s, h, choice);
      } else {
        HoldsInSection(s', h);
        LeftOfHolder(s', h);
      }
    } else {
      LostStaysLost(s, h, choice);
      LeftOfHolder(s', h);
    }
  }

  lemma ActIsNext(s: State, k: nat, choice: nat)
    requires CanAct(s, k)
    ensures Enabled(s, Act(k, choice)) && Next(s, Act(k, choice)) == ActNext(s, k, choice)
  {
  }

  lemma FinishingUnlocks(s: State, h: nat, choice: nat)
    requires CanAct(s, h) && InSection(s.files, s.threads[h]) && ActNext(s, h, choice).threads[h].Finished?
    ensures var s' := ActNext(s, h, choice);
            !s'.locked && Left(s') == Some(s'.files)
  {
    hide Position, Without, Unlink;
  }

  lemma LostStaysLost(s: State, h: nat, choice: nat)
    requires IsHolder(s, h) && CanAct(s, h) && !InSection(s.files, s.threads[h])
    ensures var s' := ActNext(s, h, choice); IsHolder(s', h) && !InSection(s'.files, s'.threads[h])
  {
  }

  /** A step while dev_lock is free. */
  lemma FreeOffersNoMore(s: State, k: nat, choice: nat)
    requires Inv(s) && !s.locked && CanAct(s, k) && !RegionsAhead(s)
    ensures OffersNoMore(s, ActNext(s, k, choice))
  {
    hide RegionsAhead;
    NothingListed(s);
    assert Laws(s, 0);
    SumAtLeast(s.threads, HoldsLock, k);
    match s.threads[k]
    case Linking(_, _) => LinkingIsAhead(s, k);
    case Closing(pid, va) => ClosingFindsNothing(s.files, pid, va);
    case Releasing(id) => ReleasingOffersNoMore(s, k, choice);
    case Exiting => ExitingOffersNothing(s, k, choice);
    case _ =>
  }

  lemma NothingListed(s: State)
    requires !s.locked && !RegionsAhead(s)
    ensures Listed(s.files) == 0
  {
  }

  lemma LinkingIsAhead(s: State, k: nat)
    requires !s.locked && CanAct(s, k) && s.threads[k].Linking?
    ensures RegionsAhead(s)
  {
    assert MapsInto(s.threads[k], s.files);
  }

  lemma ClosingFindsNothing(files: seq<File>, pid: int, va: nat)
    requires Listed(files) == 0
    ensures FileOf(files, pid, va, 0) == |files|
  {
    var i := FileOf(files, pid, va, 0);
    if i < |files| {
      SumAtLeast(files, RegionCount, i);
    }
  }

  lemma ReleasingOffersNoMore(s: State, k: nat, choice: nat)
    requires Inv(s) && !s.locked && CanAct(s, k) && s.threads[k].Releasing? && Listed(s.files) == 0
    ensures OffersNoMore(s, ActNext(s, k, choice))
  {
    hide Inv, Sum, Listed;
    var s' := ActNext(s, k, choice);
    var id := s.threads[k].id;
    ActIsNext(s, k, choice);
    StepInv(s, Act(k, choice));
    LeftOfHolder(s', k);
    if HasFile(s.files, id) {
      var i := Position(s.files, id);
      NoMoreWithout(s.files, i);
    }
  }

  lemma NoMoreWithout(files: seq<File>, i: nat)
    requires i < |files|
    ensures Listed(Without(files, i)) <= Listed(files)
    ensures forall id :: HasFile(Without(files, i), id) ==> HasFile(files, id)
  {
    SumWithout(files, RegionCount, i);
    var rest := Without(files, i);
    forall id | HasFile(rest, id)
      ensures HasFile(files, id)
    {
      var m :| 0 <= m < |rest| && rest[m].id == id;
      assert rest[m] == if m < i then files[m] else files[m + 1];
    }
  }

  lemma ExitingOffersNothing(s: State, k: nat, choice: nat)
    requires Inv(s) && !s.locked && CanAct(s, k) && s.threads[k].Exiting?
    ensures OffersNoMore(s, ActNext(s, k, choice))
  {
    hide Inv, Sum;
    var s' := ActNext(s, k, choice);
    ActIsNext(s, k, choice);
    StepInv(s, Act(k, choice));
    LeftOfHolder(s', k);
    assert Left(s') == Some([]);
    assert Listed([]) == 0 by { NoFiles(); }
  }

  lemma OpenOffersNoMore(s: State, id: nat)
    requires !s.locked && !IsNeeded(s, id)
    ensures OffersNoMore(s, s.(files := [File(id, [])] + s.files))
  {
    hide Listed, IsNeeded;
    OpenAccounts(s.files, id);
    var files := [File(id, [])] + s.files;
    forall other | other != id && HasFile(files, other)
      ensures HasFile(s.files, other)
    {
      var m :| 0 <= m < |files| && files[m].id == other;
      assert s.files[m - 1] == files[m];
    }
  }

  /** Without a new mmap, a state with no regions ahead stays one. */
  lemma QuietStep(s: State, e: Event)
    requires Inv(s) && Enabled(s, e) && IsQuiet(s, e) && !RegionsAhead(s)
    ensures !RegionsAhead(Next(s, e))
  {
    hide Inv, RegionsAhead, OffersNoMore, ActNext, CanAct;
    if s.locked {
      var h := HolderOf(s);
      if IsStepOf(e, h) {
        HolderOffersNoMore(s, h, e.choice);
      } else {
        HeldOffersNoMore(s, e, h);
      }
    } else if e.Open? {
      OpenOffersNoMore(s, e.id);
    } else if e.Act? {
      FreeOffersNoMore(s, e.k, e.choice);
    } else {
      SpawningOffersNoMore(s, e);
    }
    if RegionsAhead(Next(s, e)) {
      AheadBefore(s, e);
    }
  }

  lemma SpawningOffersNoMore(s: State, e: Event)
    requires Enabled(s, e) && !s.locked && !e.Act? && !e.Open?
    ensures OffersNoMore(s, Next(s, e))
  {
  }

  // ---------------------------------------------------------------------------------------
  // What is ahead can come true
  // ---------------------------------------------------------------------------------------

  /** Thread k of exit is about to take dev_lock with a region listed. */
  predicate FindsRegions(s: State, k: nat) {
    k < |s.threads| && s.threads[k].Exiting? && !s.locked && Listed(s.files) > 0
  }

  lemma {:induction false} QuietIsRun(s: State, events: seq<Event>)
    requires IsQuietRun(s, events)
    ensures IsRun(s, events)
    decreases |events|
  {
    if events != [] {
      QuietIsRun(Next(s, events[0]), events[1..]);
    }
  }

  /** From s, whatever the other calls do, thread k can come to find regions, with no new mmap. */
  ghost predicate MayFindRegions(s: State, k: nat) {
    exists events :: IsQuietRun(s, events) && IsRun(s, events) && FindsRegions(After(s, events), k)
  }

  lemma QuietThen(s: State, e: Event, events: seq<Event>)
    requires Enabled(s, e) && IsQuiet(s, e) && IsQuietRun(Next(s, e), events) && IsRun(Next(s, e), events)
    ensures IsQuietRun(s, [e] + events) && IsRun(s, [e] + events)
    ensures After(s, [e] + events) == After(Next(s, e), events)
  {
    assert ([e] + events)[1..] == events;
  }

  lemma MayFindBefore(s: State, e: Event, k: nat)
    requires Enabled(s, e) && IsQuiet(s, e) && MayFindRegions(Next(s, e), k)
    ensures MayFindRegions(s, k)
  {
    hide Next, Enabled, IsQuiet;
    var events :| IsQuietRun(Next(s, e), events) && IsRun(Next(s, e), events) && FindsRegions(After(Next(s, e), events), k);
    QuietThen(s, e, events);
  }

  lemma MayFindNow(s: State, k: nat)
    requires FindsRegions(s, k)
    ensures MayFindRegions(s, k)
  {
    assert IsQuietRun(s, []) && IsRun(s, []) && After(s, []) == s;
  }

  /** The choice that keeps an mmap going: all pages granted, every later step a success. */
  function Favourable(t: Thread): nat {
    if t.Filling? then t.want else 0
  }

  /** An mmap that can still list a region does so when it runs alone. */
  lemma {:induction false} MapperLists(s: State, k: nat, j: nat)
    requires k < |s.threads| && s.threads[k].Exiting? && !s.locked
    requires j < |s.threads| && MapsInto(s.threads[j], s.files)
    ensures MayFindRegions(s, k)
    decreases Cost(s)
  {
    hide MayFindRegions, Cost, Listed, HasFile;
    var choice := Favourable(s.threads[j]);
    MapperStep(s, j);
    ActIsNext(s, j, choice);
    ActLowers(s, j, choice);
    var s' := ActNext(s, j, choice);
    if s.threads[j].Linking? {
      MayFindNow(s', k);
    } else {
      MapperLists(s', k, j);
    }
    MayFindBefore(s, Act(j, choice), k);
  }

  lemma MapperStep(s: State, j: nat)
    requires !s.locked && j < |s.threads| && MapsInto(s.threads[j], s.files)
    ensures CanAct(s, j)
    ensures var s' := ActNext(s, j, Favourable(s.threads[j]));
            && s'.threads == s.threads[j := s'.threads[j]] && !s'.locked && |s'.threads| == |s.threads|
            && if s.threads[j].Linking? then Listed(s'.files) > 0
               else s'.files == s.files && MapsInto(s'.threads[j], s'.files)
  {
    hide Listed, Position;
    if s.threads[j].Linking? {
      LinkAccounts(s.files, Position(s.files, s.threads[j].id), s.threads[j].region, 0);
    }
  }

  /** The holder of dev_lock, if it has not lost its file state, finishes when it runs alone. */
  lemma {:induction false} HolderFinishes(s: State, k: nat, h: nat)
    requires Inv(s) && k < |s.threads| && s.threads[k].Exiting?
    requires IsHolder(s, h) && InSection(s.files, s.threads[h]) && RegionsAhead(s)
    ensures MayFindRegions(s, k)
    decreases Cost(s)
  {
    hide Inv, MayFindRegions, Cost, RegionsAhead, ActNext, CanAct, HoldsLock, InSection;
    HolderCanAct(s, h);
    ActIsNext(s, h, 0);
    ActLowers(s, h, 0);
    ActChangesOne(s, h, 0);
    StepInv(s, Act(h, 0));
    SectionStep(s, h, 0);
    NotExiting(s, h);
    var s' := ActNext(s, h, 0);
    StillAhead(s, h);
    if s'.threads[h].Finished? {
      FinishingUnlocks(s, h, 0);
      AheadComesTrue(s', k);
    } else {
      HoldsInSection(s', h);
      HolderFinishes(s', k, h);
    }
    MayFindBefore(s, Act(h, 0), k);
  }

  lemma HolderCanAct(s: State, h: nat)
    requires h < |s.threads| && InSection(s.files, s.threads[h])
    ensures CanAct(s, h)
  {
  }

  lemma NotExiting(s: State, h: nat)
    requires h < |s.threads| && InSection(s.files, s.threads[h])
    ensures !s.threads[h].Exiting? && !CanStillMap(s.threads[h])
  {
  }

  /** A step of the holder leaves what is ahead. */
  lemma StillAhead(s: State, h: nat)
    requires Inv(s) && IsHolder(s, h) && InSection(s.files, s.threads[h]) && RegionsAhead(s) && CanAct(s, h)
    ensures RegionsAhead(ActNext(s, h, 0))
  {
    hide Inv, Left, Remaining, ActNext, CanAct, HoldsLock, InSection, Listed, HasFile, CanStillMap;
    var s' := ActNext(s, h, 0);
    LeftOfHolder(s, h);
    ActIsNext(s, h, 0);
    StepInv(s, Act(h, 0));
    ActChangesOne(s, h, 0);
    SectionStep(s, h, 0);
    NotExiting(s, h);
    if s'.threads[h].Finished? {
      FinishingUnlocks(s, h, 0);
    } else {
      HoldsInSection(s', h);
      LeftOfHolder(s', h);
    }
    assert Left(s') == Left(s);
    if j :| 0 <= j < |s.threads| && MapsInto(s.threads[j], Left(s).value) {
      assert MapsInto(s'.threads[j], Left(s').value);
    }
  }

  lemma AheadComesTrue(s: State, k: nat)
    requires k < |s.threads| && s.threads[k].Exiting? && !s.locked && RegionsAhead(s)
    ensures MayFindRegions(s, k)
  {
    hide MayFindRegions, Listed, MapsInto;
    if Listed(s.files) > 0 {
      MayFindNow(s, k);
    } else {
      var j :| 0 <= j < |s.threads| && MapsInto(s.threads[j], s.files);
      MapperLists(s, k, j);
    }
  }

  lemma {:induction false} QuietRunStays(s: State, events: seq<Event>, k: nat)
    requires Inv(s) && !RegionsAhead(s) && IsQuietRun(s, events) && IsRun(s, events)
    ensures !FindsRegions(After(s, events), k)
    decreases |events|
  {
    hide Inv, RegionsAhead, Next, Enabled, IsQuiet, FindsRegions;
    if events == [] {
      FindingIsAhead(s, k);
    } else {
      StepInv(s, events[0]);
      QuietStep(s, events[0]);
      QuietRunStays(Next(s, events[0]), events[1..], k);
    }
  }

  lemma FindingIsAhead(s: State, k: nat)
    ensures FindsRegions(s, k) ==> RegionsAhead(s)
  {
  }

  /** Exactly when an exit that has passed its check can find a region when it takes dev_lock,
      although no further mmap starts: a region is listed, or left listed by whoever is inside
      dev_lock, or an mmap under way can still list one. */
  lemma ExitMayFindRegions(s: State, k: nat)
    requires Inv(s) && k < |s.threads| && s.threads[k].Exiting?
    ensures MayFindRegions(s, k) <==> RegionsAhead(s)
  {
    hide Inv, RegionsAhead, IsQuietRun, FindsRegions;
    if RegionsAhead(s) {
      if s.locked {
        var h := HolderOf(s);
        HolderKeepsFile(s, h);
        HolderFinishes(s, k, h);
      } else {
        AheadComesTrue(s, k);
      }
    }
    if MayFindRegions(s, k) {
      var events :| IsQuietRun(s, events) && IsRun(s, events) && FindsRegions(After(s, events), k);
      if !RegionsAhead(s) {
        QuietRunStays(s, events, k);
      }
    }
  }

  lemma HolderKeepsFile(s: State, h: nat)
    requires Inv(s) && IsHolder(s, h) && RegionsAhead(s)
    ensures InSection(s.files, s.threads[h])
  {
    LeftOfHolder(s, h);
  }

  lemma AheadAtTheCheck(s: State, k: nat)
    requires Inv(s) && k < |s.threads| && s.threads[k].Checking? && ActNext(s, k, 0).threads[k].Exiting?
    ensures RegionsAhead(ActNext(s, k, 0)) <==> RegionsAhead(s)
  {
    hide Inv, Listed, HasFile, LeftBy;
    var s' := ActNext(s, k, 0);
    ActIsNext(s, k, 0);
    StepInv(s, Act(k, 0));
    if s.locked {
      var h := HolderOf(s);
      LeftOfHolder(s, h);
      LeftOfHolder(s', h);
    }
    assert Left(s') == Left(s);
    if Left(s).Some? {
      forall j: nat | j < |s.threads|
        ensures MapsInto(s.threads[j], Left(s).value) <==> MapsInto(s'.threads[j], Left(s').value)
      {
      }
    }
  }

  /** From the moment of the check: exit passes and can then find a region, without a further mmap,
      exactly when the counter lets it through and regions are ahead. */
  lemma CheckMissesRegions(s: State, k: nat)
    requires Inv(s) && k < |s.threads| && s.threads[k].Checking?
    ensures var s' := ActNext(s, k, 0);
            s'.threads[k].Exiting? && MayFindRegions(s', k) <==>
            Listed(s.files) + Sum(s.threads, Undropped) <= Sum(s.threads, Uncounted) && RegionsAhead(s)
  {
    hide Inv, Listed, RegionsAhead, MayFindRegions, Sum;
    ExitCheckExact(s, k);
    ActIsNext(s, k, 0);
    StepInv(s, Act(k, 0));
    if ActNext(s, k, 0).threads[k].Exiting? {
      AheadAtTheCheck(s, k);
      ExitMayFindRegions(ActNext(s, k, 0), k);
    }
  }

  // ---------------------------------------------------------------------------------------
  // When mmaps may start
  // ---------------------------------------------------------------------------------------

  ghost predicate MayFindInAnyRun(s: State, k: nat) {
    exists events :: IsRun(s, events) && FindsRegions(After(s, events), k)
  }

  lemma AnyRunBefore(s: State, e: Event, k: nat)
    requires Enabled(s, e) && MayFindInAnyRun(Next(s, e), k)
    ensures MayFindInAnyRun(s, k)
  {
    hide Next, Enabled;
    var events :| IsRun(Next(s, e), events) && FindsRegions(After(Next(s, e), events), k);
    assert ([e] + events)[1..] == events;
    assert IsRun(s, [e] + events) && After(s, [e] + events) == After(Next(s, e), events);
  }

  lemma {:induction false} FreshId(files: seq<File>) returns (id: nat)
    ensures !HasFile(files, id) && forall i :: 0 <= i < |files| ==> files[i].id < id
  {
    if files == [] {
      id := 0;
    } else {
      id := FreshId(files[1..]);
      id := if id <= files[0].id then files[0].id + 1 else id;
      assert forall i :: 0 < i < |files| ==> files[i] == files[1..][i - 1];
    }
  }

  lemma FreshMmap(s: State, id: nat, s1: State, s2: State)
    requires !s.locked && !HasFile(s.files, id)
    requires s1 == s.(files := [File(id, [])] + s.files) && s2 == Spawn(s1, Filling(id, 0, 0, 1))
    ensures Enabled(s, Open(id)) && Next(s, Open(id)) == s1
    ensures Enabled(s1, Mmap(id, 0, 0, PAGE_SIZE)) && Next(s1, Mmap(id, 0, 0, PAGE_SIZE)) == s2
    ensures HasFile(s2.files, id)
  {
    assert s2.files[0].id == id;
  }

  /** Whoever opens a file and maps it is in time. */
  lemma NewMmapLists(s: State, k: nat)
    requires Inv(s) && k < |s.threads| && s.threads[k].Exiting? && !s.locked
    ensures MayFindInAnyRun(s, k)
  {
    hide Inv, IsQuietRun, Listed, FindsRegions, Next, Enabled;
    var id := FreshId(s.files);
    var s1 := s.(files := [File(id, [])] + s.files);
    var s2 := Spawn(s1, Filling(id, 0, 0, 1));
    assert s1.files[0].id == id;
    FreshMmap(s, id, s1, s2);
    MapperLists(s2, k, |s.threads|);
    AnyRunBefore(s1, Mmap(id, 0, 0, PAGE_SIZE), k);
    AnyRunBefore(s, Open(id), k);
  }

  lemma {:induction false} HolderThenMmap(s: State, k: nat, h: nat)
    requires Inv(s) && k < |s.threads| && s.threads[k].Exiting?
    requires IsHolder(s, h) && InSection(s.files, s.threads[h])
    ensures MayFindInAnyRun(s, k)
    decreases Cost(s)
  {
    hide Inv, MayFindInAnyRun, Cost, ActNext, CanAct, HoldsLock, InSection;
    HolderCanAct(s, h);
    ActIsNext(s, h, 0);
    ActLowers(s, h, 0);
    ActChangesOne(s, h, 0);
    StepInv(s, Act(h, 0));
    SectionStep(s, h, 0);
    NotExiting(s, h);
    var s' := ActNext(s, h, 0);
    if s'.threads[h].Finished? {
      FinishingUnlocks(s, h, 0);
      NewMmapLists(s', k);
    } else {
      HoldsInSection(s', h);
      HolderThenMmap(s', k, h);
    }
    AnyRunBefore(s, Act(h, 0), k);
  }

  /** A holder that has lost its file state keeps dev_lock for ever. */
  lemma LostForGood(s: State, e: Event)
    requires Inv(s) && Enabled(s, e) && Left(s).None?
    ensures Left(Next(s, e)).None?
  {
    hide Inv, ActNext, CanAct, OffersNoMore;
    var h := HolderOf(s);
    if IsStepOf(e, h) {
      HolderOffersNoMore(s, h, e.choice);
    } else {
      HeldOffersNoMore(s, e, h);
    }
    OfferedBefore(s, Next(s, e));
  }

  lemma OfferedBefore(s: State, s': State)
    requires OffersNoMore(s, s') && Left(s).None?
    ensures Left(s').None?
  {
  }

  lemma {:induction false} LostRun(s: State, events: seq<Event>, k: nat)
    requires Inv(s) && Left(s).None? && IsRun(s, events)
    ensures !FindsRegions(After(s, events), k)
    decreases |events|
  {
    hide Inv, Next, Enabled, Listed;
    if events != [] {
      StepInv(s, events[0]);
      LostForGood(s, events[0]);
      LostRun(Next(s, events[0]), events[1..], k);
    }
  }

  /** When mmaps may start, an exit that has passed its check can always find a region, unless
      dev_lock is never free again: the check guarantees nothing about later calls. */
  lemma ExitMayFindNewRegions(s: State, k: nat)
    requires Inv(s) && k < |s.threads| && s.threads[k].Exiting?
    ensures MayFindInAnyRun(s, k) <==> Left(s).Some?
  {
    hide Inv, FindsRegions, IsRun;
    if Left(s).Some? {
      if s.locked {
        var h := HolderOf(s);
        LeftOfHolder(s, h);
        HolderThenMmap(s, k, h);
      } else {
        NewMmapLists(s, k);
      }
    }
    if MayFindInAnyRun(s, k) {
      var events :| IsRun(s, events) && FindsRegions(After(s, events), k);
      if Left(s).None? {
        LostRun(s, events, k);
      }
    }
  }

  // ---------------------------------------------------------------------------------------
  // A run
  // ---------------------------------------------------------------------------------------

  /** The mmap that exit meets has not even listed its region when the check is made. */
  lemma LateMmapWitness() returns (before: seq<Event>, later: seq<Event>)
    ensures IsRun(INITIAL, before)
    ensures After(INITIAL, before) == State([NEW_FILE], [Filled(1, 7, 0, 1, [0]), Checking], false, 0, 1, [])
    ensures var s := After(INITIAL, before);
            Listed(s.files) == 0 && Sum(s.threads, Uncounted) == 0
            && IsQuietRun(s, later) && IsRun(s, later)
            && After(s, later) == State([File(1, [NEW_REGION])], [Counting, Holding(ExitJob)], true, 0, 1, [])
  {
    var fill := MmapFills();
    var s0 := State([NEW_FILE], [Filled(1, 7, 0, 1, [0]), Checking], false, 0, 1, []);
    OneStep(After(INITIAL, fill), Exit, s0);
    RunThen(INITIAL, fill, [Exit]);
    before := fill + [Exit];
    var s1 := s0.(threads := [Filled(1, 7, 0, 1, [0]), Exiting]);
    var s2 := s0.(threads := [Mapped(1, 7, 0, 1, [0]), Exiting]);
    var s3 := s0.(threads := [Linking(1, NEW_REGION), Exiting]);
    var s4 := s0.(threads := [Counting, Exiting], files := [File(1, [NEW_REGION])]);
    var s5 := s4.(threads := [Counting, Holding(ExitJob)], locked := true);
    assert s3.files[0].id == 1 && [NEW_REGION] + NEW_FILE.regions == [NEW_REGION];
    assert Listed([NEW_FILE]) == 0 by { assert [NEW_FILE][1..] == [] && Sum([NEW_FILE][1..], RegionCount) == 0; }
    SumAllZero(s0.threads, Uncounted);
    assert Next(s0, Act(1, 0)) == s1;
    assert Next(s1, Act(0, 0)) == s2;
    assert Next(s2, Act(0, 0)) == s3;
    assert Next(s3, Act(0, 0)) == s4;
    assert Next(s4, Act(1, 0)) == s5;
    QuietThen(s4, Act(1, 0), []);
    QuietThen(s3, Act(0, 0), [Act(1, 0)] + []);
    var tail := [Act(0, 0)] + ([Act(1, 0)] + []);
    QuietThen(s2, Act(0, 0), tail);
    QuietThen(s1, Act(0, 0), [Act(0, 0)] + tail);
    QuietThen(s0, Act(1, 0), [Act(0, 0)] + ([Act(0, 0)] + tail));
    later := [Act(1, 0)] + ([Act(0, 0)] + ([Act(0, 0)] + tail));
  }
}
