/** When every call of the memory device driver finds its file state: which orders of calls keep
    a state that exit or release has freed from being reached again, and that nobody is then
    left waiting. */
module MemdevOrder {

  import opened Wrappers
  import opened Sums
  import opened MemdevDriver
  import opened MemdevRace

  /** The file whose state a call will still touch. */
  function FileNeeded(t: Thread): Option<nat> {
    match t
    case Filling(id, _, _, _) => Some(id)
    case Filled(id, _, _, _, _) => Some(id)
    case Mapped(id, _, _, _, _) => Some(id)
    case Linking(id, _) => Some(id)
    case Releasing(id) => Some(id)
    case Holding(ReleaseJob(id)) => Some(id)
    case Freeing(_, ReleaseJob(id)) => Some(id)
    case _ => None
  }

  predicate IsRelease(t: Thread) {
    t.Releasing? || ((t.Holding? || t.Freeing?) && t.job.ReleaseJob?)
  }

  predicate FindsFile(t: Thread, files: seq<File>) {
    FileNeeded(t).Some? ==> HasFile(files, FileNeeded(t).value)
  }

  /** A file that is being released is needed by nobody else. */
  predicate NoConflict(t: Thread, u: Thread) {
    IsRelease(t) ==> FileNeeded(t) != FileNeeded(u)
  }

  ghost predicate Steady(s: State) {
    && UniqueIds(s.files)
    && (forall k :: 0 <= k < |s.threads| ==> FindsFile(s.threads[k], s.files))
    && (forall j, k :: 0 <= j < |s.threads| && 0 <= k < |s.threads| && j != k ==> NoConflict(s.threads[j], s.threads[k]))
  }

  predicate IsNeeded(s: State, id: nat) {
    exists k :: 0 <= k < |s.threads| && FileNeeded(s.threads[k]) == Some(id)
  }

  predicate IsBeingReleased(s: State, id: nat) {
    exists k :: 0 <= k < |s.threads| && IsRelease(s.threads[k]) && FileNeeded(s.threads[k]) == Some(id)
  }

  /** The kernel's rules for files: mmap and release are called on open files, release is the last
      call on a file. */
  predicate FileRules(s: State, e: Event) {
    match e
    case Mmap(id, _, _, _) => HasFile(s.files, id) && !IsBeingReleased(s, id)
    case Release(id) => HasFile(s.files, id) && !IsNeeded(s, id)
    case _ => true
  }

  /** Exit frees the state of a file that a call still needs. */
  predicate ExitStrands(s: State, e: Event) {
    && e.Act? && e.k < |s.threads| && s.threads[e.k] == Holding(ExitJob)
    && s.files != [] && s.files[0].regions == []
    && IsNeeded(s, s.files[0].id)
  }

  // ---------------------------------------------------------------------------------------
  // The only step that strands a call
  // ---------------------------------------------------------------------------------------

  lemma KeptFile(files: seq<File>, i: nat, id: nat)
    requires i < |files| && UniqueIds(files) && HasFile(files, id)
    ensures UniqueIds(Without(files, i))
    ensures HasFile(Without(files, i), id) <==> id != files[i].id
  {
    var rest := Without(files, i);
    var m :| 0 <= m < |files| && files[m].id == id;
    if m < i {
      assert rest[m] == files[m];
    } else if m > i {
      assert rest[m - 1] == files[m];
    }
  }

  /** Files with the same ids: one may have gained or lost a region. */
  predicate SameIds(files: seq<File>, files': seq<File>) {
    |files| == |files'| && forall i :: 0 <= i < |files| ==> files[i].id == files'[i].id
  }

  lemma SameIdsSameFiles(files: seq<File>, files': seq<File>, id: nat)
    requires SameIds(files, files')
    ensures UniqueIds(files) <==> UniqueIds(files')
    ensures HasFile(files, id) <==> HasFile(files', id)
  {
  }

  /** A thread that moves on needs no other file than before. */
  predicate MovesOn(t: Thread, t': Thread) {
    && (FileNeeded(t').Some? ==> FileNeeded(t') == FileNeeded(t))
    && (IsRelease(t') ==> IsRelease(t))
  }

  lemma MovingKeepsSteady(s: State, s': State, k: nat)
    requires Steady(s) && k < |s.threads| && |s'.threads| == |s.threads|
    requires s'.threads == s.threads[k := s'.threads[k]] && MovesOn(s.threads[k], s'.threads[k])
    requires SameIds(s.files, s'.files)
    ensures Steady(s')
  {
    forall j | 0 <= j < |s'.threads|
      ensures FindsFile(s'.threads[j], s'.files)
    {
      assert FindsFile(s.threads[j], s.files);
      if FileNeeded(s.threads[j]).Some? {
        SameIdsSameFiles(s.files, s'.files, FileNeeded(s.threads[j]).value);
      }
    }
    SameIdsSameFiles(s.files, s'.files, 0);
    forall i, j | 0 <= i < |s'.threads| && 0 <= j < |s'.threads| && i != j
      ensures NoConflict(s'.threads[i], s'.threads[j])
    {
      assert NoConflict(s.threads[i], s.threads[j]);
      assert NoConflict(s.threads[j], s.threads[i]);
    }
  }

  lemma SpawningKeepsSteady(s: State, t: Thread)
    requires Steady(s) && FindsFile(t, s.files)
    requires FileNeeded(t).Some? ==> !IsBeingReleased(s, FileNeeded(t).value)
    requires IsRelease(t) ==> !IsNeeded(s, FileNeeded(t).value)
    ensures Steady(Spawn(s, t))
  {
    var s' := Spawn(s, t);
    forall i, j | 0 <= i < |s'.threads| && 0 <= j < |s'.threads| && i != j
      ensures NoConflict(s'.threads[i], s'.threads[j])
    {
      if i < |s.threads| && j < |s.threads| {
        assert NoConflict(s.threads[i], s.threads[j]);
      }
    }
  }

  /** Dropping a file keeps things steady exactly when no thread needs it afterwards. */
  lemma DroppingKeepsSteady(s: State, s': State, k: nat, i: nat)
    requires Steady(s) && k < |s.threads| && |s'.threads| == |s.threads|
    requires s'.threads == s.threads[k := s'.threads[k]] && MovesOn(s.threads[k], s'.threads[k])
    requires i < |s.files| && s'.files == Without(s.files, i)
    ensures Steady(s') <==> !IsNeeded(s', s.files[i].id)
  {
    hide UniqueIds, HasFile, Without, FileNeeded, IsRelease;
    MovingKeepsSteady(s, s'.(files := s.files), k);
    KeptIds(s.files, i);
    forall j | 0 <= j < |s'.threads|
      ensures FindsFile(s'.threads[j], s'.files) <==> FileNeeded(s'.threads[j]) != Some(s.files[i].id)
    {
      assert FindsFile(s'.threads[j], s.files);
      if FileNeeded(s'.threads[j]).Some? {
        KeptFile(s.files, i, FileNeeded(s'.threads[j]).value);
      }
    }
  }

  lemma KeptIds(files: seq<File>, i: nat)
    requires i < |files| && UniqueIds(files)
    ensures UniqueIds(Without(files, i))
  {
  }

  lemma OpenKeepsSteady(s: State, id: nat)
    requires Steady(s) && !HasFile(s.files, id)
    ensures Steady(s.(files := [File(id, [])] + s.files))
  {
    OpenAccounts(s.files, id);
    var files := [File(id, [])] + s.files;
    forall k | 0 <= k < |s.threads|
      ensures FindsFile(s.threads[k], files)
    {
      assert FindsFile(s.threads[k], s.files);
      if FileNeeded(s.threads[k]).Some? {
        var m :| 0 <= m < |s.files| && s.files[m].id == FileNeeded(s.threads[k]).value;
        assert files[m + 1].id == s.files[m].id;
      }
    }
  }

  lemma HoldingStep(s: State, k: nat, choice: nat)
    requires Steady(s) && CanAct(s, k) && s.threads[k].Holding?
    ensures Steady(ActNext(s, k, choice)) <==> !ExitStrands(s, Act(k, choice))
  {
    hide Steady, UniqueIds, Without, MovesOn;
    var s' := ActNext(s, k, choice);
    var job := s.threads[k].job;
    if job.CloseJob? || (job.ExitJob? && s.files == []) {
      JustMoves(s, s', k);
    } else {
      var i := if job.ExitJob? then 0 else Position(s.files, job.id);
      if s.files[i].regions != [] {
        JustMoves(s, s', k);
      } else {
        assert MovesOn(s.threads[k], s'.threads[k]) by { JustMoved(s.threads[k], s'.threads[k]); }
        DroppingKeepsSteady(s, s', k, i);
        if job.ReleaseJob? {
          OnlyTheReleaser(s, k);
          NotNeededAfterwards(s, s', k, s.files[i].id);
        } else {
          assert s'.threads == s.threads;
        }
      }
    }
  }

  lemma JustMoved(t: Thread, t': Thread)
    requires t'.Finished? || t' == t || (t.Holding? && t'.Freeing? && t'.job == t.job)
    ensures MovesOn(t, t')
  {
  }

  lemma JustMoves(s: State, s': State, k: nat)
    requires Steady(s) && k < |s.threads| && |s'.threads| == |s.threads|
    requires s'.threads == s.threads[k := s'.threads[k]] && SameIds(s.files, s'.files)
    requires var (t, t') := (s.threads[k], s'.threads[k]);
             t'.Finished? || t' == t || (t.Holding? && t'.Freeing? && t'.job == t.job)
    ensures Steady(s')
  {
    JustMoved(s.threads[k], s'.threads[k]);
    MovingKeepsSteady(s, s', k);
  }

  lemma OnlyTheReleaser(s: State, k: nat)
    requires Steady(s) && k < |s.threads| && IsRelease(s.threads[k])
    ensures forall j :: 0 <= j < |s.threads| && j != k ==> FileNeeded(s.threads[j]) != FileNeeded(s.threads[k])
  {
    forall j | 0 <= j < |s.threads| && j != k
      ensures FileNeeded(s.threads[j]) != FileNeeded(s.threads[k])
    {
      assert NoConflict(s.threads[k], s.threads[j]);
    }
  }

  lemma NotNeededAfterwards(s: State, s': State, k: nat, id: nat)
    requires k < |s.threads| && |s'.threads| == |s.threads| && s'.threads == s.threads[k := Finished]
    requires forall j :: 0 <= j < |s.threads| && j != k ==> FileNeeded(s.threads[j]) != Some(id)
    ensures !IsNeeded(s', id)
  {
  }

  lemma OtherStepsMoveOn(s: State, k: nat, choice: nat)
    requires CanAct(s, k) && !s.threads[k].Holding?
    ensures var s' := ActNext(s, k, choice);
      && k < |s.threads| == |s'.threads| && s'.threads == s.threads[k := s'.threads[k]]
      && MovesOn(s.threads[k], s'.threads[k]) && SameIds(s.files, s'.files)
  {
  }

  lemma ActStep(s: State, k: nat, choice: nat)
    requires Steady(s) && CanAct(s, k)
    ensures Steady(ActNext(s, k, choice)) <==> !ExitStrands(s, Act(k, choice))
  {
    hide Steady, ActNext, FileNeeded, MovesOn, SameIds, ExitStrands;
    if s.threads[k].Holding? {
      HoldingStep(s, k, choice);
    } else {
      OtherStepsMoveOn(s, k, choice);
      StrandsOnlyHolding(s, k, choice);
      MovingKeepsSteady(s, ActNext(s, k, choice), k);
    }
  }

  lemma StrandsOnlyHolding(s: State, k: nat, choice: nat)
    requires k < |s.threads| && !s.threads[k].Holding?
    ensures !ExitStrands(s, Act(k, choice))
  {
  }

  /** While the kernel keeps its rules for files, exactly one kind of step takes the file state
      from under a call: exit freeing a file that is still needed. */
  lemma StrandsExactly(s: State, e: Event)
    requires Steady(s) && Enabled(s, e) && FileRules(s, e)
    ensures Steady(Next(s, e)) <==> !ExitStrands(s, e)
  {
    hide Steady, ActNext;
    match e
    case Open(id) => OpenKeepsSteady(s, id);
    case Mmap(id, pid, va, size) => SpawningKeepsSteady(s, Filling(id, pid, va, size / PAGE_SIZE));
    case VmaClose(pid, va) => SpawningKeepsSteady(s, Closing(pid, va));
    case Release(id) =>
      NeededIfReleased(s, id);
      SpawningKeepsSteady(s, Releasing(id));
    case Exit => SpawningKeepsSteady(s, Checking);
    case Act(k, choice) => ActStep(s, k, choice);
  }

  lemma NeededIfReleased(s: State, id: nat)
    requires !IsNeeded(s, id)
    ensures !IsBeingReleased(s, id)
  {
  }

  // ---------------------------------------------------------------------------------------
  // Whole runs
  // ---------------------------------------------------------------------------------------

  /** In a steady state everyone who is not finished can act, or waits for a thread inside
      dev_lock that can. */
  lemma EveryoneProceeds(s: State, k: nat) returns (h: nat)
    requires Inv(s) && Steady(s) && k < |s.threads| && !s.threads[k].Finished?
    ensures CanAct(s, h) && (h == k || (s.locked && HoldsLock(s.threads[h]) == 1))
  {
    assert Laws(s, 0);
    assert FindsFile(s.threads[k], s.files);
    if CanAct(s, k) {
      h := k;
    } else {
      h := SumPositive(s.threads, HoldsLock);
      assert FindsFile(s.threads[h], s.files);
    }
  }

  predicate KeepsFileRules(s: State, events: seq<Event>)
    decreases |events|
  {
    events == [] || (Enabled(s, events[0]) && FileRules(s, events[0]) && KeepsFileRules(Next(s, events[0]), events[1..]))
  }

  predicate InExit(t: Thread) {
    t.Checking? || t.Exiting? || ((t.Holding? || t.Freeing?) && t.job == ExitJob)
  }

  /** A thread in exit past the check of the counter. */
  predicate PastCheck(t: Thread) {
    InExit(t) && !t.Checking?
  }

  predicate NobodyPast(s: State) {
    forall k :: 0 <= k < |s.threads| ==> !PastCheck(s.threads[k])
  }

  /** No exit of the run gets past its check of the counter. */
  predicate NoExitPasses(s: State, events: seq<Event>)
    requires KeepsFileRules(s, events)
    decreases |events|
  {
    NobodyPast(s) && (events != [] ==> NoExitPasses(Next(s, events[0]), events[1..]))
  }

  /** The module's own reference rule: every open file holds a reference, so exit starts only when
      no file is open, and no file is opened while an exit runs. */
  predicate ModuleRules(s: State, e: Event) {
    match e
    case Exit => s.files == []
    case Open(_) => forall k :: 0 <= k < |s.threads| ==> !InExit(s.threads[k])
    case _ => true
  }

  predicate KeepsModuleRules(s: State, events: seq<Event>)
    requires KeepsFileRules(s, events)
    decreases |events|
  {
    events == [] || (ModuleRules(s, events[0]) && KeepsModuleRules(Next(s, events[0]), events[1..]))
  }

  /** Exit runs on an empty list only. */
  predicate ExitAlone(s: State) {
    forall k :: 0 <= k < |s.threads| && InExit(s.threads[k]) ==> s.files == []
  }

  lemma EmptyStaysEmpty(s: State, e: Event)
    requires s.files == [] && Enabled(s, e) && !e.Open?
    ensures Next(s, e).files == []
  {
  }

  lemma ActChangesOne(s: State, k: nat, choice: nat)
    requires CanAct(s, k)
    ensures var s' := ActNext(s, k, choice);
            k < |s.threads| == |s'.threads| && s'.threads == s.threads[k := s'.threads[k]]
  {
    hide HasFile, Position, Link, Unlink, Without, FileOf, IndexOf;
  }

  lemma HoldingKeepsJob(s: State, k: nat, job: Job)
    requires k < |s.threads| && s.threads[k] == Holding(job) && FilePresent(s.files, job)
    ensures var t := HoldingNext(s, k, job).threads[k];
            t.Finished? || ((t.Holding? || t.Freeing?) && t.job == job)
  {
  }

  lemma InExitStep(s: State, k: nat, choice: nat)
    requires CanAct(s, k) && k < |ActNext(s, k, choice).threads| && InExit(ActNext(s, k, choice).threads[k])
    ensures InExit(s.threads[k])
  {
    hide HasFile, Position, Link, Unlink, Without, FileOf, IndexOf, HoldingNext;
    if s.threads[k].Holding? {
      HoldingKeepsJob(s, k, s.threads[k].job);
    }
  }

  lemma InExitBefore(s: State, e: Event, j: nat)
    requires Enabled(s, e) && e != Exit && j < |Next(s, e).threads| && InExit(Next(s, e).threads[j])
    ensures j < |s.threads| && InExit(s.threads[j])
  {
    hide ActNext, CanAct;
    if e.Act? {
      ActChangesOne(s, e.k, e.choice);
      if e.k == j {
        InExitStep(s, j, e.choice);
      }
    }
  }

  lemma ExitStaysAlone(s: State, e: Event)
    requires ExitAlone(s) && Enabled(s, e) && ModuleRules(s, e)
    ensures ExitAlone(Next(s, e))
  {
    hide Next, Enabled, InExit;
    var s' := Next(s, e);
    forall j: nat | j < |s'.threads| && InExit(s'.threads[j])
      ensures s'.files == []
    {
      if e != Exit {
        InExitBefore(s, e, j);
      }
      EmptyStaysEmpty(s, e);
    }
  }

  lemma {:induction false} SteadyWithoutExit(s: State, events: seq<Event>)
    requires Inv(s) && Steady(s) && KeepsFileRules(s, events) && NoExitPasses(s, events)
    ensures IsRun(s, events) && Inv(After(s, events)) && Steady(After(s, events))
    decreases |events|
  {
    if events != [] {
      hide Steady, Inv;
      StepInv(s, events[0]);
      StrandsExactly(s, events[0]);
      SteadyWithoutExit(Next(s, events[0]), events[1..]);
    }
  }

  lemma {:induction false} SteadyByReferences(s: State, events: seq<Event>)
    requires Inv(s) && Steady(s) && ExitAlone(s) && KeepsFileRules(s, events) && KeepsModuleRules(s, events)
    ensures IsRun(s, events) && Inv(After(s, events)) && Steady(After(s, events)) && ExitAlone(After(s, events))
    decreases |events|
  {
    if events != [] {
      hide Steady, Inv, Next, Enabled;
      StepInv(s, events[0]);
      StrandsExactly(s, events[0]);
      ExitStaysAlone(s, events[0]);
      SteadyByReferences(Next(s, events[0]), events[1..]);
    }
  }

  /** Nobody is stranded: over every interleaving that keeps the kernel's rules for files, and in
      which no exit passes its check or the module references are respected, every unfinished
      call can act or waits for one inside dev_lock that can. */
  lemma NobodyStranded(events: seq<Event>, k: nat) returns (h: nat)
    requires KeepsFileRules(INITIAL, events)
    requires NoExitPasses(INITIAL, events) || KeepsModuleRules(INITIAL, events)
    requires IsRun(INITIAL, events)
    requires k < |After(INITIAL, events).threads| && !After(INITIAL, events).threads[k].Finished?
    ensures var s := After(INITIAL, events);
            CanAct(s, h) && (h == k || (s.locked && HoldsLock(s.threads[h]) == 1))
  {
    InitialInv();
    if NoExitPasses(INITIAL, events) {
      SteadyWithoutExit(INITIAL, events);
    } else {
      SteadyByReferences(INITIAL, events);
    }
    h := EveryoneProceeds(After(INITIAL, events), k);
  }

  // ---------------------------------------------------------------------------------------
  // A run in which exit strands a release
  // ---------------------------------------------------------------------------------------

  lemma KeepsThen(s: State, e: Event, s': State, events: seq<Event>)
    requires Enabled(s, e) && FileRules(s, e) && s' == Next(s, e) && KeepsFileRules(s', events) && IsRun(s', events)
    ensures KeepsFileRules(s, [e] + events) && IsRun(s, [e] + events)
    ensures After(s, [e] + events) == After(s', events)
  {
    assert ([e] + events)[1..] == events;
  }

  /** Release is called on an open file; before it takes dev_lock, exit passes its check and
      frees the file state. Release then holds dev_lock for ever, without a step to take. */
  lemma StrandedReleaseWitness() returns (events: seq<Event>)
    ensures KeepsFileRules(INITIAL, events) && IsRun(INITIAL, events)
    ensures After(INITIAL, events) == State([], [Holding(ReleaseJob(1)), Finished], true, 0, 0, [])
    ensures forall k :: !CanAct(After(INITIAL, events), k)
  {
    var s1 := INITIAL.(files := [NEW_FILE]);
    var s2 := s1.(threads := [Releasing(1)]);
    var s3 := s1.(threads := [Releasing(1), Checking]);
    var s4 := s1.(threads := [Releasing(1), Exiting]);
    var s5 := s1.(threads := [Releasing(1), Holding(ExitJob)], locked := true);
    var s6 := s5.(files := []);
    var s7 := INITIAL.(threads := [Releasing(1), Finished]);
    var s8 := INITIAL.(threads := [Holding(ReleaseJob(1)), Finished], locked := true);
    assert s1.files[0].id == 1 && Without([NEW_FILE], 0) == [];
    KeepsThen(s7, Act(0, 0), s8, []);
    KeepsThen(s6, Act(1, 0), s7, [Act(0, 0)]);
    KeepsThen(s5, Act(1, 0), s6, [Act(1, 0)] + [Act(0, 0)]);
    KeepsThen(s4, Act(1, 0), s5, [Act(1, 0)] + ([Act(1, 0)] + [Act(0, 0)]));
    var tail := [Act(1, 0)] + ([Act(1, 0)] + ([Act(1, 0)] + [Act(0, 0)]));
    KeepsThen(s3, Act(1, 0), s4, tail);
    KeepsThen(s2, Exit, s3, [Act(1, 0)] + tail);
    KeepsThen(s1, Release(1), s2, [Exit] + ([Act(1, 0)] + tail));
    KeepsThen(INITIAL, Open(1), s1, [Release(1)] + ([Exit] + ([Act(1, 0)] + tail)));
    events := [Open(1)] + ([Release(1)] + ([Exit] + ([Act(1, 0)] + tail)));
  }
}
