/** Every call of the memory device driver ends: a natural number that each step of each call
    lowers, so that a run takes no more steps than its calls have paid for. */
module MemdevProgress {

  import opened Wrappers
  import opened Sums
  import opened MemdevDriver
  import opened MemdevRace
  import opened MemdevOrder

  // ---------------------------------------------------------------------------------------
  // What is still to be done
  // ---------------------------------------------------------------------------------------

  /** A listed region has to be taken off its list, freed page by page, and counted out. */
  function RegionCost(r: Region): nat { |r.pages| + 2 }

  function FileCost(f: File): nat { Sum(f.regions, RegionCost) + 1 }

  /** The steps a call has before it, and those it leaves to others by listing a region. */
  function ThreadCost(t: Thread): nat {
    match t
    case Filling(_, _, _, want) => want + 7
    case Filled(_, _, _, _, pages) => |pages| + 6
    case Mapped(_, _, _, _, pages) => |pages| + 5
    case Linking(_, region) => |region.pages| + 4
    case Counting => 1
    case Unwinding(pages) => |pages| + 1
    case Closing(_, _) => 1
    case Releasing(_) => 2
    case Checking => 3
    case Exiting => 2
    case Holding(_) => 1
    case Freeing(pages, _) => |pages| + 2
    case Finished => 0
  }

  function Cost(s: State): nat {
    Sum(s.threads, ThreadCost) + Sum(s.files, FileCost)
  }

  /** What a new call adds. */
  function CallCost(e: Event): nat {
    match e
    case Open(_) => 1
    case Mmap(_, _, _, size) => size / PAGE_SIZE + 7
    case VmaClose(_, _) => 1
    case Release(_) => 2
    case Exit => 3
    case Act(_, _) => 0
  }

  // ---------------------------------------------------------------------------------------
  // Every step lowers it
  // ---------------------------------------------------------------------------------------

  lemma UnlinkCost(files: seq<File>, i: nat, j: nat)
    requires i < |files| && j < |files[i].regions|
    ensures Sum(Unlink(files, i, j), FileCost) + RegionCost(files[i].regions[j]) == Sum(files, FileCost)
  {
    SumWithout(files[i].regions, RegionCost, j);
    SumUpdate(files, FileCost, i, files[i].(regions := Without(files[i].regions, j)));
  }

  lemma LinkCost(files: seq<File>, i: nat, r: Region)
    requires i < |files|
    ensures Sum(Link(files, i, r), FileCost) == Sum(files, FileCost) + RegionCost(r)
  {
    assert ([r] + files[i].regions)[1..] == files[i].regions;
    SumUpdate(files, FileCost, i, files[i].(regions := [r] + files[i].regions));
  }

  /** A step is judged by the thread that takes it and the lists. */
  lemma StepCost(s: State, s': State, k: nat)
    requires k < |s.threads| && |s'.threads| == |s.threads| && s'.threads == s.threads[k := s'.threads[k]]
    ensures Cost(s') + ThreadCost(s.threads[k]) + Sum(s.files, FileCost)
         == Cost(s) + ThreadCost(s'.threads[k]) + Sum(s'.files, FileCost)
  {
    SumUpdate(s.threads, ThreadCost, k, s'.threads[k]);
  }

  lemma HoldingLowers(s: State, k: nat, job: Job)
    requires k < |s.threads| && s.threads[k] == Holding(job) && FilePresent(s.files, job)
    ensures Cost(HoldingNext(s, k, job)) < Cost(s)
  {
    hide Cost, Sum;
    var s' := HoldingNext(s, k, job);
    StepCost(s, s', k);
    if !job.CloseJob? && s.files != [] {
      var i := if job.ExitJob? then 0 else Position(s.files, job.id);
      if s.files[i].regions != [] {
        UnlinkCost(s.files, i, 0);
      } else {
        SumWithout(s.files, FileCost, i);
      }
    }
  }

  lemma ClosingLowers(s: State, k: nat, choice: nat)
    requires CanAct(s, k) && s.threads[k].Closing?
    ensures Cost(ActNext(s, k, choice)) < Cost(s)
  {
    hide Cost, Sum;
    var Closing(pid, va) := s.threads[k];
    StepCost(s, ActNext(s, k, choice), k);
    var i := FileOf(s.files, pid, va, 0);
    if i < |s.files| {
      UnlinkCost(s.files, i, IndexOf(s.files[i].regions, pid, va, 0));
    }
  }

  lemma LinkingLowers(s: State, k: nat, choice: nat)
    requires CanAct(s, k) && s.threads[k].Linking?
    ensures Cost(ActNext(s, k, choice)) < Cost(s)
  {
    hide Cost, Sum;
    StepCost(s, ActNext(s, k, choice), k);
    LinkCost(s.files, Position(s.files, s.threads[k].id), s.threads[k].region);
  }

  lemma OtherLowers(s: State, k: nat, choice: nat)
    requires CanAct(s, k) && !s.threads[k].Closing? && !s.threads[k].Linking? && !s.threads[k].Holding?
    ensures Cost(ActNext(s, k, choice)) < Cost(s)
  {
    hide Cost, Sum, HasFile, Position, Link, Unlink, Without, FileOf, IndexOf, HoldingNext;
    StepCost(s, ActNext(s, k, choice), k);
  }

  lemma ActLowers(s: State, k: nat, choice: nat)
    requires CanAct(s, k)
    ensures Cost(ActNext(s, k, choice)) < Cost(s)
  {
    hide Cost;
    match s.threads[k]
    case Holding(job) => HoldingLowers(s, k, job);
    case Closing(_, _) => ClosingLowers(s, k, choice);
    case Linking(_, _) => LinkingLowers(s, k, choice);
    case _ => OtherLowers(s, k, choice);
  }

  lemma SpawnCost(s: State, t: Thread)
    ensures Cost(Spawn(s, t)) == Cost(s) + ThreadCost(t)
  {
    SumAppend(s.threads, ThreadCost, t);
  }

  lemma OpenCost(s: State, id: nat)
    ensures Cost(s.(files := [File(id, [])] + s.files)) == Cost(s) + 1
  {
    assert ([File(id, [])] + s.files)[1..] == s.files;
  }

  /** A call that starts adds its cost; a step of a call lowers the rest by at least one. */
  lemma NextCost(s: State, e: Event)
    requires Enabled(s, e)
    ensures Cost(Next(s, e)) + (if e.Act? then 1 else 0) <= Cost(s) + CallCost(e)
  {
    hide Cost, ActNext, CanAct;
    match e
    case Open(id) => OpenCost(s, id);
    case Mmap(id, pid, va, size) => SpawnCost(s, Filling(id, pid, va, size / PAGE_SIZE));
    case VmaClose(pid, va) => SpawnCost(s, Closing(pid, va));
    case Release(id) => SpawnCost(s, Releasing(id));
    case Exit => SpawnCost(s, Checking);
    case Act(k, choice) => ActLowers(s, k, choice);
  }

  // ---------------------------------------------------------------------------------------
  // Whole runs
  // ---------------------------------------------------------------------------------------

  function Steps(events: seq<Event>): nat {
    if events == [] then 0 else (if events[0].Act? then 1 else 0) + Steps(events[1..])
  }

  function Calls(events: seq<Event>): nat {
    if events == [] then 0 else CallCost(events[0]) + Calls(events[1..])
  }

  /** Over every interleaving: no more steps are taken than what was to be done at the start plus
      what the calls made since have added. */
  lemma {:induction false} StepsBounded(s: State, events: seq<Event>)
    requires IsRun(s, events)
    ensures Steps(events) + Cost(After(s, events)) <= Cost(s) + Calls(events)
    decreases |events|
  {
    if events != [] {
      hide Cost, Next, Enabled, CallCost;
      NextCost(s, events[0]);
      StepsBounded(Next(s, events[0]), events[1..]);
    }
  }

  /** Every call ends. Over every interleaving that keeps the kernel's rules for files, and in which
      no exit passes its check or the module references are respected: the steps taken are bounded
      by the sizes of the calls made, and when no step is left, every call has finished. */
  lemma EveryCallEnds(events: seq<Event>)
    requires KeepsFileRules(INITIAL, events) && IsRun(INITIAL, events)
    requires NoExitPasses(INITIAL, events) || KeepsModuleRules(INITIAL, events)
    ensures Steps(events) <= Calls(events)
    ensures (forall k :: !CanAct(After(INITIAL, events), k)) ==>
              forall k :: 0 <= k < |After(INITIAL, events).threads| ==> After(INITIAL, events).threads[k].Finished?
  {
    hide NoExitPasses, KeepsModuleRules, KeepsFileRules, CanAct, After;
    StepsBounded(INITIAL, events);
    assert Cost(INITIAL) == 0;
    var s := After(INITIAL, events);
    if (forall k :: !CanAct(s, k)) && exists k: nat :: k < |s.threads| && !s.threads[k].Finished? {
      var k: nat :| k < |s.threads| && !s.threads[k].Finished?;
      var h := NobodyStranded(events, k);
      assert false;
    }
  }
}
