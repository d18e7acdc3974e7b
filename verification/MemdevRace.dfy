/** The memory device driver under concurrency: any number of mmap, vma_close, release and exit
    calls interleaved at every access to the region lists (under dev_lock), to the mapping
    counter (atomic, not always under dev_lock) and to the page references. */
module MemdevRace {

  import opened Sums
  import opened MemdevDriver

  /** What a thread that holds dev_lock is doing. */
  datatype Job = CloseJob | ReleaseJob(id: nat) | ExitJob

  datatype Thread =
    // mmap
    | Filling(id: nat, pid: int, va: nat, want: nat)                       // bulk allocation next
    | Filled(id: nat, pid: int, va: nat, want: nat, pages: seq<Page>)      // compare, insert into the vma
    | Mapped(id: nat, pid: int, va: nat, want: nat, pages: seq<Page>)      // allocate the region record
    | Linking(id: nat, region: Region)                                     // list_add under dev_lock
    | Counting                                                             // atomic_inc
    | Unwinding(pages: seq<Page>)                                          // error path: free the last page
    // vma_close, release, exit
    | Closing(pid: int, va: nat)                                           // take dev_lock, search
    | Releasing(id: nat)                                                   // take dev_lock
    | Checking                                                             // exit reads the counter
    | Exiting                                                              // exit takes dev_lock
    | Holding(job: Job)                                                    // next region, or unlock
    | Freeing(pages: seq<Page>, job: Job)                                  // free a page, at the end atomic_dec
    | Finished

  datatype State = State(
    files: seq<File>, threads: seq<Thread>, locked: bool,
    mapped: int, nextPage: Page, freed: seq<Page>)

  const INITIAL: State := State([], [], false, 0, 0, [])

  datatype Event =
    | Open(id: nat)
    | Mmap(id: nat, pid: int, va: nat, size: nat)
    | VmaClose(pid: int, va: nat)
    | Release(id: nat)
    | Exit
    | Act(k: nat, choice: nat)

  function Position(files: seq<File>, id: nat): (i: nat)
    requires HasFile(files, id)
    ensures i < |files| && files[i].id == id
  {
    if files[0].id == id then 0
    else
      assert HasFile(files[1..], id) by {
        var i :| 0 <= i < |files| && files[i].id == id;
        assert files[1..][i - 1].id == id;
      }
      1 + Position(files[1..], id)
  }

  /** The file that a job works on is listed. */
  predicate FilePresent(files: seq<File>, job: Job) {
    job.ReleaseJob? ==> HasFile(files, job.id)
  }

  /** A thread can act unless it is finished or dev_lock is taken. A step on a file state that
      exit has already freed is not part of the model: MemdevOrder says when one comes up. */
  predicate CanAct(s: State, k: nat) {
    k < |s.threads| &&
    match s.threads[k]
    case Linking(id, _) => !s.locked && HasFile(s.files, id)
    case Closing(_, _) => !s.locked
    case Releasing(_) => !s.locked
    case Exiting => !s.locked
    case Holding(ReleaseJob(id)) => HasFile(s.files, id)
    case Finished => false
    case _ => true
  }

  predicate Enabled(s: State, e: Event) {
    match e
    case Open(id) => !s.locked && !HasFile(s.files, id)
    case Mmap(id, _, _, size) => size > 0 && size % PAGE_SIZE == 0
    case Act(k, _) => CanAct(s, k)
    case _ => true
  }

  function Spawn(s: State, t: Thread): State {
    s.(threads := s.threads + [t])
  }

  function Goto(s: State, k: nat, t: Thread): State
    requires k < |s.threads|
  {
    s.(threads := s.threads[k := t])
  }

  /** A thread that holds the lock takes the next region off a list, or is done. */
  function HoldingNext(s: State, k: nat, job: Job): State
    requires k < |s.threads|
    requires job.ReleaseJob? ==> HasFile(s.files, job.id)
  {
    match job
    case CloseJob => Goto(s, k, Finished).(locked := false)
    case ReleaseJob(id) =>
      var i := Position(s.files, id);
      if s.files[i].regions != []
      then Goto(s, k, Freeing(s.files[i].regions[0].pages, job)).(files := Unlink(s.files, i, 0))
      else Goto(s, k, Finished).(files := Without(s.files, i), locked := false)
    case ExitJob =>
      if s.files == [] then Goto(s, k, Finished).(locked := false)
      else if s.files[0].regions != []
      then Goto(s, k, Freeing(s.files[0].regions[0].pages, job)).(files := Unlink(s.files, 0, 0))
      else s.(files := Without(s.files, 0))
  }

  function Min(a: nat, b: nat): nat {
    if a < b then a else b
  }

  function ActNext(s: State, k: nat, choice: nat): State
    requires CanAct(s, k)
  {
    match s.threads[k]
    case Filling(id, pid, va, want) =>
      var granted := Min(choice, want);
      Goto(s, k, Filled(id, pid, va, want, NewPages(s.nextPage, granted))).(nextPage := s.nextPage + granted)
    case Filled(id, pid, va, want, pages) =>
      Goto(s, k, if |pages| == want && choice == 0 then Mapped(id, pid, va, want, pages) else Unwinding(pages))
    case Mapped(id, pid, va, want, pages) =>
      Goto(s, k, if choice == 0 then Linking(id, Region(pid, va, want * PAGE_SIZE, pages)) else Unwinding(pages))
    case Linking(id, region) =>
      Goto(s, k, Counting).(files := Link(s.files, Position(s.files, id), region))
    case Counting => Goto(s, k, Finished).(mapped := s.mapped + 1)
    case Unwinding(pages) =>
      if pages == [] then Goto(s, k, Finished)
      else Goto(s, k, Unwinding(pages[..|pages| - 1])).(freed := s.freed + [pages[|pages| - 1]])
    case Closing(pid, va) =>
      var i := FileOf(s.files, pid, va, 0);
      if i == |s.files| then Goto(s, k, Finished)
      else
        var j := IndexOf(s.files[i].regions, pid, va, 0);
        Goto(s, k, Freeing(s.files[i].regions[j].pages, CloseJob)).(files := Unlink(s.files, i, j), locked := true)
    case Releasing(id) => Goto(s, k, Holding(ReleaseJob(id))).(locked := true)
    case Checking => Goto(s, k, if s.mapped > 0 then Finished else Exiting)
    case Exiting => Goto(s, k, Holding(ExitJob)).(locked := true)
    case Holding(job) => HoldingNext(s, k, job)
    case Freeing(pages, job) =>
      if pages == [] then Goto(s, k, Holding(job)).(mapped := s.mapped - 1)
      else Goto(s, k, Freeing(pages[1..], job)).(freed := s.freed + [pages[0]])
  }

  function Next(s: State, e: Event): State
    requires Enabled(s, e)
  {
    match e
    case Open(id) => s.(files := [File(id, [])] + s.files)
    case Mmap(id, pid, va, size) => Spawn(s, Filling(id, pid, va, size / PAGE_SIZE))
    case VmaClose(pid, va) => Spawn(s, Closing(pid, va))
    case Release(id) => Spawn(s, Releasing(id))
    case Exit => Spawn(s, Checking)
    case Act(k, choice) => ActNext(s, k, choice)
  }

  predicate IsRun(s: State, events: seq<Event>)
    decreases |events|
  {
    events == [] || (Enabled(s, events[0]) && IsRun(Next(s, events[0]), events[1..]))
  }

  function After(s: State, events: seq<Event>): State
    requires IsRun(s, events)
    decreases |events|
  {
    if events == [] then s else After(Next(s, events[0]), events[1..])
  }

  // ---------------------------------------------------------------------------------------
  // Conservation laws
  // ---------------------------------------------------------------------------------------

  function Carried(t: Thread): seq<Page> {
    match t
    case Filled(_, _, _, _, pages) => pages
    case Mapped(_, _, _, _, pages) => pages
    case Linking(_, region) => region.pages
    case Unwinding(pages) => pages
    case Freeing(pages, _) => pages
    case _ => []
  }

  function ThreadHolds(p: Page): Thread -> nat {
    (t: Thread) => Times(Carried(t), p)
  }

  function Uncounted(t: Thread): nat { if t.Counting? then 1 else 0 }
  function Undropped(t: Thread): nat { if t.Freeing? then 1 else 0 }
  function HoldsLock(t: Thread): nat { if t.Freeing? || t.Holding? then 1 else 0 }

  /** How often page p's reference is held or has been dropped. */
  function References(s: State, p: Page): nat {
    Sum(s.files, FileHolds(p)) + Sum(s.threads, ThreadHolds(p)) + Times(s.freed, p)
  }

  /** A page the allocator has handed out has one reference: listed, carried by one call, or
      dropped once. A page it has not handed out has none. */
  predicate PageOk(s: State, p: Page) {
    References(s, p) == if p < s.nextPage then 1 else 0
  }

  /** The counter is the number of listed regions, minus the mmaps between list insertion and
      increment, plus the regions already unlinked but not yet counted out. */
  predicate CounterOk(s: State) {
    s.mapped + Sum(s.threads, Uncounted) == Listed(s.files) + Sum(s.threads, Undropped)
  }

  predicate LockOk(s: State) {
    Sum(s.threads, HoldsLock) == if s.locked then 1 else 0
  }

  predicate Laws(s: State, p: Page) {
    CounterOk(s) && LockOk(s) && PageOk(s, p)
  }

  ghost predicate Inv(s: State) {
    forall p: Page :: Laws(s, p)
  }

  lemma InitialInv()
    ensures Inv(INITIAL)
  {
  }

  lemma {:induction false} NewPagesTimes(first: Page, n: nat, p: Page)
    ensures Times(NewPages(first, n), p) == if first <= p < first + n then 1 else 0
  {
    if n == 0 {
      assert NewPages(first, n) == [];
    } else {
      NewPagesTimes(first, n - 1, p);
      assert NewPages(first, n) == NewPages(first, n - 1) + [first + n - 1];
    }
  }

  lemma TimesOfFirst(s: seq<Page>, p: Page)
    requires s != []
    ensures Times(s, p) == (if s[0] == p then 1 else 0) + Times(s[1..], p)
  {
    assert s == [s[0]] + s[1..];
  }

  lemma TimesOfLast(s: seq<Page>, p: Page)
    requires s != []
    ensures Times(s, p) == Times(s[..|s| - 1], p) + (if s[|s| - 1] == p then 1 else 0)
  {
    assert s == s[..|s| - 1] + [s[|s| - 1]];
  }

  lemma TimesAppended(s: seq<Page>, x: Page, p: Page)
    ensures Times(s + [x], p) == Times(s, p) + (if x == p then 1 else 0)
  {
  }

  /** Dropping a file that lists nothing loses nothing. */
  lemma DropEmptyFile(files: seq<File>, i: nat, p: Page)
    requires i < |files| && files[i].regions == []
    ensures Sum(Without(files, i), FileHolds(p)) == Sum(files, FileHolds(p))
    ensures Listed(Without(files, i)) == Listed(files)
  {
    SumWithout(files, FileHolds(p), i);
    SumWithout(files, RegionCount, i);
  }

  lemma SpawnInv(s: State, t: Thread, p: Page)
    requires CounterOk(s) && LockOk(s) && PageOk(s, p)
    requires Carried(t) == [] && Uncounted(t) == Undropped(t) == HoldsLock(t) == 0
    ensures var s' := Spawn(s, t); CounterOk(s') && LockOk(s') && PageOk(s', p)
  {
    SumAppend(s.threads, Uncounted, t);
    SumAppend(s.threads, Undropped, t);
    SumAppend(s.threads, HoldsLock, t);
    SumAppend(s.threads, ThreadHolds(p), t);
  }

  /** A step of thread k keeps the laws when its own share and the shared state balance. */
  lemma Balanced(s: State, s': State, k: nat, p: Page)
    requires Laws(s, p) && k < |s.threads| && |s'.threads| == |s.threads|
    requires s'.threads == s.threads[k := s'.threads[k]]
    requires s'.mapped + Uncounted(s'.threads[k]) - Undropped(s'.threads[k]) - Listed(s'.files)
          == s.mapped + Uncounted(s.threads[k]) - Undropped(s.threads[k]) - Listed(s.files)
    requires HoldsLock(s'.threads[k]) - (if s'.locked then 1 else 0) == HoldsLock(s.threads[k]) - (if s.locked then 1 else 0)
    requires Share(s', k, p) - (if p < s'.nextPage then 1 else 0) == Share(s, k, p) - (if p < s.nextPage then 1 else 0)
    ensures Laws(s', p)
  {
    var t := s'.threads[k];
    SumUpdate(s.threads, Uncounted, k, t);
    SumUpdate(s.threads, Undropped, k, t);
    SumUpdate(s.threads, HoldsLock, k, t);
    SumUpdate(s.threads, ThreadHolds(p), k, t);
  }

  /** The references to p outside the other threads. */
  function Share(s: State, k: nat, p: Page): nat
    requires k < |s.threads|
  {
    Sum(s.files, FileHolds(p)) + Times(Carried(s.threads[k]), p) + Times(s.freed, p)
  }

  lemma FillingInv(s: State, k: nat, choice: nat, p: Page)
    requires Laws(s, p) && CanAct(s, k) && s.threads[k].Filling?
    ensures Laws(ActNext(s, k, choice), p)
  {
    var s' := ActNext(s, k, choice);
    NewPagesTimes(s.nextPage, Min(choice, s.threads[k].want), p);
    assert Times(Carried(s.threads[k]), p) == 0;
    Balanced(s, s', k, p);
  }

  lemma LinkingInv(s: State, k: nat, p: Page)
    requires Laws(s, p) && CanAct(s, k) && s.threads[k].Linking?
    ensures Laws(ActNext(s, k, 0), p)
  {
    var t := s.threads[k];
    LinkAccounts(s.files, Position(s.files, t.id), t.region, p);
    Balanced(s, ActNext(s, k, 0), k, p);
  }

  lemma UnwindingInv(s: State, k: nat, p: Page)
    requires Laws(s, p) && CanAct(s, k) && s.threads[k].Unwinding?
    ensures Laws(ActNext(s, k, 0), p)
  {
    hide Sum;
    var pages := s.threads[k].pages;
    if pages != [] {
      TimesOfLast(pages, p);
      TimesAppended(s.freed, pages[|pages| - 1], p);
    }
    Balanced(s, ActNext(s, k, 0), k, p);
  }

  /** Steps that only move a thread on, with what it carries. */
  lemma MovingInv(s: State, k: nat, choice: nat, p: Page)
    requires Laws(s, p) && CanAct(s, k)
    requires var t := s.threads[k]; t.Filled? || t.Mapped? || t.Counting? || t.Releasing? || t.Checking? || t.Exiting?
    ensures Laws(ActNext(s, k, choice), p)
  {
    hide Sum, HasFile, Position, Link, Unlink, Without, FileOf, IndexOf, HoldingNext;
    Balanced(s, ActNext(s, k, choice), k, p);
  }

  lemma UnlinkingInv(s: State, k: nat, i: nat, j: nat, job: Job, p: Page)
    requires Laws(s, p) && k < |s.threads| && i < |s.files| && j < |s.files[i].regions|
    requires s.threads[k].Closing? || s.threads[k].Holding?
    requires s.locked == s.threads[k].Holding?
    ensures Laws(Goto(s, k, Freeing(s.files[i].regions[j].pages, job)).(files := Unlink(s.files, i, j), locked := true), p)
  {
    hide Sum;
    UnlinkAccounts(s.files, i, j, p);
    Balanced(s, Goto(s, k, Freeing(s.files[i].regions[j].pages, job)).(files := Unlink(s.files, i, j), locked := true), k, p);
  }

  lemma DroppingInv(s: State, i: nat, p: Page)
    requires Laws(s, p) && i < |s.files| && s.files[i].regions == []
    ensures Laws(s.(files := Without(s.files, i)), p)
  {
    DropEmptyFile(s.files, i, p);
  }

  lemma UnlockingInv(s: State, k: nat, p: Page)
    requires Laws(s, p) && k < |s.threads| && s.threads[k].Holding? && s.locked
    ensures Laws(Goto(s, k, Finished).(locked := false), p)
  {
    Balanced(s, Goto(s, k, Finished).(locked := false), k, p);
  }

  lemma HoldingInv(s: State, k: nat, p: Page)
    requires Laws(s, p) && CanAct(s, k) && s.threads[k].Holding? && s.locked
    ensures Laws(HoldingNext(s, k, s.threads[k].job), p)
  {
    var job := s.threads[k].job;
    if job.CloseJob? || (job.ExitJob? && s.files == []) {
      UnlockingInv(s, k, p);
    } else {
      var i := if job.ExitJob? then 0 else Position(s.files, job.id);
      if s.files[i].regions != [] {
        UnlinkingInv(s, k, i, 0, job, p);
      } else {
        DroppingInv(s, i, p);
        UnlockingInv(s.(files := Without(s.files, i)), k, p);
      }
    }
  }

  lemma FreeingInv(s: State, k: nat, p: Page)
    requires Laws(s, p) && CanAct(s, k) && s.threads[k].Freeing?
    ensures Laws(ActNext(s, k, 0), p)
  {
    var pages := s.threads[k].pages;
    if pages != [] {
      FreeingPageInv(s, k, p);
    } else {
      Balanced(s, ActNext(s, k, 0), k, p);
    }
  }

  lemma FreeingPageInv(s: State, k: nat, p: Page)
    requires Laws(s, p) && k < |s.threads| && s.threads[k].Freeing? && s.threads[k].pages != []
    ensures Laws(ActNext(s, k, 0), p)
  {
    hide Sum;
    var pages := s.threads[k].pages;
    var s' := Goto(s, k, Freeing(pages[1..], s.threads[k].job)).(freed := s.freed + [pages[0]]);
    assert Share(s', k, p) == Share(s, k, p) by {
      TimesOfFirst(pages, p);
      TimesAppended(s.freed, pages[0], p);
    }
    Balanced(s, s', k, p);
  }

  lemma ClosingInv(s: State, k: nat, p: Page)
    requires Laws(s, p) && CanAct(s, k) && s.threads[k].Closing?
    ensures Laws(ActNext(s, k, 0), p)
  {
    var Closing(pid, va) := s.threads[k];
    var i := FileOf(s.files, pid, va, 0);
    if i < |s.files| {
      UnlinkingInv(s, k, i, IndexOf(s.files[i].regions, pid, va, 0), CloseJob, p);
    } else {
      Balanced(s, ActNext(s, k, 0), k, p);
    }
  }

  lemma ActInv(s: State, k: nat, choice: nat, p: Page)
    requires Laws(s, p) && CanAct(s, k)
    ensures Laws(ActNext(s, k, choice), p)
  {
    match s.threads[k]
    case Filling(_, _, _, _) => FillingInv(s, k, choice, p);
    case Linking(_, _) => LinkingInv(s, k, p);
    case Unwinding(_) => UnwindingInv(s, k, p);
    case Closing(_, _) => ClosingInv(s, k, p);
    case Freeing(_, _) => FreeingInv(s, k, p);
    case Holding(_) =>
      SumAtLeast(s.threads, HoldsLock, k);
      HoldingInv(s, k, p);
    case _ => MovingInv(s, k, choice, p);
  }

  lemma OpenInv(s: State, id: nat, p: Page)
    requires Laws(s, p)
    ensures Laws(s.(files := [File(id, [])] + s.files), p)
  {
    assert ([File(id, [])] + s.files)[1..] == s.files;
  }

  lemma StepLaws(s: State, e: Event, p: Page)
    requires Laws(s, p) && Enabled(s, e)
    ensures Laws(Next(s, e), p)
  {
    hide Sum;
    match e
    case Open(id) => OpenInv(s, id, p);
    case Mmap(id, pid, va, size) => SpawnInv(s, Filling(id, pid, va, size / PAGE_SIZE), p);
    case VmaClose(pid, va) => SpawnInv(s, Closing(pid, va), p);
    case Release(id) => SpawnInv(s, Releasing(id), p);
    case Exit => SpawnInv(s, Checking, p);
    case Act(k, choice) => ActInv(s, k, choice, p);
  }

  lemma StepInv(s: State, e: Event)
    requires Inv(s) && Enabled(s, e)
    ensures Inv(Next(s, e))
  {
    forall p: Page
      ensures Laws(Next(s, e), p)
    {
      assert Laws(s, p);
      StepLaws(s, e, p);
    }
  }

  lemma {:induction false} RunInv(s: State, events: seq<Event>)
    requires Inv(s) && IsRun(s, events)
    ensures Inv(After(s, events))
    decreases |events|
  {
    if events != [] {
      StepInv(s, events[0]);
      RunInv(Next(s, events[0]), events[1..]);
    }
  }

  /** Over every interleaving: each page handed out has exactly one reference, every other page
      has none, and the counter follows its law. */
  lemma Conservation(events: seq<Event>)
    requires IsRun(INITIAL, events)
    ensures var s := After(INITIAL, events);
      && (forall p: Page :: References(s, p) == if p < s.nextPage then 1 else 0)
      && s.mapped == Listed(s.files) - Sum(s.threads, Uncounted) + Sum(s.threads, Undropped)
  {
    InitialInv();
    RunInv(INITIAL, events);
    InvAccounts(After(INITIAL, events));
  }

  lemma InvAccounts(s: State)
    requires Inv(s)
    ensures forall p: Page :: References(s, p) == if p < s.nextPage then 1 else 0
    ensures s.mapped == Listed(s.files) - Sum(s.threads, Uncounted) + Sum(s.threads, Undropped)
  {
    assert Laws(s, 0);
    forall p: Page
      ensures References(s, p) == if p < s.nextPage then 1 else 0
    {
      assert Laws(s, p);
    }
  }

  /** At most one thread is inside dev_lock. */
  lemma MutualExclusion(events: seq<Event>, i: nat, j: nat)
    requires IsRun(INITIAL, events)
    requires i < j < |After(INITIAL, events).threads|
    ensures var s := After(INITIAL, events); HoldsLock(s.threads[i]) + HoldsLock(s.threads[j]) <= 1
  {
    InitialInv();
    RunInv(INITIAL, events);
    var s := After(INITIAL, events);
    assert Laws(s, 0);
    SumPair(s.threads, HoldsLock, i, j);
  }

  /** When no call is running, the counter is the number of mappings, and every page is either
      listed in exactly one place or was freed exactly once. */
  lemma Quiescent(events: seq<Event>)
    requires IsRun(INITIAL, events)
    requires forall k :: 0 <= k < |After(INITIAL, events).threads| ==> After(INITIAL, events).threads[k].Finished?
    ensures var s := After(INITIAL, events);
      && s.mapped == Listed(s.files)
      && forall p: Page :: p < s.nextPage ==> Sum(s.files, FileHolds(p)) + Times(s.freed, p) == 1
  {
    Conservation(events);
    var s := After(INITIAL, events);
    SumAllZero(s.threads, Uncounted);
    SumAllZero(s.threads, Undropped);
    forall p: Page | p < s.nextPage
      ensures Sum(s.files, FileHolds(p)) + Times(s.freed, p) == 1
    {
      SumAllZero(s.threads, ThreadHolds(p));
      assert References(s, p) == 1;
    }
  }

  // ---------------------------------------------------------------------------------------
  // The lists belong to the lock holder
  // ---------------------------------------------------------------------------------------

  /** While thread k is inside dev_lock, no other thread's step changes the lists, or thread k. */
  lemma LockProtectsLists(s: State, k: nat, e: Event)
    requires Inv(s) && Enabled(s, e) && k < |s.threads| && HoldsLock(s.threads[k]) == 1
    requires !(e.Act? && e.k == k)
    ensures var s' := Next(s, e);
            s'.files == s.files && k < |s'.threads| && s'.threads[k] == s.threads[k]
  {
    hide Sum;
    assert Laws(s, 0);
    SumAtLeast(s.threads, HoldsLock, k);
    if e.Act? {
      if e.k < k { SumPair(s.threads, HoldsLock, e.k, k); } else { SumPair(s.threads, HoldsLock, k, e.k); }
    }
  }

  /** The events of a run up to the step with which thread k finishes. */
  predicate EndsWith(s: State, k: nat, events: seq<Event>)
    decreases |events|
  {
    && k < |s.threads|
    && events != []
    && Enabled(s, events[0])
    && var s' := Next(s, events[0]);
    if k < |s'.threads| && s'.threads[k].Finished? then |events| == 1 else EndsWith(s', k, events[1..])
  }

  lemma {:induction false} PositionAfterUnlink(files: seq<File>, id: nat, i: nat, j: nat)
    requires HasFile(files, id) && i < |files| && j < |files[i].regions|
    ensures HasFile(Unlink(files, i, j), id)
    ensures Position(Unlink(files, i, j), id) == Position(files, id)
    decreases |files|
  {
    var u := Unlink(files, i, j);
    var m :| 0 <= m < |files| && files[m].id == id;
    assert u[m].id == id;
    if files[0].id != id {
      assert files[1..][m - 1].id == id;
      if i == 0 {
        assert u[1..] == files[1..];
      } else {
        assert u[1..] == Unlink(files[1..], i - 1, j);
        PositionAfterUnlink(files[1..], id, i - 1, j);
      }
    }
  }

  // ---------------------------------------------------------------------------------------
  // Exit
  // ---------------------------------------------------------------------------------------

  /** The check in exit lets a listed region through exactly when mmaps that have inserted
      their region but not yet counted it make up for everything listed and being freed. */
  lemma ExitCheckExact(s: State, k: nat)
    requires Inv(s) && k < |s.threads| && s.threads[k].Checking?
    ensures ActNext(s, k, 0).threads[k].Exiting? <==>
            Listed(s.files) + Sum(s.threads, Undropped) <= Sum(s.threads, Uncounted)
    ensures Sum(s.threads, Uncounted) == 0 && ActNext(s, k, 0).threads[k].Exiting? ==> Listed(s.files) == 0
  {
    assert Laws(s, 0);
  }

  predicate NoLinking(t: Thread) {
    !t.Filling? && !t.Filled? && !t.Mapped? && !t.Linking?
  }

  /** As long as no mmap is on its way to the list, an empty set of listed regions stays empty,
      so an exit that passed its check frees no region when it gets the lock. */
  lemma {:induction false} NothingLeftToFree(s: State, events: seq<Event>)
    requires IsRun(s, events) && Listed(s.files) == 0
    requires forall k :: 0 <= k < |s.threads| ==> NoLinking(s.threads[k])
    requires forall i :: 0 <= i < |events| ==> !events[i].Mmap?
    ensures Listed(After(s, events).files) == 0
    decreases |events|
  {
    hide Listed, Next, Enabled, NoLinking;
    if events != [] {
      StepKeepsEmpty(s, events[0]);
      NothingLeftToFree(Next(s, events[0]), events[1..]);
    }
  }

  lemma StepKeepsEmpty(s: State, e: Event)
    requires Enabled(s, e) && !e.Mmap? && Listed(s.files) == 0
    requires forall k :: 0 <= k < |s.threads| ==> NoLinking(s.threads[k])
    ensures Listed(Next(s, e).files) == 0
    ensures forall k :: 0 <= k < |Next(s, e).threads| ==> NoLinking(Next(s, e).threads[k])
  {
    var s' := Next(s, e);
    if e.Open? {
      assert s'.files[1..] == s.files;
    }
    if e.Act? {
      ActKeepsEmpty(s, e.k, e.choice);
    }
  }

  lemma ActKeepsEmpty(s: State, k: nat, choice: nat)
    requires CanAct(s, k) && Listed(s.files) == 0 && NoLinking(s.threads[k])
    ensures Listed(ActNext(s, k, choice).files) == 0 && NoLinking(ActNext(s, k, choice).threads[k])
  {
    forall i | 0 <= i < |s.files|
      ensures s.files[i].regions == []
    {
      SumAtLeast(s.files, RegionCount, i);
    }
    match s.threads[k]
    case Holding(ReleaseJob(id)) => DropEmptyFile(s.files, Position(s.files, id), 0);
    case Holding(ExitJob) => if s.files != [] { DropEmptyFile(s.files, 0, 0); }
    case _ =>
  }

  /** An exit whose check runs while no mmap is in flight either is refused and changes nothing
      but itself, or finds no region on any list from then on, as long as no mmap starts. */
  lemma QuietExit(before: seq<Event>, k: nat, later: seq<Event>)
    requires IsRun(INITIAL, before)
    requires var s := After(INITIAL, before);
      && k < |s.threads| && s.threads[k].Checking?
      && (forall i :: 0 <= i < |s.threads| ==> NoLinking(s.threads[i]) && !s.threads[i].Counting?)
      && IsRun(ActNext(s, k, 0), later)
    requires forall i :: 0 <= i < |later| ==> !later[i].Mmap?
    ensures var s := After(INITIAL, before);
      || ActNext(s, k, 0) == Goto(s, k, Finished)
      || Listed(After(ActNext(s, k, 0), later).files) == 0
  {
    InitialInv();
    RunInv(INITIAL, before);
    var s := After(INITIAL, before);
    assert Laws(s, 0);
    SumAllZero(s.threads, Uncounted);
    ExitCheckExact(s, k);
    if ActNext(s, k, 0) != Goto(s, k, Finished) {
      NothingLeftToFree(ActNext(s, k, 0), later);
    }
  }

  lemma {:induction false} RunThen(s: State, first: seq<Event>, second: seq<Event>)
    requires IsRun(s, first) && IsRun(After(s, first), second)
    ensures IsRun(s, first + second) && After(s, first + second) == After(After(s, first), second)
    decreases |first|
  {
    if first == [] {
      assert first + second == second;
    } else {
      RunThen(Next(s, first[0]), first[1..], second);
      assert (first + second)[1..] == first[1..] + second;
    }
  }

  lemma OneStep(s: State, e: Event, s': State)
    requires Enabled(s, e) && s' == Next(s, e)
    ensures IsRun(s, [e]) && After(s, [e]) == s'
  {
    assert [e][1..] == [];
    assert IsRun(s', []) && After(s', []) == s';
  }

  const NEW_FILE: File := File(1, [])
  const NEW_REGION: Region := Region(7, 0, 4096, [0])

  /** An mmap that has filled its page array. */
  lemma MmapFills() returns (events: seq<Event>)
    ensures IsRun(INITIAL, events)
    ensures After(INITIAL, events) == State([NEW_FILE], [Filled(1, 7, 0, 1, [0])], false, 0, 1, [])
  {
    var s1 := INITIAL.(files := [NEW_FILE]);
    var s2 := s1.(threads := [Filling(1, 7, 0, 1)]);
    var s3 := s1.(threads := [Filled(1, 7, 0, 1, [0])], nextPage := 1);
    assert NewPages(0, 1) == [0];
    OneStep(INITIAL, Open(1), s1);
    OneStep(s1, Mmap(1, 7, 0, 4096), s2);
    OneStep(s2, Act(0, 1), s3);
    RunThen(INITIAL, [Open(1)], [Mmap(1, 7, 0, 4096)]);
    RunThen(INITIAL, [Open(1)] + [Mmap(1, 7, 0, 4096)], [Act(0, 1)]);
    events := [Open(1)] + [Mmap(1, 7, 0, 4096)] + [Act(0, 1)];
  }

  lemma MmapLinks(s: State) returns (events: seq<Event>)
    requires s == State([NEW_FILE], [Filled(1, 7, 0, 1, [0])], false, 0, 1, [])
    ensures IsRun(s, events)
    ensures After(s, events) == State([File(1, [NEW_REGION])], [Counting], false, 0, 1, [])
  {
    var s1 := s.(threads := [Mapped(1, 7, 0, 1, [0])]);
    var s2 := s.(threads := [Linking(1, NEW_REGION)]);
    var s3 := s.(threads := [Counting], files := [File(1, [NEW_REGION])]);
    assert s2.files[0].id == 1 && [NEW_REGION] + NEW_FILE.regions == [NEW_REGION];
    OneStep(s, Act(0, 0), s1);
    OneStep(s1, Act(0, 0), s2);
    OneStep(s2, Act(0, 0), s3);
    RunThen(s, [Act(0, 0)], [Act(0, 0)]);
    RunThen(s, [Act(0, 0)] + [Act(0, 0)], [Act(0, 0)]);
    events := [Act(0, 0)] + [Act(0, 0)] + [Act(0, 0)];
  }

  /** Between list insertion and increment the check passes although a mapping is listed. */
  lemma ExitRaceWitness() returns (events: seq<Event>)
    ensures IsRun(INITIAL, events) && Listed(After(INITIAL, events).files) == 1
    ensures After(INITIAL, events).threads == [Counting, Exiting]
  {
    var fill := MmapFills();
    var s := After(INITIAL, fill);
    var link := MmapLinks(s);
    RunThen(INITIAL, fill, link);
    var s1 := After(s, link);
    var s2 := s1.(threads := [Counting, Checking]);
    var s3 := s1.(threads := [Counting, Exiting]);
    OneStep(s1, Exit, s2);
    OneStep(s2, Act(1, 0), s3);
    RunThen(INITIAL, fill + link, [Exit]);
    RunThen(INITIAL, fill + link + [Exit], [Act(1, 0)]);
    events := fill + link + [Exit] + [Act(1, 0)];
    assert After(INITIAL, events) == s3 && s3.files[1..] == [] && Sum(s3.files[1..], RegionCount) == 0;
  }
}
