/** The semaphore demo as interleaved steps: module init spawns n racers that wait at a start
    barrier (the shared word `action`), then pass one by one through a semaphore of capacity 1.
    Every shared access is one step; the number of racers is arbitrary. */
module StartRace {

  import opened Sums

  datatype Action = Wait | Race | Abort

  /** How a racer's thread function ends: aborted, or raced and found itself alone (ok) or not. */
  datatype Outcome = Aborted | Raced(ok: bool)

  /** The next step of a racer. */
  datatype Racer =
    | Start                   // atomic_inc_return(&ready_count)
    | Announce                // the last to be ready: action = RACE
    | Spin                    // first read of action
    | Decide                  // second read of action
    | WaitSem                 // down
    | Enter                   // atomic_inc_return(&holder_count)
    | Inside(ok: bool)        // atomic_dec(&holder_count)
    | Leave(ok: bool)         // up
    | Put(outcome: Outcome)   // module_put
    | Done(outcome: Outcome)

  /** The next step of module init. */
  datatype Init =
    | Loop                    // next iteration: __module_get, or leave the loop
    | Spawn                   // kthread_run
    | Undo                    // module_put after a failed spawn
    | WriteAbort              // action = ABORT
    | WriteRace               // action = RACE
    | Returned(ok: bool)

  datatype State = State(
    n: nat, init: Init, racers: seq<Racer>,
    ready: nat, holders: int, sem: nat, action: Action, refs: int)

  function Initial(n: nat): State {
    State(n, Loop, [], 0, 0, 1, Wait, 0)
  }

  datatype Event = InitStep(spawned: bool) | RacerStep(k: nat)

  predicate InitEnabled(s: State) {
    !s.init.Returned?
  }

  /** A racer can move unless it is done, spins on WAIT, or waits for the semaphore. */
  predicate RacerEnabled(s: State, k: nat) {
    k < |s.racers| &&
    match s.racers[k]
    case Spin => s.action != Wait
    case WaitSem => s.sem > 0
    case Done(_) => false
    case _ => true
  }

  predicate Enabled(s: State, e: Event) {
    match e
    case InitStep(_) => InitEnabled(s)
    case RacerStep(k) => RacerEnabled(s, k)
  }

  function InitNext(s: State, spawned: bool): State
    requires InitEnabled(s)
  {
    match s.init
    case Loop =>
      if |s.racers| < s.n then s.(init := Spawn, refs := s.refs + 1) else s.(init := WriteRace)
    case Spawn =>
      if spawned then s.(init := Loop, racers := s.racers + [Start]) else s.(init := Undo)
    case Undo => s.(init := WriteAbort, refs := s.refs - 1)
    case WriteAbort => s.(init := Returned(false), action := Abort)
    case WriteRace => s.(init := Returned(true), action := Race)
  }

  function Goto(s: State, k: nat, r: Racer): State
    requires k < |s.racers|
  {
    s.(racers := s.racers[k := r])
  }

  function RacerNext(s: State, k: nat): State
    requires RacerEnabled(s, k)
  {
    match s.racers[k]
    case Start => Goto(s, k, if s.ready + 1 == s.n then Announce else Spin).(ready := s.ready + 1)
    case Announce => Goto(s, k, Spin).(action := Race)
    case Spin => Goto(s, k, Decide)
    case Decide => Goto(s, k, if s.action == Abort then Put(Aborted) else WaitSem)
    case WaitSem => Goto(s, k, Enter).(sem := s.sem - 1)
    case Enter => Goto(s, k, Inside(s.holders + 1 == 1)).(holders := s.holders + 1)
    case Inside(ok) => Goto(s, k, Leave(ok)).(holders := s.holders - 1)
    case Leave(ok) => Goto(s, k, Put(Raced(ok))).(sem := s.sem + 1)
    case Put(outcome) => Goto(s, k, Done(outcome)).(refs := s.refs - 1)
  }

  function Next(s: State, e: Event): State
    requires Enabled(s, e)
  {
    match e
    case InitStep(spawned) => InitNext(s, spawned)
    case RacerStep(k) => RacerNext(s, k)
  }

  predicate IsRun(s: State, events: seq<Event>)
    decreases |events|
  {
    events == [] || (Enabled(s, events[0]) && IsRun(Next(s, events[0]), events[1..]))
  }

  function After(s: State, events: seq<Event>): State
    requires IsRun(s, events)
    decreases |events|
  {
    if events == [] then s else After(Next(s, events[0]), events[1..])
  }

  // ---------------------------------------------------------------------------------------
  // The invariant
  // ---------------------------------------------------------------------------------------

  function IsReady(r: Racer): nat { if r.Start? then 0 else 1 }
  function IsHolding(r: Racer): nat { if r.Enter? || r.Inside? || r.Leave? then 1 else 0 }
  function IsInside(r: Racer): nat { if r.Inside? then 1 else 0 }
  function IsLive(r: Racer): nat { if r.Done? then 0 else 1 }

  /** What a racer's position says about the shared word, the barrier and its own outcome. */
  predicate RacerOk(r: Racer, s: State) {
    match r
    case Announce => s.ready == s.n
    case Decide => s.action != Wait
    case WaitSem => s.action == Race
    case Enter => s.action == Race
    case Inside(ok) => s.action == Race && ok
    case Leave(ok) => s.action == Race && ok
    case Put(outcome) => OutcomeOk(outcome, s)
    case Done(outcome) => OutcomeOk(outcome, s)
    case _ => true
  }

  predicate OutcomeOk(outcome: Outcome, s: State) {
    match outcome
    case Aborted => s.action == Abort
    case Raced(ok) => s.action == Race && ok
  }

  predicate CountsOk(s: State) {
    && s.ready == Sum(s.racers, IsReady)
    && s.holders == Sum(s.racers, IsInside)
    && s.sem + Sum(s.racers, IsHolding) == 1
    && s.refs == Sum(s.racers, IsLive) + (if s.init.Spawn? || s.init.Undo? then 1 else 0)
  }

  predicate ActionOk(s: State) {
    && |s.racers| <= s.n
    && (s.init in {Spawn, Undo, WriteAbort, Returned(false)} ==> |s.racers| < s.n)
    && (s.init in {WriteRace, Returned(true)} ==> |s.racers| == s.n)
    && (s.action == Race ==> |s.racers| == s.n)
    && (s.action == Abort <==> s.init == Returned(false))
    && (s.init == Returned(true) ==> s.action == Race)
  }

  ghost predicate Inv(s: State) {
    && CountsOk(s)
    && ActionOk(s)
    && forall k :: 0 <= k < |s.racers| ==> RacerOk(s.racers[k], s)
  }

  lemma InitialInv(n: nat)
    ensures Inv(Initial(n))
  {
  }

  lemma InitCounts(s: State, spawned: bool)
    requires CountsOk(s) && InitEnabled(s)
    ensures CountsOk(InitNext(s, spawned))
  {
    SumAppend(s.racers, IsReady, Start);
    SumAppend(s.racers, IsInside, Start);
    SumAppend(s.racers, IsHolding, Start);
    SumAppend(s.racers, IsLive, Start);
  }

  lemma RacerCounts(s: State, k: nat)
    requires CountsOk(s) && RacerEnabled(s, k)
    ensures CountsOk(RacerNext(s, k))
  {
    hide Sum;
    var r := RacerNext(s, k).racers[k];
    SumUpdate(s.racers, IsReady, k, r);
    SumUpdate(s.racers, IsInside, k, r);
    SumUpdate(s.racers, IsHolding, k, r);
    SumUpdate(s.racers, IsLive, k, r);
  }

  /** A racer that announces the start has seen all n racers ready, so all n were spawned. */
  lemma AnnouncerSeesAll(s: State, k: nat)
    requires Inv(s) && k < |s.racers| && s.racers[k].Announce?
    ensures |s.racers| == s.n
  {
    SumAtMostOnes(s.racers, IsReady);
  }

  /** While one racer is not yet ready, fewer than all are. */
  lemma NotAllReady(s: State, k: nat)
    requires CountsOk(s) && k < |s.racers| && s.racers[k].Start?
    ensures s.ready < |s.racers|
  {
    SumAtMostOnes(s.racers, IsReady);
  }

  /** The racer about to count itself in is alone. */
  lemma EnterAlone(s: State, k: nat)
    requires Inv(s) && k < |s.racers| && s.racers[k].Enter?
    ensures s.holders == 0
  {
    if s.holders > 0 {
      var i := SumPositive(s.racers, IsInside);
      if i < k {
        SumPair(s.racers, IsHolding, i, k);
      } else {
        SumPair(s.racers, IsHolding, k, i);
      }
    }
  }

  lemma InitStepInv(s: State, spawned: bool)
    requires Inv(s) && InitEnabled(s)
    ensures Inv(InitNext(s, spawned))
  {
    InitCounts(s, spawned);
    var s' := InitNext(s, spawned);
    SumAtMostOnes(s.racers, IsReady);
    forall j | 0 <= j < |s'.racers|
      ensures RacerOk(s'.racers[j], s')
    {
      if j < |s.racers| {
        assert RacerOk(s.racers[j], s);
      }
    }
  }

  lemma RacerStepInv(s: State, k: nat)
    requires Inv(s) && RacerEnabled(s, k)
    ensures Inv(RacerNext(s, k))
  {
    RacerCounts(s, k);
    var s' := RacerNext(s, k);
    assert RacerOk(s.racers[k], s);
    if s.racers[k].Announce? { AnnouncerSeesAll(s, k); }
    if s.racers[k].Enter? { EnterAlone(s, k); }
    if s.racers[k].Start? { NotAllReady(s, k); }
    forall j | 0 <= j < |s'.racers|
      ensures RacerOk(s'.racers[j], s')
    {
      assert RacerOk(s.racers[j], s);
      if j != k && s.racers[j].Announce? && s.racers[k].Start? {
        NotAllReady(s, k);
      }
    }
  }

  lemma StepInv(s: State, e: Event)
    requires Inv(s) && Enabled(s, e)
    ensures Inv(Next(s, e))
  {
    match e
    case InitStep(spawned) => InitStepInv(s, spawned);
    case RacerStep(k) => RacerStepInv(s, k);
  }

  lemma {:induction false} RunInv(s: State, events: seq<Event>)
    requires Inv(s) && IsRun(s, events)
    ensures Inv(After(s, events))
    decreases |events|
  {
    if events != [] {
      StepInv(s, events[0]);
      RunInv(Next(s, events[0]), events[1..]);
    }
  }

  // ---------------------------------------------------------------------------------------
  // Safety
  // ---------------------------------------------------------------------------------------

  /** Once the shared word leaves WAIT it never changes again. */
  lemma {:induction false} ActionFinal(s: State, events: seq<Event>)
    requires Inv(s) && s.action != Wait && IsRun(s, events)
    ensures After(s, events).action == s.action
    decreases |events|
  {
    if events != [] {
      var e := events[0];
      StepInv(s, e);
      if e.RacerStep? && s.racers[e.k].Announce? {
        AnnouncerSeesAll(s, e.k);
      }
      ActionFinal(Next(s, e), events[1..]);
    }
  }

  predicate Racing(r: Racer) {
    r.WaitSem? || r.Enter? || r.Inside? || r.Leave? || (r.Put? && r.outcome.Raced?) || (r.Done? && r.outcome.Raced?)
  }

  predicate Aborting(r: Racer) {
    (r.Put? || r.Done?) && r.outcome.Aborted?
  }

  /** In every reachable state: racers never disagree, at most one is in the critical section,
      the violation branch is unreachable, and module references are accounted for. */
  lemma Safety(n: nat, events: seq<Event>)
    requires IsRun(Initial(n), events)
    ensures var s := After(Initial(n), events);
      && (forall i, j :: 0 <= i < |s.racers| && 0 <= j < |s.racers| && Racing(s.racers[i]) ==> !Aborting(s.racers[j]))
      && (forall i, j :: 0 <= i < j < |s.racers| && IsHolding(s.racers[i]) == 1 ==> IsHolding(s.racers[j]) == 0)
      && (forall i :: 0 <= i < |s.racers| && s.racers[i].Inside? ==> s.racers[i].ok)
      && s.sem + Sum(s.racers, IsHolding) == 1
      && s.refs == Sum(s.racers, IsLive) + (if s.init.Spawn? || s.init.Undo? then 1 else 0)
  {
    InitialInv(n);
    RunInv(Initial(n), events);
    var s := After(Initial(n), events);
    forall i, j | 0 <= i < |s.racers| && 0 <= j < |s.racers| && Racing(s.racers[i])
      ensures !Aborting(s.racers[j])
    {
      assert RacerOk(s.racers[i], s) && RacerOk(s.racers[j], s);
    }
    forall i, j | 0 <= i < j < |s.racers| && IsHolding(s.racers[i]) == 1
      ensures IsHolding(s.racers[j]) == 0
    {
      SumPair(s.racers, IsHolding, i, j);
    }
    forall i | 0 <= i < |s.racers| && s.racers[i].Inside?
      ensures s.racers[i].ok
    {
      assert RacerOk(s.racers[i], s);
    }
  }

  /** When the last racer has made itself ready, the race is on, or that racer is about to say so. */
  ghost predicate Announced(s: State) {
    s.n > 0 && s.ready == s.n ==> s.action == Race || exists k :: 0 <= k < |s.racers| && s.racers[k].Announce?
  }

  lemma AnnouncedStep(s: State, e: Event)
    requires Inv(s) && Announced(s) && Enabled(s, e)
    ensures Announced(Next(s, e))
  {
    var s' := Next(s, e);
    StepInv(s, e);
    if s.action != Wait {
      ActionFinal(s, [e]) by { OneStepRun(s, e); }
      OneStepRun(s, e);
      SumAtMostOnes(s'.racers, IsReady);
    } else if e.RacerStep? {
      if s.racers[e.k].Start? {
        assert s'.racers[e.k].Announce? <==> s'.ready == s'.n;
      } else if s.n > 0 && s.ready == s.n {
        var k :| 0 <= k < |s.racers| && s.racers[k].Announce?;
        assert e.k != k ==> s'.racers[k].Announce?;
      }
    } else if s.n > 0 && s.ready == s.n {
      var k :| 0 <= k < |s.racers| && s.racers[k].Announce?;
      AnnouncerSeesAll(s, k);
      assert s'.racers[k].Announce?;
    }
  }

  lemma OneStepRun(s: State, e: Event)
    requires Enabled(s, e)
    ensures IsRun(s, [e]) && After(s, [e]) == Next(s, e)
  {
    assert [e][1..] == [] && IsRun(Next(s, e), []) && After(Next(s, e), []) == Next(s, e);
  }

  lemma {:induction false} AnnouncedRun(s: State, events: seq<Event>)
    requires Inv(s) && Announced(s) && IsRun(s, events)
    ensures Inv(After(s, events)) && Announced(After(s, events))
    decreases |events|
  {
    if events != [] {
      hide Inv, Announced, Next, Enabled;
      StepInv(s, events[0]);
      AnnouncedStep(s, events[0]);
      AnnouncedRun(Next(s, events[0]), events[1..]);
    }
  }

  /** The last racer to be ready starts the race, whether or not init has got that far: once all n
      are ready and none is about to announce, the shared word is RACE. */
  lemma LastRacerStarts(n: nat, events: seq<Event>)
    requires n > 0 && IsRun(Initial(n), events)
    requires var s := After(Initial(n), events);
             s.ready == s.n && forall k :: 0 <= k < |s.racers| ==> !s.racers[k].Announce?
    ensures After(Initial(n), events).action == Race
  {
    InitialInv(n);
    AnnouncedRun(Initial(n), events);
    SameNumber(Initial(n), events);
  }

  lemma {:induction false} SameNumber(s: State, events: seq<Event>)
    requires IsRun(s, events)
    ensures After(s, events).n == s.n
    decreases |events|
  {
    if events != [] {
      SameNumber(Next(s, events[0]), events[1..]);
    }
  }

  predicate Finished(s: State) {
    s.init.Returned? && forall k :: 0 <= k < |s.racers| ==> s.racers[k].Done?
  }

  /** How a finished run ends: if every spawn succeeded all n racers raced alone, otherwise
      every spawned racer aborted; the semaphore is up and no module reference is left. */
  lemma FinalState(s: State)
    requires Inv(s) && Finished(s)
    ensures s.refs == 0 && s.holders == 0 && s.sem == 1 && s.ready == |s.racers|
    ensures s.init.ok ==> s.action == Race && |s.racers| == s.n
                          && forall k :: 0 <= k < |s.racers| ==> s.racers[k] == Done(Raced(true))
    ensures !s.init.ok ==> s.action == Abort && |s.racers| < s.n
                           && forall k :: 0 <= k < |s.racers| ==> s.racers[k] == Done(Aborted)
  {
    SumAllZero(s.racers, IsLive);
    SumAllZero(s.racers, IsInside);
    SumAllZero(s.racers, IsHolding);
    AllReady(s.racers);
    forall k | 0 <= k < |s.racers|
      ensures s.racers[k] == Done(if s.init.ok then Raced(true) else Aborted)
    {
      assert RacerOk(s.racers[k], s);
    }
  }

  lemma {:induction false} AllReady(rs: seq<Racer>)
    requires forall k :: 0 <= k < |rs| ==> rs[k].Done?
    ensures Sum(rs, IsReady) == |rs|
  {
    if rs != [] {
      AllReady(rs[1..]);
    }
  }

  // ---------------------------------------------------------------------------------------
  // Progress
  // ---------------------------------------------------------------------------------------

  function Rank(r: Racer): nat {
    match r
    case Start => 9
    case Announce => 8
    case Spin => 7
    case Decide => 6
    case WaitSem => 5
    case Enter => 4
    case Inside(_) => 3
    case Leave(_) => 2
    case Put(_) => 1
    case Done(_) => 0
  }

  function InitRank(s: State): nat
    requires |s.racers| <= s.n
  {
    match s.init
    case Loop => 11 * (s.n - |s.racers|) + 2
    case Spawn => 11 * (s.n - |s.racers|) + 1
    case Undo => 2
    case WriteAbort => 1
    case WriteRace => 1
    case Returned(_) => 0
  }

  /** How many steps are still possible at most. */
  function Measure(s: State): nat
    requires |s.racers| <= s.n
  {
    InitRank(s) + Sum(s.racers, Rank)
  }

  lemma StepDecreases(s: State, e: Event)
    requires Inv(s) && Enabled(s, e)
    ensures |Next(s, e).racers| <= s.n && Next(s, e).n == s.n
    ensures Measure(Next(s, e)) < Measure(s)
  {
    hide Sum;
    match e
    case InitStep(spawned) => InitDecreases(s, spawned);
    case RacerStep(k) => SumUpdate(s.racers, Rank, k, RacerNext(s, k).racers[k]);
  }

  lemma InitDecreases(s: State, spawned: bool)
    requires Inv(s) && InitEnabled(s)
    ensures |InitNext(s, spawned).racers| <= s.n
    ensures Measure(InitNext(s, spawned)) < Measure(s)
  {
    SumAppend(s.racers, Rank, Start);
  }

  /** No run takes more than 11n + 2 steps besides spinning. */
  lemma {:induction false} RunBounded(s: State, events: seq<Event>)
    requires Inv(s) && IsRun(s, events)
    ensures |After(s, events).racers| <= After(s, events).n
    ensures |events| + Measure(After(s, events)) <= Measure(s)
    decreases |events|
  {
    if events != [] {
      StepInv(s, events[0]);
      StepDecreases(s, events[0]);
      RunBounded(Next(s, events[0]), events[1..]);
    }
  }

  datatype Process = InitProcess | RacerProcess(k: nat)

  predicate CanMove(s: State, p: Process) {
    match p
    case InitProcess => InitEnabled(s)
    case RacerProcess(k) => RacerEnabled(s, k)
  }

  /** No deadlock: whenever the race is not over, some process can take a non-spinning step. */
  lemma SomeoneCanMove(s: State) returns (p: Process)
    requires Inv(s) && !Finished(s)
    ensures CanMove(s, p)
  {
    if InitEnabled(s) {
      return InitProcess;
    }
    var k: nat :| k < |s.racers| && !s.racers[k].Done?;
    if RacerEnabled(s, k) {
      return RacerProcess(k);
    }
    assert s.racers[k].WaitSem?;
    var h := SumPositive(s.racers, IsHolding);
    return RacerProcess(h);
  }

  /** An infinite execution: at each moment one process takes a step, or none does (label
      None), as when a racer reads WAIT and spins on. */
  datatype Label = Idle | Acts(event: Event)

  ghost predicate IsTrace(sigma: nat -> State, labels: nat -> Label) {
    forall i: nat ::
      TraceStep(sigma(i), labels(i), sigma(i + 1))
  }

  predicate TraceStep(s: State, l: Label, s': State) {
    match l
    case Idle => s' == s
    case Acts(e) => Enabled(s, e) && s' == Next(s, e)
  }

  predicate ActsAs(l: Label, p: Process) {
    l.Acts? && match p
    case InitProcess => l.event.InitStep?
    case RacerProcess(k) => l.event == RacerStep(k)
  }

  ghost predicate MovesAfter(labels: nat -> Label, p: Process, i: nat) {
    exists j: nat :: i <= j && ActsAs(labels(j), p)
  }

  /** Weak fairness: a process that can move from some moment on eventually does. */
  ghost predicate Fair(sigma: nat -> State, labels: nat -> Label) {
    forall p: Process, i: nat ::
      (forall j: nat :: i <= j ==> CanMove(sigma(j), p)) ==> MovesAfter(labels, p, i)
  }

  lemma {:induction false} TraceInv(sigma: nat -> State, labels: nat -> Label, i: nat)
    requires IsTrace(sigma, labels) && Inv(sigma(0))
    ensures Inv(sigma(i))
  {
    if i > 0 {
      TraceInv(sigma, labels, i - 1);
      assert TraceStep(sigma(i - 1), labels(i - 1), sigma(i - 1 + 1));
      if labels(i - 1).Acts? {
        StepInv(sigma(i - 1), labels(i - 1).event);
      }
    }
  }

  lemma {:induction false} IdleStays(sigma: nat -> State, labels: nat -> Label, i: nat, j: nat)
    requires IsTrace(sigma, labels) && i <= j
    requires forall m: nat :: i <= m < j ==> labels(m).Idle?
    ensures sigma(j) == sigma(i)
    decreases j
  {
    if i < j {
      IdleStays(sigma, labels, i, j - 1);
      assert labels(j - 1).Idle? && TraceStep(sigma(j - 1), labels(j - 1), sigma(j - 1 + 1));
    }
  }

  lemma FairMoves(sigma: nat -> State, labels: nat -> Label, p: Process, i: nat)
    requires Fair(sigma, labels) && forall j: nat :: i <= j ==> CanMove(sigma(j), p)
    ensures MovesAfter(labels, p, i)
  {
  }

  /** In a fair trace that is not over at moment i, some later moment is not idle. */
  lemma NotIdleForever(sigma: nat -> State, labels: nat -> Label, i: nat) returns (j: nat)
    requires IsTrace(sigma, labels) && Inv(sigma(0)) && Fair(sigma, labels)
    requires !Finished(sigma(i))
    ensures i <= j && labels(j).Acts? && sigma(j) == sigma(i)
  {
    TraceInv(sigma, labels, i);
    var p := SomeoneCanMove(sigma(i));
    if forall m: nat :: i <= m ==> labels(m).Idle? {
      forall m: nat | i <= m
        ensures CanMove(sigma(m), p)
      {
        IdleStays(sigma, labels, i, m);
      }
      FairMoves(sigma, labels, p, i);
      assert false;
    } else {
      var m: nat :| i <= m && labels(m).Acts?;
      j := FirstAct(labels, i, m);
      IdleStays(sigma, labels, i, j);
    }
  }

  lemma {:induction false} FirstAct(labels: nat -> Label, i: nat, m: nat) returns (j: nat)
    requires i <= m && labels(m).Acts?
    ensures i <= j <= m && labels(j).Acts?
    ensures forall l: nat :: i <= l < j ==> labels(l).Idle?
    decreases m - i
  {
    if labels(i).Acts? {
      j := i;
    } else {
      j := FirstAct(labels, i + 1, m);
    }
  }

  /** Every fair execution ends, however spawning goes. */
  lemma {:induction false} FairTraceEnds(sigma: nat -> State, labels: nat -> Label, i: nat) returns (j: nat)
    requires IsTrace(sigma, labels) && Inv(sigma(0)) && Fair(sigma, labels)
    requires Inv(sigma(i))
    ensures i <= j && Finished(sigma(j)) && Inv(sigma(j))
    decreases Measure(sigma(i))
  {
    if Finished(sigma(i)) {
      return i;
    }
    var m := NotIdleForever(sigma, labels, i);
    assert TraceStep(sigma(m), labels(m), sigma(m + 1));
    StepDecreases(sigma(m), labels(m).event);
    StepInv(sigma(m), labels(m).event);
    j := FairTraceEnds(sigma, labels, m + 1);
  }

  /** From module load: every fair execution reaches a finished state, in which either all n
      racers raced or all spawned ones aborted, and no module reference is left. */
  lemma EveryFairRaceEnds(n: nat, sigma: nat -> State, labels: nat -> Label)
    requires IsTrace(sigma, labels) && Fair(sigma, labels) && sigma(0) == Initial(n)
    ensures exists j: nat :: Finished(sigma(j)) && sigma(j).refs == 0 && sigma(j).sem == 1
              && forall k :: 0 <= k < |sigma(j).racers| ==>
                   sigma(j).racers[k] == Done(if sigma(j).init.ok then Raced(true) else Aborted)
  {
    InitialInv(n);
    var j := FairTraceEnds(sigma, labels, 0);
    FinalState(sigma(j));
  }
}
