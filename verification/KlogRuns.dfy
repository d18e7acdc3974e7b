/** Whole runs of the log follower: over any number of calls on an append-only log, when is what
    it prints exactly what was appended? */
module KlogRuns {

  import opened Wrappers
  import opened KlogFollower

  /** What happened between two calls, and what the kernel then delivered. */
  datatype Turn = Turn(added: string, window: string)

  predicate WholeLines(s: string) {
    s == "" || s[|s| - 1] == '\n'
  }

  predicate LineBoundary(s: string, k: nat) {
    k == 0 || (k <= |s| && s[k - 1] == '\n')
  }

  /** `window` is a suffix of `log` that starts at a line boundary. */
  predicate WindowOf(log: string, window: string) {
    && |window| <= |log|
    && log[|log| - |window|..] == window
    && LineBoundary(log, |log| - |window|)
  }

  /** `log` is the log at the previous call. */
  predicate TurnFits(log: string, turn: Turn) {
    WholeLines(log) && WholeLines(turn.added) && WindowOf(log + turn.added, turn.window)
  }

  predicate RunFits(log: string, turns: seq<Turn>)
    decreases |turns|
  {
    turns == [] || (TurnFits(log, turns[0]) && RunFits(log + turns[0].added, turns[1..]))
  }

  predicate OccursBefore(w: string, pat: string, end: int) {
    exists i: nat :: i < end && MatchesAt(w, i, pat)
  }

  /** The condition on a call that leaves no stale tail, in terms of the log alone. `last` is the
      last line of the log at the previous call. Either the window holds new text only, and that
      text does not contain the old line; or the window reaches back to the old line, and no copy
      of it comes earlier. */
  predicate NewTextInPlace(last: string, turn: Turn) {
    && |turn.added| <= |turn.window|
    && var b := |turn.window| - |turn.added|;
    if b == 0
    then last == "" || !OccursBefore(turn.window, last, |turn.window|)
    else last != "" && !OccursBefore(turn.window, last, b - |last|)
  }

  /** `t` ends in `added`, right behind the first occurrence of `last` that starts in the first n
      bytes, or altogether when there is none. */
  predicate FollowsOldLine(t: string, n: nat, last: string, added: string) {
    && |added| <= |t| && t[|t| - |added|..] == added
    && var b := |t| - |added|;
    if b == 0
    then last == "" || !OccursBefore(t, last, n)
    else last != "" && |last| <= b < n + |last| && MatchesAt(t, b - |last|, last) && !OccursBefore(t, last, b - |last|)
  }

  /** The condition on one call. `held` is the text in the buffer about to be overwritten: when it
      is longer than the window, its tail stays behind the window, and what follows the old line
      must equal the new text all the same. */
  predicate Recognisable(held: string, last: string, turn: Turn) {
    && |turn.window| < BUF_SIZE
    && if |held| <= |turn.window| then NewTextInPlace(last, turn)
       else
         var t := Overwrite(held, turn.window);
         && FollowsOldLine(t, |turn.window|, last, turn.added)
         && (turn.added == "" || |t| < |turn.added| + |turn.window|)
  }

  /** The line a follower should remember: none before the first call and after a call that had
      nothing to print. */
  function LastSeen(log: string, turn: Turn): string {
    if turn.added == "" then "" else LastLine(log + turn.added)
  }

  /** What the follower should hold after a call. */
  function MemoryAfter(log: string, m: Memory, turn: Turn): Memory {
    Memory(m.other, Overwrite(m.next, turn.window), LastSeen(log, turn))
  }

  predicate AllRecognisable(log: string, m: Memory, turns: seq<Turn>)
    decreases |turns|
  {
    turns == [] ||
    (Recognisable(m.next, m.last, turns[0])
     && AllRecognisable(log + turns[0].added, MemoryAfter(log, m, turns[0]), turns[1..]))
  }

  predicate RunInBounds(m: Memory, turns: seq<Turn>)
    decreases |turns|
  {
    turns == [] ||
    (RoundInBounds(m, turns[0].window) && RunInBounds(RoundMemory(m, turns[0].window), turns[1..]))
  }

  /** What each call of a run prints. */
  function Outputs(m: Memory, turns: seq<Turn>): (outs: seq<string>)
    requires RunInBounds(m, turns)
    ensures |outs| == |turns|
    decreases |turns|
  {
    if turns == [] then []
    else [RoundOutput(m, turns[0].window)] + Outputs(RoundMemory(m, turns[0].window), turns[1..])
  }

  function AddedTexts(turns: seq<Turn>): (texts: seq<string>)
    ensures |texts| == |turns|
  {
    if turns == [] then [] else [turns[0].added] + AddedTexts(turns[1..])
  }

  function Concat(texts: seq<string>): string {
    if texts == [] then "" else texts[0] + Concat(texts[1..])
  }

  // ---------------------------------------------------------------------------------------
  // One round
  // ---------------------------------------------------------------------------------------

  lemma {:induction false} FirstMatchIsFirst(t: string, n: nat, pat: string, from: nat)
    requires from <= n
    ensures var i := FirstMatch(t, n, pat, from);
            (i < n ==> MatchesAt(t, i, pat)) && forall k :: from <= k < i ==> !MatchesAt(t, k, pat)
    decreases n - from
  {
    if from < n && !MatchesAt(t, from, pat) {
      FirstMatchIsFirst(t, n, pat, from + 1);
    }
  }

  lemma {:induction false} LineStartBounds(t: string, lo: nat, p: nat)
    requires lo <= p < |t|
    ensures var r := LineStart(t, lo, p);
            (r == lo || t[r - 1] == '\n') && forall k :: r <= k < p ==> t[k] != '\n'
    decreases p
  {
    if p != lo && t[p - 1] != '\n' {
      LineStartBounds(t, lo, p - 1);
    }
  }

  lemma {:induction false} LineStartUnique(t: string, lo: nat, p: nat, r: nat)
    requires lo <= r <= p < |t|
    requires (r == lo || t[r - 1] == '\n') && forall k :: r <= k < p ==> t[k] != '\n'
    ensures LineStart(t, lo, p) == r
    decreases p
  {
    if p != r {
      LineStartUnique(t, lo, p - 1, r);
    }
  }

  /** The start of the last line does not depend on where the scan would have been cut off. */
  lemma LineStartFromBoundary(s: string, k: nat)
    requires k < |s| && LineBoundary(s, k)
    ensures LineStart(s, k, |s| - 1) == LineStart(s, 0, |s| - 1)
  {
    LineStartBounds(s, k, |s| - 1);
    LineStartUnique(s, 0, |s| - 1, LineStart(s, k, |s| - 1));
  }

  lemma {:induction false} LineStartOfSuffix(s: string, k: nat, p: nat)
    requires k <= p < |s|
    ensures LineStart(s[k..], 0, p - k) == LineStart(s, k, p) - k
    decreases p
  {
    if p != k {
      assert s[k..][p - k - 1] == s[p - 1];
      if s[p - 1] != '\n' {
        LineStartOfSuffix(s, k, p - 1);
      }
    }
  }

  /** A text and any whole-line suffix of it have the same last line. */
  lemma LastLineOfSuffix(s: string, k: nat)
    requires k < |s| && LineBoundary(s, k)
    ensures LastLine(s[k..]) == LastLine(s)
  {
    var u := s[k..];
    var r := LineStart(s, 0, |s| - 1);
    assert LineStart(u, 0, |s| - 1 - k) == r - k by {
      LineStartFromBoundary(s, k);
      LineStartOfSuffix(s, k, |s| - 1);
    }
    assert |u| - 1 == |s| - 1 - k;
    assert LastLine(u) == u[r - k..];
    assert u[r - k..] == s[r..];
  }

  /** The last line of whole lines with one more line behind them. */
  lemma LastLineIs(lines: string, line: string)
    requires WholeLines(lines) && '\n' !in line
    ensures LastLine(lines + line + "\n") == line + "\n"
  {
    var s := lines + line + "\n";
    LineStartUnique(s, 0, |s| - 1, |lines|);
  }

  /** When the window covers the buffer's text and reaches the old line, that line lies right
      before the new text. */
  lemma OldLineInPlace(log: string, turn: Turn)
    requires log != "" && WholeLines(log) && WindowOf(log + turn.added, turn.window)
    requires |turn.added| < |turn.window|
    ensures var b := |turn.window| - |turn.added|; var last := LastLine(log);
            0 < |last| <= b && MatchesAt(turn.window, b - |last|, last)
  {
    var full, w := log + turn.added, turn.window;
    var k := |full| - |w|;
    assert LineBoundary(log, k) by {
      assert k > 0 ==> full[k - 1] == log[k - 1];
    }
    LineStartFromBoundary(log, k);
    var r := LineStart(log, 0, |log| - 1);
    assert LastLine(log) == log[r..];
    SliceOfSuffix(full, k, r, |log|);
    assert full[r..|log|] == log[r..];
  }

  lemma SliceOfSuffix(s: string, k: nat, i: nat, j: nat)
    requires k <= i <= j <= |s|
    ensures s[k..][i - k..j - k] == s[i..j]
  {
  }

  /** The text printed in a round is `added` if and only if the buffer ends in it, right behind
      the old line. Nothing is assumed about the buffer. */
  lemma PrintedExactly(t: string, n: nat, last: string, added: string)
    requires n <= |t|
    ensures Printed(t, n, last) == added <==> FollowsOldLine(t, n, last, added)
  {
    hide FirstMatch;
    var s := StartOf(t, n, last);
    assert Printed(t, n, last) == added <==> s + |added| == |t| && t[|t| - |added|..] == added;
    if last != "" {
      FirstMatchIsFirst(t, n, last, 0);
    }
  }

  /** With no stale tail and a window of the log, the old line is where the log has it. */
  lemma InPlaceByLog(log: string, last: string, turn: Turn)
    requires TurnFits(log, turn) && (last == "" || (log != "" && last == LastLine(log)))
    ensures FollowsOldLine(turn.window, |turn.window|, last, turn.added) <==> NewTextInPlace(last, turn)
  {
    hide LastLine, WholeLines, WindowOf, MatchesAt, OccursBefore;
    if |turn.added| <= |turn.window| {
      WindowEndsInAdded(log, turn);
      if last != "" && |turn.added| < |turn.window| {
        OldLineInPlace(log, turn);
      }
    }
  }

  lemma WindowEndsInAdded(log: string, turn: Turn)
    requires WindowOf(log + turn.added, turn.window) && |turn.added| <= |turn.window|
    ensures turn.window[|turn.window| - |turn.added|..] == turn.added
  {
    var full := log + turn.added;
    assert full[|full| - |turn.added|..] == turn.added;
  }

  /** One call, on a window of the log, prints exactly the text appended since the previous one if
      and only if the window is recognisable. */
  lemma RoundPrintsNewText(log: string, m: Memory, turn: Turn)
    requires TurnFits(log, turn) && RoundInBounds(m, turn.window)
    requires m.last == "" || (log != "" && m.last == LastLine(log))
    ensures RoundOutput(m, turn.window) == turn.added <==> Recognisable(m.next, m.last, turn)
  {
    hide LastLine, StartOf, WholeLines, FollowsOldLine, NewTextInPlace;
    NoStaleTail(m.next, turn.window);
    PrintedExactly(Overwrite(m.next, turn.window), |turn.window|, m.last, turn.added);
    InPlaceByLog(log, m.last, turn);
  }

  /** A round that finds the old line starts printing at a line boundary. */
  lemma StartsAtBoundary(t: string, n: nat, last: string)
    requires n <= |t| && WholeLines(last)
    ensures LineBoundary(t, StartOf(t, n, last))
  {
    hide FirstMatch;
    if last != "" {
      FirstMatchIsFirst(t, n, last, 0);
      var i := FirstMatch(t, n, last, 0);
      if i < n {
        assert t[i + |last| - 1] == t[i..i + |last|][|last| - 1] == '\n';
      }
    }
  }

  lemma {:induction false} LineStartInPrefix(t: string, w: string, lo: nat, p: nat)
    requires w <= t && lo <= p < |w|
    ensures LineStart(t, lo, p) == LineStart(w, lo, p)
    decreases p
  {
    if p != lo && t[p - 1] != '\n' {
      LineStartInPrefix(t, w, lo, p - 1);
    }
  }

  lemma LastLineEnds(log: string)
    requires WholeLines(log)
    ensures WholeLines(LastLine(log))
  {
  }

  /** After any call on a window of the log, whatever it printed and whatever stale tail it met,
      the follower remembers the last line of the log, or nothing when nothing was printed. */
  lemma RoundRemembersLastLine(log: string, m: Memory, turn: Turn)
    requires TurnFits(log, turn) && RoundInBounds(m, turn.window)
    requires m.last == "" || (log != "" && m.last == LastLine(log))
    ensures RoundMemory(m, turn.window).last
         == if RoundOutput(m, turn.window) == "" then "" else LastLine(log + turn.added)
  {
    hide LineStart, StartOf, LastLine, WholeLines, WindowOf, LineBoundary;
    var w, t := turn.window, Overwrite(m.next, turn.window);
    var s := StartOf(t, |w|, m.last);
    if s < |t| {
      assert LineBoundary(t, s) by {
        LastLineEnds(log);
        EmptyIsWhole();
        StartsAtBoundary(t, |w|, m.last);
      }
      BoundaryInPrefix(t, w, s);
      LineStartInPrefix(t, w, s, |w| - 1);
      LastLineOfWindow(log + turn.added, w, s);
      SliceOfPrefix(t, w, LineStart(w, s, |w| - 1));
    }
  }

  /** After a call that printed exactly the new text, the follower holds what it should. */
  lemma RoundLeavesMemory(log: string, m: Memory, turn: Turn)
    requires TurnFits(log, turn) && RoundInBounds(m, turn.window)
    requires m.last == "" || (log != "" && m.last == LastLine(log))
    requires RoundOutput(m, turn.window) == turn.added
    ensures RoundMemory(m, turn.window) == MemoryAfter(log, m, turn)
  {
    hide TurnFits, LastLine, Remember;
    RoundRemembersLastLine(log, m, turn);
  }

  lemma EmptyIsWhole()
    ensures WholeLines("")
  {
  }

  lemma BoundaryInPrefix(t: string, w: string, s: nat)
    requires w <= t && s < |w|
    ensures LineBoundary(t, s) <==> LineBoundary(w, s)
  {
  }

  lemma SliceOfPrefix(t: string, w: string, r: nat)
    requires w <= t && r <= |w|
    ensures t[r..|w|] == w[r..|w|]
  {
  }

  lemma LastLineOfWindow(full: string, w: string, s: nat)
    requires WindowOf(full, w) && s < |w| && LineBoundary(w, s)
    ensures w[LineStart(w, s, |w| - 1)..|w|] == LastLine(full)
  {
    LineStartFromBoundary(w, s);
    LastLineOfSuffix(full, |full| - |w|);
    var r := LineStart(w, s, |w| - 1);
    assert w[r..|w|] == w[r..];
  }

  // ---------------------------------------------------------------------------------------
  // Whole runs
  // ---------------------------------------------------------------------------------------

  lemma NoStaleTail(held: string, w: string)
    ensures Overwrite(held, w) == w <==> |held| <= |w|
  {
  }

  lemma HeadAndTail(m: Memory, turns: seq<Turn>)
    requires turns != [] && RunInBounds(m, turns)
    ensures var m' := RoundMemory(m, turns[0].window);
            Outputs(m, turns) == AddedTexts(turns) <==>
            RoundOutput(m, turns[0].window) == turns[0].added && Outputs(m', turns[1..]) == AddedTexts(turns[1..])
  {
    var outs, adds := Outputs(m, turns), AddedTexts(turns);
    var rest := Outputs(RoundMemory(m, turns[0].window), turns[1..]);
    assert outs[0] == RoundOutput(m, turns[0].window) && outs[1..] == rest;
    assert adds[0] == turns[0].added && adds[1..] == AddedTexts(turns[1..]);
  }

  /** In every run on an append-only log, whatever the sizes of the windows, each call prints
      exactly the text appended before it if and only if every window is recognisable. */
  lemma {:induction false} RunPrintsNewText(log: string, m: Memory, turns: seq<Turn>)
    requires RunFits(log, turns) && RunInBounds(m, turns)
    requires m.last == "" || (log != "" && m.last == LastLine(log))
    ensures Outputs(m, turns) == AddedTexts(turns) <==> AllRecognisable(log, m, turns)
    decreases |turns|
  {
    hide TurnFits, Recognisable, LastLine, RoundInBounds, RoundMemory, RoundOutput;
    if turns != [] {
      var turn, rest := turns[0], turns[1..];
      RoundPrintsNewText(log, m, turn);
      HeadAndTail(m, turns);
      if Recognisable(m.next, m.last, turn) {
        RoundLeavesMemory(log, m, turn);
        RunPrintsNewText(log + turn.added, MemoryAfter(log, m, turn), rest);
      }
    }
  }

  /** A recognisable run never leaves the buffers, so nothing has to be assumed about memory. */
  lemma {:induction false} RecognisableRunInBounds(log: string, m: Memory, turns: seq<Turn>)
    requires RunFits(log, turns) && |m.next| < BUF_SIZE && |m.other| < BUF_SIZE
    requires m.last == "" || (log != "" && m.last == LastLine(log))
    requires AllRecognisable(log, m, turns)
    ensures RunInBounds(m, turns)
    decreases |turns|
  {
    hide TurnFits, LastLine, RoundInBounds, RoundMemory, NewTextInPlace, FollowsOldLine;
    if turns != [] {
      RecognisableTurn(log, m, turns[0]);
      RecognisableRunInBounds(log + turns[0].added, MemoryAfter(log, m, turns[0]), turns[1..]);
    }
  }

  lemma RecognisableTurn(log: string, m: Memory, turn: Turn)
    requires TurnFits(log, turn) && Recognisable(m.next, m.last, turn) && |m.next| < BUF_SIZE
    requires m.last == "" || (log != "" && m.last == LastLine(log))
    ensures RoundInBounds(m, turn.window) && RoundOutput(m, turn.window) == turn.added
    ensures RoundMemory(m, turn.window) == MemoryAfter(log, m, turn)
  {
    hide TurnFits, LastLine, StartOf, FollowsOldLine, NewTextInPlace;
    var t := Overwrite(m.next, turn.window);
    NoStaleTail(m.next, turn.window);
    PrintedExactly(t, |turn.window|, m.last, turn.added);
    InPlaceByLog(log, m.last, turn);
    assert RoundInBounds(m, turn.window);
    RoundLeavesMemory(log, m, turn);
  }

  /** The log after a run. */
  function LogAfter(log: string, turns: seq<Turn>): string
    decreases |turns|
  {
    if turns == [] then log else LogAfter(log + turns[0].added, turns[1..])
  }

  lemma {:induction false} LogGrowsByAddedTexts(log: string, turns: seq<Turn>)
    ensures LogAfter(log, turns) == log + Concat(AddedTexts(turns))
    decreases |turns|
  {
    if turns == [] {
      assert log + "" == log;
    } else {
      LogGrowsByAddedTexts(log + turns[0].added, turns[1..]);
      Associative(log, turns[0].added, Concat(AddedTexts(turns[1..])));
      assert AddedTexts(turns)[1..] == AddedTexts(turns[1..]);
    }
  }

  lemma Associative(a: string, b: string, c: string)
    ensures (a + b) + c == a + (b + c)
  {
  }

  /** The follower before its first call. */
  const EMPTY: Memory := Memory("", "", "")

  /** What the follower holds before call i of a run. */
  function MemoryBefore(m: Memory, turns: seq<Turn>, i: nat): Memory
    requires RunInBounds(m, turns) && i <= |turns|
    decreases i
  {
    if i == 0 then m else MemoryBefore(RoundMemory(m, turns[0].window), turns[1..], i - 1)
  }

  /** Call by call, in runs with wrong outputs too: before every call the follower remembers nothing
      or the last line of the log so far, and the call prints exactly the text appended before it
      if and only if its window is recognisable. One wrong output spoils no later one. */
  lemma {:induction false} EachCallExactly(log: string, m: Memory, turns: seq<Turn>, i: nat)
    requires RunFits(log, turns) && RunInBounds(m, turns) && i < |turns|
    requires m.last == "" || (log != "" && m.last == LastLine(log))
    ensures var before := MemoryBefore(m, turns, i);
      && (before.last == "" || before.last == LastLine(LogAfter(log, turns[..i])))
      && (Outputs(m, turns)[i] == turns[i].added <==> Recognisable(before.next, before.last, turns[i]))
    decreases i
  {
    hide TurnFits, Recognisable, LastLine, RoundInBounds, RoundMemory, RoundOutput;
    var turn, rest := turns[0], turns[1..];
    var m' := RoundMemory(m, turn.window);
    if i == 0 {
      assert turns[..0] == [];
      RoundPrintsNewText(log, m, turn);
    } else {
      RoundRemembersLastLine(log, m, turn);
      if log + turn.added == "" {
        RemembersOnlyText(log, m, turn);
      }
      EachCallExactly(log + turn.added, m', rest, i - 1);
      assert turns[..i][0] == turn && turns[..i][1..] == rest[..i - 1];
    }
  }

  lemma RemembersOnlyText(log: string, m: Memory, turn: Turn)
    requires TurnFits(log, turn) && RoundInBounds(m, turn.window) && log + turn.added == ""
    ensures RoundMemory(m, turn.window).last == ""
  {
  }

  /** The first call stays in the buffer exactly if it delivers less than the buffer's 512 bytes. */
  lemma FirstRoundInBounds(w: string)
    ensures RoundInBounds(EMPTY, w) <==> |w| <= 511
  {
    NoStaleTail("", w);
  }

  /** Nothing lost, nothing repeated: a fresh follower whose first window is `first`, run over a
      log that then only grows, prints altogether that window and everything appended since. */
  lemma NothingLostNothingRepeated(base: string, first: string, turns: seq<Turn>)
    requires var all := [Turn(first, first)] + turns;
             RunFits(base, all) && AllRecognisable(base, EMPTY, all)
    ensures var all := [Turn(first, first)] + turns;
            RunInBounds(EMPTY, all)
            && base + Concat(Outputs(EMPTY, all)) == LogAfter(base, all)
            && Concat(Outputs(EMPTY, all)) == first + Concat(AddedTexts(turns))
  {
    hide RunFits, AllRecognisable, RunInBounds, Outputs;
    var all := [Turn(first, first)] + turns;
    assert RunInBounds(EMPTY, all) && Outputs(EMPTY, all) == AddedTexts(all) by {
      RecognisableRunInBounds(base, EMPTY, all);
      RunPrintsNewText(base, EMPTY, all);
    }
    LogGrowsByAddedTexts(base, all);
    assert all[1..] == turns;
    assert AddedTexts(all)[1..] == AddedTexts(turns);
  }

  ghost predicate ReadyFor(m: Memory, log: string, turns: seq<Turn>) {
    && (m.last == "" || (log != "" && m.last == LastLine(log)))
    && |m.next| < BUF_SIZE && |m.other| < BUF_SIZE
    && RunFits(log, turns)
    && AllRecognisable(log, m, turns)
  }

  /** The follower itself: in a recognisable run every call prints exactly the new text, and
      leaves the follower ready for the rest of the run. */
  method FollowTurn(f: Follower, ghost log: string, turn: Turn, ghost rest: seq<Turn>) returns (out: string)
    requires f.Valid() && ReadyFor(f.Mem(), log, [turn] + rest)
    requires NUL !in turn.window
    modifies f, f.buf1, f.buf2
    ensures f.Valid() && ReadyFor(f.Mem(), log + turn.added, rest)
    ensures out == turn.added
  {
    hide TurnFits, LastLine, NewTextInPlace, FollowsOldLine, RoundInBounds, RoundMemory, RoundOutput;
    ghost var turns := [turn] + rest;
    assert turns[0] == turn && turns[1..] == rest;
    RecognisableTurn(log, f.Mem(), turn);
    var ret;
    ret, out := f.ReadNew(Some(turn.window));
  }

  // ---------------------------------------------------------------------------------------
  // What breaks it
  // ---------------------------------------------------------------------------------------

  /** A call with nothing new to print forgets the line, and the next call prints its whole
      buffer: exactly the window if and only if that leaves no stale tail. */
  lemma EmptyRoundForgets(m: Memory, w: string, w2: string)
    requires RoundInBounds(m, w) && RoundOutput(m, w) == ""
    ensures RoundMemory(m, w).last == ""
    ensures RoundOutput(RoundMemory(m, w), w2) == Overwrite(m.other, w2)
    ensures RoundOutput(RoundMemory(m, w), w2) == w2 <==> |m.other| <= |w2|
  {
    NoStaleTail(m.other, w2);
  }

  lemma EmptyRoundWitness()
    ensures var w := "a\n"; var turns := [Turn(w, w), Turn("", w), Turn("", w)];
            RunInBounds(EMPTY, turns) && Outputs(EMPTY, turns) == ["a\n", "", "a\n"]
  {
    hide RoundInBounds, RoundOutput, RoundMemory;
    var w := "a\n";
    var m1, m2 := Memory("", w, w), Memory(w, w, "");
    OneLineRounds(w);
    var t3, t2, t1 := [Turn("", w)], [Turn("", w), Turn("", w)], [Turn(w, w), Turn("", w), Turn("", w)];
    assert t3[1..] == [] && t2[1..] == t3 && t1[1..] == t2;
    assert RunInBounds(RoundMemory(m2, w), []);
    assert RunInBounds(m2, t3) && Outputs(m2, t3) == [w];
    assert RunInBounds(m1, t2) && Outputs(m1, t2) == ["", w];
  }

  lemma OneLineRounds(w: string)
    requires w == "a\n"
    ensures var m1 := Memory("", w, w); var m2 := Memory(w, w, "");
      && RoundInBounds(EMPTY, w) && RoundOutput(EMPTY, w) == w && RoundMemory(EMPTY, w) == m1
      && RoundInBounds(m1, w) && RoundOutput(m1, w) == "" && RoundMemory(m1, w) == m2
      && RoundInBounds(m2, w) && RoundOutput(m2, w) == w
  {
    assert MatchesAt(w, 0, w);
    assert LineStart(w, 0, 1) == 0;
    assert FirstMatch(w, 2, w, 0) == 0;
  }

  /** The old line starts at i in the window and runs on into what follows. */
  predicate Straddles(t: string, n: nat, last: string, i: nat) {
    i < n < i + |last| && MatchesAt(t, i, last) && !OccursBefore(t, last, i)
  }

  /** The old line runs on into the stale tail, and the rest of that tail spells the window. */
  ghost predicate TailSpells(t: string, w: string, last: string) {
    exists i: nat :: Straddles(t, |w|, last, i) && t[i + |last|..] == w
  }

  /** When does what the buffer held before the window show in the output? Never if the window is
      at least as long; otherwise always, except when the old line runs on into the stale tail and
      the rest of that tail happens to spell the window. */
  lemma StaleTailPrinted(m: Memory, w: string)
    ensures RoundOutput(m, w) == Printed(w, |w|, m.last) <==>
            |m.next| <= |w| || TailSpells(Overwrite(m.next, w), w, m.last)
  {
    hide TailSpells, FirstMatch;
    var t := Overwrite(m.next, w);
    NoStaleTail(m.next, w);
    if |m.next| > |w| {
      if m.last == "" {
        NoStraddle(t, w, m.last);
      } else if OccursBefore(w, m.last, |w|) {
        SameFirstMatch(t, w, m.last);
        NoStraddle(t, w, m.last);
      } else {
        NoMatchInWindow(w, m.last);
        MatchIntoTail(t, w, m.last);
      }
    }
  }

  lemma StraddleIsFirst(t: string, n: nat, last: string, i: nat)
    requires n <= |t| && Straddles(t, n, last, i)
    ensures FirstMatch(t, n, last, 0) == i < n < i + |last| && last != ""
  {
    hide FirstMatch;
    FirstMatchIsFirst(t, n, last, 0);
  }

  lemma NoStraddle(t: string, w: string, last: string)
    requires w <= t && (last == "" || FirstMatch(t, |w|, last, 0) + |last| <= |w|)
    ensures !TailSpells(t, w, last)
  {
    hide FirstMatch;
    if i: nat :| Straddles(t, |w|, last, i) && t[i + |last|..] == w {
      StraddleIsFirst(t, |w|, last, i);
    }
  }

  /** When the old line does not occur in the window, the first match, if any, straddles. */
  lemma MatchIntoTail(t: string, w: string, last: string)
    requires w < t && last != "" && !OccursBefore(w, last, |w|)
    ensures Printed(t, |w|, last) == w <==> TailSpells(t, w, last)
  {
    hide FirstMatch;
    FirstMatchIsFirst(t, |w|, last, 0);
    var f := FirstMatch(t, |w|, last, 0);
    if f < |w| {
      NotInside(t, w, last, f);
      assert Straddles(t, |w|, last, f);
    }
    if i: nat :| Straddles(t, |w|, last, i) && t[i + |last|..] == w {
      StraddleIsFirst(t, |w|, last, i);
    }
  }

  lemma NoMatchInWindow(w: string, last: string)
    requires last != "" && !OccursBefore(w, last, |w|)
    ensures Printed(w, |w|, last) == w
  {
    FirstMatchIsFirst(w, |w|, last, 0);
  }

  lemma NotInside(t: string, w: string, last: string, i: nat)
    requires w <= t && i < |w| && MatchesAt(t, i, last) && !OccursBefore(w, last, |w|)
    ensures |w| < i + |last|
  {
    if i + |last| <= |w| {
      assert w[i..i + |last|] == t[i..i + |last|];
      assert MatchesAt(w, i, last);
    }
  }

  /** A first match inside the window is not moved by what follows the window. */
  lemma SameFirstMatch(t: string, w: string, pat: string)
    requires w <= t && OccursBefore(w, pat, |w|)
    ensures FirstMatch(t, |w|, pat, 0) == FirstMatch(w, |w|, pat, 0) < |w|
    ensures FirstMatch(t, |w|, pat, 0) + |pat| <= |w|
  {
    hide FirstMatch;
    FirstMatchIsFirst(t, |w|, pat, 0);
    FirstMatchIsFirst(w, |w|, pat, 0);
    var i, j := FirstMatch(w, |w|, pat, 0), FirstMatch(t, |w|, pat, 0);
    assert t[i..i + |pat|] == w[i..i + |pat|];
    assert MatchesAt(t, i, pat);
    assert t[j..j + |pat|] == w[j..j + |pat|];
    assert MatchesAt(w, j, pat);
  }

  const LINE_A: string := "aaa\n"
  const LINE_B: string := "b\n"
  const LINE_C: string := "c\n"

  /** Three calls, each delivering just the new line: the third prints the tail of the first as
      well, because it is shorter. */
  lemma StaleTailWitness()
    ensures var turns := [Turn(LINE_A, LINE_A), Turn(LINE_B, LINE_B), Turn(LINE_C, LINE_C)];
            && RunFits("", turns) && RunInBounds(EMPTY, turns)
            && Outputs(EMPTY, turns) == [LINE_A, LINE_B, "c\na\n"]
  {
    hide *;
    StaleOutputs();
    StaleFits();
  }

  lemma StaleOutputs()
    ensures var turns := [Turn(LINE_A, LINE_A), Turn(LINE_B, LINE_B), Turn(LINE_C, LINE_C)];
            RunInBounds(EMPTY, turns) && Outputs(EMPTY, turns) == [LINE_A, LINE_B, "c\na\n"]
  {
    hide *;
    var a, b, c := Turn(LINE_A, LINE_A), Turn(LINE_B, LINE_B), Turn(LINE_C, LINE_C);
    var m1, m2 := Memory("", LINE_A, LINE_A), Memory(LINE_A, LINE_B, LINE_B);
    assert [c] + [] == [c] && [b] + [c] == [b, c] && [a] + [b, c] == [a, b, c];
    FirstRounds();
    StaleRound();
    NoRounds(RoundMemory(m2, LINE_C), "");
    OneRound(m2, c, []);
    OneRound(m1, b, [c]);
    OneRound(EMPTY, a, [b, c]);
  }

  lemma StaleFits()
    ensures RunFits("", [Turn(LINE_A, LINE_A), Turn(LINE_B, LINE_B), Turn(LINE_C, LINE_C)])
  {
    hide *;
    var a, b, c := Turn(LINE_A, LINE_A), Turn(LINE_B, LINE_B), Turn(LINE_C, LINE_C);
    assert [c] + [] == [c] && [b] + [c] == [b, c] && [a] + [b, c] == [a, b, c];
    assert "" + LINE_A == LINE_A;
    FirstRounds();
    WholeLineFits("", LINE_A);
    WholeLineFits(LINE_A, LINE_B);
    WholeLineFits(LINE_A + LINE_B, LINE_C);
    NoRounds(EMPTY, LINE_A + LINE_B + LINE_C);
    OneFits(LINE_A + LINE_B, c, []);
    OneFits(LINE_A, b, [c]);
    OneFits("", a, [b, c]);
  }

  lemma NoRounds(m: Memory, log: string)
    ensures RunInBounds(m, []) && Outputs(m, []) == [] && RunFits(log, [])
  {
  }

  lemma OneRound(m: Memory, turn: Turn, rest: seq<Turn>)
    requires RoundInBounds(m, turn.window) && RunInBounds(RoundMemory(m, turn.window), rest)
    ensures RunInBounds(m, [turn] + rest)
    ensures Outputs(m, [turn] + rest) == [RoundOutput(m, turn.window)] + Outputs(RoundMemory(m, turn.window), rest)
  {
    assert ([turn] + rest)[1..] == rest;
  }

  lemma OneFits(log: string, turn: Turn, rest: seq<Turn>)
    requires TurnFits(log, turn) && RunFits(log + turn.added, rest)
    ensures RunFits(log, [turn] + rest)
  {
    assert ([turn] + rest)[1..] == rest;
  }

  lemma FirstRounds()
    ensures WholeLines(LINE_A) && WholeLines(LINE_B) && WholeLines(LINE_C) && WholeLines("")
    ensures RoundInBounds(EMPTY, LINE_A) && RoundOutput(EMPTY, LINE_A) == LINE_A
    ensures var m1 := Memory("", LINE_A, LINE_A);
            RoundMemory(EMPTY, LINE_A) == m1
            && RoundInBounds(m1, LINE_B) && RoundOutput(m1, LINE_B) == LINE_B
            && RoundMemory(m1, LINE_B) == Memory(LINE_A, LINE_B, LINE_B)
  {
    assert LineStart(LINE_A, 0, 3) == 0 && LineStart(LINE_B, 0, 1) == 0;
    assert FirstMatch(LINE_B, 2, LINE_A, 0) == 2;
  }

  /** A window that is just what was appended. */
  lemma WholeLineFits(log: string, line: string)
    requires WholeLines(log) && WholeLines(line)
    ensures TurnFits(log, Turn(line, line)) && WholeLines(log + line)
  {
    var full := log + line;
    assert full[|full| - |line|..] == line;
  }

  lemma StaleRound()
    ensures var m2 := Memory(LINE_A, LINE_B, LINE_B);
            RoundInBounds(m2, LINE_C) && RoundOutput(m2, LINE_C) == "c\na\n"
  {
    var t := "c\na\n";
    assert Overwrite(LINE_A, LINE_C) == t;
    assert t[0..2][0] == 'c' && t[1..3][0] == '\n';
    assert !MatchesAt(t, 0, LINE_B) && !MatchesAt(t, 1, LINE_B) && FirstMatch(t, 2, LINE_B, 0) == 2;
  }
}
