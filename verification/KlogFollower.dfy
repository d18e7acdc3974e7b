/** The incremental log follower `klog_read_new`: two fixed buffers swap roles, the line
    remembered from one buffer is searched for in the other, and the text after it is printed. */
module KlogFollower {

  import opened Wrappers

  const BUF_SIZE: nat := 512
  const NUL: char := '\0'

  // ---------------------------------------------------------------------------------------
  // One round, on text
  // ---------------------------------------------------------------------------------------

  predicate MatchesAt(t: string, i: nat, pat: string) {
    i + |pat| <= |t| && t[i..i + |pat|] == pat
  }

  /** First position in from..n at which `pat` occurs in `t`, or n. */
  function FirstMatch(t: string, n: nat, pat: string, from: nat): (i: nat)
    requires from <= n
    ensures from <= i <= n
    ensures i < n ==> i + |pat| <= |t|
    decreases n - from
  {
    if from == n || MatchesAt(t, from, pat) then from else FirstMatch(t, n, pat, from + 1)
  }

  /** Where printing starts, when the buffer holds `t`, the kernel delivered its first `n`
      bytes in this round, and `last` is the remembered line. */
  function StartOf(t: string, n: nat, last: string): (s: nat)
    requires n <= |t|
    ensures s <= |t|
  {
    if last == "" then 0
    else
      var i := FirstMatch(t, n, last, 0);
      if i < n then i + |last| else 0
  }

  /** Backward scan from p to the start of its line, but never below lo. */
  function LineStart(t: string, lo: nat, p: nat): (r: nat)
    requires lo <= p < |t|
    ensures lo <= r <= p
    decreases p
  {
    if p == lo || t[p - 1] == '\n' then p else LineStart(t, lo, p - 1)
  }

  /** The final line of a text, its newline included. */
  function LastLine(t: string): string {
    if t == "" then "" else t[LineStart(t, 0, |t| - 1)..]
  }

  /** What a write of `w` over the start of a buffer that holds `held` leaves in the buffer:
      the kernel does not terminate the window, so a longer old text keeps its tail. */
  function Overwrite(held: string, w: string): (t: string)
    ensures |t| == if |held| > |w| then |held| else |w|
    ensures w <= t
  {
    if |held| > |w| then w + held[|w|..] else w
  }

  /** The memory accesses of one round stay inside the buffer: strlen meets a NUL, and the
      backward scan starts at or after the printed text. */
  predicate InBounds(t: string, n: nat, last: string)
    requires n <= |t|
  {
    |t| < BUF_SIZE && (StartOf(t, n, last) < n || StartOf(t, n, last) == |t|)
  }

  function Printed(t: string, n: nat, last: string): string
    requires n <= |t|
  {
    t[StartOf(t, n, last)..]
  }

  function Remember(t: string, n: nat, last: string): string
    requires n <= |t| && InBounds(t, n, last)
  {
    var s := StartOf(t, n, last);
    if s == |t| then "" else t[LineStart(t, s, n - 1)..n]
  }

  /** The static state of the follower: the texts in the buffer to be overwritten next and in
      the other one, and the remembered line. */
  datatype Memory = Memory(next: string, other: string, last: string)

  predicate RoundInBounds(m: Memory, w: string) {
    InBounds(Overwrite(m.next, w), |w|, m.last)
  }

  function RoundOutput(m: Memory, w: string): string {
    Printed(Overwrite(m.next, w), |w|, m.last)
  }

  function RoundMemory(m: Memory, w: string): Memory
    requires RoundInBounds(m, w)
  {
    var t := Overwrite(m.next, w);
    Memory(m.other, t, Remember(t, |w|, m.last))
  }

  // ---------------------------------------------------------------------------------------
  // The follower itself
  // ---------------------------------------------------------------------------------------

  /** A buffer holds a NUL-free text when the text is followed by NULs up to its end. */
  ghost predicate Holds(buf: array<char>, text: string)
    reads buf
  {
    && |text| <= buf.Length
    && (forall k :: 0 <= k < |text| ==> buf[k] == text[k] != NUL)
    && (forall k :: |text| <= k < buf.Length ==> buf[k] == NUL)
  }

  /** strlen from position `from`. */
  method StrLen(buf: array<char>, from: nat, ghost text: string) returns (len: nat)
    requires Holds(buf, text) && from <= |text| < buf.Length
    ensures len == |text| - from
  {
    len := 0;
    while buf[from + len] != NUL
      invariant from + len <= |text|
      decreases |text| - len
    {
      len := len + 1;
    }
  }

  /** The inner match loop: does `pat`, which lies at `lastLine` in the buffer `last`, occur at
      `i` in `buf`? Every index read lies below `reach`, so the loop stops at the NUL behind the
      text at the latest. */
  method Matches(buf: array<char>, i: nat, last: array<char>, lastLine: nat, len: nat, ghost t: string, ghost pat: string)
      returns (found: bool, ghost reach: nat)
    requires Holds(buf, t) && i <= |t| < buf.Length
    requires lastLine + len <= last.Length && last[lastLine..lastLine + len] == pat
    requires forall k :: 0 <= k < |pat| ==> pat[k] != NUL
    ensures found == MatchesAt(t, i, pat)
    ensures reach <= |t| + 1
  {
    found, reach := true, i;
    var j := 0;
    while j < len && found
      invariant j <= len && reach <= |t| + 1
      invariant found ==> i + j <= |t| && forall k :: 0 <= k < j ==> t[i + k] == pat[k]
      invariant !found ==> !MatchesAt(t, i, pat)
    {
      assert pat[j] == last[lastLine + j];
      found, reach := buf[i + j] == last[lastLine + j], i + j + 1;
      if !found && i + |pat| <= |t| {
        assert t[i..i + |pat|][j] == t[i + j];
      }
      j := j + 1;
    }
  }

  /** The boundary search: the outer match loop. */
  method FindStart(buf: array<char>, n: nat, last: array<char>, lastLine: nat, len: nat, ghost t: string, ghost pat: string)
      returns (start: nat, ghost reach: nat)
    requires Holds(buf, t) && n <= |t| < buf.Length
    requires len > 0 ==> lastLine + len <= last.Length && last[lastLine..lastLine + len] == pat
    requires len == |pat| && forall k :: 0 <= k < |pat| ==> pat[k] != NUL
    ensures start == StartOf(t, n, pat)
    ensures reach <= |t| + 1
  {
    start, reach := 0, 0;
    if len == 0 {
      return;
    }
    var i := 0;
    while i < n
      invariant start == 0
      invariant i <= n && reach <= |t| + 1
      invariant FirstMatch(t, n, pat, 0) == FirstMatch(t, n, pat, i)
    {
      var found;
      found, reach := Matches(buf, i, last, lastLine, len, t, pat);
      if found {
        start := i + len;
        return;
      }
      i := i + 1;
    }
  }

  /** The backward scan for the start of the last line of the window. */
  method ScanBack(buf: array<char>, start: nat, n: nat, ghost t: string) returns (p: nat)
    requires Holds(buf, t) && start < n <= |t|
    ensures p == LineStart(t, start, n - 1)
  {
    p := n - 1;
    while p != start && buf[p - 1] != '\n'
      invariant start <= p < n
      invariant LineStart(t, start, n - 1) == LineStart(t, start, p)
      decreases p
    {
      p := p - 1;
    }
  }

  class Follower {
    const buf1: array<char>
    const buf2: array<char>
    var nextBuf: array<char>
    var lastBuf: array<char>
    var lastLine: nat
    var lastLineLength: nat
    ghost var text1: string
    ghost var text2: string

    ghost function NextText(): string
      reads this
    {
      if nextBuf == buf1 then text1 else text2
    }

    ghost function OtherText(): string
      reads this
    {
      if nextBuf == buf1 then text2 else text1
    }

    /** The remembered line always lies in the buffer that is not overwritten next. */
    ghost predicate Valid()
      reads this, buf1, buf2
    {
      && buf1 != buf2
      && buf1.Length == buf2.Length == BUF_SIZE
      && (nextBuf == buf1 || nextBuf == buf2)
      && (lastBuf == buf1 || lastBuf == buf2)
      && Holds(buf1, text1)
      && Holds(buf2, text2)
      && (lastLineLength > 0 ==> lastBuf != nextBuf && lastLine + lastLineLength <= |OtherText()|)
    }

    ghost function Last(): string
      requires Valid()
      reads this, buf1, buf2
    {
      if lastLineLength == 0 then "" else OtherText()[lastLine..lastLine + lastLineLength]
    }

    ghost function Mem(): Memory
      requires Valid()
      reads this, buf1, buf2
    {
      Memory(NextText(), OtherText(), Last())
    }

    constructor ()
      ensures Valid() && fresh(buf1) && fresh(buf2)
      ensures Mem() == Memory("", "", "")
    {
      var b1 := new char[BUF_SIZE](_ => NUL);
      var b2 := new char[BUF_SIZE](_ => NUL);
      buf1, buf2 := b1, b2;
      nextBuf, lastBuf := b1, b2;
      lastLine, lastLineLength := 0, 0;
      text1, text2 := "", "";
    }

    /** `klogctl(READ_ALL, next_buf, BUF_SIZE)`: copies the window, and nothing else. */
    method Fill(w: string)
      requires Valid()
      requires NUL !in w && |w| <= BUF_SIZE
      modifies this`text1, this`text2, nextBuf
      ensures Valid()
      ensures Mem() == old(Mem()).(next := Overwrite(old(NextText()), w))
    {
      ghost var t := Overwrite(NextText(), w);
      forall i | 0 <= i < |w| {
        nextBuf[i] := w[i];
      }
      if nextBuf == buf1 { text1 := t; } else { text2 := t; }
    }

    /** The boundary search, and the text printed. */
    method Scan(nextLength: nat) returns (startLine: nat, newLength: nat, out: string)
      requires Valid()
      requires nextLength <= |NextText()| < BUF_SIZE
      ensures startLine == StartOf(NextText(), nextLength, Last())
      ensures startLine + newLength == |NextText()|
      ensures out == NextText()[startLine..]
    {
      ghost var reach;
      startLine, reach := FindStart(nextBuf, nextLength, lastBuf, lastLine, lastLineLength, NextText(), Last());
      newLength := StrLen(nextBuf, startLine, NextText());
      out := nextBuf[startLine..startLine + newLength];
    }

    /** The end of a round: remember the last line printed and exchange the buffers. */
    method Turn(nextLength: nat, startLine: nat, newLength: nat)
      requires Valid()
      requires nextLength <= |NextText()| < BUF_SIZE
      requires startLine + newLength == |NextText()| && (newLength > 0 ==> startLine < nextLength)
      modifies this
      ensures Valid()
      ensures Mem() == Memory(old(OtherText()), old(NextText()), if newLength == 0 then "" else
          old(NextText())[LineStart(old(NextText()), startLine, nextLength - 1)..nextLength])
    {
      if newLength == 0 {
        lastBuf, lastLine, lastLineLength := nextBuf, 0, 0;
      } else {
        var p := ScanBack(nextBuf, startLine, nextLength, NextText());
        lastBuf, lastLine, lastLineLength := nextBuf, p, nextLength - p;
      }
      nextBuf := if nextBuf == buf1 then buf2 else buf1;
    }

    /** One call of `klog_read_new`. `window` is what the kernel delivers, None when
        `klogctl` fails. The result is the return value and the text written to stdout. */
    method ReadNew(window: Option<string>) returns (ret: int, out: string)
      requires Valid()
      requires window.Some? ==> NUL !in window.value && RoundInBounds(Mem(), window.value)
      modifies this, buf1, buf2
      ensures Valid()
      ensures window.None? ==> ret == -1 && out == "" && Mem() == old(Mem())
      ensures window.Some? ==> ret == 0 && out == old(RoundOutput(Mem(), window.value))
      ensures window.Some? ==> Mem() == old(RoundMemory(Mem(), window.value))
    {
      hide StartOf, LineStart, FirstMatch, Holds;
      if window.None? {
        return -1, "";
      }
      ghost var m := Mem();
      ghost var t := Overwrite(m.next, window.value);
      Fill(window.value);
      assert Mem() == Memory(t, m.other, m.last);
      var startLine, newLength;
      startLine, newLength, out := Scan(|window.value|);
      assert startLine == StartOf(t, |window.value|, m.last);
      Turn(|window.value|, startLine, newLength);
      ret := 0;
    }
  }
}
