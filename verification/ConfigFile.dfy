/** The key = value file parser: lines read by fgets into a 512-byte buffer, white space
    trimmed in place, comments and lines without '=' skipped. */
module ConfigFile {

  import opened Wrappers
  import opened Decimal

  const MAX_LINE_LENGTH: nat := 512
  const NUL: char := '\0'

  type Pair = (string, string)

  // ---------------------------------------------------------------------------------------
  // One line, as a function on its text
  // ---------------------------------------------------------------------------------------

  /** The end of s[from..end] without trailing white space. */
  function TrimEnd(s: string, from: nat, end: nat): (r: nat)
    requires from <= end <= |s|
    ensures from <= r <= end
    ensures r > from ==> !IsSpace(s[r - 1])
    decreases end
  {
    if end > from && IsSpace(s[end - 1]) then TrimEnd(s, from, end - 1) else end
  }

  /** The first '=' at or after `from`, or the length of the line. */
  function FindEq(s: string, from: nat): (r: nat)
    requires from <= |s|
    ensures from <= r <= |s|
    ensures r < |s| ==> s[r] == '='
    ensures forall k :: from <= k < r ==> s[k] != '='
    decreases |s| - from
  {
    if from == |s| || s[from] == '=' then from else FindEq(s, from + 1)
  }

  predicate IsComment(c: char) {
    c == '#' || c == ';'
  }

  function ParseLine(line: string): Option<Pair> {
    var i := SkipSpaces(line, 0);
    if i < |line| && IsComment(line[i]) then None
    else
      var eq := FindEq(line, i);
      if eq == |line| then None
      else
        var v := SkipSpaces(line, eq + 1);
        Some((line[i..TrimEnd(line, i, eq)], line[v..TrimEnd(line, v, |line|)]))
  }

  // ---------------------------------------------------------------------------------------
  // One line, in the buffers of the program
  // ---------------------------------------------------------------------------------------

  ghost predicate IsCString(buf: array<char>, text: string)
    reads buf
  {
    && |text| < buf.Length
    && (forall k :: 0 <= k < |text| ==> buf[k] == text[k])
    && buf[|text|] == NUL
  }

  /** strncpy of line[from..to] into a buffer, then the loop that overwrites trailing white
      space with NULs. Returns the length of the string left in the buffer. */
  method CopyTrimmed(buf: array<char>, line: string, from: nat, to: nat) returns (len: nat)
    requires from <= to <= |line| && to - from < buf.Length
    modifies buf
    ensures len == TrimEnd(line, from, to) - from
    ensures IsCString(buf, line[from..TrimEnd(line, from, to)])
  {
    forall k | 0 <= k < to - from {
      buf[k] := line[from + k];
    }
    len := to - from;
    buf[len] := NUL;
    while len > 0 && IsSpace(buf[len - 1])
      invariant len <= to - from
      invariant TrimEnd(line, from, to) == TrimEnd(line, from, from + len)
      invariant forall k :: 0 <= k < len ==> buf[k] == line[from + k]
      invariant buf[len] == NUL
    {
      len := len - 1;
      buf[len] := NUL;
    }
  }

  /** The loop over leading white space. */
  method SkipWhite(line: string, from: nat) returns (i: nat)
    requires from <= |line|
    ensures i == SkipSpaces(line, from)
  {
    i := from;
    while i < |line| && IsSpace(line[i])
      invariant from <= i <= |line| && SkipSpaces(line, from) == SkipSpaces(line, i)
    {
      i := i + 1;
    }
  }

  /** strchr(line + from, '='), the length of the line when there is none. */
  method StrChrEq(line: string, from: nat) returns (i: nat)
    requires from <= |line|
    ensures i == FindEq(line, from)
  {
    i := from;
    while i < |line| && line[i] != '='
      invariant from <= i <= |line| && FindEq(line, from) == FindEq(line, i)
    {
      i := i + 1;
    }
  }

  /** The body of the line loop up to the dispatch: fills `key` and `value`. */
  method SplitLine(line: string, key: array<char>, value: array<char>) returns (found: bool, keyLen: nat, valueLen: nat)
    requires |line| < MAX_LINE_LENGTH && NUL !in line && key.Length == value.Length == MAX_LINE_LENGTH && key != value
    modifies key, value
    ensures found == ParseLine(line).Some?
    ensures found ==> IsCString(key, ParseLine(line).value.0) && IsCString(value, ParseLine(line).value.1)
                      && keyLen == |ParseLine(line).value.0| && valueLen == |ParseLine(line).value.1|
  {
    found, keyLen, valueLen := false, 0, 0;
    var trimmed := SkipWhite(line, 0);
    if trimmed < |line| && IsComment(line[trimmed]) {
      return;
    }
    var eqPos := StrChrEq(line, trimmed);
    if eqPos == |line| {
      return;
    }
    keyLen := CopyTrimmed(key, line, trimmed, eqPos);
    var valStart := SkipWhite(line, eqPos + 1);
    valueLen := CopyTrimmed(value, line, valStart, |line|);
    found := true;
  }

  // ---------------------------------------------------------------------------------------
  // Round trip of one line
  // ---------------------------------------------------------------------------------------

  predicate Trimmed(s: string) {
    s != "" ==> !IsSpace(s[0]) && !IsSpace(s[|s| - 1])
  }

  /** A pair that can be written on a line: no white space at the edges, and a key that has no
      '=' and does not look like a comment. */
  predicate Writable(pair: Pair) {
    && Trimmed(pair.0) && Trimmed(pair.1)
    && '=' !in pair.0
    && (pair.0 != "" ==> pair.0[0] != '#' && pair.0[0] != ';')
  }

  /** Whatever is parsed is writable. */
  lemma ParsedIsWritable(line: string)
    ensures ParseLine(line).Some? ==> Writable(ParseLine(line).value)
  {
    hide SkipSpaces, TrimEnd, FindEq;
    var i := SkipSpaces(line, 0);
    SkipSpacesSpans(line, 0);
    var eq := FindEq(line, i);
    if eq < |line| {
      var v := SkipSpaces(line, eq + 1);
      SkipSpacesSpans(line, eq + 1);
    }
  }

  lemma {:induction false} TrimEndOver(s: string, from: nat, mid: nat, end: nat)
    requires from <= mid <= end <= |s| && AllSpaces(s[mid..end])
    requires mid > from ==> !IsSpace(s[mid - 1])
    ensures TrimEnd(s, from, end) == mid
    decreases end
  {
    if mid < end {
      assert s[end - 1] == s[mid..end][end - 1 - mid];
      assert s[mid..end - 1] == s[mid..end][..end - 1 - mid];
      TrimEndOver(s, from, mid, end - 1);
    }
  }

  lemma {:induction false} FindEqOver(s: string, from: nat, eq: nat)
    requires from <= eq < |s| && s[eq] == '=' && forall k :: from <= k < eq ==> s[k] != '='
    ensures FindEq(s, from) == eq
    decreases |s| - from
  {
    if from < eq {
      FindEqOver(s, from + 1, eq);
    }
  }

  /** A key and its place in a line: between spaces, right up to the '='. */
  lemma KeyPart(line: string, a: nat, b: nat, eq: nat, key: string)
    requires a <= b <= eq < |line| && line[eq] == '='
    requires AllSpaces(line[..a]) && line[a..b] == key && AllSpaces(line[b..eq])
    requires Writable((key, ""))
    ensures var i := SkipSpaces(line, 0);
            i <= eq && !IsComment(line[i]) && FindEq(line, i) == eq && line[i..TrimEnd(line, i, eq)] == key
  {
    forall k | a <= k < b
      ensures line[k] != '='
    {
      assert line[k] == key[k - a];
    }
    forall k | b <= k < eq
      ensures IsSpace(line[k])
    {
      assert line[k] == line[b..eq][k - b];
    }
    if key == "" {
      assert line[0..eq] == line[..a] + line[b..eq];
      SkipSpacesOver(line, 0, eq);
    } else {
      assert line[a] == key[0] && line[b - 1] == key[|key| - 1];
      assert line[0..a] == line[..a];
      SkipSpacesOver(line, 0, a);
      TrimEndOver(line, a, b, eq);
      FindEqOver(line, a, eq);
    }
  }

  lemma ValuePart(line: string, from: nat, c: nat, d: nat, value: string)
    requires from <= c <= d <= |line|
    requires AllSpaces(line[from..c]) && line[c..d] == value && AllSpaces(line[d..]) && Trimmed(value)
    ensures var v := SkipSpaces(line, from); line[v..TrimEnd(line, v, |line|)] == value
  {
    if value == "" {
      assert line[from..|line|] == line[from..c] + line[d..];
      SkipSpacesOver(line, from, |line|);
    } else {
      assert line[c] == value[0] && line[d - 1] == value[|value| - 1];
      SkipSpacesOver(line, from, c);
      assert line[d..|line|] == line[d..];
      TrimEndOver(line, c, d, |line|);
    }
  }

  function Line(pads: (string, string, string, string), pair: Pair): string {
    pads.0 + pair.0 + pads.1 + "=" + pads.2 + pair.1 + pads.3
  }

  predicate Pads(pads: (string, string, string, string)) {
    AllSpaces(pads.0) && AllSpaces(pads.1) && AllSpaces(pads.2) && AllSpaces(pads.3)
  }

  /** Written with any padding, a pair is read back if and only if it is writable. */
  lemma LineRoundTrip(pads: (string, string, string, string), pair: Pair)
    requires Pads(pads)
    ensures ParseLine(Line(pads, pair)) == Some(pair) <==> Writable(pair)
  {
    hide ParseLine, Line, Writable;
    ParsedIsWritable(Line(pads, pair));
    if Writable(pair) {
      WritableIsRead(pads, pair);
    }
  }

  lemma WritableIsRead(pads: (string, string, string, string), pair: Pair)
    requires Pads(pads) && Writable(pair)
    ensures ParseLine(Line(pads, pair)) == Some(pair)
  {
    hide ParseLine, SkipSpaces, TrimEnd, FindEq, IsComment, Line, AllSpaces;
    var line := Line(pads, pair);
    var a := |pads.0|;
    var b := a + |pair.0|;
    var eq := b + |pads.1|;
    var c := eq + 1 + |pads.2|;
    LinePieces(pads, pair);
    assert Writable((pair.0, ""));
    KeyPart(line, a, b, eq, pair.0);
    ValuePart(line, eq + 1, c, c + |pair.1|, pair.1);
    ParsedPair(line, eq, pair.0, pair.1);
  }

  lemma ParsedPair(line: string, eq: nat, key: string, value: string)
    requires eq < |line|
    requires var i := SkipSpaces(line, 0);
             i <= eq && !IsComment(line[i]) && FindEq(line, i) == eq && line[i..TrimEnd(line, i, eq)] == key
    requires var v := SkipSpaces(line, eq + 1); line[v..TrimEnd(line, v, |line|)] == value
    ensures ParseLine(line) == Some((key, value))
  {
  }

  lemma LinePieces(pads: (string, string, string, string), pair: Pair)
    ensures var line := Line(pads, pair);
            var a := |pads.0|; var b := a + |pair.0|; var eq := b + |pads.1|;
            var c := eq + 1 + |pads.2|; var d := c + |pair.1|;
            && |line| == d + |pads.3| && line[eq] == '='
            && line[..a] == pads.0 && line[a..b] == pair.0 && line[b..eq] == pads.1
            && line[eq + 1..c] == pads.2 && line[c..d] == pair.1 && line[d..] == pads.3
  {
    var left := pads.0 + pair.0 + pads.1;
    var right := pads.2 + pair.1 + pads.3;
    var line := Line(pads, pair);
    assert line == left + "=" + right;
    Pieces(left, 0, |left|, pads.0, pair.0, pads.1);
    Pieces(right, 0, |right|, pads.2, pair.1, pads.3);
    Pieces(line, 0, |line|, left, "=", right);
  }

  // ---------------------------------------------------------------------------------------
  // Files
  // ---------------------------------------------------------------------------------------

  /** How much one fgets takes: through the first newline, at most 511 bytes. */
  function LineLength(content: string, n: nat): (r: nat)
    requires n <= |content| && n < MAX_LINE_LENGTH
    ensures n <= r <= |content| && r < MAX_LINE_LENGTH
    decreases MAX_LINE_LENGTH - n
  {
    if n == |content| || n == MAX_LINE_LENGTH - 1 then n
    else if content[n] == '\n' then n + 1
    else LineLength(content, n + 1)
  }

  /** What the string functions see of a buffer: the bytes before the first NUL. */
  function UpToNul(s: string): (r: string)
    ensures |r| <= |s|
  {
    if s == "" || s[0] == NUL then "" else [s[0]] + UpToNul(s[1..])
  }

  lemma {:induction false} UpToNulHasNone(s: string)
    ensures NUL !in UpToNul(s)
  {
    if s != "" && s[0] != NUL {
      UpToNulHasNone(s[1..]);
    }
  }

  /** The pairs of a file, in order. */
  function Pairs(content: string): seq<Pair>
    decreases |content|
  {
    if content == "" then []
    else
      var n := LineLength(content, 0);
      LineNotEmpty(content);
      var rest := Pairs(content[n..]);
      match ParseLine(UpToNul(content[..n]))
      case None => rest
      case Some(pair) => [pair] + rest
  }

  lemma LineNotEmpty(content: string)
    requires content != ""
    ensures LineLength(content, 0) > 0
  {
  }

  /** A line of a file: a pair with any padding, or a line that sets nothing. */
  datatype FileLine = Setting(pads: (string, string, string, string), pair: Pair) | Other(text: string)

  function LineText(l: FileLine): string {
    match l
    case Setting(pads, pair) => Line(pads, pair)
    case Other(text) => text
  }

  /** One line of the file, short enough for the buffer with its newline and a NUL. */
  predicate FitsLine(text: string) {
    '\n' !in text && '\0' !in text && |text| <= 510
  }

  /** No '=', or a first visible character that starts a comment. */
  predicate SetsNothing(text: string) {
    '=' !in text || exists k :: 0 <= k < |text| && IsCommentFrom(text, k)
  }

  predicate IsCommentFrom(text: string, k: nat)
    requires k < |text|
  {
    AllSpaces(text[..k]) && (text[k] == '#' || text[k] == ';')
  }

  predicate IsFileLine(l: FileLine) {
    && FitsLine(LineText(l))
    && match l
       case Setting(pads, pair) => Pads(pads) && Writable(pair)
       case Other(text) => SetsNothing(text)
  }

  function RenderFile(lines: seq<FileLine>): string {
    if lines == [] then ""
    else LineText(lines[0]) + "\n" + RenderFile(lines[1..])
  }

  function PairsOf(lines: seq<FileLine>): seq<Pair> {
    if lines == [] then []
    else (if lines[0].Setting? then [lines[0].pair] else []) + PairsOf(lines[1..])
  }

  /** A line sets nothing exactly when it has no '=' or is a comment. */
  lemma IgnoredExactly(text: string)
    ensures ParseLine(text).None? <==> SetsNothing(text)
  {
    var i := SkipSpaces(text, 0);
    SkipSpacesSpans(text, 0);
    assert text[0..i] == text[..i];
    if i < |text| && IsComment(text[i]) {
      assert IsCommentFrom(text, i);
    } else {
      NotAComment(text, i);
      NoEqInSpaces(text, i);
    }
  }

  lemma NotAComment(text: string, i: nat)
    requires i <= |text| && AllSpaces(text[..i])
    requires i < |text| ==> !IsSpace(text[i]) && !IsComment(text[i])
    ensures forall k :: 0 <= k < |text| ==> !IsCommentFrom(text, k)
  {
    forall k | 0 <= k < |text|
      ensures !IsCommentFrom(text, k)
    {
      if k < i {
        assert text[k] == text[..i][k];
      } else if k > i {
        assert text[i] == text[..k][i];
      }
    }
  }

  lemma NoEqInSpaces(text: string, i: nat)
    requires i <= |text| && AllSpaces(text[..i])
    ensures FindEq(text, i) == |text| <==> '=' !in text
  {
    forall k | 0 <= k < i
      ensures text[k] != '='
    {
      assert text[k] == text[..i][k];
    }
  }

  lemma {:induction false} LineLengthOver(content: string, n: nat, end: nat)
    requires n <= end < |content| && end + 1 < MAX_LINE_LENGTH && content[end] == '\n'
    requires forall k :: n <= k < end ==> content[k] != '\n'
    ensures LineLength(content, n) == end + 1
    decreases end - n
  {
    if n < end {
      LineLengthOver(content, n + 1, end);
    }
  }

  /** A longer line is read in pieces of 511 characters. */
  lemma {:induction false} LongLineIsSplit(content: string, n: nat)
    requires n <= 511 <= |content| && '\n' !in content[..511]
    ensures LineLength(content, n) == 511
    decreases 511 - n
  {
    if n < 511 {
      assert content[n] == content[..511][n];
      LongLineIsSplit(content, n + 1);
    }
  }

  lemma {:induction false} UpToNulWhole(s: string)
    requires NUL !in s
    ensures UpToNul(s) == s
  {
    if s != "" {
      UpToNulWhole(s[1..]);
    }
  }

  /** The newline at the end of a line is one more white space. */
  lemma LineParses(l: FileLine)
    requires IsFileLine(l)
    ensures ParseLine(LineText(l) + "\n") == if l.Setting? then Some(l.pair) else None
  {
    hide ParseLine, Line, Writable, SetsNothing;
    match l
    case Setting(pads, pair) =>
      var longer := (pads.0, pads.1, pads.2, pads.3 + "\n");
      LineLonger(pads, pair);
      LineRoundTrip(longer, pair);
    case Other(text) =>
      StillSetsNothing(text);
      IgnoredExactly(text + "\n");
  }

  lemma LineLonger(pads: (string, string, string, string), pair: Pair)
    ensures Line((pads.0, pads.1, pads.2, pads.3 + "\n"), pair) == Line(pads, pair) + "\n"
  {
  }

  lemma StillSetsNothing(text: string)
    requires SetsNothing(text)
    ensures SetsNothing(text + "\n")
  {
    if k :| 0 <= k < |text| && IsCommentFrom(text, k) {
      assert (text + "\n")[..k] == text[..k];
      assert IsCommentFrom(text + "\n", k);
    }
  }

  /** Writing any lines and reading the file gives back exactly the pairs, in order. */
  lemma {:induction false} FileRoundTrip(lines: seq<FileLine>)
    requires forall i :: 0 <= i < |lines| ==> IsFileLine(lines[i])
    ensures Pairs(RenderFile(lines)) == PairsOf(lines)
  {
    if lines != [] {
      hide IsFileLine, Pairs, LineText;
      FileRoundTrip(lines[1..]);
      FirstLine(lines[0], RenderFile(lines[1..]));
    } else {
      assert Pairs("") == [];
    }
  }

  lemma FirstLine(l: FileLine, rest: string)
    requires IsFileLine(l)
    ensures Pairs(LineText(l) + "\n" + rest) == (if l.Setting? then [l.pair] else []) + Pairs(rest)
  {
    hide ParseLine, LineLength, UpToNul, LineText, Writable, SetsNothing;
    var line := LineText(l) + "\n";
    var content := line + rest;
    LineParses(l);
    UpToNulWhole(line);
    LineLengthOver(content, 0, |line| - 1);
    assert content[..|line|] == line && content[|line|..] == rest;
  }
}
