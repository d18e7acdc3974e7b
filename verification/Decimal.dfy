/** Decimal numerals: rendering, reading, and the C library's `strtoul` (ISO C11 section
    7.22.1.4) and `atoi` (section 7.22.1.2) on strings without NUL. */
module Decimal {

  import opened Wrappers

  const ULONG_MAX: nat := 0xFFFF_FFFF_FFFF_FFFF
  const INT_MAX: int := 0x7FFF_FFFF

  predicate IsDigit(c: char) {
    '0' <= c <= '9'
  }

  predicate IsSpace(c: char) {
    c == ' ' || '\t' <= c <= '\r'
  }

  predicate AllDigits(s: string) {
    forall i :: 0 <= i < |s| ==> IsDigit(s[i])
  }

  predicate AllSpaces(s: string) {
    forall i :: 0 <= i < |s| ==> IsSpace(s[i])
  }

  function Digit(d: nat): (c: char)
    requires d < 10
    ensures IsDigit(c)
  {
    '0' + d as char
  }

  function DigitValue(c: char): (d: nat)
    requires IsDigit(c)
    ensures d < 10
  {
    c as nat - '0' as nat
  }

  function Value(s: string): nat
    requires AllDigits(s)
  {
    if s == "" then 0 else Value(s[..|s| - 1]) * 10 + DigitValue(s[|s| - 1])
  }

  function Render(n: nat): (s: string)
    ensures s != "" && AllDigits(s)
  {
    if n < 10 then [Digit(n)] else Render(n / 10) + [Digit(n % 10)]
  }

  lemma {:induction false} ValueOfRender(n: nat)
    ensures Value(Render(n)) == n
  {
    if n < 10 {
      assert [Digit(n)][..0] == "";
    } else {
      ValueOfRender(n / 10);
      assert Render(n)[..|Render(n)| - 1] == Render(n / 10);
    }
  }

  // ---------------------------------------------------------------------------------------
  // Numerals as the library reads them
  // ---------------------------------------------------------------------------------------

  datatype Sign = Absent | Plus | Minus

  function SignText(sign: Sign): string {
    match sign
    case Absent => ""
    case Plus => "+"
    case Minus => "-"
  }

  /** Optional white space, optional sign, digits. */
  datatype Numeral = Numeral(spaces: string, sign: Sign, digits: string)

  predicate IsNumeral(n: Numeral) {
    AllSpaces(n.spaces) && n.digits != "" && AllDigits(n.digits)
  }

  function Text(n: Numeral): string {
    n.spaces + SignText(n.sign) + n.digits
  }

  /** The value as an unsigned long: clamped when too large, and negated modulo 2^64. */
  function UnsignedValue(n: Numeral): nat
    requires IsNumeral(n)
  {
    var v := Value(n.digits);
    if v > ULONG_MAX then ULONG_MAX
    else if n.sign == Minus && v > 0 then ULONG_MAX + 1 - v
    else v
  }

  function SkipSpaces(s: string, from: nat): (to: nat)
    requires from <= |s|
    ensures from <= to <= |s|
    decreases |s| - from
  {
    if from < |s| && IsSpace(s[from]) then SkipSpaces(s, from + 1) else from
  }

  function SkipDigits(s: string, from: nat): (to: nat)
    requires from <= |s|
    ensures from <= to <= |s|
    decreases |s| - from
  {
    if from < |s| && IsDigit(s[from]) then SkipDigits(s, from + 1) else from
  }

  function SignAt(s: string, at: nat): Sign
    requires at <= |s|
  {
    if at == |s| then Absent
    else if s[at] == '+' then Plus
    else if s[at] == '-' then Minus
    else Absent
  }

  /** The numeral the library finds at `from`, and where it stops; None when there are no digits. */
  function Scan(s: string, from: nat): (r: Option<(Numeral, nat)>)
    requires from <= |s|
  {
    var i := SkipSpaces(s, from);
    var sign := SignAt(s, i);
    var j := i + |SignText(sign)|;
    var k := SkipDigits(s, j);
    if k == j then None else Some((Numeral(s[from..i], sign, s[j..k]), k))
  }

  /** strtoul(s + from, &end, 10): the value, and the offset of `end`. */
  function Strtoul(s: string, from: nat): (r: (nat, nat))
    requires from <= |s|
    ensures from <= r.1 <= |s| && r.0 <= ULONG_MAX
  {
    ScanSound(s, from);
    var found := Scan(s, from);
    if found.None? then (0, from) else (UnsignedValue(found.value.0), found.value.1)
  }

  lemma {:induction false} SkipSpacesSpans(s: string, from: nat)
    requires from <= |s|
    ensures var to := SkipSpaces(s, from); AllSpaces(s[from..to]) && (to < |s| ==> !IsSpace(s[to]))
    decreases |s| - from
  {
    if from < |s| && IsSpace(s[from]) {
      SkipSpacesSpans(s, from + 1);
      var to := SkipSpaces(s, from);
      assert s[from..to] == [s[from]] + s[from + 1..to];
    }
  }

  lemma {:induction false} SkipDigitsSpans(s: string, from: nat)
    requires from <= |s|
    ensures var to := SkipDigits(s, from); AllDigits(s[from..to]) && (to < |s| ==> !IsDigit(s[to]))
    decreases |s| - from
  {
    if from < |s| && IsDigit(s[from]) {
      SkipDigitsSpans(s, from + 1);
      var to := SkipDigits(s, from);
      assert s[from..to] == [s[from]] + s[from + 1..to];
    }
  }

  /** What the library finds is a numeral spelled there, and it takes all digits there are. */
  lemma ScanSound(s: string, from: nat)
    requires from <= |s|
    ensures var r := Scan(s, from);
            r.Some? ==> var (n, end) := r.value;
              IsNumeral(n) && from < end <= |s| && s[from..end] == Text(n) && (end < |s| ==> !IsDigit(s[end]))
  {
    var i := SkipSpaces(s, from);
    var sign := SignAt(s, i);
    var j := i + |SignText(sign)|;
    SkipSpacesSpans(s, from);
    SkipDigitsSpans(s, j);
    var k := SkipDigits(s, j);
    assert s[i..j] == SignText(sign);
    assert s[from..k] == s[from..i] + s[i..j] + s[j..k];
  }

  lemma {:induction false} SkipSpacesOver(s: string, from: nat, to: nat)
    requires from <= to <= |s| && AllSpaces(s[from..to]) && (to < |s| ==> !IsSpace(s[to]))
    ensures SkipSpaces(s, from) == to
    decreases |s| - from
  {
    if from < to {
      assert s[from..to][0] == s[from];
      assert s[from + 1..to] == s[from..to][1..];
      SkipSpacesOver(s, from + 1, to);
    }
  }

  lemma {:induction false} SkipDigitsOver(s: string, from: nat, to: nat)
    requires from <= to <= |s| && AllDigits(s[from..to]) && (to < |s| ==> !IsDigit(s[to]))
    ensures SkipDigits(s, from) == to
    decreases |s| - from
  {
    if from < to {
      assert s[from..to][0] == s[from];
      assert s[from + 1..to] == s[from..to][1..];
      SkipDigitsOver(s, from + 1, to);
    }
  }

  /** A numeral spelled at `from` and not followed by another digit is the one found. */
  lemma ScanComplete(s: string, from: nat, n: Numeral, end: nat)
    requires IsNumeral(n) && from <= end <= |s| && s[from..end] == Text(n)
    requires end < |s| ==> !IsDigit(s[end])
    ensures Scan(s, from) == Some((n, end))
  {
    hide SkipSpaces, SkipDigits;
    var i := from + |n.spaces|;
    var j := i + |SignText(n.sign)|;
    assert s[from..i] == n.spaces && s[i..j] == SignText(n.sign) && s[j..end] == n.digits by {
      Pieces(s, from, end, n.spaces, SignText(n.sign), n.digits);
    }
    assert s[j] == s[j..end][0];
    assert n.sign != Absent ==> s[i] == s[i..j][0];
    SkipSpacesOver(s, from, i);
    SkipDigitsOver(s, j, end);
  }

  lemma Pieces(s: string, from: nat, end: nat, a: string, b: string, c: string)
    requires from <= end <= |s| && s[from..end] == a + b + c
    ensures from + |a| + |b| + |c| == end
    ensures s[from..from + |a|] == a && s[from + |a|..from + |a| + |b|] == b && s[from + |a| + |b|..end] == c
  {
    var t := s[from..end];
    assert |t| == |a| + |b| + |c|;
    forall i | 0 <= i < |a| ensures s[from + i] == a[i] { assert t[i] == a[i]; }
    forall i | 0 <= i < |b| ensures s[from + |a| + i] == b[i] { assert t[|a| + i] == b[i]; }
    forall i | 0 <= i < |c| ensures s[from + |a| + |b| + i] == c[i] { assert t[|a| + |b| + i] == c[i]; }
  }

  // ---------------------------------------------------------------------------------------
  // atoi
  // ---------------------------------------------------------------------------------------

  /** atoi of a string. A value that does not fit an int is undefined behaviour; `undefined`
      says what the library then returns. */
  function Atoi(s: string, undefined: string -> int): int {
    ScanSound(s, 0);
    var found := Scan(s, 0);
    if found.None? then 0
    else
      var n := found.value.0;
      var m: int := Value(n.digits);
      var v := if n.sign == Minus then -m else m;
      if -INT_MAX - 1 <= v <= INT_MAX then v else undefined(s)
  }

  /** The number a numeral spells. */
  function SignedValue(n: Numeral): int
    requires IsNumeral(n)
  {
    if n.sign == Minus then -(Value(n.digits) as int) else Value(n.digits)
  }

  /** A numeral, with white space and sign, is read as the number it spells if that fits an int. */
  lemma AtoiOfText(n: Numeral, rest: string, undefined: string -> int)
    requires IsNumeral(n) && (rest != "" ==> !IsDigit(rest[0]))
    ensures var v := SignedValue(n);
            Atoi(Text(n) + rest, undefined)
            == if -0x8000_0000 <= v <= 0x7FFF_FFFF then v else undefined(Text(n) + rest)
  {
    hide Scan, Value;
    var s := Text(n) + rest;
    assert s[0..|Text(n)|] == Text(n);
    ScanComplete(s, 0, n, |Text(n)|);
  }

  lemma AtoiOfRender(n: nat, undefined: string -> int)
    requires n <= 0x7FFF_FFFF
    ensures Atoi(Render(n), undefined) == n
  {
    var m := Numeral("", Absent, Render(n));
    assert Text(m) + "" == Render(n);
    AtoiOfText(m, "", undefined);
    ValueOfRender(n);
  }

  /** What strtoul makes of a numeral: too large a number becomes the largest value, a minus sign
      negates modulo 2^64. */
  lemma UnsignedExactly(n: Numeral)
    requires IsNumeral(n)
    ensures var v, u := Value(n.digits), UnsignedValue(n);
      && u <= 0xFFFF_FFFF_FFFF_FFFF
      && (v > 0xFFFF_FFFF_FFFF_FFFF ==> u == 0xFFFF_FFFF_FFFF_FFFF)
      && (v <= 0xFFFF_FFFF_FFFF_FFFF && n.sign != Minus ==> u == v)
      && (0 < v <= 0xFFFF_FFFF_FFFF_FFFF && n.sign == Minus ==> u == 0x1_0000_0000_0000_0000 - v)
      && (v == 0 ==> u == 0)
  {
  }

  /** Signs and white space, in examples. */
  lemma StrtoulExamples()
    ensures Strtoul("+5", 0) == (5, 2) && Strtoul("-1", 0) == (0xFFFF_FFFF_FFFF_FFFF, 2)
    ensures Strtoul("\t 7,", 0) == (7, 3) && Strtoul(" x", 0) == (0, 0)
  {
    hide Strtoul, UnsignedValue, Value, SkipSpaces;
    OneDigit('5');
    OneDigit('1');
    OneDigit('7');
    StrtoulOne("+5", Numeral("", Plus, "5"), 2);
    StrtoulOne("-1", Numeral("", Minus, "1"), 2);
    StrtoulOne("\t 7,", Numeral("\t ", Absent, "7"), 3);
    UnsignedExactly(Numeral("", Plus, "5"));
    UnsignedExactly(Numeral("", Minus, "1"));
    UnsignedExactly(Numeral("\t ", Absent, "7"));
    NoNumber();
  }

  lemma NoNumber()
    ensures Strtoul(" x", 0) == (0, 0)
  {
    assert SkipSpaces(" x", 0) == 1;
  }

  lemma OneDigit(c: char)
    requires IsDigit(c)
    ensures AllDigits([c]) && Value([c]) == DigitValue(c)
  {
    assert [c][..0] == "";
  }

  lemma StrtoulOne(s: string, n: Numeral, end: nat)
    requires IsNumeral(n) && end <= |s| && s[..end] == Text(n) && (end < |s| ==> !IsDigit(s[end]))
    ensures Strtoul(s, 0) == (UnsignedValue(n), end)
  {
    hide Scan, Value;
    assert s[0..end] == s[..end];
    ScanComplete(s, 0, n, end);
  }

  /** White space is blank, tab, newline, vertical tab, form feed and carriage return. */
  lemma WhiteSpace(c: char)
    ensures IsSpace(c) <==> c in {' ', '\t', '\n', 11 as char, 12 as char, '\r'}
  {
  }
}
