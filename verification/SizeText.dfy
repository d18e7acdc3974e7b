/** Sizes printed as T, G, M, K and B parts, each followed by a dot and left out when zero. A
    shift of an unsigned value by n is division by 2^n, a mask with 2^n - 1 its remainder. */
module SizeText {

  import opened Wrappers
  import opened Decimal

  const SZ_1K: nat := 0x400
  const SZ_1M: nat := 0x10_0000
  const SZ_1G: nat := 0x4000_0000
  const SZ_1T: nat := 0x100_0000_0000

  datatype Parts = Parts(t: nat, g: nat, m: nat, k: nat, b: nat)

  /** The five locals of the printer. */
  function Split(size: nat): Parts {
    Parts(size / SZ_1T, size % SZ_1T / SZ_1G, size % SZ_1G / SZ_1M, size % SZ_1M / SZ_1K, size % SZ_1K)
  }

  function PartText(n: nat, unit: char): string {
    if n == 0 then "" else Render(n) + [unit, '.']
  }

  /** What pr_cont_size prints. */
  function SizeText(size: nat): string {
    var p := Split(size);
    PartText(p.t, 'T') + (PartText(p.g, 'G') + (PartText(p.m, 'M') + (PartText(p.k, 'K') + PartText(p.b, 'B'))))
  }

  function Weight(unit: char): nat {
    if unit == 'T' then SZ_1T
    else if unit == 'G' then SZ_1G
    else if unit == 'M' then SZ_1M
    else if unit == 'K' then SZ_1K
    else if unit == 'B' then 1
    else 0
  }

  /** A reader that knows nothing of the printer: numbers with a unit and a dot, added up, every
      unit smaller than the one before. */
  function ReadSize(s: string): Option<nat> {
    ReadBelow(s, 2 * SZ_1T)
  }

  function ReadBelow(s: string, bound: nat): Option<nat>
    decreases |s|
  {
    if s == "" then Some(0)
    else
      var k := SkipDigits(s, 0);
      if k == 0 || k + 1 >= |s| || s[k + 1] != '.' || !(0 < Weight(s[k]) < bound) then None
      else
        SkipDigitsSpans(s, 0);
        assert s[..k] == s[0..k];
        var rest := ReadBelow(s[k + 2..], Weight(s[k]));
        if rest.None? then None else Some(Value(s[..k]) * Weight(s[k]) + rest.value)
  }

  /** Each part is one digit of the size in base 1024. */
  lemma PartsAreDigits(size: nat)
    ensures var p := Split(size);
            p.g == size / SZ_1G % 1024 && p.m == size / SZ_1M % 1024 && p.k == size / SZ_1K % 1024 && p.b == size % 1024
    ensures size / SZ_1M == size / SZ_1K / 1024 && size / SZ_1G == size / SZ_1M / 1024 && size / SZ_1T == size / SZ_1G / 1024
  {
    DigitK(size);
    DigitM(size);
    DigitG(size);
  }

  lemma DigitK(size: nat)
    ensures size % SZ_1M / SZ_1K == size / SZ_1K % 1024 && size / SZ_1M == size / SZ_1K / 1024
  {
  }

  lemma DigitM(size: nat)
    ensures size % SZ_1G / SZ_1M == size / SZ_1M % 1024 && size / SZ_1G == size / SZ_1M / 1024
  {
  }

  lemma DigitG(size: nat)
    ensures size % SZ_1T / SZ_1G == size / SZ_1G % 1024 && size / SZ_1T == size / SZ_1G / 1024
  {
  }

  /** The mixed-radix decomposition: every part below its bound, the weighted sum is the size, and
      no other parts within the bounds have that sum. */
  lemma SplitIsExact(size: nat, p: Parts)
    requires p.g < 1024 && p.m < 1024 && p.k < 1024 && p.b < 1024
    ensures var q := Split(size); q.g < 1024 && q.m < 1024 && q.k < 1024 && q.b < 1024
    ensures p.t * SZ_1T + p.g * SZ_1G + p.m * SZ_1M + p.k * SZ_1K + p.b == size <==> p == Split(size)
  {
    PartsAreDigits(size);
    var q := Split(size);
    Base1024(size, q);
    Base1024Unique(p, q);
  }

  function Sum(p: Parts): nat {
    (((p.t * 1024 + p.g) * 1024 + p.m) * 1024 + p.k) * 1024 + p.b
  }

  lemma Base1024(size: nat, q: Parts)
    requires q.b == size % 1024 && q.k == size / SZ_1K % 1024 && q.m == size / SZ_1M % 1024
    requires q.g == size / SZ_1G % 1024 && q.t == size / SZ_1T
    requires size / SZ_1M == size / SZ_1K / 1024 && size / SZ_1G == size / SZ_1M / 1024 && size / SZ_1T == size / SZ_1G / 1024
    ensures Sum(q) == size
  {
  }

  lemma Base1024Unique(p: Parts, q: Parts)
    requires p.g < 1024 && p.m < 1024 && p.k < 1024 && p.b < 1024
    requires q.g < 1024 && q.m < 1024 && q.k < 1024 && q.b < 1024
    ensures Sum(p) == Sum(q) <==> p == q
  {
    DigitUnique(((p.t * 1024 + p.g) * 1024 + p.m) * 1024 + p.k, p.b, ((q.t * 1024 + q.g) * 1024 + q.m) * 1024 + q.k, q.b);
    DigitUnique((p.t * 1024 + p.g) * 1024 + p.m, p.k, (q.t * 1024 + q.g) * 1024 + q.m, q.k);
    DigitUnique(p.t * 1024 + p.g, p.m, q.t * 1024 + q.g, q.m);
    DigitUnique(p.t, p.g, q.t, q.g);
  }

  lemma DigitUnique(x: nat, a: nat, y: nat, b: nat)
    requires a < 1024 && b < 1024
    ensures x * 1024 + a == y * 1024 + b <==> x == y && a == b
  {
  }

  lemma ReadStep(digits: string, unit: char, rest: string, bound: nat)
    requires digits != "" && AllDigits(digits) && 0 < Weight(unit) < bound && !IsDigit(unit)
    requires ReadBelow(rest, Weight(unit)).Some?
    ensures ReadBelow(digits + [unit, '.'] + rest, bound)
         == Some(Value(digits) * Weight(unit) + ReadBelow(rest, Weight(unit)).value)
  {
    hide Value, SkipDigits, Weight;
    var s := digits + [unit, '.'] + rest;
    assert s[0..|digits|] == s[..|digits|] == digits;
    assert s[|digits|] == unit && s[|digits| + 1] == '.' && s[|digits| + 2..] == rest;
    SkipDigitsOver(s, 0, |digits|);
  }

  /** A larger bound reads no less. */
  lemma {:induction false} ReadHigher(s: string, bound: nat, higher: nat)
    requires bound <= higher && ReadBelow(s, bound).Some?
    ensures ReadBelow(s, higher) == ReadBelow(s, bound)
  {
  }

  lemma ReadPart(n: nat, unit: char, rest: string, bound: nat)
    requires 0 < Weight(unit) < bound && !IsDigit(unit) && ReadBelow(rest, Weight(unit)).Some?
    ensures ReadBelow(PartText(n, unit) + rest, bound) == Some(n * Weight(unit) + ReadBelow(rest, Weight(unit)).value)
  {
    hide ReadBelow, Weight;
    if n == 0 {
      assert PartText(n, unit) + rest == rest;
      ReadHigher(rest, Weight(unit), bound);
    } else {
      ReadStep(Render(n), unit, rest, bound);
      ValueOfRender(n);
    }
  }

  /** Reading the printed text back, largest unit first, gives the size, for every size; hence no
      two sizes print the same. Zero prints as the empty text. */
  lemma SizeRoundTrip(size: nat)
    ensures ReadSize(SizeText(size)) == Some(size)
    ensures SizeText(0) == ""
  {
    hide ReadBelow, PartText, Split;
    var p := Split(size);
    var b := PartText(p.b, 'B');
    var k := PartText(p.k, 'K') + b;
    var m := PartText(p.m, 'M') + k;
    var g := PartText(p.g, 'G') + m;
    assert b + "" == b;
    EmptyReads();
    ReadPart(p.b, 'B', "", SZ_1K);
    ReadPart(p.k, 'K', b, SZ_1M);
    ReadPart(p.m, 'M', k, SZ_1G);
    ReadPart(p.g, 'G', m, SZ_1T);
    ReadPart(p.t, 'T', g, 2 * SZ_1T);
    PartsAreDigits(size);
    SplitIsExact(size, p);
  }

  lemma EmptyReads()
    ensures ReadBelow("", Weight('B')) == Some(0) && SizeText(0) == ""
  {
  }

  /** One of each: the units, their order and the dots. */
  lemma SizeExample()
    ensures SizeText(0x100_8030_1005) == "1T.2G.3M.4K.5B."
  {
    assert Split(0x100_8030_1005) == Parts(1, 2, 3, 4, 5);
    assert Render(1) == "1" && Render(2) == "2" && Render(3) == "3" && Render(4) == "4" && Render(5) == "5";
    assert PartText(1, 'T') == "1T." && PartText(2, 'G') == "2G." && PartText(3, 'M') == "3M.";
    assert PartText(4, 'K') == "4K." && PartText(5, 'B') == "5B.";
  }
}
