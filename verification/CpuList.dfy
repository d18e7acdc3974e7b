/** The CPU-list parser `parse_array_to_bitmask`: comma-separated numbers and ranges, ended by
    a newline, to a 64-bit mask. A mask is the set of its bit positions. */
module CpuList {

  import opened Wrappers
  import opened Decimal

  const BITS: nat := 64

  /** How a call ends. Shifting by 64 or more is undefined behaviour (ISO C11 section 6.5.7);
      a range that ends at ULONG_MAX is never left, because the loop counter wraps. */
  datatype Outcome = Accepted(mask: set<nat>) | Rejected | UndefinedShift | Endless

  /** The character at a position; NUL at the end of the string. */
  function At(s: string, i: nat): char
    requires i <= |s|
  {
    if i < |s| then s[i] else '\0'
  }

  predicate Between(b: nat, lo: nat, hi: nat) {
    lo <= b <= hi
  }

  /** The bits from lo to hi that a 64-bit word has. */
  function RangeBits(lo: nat, hi: nat): set<nat> {
    set b: nat | 0 <= b < BITS && Between(b, lo, hi)
  }

  // ---------------------------------------------------------------------------------------
  // The parser as a function
  // ---------------------------------------------------------------------------------------

  /** One item at `from`: its first and last value and where it ends, None when malformed. */
  function ReadItem(s: string, from: nat): (r: Option<(nat, nat, nat)>)
    requires from <= |s|
    ensures r.Some? ==> r.value.0 <= r.value.1 <= ULONG_MAX && from < r.value.2 <= |s|
  {
    var (lo, end) := Strtoul(s, from);
    if end == from then None
    else if At(s, end) == '-' then
      var (hi, end2) := Strtoul(s, end + 1);
      if end2 == end + 1 || hi <= lo then None else Some((lo, hi, end2))
    else Some((lo, lo, end))
  }

  function Parse(s: string, from: nat, mask: set<nat>): Outcome
    requires from <= |s|
    decreases |s| - from
  {
    match ReadItem(s, from)
    case None => Rejected
    case Some((lo, hi, end)) =>
      if lo >= BITS then UndefinedShift
      else if hi == ULONG_MAX then Endless
      else
        var m := mask + RangeBits(lo, hi);
        if At(s, end) == ',' then Parse(s, end + 1, m)
        else if At(s, end) == '\n' then Accepted(m)
        else Rejected
  }

  // ---------------------------------------------------------------------------------------
  // The parser as the program runs it
  // ---------------------------------------------------------------------------------------

  function ShiftLeft(w: set<nat>): set<nat> {
    set b | b in w && b + 1 < BITS :: b + 1
  }

  /** The loop that records a range. */
  method Record(mask: set<nat>, lo: nat, hi: nat) returns (m: set<nat>)
    requires lo < BITS && lo <= hi < ULONG_MAX
    ensures m == mask + RangeBits(lo, hi)
  {
    m := mask;
    var bit := {lo};
    var i := lo;
    while i <= hi
      invariant lo <= i <= hi + 1
      invariant bit == if i < BITS then {i} else {}
      invariant m == if i == lo then mask else mask + RangeBits(lo, i - 1)
      decreases hi + 1 - i
    {
      m := m + bit;
      assert RangeBits(lo, i) == (if i == lo then {} else RangeBits(lo, i - 1)) + bit by {
        assert forall b: nat :: Between(b, lo, i) <==> b == i || (i > lo && Between(b, lo, i - 1));
      }
      bit := ShiftLeft(bit);
      i := i + 1;
    }
  }

  method ParseArrayToBitmask(s: string) returns (outcome: Outcome)
    ensures outcome == Parse(s, 0, {})
  {
    hide Strtoul, RangeBits;
    var cursor: nat := 0;
    var mask: set<nat> := {};
    while true
      invariant cursor <= |s|
      invariant Parse(s, 0, {}) == Parse(s, cursor, mask)
      decreases |s| - cursor
    {
      var (startValue, end) := Strtoul(s, cursor);
      if end == cursor {
        return Rejected;
      }
      var endValue := startValue;
      if At(s, end) == '-' {
        var (v, end2) := Strtoul(s, end + 1);
        endValue := v;
        if end2 == end + 1 || endValue <= startValue {
          return Rejected;
        }
        end := end2;
      }
      if startValue >= BITS {
        return UndefinedShift;
      }
      if endValue == ULONG_MAX {
        return Endless;
      }
      var m := Record(mask, startValue, endValue);
      if At(s, end) == ',' {
        cursor, mask := end + 1, m;
      } else if At(s, end) == '\n' {
        return Accepted(m);
      } else {
        return Rejected;
      }
    }
  }

  // ---------------------------------------------------------------------------------------
  // The language accepted
  // ---------------------------------------------------------------------------------------

  datatype Item = Single(n: Numeral) | Range(lo: Numeral, hi: Numeral)

  function ItemText(item: Item): string {
    match item
    case Single(n) => Text(n)
    case Range(lo, hi) => Text(lo) + "-" + Text(hi)
  }

  /** A number, or a strictly increasing range, of any size. */
  predicate IsSpelled(item: Item) {
    match item
    case Single(n) => IsNumeral(n)
    case Range(lo, hi) => IsNumeral(lo) && IsNumeral(hi) && UnsignedValue(lo) < UnsignedValue(hi)
  }

  /** A number below 64, or a strictly increasing range that starts below 64 and ends below
      ULONG_MAX. */
  predicate IsItem(item: Item) {
    match item
    case Single(n) => IsNumeral(n) && UnsignedValue(n) < BITS
    case Range(lo, hi) =>
      IsNumeral(lo) && IsNumeral(hi) && UnsignedValue(lo) < BITS && UnsignedValue(lo) < UnsignedValue(hi) < ULONG_MAX
  }

  function Lo(item: Item): nat
    requires IsSpelled(item)
  {
    match item case Single(n) => UnsignedValue(n) case Range(lo, _) => UnsignedValue(lo)
  }

  function Hi(item: Item): nat
    requires IsSpelled(item)
  {
    match item case Single(n) => UnsignedValue(n) case Range(_, hi) => UnsignedValue(hi)
  }

  predicate AllItems(items: seq<Item>) {
    forall i :: 0 <= i < |items| ==> IsItem(items[i])
  }

  function ListText(items: seq<Item>): string {
    if items == [] then ""
    else if |items| == 1 then ItemText(items[0]) + "\n"
    else ItemText(items[0]) + "," + ListText(items[1..])
  }

  /** Bit b is set if and only if b lies in some item. */
  function ItemBits(items: seq<Item>): (m: set<nat>)
    requires AllItems(items)
    ensures forall b: nat :: b in m <==> b < BITS && InSome(items, b)
  {
    set b: nat | 0 <= b < BITS && InSome(items, b)
  }

  predicate InSome(items: seq<Item>, b: nat)
    requires AllItems(items)
  {
    exists i :: 0 <= i < |items| && Between(b, Lo(items[i]), Hi(items[i]))
  }

  lemma BitsOfFirst(items: seq<Item>)
    requires items != [] && AllItems(items)
    ensures ItemBits(items) == RangeBits(Lo(items[0]), Hi(items[0])) + ItemBits(items[1..])
  {
    forall b | b in ItemBits(items)
      ensures b in RangeBits(Lo(items[0]), Hi(items[0])) + ItemBits(items[1..])
    {
      var i :| 0 <= i < |items| && Between(b, Lo(items[i]), Hi(items[i]));
      if i > 0 { assert items[1..][i - 1] == items[i]; }
    }
    forall b | b in ItemBits(items[1..])
      ensures b in ItemBits(items)
    {
      var i :| 0 <= i < |items[1..]| && Between(b, Lo(items[1..][i]), Hi(items[1..][i]));
      assert items[i + 1] == items[1..][i];
    }
  }

  /** Text that starts a numeral, and what follows it. */
  lemma StrtoulOf(s: string, from: nat, n: Numeral, end: nat)
    requires IsNumeral(n) && from <= end <= |s| && s[from..end] == Text(n)
    requires !IsDigit(At(s, end))
    ensures Strtoul(s, from) == (UnsignedValue(n), end) && end > from
  {
    ScanComplete(s, from, n, end);
  }

  /** The whole of an item stands at `from`: it is not followed by a further digit, nor a single
      number by the dash of a range. */
  predicate ItemAt(s: string, from: nat, item: Item, end: nat) {
    && IsSpelled(item) && from <= end <= |s| && s[from..end] == ItemText(item)
    && !IsDigit(At(s, end)) && (item.Single? ==> At(s, end) != '-')
  }

  /** An item that stands in the text is read. */
  lemma ReadItemComplete(s: string, from: nat, item: Item, end: nat)
    requires ItemAt(s, from, item, end)
    ensures ReadItem(s, from) == Some((Lo(item), Hi(item), end))
  {
    hide Value, Scan, UnsignedValue;
    match item
    case Single(n) => StrtoulOf(s, from, n, end);
    case Range(lo, hi) =>
      var mid := from + |Text(lo)|;
      Pieces(s, from, end, Text(lo), "-", Text(hi));
      assert s[mid] == s[mid..mid + 1][0];
      StrtoulOf(s, from, lo, mid);
      StrtoulOf(s, mid + 1, hi, end);
  }

  lemma ParseItem(s: string, from: nat, mask: set<nat>, item: Item, end: nat)
    requires IsItem(item) && from <= end <= |s| && s[from..end] == ItemText(item)
    requires At(s, end) == ',' || At(s, end) == '\n'
    ensures var m := mask + RangeBits(Lo(item), Hi(item));
            Parse(s, from, mask) == if At(s, end) == ',' then Parse(s, end + 1, m) else Accepted(m)
  {
    hide ReadItem, RangeBits, UnsignedValue, ItemText;
    ReadItemComplete(s, from, item, end);
  }

  /** The text of the first item, and what comes after it. */
  lemma FirstItem(s: string, from: nat, items: seq<Item>) returns (end: nat)
    requires from <= |s| && items != [] && ListText(items) <= s[from..]
    ensures from <= end < |s| && s[from..end] == ItemText(items[0])
    ensures s[end] == if |items| == 1 then '\n' else ','
    ensures |items| > 1 ==> ListText(items[1..]) <= s[end + 1..]
  {
    hide ItemText;
    var text, u := ItemText(items[0]), s[from..];
    end := from + |text|;
    assert s[from..end] == u[..|text|] == ListText(items)[..|text|] == text;
    assert s[end] == u[|text|] == ListText(items)[|text|];
    if |items| > 1 {
      assert s[end + 1..] == u[|text| + 1..];
      assert ListText(items)[|text| + 1..] == ListText(items[1..]);
    }
  }

  /** Every well-formed list is accepted with the bits of its items. */
  lemma {:induction false} ParseComplete(s: string, from: nat, mask: set<nat>, items: seq<Item>)
    requires from <= |s| && items != [] && AllItems(items) && ListText(items) <= s[from..]
    ensures Parse(s, from, mask) == Accepted(mask + ItemBits(items))
    decreases |items|
  {
    hide Parse, ItemBits, RangeBits, ItemText, ListText, Lo, Hi;
    var end := FirstItem(s, from, items);
    ParseItem(s, from, mask, items[0], end);
    BitsOfFirst(items);
    var m := mask + RangeBits(Lo(items[0]), Hi(items[0]));
    assert mask + ItemBits(items) == m + ItemBits(items[1..]);
    if |items| == 1 {
      assert items[1..] == [];
      NothingLeft({}, BITS);
      assert m + {} == m;
    } else {
      ParseComplete(s, end + 1, m, items[1..]);
    }
  }

  /** What is read is an item that stands in the text. */
  lemma ReadItemSound(s: string, from: nat) returns (item: Item)
    requires from <= |s| && ReadItem(s, from).Some?
    ensures ItemAt(s, from, item, ReadItem(s, from).value.2)
    ensures Lo(item) == ReadItem(s, from).value.0 && Hi(item) == ReadItem(s, from).value.1
  {
    hide Value, SkipSpaces, SkipDigits, Scan;
    ScanSound(s, from);
    var (n, end) := Scan(s, from).value;
    if At(s, end) == '-' {
      ScanSound(s, end + 1);
      var (n2, end2) := Scan(s, end + 1).value;
      item := Range(n, n2);
      assert s[from..end2] == s[from..end] + [s[end]] + s[end + 1..end2];
      assert s[from..end2] == Text(n) + "-" + Text(n2);
    } else {
      item := Single(n);
    }
  }

  lemma SmallIsItem(item: Item)
    requires IsSpelled(item) && Lo(item) < BITS && Hi(item) < ULONG_MAX
    ensures IsItem(item)
  {
  }

  /** Whatever is accepted is a well-formed list, and the mask holds the bits of its items. */
  lemma {:induction false} ParseSound(s: string, from: nat, mask: set<nat>) returns (items: seq<Item>)
    requires from <= |s| && Parse(s, from, mask).Accepted?
    ensures items != [] && AllItems(items) && ListText(items) <= s[from..]
    ensures Parse(s, from, mask).mask == mask + ItemBits(items)
    decreases |s| - from
  {
    hide ReadItem, ItemBits, RangeBits, ItemText, Lo, Hi;
    var item := ReadItemSound(s, from);
    var (lo, hi, end) := ReadItem(s, from).value;
    SmallIsItem(item);
    assert s[from..][..end - from] == ItemText(item);
    if At(s, end) == ',' {
      var rest := ParseSound(s, end + 1, mask + RangeBits(lo, hi));
      items := [item] + rest;
      assert items[1..] == rest;
      assert s[from..] == s[from..end] + [s[end]] + s[end + 1..];
      assert ListText(items) == ItemText(item) + "," + ListText(rest);
    } else {
      items := [item];
      assert s[from..] == s[from..end] + [s[end]] + s[end + 1..];
      assert items[1..] == [];
      NothingLeft({}, BITS);
    }
    BitsOfFirst(items);
  }

  ghost predicate ListOf(s: string, items: seq<Item>) {
    items != [] && AllItems(items) && ListText(items) <= s
  }

  /** The parser accepts a string with a mask exactly when the string starts with a well-formed
      list whose items cover that mask. */
  lemma AcceptsExactlyTheLists(s: string, mask: set<nat>)
    ensures Parse(s, 0, {}) == Accepted(mask) <==> exists items :: ListOf(s, items) && mask == ItemBits(items)
  {
    hide Parse, ItemBits, ListText;
    assert s[0..] == s;
    if Parse(s, 0, {}) == Accepted(mask) {
      var items := ParseSound(s, 0, {});
      assert ListOf(s, items);
    }
    if items :| ListOf(s, items) && mask == ItemBits(items) {
      ParseComplete(s, 0, {}, items);
    }
  }

  // ---------------------------------------------------------------------------------------
  // Everything that is not accepted
  // ---------------------------------------------------------------------------------------

  /** Items, each followed by a comma. */
  function PrefixText(items: seq<Item>): string {
    if items == [] then "" else ItemText(items[0]) + "," + PrefixText(items[1..])
  }

  /** The parser gets from `from` to p over good items and their commas. */
  predicate Passes(s: string, from: nat, items: seq<Item>, p: nat) {
    AllItems(items) && from <= p <= |s| && s[from..p] == PrefixText(items)
  }

  ghost predicate NoItemAt(s: string, p: nat) {
    forall item, end :: !ItemAt(s, p, item, end)
  }

  /** What stands at p, and makes the parser stop there. */
  ghost predicate StopsAt(s: string, p: nat, o: Outcome) {
    match o
    case Accepted(_) => false
    case UndefinedShift => exists item, end :: ItemAt(s, p, item, end) && Lo(item) >= 64
    case Endless => exists item, end :: ItemAt(s, p, item, end) && Lo(item) < 64 && Hi(item) == 0xFFFF_FFFF_FFFF_FFFF
    case Rejected =>
      NoItemAt(s, p) ||
      exists item, end :: ItemAt(s, p, item, end) && IsItem(item) && At(s, end) != ',' && At(s, end) != '\n'
  }

  lemma FirstPassed(s: string, from: nat, items: seq<Item>, p: nat) returns (end: nat)
    requires items != [] && Passes(s, from, items, p)
    ensures from <= end < p && s[from..end] == ItemText(items[0]) && s[end] == ',' && Passes(s, end + 1, items[1..], p)
  {
    var text, rest := ItemText(items[0]), PrefixText(items[1..]);
    end := from + |text|;
    Pieces(s, from, p, text, ",", rest);
    assert s[end] == s[end..end + 1][0];
  }

  lemma {:induction false} ParsePasses(s: string, from: nat, mask: set<nat>, items: seq<Item>, p: nat)
    requires Passes(s, from, items, p)
    ensures from <= |s| && Parse(s, from, mask) == Parse(s, p, mask + ItemBits(items))
    decreases |items|
  {
    hide Parse, ItemBits, RangeBits, ItemText, Lo, Hi;
    if items == [] {
      NothingLeft({}, BITS);
      assert mask + {} == mask;
    } else {
      var end := FirstPassed(s, from, items, p);
      ParseItem(s, from, mask, items[0], end);
      BitsOfFirst(items);
      var m := mask + RangeBits(Lo(items[0]), Hi(items[0]));
      assert mask + ItemBits(items) == m + ItemBits(items[1..]);
      ParsePasses(s, end + 1, m, items[1..], p);
    }
  }

  /** What stands at p decides. */
  lemma StopsThere(s: string, p: nat, mask: set<nat>, o: Outcome)
    requires p <= |s| && StopsAt(s, p, o)
    ensures Parse(s, p, mask) == o
  {
    hide ReadItem, ItemText;
    if o.Rejected? && NoItemAt(s, p) {
      if ReadItem(s, p).Some? {
        var item := ReadItemSound(s, p);
      }
    } else {
      var item, end :| ItemAt(s, p, item, end) &&
        (if o.UndefinedShift? then Lo(item) >= 64
         else if o.Endless? then Lo(item) < 64 && Hi(item) == 0xFFFF_FFFF_FFFF_FFFF
         else IsItem(item) && At(s, end) != ',' && At(s, end) != '\n');
      ReadItemComplete(s, p, item, end);
    }
  }

  /** Every string that is not accepted has a place where the parser stops. */
  lemma {:induction false} ParseStops(s: string, from: nat, mask: set<nat>) returns (items: seq<Item>, p: nat)
    requires from <= |s| && !Parse(s, from, mask).Accepted?
    ensures Passes(s, from, items, p) && StopsAt(s, p, Parse(s, from, mask))
    decreases |s| - from
  {
    hide ReadItem, RangeBits, ItemText;
    items, p := [], from;
    if ReadItem(s, from).None? {
      forall item, end
        ensures !ItemAt(s, from, item, end)
      {
        if ItemAt(s, from, item, end) {
          ReadItemComplete(s, from, item, end);
        }
      }
    } else {
      var item := ReadItemSound(s, from);
      var (lo, hi, end) := ReadItem(s, from).value;
      assert ItemAt(s, from, item, end);
      if lo < BITS && hi != ULONG_MAX && At(s, end) == ',' {
        var rest;
        rest, p := ParseStops(s, end + 1, mask + RangeBits(lo, hi));
        items := [item] + rest;
        PassOne(s, from, item, end, rest, p);
      }
    }
  }

  lemma PassOne(s: string, from: nat, item: Item, end: nat, rest: seq<Item>, p: nat)
    requires IsItem(item) && from <= end < |s| && s[from..end] == ItemText(item) && s[end] == ','
    requires Passes(s, end + 1, rest, p)
    ensures Passes(s, from, [item] + rest, p)
  {
    hide ItemText, IsItem;
    var items := [item] + rest;
    assert items[0] == item && items[1..] == rest;
    assert s[from..p] == s[from..end] + [s[end]] + s[end + 1..p];
  }

  /** For every string: it is rejected, makes the shift undefined, or keeps the parser busy for ever,
      exactly if after good items, each with its comma, there stands no item at all or a good one
      without comma or newline; an item that starts at 64 or more; or a range that starts below 64
      and ends at the largest value. */
  lemma StopsExactly(s: string, o: Outcome)
    requires !o.Accepted?
    ensures Parse(s, 0, {}) == o <==> exists items, p :: Passes(s, 0, items, p) && StopsAt(s, p, o)
  {
    hide Parse, StopsAt, Passes;
    if Parse(s, 0, {}) == o {
      var items, p := ParseStops(s, 0, {});
    }
    if items, p :| Passes(s, 0, items, p) && StopsAt(s, p, o) {
      ParsePasses(s, 0, {}, items, p);
      PassesInside(s, 0, items, p);
      StopsThere(s, p, {} + ItemBits(items), o);
    }
  }

  lemma PassesInside(s: string, from: nat, items: seq<Item>, p: nat)
    requires Passes(s, from, items, p)
    ensures AllItems(items) && p <= |s|
  {
  }

  // ---------------------------------------------------------------------------------------
  // Canonical rendering
  // ---------------------------------------------------------------------------------------

  function Plain(n: nat): Numeral {
    Numeral("", Absent, Render(n))
  }

  lemma PlainValue(n: nat)
    requires n <= ULONG_MAX
    ensures IsNumeral(Plain(n)) && UnsignedValue(Plain(n)) == n && Text(Plain(n)) == Render(n)
  {
    ValueOfRender(n);
  }

  /** The first position at or after b that is in (or not in) the mask, at most 64. */
  function NextBit(mask: set<nat>, b: nat, wanted: bool): (r: nat)
    requires b <= BITS
    ensures b <= r <= BITS
    ensures r < BITS ==> (r in mask) == wanted
    ensures forall k :: b <= k < r ==> (k in mask) != wanted
    decreases BITS - b
  {
    if b == BITS || (b in mask) == wanted then b else NextBit(mask, b + 1, wanted)
  }

  function RunItem(lo: nat, hi: nat): Item {
    if lo == hi then Single(Plain(lo)) else Range(Plain(lo), Plain(hi))
  }

  /** The maximal runs of set bits from b on. */
  function Runs(mask: set<nat>, b: nat): seq<Item>
    requires b <= BITS
    decreases BITS - b
  {
    var lo := NextBit(mask, b, true);
    if lo == BITS then []
    else
      var next := NextBit(mask, lo + 1, false);
      [RunItem(lo, next - 1)] + Runs(mask, next)
  }

  function FromOn(mask: set<nat>, b: nat): set<nat> {
    set x | x in mask && b <= x < BITS
  }

  lemma RunItemOk(lo: nat, hi: nat)
    requires lo <= hi < BITS
    ensures IsItem(RunItem(lo, hi)) && Lo(RunItem(lo, hi)) == lo && Hi(RunItem(lo, hi)) == hi
  {
    hide Value, Render, Plain;
    PlainValue(lo);
    PlainValue(hi);
  }

  /** A maximal run splits off the mask. */
  lemma RunSplits(mask: set<nat>, b: nat)
    requires b <= BITS && NextBit(mask, b, true) < BITS
    ensures var lo := NextBit(mask, b, true); var next := NextBit(mask, lo + 1, false);
            FromOn(mask, b) == RangeBits(lo, next - 1) + FromOn(mask, next)
  {
  }

  lemma {:induction false} RunsCover(mask: set<nat>, b: nat)
    requires b <= BITS
    ensures AllItems(Runs(mask, b))
    ensures ItemBits(Runs(mask, b)) == FromOn(mask, b)
    decreases BITS - b
  {
    hide NextBit, RunItem, FromOn, RangeBits, ItemBits, IsItem, Lo, Hi;
    var lo := NextBit(mask, b, true);
    if lo < BITS {
      var next := NextBit(mask, lo + 1, false);
      RunItemOk(lo, next - 1);
      RunSplits(mask, b);
      RunsCover(mask, next);
      assert Runs(mask, b)[1..] == Runs(mask, next);
      BitsOfFirst(Runs(mask, b));
    } else {
      NothingLeft(mask, b);
    }
  }

  lemma NothingLeft(mask: set<nat>, b: nat)
    requires b <= BITS && NextBit(mask, b, true) == BITS
    ensures FromOn(mask, b) == {} && ItemBits([]) == {}
  {
  }

  /** Parsing the canonical rendering of a 64-bit mask returns the mask, except for the empty
      one, whose rendering is rejected. */
  lemma CanonicalRoundTrip(mask: set<nat>)
    requires forall b :: b in mask ==> b < BITS
    ensures Parse(if mask == {} then "\n" else ListText(Runs(mask, 0)), 0, {})
         == if mask == {} then Rejected else Accepted(mask)
  {
    hide Runs, ListText, ItemBits;
    RunsCover(mask, 0);
    if mask == {} {
      assert SkipSpaces("\n", 0) == 1;
      assert Scan("\n", 0).None?;
    } else {
      var items := Runs(mask, 0);
      assert items != [] by {
        assert ItemBits([]) == {};
      }
      assert FromOn(mask, 0) == mask;
      ParseComplete(ListText(items), 0, {}, items);
    }
  }

  // ---------------------------------------------------------------------------------------
  // The limits
  // ---------------------------------------------------------------------------------------

  lemma ParseOne(item: Item)
    requires IsSpelled(item)
    ensures Parse(ItemText(item) + "\n", 0, {}) ==
            if Lo(item) >= BITS then UndefinedShift
            else if Hi(item) == ULONG_MAX then Endless
            else Accepted(RangeBits(Lo(item), Hi(item)))
  {
    hide ReadItem, ItemText;
    var s := ItemText(item) + "\n";
    var end := |ItemText(item)|;
    assert s[0..end] == ItemText(item) && s[end] == '\n';
    ReadItemComplete(s, 0, item, end);
    assert {} + RangeBits(Lo(item), Hi(item)) == RangeBits(Lo(item), Hi(item));
  }

  /** Where the outcomes change over: bit 63 is the last one, and a range may end anywhere below the
      largest 64-bit value. */
  lemma Limits(n: nat, start: nat, stop: nat)
    requires n <= 0xFFFF_FFFF_FFFF_FFFF && start < stop <= 0xFFFF_FFFF_FFFF_FFFF
    ensures Parse(Render(n) + "\n", 0, {}) == if n < 64 then Accepted({n}) else UndefinedShift
    ensures Parse(Render(start) + "-" + Render(stop) + "\n", 0, {}) ==
            if start >= 64 then UndefinedShift
            else if stop == 0xFFFF_FFFF_FFFF_FFFF then Endless
            else Accepted(set b: nat | 0 <= b < 64 && Between(b, start, stop))
  {
    hide Parse, UnsignedValue, Value, Render;
    PlainValue(n);
    PlainValue(start);
    PlainValue(stop);
    ParseOne(Single(Plain(n)));
    ParseOne(Range(Plain(start), Plain(stop)));
    assert n < 64 ==> RangeBits(n, n) == {n};
  }
}
