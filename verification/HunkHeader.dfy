/** The "@@ -l,n +l,n @@" line: how it is printed and how it is read back. */
module HunkHeader {
  import opened Wrappers

  // ---- decimal numerals ----

  predicate IsDigit(c: char) {
    '0' <= c <= '9'
  }

  function DigitValue(c: char): nat
    requires IsDigit(c)
  {
    c as int - '0' as int
  }

  function DigitChar(d: nat): (c: char)
    requires d < 10
    ensures IsDigit(c) && DigitValue(c) == d
  {
    ('0' as int + d) as char
  }

  predicate AllDigits(s: string) {
    forall i :: 0 <= i < |s| ==> IsDigit(s[i])
  }

  /** How many characters \d+ takes from the front. */
  function DigitRun(s: string): (n: nat)
    ensures n <= |s| && AllDigits(s[..n])
    ensures n < |s| ==> !IsDigit(s[n])
  {
    if s == "" || !IsDigit(s[0]) then 0
    else
      var n := 1 + DigitRun(s[1..]);
      assert s[..n] == [s[0]] + s[1..][..n - 1];
      n
  }

  /** int(s) on a run of digits. */
  function ToNat(s: string): nat
    requires AllDigits(s)
  {
    if s == "" then 0 else 10 * ToNat(s[..|s| - 1]) + DigitValue(s[|s| - 1])
  }

  /** str(n) */
  function Decimal(n: nat): (s: string)
    ensures s != "" && AllDigits(s)
    ensures ToNat(s) == n
  {
    if n < 10 then
      assert ToNat([DigitChar(n)]) == n by {
        assert [DigitChar(n)][..0] == "";
      }
      [DigitChar(n)]
    else
      var s := Decimal(n / 10) + [DigitChar(n % 10)];
      assert s[..|s| - 1] == Decimal(n / 10);
      s
  }

  /** A numeral followed by something else is read whole. */
  lemma {:induction false} DigitRunOfNumeral(digits: string, rest: string)
    requires AllDigits(digits)
    requires rest != "" ==> !IsDigit(rest[0])
    ensures var s := digits + rest;
            DigitRun(s) == |digits| && s[..|digits|] == digits && s[|digits|..] == rest
  {
    if digits == "" {
      assert digits + rest == rest;
    } else {
      assert (digits + rest)[1..] == digits[1..] + rest;
      DigitRunOfNumeral(digits[1..], rest);
    }
  }

  // ---- one range ----

  /** The line number shown for the half-open range [start, stop). */
  function PrintedStart(start: nat, stop: nat): nat {
    if start == stop then start else start + 1
  }

  /** Prints the half-open range [start, stop) by the rules of diff -u. */
  function RenderRange(start: nat, stop: nat): string
    requires start <= stop
  {
    var beginning, length := PrintedStart(start, stop), stop - start;
    if length == 1 then Decimal(beginning) else Decimal(beginning) + "," + Decimal(length)
  }

  /** The numbers of one range and the text that follows them. */
  datatype Field = Field(start: nat, count: nat, rest: string)

  /** Reads \d+(?:,\d+)? from the front; an absent count is 1. */
  function ReadRange(s: string): Option<Field> {
    var n := DigitRun(s);
    if n == 0 then None else Some(ReadCount(ToNat(s[..n]), s[n..]))
  }

  function ReadCount(start: nat, s: string): Field {
    if s == "" || s[0] != ',' then Field(start, 1, s)
    else
      var n := DigitRun(s[1..]);
      if n == 0 then Field(start, 1, s) else Field(start, ToNat(s[1..][..n]), s[1..][n..])
  }

  /** The zero-based line index a printed start stands for. */
  function RangeIndex(start: nat, count: nat): int {
    if count == 0 then start else start - 1
  }

  lemma ReadRangeWithCount(start: string, count: string, rest: string)
    requires AllDigits(start) && start != "" && AllDigits(count) && count != ""
    requires rest != "" ==> !IsDigit(rest[0])
    ensures ReadRange(start + ([','] + (count + rest)))
            == Some(Field(ToNat(start), ToNat(count), rest))
  {
    var tail := [','] + (count + rest);
    DigitRunOfNumeral(start, tail);
    assert tail[1..] == count + rest;
    DigitRunOfNumeral(count, rest);
  }

  lemma ReadRangeWithoutCount(start: string, rest: string)
    requires AllDigits(start) && start != ""
    requires rest != "" && !IsDigit(rest[0]) && rest[0] != ','
    ensures ReadRange(start + rest) == Some(Field(ToNat(start), 1, rest))
  {
    DigitRunOfNumeral(start, rest);
  }

  /** Reading a printed range gives back its length and its zero-based start. */
  lemma RangeRoundTrip(start: nat, stop: nat, rest: string)
    requires start <= stop
    requires rest != "" && !IsDigit(rest[0]) && rest[0] != ','
    ensures ReadRange(RenderRange(start, stop) + rest)
            == Some(Field(PrintedStart(start, stop), stop - start, rest))
    ensures RangeIndex(PrintedStart(start, stop), stop - start) == start
  {
    var first, second := Decimal(PrintedStart(start, stop)), Decimal(stop - start);
    if stop - start == 1 {
      ReadRangeWithoutCount(first, rest);
    } else {
      ReadRangeWithCount(first, second, rest);
      Reassociate(first, second, rest);
    }
  }

  lemma Reassociate(first: string, second: string, rest: string)
    ensures first + "," + second + rest == first + ([','] + (second + rest))
  {
  }

  // ---- the whole line ----

  datatype Header = Header(oldStart: nat, oldCount: nat, newStart: nat, newCount: nat)

  const OPEN := "@@ -"
  const MIDDLE := " +"
  const CLOSE := " @@"
  const NOTE := " source-tree-exact"

  predicate StartsWith(s: string, prefix: string) {
    |prefix| <= |s| && s[..|prefix|] == prefix
  }

  lemma StartsWithAppended(prefix: string, rest: string)
    ensures StartsWith(prefix + rest, prefix) && (prefix + rest)[|prefix|..] == rest
  {
  }

  /** Full match of the header pattern; anything after a final blank is ignored. */
  function ParseHeader(line: string): (header: Option<Header>)
    ensures header.Some? ==> line != "" && line[0] == '@'
  {
    if !StartsWith(line, OPEN) then None
    else
      assert line[0] == line[..|OPEN|][0];
      var before :- ReadRange(line[|OPEN|..]);
      ParseNewSide(before)
  }

  function ParseNewSide(before: Field): Option<Header> {
    if !StartsWith(before.rest, MIDDLE) then None
    else
      var after :- ReadRange(before.rest[|MIDDLE|..]);
      if EndsHeader(after.rest)
      then Some(Header(before.start, before.count, after.start, after.count))
      else None
  }

  predicate EndsHeader(s: string) {
    && StartsWith(s, CLOSE)
    && var rest := s[|CLOSE|..];
       rest != "" ==> rest[0] == ' ' && '\n' !in rest
  }

  function RenderHeader(oldStart: nat, oldStop: nat, newStart: nat, newStop: nat): string
    requires oldStart <= oldStop && newStart <= newStop
  {
    OPEN + (RenderRange(oldStart, oldStop) + RenderNewSide(newStart, newStop))
  }

  function RenderNewSide(newStart: nat, newStop: nat): string
    requires newStart <= newStop
  {
    MIDDLE + (RenderRange(newStart, newStop) + (CLOSE + NOTE))
  }

  function RangeText(start: nat, count: nat): string {
    match count
    case 0 => Decimal(start) + ",0"
    case 1 => Decimal(start + 1)
    case _ => Decimal(start + 1) + "," + Decimal(count)
  }

  lemma RangeSpelledOut(start: nat, stop: nat)
    requires start <= stop
    ensures RenderRange(start, stop) == RangeText(start, stop - start)
  {
  }

  lemma PiecesJoin(a: string, b: string, c: string, d: string, e: string)
    ensures a + (b + (c + (d + e))) == a + b + c + d + e
  {
  }

  /** The header spelled out: one line by its number, none by the line before, more by the first and how many. */
  lemma HeaderSpelledOut(oldStart: nat, oldStop: nat, newStart: nat, newStop: nat)
    requires oldStart <= oldStop && newStart <= newStop
    ensures RenderHeader(oldStart, oldStop, newStart, newStop)
         == "@@ -" + RangeText(oldStart, oldStop - oldStart) + " +" + RangeText(newStart, newStop - newStart)
            + " @@ source-tree-exact"
  {
    RangeSpelledOut(oldStart, oldStop);
    RangeSpelledOut(newStart, newStop);
    assert CLOSE + NOTE == " @@ source-tree-exact";
    PiecesJoin(OPEN, RangeText(oldStart, oldStop - oldStart), MIDDLE, RangeText(newStart, newStop - newStart), CLOSE + NOTE);
  }

  /** The header that names the ranges [oldStart, oldStop) and [newStart, newStop). */
  function HeaderFor(oldStart: nat, oldStop: nat, newStart: nat, newStop: nat): Header
    requires oldStart <= oldStop && newStart <= newStop
  {
    Header(PrintedStart(oldStart, oldStop), oldStop - oldStart,
           PrintedStart(newStart, newStop), newStop - newStart)
  }

  /** A printed header reads back as the two ranges it was printed from, empty ones included. */
  lemma HeaderRoundTrip(oldStart: nat, oldStop: nat, newStart: nat, newStop: nat)
    requires oldStart <= oldStop && newStart <= newStop
    ensures ParseHeader(RenderHeader(oldStart, oldStop, newStart, newStop))
            == Some(HeaderFor(oldStart, oldStop, newStart, newStop))
    ensures var h := HeaderFor(oldStart, oldStop, newStart, newStop);
            && RangeIndex(h.oldStart, h.oldCount) == oldStart
            && RangeIndex(h.newStart, h.newCount) == newStart
  {
    var side := RenderNewSide(newStart, newStop);
    var first := RenderRange(oldStart, oldStop) + side;
    RangeRoundTrip(oldStart, oldStop, side);
    OpensWith(first);
    var before := ReadRange(first).value;
    NewSideRoundTrip(before, newStart, newStop);
    assert RenderHeader(oldStart, oldStop, newStart, newStop) == OPEN + first;
    assert ParseNewSide(before).value == HeaderFor(oldStart, oldStop, newStart, newStop);
    HeaderNamesRanges(oldStart, oldStop, newStart, newStop);
  }

  lemma HeaderNamesRanges(oldStart: nat, oldStop: nat, newStart: nat, newStop: nat)
    requires oldStart <= oldStop && newStart <= newStop
    ensures var h := HeaderFor(oldStart, oldStop, newStart, newStop);
            && RangeIndex(h.oldStart, h.oldCount) == oldStart
            && RangeIndex(h.newStart, h.newCount) == newStart
  {
  }

  lemma OpensWith(first: string)
    requires ReadRange(first).Some?
    ensures ParseHeader(OPEN + first) == ParseNewSide(ReadRange(first).value)
  {
    StartsWithAppended(OPEN, first);
  }

  lemma NewSideRoundTrip(before: Field, newStart: nat, newStop: nat)
    requires newStart <= newStop
    requires before.rest == RenderNewSide(newStart, newStop)
    ensures var h := ParseNewSide(before);
            && h.Some?
            && h.value.oldStart == before.start && h.value.oldCount == before.count
            && h.value.newStart == PrintedStart(newStart, newStop)
            && h.value.newCount == newStop - newStart
  {
    var body := RenderRange(newStart, newStop) + (CLOSE + NOTE);
    StartsWithAppended(MIDDLE, body);
    RangeRoundTrip(newStart, newStop, CLOSE + NOTE);
    CloseEndsHeader();
    var after := ReadRange(body).value;
    assert ParseNewSide(before)
           == Some(Header(before.start, before.count, after.start, after.count));
  }

  lemma CloseEndsHeader()
    ensures EndsHeader(CLOSE + NOTE)
  {
    StartsWithAppended(CLOSE, NOTE);
  }

  /** A header is printed in ASCII without a control character. */
  predicate Printable(s: string) {
    forall i :: 0 <= i < |s| ==> ' ' <= s[i] <= '~'
  }

  lemma RenderHeaderPrintable(oldStart: nat, oldStop: nat, newStart: nat, newStop: nat)
    requires oldStart <= oldStop && newStart <= newStop
    ensures Printable(RenderHeader(oldStart, oldStop, newStart, newStop))
  {
    var first, second := RenderRange(oldStart, oldStop), RenderRange(newStart, newStop);
    RenderRangePrintable(oldStart, oldStop);
    RenderRangePrintable(newStart, newStop);
    AppendPrintable(CLOSE, NOTE);
    AppendPrintable(second, CLOSE + NOTE);
    AppendPrintable(MIDDLE, second + (CLOSE + NOTE));
    AppendPrintable(first, RenderNewSide(newStart, newStop));
    AppendPrintable(OPEN, first + RenderNewSide(newStart, newStop));
  }

  lemma AppendPrintable(a: string, b: string)
    requires Printable(a) && Printable(b)
    ensures Printable(a + b)
  {
  }

  lemma RenderRangePrintable(start: nat, stop: nat)
    requires start <= stop
    ensures Printable(RenderRange(start, stop))
  {
  }
}
