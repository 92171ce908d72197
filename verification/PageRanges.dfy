/** The `pageRanges` parser against a printer of page ranges. */
module PageRanges {
  import opened Wrappers
  import opened Machine
  import opened Text

  const MAX_PAGE_RANGES_BYTES: nat := 16 * 1024
  const MAX_PAGE_RANGE_PARTS: nat := 512

  // An absent end stands for the first or the last page of the document.
  datatype Range = Range(start: Option<nat>, end: Option<nat>)

  datatype RangeError = TooLong | TooManyParts | EmptyRange | BadPage | BadRange | BareDash | Descending

  predicate ValidPage(page: Option<nat>)
  {
    page.Some? ==> 0 < page.value <= U32_MAX
  }

  predicate ValidRange(r: Range)
  {
    && ValidPage(r.start) && ValidPage(r.end)
    && (r.start.Some? || r.end.Some?)
    && (r.start.Some? && r.end.Some? ==> r.start.value <= r.end.value)
  }

  predicate ValidRanges(ranges: seq<Range>)
  {
    |ranges| <= MAX_PAGE_RANGE_PARTS && forall i :: 0 <= i < |ranges| ==> ValidRange(ranges[i])
  }

  // ---------- parsing ----------

  /** `str::parse::<u32>`: an optional plus sign, then digits only, within 32 bits. */
  function ParseU32(text: string): Option<nat>
  {
    var digits := if text != [] && text[0] == '+' then text[1..] else text;
    if digits != [] && AllDigits(digits) && DecimalValue(digits) <= U32_MAX then Some(DecimalValue(digits)) else None
  }

  function ParsePage(text: string): Result<Option<nat>, RangeError>
  {
    var text := Trim(text);
    if text == [] then Ok(None)
    else
      match ParseU32(text)
      case Some(page) => if page > 0 then Ok(Some(page)) else Err(BadPage)
      case None => Err(BadPage)
  }

  /** The two ends of a part that has a dash, in the order the parser reads them. */
  function ParseEnds(start: string, end: string): Result<Range, RangeError>
  {
    if '-' in end then Err(BadRange)
    else
      match ParsePage(start)
      case Err(e) => Err(e)
      case Ok(s) =>
        match ParsePage(end)
        case Err(e) => Err(e)
        case Ok(e) => Ok(Range(s, e))
  }

  /** `split_once('-')`. */
  function DashAt(part: string): (i: nat)
    ensures i <= |part| && '-' !in part[..i]
    ensures i < |part| ==> part[i] == '-'
  {
    if part == [] || part[0] == '-' then 0 else
      var rest := DashAt(part[1..]);
      assert part[..rest + 1] == [part[0]] + part[1..][..rest];
      rest + 1
  }

  /** The ends of a part that is not blank; one page is both. */
  function ParseSpan(part: string): (r: Result<Range, RangeError>)
    ensures r.Ok? ==> ValidPage(r.value.start) && ValidPage(r.value.end)
  {
    var dash := DashAt(part);
    if dash < |part| then ParseEnds(part[..dash], part[dash + 1..])
    else
      match ParsePage(part)
      case Err(e) => Err(e)
      case Ok(None) => Err(EmptyRange)
      case Ok(Some(page)) => Ok(Range(Some(page), Some(page)))
  }

  function Checked(span: Result<Range, RangeError>): Result<Range, RangeError>
  {
    match span
    case Err(e) => Err(e)
    case Ok(range) =>
      if range.start.None? && range.end.None? then Err(BareDash)
      else if range.start.Some? && range.end.Some? && range.start.value > range.end.value then Err(Descending)
      else Ok(range)
  }

  function ParsePart(part: string): (r: Result<Range, RangeError>)
    ensures r.Ok? ==> ValidRange(r.value)
  {
    var part := Trim(part);
    if part == [] then Err(EmptyRange) else Checked(ParseSpan(part))
  }

  type PartResult = Result<Range, RangeError>

  /** The ranges of the parts from the front, stopping at the first that fails; part 512 fails unread. */
  function Gathered(results: seq<PartResult>, from: nat): Result<seq<Range>, RangeError>
    requires from <= |results|
    decreases |results| - from
  {
    if from == |results| then Ok([])
    else if from >= MAX_PAGE_RANGE_PARTS then Err(TooManyParts)
    else
      match results[from]
      case Err(e) => Err(e)
      case Ok(range) => Prepended([range], Gathered(results, from + 1))
  }

  function ParseEach(parts: seq<string>): (results: seq<PartResult>)
    ensures |results| == |parts| && forall i :: 0 <= i < |parts| ==> results[i] == ParsePart(parts[i])
  {
    seq(|parts|, i requires 0 <= i < |parts| => ParsePart(parts[i]))
  }

  function Parsed(value: string): Result<seq<Range>, RangeError>
  {
    var value := Trim(value);
    if value == [] then Ok([])
    else if Utf8Len(value) > MAX_PAGE_RANGES_BYTES then Err(TooLong)
    else Gathered(ParseEach(Split(value, ',')), 0)
  }

  function Prepended(ranges: seq<Range>, rest: Result<seq<Range>, RangeError>): Result<seq<Range>, RangeError>
  {
    if rest.Ok? then Ok(ranges + rest.value) else rest
  }

  /** The loop of `parse_page_ranges`. */
  method ParseAll(parts: seq<string>) returns (r: Result<seq<Range>, RangeError>)
    ensures r == Gathered(ParseEach(parts), 0)
  {
    var ranges: seq<Range> := [];
    ghost var results := ParseEach(parts);
    PrependedNothing(Gathered(results, 0));
    for i := 0 to |parts|
      invariant Gathered(results, 0) == Prepended(ranges, Gathered(results, i))
    {
      if i >= MAX_PAGE_RANGE_PARTS {
        return Err(TooManyParts);
      }
      var range := ParsePart(parts[i]);
      assert results[i] == range;
      if range.Err? {
        return Err(range.error);
      }
      PrependedTwice(ranges, range.value, Gathered(results, i + 1));
      ranges := ranges + [range.value];
    }
    assert ranges + [] == ranges;
    return Ok(ranges);
  }

  lemma PrependedNothing(rest: Result<seq<Range>, RangeError>)
    ensures Prepended([], rest) == rest
  {
    if rest.Ok? {
      assert [] + rest.value == rest.value;
    }
  }

  lemma PrependedTwice(ranges: seq<Range>, range: Range, rest: Result<seq<Range>, RangeError>)
    ensures Prepended(ranges, Prepended([range], rest)) == Prepended(ranges + [range], rest)
  {
    if rest.Ok? {
      assert ranges + ([range] + rest.value) == ranges + [range] + rest.value;
    }
  }

  /** `parse_page_ranges`. */
  method Parse(input: string) returns (r: Result<seq<Range>, RangeError>)
    ensures r == Parsed(input)
    ensures r.Ok? ==> ValidRanges(r.value)
  {
    AcceptedAreValid(input);
    var value := Trim(input);
    if value == [] {
      return Ok([]);
    }
    if Utf8Len(value) > MAX_PAGE_RANGES_BYTES {
      return Err(TooLong);
    }
    r := ParseAll(Split(value, ','));
  }

  /** What is gathered are the ranges of all the parts, at most 512. */
  lemma {:induction false} GatheredAll(results: seq<PartResult>, from: nat)
    requires from <= |results| && Gathered(results, from).Ok?
    ensures var ranges := Gathered(results, from).value;
      && |ranges| == |results| - from
      && (from < |results| ==> |results| <= MAX_PAGE_RANGE_PARTS)
      && forall i :: from <= i < |results| ==> results[i] == Ok(ranges[i - from])
    decreases |results| - from
  {
    if from < |results| {
      GatheredAll(results, from + 1);
    }
  }

  /** Whatever is accepted is a list of at most 512 valid ranges. */
  lemma AcceptedAreValid(value: string)
    ensures Parsed(value).Ok? ==> ValidRanges(Parsed(value).value)
  {
    var trimmed := Trim(value);
    var results := ParseEach(Split(trimmed, ','));
    if trimmed != [] && Utf8Len(trimmed) <= MAX_PAGE_RANGES_BYTES && Gathered(results, 0).Ok? {
      GatheredAll(results, 0);
      forall i | 0 <= i < |results| ensures ValidRange(Gathered(results, 0).value[i]) {
        assert results[i] == Ok(Gathered(results, 0).value[i - 0]);
      }
    }
  }

  // ---------- printing ----------

  function PrintPage(page: Option<nat>): string
  {
    if page.Some? then Decimal(page.value) else ""
  }

  function PrintRange(r: Range): string
  {
    if r.start.Some? && r.start == r.end then PrintPage(r.start)
    else PrintPage(r.start) + "-" + PrintPage(r.end)
  }

  function Print(ranges: seq<Range>): string
  {
    if ranges == [] then ""
    else if |ranges| == 1 then PrintRange(ranges[0])
    else PrintRange(ranges[0]) + "," + Print(ranges[1..])
  }

  // ---------- they undo each other ----------

  predicate PlainChar(c: char)
  {
    IsDigit(c) || c == '-' || c == ','
  }

  predicate Plain(s: string)
  {
    forall i :: 0 <= i < |s| ==> PlainChar(s[i])
  }

  lemma TrimPlain(s: string)
    requires Plain(s)
    ensures Trim(s) == s
  {
  }

  lemma {:induction false} PlainLen(s: string)
    requires Plain(s)
    ensures Utf8Len(s) == |s|
  {
    if s != [] {
      PlainLen(s[1..]);
    }
  }

  lemma ParsePrintedPage(page: Option<nat>)
    requires ValidPage(page)
    ensures ParsePage(PrintPage(page)) == Ok(page)
    ensures Plain(PrintPage(page)) && '-' !in PrintPage(page) && ',' !in PrintPage(page)
    ensures |PrintPage(page)| <= 10
  {
    TrimPlain(PrintPage(page));
    if page.Some? {
      DecimalRoundTrip(page.value);
      assert Pow10(10) == 10_000_000_000 by {
        assert Pow10(5) == 100_000;
        assert Pow10(7) == 10_000_000;
      }
      DecimalLength(page.value, 10);
    }
  }

  lemma {:induction false} DashFound(before: string, after: string)
    requires '-' !in before
    ensures DashAt(before + "-" + after) == |before|
  {
    var s := before + "-" + after;
    if before == [] {
      assert s[0] == '-';
    } else {
      assert s[1..] == before[1..] + "-" + after;
      DashFound(before[1..], after);
    }
  }

  lemma {:induction false} NoDash(s: string)
    requires '-' !in s
    ensures DashAt(s) == |s|
  {
    if s != [] {
      NoDash(s[1..]);
    }
  }

  lemma ParsePrintedRange(r: Range)
    requires ValidRange(r)
    ensures ParsePart(PrintRange(r)) == Ok(r)
    ensures Plain(PrintRange(r)) && ',' !in PrintRange(r) && 1 <= |PrintRange(r)| <= 21
  {
    ParsePrintedPage(r.start);
    ParsePrintedPage(r.end);
    var s := PrintRange(r);
    TrimPlain(s);
    if r.start.Some? && r.start == r.end {
      NoDash(s);
    } else {
      DashFound(PrintPage(r.start), PrintPage(r.end));
      assert s[..|PrintPage(r.start)|] == PrintPage(r.start);
      assert s[|PrintPage(r.start)| + 1..] == PrintPage(r.end);
    }
  }

  lemma {:induction false} PrintShape(ranges: seq<Range>)
    requires ranges != [] && forall i :: 0 <= i < |ranges| ==> ValidRange(ranges[i])
    ensures Plain(Print(ranges)) && 1 <= |Print(ranges)| <= 22 * |ranges|
    ensures Split(Print(ranges), ',') == PrintEach(ranges)
  {
    ParsePrintedRange(ranges[0]);
    if |ranges| == 1 {
      SplitWhole(PrintRange(ranges[0]), ',');
    } else {
      PrintShape(ranges[1..]);
      SplitPiece(PrintRange(ranges[0]), Print(ranges[1..]), ',');
    }
  }

  function PrintEach(ranges: seq<Range>): (parts: seq<string>)
    ensures |parts| == |ranges|
    ensures forall i :: 0 <= i < |ranges| ==> parts[i] == PrintRange(ranges[i])
  {
    if ranges == [] then [] else [PrintRange(ranges[0])] + PrintEach(ranges[1..])
  }

  lemma {:induction false} GatheredEach(results: seq<PartResult>, ranges: seq<Range>, from: nat)
    requires |results| == |ranges| <= MAX_PAGE_RANGE_PARTS && from <= |ranges|
    requires forall i :: 0 <= i < |results| ==> results[i] == Ok(ranges[i])
    ensures Gathered(results, from) == Ok(ranges[from..])
    decreases |ranges| - from
  {
    if from == |ranges| {
      assert ranges[from..] == [];
    } else {
      GatheredEach(results, ranges, from + 1);
      assert [ranges[from]] + ranges[from + 1..] == ranges[from..];
    }
  }

  /** Parsing undoes printing, and what is printed always fits the byte limit. */
  lemma ParsePrint(ranges: seq<Range>)
    requires ValidRanges(ranges)
    ensures Parsed(Print(ranges)) == Ok(ranges)
    ensures Utf8Len(Print(ranges)) <= MAX_PAGE_RANGES_BYTES
  {
    if ranges != [] {
      PrintShape(ranges);
      TrimPlain(Print(ranges));
      PlainLen(Print(ranges));
      var parts := PrintEach(ranges);
      forall i | 0 <= i < |parts| ensures ParsePart(parts[i]) == Ok(ranges[i]) {
        ParsePrintedRange(ranges[i]);
      }
      GatheredEach(ParseEach(parts), ranges, 0);
      assert ranges[0..] == ranges;
    }
  }

  /** Printing what was accepted, and parsing that, gives it back: the printed form is a
      normal form of every accepted text. */
  lemma PrintIsNormalForm(value: string)
    requires Parsed(value).Ok?
    ensures Parsed(Print(Parsed(value).value)) == Parsed(value)
  {
    AcceptedAreValid(value);
    ParsePrint(Parsed(value).value);
  }

  // ---------- exactly what is accepted ----------

  /** `text` is `inner` with blanks around it. */
  predicate Padded(text: string, a: string, inner: string, b: string)
  {
    text == a + inner + b && Blank(a) && Blank(b)
  }

  /** Decimal digits, perhaps behind a plus sign, of a positive number of 32 bits. */
  predicate Numeral(s: string, n: nat)
  {
    var digits := if s != "" && s[0] == '+' then s[1..] else s;
    digits != "" && AllDigits(digits) && DecimalValue(digits) == n && 0 < n <= 0xFFFF_FFFF
  }

  /** A page number with blanks around it, or nothing but blanks. */
  ghost predicate PageText(text: string, page: Option<nat>)
  {
    exists a, inner, b :: Padded(text, a, inner, b) &&
      match page
      case None => inner == ""
      case Some(n) => Numeral(inner, n)
  }

  /** Two pages with the one dash between them at `i`; either may be left out, not both, and they do not
      descend. */
  ghost predicate SpanText(text: string, i: nat, r: Range)
  {
    && i < |text| && text[i] == '-' && '-' !in text[..i] && '-' !in text[i + 1..]
    && PageText(text[..i], r.start) && PageText(text[i + 1..], r.end)
    && (r.start.Some? || r.end.Some?) && (r.start.Some? && r.end.Some? ==> r.start.value <= r.end.value)
  }

  /** One page, or two with a dash. */
  ghost predicate RangeText(text: string, r: Range)
  {
    || ('-' !in text && r.start.Some? && r.end == r.start && PageText(text, r.start))
    || exists i: nat :: SpanText(text, i, r)
  }

  /** A blank text for no ranges, else texts of ranges with commas between them, at most 512 in 16384
      bytes. */
  ghost predicate RangesText(text: string, ranges: seq<Range>)
  {
    exists a, inner, b :: Padded(text, a, inner, b) && Tight(inner) &&
      if inner == "" then ranges == []
      else
        && Utf8Len(inner) <= 16384 && |ranges| <= 512
        && exists parts: seq<string> :: CommaParts(inner, parts) && |parts| == |ranges|
             && forall i :: 0 <= i < |parts| ==> RangeText(parts[i], ranges[i])
  }

  predicate CommaParts(text: string, parts: seq<string>)
  {
    parts != [] && Joined(parts, ',') == text && forall i :: 0 <= i < |parts| ==> ',' !in parts[i]
  }

  lemma NumeralTight(s: string, n: nat)
    requires Numeral(s, n)
    ensures Tight(s) && s != "" && '-' !in s
    ensures ParseU32(s) == Some(n)
  {
    assert forall c :: IsDigit(c) || c == '+' ==> !IsWhitespace(c);
    var digits := if s != "" && s[0] == '+' then s[1..] else s;
    assert s[|s| - 1] == digits[|digits| - 1];
    forall i | 0 <= i < |s| ensures s[i] != '-' {
      assert s[0] == '+' && i > 0 ==> s[i] == digits[i - 1];
    }
  }

  lemma PageExactly(text: string, page: Option<nat>)
    ensures ParsePage(text) == Ok(page) <==> PageText(text, page)
  {
    var a, b := BlankEnds(text);
    assert Padded(text, a, Trim(text), b);
    forall c, inner, d | Padded(text, c, inner, d) && Tight(inner) ensures inner == Trim(text) {
      TrimBlanks(c, inner, d);
    }
    if page.Some? {
      forall inner | Numeral(inner, page.value) ensures Tight(inner) && ParseU32(inner) == page && inner != "" {
        NumeralTight(inner, page.value);
      }
    }
  }

  lemma PaddedPage(text: string, a: string, inner: string, b: string)
    requires Padded(text, a, inner, b)
    ensures ParsePage(text) == ParsePage(inner)
  {
    TrimAround(a, inner, b);
  }

  lemma BlankHasNoDash(w: string)
    requires Blank(w)
    ensures '-' !in w && ',' !in w
  {
    assert !IsWhitespace('-') && !IsWhitespace(',');
  }

  lemma EndsExactly(start: string, end: string, r: Range)
    ensures ParseEnds(start, end) == Ok(r) <==> '-' !in end && PageText(start, r.start) && PageText(end, r.end)
  {
    PageExactly(start, r.start);
    PageExactly(end, r.end);
  }

  lemma PaddedPageText(text: string, a: string, inner: string, b: string, page: Option<nat>)
    requires Padded(text, a, inner, b)
    ensures PageText(text, page) <==> PageText(inner, page)
  {
    PaddedPage(text, a, inner, b);
    PageExactly(text, page);
    PageExactly(inner, page);
  }

  lemma CutAt(text: string, a: string, body: string, b: string, d: nat)
    requires text == a + body + b && d < |body|
    ensures |a| + d < |text| && text[|a| + d] == body[d]
    ensures text[..|a| + d] == a + body[..d] + "" && text[|a| + d + 1..] == "" + body[d + 1..] + b
  {
    var start, end := a + body[..d] + "", "" + body[d + 1..] + b;
    assert body == body[..d] + [body[d]] + body[d + 1..];
    assert text == start + [body[d]] + end;
    assert |start| == |a| + d;
  }

  /** The first dash of a part, with the texts on both sides of it. */
  lemma Sides(part: string, a: string, body: string, b: string, d: nat)
    requires Padded(part, a, body, b) && d < |body| && body[d] == '-' && '-' !in body[..d]
    ensures var i := |a| + d;
      && i < |part| && part[i] == '-' && '-' !in part[..i]
      && ('-' in body[d + 1..] <==> '-' in part[i + 1..])
      && Padded(part[..i], a, body[..d], "") && Padded(part[i + 1..], "", body[d + 1..], b)
  {
    BlankHasNoDash(a);
    BlankHasNoDash(b);
    CutAt(part, a, body, b, d);
  }

  /** The pages of a span are those of the texts on both sides of its first dash. */
  lemma SpanPages(part: string, a: string, body: string, b: string, d: nat, r: Range)
    requires Padded(part, a, body, b) && d < |body| && body[d] == '-' && '-' !in body[..d]
    ensures var i := |a| + d;
      && i < |part| && part[i] == '-' && '-' !in part[..i]
      && (ParseEnds(body[..d], body[d + 1..]) == Ok(r) <==>
            '-' !in part[i + 1..] && PageText(part[..i], r.start) && PageText(part[i + 1..], r.end))
  {
    var i, start, end := |a| + d, body[..d], body[d + 1..];
    Sides(part, a, body, b, d);
    PaddedPageText(part[..i], a, start, "", r.start);
    PaddedPageText(part[i + 1..], "", end, b, r.end);
    EndsExactly(start, end, r);
  }

  lemma CheckedExactly(span: PartResult, r: Range)
    ensures Checked(span) == Ok(r) <==>
      && span == Ok(r) && (r.start.Some? || r.end.Some?)
      && (r.start.Some? && r.end.Some? ==> r.start.value <= r.end.value)
  {
  }

  lemma SpanExactly(part: string, a: string, b: string, r: Range)
    requires Padded(part, a, Trim(part), b) && DashAt(Trim(part)) < |Trim(part)|
    ensures ParsePart(part) == Ok(r) <==> SpanText(part, |a| + DashAt(Trim(part)), r)
  {
    SpanPages(part, a, Trim(part), b, DashAt(Trim(part)), r);
    CheckedExactly(ParseSpan(Trim(part)), r);
  }

  lemma FirstIsFirst(text: string, i: nat, j: nat)
    requires i < |text| && text[i] == '-' && j < |text| && text[j] == '-' && '-' !in text[..j]
    ensures j <= i
    ensures '-' !in text[..i] ==> i == j
  {
    assert forall k :: 0 <= k < i ==> text[..i][k] == text[k];
    assert forall k :: 0 <= k < j ==> text[..j][k] == text[k];
  }

  lemma DashUnique(text: string, i: nat, r: Range)
    requires i < |text| && text[i] == '-' && '-' !in text[..i]
    ensures forall j: nat :: SpanText(text, j, r) ==> j == i
  {
    forall j: nat | SpanText(text, j, r) ensures j == i {
      FirstIsFirst(text, i, j);
    }
  }

  /** With one dash between two pages the part is a range, or the error that says why it is none. */
  lemma SpanAnswers(part: string, i: nat, r: Range)
    requires i < |part| && part[i] == '-' && '-' !in part[..i] && '-' !in part[i + 1..]
    requires PageText(part[..i], r.start) && PageText(part[i + 1..], r.end)
    ensures ParsePart(part) ==
      if r.start == None && r.end == None then Err(BareDash)
      else if r.start.Some? && r.end.Some? && r.start.value > r.end.value then Err(Descending)
      else Ok(r)
  {
    SpanParses(part, i, r);
  }

  lemma SpanParses(part: string, i: nat, r: Range)
    requires i < |part| && part[i] == '-' && '-' !in part[..i] && '-' !in part[i + 1..]
    requires PageText(part[..i], r.start) && PageText(part[i + 1..], r.end)
    ensures Trim(part) != "" && ParseSpan(Trim(part)) == Ok(r)
  {
    var a, b := BlankEnds(part);
    DashOfBody(part, a, b, i);
    SpanPages(part, a, Trim(part), b, DashAt(Trim(part)), r);
    FirstIsFirst(part, i, |a| + DashAt(Trim(part)));
  }

  lemma DashOfBody(part: string, a: string, b: string, i: nat)
    requires Padded(part, a, Trim(part), b) && i < |part| && part[i] == '-'
    ensures DashAt(Trim(part)) < |Trim(part)|
  {
    BlankHasNoDash(a);
    BlankHasNoDash(b);
    assert '-' in part;
    DashInside(Trim(part));
  }

  /** A part with two dashes is no range, whatever is between them. */
  lemma TwoDashes(part: string, i: nat, j: nat)
    requires i < j < |part| && part[i] == '-' && part[j] == '-' && '-' !in part[..i]
    ensures ParsePart(part) == Err(BadRange)
  {
    var a, b := BlankEnds(part);
    var body := Trim(part);
    DashOfBody(part, a, b, i);
    Sides(part, a, body, b, DashAt(body));
    FirstIsFirst(part, i, |a| + DashAt(body));
    assert part[i + 1..][j - i - 1] == '-';
  }

  lemma PageAlone(part: string, r: Range)
    requires '-' !in part
    ensures ParsePart(part) == Ok(r) <==> r.start.Some? && r.end == r.start && PageText(part, r.start)
  {
    var a, b := BlankEnds(part);
    var body := Trim(part);
    NoDash(body);
    PaddedPage(part, a, body, b);
    PageExactly(part, r.start);
  }

  /** A part is accepted as a range exactly when it is a text of that range. */
  lemma PartExactly(part: string, r: Range)
    ensures ParsePart(part) == Ok(r) <==> RangeText(part, r)
  {
    if '-' in part {
      var a, b := BlankEnds(part);
      BlankHasNoDash(a);
      BlankHasNoDash(b);
      DashInside(Trim(part));
      SpanExactly(part, a, b, r);
      SpanPages(part, a, Trim(part), b, DashAt(Trim(part)), r);
      DashUnique(part, |a| + DashAt(Trim(part)), r);
    } else {
      PageAlone(part, r);
    }
  }

  lemma {:induction false} DashInside(s: string)
    requires '-' in s
    ensures DashAt(s) < |s|
  {
    if s[0] != '-' {
      DashInside(s[1..]);
    }
  }

  lemma PartsExactly(parts: seq<string>, ranges: seq<Range>)
    requires parts != []
    ensures Gathered(ParseEach(parts), 0) == Ok(ranges) <==>
      |ranges| == |parts| <= 512 && forall i :: 0 <= i < |parts| ==> RangeText(parts[i], ranges[i])
  {
    var results := ParseEach(parts);
    forall i, r | 0 <= i < |parts| ensures results[i] == Ok(r) <==> RangeText(parts[i], r) {
      PartExactly(parts[i], r);
    }
    if Gathered(results, 0).Ok? {
      GatheredAll(results, 0);
      assert forall i :: 0 <= i < |parts| ==> results[i] == Ok(Gathered(results, 0).value[i - 0]);
    }
    if |ranges| == |parts| <= 512 && forall i :: 0 <= i < |parts| ==> RangeText(parts[i], ranges[i]) {
      GatheredEach(results, ranges, 0);
      assert ranges[0..] == ranges;
    }
  }

  /** A text is accepted as ranges exactly when it is a text of those ranges. */
  lemma AcceptsExactly(value: string, ranges: seq<Range>)
    ensures Parsed(value) == Ok(ranges) <==> RangesText(value, ranges)
  {
    var a, b := BlankEnds(value);
    var inner := Trim(value);
    assert Padded(value, a, inner, b) && Tight(inner);
    forall c, x, d | Padded(value, c, x, d) && Tight(x) ensures x == inner {
      TrimBlanks(c, x, d);
    }
    if inner != "" {
      var parts := Split(inner, ',');
      SplitJoins(inner, ',');
      assert CommaParts(inner, parts);
      forall other | CommaParts(inner, other) ensures other == parts {
        SplitExactly(other, ',');
      }
      PartsExactly(parts, ranges);
    }
  }
}
