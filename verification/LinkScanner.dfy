/** The Markdown link scanner (evaluation/link_references.py): inline code masking,
    link candidates, and the sweep for shortcut references. */
module LinkScanner {
  import opened Options
  import opened SourceLocator

  // Inline code

  /** Backticks from position i on. */
  function TickRun(text: string, i: nat): (width: nat)
    requires i <= |text|
    ensures i + width <= |text|
    ensures forall k :: i <= k < i + width ==> text[k] == '`'
    ensures i + width < |text| ==> text[i + width] != '`'
    decreases |text| - i
  {
    if i == |text| || text[i] != '`' then 0 else 1 + TickRun(text, i + 1)
  }

  predicate AllTicks(text: string, i: nat, width: nat) {
    i + width <= |text| && forall k :: i <= k < i + width ==> text[k] == '`'
  }

  /** text.find of a delimiter of width backticks. */
  function FindTicks(text: string, from: nat, width: nat): (at: Option<nat>)
    ensures at.Some? ==> from <= at.value && AllTicks(text, at.value, width) && forall k :: from <= k < at.value ==> !AllTicks(text, k, width)
    ensures at.None? ==> forall k :: from <= k ==> !AllTicks(text, k, width)
    ensures at.Some? ==> at.value + width <= |text| && forall k :: at.value <= k < at.value + width ==> text[k] == '`'
    decreases |text| - from
  {
    if from + width > |text| then None
    else if AllTicks(text, from, width) then Some(from)
    else FindTicks(text, from + 1, width)
  }

  /** No delimiter is passed over. */
  lemma NoEarlierTicks(text: string, from: nat, width: nat, j: nat)
    requires from <= j && j + width <= |text| && forall k :: j <= k < j + width ==> text[k] == '`'
    ensures FindTicks(text, from, width).Some? && FindTicks(text, from, width).value <= j
  {
    assert AllTicks(text, j, width);
  }

  /** The code span that starts at i, as the position after it. */
  function SpanEnd(text: string, i: nat): (end: Option<nat>)
    requires i < |text| && text[i] == '`'
    ensures end.Some? ==> i < end.value <= |text|
  {
    var width := TickRun(text, i);
    var closing := FindTicks(text, i + width, width);
    if closing.Some? then Some(closing.value + width) else None
  }

  predicate InSpan(text: string, i: nat, k: nat)
    requires i <= |text| && k < |text|
    decreases |text| - i
  {
    if i == |text| || k < i then false
    else if text[i] != '`' then InSpan(text, i + 1, k)
    else
      var end := SpanEnd(text, i);
      if end.None? then InSpan(text, i + TickRun(text, i), k)
      else k < end.value || InSpan(text, end.value, k)
  }

  function MaskedChar(text: string, k: nat): char
    requires k < |text|
  {
    if InSpan(text, 0, k) && text[k] != '\n' then ' ' else text[k]
  }

  predicate IsMasked(text: string, masked: string) {
    |masked| == |text| && forall k :: 0 <= k < |text| ==> masked[k] == MaskedChar(text, k)
  }

  ghost predicate MaskedUpTo(text: string, i: nat, masked: array<char>)
    requires i <= |text| == masked.Length
    reads masked
  {
    && (forall k :: 0 <= k < i ==> masked[k] == MaskedChar(text, k))
    && (forall k :: i <= k < |text| ==> masked[k] == text[k] && InSpan(text, 0, k) == InSpan(text, i, k))
  }

  lemma OutsideSpans(text: string, i: nat, next: nat, masked: array<char>)
    requires i < |text| == masked.Length && MaskedUpTo(text, i, masked)
    requires if text[i] != '`' then next == i + 1 else SpanEnd(text, i).None? && next == i + TickRun(text, i)
    ensures next <= |text| && MaskedUpTo(text, next, masked)
  {
    forall k | i <= k < |text| ensures InSpan(text, i, k) == InSpan(text, next, k) {}
    assert forall k :: i <= k < next ==> !InSpan(text, next, k);
  }

  method CountTicks(text: string, index: nat) returns (width: nat)
    requires index < |text| && text[index] == '`'
    ensures width == TickRun(text, index)
  {
    width := 1;
    while index + width < |text| && text[index + width] == '`'
      invariant 1 <= width <= |text| - index && width + TickRun(text, index + width) == TickRun(text, index)
    {
      width := width + 1;
    }
  }

  /** One turn of the masking loop: past one character, an unmatched run or a code span. */
  method MaskNext(text: string, index: nat, cells: array<char>) returns (next: nat)
    requires index < |text| == cells.Length && MaskedUpTo(text, index, cells)
    modifies cells
    ensures index < next <= |text| && MaskedUpTo(text, next, cells)
  {
    if text[index] != '`' {
      OutsideSpans(text, index, index + 1, cells);
      return index + 1;
    }
    var width := CountTicks(text, index);
    var closing := FindTicks(text, index + width, width);
    if closing.None? {
      OutsideSpans(text, index, index + width, cells);
      return index + width;
    }
    MaskSpan(text, index, closing.value + width, cells);
    next := closing.value + width;
  }

  /** Blanks the code spans in place and keeps line breaks. */
  method MaskInlineCode(text: string) returns (masked: string)
    ensures IsMasked(text, masked)
  {
    var cells := new char[|text|](k requires 0 <= k < |text| => text[k]);
    var index := 0;
    while index < |text|
      invariant index <= |text| && MaskedUpTo(text, index, cells)
    {
      index := MaskNext(text, index, cells);
    }
    masked := cells[..];
  }

  method MaskSpan(text: string, from: nat, end: nat, cells: array<char>)
    requires from < end <= |text| == cells.Length && text[from] == '`' && SpanEnd(text, from) == Some(end)
    requires MaskedUpTo(text, from, cells)
    modifies cells
    ensures MaskedUpTo(text, end, cells)
  {
    for k := from to end
      invariant forall j :: 0 <= j < k ==> cells[j] == MaskedChar(text, j)
      invariant forall j :: k <= j < |text| ==> cells[j] == text[j]
    {
      assert InSpan(text, from, k) && InSpan(text, 0, k);
      if cells[k] != '\n' { cells[k] := ' '; }
    }
  }

  /** Masking keeps the length and the lines, so a location on the masked text is the
      location by counting on the original. */
  lemma MaskKeepsLocations(text: string, masked: string, offset: nat)
    requires IsMasked(text, masked) && offset <= |text|
    ensures LineStarts(masked) == LineStarts(text)
    ensures LineColumn(LineStarts(masked), offset) == Location(LineBreaks(text, offset) + 1, SinceBreak(text, offset) + 1)
  {
    SameBreaksSameLines(masked, text, |text|);
    LocatorCountsLines(text, offset);
  }

  // Escapes and nesting

  /** Backslashes right before k, not before from. */
  function BackslashesBefore(text: string, from: nat, k: nat): nat
    requires from <= k <= |text|
  {
    if k > from && text[k - 1] == '\\' then 1 + BackslashesBefore(text, from, k - 1) else 0
  }

  predicate Escaped(text: string, from: nat, k: nat)
    requires from <= k <= |text|
  {
    BackslashesBefore(text, from, k) % 2 == 1
  }

  /** Unescaped openings minus unescaped closings in text[from..k]. */
  function Depth(text: string, from: nat, k: nat, opening: Option<char>, closing: char): int
    requires from <= k <= |text|
  {
    if k == from then 0
    else
      Depth(text, from, k - 1, opening, closing)
      + if Escaped(text, from, k - 1) then 0
        else if Some(text[k - 1]) == opening then 1
        else if opening.Some? && text[k - 1] == closing then -1
        else 0
  }

  predicate IsBlank(c: char) { c == ' ' || c == '\t' }

  /** What ends a scan: the unescaped closing of depth 0 or, if wanted, an unescaped blank. */
  predicate StopsAt(text: string, from: nat, k: nat, opening: Option<char>, closing: char, blanks: bool) {
    && from <= k < |text| && !Escaped(text, from, k)
    && ((text[k] == closing && Depth(text, from, k, opening, closing) == 0) || (blanks && IsBlank(text[k])))
  }

  /** The first position from k on that ends the scan. */
  function FirstStop(text: string, from: nat, k: nat, opening: Option<char>, closing: char, blanks: bool): (at: Option<nat>)
    requires from <= k
    ensures at.Some? ==> k <= at.value && StopsAt(text, from, at.value, opening, closing, blanks)
    ensures forall j :: k <= j < (if at.Some? then at.value else |text|) ==> !StopsAt(text, from, j, opening, closing, blanks)
    decreases |text| - k
  {
    if k >= |text| then None
    else if StopsAt(text, from, k, opening, closing, blanks) then Some(k)
    else FirstStop(text, from, k + 1, opening, closing, blanks)
  }

  function ClosingBracket(text: string, start: nat): Option<nat> { FirstStop(text, start + 1, start + 1, Some('['), ']', false) }

  function ClosingParen(text: string, start: nat): Option<nat> { FirstStop(text, start, start, None, ')', false) }

  function DestinationEnd(text: string, start: nat): Option<nat> { FirstStop(text, start, start, Some('('), ')', true) }

  lemma FirstStopFound(text: string, from: nat, opening: Option<char>, closing: char, blanks: bool, at: Option<nat>)
    requires at.Some? ==> StopsAt(text, from, at.value, opening, closing, blanks)
    requires forall j :: from <= j < (if at.Some? then at.value else |text|) ==> !StopsAt(text, from, j, opening, closing, blanks)
    ensures at == FirstStop(text, from, from, opening, closing, blanks)
  {
    var first := FirstStop(text, from, from, opening, closing, blanks);
    if at.Some? { assert StopsAt(text, from, at.value, opening, closing, blanks); }
    if first.Some? { assert StopsAt(text, from, first.value, opening, closing, blanks); }
  }

  ghost predicate ScanState(text: string, from: nat, index: nat, opening: Option<char>, closing: char, blanks: bool, depth: int) {
    && from <= index && (index <= |text| ==> !Escaped(text, from, index) && Depth(text, from, index, opening, closing) == depth)
    && (forall k :: from <= k < index ==> !StopsAt(text, from, k, opening, closing, blanks))
  }

  lemma EscapeStep(text: string, from: nat, index: nat, opening: Option<char>, closing: char, blanks: bool, depth: int)
    requires ScanState(text, from, index, opening, closing, blanks, depth) && index < |text| && text[index] == '\\'
    requires opening != Some('\\') && closing != '\\'
    ensures ScanState(text, from, index + 2, opening, closing, blanks, depth)
  {
    assert BackslashesBefore(text, from, index + 1) == 1 + BackslashesBefore(text, from, index);
    assert Depth(text, from, index + 1, opening, closing) == depth;
    if index + 2 <= |text| {
      assert Escaped(text, from, index + 1);
      assert text[index + 1] == '\\' ==> BackslashesBefore(text, from, index + 2) == 1 + BackslashesBefore(text, from, index + 1);
    }
  }

  lemma PlainStep(text: string, from: nat, index: nat, opening: Option<char>, closing: char, blanks: bool, depth: int)
    requires ScanState(text, from, index, opening, closing, blanks, depth) && index < |text| && text[index] != '\\'
    requires !StopsAt(text, from, index, opening, closing, blanks)
    ensures ScanState(text, from, index + 1, opening, closing, blanks,
      if Some(text[index]) == opening then depth + 1 else if opening.Some? && text[index] == closing then depth - 1 else depth)
  {
    assert BackslashesBefore(text, from, index + 1) == 0;
  }

  method FindClosingBracket(text: string, start: nat) returns (at: Option<nat>)
    ensures at == ClosingBracket(text, start)
  {
    var depth := 0;
    var index := start + 1;
    while index < |text|
      invariant ScanState(text, start + 1, index, Some('['), ']', false, depth) && depth >= 0
    {
      if text[index] == '\\' {
        EscapeStep(text, start + 1, index, Some('['), ']', false, depth);
        index := index + 2;
        continue;
      }
      if text[index] == ']' && depth == 0 {
        FirstStopFound(text, start + 1, Some('['), ']', false, Some(index));
        return Some(index);
      }
      PlainStep(text, start + 1, index, Some('['), ']', false, depth);
      if text[index] == '[' { depth := depth + 1; } else if text[index] == ']' { depth := depth - 1; }
      index := index + 1;
    }
    FirstStopFound(text, start + 1, Some('['), ']', false, None);
    at := None;
  }

  method FindClosingParen(text: string, start: nat) returns (at: Option<nat>)
    ensures at == ClosingParen(text, start)
  {
    var index := start;
    while index < |text|
      invariant ScanState(text, start, index, None, ')', false, 0)
    {
      if text[index] == '\\' {
        EscapeStep(text, start, index, None, ')', false, 0);
        index := index + 2;
        continue;
      }
      if text[index] == ')' {
        assert Depth(text, start, index, None, ')') == 0;
        FirstStopFound(text, start, None, ')', false, Some(index));
        return Some(index);
      }
      PlainStep(text, start, index, None, ')', false, 0);
      index := index + 1;
    }
    FirstStopFound(text, start, None, ')', false, None);
    at := None;
  }

  /** The end of a bare destination: its closing parenthesis or a blank. */
  method FindDestinationEnd(text: string, start: nat) returns (at: Option<nat>)
    ensures at == DestinationEnd(text, start)
  {
    var nested := 0;
    var index := start;
    while index < |text|
      invariant ScanState(text, start, index, Some('('), ')', true, nested) && nested >= 0
    {
      if text[index] == '\\' {
        EscapeStep(text, start, index, Some('('), ')', true, nested);
        index := index + 2;
        continue;
      }
      if (text[index] == ')' && nested == 0) || text[index] == ' ' || text[index] == '\t' {
        FirstStopFound(text, start, Some('('), ')', true, Some(index));
        return Some(index);
      }
      PlainStep(text, start, index, Some('('), ')', true, nested);
      if text[index] == '(' { nested := nested + 1; } else if text[index] == ')' { nested := nested - 1; }
      index := index + 1;
    }
    FirstStopFound(text, start, Some('('), ')', true, None);
    at := None;
  }

  // Destinations

  /** A destination: its text, where that starts, and the closing parenthesis. */
  datatype Destination = Destination(href: string, offset: nat, closing: nat)

  function SkipBlanks(text: string, i: nat): (k: nat)
    ensures i <= k && (i <= |text| ==> k <= |text|)
    ensures k < |text| ==> !IsBlank(text[k])
    decreases |text| - i
  {
    if i < |text| && IsBlank(text[i]) then SkipBlanks(text, i + 1) else i
  }

  function IndexOf(text: string, c: char, i: nat): (at: Option<nat>)
    ensures at.Some? ==> i <= at.value < |text| && text[at.value] == c && forall k :: i <= k < at.value ==> text[k] != c
    ensures at.None? ==> forall k :: i <= k < |text| ==> text[k] != c
    decreases |text| - i
  {
    if i >= |text| then None else if text[i] == c then Some(i) else IndexOf(text, c, i + 1)
  }

  function LStrip(s: string, isSpace: char -> bool): string {
    if s != "" && isSpace(s[0]) then LStrip(s[1..], isSpace) else s
  }

  function RStrip(s: string, isSpace: char -> bool): string {
    if s != "" && isSpace(s[|s| - 1]) then RStrip(s[..|s| - 1], isSpace) else s
  }

  function Strip(s: string, isSpace: char -> bool): string { RStrip(LStrip(s, isSpace), isSpace) }

  /** Where the destination text begins, if the parenthesis opens one. */
  function DestinationStart(text: string, start: nat): (at: Option<nat>)
    ensures at.Some? ==> start < at.value < |text| && !IsBlank(text[at.value])
  {
    var paren := SkipBlanks(text, start);
    if paren >= |text| || text[paren] != '(' then None
    else
      var begin := SkipBlanks(text, paren + 1);
      if begin >= |text| then None else Some(begin)
  }

  /** A destination in angle brackets. */
  function BracketedDestination(text: string, begin: nat): Option<Destination>
    requires begin < |text|
  {
    var end := IndexOf(text, '>', begin + 1);
    if end.None? then None
    else
      var closing := ClosingParen(text, end.value + 1);
      if closing.None? then None else Some(Destination(text[begin + 1..end.value], begin + 1, closing.value))
  }

  /** A bare destination ends at its closing parenthesis, or at a blank that a title may follow. */
  function BareDestination(text: string, begin: nat, isSpace: char -> bool): Option<Destination>
    requires begin < |text|
  {
    var end := DestinationEnd(text, begin);
    if end.None? then None
    else if text[end.value] == ')' then Some(Destination(Strip(text[begin..end.value], isSpace), begin, end.value))
    else
      var closing := ClosingParen(text, end.value);
      if closing.None? then None else Some(Destination(text[begin..end.value], begin, closing.value))
  }

  function InlineDestination(text: string, start: nat, isSpace: char -> bool): Option<Destination> {
    var begin := DestinationStart(text, start);
    if begin.None? then None
    else if text[begin.value] == '<' then BracketedDestination(text, begin.value)
    else BareDestination(text, begin.value, isSpace)
  }

  method PassBlanks(text: string, start: nat) returns (index: nat)
    ensures index == SkipBlanks(text, start)
  {
    index := start;
    while index < |text| && (text[index] == ' ' || text[index] == '\t')
      invariant SkipBlanks(text, index) == SkipBlanks(text, start)
    {
      index := index + 1;
    }
  }

  method ParseInlineLinkDestination(text: string, start: nat, isSpace: char -> bool) returns (r: Option<Destination>)
    ensures r == InlineDestination(text, start, isSpace)
  {
    var paren := PassBlanks(text, start);
    if paren >= |text| || text[paren] != '(' { return None; }
    var begin := PassBlanks(text, paren + 1);
    if begin >= |text| { return None; }
    if text[begin] == '<' {
      var end := IndexOf(text, '>', begin + 1);
      if end.None? { return None; }
      var closing := FindClosingParen(text, end.value + 1);
      if closing.None? { return None; }
      return Some(Destination(text[begin + 1..end.value], begin + 1, closing.value));
    }
    var end := FindDestinationEnd(text, begin);
    if end.None? { return None; }
    if text[end.value] == ')' {
      return Some(Destination(Strip(text[begin..end.value], isSpace), begin, end.value));
    }
    var closing := FindClosingParen(text, end.value);
    if closing.None? { return None; }
    r := Some(Destination(text[begin..end.value], begin, closing.value));
  }

  lemma {:induction false} LStripShortens(s: string, isSpace: char -> bool)
    ensures |LStrip(s, isSpace)| <= |s| && (|LStrip(s, isSpace)| == |s| ==> LStrip(s, isSpace) == s)
    ensures LStrip(s, isSpace) != "" ==> !isSpace(LStrip(s, isSpace)[0])
  {
    if s != "" && isSpace(s[0]) { LStripShortens(s[1..], isSpace); }
  }

  lemma {:induction false} RStripIsPrefix(s: string, isSpace: char -> bool)
    ensures RStrip(s, isSpace) <= s
    ensures s != "" && !isSpace(s[0]) ==> RStrip(s, isSpace) != ""
  {
    if s != "" && isSpace(s[|s| - 1]) { RStripIsPrefix(s[..|s| - 1], isSpace); }
  }

  /** Stripping takes a prefix exactly when nothing is stripped in front of some text. */
  lemma StripIsPrefix(s: string, isSpace: char -> bool)
    ensures |Strip(s, isSpace)| <= |s|
    ensures Strip(s, isSpace) == s[..|Strip(s, isSpace)|] <==> Strip(s, isSpace) == "" || !isSpace(s[0])
  {
    LStripShortens(s, isSpace);
    RStripIsPrefix(LStrip(s, isSpace), isSpace);
    if Strip(s, isSpace) != "" {
      assert Strip(s, isSpace)[0] == LStrip(s, isSpace)[0];
    }
  }

  ghost predicate AllSpace(s: string, isSpace: char -> bool) { forall k :: 0 <= k < |s| ==> isSpace(s[k]) }

  lemma {:induction false} LStripDrops(s: string, isSpace: char -> bool) returns (front: string)
    ensures s == front + LStrip(s, isSpace) && AllSpace(front, isSpace)
    ensures LStrip(s, isSpace) != "" ==> !isSpace(LStrip(s, isSpace)[0])
  {
    front := "";
    if s != "" && isSpace(s[0]) {
      front := LStripDrops(s[1..], isSpace);
      assert s == [s[0]] + s[1..];
      front := [s[0]] + front;
    }
  }

  lemma {:induction false} RStripDrops(s: string, isSpace: char -> bool) returns (back: string)
    ensures s == RStrip(s, isSpace) + back && AllSpace(back, isSpace)
    ensures RStrip(s, isSpace) != "" ==> !isSpace(RStrip(s, isSpace)[|RStrip(s, isSpace)| - 1])
  {
    back := "";
    if s != "" && isSpace(s[|s| - 1]) {
      back := RStripDrops(s[..|s| - 1], isSpace);
      assert s == s[..|s| - 1] + [s[|s| - 1]];
      back := back + [s[|s| - 1]];
    }
  }

  /** Stripping takes white space away at both ends, and all of it. */
  lemma StripTrims(s: string, isSpace: char -> bool) returns (front: string, back: string)
    ensures s == front + Strip(s, isSpace) + back && AllSpace(front, isSpace) && AllSpace(back, isSpace)
    ensures var t := Strip(s, isSpace); t != "" ==> !isSpace(t[0]) && !isSpace(t[|t| - 1])
  {
    front := LStripDrops(s, isSpace);
    back := RStripDrops(LStrip(s, isSpace), isSpace);
    assert Strip(s, isSpace) != "" ==> Strip(s, isSpace)[0] == LStrip(s, isSpace)[0];
    assert front + (Strip(s, isSpace) + back) == front + Strip(s, isSpace) + back;
  }

  predicate Located(text: string, d: Destination) {
    d.offset + |d.href| <= |text| && d.href == text[d.offset..d.offset + |d.href|]
  }

  /** The destination runs to its closing parenthesis, is stripped, and begins with white space. */
  predicate StrippedInFront(text: string, start: nat, isSpace: char -> bool, d: Destination) {
    var begin := DestinationStart(text, start);
    && begin.Some? && text[begin.value] != '<' && d.href != "" && isSpace(text[begin.value])
    && DestinationEnd(text, begin.value) == Some(d.closing)
  }

  /** A destination lies before its closing parenthesis and is the slice of the text
      at its offset, unless white space other than blanks and tabs was stripped in front. */
  lemma DestinationIsSlice(text: string, start: nat, isSpace: char -> bool, d: Destination)
    requires InlineDestination(text, start, isSpace) == Some(d)
    ensures start < d.offset && d.offset + |d.href| <= d.closing < |text| && text[d.closing] == ')'
    ensures Located(text, d) <==> !StrippedInFront(text, start, isSpace, d)
  {
    var begin := DestinationStart(text, start).value;
    if text[begin] != '<' {
      var end := DestinationEnd(text, begin).value;
      if text[end] == ')' {
        var raw := text[begin..end];
        StripIsPrefix(raw, isSpace);
        assert raw[..|d.href|] == text[begin..begin + |d.href|];
      } else {
        assert IsBlank(text[end]) && end < d.closing;
      }
    }
  }

  // Candidates

  datatype LinkCandidate = LinkCandidate(href: string, offset: nat)

  predicate OpensLink(text: string, index: nat) {
    index < |text| && text[index] == '[' && (index > 0 ==> text[index - 1] != '!')
  }

  /** What one turn of the scan yields, and where the next begins. */
  datatype Turn = Turn(found: seq<LinkCandidate>, next: nat)

  function ScanTurn(text: string, index: nat, isSpace: char -> bool): (t: Turn)
    requires index < |text|
    ensures index < t.next <= |text|
  {
    if !OpensLink(text, index) then Turn([], index + 1)
    else
      var labelEnd := ClosingBracket(text, index);
      if labelEnd.None? then Turn([], index + 1)
      else
        var d := InlineDestination(text, labelEnd.value + 1, isSpace);
        if d.None? then Turn([], labelEnd.value + 1)
        else
          DestinationIsSlice(text, labelEnd.value + 1, isSpace, d.value);
          Turn(if d.value.href != "" then [LinkCandidate(d.value.href, d.value.offset)] else [], d.value.closing + 1)
  }

  function CandidatesFrom(text: string, index: nat, isSpace: char -> bool): seq<LinkCandidate>
    decreases |text| - index
  {
    if index >= |text| then []
    else
      var t := ScanTurn(text, index, isSpace);
      t.found + CandidatesFrom(text, t.next, isSpace)
  }

  /** One turn: past a character, a bracket without a link, or a whole link. */
  method ScanNext(text: string, index: nat, isSpace: char -> bool) returns (t: Turn)
    requires index < |text|
    ensures t == ScanTurn(text, index, isSpace)
  {
    if text[index] != '[' { return Turn([], index + 1); }
    if index > 0 && text[index - 1] == '!' { return Turn([], index + 1); }
    var labelEnd := FindClosingBracket(text, index);
    if labelEnd.None? { return Turn([], index + 1); }
    var destination := ParseInlineLinkDestination(text, labelEnd.value + 1, isSpace);
    if destination.None? { return Turn([], labelEnd.value + 1); }
    var d := destination.value;
    t := Turn(if d.href != "" then [LinkCandidate(d.href, d.offset)] else [], d.closing + 1);
  }

  // Which brackets yield a candidate

  /** The bracket opens no image and its label is closed. */
  predicate IsLabel(text: string, b: nat) { OpensLink(text, b) && ClosingBracket(text, b).Some? }

  function DestinationOf(text: string, b: nat, isSpace: char -> bool): Option<Destination>
    requires IsLabel(text, b)
  {
    InlineDestination(text, ClosingBracket(text, b).value + 1, isSpace)
  }

  /** Where the label of a bracket ends, with its destination if it has one. */
  function Extent(text: string, b: nat, isSpace: char -> bool): nat
    requires IsLabel(text, b)
  {
    var d := DestinationOf(text, b, isSpace);
    if d.Some? then d.value.closing + 1 else ClosingBracket(text, b).value + 1
  }

  /** No bracket tried earlier extends beyond index. */
  ghost predicate Free(text: string, index: nat, isSpace: char -> bool)
    decreases index, 1
  {
    forall a: nat :: a < index && Tried(text, a, isSpace) ==> Extent(text, a, isSpace) <= index
  }

  /** A label that lies in no earlier bracket that is tried. */
  ghost predicate Tried(text: string, b: nat, isSpace: char -> bool)
    ensures Tried(text, b, isSpace) ==> IsLabel(text, b)
    decreases b, 2
  {
    IsLabel(text, b) && Free(text, b, isSpace)
  }

  ghost predicate Yields(text: string, b: nat, isSpace: char -> bool, c: LinkCandidate) {
    && Tried(text, b, isSpace) && DestinationOf(text, b, isSpace).Some?
    && var d := DestinationOf(text, b, isSpace).value; d.href != "" && c == LinkCandidate(d.href, d.offset)
  }

  ghost predicate YieldedFrom(text: string, index: nat, isSpace: char -> bool, c: LinkCandidate) {
    exists b: nat :: index <= b && Yields(text, b, isSpace, c)
  }

  /** A turn begins where no tried bracket extends, and so does the next. */
  lemma TurnStaysFree(text: string, index: nat, isSpace: char -> bool)
    requires index < |text| && Free(text, index, isSpace)
    ensures Free(text, ScanTurn(text, index, isSpace).next, isSpace)
    ensures forall b: nat :: index < b < ScanTurn(text, index, isSpace).next ==> !Tried(text, b, isSpace)
  {
    var next := ScanTurn(text, index, isSpace).next;
    if IsLabel(text, index) {
      assert Tried(text, index, isSpace) && Extent(text, index, isSpace) == next;
      forall b: nat | index < b < next ensures !Tried(text, b, isSpace) {
        if Tried(text, b, isSpace) {
          assert Free(text, b, isSpace);
          assert false;
        }
      }
    }
    forall a: nat | a < next && Tried(text, a, isSpace) ensures Extent(text, a, isSpace) <= next {
      if a < index { assert Extent(text, a, isSpace) <= index; }
    }
  }

  lemma TurnYields(text: string, index: nat, isSpace: char -> bool, c: LinkCandidate)
    requires index < |text| && Free(text, index, isSpace)
    ensures c in ScanTurn(text, index, isSpace).found <==> Yields(text, index, isSpace, c)
  {
  }

  /** From a free index on, the scan finds what the tried brackets from there on yield. */
  lemma {:induction false} CandidatesAreYielded(text: string, index: nat, isSpace: char -> bool, c: LinkCandidate)
    requires Free(text, index, isSpace)
    ensures c in CandidatesFrom(text, index, isSpace) <==> YieldedFrom(text, index, isSpace, c)
    decreases |text| - index
  {
    if index < |text| {
      var t := ScanTurn(text, index, isSpace);
      TurnStaysFree(text, index, isSpace);
      TurnYields(text, index, isSpace, c);
      CandidatesAreYielded(text, t.next, isSpace, c);
      if b: nat :| index <= b && Yields(text, b, isSpace, c) {
        assert b == index || t.next <= b;
      }
    }
  }

  /** The candidates are, in order, the non-empty destinations of the labels that lie
      in no earlier tried bracket. */
  ghost predicate ExactlyYielded(text: string, isSpace: char -> bool, found: seq<LinkCandidate>) {
    && InOrder(found, 0, |text| + 1)
    && forall c :: c in found <==> YieldedFrom(text, 0, isSpace, c)
  }

  method MarkdownLinkCandidates(text: string, isSpace: char -> bool) returns (found: seq<LinkCandidate>)
    ensures found == CandidatesFrom(text, 0, isSpace) && ExactlyYielded(text, isSpace, found)
  {
    found := [];
    var index := 0;
    while index < |text|
      invariant found + CandidatesFrom(text, index, isSpace) == CandidatesFrom(text, 0, isSpace)
    {
      var t := ScanNext(text, index, isSpace);
      assert found + CandidatesFrom(text, index, isSpace) == (found + t.found) + CandidatesFrom(text, t.next, isSpace);
      found := found + t.found;
      index := t.next;
    }
    CandidatesInOrder(text, 0, isSpace);
    forall c ensures c in found <==> YieldedFrom(text, 0, isSpace, c) { CandidatesAreYielded(text, 0, isSpace, c); }
  }

  const NESTED := "[x [y](z)]"

  lemma {:induction false} NoEscapes(text: string, from: nat, k: nat)
    requires '\\' !in text && from <= k <= |text|
    ensures !Escaped(text, from, k)
  {
  }

  lemma NestedDepths()
    ensures forall k :: 1 <= k <= 9 ==> Depth(NESTED, 1, k, Some('['), ']') == (if k == 4 || k == 5 then 1 else 0)
  {
    forall k | 1 <= k <= 9 ensures !Escaped(NESTED, 1, k) { NoEscapes(NESTED, 1, k); }
    assert Depth(NESTED, 1, 2, Some('['), ']') == 0;
    assert Depth(NESTED, 1, 3, Some('['), ']') == 0;
    assert Depth(NESTED, 1, 4, Some('['), ']') == 1;
    assert Depth(NESTED, 1, 5, Some('['), ']') == 1;
    assert Depth(NESTED, 1, 6, Some('['), ']') == 0;
    assert Depth(NESTED, 1, 7, Some('['), ']') == 0;
    assert Depth(NESTED, 1, 8, Some('['), ']') == 0;
    assert Depth(NESTED, 1, 9, Some('['), ']') == 0;
  }

  lemma NestedLabels(isSpace: char -> bool)
    requires !isSpace('z')
    ensures IsLabel(NESTED, 0) && ClosingBracket(NESTED, 0) == Some(9) && DestinationOf(NESTED, 0, isSpace).None?
    ensures IsLabel(NESTED, 3) && ClosingBracket(NESTED, 3) == Some(5)
    ensures DestinationOf(NESTED, 3, isSpace) == Some(Destination("z", 7, 8))
  {
    NestedDepths();
    NoEscapes(NESTED, 1, 9);
    FirstStopFound(NESTED, 1, Some('['), ']', false, Some(9));
    NoEscapes(NESTED, 4, 5);
    assert Depth(NESTED, 4, 5, Some('['), ']') == 0;
    FirstStopFound(NESTED, 4, Some('['), ']', false, Some(5));
    NoEscapes(NESTED, 7, 8);
    assert Depth(NESTED, 7, 8, Some('('), ')') == 0;
    FirstStopFound(NESTED, 7, Some('('), ')', true, Some(8));
    assert NESTED[7..8] == "z" && "z"[..0] == "";
    assert Strip("z", isSpace) == "z";
  }

  /** A link inside a label without a destination of its own is passed over. */
  lemma NestedLinkIsSkipped(isSpace: char -> bool)
    requires !isSpace('z')
    ensures IsLabel(NESTED, 3) && DestinationOf(NESTED, 3, isSpace) == Some(Destination("z", 7, 8))
    ensures CandidatesFrom(NESTED, 0, isSpace) == []
  {
    NestedLabels(isSpace);
    assert ScanTurn(NESTED, 0, isSpace) == Turn([], 10);
    assert CandidatesFrom(NESTED, 10, isSpace) == [];
  }

  /** A candidate is the slice of the text at its offset, unless white space other than
      blanks and tabs was stripped in front of its destination. */
  lemma CandidateIsSlice(text: string, isSpace: char -> bool, c: LinkCandidate) returns (b: nat)
    requires c in CandidatesFrom(text, 0, isSpace)
    ensures Yields(text, b, isSpace, c)
    ensures var d := DestinationOf(text, b, isSpace).value;
      Located(text, d) <==> !StrippedInFront(text, ClosingBracket(text, b).value + 1, isSpace, d)
  {
    CandidatesAreYielded(text, 0, isSpace, c);
    b :| Yields(text, b, isSpace, c);
    DestinationIsSlice(text, ClosingBracket(text, b).value + 1, isSpace, DestinationOf(text, b, isSpace).value);
  }

  /** Candidates behind from, in order, none beginning before the one before it has ended. */
  ghost predicate InOrder(found: seq<LinkCandidate>, from: nat, end: nat) {
    && (forall i :: 0 <= i < |found| ==> from < found[i].offset && found[i].href != "" && found[i].offset + |found[i].href| < end)
    && (forall i, j :: 0 <= i < j < |found| ==> found[i].offset + |found[i].href| < found[j].offset)
  }

  lemma TurnInOrder(text: string, index: nat, isSpace: char -> bool)
    requires index < |text|
    ensures var t := ScanTurn(text, index, isSpace); InOrder(t.found, index, t.next)
  {
    var labelEnd := ClosingBracket(text, index);
    if OpensLink(text, index) && labelEnd.Some? {
      var d := InlineDestination(text, labelEnd.value + 1, isSpace);
      if d.Some? { DestinationIsSlice(text, labelEnd.value + 1, isSpace, d.value); }
    }
  }

  lemma JoinInOrder(a: seq<LinkCandidate>, b: seq<LinkCandidate>, from: nat, middle: nat, end: nat)
    requires InOrder(a, from, middle) && InOrder(b, middle, end) && from <= middle <= end
    ensures InOrder(a + b, from, end)
  {
  }

  /** Candidates come in strictly increasing order and never overlap. */
  lemma {:induction false} CandidatesInOrder(text: string, index: nat, isSpace: char -> bool)
    requires index <= |text|
    ensures InOrder(CandidatesFrom(text, index, isSpace), index, |text| + 1)
    decreases |text| - index
  {
    if index < |text| {
      var t := ScanTurn(text, index, isSpace);
      TurnInOrder(text, index, isSpace);
      CandidatesInOrder(text, t.next, isSpace);
      JoinInOrder(t.found, CandidatesFrom(text, t.next, isSpace), index, t.next, |text| + 1);
    }
  }

  // The shortcut sweep

  datatype Span = Span(start: nat, end: nat)

  datatype Shortcut = Shortcut(span: Span, name: string)

  ghost predicate SortedDisjoint(spans: seq<Span>) {
    && (forall i :: 0 <= i < |spans| ==> spans[i].start < spans[i].end)
    && (forall i, j :: 0 <= i < j < |spans| ==> spans[i].end <= spans[j].start)
  }

  predicate Contains(outer: Span, inner: Span) { outer.start <= inner.start && inner.end <= outer.end }

  predicate ContainedInSome(spans: seq<Span>, inner: Span) { exists k :: 0 <= k < |spans| && Contains(spans[k], inner) }

  /** The naive test. */
  predicate ResolvesShortcut(shortcuts: seq<Shortcut>, full: seq<Span>, definitions: set<string>, n: nat)
    requires n <= |shortcuts|
  {
    exists i :: 0 <= i < n && shortcuts[i].name in definitions && !ContainedInSome(full, shortcuts[i].span)
  }

  ghost predicate Passed(full: seq<Span>, pointer: nat, start: nat)
    requires pointer <= |full|
  {
    forall k :: 0 <= k < pointer ==> full[k].end <= start
  }

  /** Only the span under the pointer can contain the shortcut. */
  lemma OnlyPointedSpan(full: seq<Span>, pointer: nat, inner: Span)
    requires SortedDisjoint(full) && inner.start < inner.end && pointer <= |full| && Passed(full, pointer, inner.start)
    requires pointer < |full| ==> inner.start < full[pointer].end
    ensures ContainedInSome(full, inner) <==> pointer < |full| && Contains(full[pointer], inner)
  {
    if k :| 0 <= k < |full| && Contains(full[k], inner) {
      assert k >= pointer;
      assert !(k > pointer);
    }
  }

  /** The two-pointer sweep finds a resolved shortcut exactly when the naive test does. */
  method HasResolvedShortcutReference(shortcuts: seq<Shortcut>, full: seq<Span>, definitions: set<string>) returns (r: bool)
    requires SortedDisjoint(full) && forall i :: 0 <= i < |shortcuts| ==> shortcuts[i].span.start < shortcuts[i].span.end
    requires forall i, j :: 0 <= i < j < |shortcuts| ==> shortcuts[i].span.end <= shortcuts[j].span.start
    ensures r <==> ResolvesShortcut(shortcuts, full, definitions, |shortcuts|)
  {
    var pointer := 0;
    for i := 0 to |shortcuts|
      invariant pointer <= |full| && (i > 0 ==> Passed(full, pointer, shortcuts[i - 1].span.start))
      invariant i == 0 ==> pointer == 0
      invariant !ResolvesShortcut(shortcuts, full, definitions, i)
    {
      var span := shortcuts[i].span;
      while pointer < |full| && full[pointer].end <= span.start
        invariant pointer <= |full| && Passed(full, pointer, span.start)
      {
        pointer := pointer + 1;
      }
      OnlyPointedSpan(full, pointer, span);
      if pointer < |full| && full[pointer].start <= span.start && span.end <= full[pointer].end { continue; }
      if shortcuts[i].name in definitions { return true; }
    }
    r := false;
  }
}
