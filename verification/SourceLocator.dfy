/** Line and column lookup by binary search over line starts
    (evaluation/link_references.py). */
module SourceLocator {

  /** 0 and the offset after each line break among the first n characters. */
  function LineStartsUpTo(text: string, n: nat): (starts: seq<nat>)
    requires n <= |text|
    ensures starts != [] && starts[0] == 0 && Increasing(starts)
    ensures forall i :: 0 <= i < |starts| ==> starts[i] <= n
  {
    if n == 0 then [0]
    else LineStartsUpTo(text, n - 1) + if text[n - 1] == '\n' then [n] else []
  }

  predicate Increasing(starts: seq<nat>) { forall i, j :: 0 <= i < j < |starts| ==> starts[i] < starts[j] }

  function LineStarts(text: string): (starts: seq<nat>)
    ensures starts != [] && starts[0] == 0 && Increasing(starts)
  {
    LineStartsUpTo(text, |text|)
  }

  method CollectLineStarts(text: string) returns (starts: seq<nat>)
    ensures starts == LineStarts(text)
  {
    starts := [0];
    for i := 0 to |text|
      invariant starts == LineStartsUpTo(text, i)
    {
      if text[i] == '\n' { starts := starts + [i + 1]; }
    }
  }

  /** bisect_right: halves the range until it is empty. */
  function BisectRight(starts: seq<nat>, offset: nat, lo: nat, hi: nat): nat
    requires lo <= hi <= |starts|
    decreases hi - lo
  {
    if lo == hi then lo
    else
      var mid := (lo + hi) / 2;
      if offset < starts[mid] then BisectRight(starts, offset, lo, mid) else BisectRight(starts, offset, mid + 1, hi)
  }

  datatype Location = Location(line: int, column: int)

  function LineColumn(starts: seq<nat>, offset: nat): Location
    requires starts != [] && starts[0] == 0 && Increasing(starts)
  {
    BisectSplits(starts, offset, 0, |starts|);
    var index := BisectRight(starts, offset, 0, |starts|) - 1;
    Location(index + 1, offset - starts[index] + 1)
  }

  lemma {:induction false} BisectSplits(starts: seq<nat>, offset: nat, lo: nat, hi: nat)
    requires Increasing(starts) && lo <= hi <= |starts|
    requires forall i :: 0 <= i < lo ==> starts[i] <= offset
    requires forall i :: hi <= i < |starts| ==> offset < starts[i]
    ensures var k := BisectRight(starts, offset, lo, hi);
      && k <= |starts|
      && (forall i :: 0 <= i < k ==> starts[i] <= offset) && (forall i :: k <= i < |starts| ==> offset < starts[i])
    decreases hi - lo
  {
    if lo < hi {
      var mid := (lo + hi) / 2;
      if offset < starts[mid] { BisectSplits(starts, offset, lo, mid); } else { BisectSplits(starts, offset, mid + 1, hi); }
    }
  }

  // The definition by counting

  /** Line breaks before offset n. */
  function LineBreaks(text: string, n: nat): nat
    requires n <= |text|
  {
    if n == 0 then 0 else LineBreaks(text, n - 1) + if text[n - 1] == '\n' then 1 else 0
  }

  /** Characters since the last line break before offset n. */
  function SinceBreak(text: string, n: nat): nat
    requires n <= |text|
  {
    if n == 0 || text[n - 1] == '\n' then 0 else SinceBreak(text, n - 1) + 1
  }

  lemma {:induction false} LineStartsShape(text: string, n: nat)
    requires n <= |text|
    ensures var starts := LineStartsUpTo(text, n);
      && |starts| == LineBreaks(text, n) + 1
      && SinceBreak(text, n) <= n && starts[|starts| - 1] == n - SinceBreak(text, n)
  {
    if n > 0 { LineStartsShape(text, n - 1); }
  }

  lemma {:induction false} LaterStarts(text: string, m: nat, n: nat)
    requires m <= n <= |text|
    ensures LineStartsUpTo(text, m) <= LineStartsUpTo(text, n)
    ensures forall i :: |LineStartsUpTo(text, m)| <= i < |LineStartsUpTo(text, n)| ==> m < LineStartsUpTo(text, n)[i]
    decreases n - m
  {
    if m < n { LaterStarts(text, m, n - 1); }
  }

  predicate Reached(starts: seq<nat>, offset: nat, i: nat) { i < |starts| && starts[i] <= offset }

  lemma SplitIsUnique(starts: seq<nat>, offset: nat, k: nat, n: nat)
    requires k <= |starts| && n <= |starts|
    requires forall i :: 0 <= i < |starts| ==> (Reached(starts, offset, i) <==> i < k)
    requires forall i :: 0 <= i < |starts| ==> (Reached(starts, offset, i) <==> i < n)
    ensures k == n
  {
    var atK, atN := Reached(starts, offset, k), Reached(starts, offset, n);
  }

  /** The binary search gives the line by counting line breaks and the column by
      counting characters since the last one. */
  lemma LocatorCountsLines(text: string, offset: nat)
    requires offset <= |text|
    ensures LineColumn(LineStarts(text), offset) == Location(LineBreaks(text, offset) + 1, SinceBreak(text, offset) + 1)
  {
    var starts, own := LineStarts(text), LineStartsUpTo(text, offset);
    LineStartsShape(text, |text|);
    LineStartsShape(text, offset);
    LaterStarts(text, offset, |text|);
    BisectSplits(starts, offset, 0, |starts|);
    var k := BisectRight(starts, offset, 0, |starts|);
    SplitIsUnique(starts, offset, k, |own|);
  }

  /** Collecting the line starts and searching them locates any offset by counting. */
  method Locate(text: string, offset: nat) returns (location: Location)
    requires offset <= |text|
    ensures location == Location(LineBreaks(text, offset) + 1, SinceBreak(text, offset) + 1)
  {
    var starts := CollectLineStarts(text);
    LocatorCountsLines(text, offset);
    location := LineColumn(starts, offset);
  }

  /** A location determines its offset. */
  lemma LocationsAreUnique(text: string, a: nat, b: nat)
    requires a <= |text| && b <= |text|
    ensures LineColumn(LineStarts(text), a) == LineColumn(LineStarts(text), b) <==> a == b
  {
    LocatorCountsLines(text, a);
    LocatorCountsLines(text, b);
    if a < b { LineApart(text, a, b); } else if b < a { LineApart(text, b, a); }
  }

  lemma {:induction false} LineApart(text: string, a: nat, b: nat)
    requires a < b <= |text|
    ensures LineBreaks(text, a) < LineBreaks(text, b) || (LineBreaks(text, a) == LineBreaks(text, b) && SinceBreak(text, a) < SinceBreak(text, b))
    decreases b
  {
    if a < b - 1 { LineApart(text, a, b - 1); }
  }

  /** Texts with the same line breaks locate offsets alike. */
  lemma {:induction false} SameBreaksSameLines(a: string, b: string, n: nat)
    requires |a| == |b| && n <= |a| && forall i :: 0 <= i < |a| ==> (a[i] == '\n' <==> b[i] == '\n')
    ensures LineStartsUpTo(a, n) == LineStartsUpTo(b, n)
  {
    if n > 0 { SameBreaksSameLines(a, b, n - 1); }
  }
}
