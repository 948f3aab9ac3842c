/** The version comparator of release selection (planning/selection.py). Sort keys
    mix numbers and text, as the host language's tuples do. */
module VersionOrder {
  import opened Options
  import opened Sorting

  /** A version without a plus part: its dotted numbers and what follows the first hyphen. */
  datatype Version = Version(text: string, numbers: seq<nat>, suffix: string)

  datatype Part = Num(value: int) | Text(text: string)

  function NumberParts(numbers: seq<nat>): (parts: seq<Part>)
    ensures |parts| == |numbers| && forall i :: 0 <= i < |parts| ==> parts[i] == Num(numbers[i])
  {
    if numbers == [] then [] else [Num(numbers[0])] + NumberParts(numbers[1..])
  }

  function VersionSortKey(v: Version): seq<Part> {
    NumberParts(v.numbers) + [Num(if v.suffix == "" then 0 else -1), Text(v.suffix)]
  }

  /** Undefined stands for the host language's type error. */
  datatype Comparison = Less | Equal | Greater | Undefined

  function ComparePart(a: Part, b: Part): Comparison {
    if a == b then Equal
    else if a.Num? && b.Num? then if a.value < b.value then Less else Greater
    else if a.Text? && b.Text? then if StringLe(a.text, b.text) then Less else Greater
    else Undefined
  }

  /** Tuples compare at the first place where they differ. */
  function Compare(a: seq<Part>, b: seq<Part>): Comparison {
    if a == [] then if b == [] then Equal else Less
    else if b == [] then Greater
    else if a[0] == b[0] then Compare(a[1..], b[1..])
    else ComparePart(a[0], b[0])
  }

  function CompareVersions(a: Version, b: Version): Comparison { Compare(VersionSortKey(a), VersionSortKey(b)) }

  /** a has no suffix, and b continues its numbers with a zero. */
  predicate ZeroExtends(a: Version, b: Version) {
    a.suffix == "" && a.numbers < b.numbers && b.numbers[|a.numbers|] == 0
  }

  lemma {:induction false} CompareCommon(a: seq<Part>, b: seq<Part>, n: nat)
    requires n <= |a| && n <= |b| && a[..n] == b[..n]
    ensures Compare(a, b) == Compare(a[n..], b[n..])
  {
    if n > 0 {
      assert a[0] == a[..n][0] == b[0];
      assert a[1..][..n - 1] == a[..n][1..] && b[1..][..n - 1] == b[..n][1..];
      CompareCommon(a[1..], b[1..], n - 1);
      assert a[1..][n - 1..] == a[n..] && b[1..][n - 1..] == b[n..];
    }
  }

  /** The places two number lists share. */
  function Common(a: seq<nat>, b: seq<nat>): (n: nat)
    ensures n <= |a| && n <= |b| && a[..n] == b[..n]
    ensures n < |a| && n < |b| ==> a[n] != b[n]
  {
    if a == [] || b == [] || a[0] != b[0] then 0
    else
      var n := 1 + Common(a[1..], b[1..]);
      assert a[..n] == [a[0]] + a[1..][..n - 1] && b[..n] == [b[0]] + b[1..][..n - 1];
      n
  }

  lemma KeysAfterCommon(a: Version, b: Version)
    ensures var n := Common(a.numbers, b.numbers);
      CompareVersions(a, b) == Compare(VersionSortKey(a)[n..], VersionSortKey(b)[n..])
  {
    var n := Common(a.numbers, b.numbers);
    var x, y := VersionSortKey(a), VersionSortKey(b);
    assert forall i :: 0 <= i < n ==> a.numbers[i] == a.numbers[..n][i] && b.numbers[i] == b.numbers[..n][i];
    assert forall i :: 0 <= i < n ==> x[i] == Num(a.numbers[i]) && y[i] == Num(b.numbers[i]);
    assert x[..n] == y[..n];
    CompareCommon(x, y, n);
  }

  /** One list of numbers continues the other. */
  lemma ContinuedComparison(a: Version, b: Version)
    requires a.numbers < b.numbers
    ensures CompareVersions(a, b) == Undefined <==> ZeroExtends(a, b)
    ensures CompareVersions(b, a) == Undefined <==> ZeroExtends(a, b)
  {
    var n := |a.numbers|;
    var x, y := VersionSortKey(a), VersionSortKey(b);
    assert forall i :: 0 <= i < n ==> x[i] == Num(a.numbers[i]) && y[i] == Num(b.numbers[i]) && a.numbers[i] == b.numbers[i];
    assert x[..n] == y[..n];
    CompareCommon(x, y, n);
    CompareCommon(y, x, n);
    assert x[n] == Num(if a.suffix == "" then 0 else -1) && x[n + 1] == Text(a.suffix);
    assert y[n] == Num(b.numbers[n]) && y[n + 1].Num?;
    assert x[n..][0] == x[n] && x[n..][1..][0] == x[n + 1] && y[n..][0] == y[n] && y[n..][1..][0] == y[n + 1];
  }

  /** The numbers differ at some place. */
  lemma DivergedComparison(a: Version, b: Version, n: nat)
    requires n == Common(a.numbers, b.numbers) && n < |a.numbers| && n < |b.numbers|
    ensures CompareVersions(a, b) != Undefined && !(a.numbers <= b.numbers) && !(b.numbers <= a.numbers)
  {
    KeysAfterCommon(a, b);
    var x, y := VersionSortKey(a), VersionSortKey(b);
    assert x[n] == Num(a.numbers[n]) && y[n] == Num(b.numbers[n]);
    assert x[n..][0] == x[n] && y[n..][0] == y[n];
  }

  lemma SuffixComparison(x: seq<Part>, y: seq<Part>)
    requires |x| == |y| == 2 && x[0].Num? && y[0].Num? && x[1].Text? && y[1].Text?
    ensures Compare(x, y) != Undefined
  {
    assert x[1..] == [x[1]] && y[1..] == [y[1]];
    assert Compare([], []) == Equal && [x[1]][1..] == [] && [y[1]][1..] == [];
    assert Compare([x[1]], [y[1]]) != Undefined;
  }

  lemma SameNumbersComparison(a: Version, b: Version)
    requires a.numbers == b.numbers
    ensures CompareVersions(a, b) != Undefined
  {
    var x, y, n := VersionSortKey(a), VersionSortKey(b), |a.numbers|;
    assert x[..n] == y[..n] == NumberParts(a.numbers);
    CompareCommon(x, y, n);
    SuffixComparison(x[n..], y[n..]);
  }

  /** Comparing two versions fails exactly when one has no suffix and the other
      continues its numbers with a zero, as for 1.0 and 1.0.0. */
  lemma ComparisonIsExact(a: Version, b: Version)
    ensures CompareVersions(a, b) == Undefined <==> ZeroExtends(a, b) || ZeroExtends(b, a)
  {
    var n := Common(a.numbers, b.numbers);
    if n < |a.numbers| && n < |b.numbers| {
      DivergedComparison(a, b, n);
    } else if |a.numbers| < |b.numbers| {
      assert a.numbers == a.numbers[..n] == b.numbers[..n];
      ContinuedComparison(a, b);
    } else if |b.numbers| < |a.numbers| {
      assert b.numbers == b.numbers[..n] == a.numbers[..n];
      ContinuedComparison(b, a);
    } else {
      assert a.numbers == a.numbers[..n] && b.numbers == b.numbers[..n];
      SameNumbersComparison(a, b);
    }
  }

  // The order

  /** The comparison continued to all keys, text below numbers. */
  predicate PartLe(a: Part, b: Part) {
    match a
    case Text(s) => b.Num? || StringLe(s, b.text)
    case Num(m) => b.Num? && m <= b.value
  }

  predicate KeyLe(a: seq<Part>, b: seq<Part>) {
    a == [] || (b != [] && (if a[0] == b[0] then KeyLe(a[1..], b[1..]) else PartLe(a[0], b[0])))
  }

  lemma PartOrder(a: Part, b: Part, c: Part)
    ensures PartLe(a, b) || PartLe(b, a)
    ensures PartLe(a, b) && PartLe(b, a) ==> a == b
    ensures PartLe(a, b) && PartLe(b, c) ==> PartLe(a, c)
  {
    if a.Text? && b.Text? {
      StringLeTotal(a.text, b.text);
      if PartLe(a, b) && PartLe(b, a) { StringLeAntisymmetric(a.text, b.text); }
      if c.Text? && PartLe(a, b) && PartLe(b, c) { StringLeTransitive(a.text, b.text, c.text); }
    }
  }

  lemma {:induction false} KeyLeTotal(a: seq<Part>, b: seq<Part>)
    ensures KeyLe(a, b) || KeyLe(b, a)
  {
    if a != [] && b != [] {
      PartOrder(a[0], b[0], b[0]);
      KeyLeTotal(a[1..], b[1..]);
    }
  }

  lemma {:induction false} KeyLeTransitive(a: seq<Part>, b: seq<Part>, c: seq<Part>)
    requires KeyLe(a, b) && KeyLe(b, c)
    ensures KeyLe(a, c)
  {
    if a != [] {
      PartOrder(a[0], b[0], c[0]);
      PartOrder(c[0], b[0], a[0]);
      if a[0] == b[0] == c[0] { KeyLeTransitive(a[1..], b[1..], c[1..]); }
    }
  }

  /** Where the comparison is defined it is the continued order. */
  lemma {:induction false} CompareIsKeyOrder(a: seq<Part>, b: seq<Part>)
    requires Compare(a, b) != Undefined
    ensures Compare(a, b) != Greater <==> KeyLe(a, b)
    ensures Compare(a, b) == Less <==> !KeyLe(b, a)
  {
    if a != [] && b != [] {
      if a[0] == b[0] {
        CompareIsKeyOrder(a[1..], b[1..]);
      } else {
        PartOrder(a[0], b[0], b[0]);
      }
    }
  }

  ghost predicate NoClash(versions: seq<Version>) {
    forall a, b :: a in versions && b in versions ==> !ZeroExtends(a, b)
  }

  /** On versions without a clashing pair the comparator is a total preorder. */
  lemma ComparatorIsTotalPreorder(versions: seq<Version>, a: Version, b: Version, c: Version)
    requires NoClash(versions) && a in versions && b in versions && c in versions
    ensures CompareVersions(a, b) != Undefined
    ensures CompareVersions(a, b) == Less <==> CompareVersions(b, a) == Greater
    ensures CompareVersions(a, b) != Greater && CompareVersions(b, c) != Greater ==> CompareVersions(a, c) != Greater
  {
    ComparisonIsExact(a, b);
    ComparisonIsExact(b, a);
    ComparisonIsExact(b, c);
    ComparisonIsExact(a, c);
    CompareIsKeyOrder(VersionSortKey(a), VersionSortKey(b));
    CompareIsKeyOrder(VersionSortKey(b), VersionSortKey(a));
    CompareIsKeyOrder(VersionSortKey(b), VersionSortKey(c));
    CompareIsKeyOrder(VersionSortKey(a), VersionSortKey(c));
    if KeyLe(VersionSortKey(a), VersionSortKey(b)) && KeyLe(VersionSortKey(b), VersionSortKey(c)) {
      KeyLeTransitive(VersionSortKey(a), VersionSortKey(b), VersionSortKey(c));
    }
  }

  // Selection

  predicate NewestFirst(a: Version, b: Version) { KeyLe(VersionSortKey(b), VersionSortKey(a)) }

  lemma NewestFirstIsTotalPreorder()
    ensures TotalPreorder(NewestFirst)
  {
    forall a, b ensures NewestFirst(a, b) || NewestFirst(b, a) { KeyLeTotal(VersionSortKey(a), VersionSortKey(b)); }
    forall a, b, c | NewestFirst(a, b) && NewestFirst(b, c) ensures NewestFirst(a, c) {
      KeyLeTransitive(VersionSortKey(c), VersionSortKey(b), VersionSortKey(a));
    }
  }

  /** The newest count versions: distinct, known, and none below an omitted one. */
  method SelectLatest(known: seq<Version>, count: nat) returns (selected: seq<Version>)
    requires AllDistinct(known) && NoClash(known)
    ensures |selected| == (if count < |known| then count else |known|) && AllDistinct(selected)
    ensures forall v :: v in selected ==> v in known
    ensures forall v, o :: v in selected && o in known && o !in selected ==> CompareVersions(v, o) != Less
    ensures forall i, j :: 0 <= i < j < |selected| ==> CompareVersions(selected[i], selected[j]) != Less
  {
    var ordered := StableSort(known, NewestFirst);
    SortIsPermutation(known, NewestFirst);
    NewestFirstIsTotalPreorder();
    SortIsSorted(known, NewestFirst);
    PermutationKeepsDistinct(known, ordered);
    selected := ordered[..if count < |ordered| then count else |ordered|];
    forall v, o | v in known && o in known && NewestFirst(v, o) ensures CompareVersions(v, o) != Less {
      ComparisonIsExact(v, o);
      CompareIsKeyOrder(VersionSortKey(v), VersionSortKey(o));
    }
    OmittedComeLater(ordered, |selected|);
  }

  lemma OmittedComeLater(ordered: seq<Version>, n: nat)
    requires Sorted(ordered, NewestFirst) && n <= |ordered|
    ensures forall v, o :: v in ordered[..n] && o in ordered && o !in ordered[..n] ==> NewestFirst(v, o)
  {
    forall v, o | v in ordered[..n] && o in ordered && o !in ordered[..n] ensures NewestFirst(v, o) {
      var i :| 0 <= i < n && ordered[i] == v;
      var j :| 0 <= j < |ordered| && ordered[j] == o;
      assert forall k :: 0 <= k < n ==> ordered[k] in ordered[..n];
    }
  }

  // What the order means

  /** The first number in which two versions differ is smaller. */
  ghost predicate SmallerNumber(a: Version, b: Version) {
    exists n :: 0 <= n < |a.numbers| && n < |b.numbers| && SameUpTo(a.numbers, b.numbers, n) && a.numbers[n] < b.numbers[n]
  }

  predicate SameUpTo(a: seq<nat>, b: seq<nat>, n: nat)
    requires n <= |a| && n <= |b|
  {
    forall k :: 0 <= k < n ==> a[k] == b[k]
  }

  /** b continues the numbers of a, and not with a zero unless a has a suffix. */
  predicate ContinuedBy(a: Version, b: Version) {
    a.numbers < b.numbers && (a.suffix != "" || b.numbers[|a.numbers|] > 0)
  }

  /** A suffix comes before none, and suffixes are ordered as text. */
  predicate EarlierSuffix(a: Version, b: Version) {
    a.numbers == b.numbers && a.suffix != b.suffix && a.suffix != "" && (b.suffix == "" || StringLe(a.suffix, b.suffix))
  }

  lemma KeyParts(v: Version, n: nat)
    requires n < |v.numbers| + 2
    ensures VersionSortKey(v)[n..][0] == VersionSortKey(v)[n] == if n < |v.numbers| then Num(v.numbers[n])
      else if n == |v.numbers| then Num(if v.suffix == "" then 0 else -1) else Text(v.suffix)
  {
  }

  lemma SmallerNumberIsOlder(a: Version, b: Version, n: nat)
    requires n < |a.numbers| && n < |b.numbers| && SameUpTo(a.numbers, b.numbers, n) && a.numbers[n] != b.numbers[n]
    ensures CompareVersions(a, b) == if a.numbers[n] < b.numbers[n] then Less else Greater
  {
    var x, y := VersionSortKey(a), VersionSortKey(b);
    assert forall i :: 0 <= i < n ==> x[i] == Num(a.numbers[i]) && y[i] == Num(b.numbers[i]);
    assert x[..n] == y[..n];
    CompareCommon(x, y, n);
    KeyParts(a, n);
    KeyParts(b, n);
  }

  lemma ContinuationOrder(a: Version, b: Version)
    requires a.numbers < b.numbers
    ensures CompareVersions(a, b) == Less <==> ContinuedBy(a, b)
    ensures CompareVersions(b, a) != Less
  {
    var n := |a.numbers|;
    var x, y := VersionSortKey(a), VersionSortKey(b);
    assert forall i :: 0 <= i < n ==> x[i] == Num(a.numbers[i]) && y[i] == Num(b.numbers[i]) && a.numbers[i] == b.numbers[i];
    assert x[..n] == y[..n];
    CompareCommon(x, y, n);
    CompareCommon(y, x, n);
    KeyParts(a, n);
    KeyParts(b, n);
    KeyParts(a, n + 1);
    KeyParts(b, n + 1);
    assert x[n..][1..] == x[n + 1..] && y[n..][1..] == y[n + 1..];
  }

  lemma TextOrder(s: string, t: string)
    ensures Compare([Text(s)], [Text(t)]) == Less <==> s != t && StringLe(s, t)
  {
    assert [Text(s)][1..] == [] && [Text(t)][1..] == [];
  }

  lemma SuffixOrder(a: Version, b: Version)
    requires a.numbers == b.numbers
    ensures CompareVersions(a, b) == Less <==> EarlierSuffix(a, b)
  {
    var x, y, n := VersionSortKey(a), VersionSortKey(b), |a.numbers|;
    assert x[..n] == y[..n] == NumberParts(a.numbers);
    CompareCommon(x, y, n);
    assert x[n..] == [Num(if a.suffix == "" then 0 else -1), Text(a.suffix)];
    assert y[n..] == [Num(if b.suffix == "" then 0 else -1), Text(b.suffix)];
    assert x[n..][1..] == [Text(a.suffix)] && y[n..][1..] == [Text(b.suffix)];
    TextOrder(a.suffix, b.suffix);
  }

  lemma CommonIsSame(a: seq<nat>, b: seq<nat>)
    ensures SameUpTo(a, b, Common(a, b))
  {
    var n := Common(a, b);
    assert forall k :: 0 <= k < n ==> a[k] == a[..n][k] == b[..n][k] == b[k];
  }

  /** Exactly when one version is older than another: a larger number is newer, a longer
      version is newer unless it only adds a zero, and a suffix is older than none. */
  lemma OlderIsExact(a: Version, b: Version)
    ensures CompareVersions(a, b) == Less <==> SmallerNumber(a, b) || ContinuedBy(a, b) || EarlierSuffix(a, b)
  {
    var n := Common(a.numbers, b.numbers);
    CommonIsSame(a.numbers, b.numbers);
    if n < |a.numbers| && n < |b.numbers| {
      SmallerNumberIsOlder(a, b, n);
      assert SmallerNumber(a, b) <==> a.numbers[n] < b.numbers[n];
    } else if |a.numbers| < |b.numbers| {
      assert a.numbers < b.numbers;
      ContinuationOrder(a, b);
    } else if |b.numbers| < |a.numbers| {
      assert b.numbers < a.numbers;
      ContinuationOrder(b, a);
    } else {
      assert a.numbers == b.numbers;
      SuffixOrder(a, b);
    }
  }
}
