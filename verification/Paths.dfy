/** Slash-separated paths as text and as segment lists, and how the text tests
    of the pipeline (equality, startswith with a slash, casefold) read on segments. */
module Paths {

  function Split(s: string): (parts: seq<string>)
    ensures parts != []
  {
    if s == "" then [""] else Attach(s[0], Split(s[1..]))
  }

  function Attach(c: char, parts: seq<string>): (r: seq<string>)
    requires parts != []
    ensures r != []
  {
    if c == '/' then [""] + parts else [[c] + parts[0]] + parts[1..]
  }

  function Join(parts: seq<string>): string {
    if parts == [] then ""
    else if |parts| == 1 then parts[0]
    else parts[0] + "/" + Join(parts[1..])
  }

  predicate NoSlash(part: string) { '/' !in part }

  /** What splitting yields. */
  predicate AllSlashFree(parts: seq<string>) { forall i :: 0 <= i < |parts| ==> NoSlash(parts[i]) }

  /** What splitting yields between single slashes. */
  predicate AllSegments(parts: seq<string>) { forall i :: 0 <= i < |parts| ==> parts[i] != "" && NoSlash(parts[i]) }

  // Text

  lemma {:induction false} SplitConcat(a: string, b: string)
    ensures Split(a + "/" + b) == Split(a) + Split(b)
  {
    if a == "" {
      assert "" + "/" + b == "/" + b && ("/" + b)[1..] == b;
    } else {
      var whole := a + "/" + b;
      assert whole[1..] == a[1..] + "/" + b && whole[0] == a[0];
      SplitConcat(a[1..], b);
      AttachConcat(a[0], Split(a[1..]), Split(b));
    }
  }

  lemma AttachConcat(c: char, x: seq<string>, y: seq<string>)
    requires x != []
    ensures Attach(c, x + y) == Attach(c, x) + y
  {
    assert (x + y)[1..] == x[1..] + y;
  }

  lemma {:induction false} SplitName(part: string)
    requires NoSlash(part)
    ensures Split(part) == [part]
  {
    if part != "" {
      assert part[0] in part && forall c :: c in part[1..] ==> c in part;
      SplitName(part[1..]);
      assert part == [part[0]] + part[1..] && [part[1..]][1..] == [];
    }
  }

  lemma {:induction false} SplitHasNoSlashes(s: string)
    ensures AllSlashFree(Split(s))
  {
    if s != "" {
      SplitHasNoSlashes(s[1..]);
      var rest := Split(s[1..]);
      assert NoSlash(rest[0]);
      if s[0] != '/' { assert NoSlash([s[0]] + rest[0]); }
    }
  }

  lemma {:induction false} SplitJoin(parts: seq<string>)
    requires parts != [] && AllSlashFree(parts)
    ensures Split(Join(parts)) == parts
  {
    SplitName(parts[0]);
    if |parts| > 1 {
      SplitJoin(parts[1..]);
      SplitConcat(parts[0], Join(parts[1..]));
    }
  }

  lemma {:induction false} JoinEnds(names: seq<string>)
    requires names != [] && AllSegments(names)
    ensures Join(names) != "" && Join(names)[0] != '/' && Join(names)[|Join(names)| - 1] != '/'
  {
    assert names[0] != "" && NoSlash(names[0]);
    assert names[0][0] in names[0] && names[0][|names[0]| - 1] in names[0];
    if |names| > 1 {
      JoinEnds(names[1..]);
      var rest := Join(names[1..]);
      assert Join(names)[|Join(names)| - 1] == rest[|rest| - 1];
    }
  }

  // Stage paths

  /** A stage-relative path; its text is Join of its segments. */
  type Path = seq<string>

  predicate Plain(p: Path) { p != [] && AllSegments(p) }

  /** One path is at or beneath the other. */
  predicate Comparable(p: Path, q: Path) { p <= q || q <= p }

  /** The text child starts with parent and a slash. */
  predicate TextBeneath(child: string, parent: string) { parent + "/" <= child }

  lemma {:induction false} JoinConcat(p: Path, q: Path)
    requires p != [] && q != []
    ensures Join(p + q) == Join(p) + "/" + Join(q)
  {
    if |p| == 1 {
      assert (p + q)[1..] == q;
    } else {
      assert (p + q)[1..] == p[1..] + q;
      JoinConcat(p[1..], q);
    }
  }

  /** The text tests are the segment tests. */
  lemma TextPrefixIsSegmentPrefix(p: Path, q: Path)
    requires Plain(p) && Plain(q)
    ensures TextBeneath(Join(q), Join(p)) <==> p < q
    ensures Join(p) == Join(q) <==> p == q
  {
    SplitJoin(p);
    SplitJoin(q);
    if TextBeneath(Join(q), Join(p)) {
      var rest := Join(q)[|Join(p)| + 1..];
      assert Join(q) == Join(p) + "/" + rest;
      SplitConcat(Join(p), rest);
    }
    if p < q {
      assert q == p + q[|p|..];
      JoinConcat(p, q[|p|..]);
    }
  }

  lemma PrefixesOfOnePathCompare(p: Path, q: Path, whole: Path)
    requires p <= whole && q <= whole
    ensures Comparable(p, q)
  {
    if |p| <= |q| { assert p == q[..|p|]; } else { assert q == p[..|q|]; }
  }

  // Case folding

  /** Case folding works on single characters and keeps slashes apart from the rest. */
  ghost predicate SafeFold(fold: char -> string) {
    fold('/') == "/" && forall c :: c != '/' ==> fold(c) != "" && NoSlash(fold(c))
  }

  function Fold(fold: char -> string, s: string): string {
    if s == "" then "" else fold(s[0]) + Fold(fold, s[1..])
  }

  function FoldPath(fold: char -> string, p: Path): Path {
    if p == [] then [] else [Fold(fold, p[0])] + FoldPath(fold, p[1..])
  }

  lemma {:induction false} FoldConcat(fold: char -> string, a: string, b: string)
    ensures Fold(fold, a + b) == Fold(fold, a) + Fold(fold, b)
  {
    if a == "" {
      assert a + b == b;
    } else {
      assert (a + b)[1..] == a[1..] + b;
      FoldConcat(fold, a[1..], b);
    }
  }

  lemma {:induction false} FoldSegment(fold: char -> string, s: string)
    requires SafeFold(fold) && NoSlash(s)
    ensures NoSlash(Fold(fold, s)) && (s != "" ==> Fold(fold, s) != "")
  {
    if s != "" {
      assert s[0] in s && forall c :: c in s[1..] ==> c in s;
      FoldSegment(fold, s[1..]);
    }
  }

  /** Folding the text of a path folds its segments. */
  lemma {:induction false} FoldJoin(fold: char -> string, p: Path)
    requires SafeFold(fold) && Plain(p)
    ensures Fold(fold, Join(p)) == Join(FoldPath(fold, p)) && Plain(FoldPath(fold, p))
  {
    assert NoSlash(p[0]);
    FoldSegment(fold, p[0]);
    if |p| > 1 {
      FoldJoin(fold, p[1..]);
      FoldConcat(fold, p[0] + "/", Join(p[1..]));
      FoldConcat(fold, p[0], "/");
      assert Fold(fold, "/") == fold('/') + Fold(fold, "/"[1..]);
      assert FoldPath(fold, p) == [Fold(fold, p[0])] + FoldPath(fold, p[1..]);
    } else {
      assert FoldPath(fold, p) == [Fold(fold, p[0])] + FoldPath(fold, []);
    }
  }

  lemma {:induction false} FoldKeepsPrefix(fold: char -> string, p: Path, q: Path)
    requires p <= q
    ensures FoldPath(fold, p) <= FoldPath(fold, q)
  {
    if p != [] { FoldKeepsPrefix(fold, p[1..], q[1..]); }
  }
}
