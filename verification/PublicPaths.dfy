/** Public route paths (public_paths.py) as an algebra of segment stacks. */
module PublicPaths {
  import opened Paths

  function LStrip(s: string): string {
    if s != "" && s[0] == '/' then LStrip(s[1..]) else s
  }

  function RStrip(s: string): string {
    if s != "" && s[|s| - 1] == '/' then RStrip(s[..|s| - 1]) else s
  }

  /** One component of posixpath.normpath. */
  function Push(rooted: bool, stack: seq<string>, part: string): seq<string> {
    if part == "" || part == "." then stack
    else if part != ".." || (!rooted && stack == []) || (stack != [] && stack[|stack| - 1] == "..") then stack + [part]
    else if stack != [] then stack[..|stack| - 1]
    else stack
  }

  function Resolve(rooted: bool, stack: seq<string>, parts: seq<string>): seq<string>
    decreases |parts|
  {
    if parts == [] then stack else Resolve(rooted, Push(rooted, stack, parts[0]), parts[1..])
  }

  predicate StartsWith(s: string, prefix: string) { prefix <= s }

  function NormPath(path: string): string {
    if path == "" then "."
    else
      var slashes := if !StartsWith(path, "/") then ""
                     else if StartsWith(path, "//") && !StartsWith(path, "///") then "//" else "/";
      var normal := slashes + Join(Resolve(slashes != "", [], Split(path)));
      if normal == "" then "." else normal
  }

  function NormalizePublicPath(path: string, trailingSlash: bool): string {
    var n0 := NormPath(if path == "" then "/" else path);
    var n1 := if StartsWith(n0, "/") then n0 else "/" + n0;
    var n2 := if StartsWith(n1, "//") then "/" + LStrip(n1) else n1;
    var n3 := if n2 != "/" then RStrip(n2) else n2;
    var n4 := if trailingSlash && n3 != "/" then n3 + "/" else n3;
    if n4 == "" then "/" else n4
  }

  function JoinPublicPath(base: string, segment: string, trailingSlash: bool): string {
    var normalBase := NormalizePublicPath(base, false);
    var normalSegment := RStrip(LStrip(segment));
    if normalSegment == "" then NormalizePublicPath(normalBase, trailingSlash)
    else NormalizePublicPath(Append(normalBase, normalSegment), trailingSlash)
  }

  function Append(normalBase: string, normalSegment: string): string {
    if normalBase == "/" then "/" + normalSegment else RStrip(normalBase) + "/" + normalSegment
  }

  // Normal forms

  predicate IsName(part: string) { part != "" && part != "." && part != ".." && NoSlash(part) }

  predicate AllNames(parts: seq<string>) { forall i :: 0 <= i < |parts| ==> IsName(parts[i]) }

  predicate Rooted(path: string) { path == "" || path[0] == '/' }

  function Canonical(names: seq<string>, trailingSlash: bool): string {
    if names == [] then "/" else "/" + Join(names) + (if trailingSlash then "/" else "")
  }

  /** The names a rooted path stands for. */
  function Names(path: string): seq<string> { Resolve(true, [], Split(path)) }

  // Resolving

  /** The stack composes: a path can be resolved piece by piece. */
  lemma {:induction false} ResolveConcat(rooted: bool, stack: seq<string>, a: seq<string>, b: seq<string>)
    ensures Resolve(rooted, stack, a + b) == Resolve(rooted, Resolve(rooted, stack, a), b)
    decreases |a|
  {
    if a == [] {
      assert [] + b == b;
    } else {
      ResolveConcat(rooted, Push(rooted, stack, a[0]), a[1..], b);
      assert (a + b)[1..] == a[1..] + b;
    }
  }

  lemma {:induction false} ResolveNames(rooted: bool, stack: seq<string>, names: seq<string>)
    requires AllNames(names)
    ensures Resolve(rooted, stack, names) == stack + names
    decreases |names|
  {
    if names != [] {
      assert IsName(names[0]);
      ResolveNames(rooted, stack + [names[0]], names[1..]);
      assert stack + [names[0]] + names[1..] == stack + names;
    }
  }

  lemma {:induction false} RootedResolveYieldsNames(stack: seq<string>, parts: seq<string>)
    requires AllNames(stack) && AllSlashFree(parts)
    ensures AllNames(Resolve(true, stack, parts))
    decreases |parts|
  {
    if parts != [] {
      RootedResolveYieldsNames(Push(true, stack, parts[0]), parts[1..]);
    }
  }

  lemma NamesAreNames(path: string)
    ensures AllNames(Names(path))
  {
    SplitHasNoSlashes(path);
    RootedResolveYieldsNames([], Split(path));
  }

  lemma ResolveEmpty(rooted: bool, stack: seq<string>, parts: seq<string>)
    ensures Resolve(rooted, stack, [""] + parts) == Resolve(rooted, stack, parts)
    ensures Resolve(rooted, stack, [""]) == stack
  {
    assert ([""] + parts)[1..] == parts;
    assert Resolve(rooted, stack, [""]) == Resolve(rooted, stack, [""][1..]);
  }

  lemma {:induction false} LStripKeepsResolution(rooted: bool, stack: seq<string>, s: string)
    ensures Resolve(rooted, stack, Split(LStrip(s))) == Resolve(rooted, stack, Split(s))
  {
    if s != "" && s[0] == '/' {
      LStripKeepsResolution(rooted, stack, s[1..]);
      ResolveEmpty(rooted, stack, Split(s[1..]));
    }
  }

  lemma {:induction false} RStripKeepsResolution(rooted: bool, stack: seq<string>, s: string)
    ensures Resolve(rooted, stack, Split(RStrip(s))) == Resolve(rooted, stack, Split(s))
    decreases |s|
  {
    if s != "" && s[|s| - 1] == '/' {
      var front := s[..|s| - 1];
      RStripKeepsResolution(rooted, stack, front);
      assert s == front + "/" + "";
      SplitConcat(front, "");
      ResolveConcat(rooted, stack, Split(front), [""]);
      ResolveEmpty(rooted, Resolve(rooted, stack, Split(front)), []);
    }
  }

  // The algebra

  lemma RStripKeeps(s: string)
    requires s == "" || s[|s| - 1] != '/'
    ensures RStrip(s) == s
  {
  }

  lemma LStripSlashes(s: string)
    requires s == "" || s[0] != '/'
    ensures LStrip("/" + s) == s && LStrip("//" + s) == s
  {
    assert ("/" + s)[1..] == s && ("//" + s)[1..] == "/" + s;
    assert LStrip(s) == s;
  }

  /** The shaping steps after normpath turn slashes followed by names into the normal form. */
  lemma ShapeRooted(slashes: string, names: seq<string>, n0: string)
    requires (slashes == "/" || slashes == "//") && n0 == slashes + Join(names)
    requires AllSegments(names)
    ensures var n2 := if StartsWith(n0, "//") then "/" + LStrip(n0) else n0;
      n2 == Canonical(names, false) && (n2 != "/" ==> RStrip(n2) == n2)
  {
    var j := Join(names);
    if names != [] { JoinEnds(names); }
    assert names == [] ==> j == "";
    LStripSlashes(j);
    assert n0 == "/" + j || n0 == "//" + j;
    if n0 == "/" + j && j != "" { assert n0[1] == j[0]; }
    assert "/" + j + "" == "/" + j;
    if names != [] { RStripKeeps("/" + j); }
  }

  /** Rooted and empty paths have a normal form: names only, and the asked-for slash style. */
  lemma NormalForm(path: string, trailingSlash: bool)
    requires Rooted(path)
    ensures AllNames(Names(path))
    ensures NormalizePublicPath(path, trailingSlash) == Canonical(Names(path), trailingSlash)
  {
    NamesAreNames(path);
    if path == "" {
      ResolveEmpty(true, [], [""]);
      assert Split("/") == [""] + Split("");
      NormalFormOfSlashed("/", trailingSlash);
    } else {
      NormalFormOfSlashed(path, trailingSlash);
    }
  }

  lemma NormalFormOfSlashed(path: string, trailingSlash: bool)
    requires path != "" && path[0] == '/'
    ensures NormalizePublicPath(path, trailingSlash) == Canonical(Names(path), trailingSlash)
  {
    NamesAreNames(path);
    var names := Names(path);
    var slashes := if StartsWith(path, "//") && !StartsWith(path, "///") then "//" else "/";
    assert NormPath(path) == slashes + Join(names);
    ShapeRooted(slashes, names, NormPath(path));
    assert Canonical(names, false) + "/" == Canonical(names, true) || names == [];
  }

  lemma NamesOfCanonical(names: seq<string>, trailingSlash: bool)
    requires AllNames(names)
    ensures Names(Canonical(names, trailingSlash)) == names
  {
    var path := Canonical(names, trailingSlash);
    var bare := Canonical(names, false);
    if names == [] {
      ResolveEmpty(true, [], [""]);
      assert Split("/") == [""] + Split("");
    } else {
      SplitJoin(names);
      assert bare == "" + "/" + Join(names);
      SplitConcat("", Join(names));
      assert Split(bare) == [""] + names;
      assert ([""] + names)[1..] == names;
      ResolveNames(true, [], names);
      JoinEnds(names);
      if trailingSlash {
        RStripKeepsResolution(true, [], path);
        assert path[..|path| - 1] == bare;
        RStripKeeps(bare);
      }
    }
  }

  /** Normalizing is idempotent: only the last slash style matters. */
  lemma NormalizeIdempotent(path: string, inner: bool, outer: bool)
    requires Rooted(path)
    ensures NormalizePublicPath(NormalizePublicPath(path, inner), outer) == NormalizePublicPath(path, outer)
  {
    NormalForm(path, inner);
    NormalForm(path, outer);
    NormalForm(NormalizePublicPath(path, inner), outer);
    NamesOfCanonical(Names(path), inner);
  }

  /** A normal base as a prefix: without its last slash. */
  function Stem(names: seq<string>): string { if names == [] then "" else Canonical(names, false) }

  lemma AppendToStem(names: seq<string>, segment: string)
    requires AllNames(names)
    ensures Append(Canonical(names, false), segment) == Stem(names) + "/" + segment
    ensures Names(Stem(names)) == names
  {
    ResolveEmpty(true, [], []);
    if names != [] {
      JoinEnds(names);
      RStripKeeps(Canonical(names, false));
      NamesOfCanonical(names, false);
    }
  }

  lemma JoinNothing(base: string, segment: string, trailingSlash: bool)
    requires Rooted(base) && RStrip(LStrip(segment)) == ""
    ensures JoinPublicPath(base, segment, trailingSlash) == Canonical(Names(base), trailingSlash)
  {
    NormalForm(base, false);
    NamesOfCanonical(Names(base), false);
    NormalForm(Canonical(Names(base), false), trailingSlash);
  }

  /** Joining resolves the segment on top of the base, whatever slashes surround it. */
  lemma JoinResolves(base: string, segment: string, trailingSlash: bool)
    requires Rooted(base)
    ensures var names := Resolve(true, Names(base), Split(segment));
      AllNames(names) && JoinPublicPath(base, segment, trailingSlash) == Canonical(names, trailingSlash)
  {
    var names := Names(base);
    NamesAreNames(base);
    SplitHasNoSlashes(segment);
    RootedResolveYieldsNames(names, Split(segment));
    LStripKeepsResolution(true, names, segment);
    RStripKeepsResolution(true, names, LStrip(segment));
    var trimmed := RStrip(LStrip(segment));
    if trimmed == "" {
      ResolveEmpty(true, names, []);
      JoinNothing(base, segment, trailingSlash);
    } else {
      AppendToStem(names, trimmed);
      JoinedNames(Stem(names), names, trimmed);
      NormalForm(base, false);
      NormalForm(Stem(names) + "/" + trimmed, trailingSlash);
    }
  }

  lemma JoinedNames(stem: string, names: seq<string>, segment: string)
    requires Names(stem) == names
    ensures Names(stem + "/" + segment) == Resolve(true, names, Split(segment))
  {
    SplitConcat(stem, segment);
    ResolveConcat(true, [], Split(stem), Split(segment));
  }

  /** Joining twice is joining once with the segments put together. */
  lemma JoinAssociates(a: string, b: string, c: string, inner: bool, outer: bool)
    requires Rooted(a)
    ensures JoinPublicPath(JoinPublicPath(a, b, inner), c, outer) == JoinPublicPath(a, b + "/" + c, outer)
  {
    JoinResolves(a, b, inner);
    var names := Resolve(true, Names(a), Split(b));
    NamesOfCanonical(names, inner);
    JoinResolves(JoinPublicPath(a, b, inner), c, outer);
    JoinResolves(a, b + "/" + c, outer);
    SplitConcat(b, c);
    ResolveConcat(true, Names(a), Split(b), Split(c));
  }

  lemma ResolveOne(rooted: bool, stack: seq<string>, part: string)
    ensures Resolve(rooted, stack, [part]) == Push(rooted, stack, part)
  {
    assert [part][1..] == [];
    assert Resolve(rooted, Push(rooted, stack, part), []) == Push(rooted, stack, part);
  }

  function Parent(names: seq<string>): seq<string> { if names == [] then [] else names[..|names| - 1] }

  lemma NamesAbove(base: string)
    ensures Names(base + "/..") == Parent(Names(base))
  {
    var names := Names(base);
    NamesAreNames(base);
    assert NoSlash("..") && base + "/.." == base + "/" + "..";
    SplitConcat(base, "..");
    SplitName("..");
    ResolveConcat(true, [], Split(base), [".."]);
    ResolveOne(true, names, "..");
    assert names != [] ==> IsName(names[|names| - 1]);
  }

  /** A step up takes the last name away, and at the top nothing. */
  lemma StepUp(base: string, trailingSlash: bool)
    requires Rooted(base)
    ensures NormalizePublicPath(base + "/..", trailingSlash) == Canonical(Parent(Names(base)), trailingSlash)
  {
    NamesAbove(base);
    NormalForm(base + "/..", trailingSlash);
  }

  // Relative input

  /** A relative path that names nothing, or climbs above where it starts. */
  predicate Climbs(path: string) {
    var stack := Resolve(false, [], Split(path));
    stack == [] || stack[0] == ".."
  }

  /** A relative stack is some climbing followed by names. */
  ghost predicate RelativeStack(stack: seq<string>) {
    forall i :: 0 <= i < |stack| ==> IsName(stack[i]) || (stack[i] == ".." && forall j :: 0 <= j < i ==> stack[j] == "..")
  }

  lemma {:induction false} ResolveKeepsRelativeStack(stack: seq<string>, parts: seq<string>)
    requires RelativeStack(stack) && AllSlashFree(parts)
    ensures RelativeStack(Resolve(false, stack, parts))
    decreases |parts|
  {
    if parts != [] {
      ResolveKeepsRelativeStack(Push(false, stack, parts[0]), parts[1..]);
    }
  }

  /** What normpath leaves of a relative path. */
  function Shown(path: string): seq<string> {
    var stack := Resolve(false, [], Split(path));
    if stack == [] then ["."] else stack
  }

  lemma ShownSegments(path: string)
    ensures AllSegments(Shown(path)) && (!Climbs(path) ==> AllNames(Shown(path)))
  {
    SplitHasNoSlashes(path);
    ResolveKeepsRelativeStack([], Split(path));
  }

  lemma RelativeNorm(path: string)
    requires !Rooted(path)
    ensures NormPath(path) == Join(Shown(path))
  {
    ShownSegments(path);
    JoinEnds(Shown(path));
    assert Join(Resolve(false, [], Split(path))) == "" <==> Resolve(false, [], Split(path)) == [];
  }

  lemma RelativeForm(path: string, trailingSlash: bool)
    requires !Rooted(path)
    ensures NormalizePublicPath(path, trailingSlash) == Canonical(Shown(path), trailingSlash)
  {
    var shown := Shown(path);
    ShownSegments(path);
    RelativeNorm(path);
    JoinEnds(shown);
    ShapeRooted("/", shown, "/" + Join(shown));
    assert Canonical(shown, false) + "/" == Canonical(shown, true);
  }

  lemma {:induction false} ClimbingResolves(stack: seq<string>, parts: seq<string>)
    requires forall i :: 0 <= i < |stack| ==> stack[i] == ".."
    requires forall i :: 0 <= i < |parts| ==> parts[i] == ".."
    ensures Resolve(false, stack, parts) == stack + parts
    decreases |parts|
  {
    if parts != [] {
      ClimbingResolves(stack + [parts[0]], parts[1..]);
      assert stack + [parts[0]] + parts[1..] == stack + parts;
    }
  }

  lemma ClimbingSegments(ups: seq<string>, names: seq<string>)
    requires (forall i :: 0 <= i < |ups| ==> ups[i] == "..") && AllNames(names)
    ensures Resolve(false, [], ups + names) == ups + names
  {
    ResolveConcat(false, [], ups, names);
    ClimbingResolves([], ups);
    ResolveNames(false, ups, names);
    assert [] + ups == ups;
  }

  lemma ClimbingText(ups: seq<string>, names: seq<string>)
    requires ups != [] && (forall i :: 0 <= i < |ups| ==> ups[i] == "..") && AllNames(names)
    ensures Split(Join(ups + names)) == ups + names && !Rooted(Join(ups + names))
  {
    var parts := ups + names;
    assert NoSlash("..");
    SplitJoin(parts);
    assert parts[0] == ".." && |parts| > 1 ==> Join(parts) == ".." + "/" + Join(parts[1..]);
    assert |parts| == 1 ==> Join(parts) == "..";
  }

  /** A relative path that climbs keeps every step up, and then its names. */
  lemma ClimbingStays(ups: seq<string>, names: seq<string>, trailingSlash: bool)
    requires ups != [] && (forall i :: 0 <= i < |ups| ==> ups[i] == "..") && AllNames(names)
    ensures NormalizePublicPath(Join(ups + names), trailingSlash) == Canonical(ups + names, trailingSlash)
    ensures Climbs(Join(ups + names))
  {
    ClimbingText(ups, names);
    ClimbingSegments(ups, names);
    RelativeForm(Join(ups + names), trailingSlash);
  }

  /** For relative paths normalizing is idempotent exactly when the path does not climb. */
  lemma RelativeNormalization(path: string, trailingSlash: bool)
    requires !Rooted(path)
    ensures var once := NormalizePublicPath(path, trailingSlash);
      NormalizePublicPath(once, trailingSlash) == once <==> !Climbs(path)
  {
    ShownSegments(path);
    RelativeForm(path, trailingSlash);
    var shown := Shown(path);
    var once := Canonical(shown, trailingSlash);
    NormalForm(once, trailingSlash);
    if Climbs(path) {
      if Canonical(Names(once), trailingSlash) == once {
        CanonicalInjective(Names(once), shown, trailingSlash);
      }
    } else {
      NamesOfCanonical(shown, trailingSlash);
    }
  }

  lemma CanonicalInjective(a: seq<string>, b: seq<string>, trailingSlash: bool)
    requires AllSegments(a) && AllSegments(b)
    requires b != [] && Canonical(a, trailingSlash) == Canonical(b, trailingSlash)
    ensures a == b
  {
    JoinEnds(b);
    var tail := if trailingSlash then "/" else "";
    var whole := "/" + Join(b) + tail;
    assert |whole| >= 2;
    assert whole[1..|whole| - |tail|] == Join(b);
    assert whole[1..|whole| - |tail|] == Join(a) by {
      assert whole == "/" + Join(a) + tail;
    }
    SplitJoin(a);
    SplitJoin(b);
  }
}
