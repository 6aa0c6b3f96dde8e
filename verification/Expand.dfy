/** `ExpandPattern` and `childDirs` of `cgroup/reader.go` as they are written: a breadth-first expansion
    that rewrites a list of path strings segment by segment. */
module Expand {
  import opened Wrappers
  import opened Collections
  import opened Paths
  import opened ExpandSpec

  ghost predicate Paired(p: string, q: Path) {
    Clean(q) && p == Render(q)
  }

  ghost predicate AllPaired(paths: seq<string>, qs: seq<Path>) {
    |paths| == |qs| && forall i | 0 <= i < |qs| :: Paired(paths[i], qs[i])
  }

  // paths lists, rendered, every element of the level once; qs names them in the same order.
  ghost predicate Lists(paths: seq<string>, qs: seq<Path>, level: set<Path>) {
    Ordering(qs, level) && AllPaired(paths, qs)
  }

  lemma SameElements<T(!new)>(a: seq<T>, b: seq<T>, keys: set<T>)
    requires Ordering(a, keys) && multiset(a) == multiset(b)
    ensures Ordering(b, keys)
  {
    OrderingCounts(a, keys);
    forall x ensures x in b <==> x in keys {
      assert x in b <==> x in multiset(b);
    }
    forall i, j | 0 <= i < j < |b| ensures b[i] != b[j] {
      assert b == b[..i] + [b[i]] + b[i + 1..j] + [b[j]] + b[j + 1..];
      assert multiset(b)[b[i]] <= 1;
    }
  }

  method ChildDirs(tree: Tree, cgroupPath: string) returns (names: Option<seq<string>>)
    ensures names.Some? <==> Open(tree, Segments(cgroupPath)).Some?
    ensures names.Some? ==> Sorted(names.value) && Ordering(names.value, ChildrenOf(tree, Segments(cgroupPath)))
  {
    var d := Open(tree, Segments(cgroupPath));
    if d.None? {
      return None;
    }
    var entries := ListSet(Children(tree, d.value));
    var sorted := SortStrings(entries);
    SameElements(entries, sorted, Children(tree, d.value));
    return Some(sorted);
  }

  // A segment with no wildcard is appended to every path, unchecked.
  method AppendLiteral(paths: seq<string>, seg: string) returns (r: seq<string>)
    ensures |r| == |paths| && forall i | 0 <= i < |paths| :: r[i] == paths[i] + ['/'] + seg
  {
    r := paths;
    for i := 0 to |paths|
      invariant |r| == |paths|
      invariant forall k | 0 <= k < |paths| :: r[k] == if k < i then paths[k] + ['/'] + seg else paths[k]
    {
      r := r[i := r[i] + ['/'] + seg];
    }
  }

  ghost function Extend(q: Path, names: seq<string>): seq<Path> {
    seq(|names|, i requires 0 <= i < |names| => q + [names[i]])
  }

  ghost function Matched(tree: Tree, glob: Glob, q: Path, seg: string): set<string> {
    set name | name in ChildrenOf(tree, q) && glob(seg, name) == Match
  }

  ghost function Joined(p: string, names: seq<string>): seq<string> {
    seq(|names|, i requires 0 <= i < |names| => p + ['/'] + names[i])
  }

  lemma JoinedAppends(p: string, names: seq<string>, name: string)
    ensures Joined(p, names + [name]) == Joined(p, names) + [p + ['/'] + name]
  {
  }

  // The children of one path against one wildcard segment.
  method MatchChildren(tree: Tree, glob: Glob, p: string, seg: string, soFar: seq<string>)
    returns (next: seq<string>, malformed: bool, ghost found: seq<string>)
    ensures malformed <==> exists name :: name in ChildrenOf(tree, Segments(p)) && glob(seg, name) == BadPattern
    ensures !malformed ==>
      && Ordering(found, Matched(tree, glob, Segments(p), seg))
      && next == soFar + Joined(p, found)
  {
    next, malformed, found := soFar, false, [];
    var children := ChildDirs(tree, p);
    if children.None? {
      return;
    }
    var names := children.value;
    for i := 0 to |names|
      invariant forall k | 0 <= k < i :: glob(seg, names[k]) != BadPattern
      invariant forall name :: name in found <==> name in names[..i] && glob(seg, name) == Match
      invariant forall a, b | 0 <= a < b < |found| :: found[a] != found[b]
      invariant next == soFar + Joined(p, found)
    {
      var child := names[i];
      assert child in names;
      match glob(seg, child)
      case BadPattern =>
        malformed := true;
        return;
      case Match =>
        assert child !in names[..i];
        JoinedAppends(p, found, child);
        next, found := next + [p + ['/'] + child], found + [child];
      case NoMatch =>
    }
    assert names[..|names|] == names;
  }

  lemma OrderingAppends<T(!new)>(a: seq<T>, s: set<T>, b: seq<T>, t: set<T>)
    requires Ordering(a, s) && Ordering(b, t) && s !! t
    ensures Ordering(a + b, s + t)
  {
    forall i, j | 0 <= i < j < |a + b| ensures (a + b)[i] != (a + b)[j] {
      if i < |a| <= j {
        assert (a + b)[i] in a && (a + b)[j] == b[j - |a|] && b[j - |a|] in b;
      }
    }
  }

  ghost function Front(qs: seq<Path>, i: nat): set<Path>
    requires i <= |qs|
  {
    set q | q in qs[..i]
  }

  lemma MatchingGrows(tree: Tree, glob: Glob, qs: seq<Path>, i: nat, seg: string, ns: seq<Path>, found: seq<string>)
    requires i < |qs| && qs[i] !in qs[..i]
    requires Ordering(ns, Matching(tree, glob, Front(qs, i), seg))
    requires Ordering(found, Matched(tree, glob, qs[i], seg))
    ensures Ordering(ns + Extend(qs[i], found), Matching(tree, glob, Front(qs, i + 1), seg))
  {
    var q := qs[i];
    var kept := Matching(tree, glob, Front(qs, i), seg);
    var added := set name | name in Matched(tree, glob, q, seg) :: q + [name];
    assert qs[..i + 1] == qs[..i] + [q];
    assert Front(qs, i + 1) == Front(qs, i) + {q};
    assert Matching(tree, glob, Front(qs, i + 1), seg) == kept + added;
    forall r | r in kept ensures r !in added {
      var r', name' :| r' in Front(qs, i) && name' in ChildrenOf(tree, r') && glob(seg, name') == Match
          && r == r' + [name'];
      assert r[..|r| - 1] == r' && r' != q;
      forall name ensures q + [name] != r { assert (q + [name])[..|q|] == q; }
    }
    ExtendLists(q, found, Matched(tree, glob, q, seg));
    OrderingAppends(ns, kept, Extend(q, found), added);
  }

  lemma ExtendLists(q: Path, found: seq<string>, names: set<string>)
    requires Ordering(found, names)
    ensures Ordering(Extend(q, found), set name | name in names :: q + [name])
  {
    var e := Extend(q, found);
    forall i | 0 <= i < |e| ensures e[i] in (set name | name in names :: q + [name]) {
      assert found[i] in found;
    }
    forall name | name in names ensures q + [name] in e {
      var i :| 0 <= i < |found| && found[i] == name;
      assert e[i] == q + [name];
    }
    forall i, j | 0 <= i < j < |e| ensures e[i] != e[j] {
      assert e[i][|q|] == found[i] && e[j][|q|] == found[j];
    }
  }

  // No child of the first i paths makes path.Match report a malformed pattern.
  ghost predicate WellFormedUpTo(tree: Tree, glob: Glob, qs: seq<Path>, i: nat, seg: string) {
    i <= |qs| && forall k, name | 0 <= k < i && name in ChildrenOf(tree, qs[k]) :: glob(seg, name) != BadPattern
  }

  // One path of the level.
  method ExpandOne(tree: Tree, glob: Glob, p: string, seg: string, sofar: seq<string>, ghost ns: seq<Path>,
                   ghost qs: seq<Path>, ghost i: nat, ghost level: set<Path>)
    returns (next: seq<string>, malformed: bool, ghost ns2: seq<Path>)
    requires IsTree(tree) && Ordering(qs, level) && i < |qs| && Paired(p, qs[i])
    requires Lists(sofar, ns, Matching(tree, glob, Front(qs, i), seg)) && WellFormedUpTo(tree, glob, qs, i, seg)
    ensures malformed ==> Malformed(tree, glob, level, seg)
    ensures !malformed ==>
            Lists(next, ns2, Matching(tree, glob, Front(qs, i + 1), seg)) && WellFormedUpTo(tree, glob, qs, i + 1, seg)
  {
    SegmentsOfRender(qs[i]);
    ghost var found;
    next, malformed, found := MatchChildren(tree, glob, p, seg, sofar);
    ns2 := ns;
    if malformed {
      MalformedAt(tree, glob, qs, level, i, seg);
      return;
    }
    MatchingGrows(tree, glob, qs, i, seg, ns, found);
    ExtendPairs(tree, glob, p, qs[i], seg, found);
    PairsAppend(sofar, ns, Joined(p, found), Extend(qs[i], found));
    ns2 := ns + Extend(qs[i], found);
  }

  // One wildcard segment against every path.
  method ExpandLevel(tree: Tree, glob: Glob, paths: seq<string>, seg: string, ghost qs: seq<Path>,
                     ghost level: set<Path>)
    returns (next: seq<string>, malformed: bool, ghost ns: seq<Path>)
    requires IsTree(tree) && Lists(paths, qs, level)
    ensures malformed <==> Malformed(tree, glob, level, seg)
    ensures !malformed ==> Lists(next, ns, Matching(tree, glob, level, seg))
  {
    next, malformed, ns := [], false, [];
    for i := 0 to |paths|
      invariant Lists(next, ns, Matching(tree, glob, Front(qs, i), seg))
      invariant WellFormedUpTo(tree, glob, qs, i, seg)
    {
      assert Paired(paths[i], qs[i]);
      next, malformed, ns := ExpandOne(tree, glob, paths[i], seg, next, ns, qs, i, level);
      if malformed {
        return;
      }
    }
    WellFormedAll(tree, glob, qs, level, seg);
  }

  lemma MalformedAt(tree: Tree, glob: Glob, qs: seq<Path>, level: set<Path>, i: nat, seg: string)
    requires Ordering(qs, level) && i < |qs|
    requires exists name :: name in ChildrenOf(tree, qs[i]) && glob(seg, name) == BadPattern
    ensures Malformed(tree, glob, level, seg)
  {
    assert qs[i] in qs;
  }

  lemma WellFormedAll(tree: Tree, glob: Glob, qs: seq<Path>, level: set<Path>, seg: string)
    requires Ordering(qs, level)
    requires WellFormedUpTo(tree, glob, qs, |qs|, seg)
    ensures Front(qs, |qs|) == level && !Malformed(tree, glob, level, seg)
  {
    assert qs[..|qs|] == qs;
    forall q, name | q in level && name in ChildrenOf(tree, q) ensures glob(seg, name) != BadPattern {
      assert q in qs;
    }
  }

  lemma PairsAppend(a: seq<string>, x: seq<Path>, b: seq<string>, y: seq<Path>)
    requires AllPaired(a, x) && AllPaired(b, y)
    ensures AllPaired(a + b, x + y)
  {
  }

  lemma ExtendPairs(tree: Tree, glob: Glob, p: string, q: Path, seg: string, found: seq<string>)
    requires IsTree(tree) && Paired(p, q) && Ordering(found, Matched(tree, glob, q, seg))
    ensures AllPaired(Joined(p, found), Extend(q, found))
  {
    forall i | 0 <= i < |found| ensures Paired(p + ['/'] + found[i], q + [found[i]]) {
      assert found[i] in found;
      ChildIsName(tree, q, found[i]);
      PairExtends(p, q, found[i]);
    }
  }

  lemma PairExtends(p: string, q: Path, name: string)
    requires Paired(p, q) && name != [] && SlashFree(name)
    ensures Paired(p + ['/'] + name, q + [name])
  {
    RenderAppends(q, name);
  }

  lemma RenderAppends(q: Path, name: string)
    ensures Render(q + [name]) == Render(q) + ['/'] + name
  {
    assert (q + [name])[..|q|] == q;
  }

  ghost function AllWith(qs: seq<Path>, seg: string): seq<Path> {
    seq(|qs|, i requires 0 <= i < |qs| => qs[i] + [seg])
  }

  lemma LiteralPairs(paths: seq<string>, r: seq<string>, qs: seq<Path>, seg: string)
    requires AllPaired(paths, qs) && seg != [] && SlashFree(seg)
    requires |r| == |paths| && forall i | 0 <= i < |paths| :: r[i] == paths[i] + ['/'] + seg
    ensures AllPaired(r, AllWith(qs, seg))
  {
    forall i | 0 <= i < |qs| ensures Paired(r[i], qs[i] + [seg]) {
      PairExtends(paths[i], qs[i], seg);
    }
  }

  lemma LiteralOrdering(qs: seq<Path>, level: set<Path>, seg: string)
    requires Ordering(qs, level)
    ensures Ordering(AllWith(qs, seg), set q | q in level :: q + [seg])
  {
    var ns := AllWith(qs, seg);
    forall i | 0 <= i < |ns| ensures ns[i] in (set q | q in level :: q + [seg]) {
      assert qs[i] in qs;
    }
    forall q | q in level ensures q + [seg] in ns {
      var i :| 0 <= i < |qs| && qs[i] == q;
      assert ns[i] == q + [seg];
    }
    forall i, j | 0 <= i < j < |ns| ensures ns[i] != ns[j] {
      assert ns[i][..|qs[i]|] == qs[i] && ns[j][..|qs[j]|] == qs[j];
    }
  }

  // out lists once, rendered, the paths of the level that are directories.
  ghost predicate KeepsDirs(tree: Tree, level: set<Path>, out: seq<string>) {
    && (forall i, j | 0 <= i < j < |out| :: out[i] != out[j])
    && forall p :: p in out <==> exists q :: q in level && Open(tree, q).Some? && p == Render(q)
  }

  // The paths that exist, as directories.
  method KeepDirs(tree: Tree, paths: seq<string>, ghost qs: seq<Path>, ghost level: set<Path>)
    returns (out: seq<string>)
    requires Lists(paths, qs, level)
    ensures |out| <= |level| && KeepsDirs(tree, level, out)
  {
    out := [];
    for i := 0 to |paths|
      invariant |out| <= i
      invariant forall p :: p in out <==> exists k :: 0 <= k < i && Open(tree, qs[k]).Some? && p == Render(qs[k])
      invariant forall a, b | 0 <= a < b < |out| :: out[a] != out[b]
    {
      assert Paired(paths[i], qs[i]);
      SegmentsOfRender(qs[i]);
      if Open(tree, Segments(paths[i])).Some? {
        forall k | 0 <= k < i ensures Render(qs[k]) != paths[i] {
          assert Paired(paths[k], qs[k]) && qs[k] != qs[i];
          SegmentsOfRender(qs[k]);
        }
        assert paths[i] !in out;
        out := out + [paths[i]];
      }
    }
    KeptAll(tree, qs, level, out);
  }

  lemma KeptAll(tree: Tree, qs: seq<Path>, level: set<Path>, out: seq<string>)
    requires Ordering(qs, level)
    requires forall p :: p in out <==> exists k :: 0 <= k < |qs| && Open(tree, qs[k]).Some? && p == Render(qs[k])
    ensures |qs| == |level|
    ensures forall p :: p in out <==> exists q :: q in level && Open(tree, q).Some? && p == Render(q)
  {
    OrderingCounts(qs, level);
    assert |qs| == |multiset(qs)| == |multiset(level)| == |level|;
    forall p ensures p in out <==> exists q :: q in level && Open(tree, q).Some? && p == Render(q) {
      if q :| q in level && Open(tree, q).Some? && p == Render(q) {
        assert q in qs;
      }
      if p in out {
        var k :| 0 <= k < |qs| && Open(tree, qs[k]).Some? && p == Render(qs[k]);
        assert qs[k] in qs;
      }
    }
  }

  // A successful expansion lists exactly the matches, rendered, in strict order.
  ghost predicate IsExpansion(tree: Tree, glob: Glob, segs: seq<string>, out: seq<string>) {
    && StrictlySorted(out)
    && forall p :: p in out <==> exists q :: FullMatch(tree, glob, segs, q) && p == Render(q)
  }

  // The root cgroup is in an expansion exactly when it is not empty and the pattern climbs as often as it descends.
  lemma RootIsExpandedIff(tree: Tree, glob: Glob, segs: seq<string>, out: seq<string>)
    requires IsTree(tree) && Clean(segs) && IsExpansion(tree, glob, segs, out)
    ensures (exists p :: p in out && Open(tree, Segments(p)) == Some([])) <==> out != [] && Depth(segs) == 0
    ensures segs != [] && Plain(segs) ==> forall p | p in out :: Open(tree, Segments(p)) != Some([])
  {
    forall p | p in out
      ensures Open(tree, Segments(p)) == Some([]) <==> Depth(segs) == 0
      ensures segs != [] && Plain(segs) ==> Open(tree, Segments(p)) != Some([])
    {
      var q :| FullMatch(tree, glob, segs, q) && p == Render(q);
      MatchIsClean(tree, glob, segs, q);
      SegmentsOfRender(q);
      MatchIsRootIff(tree, glob, segs, q);
    }
    if out != [] { assert out[0] in out; }
  }

  // The directory q is what the pattern describes, segment by segment.
  ghost predicate Described(tree: Tree, glob: Glob, segs: seq<string>, q: Path) {
    && q in tree && |q| == |segs|
    && forall i: nat | i < |segs| ::
         if exists j :: 0 <= j < |segs[i]| && segs[i][j] in {'*', '?', '['}
         then glob(segs[i], q[i]) == Match else q[i] == segs[i]
  }

  // Without "." and "..", an expansion lists exactly the directories that the pattern describes.
  lemma ExpandsToDirectories(tree: Tree, glob: Glob, segs: seq<string>, out: seq<string>)
    requires IsTree(tree) && Plain(segs) && IsExpansion(tree, glob, segs, out)
    ensures forall p :: p in out <==> exists q :: Described(tree, glob, segs, q) && p == Render(q)
  {
    forall q ensures FullMatch(tree, glob, segs, q) <==> Described(tree, glob, segs, q) {
      MatchesAreDirectories(tree, glob, segs, q);
      forall i: nat | i < |segs|
        ensures HasWildcard(segs[i]) <==> exists j :: 0 <= j < |segs[i]| && segs[i][j] in {'*', '?', '['}
      {
      }
    }
  }

  lemma MatchIsClean(tree: Tree, glob: Glob, segs: seq<string>, q: Path)
    requires IsTree(tree) && Clean(segs) && PartialMatch(tree, glob, segs, q)
    ensures Clean(q)
  {
    forall i | 0 <= i < |q| ensures q[i] != [] && SlashFree(q[i]) {
      assert SegmentAllowed(tree, glob, segs, q, i);
      if HasWildcard(segs[i]) { ChildIsName(tree, q[..i], q[i]); }
    }
  }

  // strings.ContainsAny(seg, "*?[")
  predicate Wild(seg: string) {
    '*' in seg || '?' in seg || '[' in seg
  }

  lemma WildIsHasWildcard(seg: string)
    ensures Wild(seg) <==> HasWildcard(seg)
  {
  }

  // The body of the loop over segments; segs ends with the segment being expanded.
  method ExpandSegment(tree: Tree, glob: Glob, segs: seq<string>, paths: seq<string>, ghost qs: seq<Path>, max: int)
    returns (r: Result<seq<string>, ExpandError>, ghost ns: seq<Path>)
    requires IsTree(tree) && segs != [] && segs[|segs| - 1] != [] && SlashFree(segs[|segs| - 1])
    requires Failure(tree, glob, segs[..|segs| - 1], max).None?
    requires Lists(paths, qs, Level(tree, glob, segs[..|segs| - 1]))
    ensures match Failure(tree, glob, segs, max)
            case Some(e) => r == Err(e)
            case None => r.Ok? && Lists(r.value, ns, Level(tree, glob, segs))
  {
    var seg := segs[|segs| - 1];
    ghost var prev := Level(tree, glob, segs[..|segs| - 1]);
    ns := [];
    WildIsHasWildcard(seg);
    if !Wild(seg) {
      var longer := AppendLiteral(paths, seg);
      LiteralPairs(paths, longer, qs, seg);
      LiteralOrdering(qs, prev, seg);
      ns := AllWith(qs, seg);
      return Ok(longer), ns;
    }
    var next, malformed;
    next, malformed, ns := ExpandLevel(tree, glob, paths, seg, qs, prev);
    if malformed {
      return Err(MalformedPattern), ns;
    }
    OrderingCounts(ns, Level(tree, glob, segs));
    assert |next| == |multiset(ns)| == |Level(tree, glob, segs)|;
    if max > 0 && |next| > max {
      return Err(TooManyMatches), ns;
    }
    return Ok(next), ns;
  }

  method ExpandPattern(tree: Tree, glob: Glob, pattern: string, max: int) returns (r: Result<seq<string>, ExpandError>)
    requires IsTree(tree)
    ensures Segments(pattern) == [] <==> r == Err(RootPattern)
    ensures Segments(pattern) != [] ==>
      match Failure(tree, glob, Segments(pattern), max)
      case Some(e) => r == Err(e)
      case None => r.Ok? && IsExpansion(tree, glob, Segments(pattern), r.value) && (max > 0 ==> |r.value| <= max)
  {
    var segments := Segments(pattern);
    FailureIsNotRoot(tree, glob, segments, max);
    if |segments| == 0 {
      return Err(RootPattern);
    }
    SegmentsAreClean(pattern);
    ghost var qs;
    r, qs := ExpandSegments(tree, glob, segments, max);
    if r.Ok? {
      var out := Finish(tree, glob, segments, r.value, qs, max);
      return Ok(out);
    }
  }

  // The loop over the segments.
  method ExpandSegments(tree: Tree, glob: Glob, segments: seq<string>, max: int)
    returns (r: Result<seq<string>, ExpandError>, ghost qs: seq<Path>)
    requires IsTree(tree) && Clean(segments)
    ensures match Failure(tree, glob, segments, max)
            case Some(e) => r == Err(e)
            case None => r.Ok? && Lists(r.value, qs, Level(tree, glob, segments))
  {
    var paths: seq<string> := [""];
    qs := [[]];
    for i := 0 to |segments|
      invariant Lists(paths, qs, Level(tree, glob, segments[..i]))
      invariant Failure(tree, glob, segments[..i], max).None?
    {
      assert segments[..i + 1][..i] == segments[..i] && segments[..i + 1][i] == segments[i];
      FailureStays(tree, glob, segments, i + 1, max);
      r, qs := ExpandSegment(tree, glob, segments[..i + 1], paths, qs, max);
      if r.Err? {
        return;
      }
      paths := r.value;
    }
    assert segments[..|segments|] == segments;
    r := Ok(paths);
  }

  // The last loop, and the sort.
  method Finish(tree: Tree, glob: Glob, segs: seq<string>, paths: seq<string>, ghost qs: seq<Path>, max: int)
    returns (sorted: seq<string>)
    requires Lists(paths, qs, Level(tree, glob, segs)) && Failure(tree, glob, segs, max).None?
    ensures IsExpansion(tree, glob, segs, sorted) && (max > 0 ==> |sorted| <= max)
  {
    var out := KeepDirs(tree, paths, qs, Level(tree, glob, segs));
    if max > 0 { LevelIsBounded(tree, glob, segs, max); }
    sorted := SortStrings(out);
    Delivered(tree, glob, segs, out, sorted);
  }

  lemma {:induction false} FailureIsNotRoot(tree: Tree, glob: Glob, segs: seq<string>, max: int)
    ensures Failure(tree, glob, segs, max) != Some(RootPattern)
  {
    if segs != [] {
      FailureIsNotRoot(tree, glob, segs[..|segs| - 1], max);
    }
  }

  // The first failure is the failure.
  lemma {:induction false} FailureStays(tree: Tree, glob: Glob, segs: seq<string>, i: nat, max: int)
    requires i <= |segs|
    ensures Failure(tree, glob, segs[..i], max).Some? ==>
            Failure(tree, glob, segs, max) == Failure(tree, glob, segs[..i], max)
    decreases |segs|
  {
    if i == |segs| {
      assert segs[..i] == segs;
    } else {
      var front := segs[..|segs| - 1];
      assert front[..i] == segs[..i];
      FailureStays(tree, glob, front, i, max);
    }
  }

  lemma Delivered(tree: Tree, glob: Glob, segs: seq<string>, out: seq<string>, sorted: seq<string>)
    requires KeepsDirs(tree, Level(tree, glob, segs), out)
    requires Sorted(sorted) && multiset(sorted) == multiset(out)
    ensures IsExpansion(tree, glob, segs, sorted) && |sorted| == |out|
  {
    var keys := set p | p in out;
    SameElements(out, sorted, keys);
    assert |sorted| == |multiset(sorted)| == |multiset(out)| == |out|;
    forall p ensures p in sorted <==> exists q :: FullMatch(tree, glob, segs, q) && p == Render(q) {
      assert p in sorted <==> p in out;
      if q :| FullMatch(tree, glob, segs, q) && p == Render(q) {
        LevelIsPartialMatch(tree, glob, segs, q);
      }
      if q :| q in Level(tree, glob, segs) && Open(tree, q).Some? && p == Render(q) {
        LevelIsPartialMatch(tree, glob, segs, q);
      }
    }
  }
}
