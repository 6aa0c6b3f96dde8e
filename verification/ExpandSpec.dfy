/** What a cgroup path pattern should expand to (`ExpandPattern` in `cgroup/reader.go`).

    The cgroup hierarchy is an unchanging set of directories, each named by its segments below the
    root; there are no symbolic links. `path.Match` is a parameter, `glob`. */
module ExpandSpec {
  import opened Wrappers
  import opened Paths

  type Path = seq<string>
  type Tree = set<Path>

  datatype GlobResult = Match | NoMatch | BadPattern
  type Glob = (string, string) -> GlobResult

  datatype ExpandError = RootPattern | MalformedPattern | TooManyMatches

  // A directory's parent is a directory; names are what a file system allows.
  ghost predicate IsTree(tree: Tree) {
    && [] in tree
    && forall d | d in tree && d != [] :: d[..|d| - 1] in tree && IsName(d[|d| - 1])
  }

  ghost predicate IsName(name: string) {
    name != [] && SlashFree(name) && name != "." && name != ".."
  }

  // Opening a path below the root: "." stays, ".." goes up but never above the root.
  function Open(tree: Tree, q: Path): Option<Path> {
    if q == [] then Some([]) else
    match Open(tree, q[..|q| - 1])
    case None => None
    case Some(d) =>
      var name := q[|q| - 1];
      if name == "." then Some(d)
      else if name == ".." then (if d == [] then None else Some(d[..|d| - 1]))
      else if d + [name] in tree then Some(d + [name])
      else None
  }

  function Children(tree: Tree, d: Path): set<string> {
    set q | q in tree && |q| == |d| + 1 && q[..|d|] == d :: q[|d|]
  }

  function ChildrenOf(tree: Tree, q: Path): set<string> {
    match Open(tree, q) case Some(d) => Children(tree, d) case None => {}
  }

  // Some character of the segment is one path.Match treats specially: a star, a question mark or the opening
  // of a character class.
  ghost predicate HasWildcard(seg: string) {
    exists i :: 0 <= i < |seg| && (seg[i] == '*' || seg[i] == '?' || seg[i] == '[')
  }

  // ---------------------------------------------------------------- the declarative reading

  // Segment i of q is what segment i of the pattern allows; a wildcard stands for a child cgroup.
  ghost predicate SegmentAllowed(tree: Tree, glob: Glob, segs: seq<string>, q: Path, i: nat)
    requires i < |segs| == |q|
  {
    if HasWildcard(segs[i]) then q[i] in ChildrenOf(tree, q[..i]) && glob(segs[i], q[i]) == Match else q[i] == segs[i]
  }

  ghost predicate PartialMatch(tree: Tree, glob: Glob, segs: seq<string>, q: Path) {
    |q| == |segs| && forall i: nat | i < |segs| :: SegmentAllowed(tree, glob, segs, q, i)
  }

  // A result: all segments allowed, and the path is a directory.
  ghost predicate FullMatch(tree: Tree, glob: Glob, segs: seq<string>, q: Path) {
    PartialMatch(tree, glob, segs, q) && Open(tree, q).Some?
  }

  // ---------------------------------------------------------------- level by level

  ghost function Level(tree: Tree, glob: Glob, segs: seq<string>): set<Path> {
    if segs == [] then {[]} else
    var prev, seg := Level(tree, glob, segs[..|segs| - 1]), segs[|segs| - 1];
    if HasWildcard(seg) then Matching(tree, glob, prev, seg) else set q | q in prev :: q + [seg]
  }

  ghost function Matching(tree: Tree, glob: Glob, prev: set<Path>, seg: string): set<Path> {
    set q, name | q in prev && name in ChildrenOf(tree, q) && glob(seg, name) == Match :: q + [name]
  }

  // Some child the level is matched against makes path.Match report a malformed pattern.
  ghost predicate Malformed(tree: Tree, glob: Glob, prev: set<Path>, seg: string) {
    exists q, name :: q in prev && name in ChildrenOf(tree, q) && glob(seg, name) == BadPattern
  }

  // The first error of the expansion, if any: at each wildcard, malformed before too many.
  ghost function Failure(tree: Tree, glob: Glob, segs: seq<string>, max: int): Option<ExpandError> {
    if segs == [] then None else
    var front, seg := segs[..|segs| - 1], segs[|segs| - 1];
    var before := Failure(tree, glob, front, max);
    if before.Some? || !HasWildcard(seg) then before
    else if Malformed(tree, glob, Level(tree, glob, front), seg) then Some(MalformedPattern)
    else if max > 0 && |Level(tree, glob, segs)| > max then Some(TooManyMatches)
    else None
  }

  // ---------------------------------------------------------------- the two readings agree

  lemma {:induction false} LevelIsPartialMatch(tree: Tree, glob: Glob, segs: seq<string>, q: Path)
    ensures q in Level(tree, glob, segs) <==> PartialMatch(tree, glob, segs, q)
  {
    if segs != [] {
      var front, seg := segs[..|segs| - 1], segs[|segs| - 1];
      if |q| == |segs| {
        var r, name := q[..|q| - 1], q[|q| - 1];
        assert q == r + [name];
        LevelIsPartialMatch(tree, glob, front, r);
        PartialMatchExtends(tree, glob, segs, q);
        if q in Level(tree, glob, segs) {
          if HasWildcard(seg) {
            var r', name' :| r' in Level(tree, glob, front) && name' in ChildrenOf(tree, r')
                && glob(seg, name') == Match && q == r' + [name'];
            assert r' == r && name' == name;
          } else {
            var r' :| r' in Level(tree, glob, front) && q == r' + [seg];
            assert r' == r && name == seg;
          }
        }
      } else {
        LevelHasLength(tree, glob, segs);
      }
    }
  }

  lemma {:induction false} LevelHasLength(tree: Tree, glob: Glob, segs: seq<string>)
    ensures forall q | q in Level(tree, glob, segs) :: |q| == |segs|
  {
    if segs != [] {
      LevelHasLength(tree, glob, segs[..|segs| - 1]);
    }
  }

  lemma PartialMatchExtends(tree: Tree, glob: Glob, segs: seq<string>, q: Path)
    requires |q| == |segs| > 0
    ensures PartialMatch(tree, glob, segs, q) <==>
            PartialMatch(tree, glob, segs[..|segs| - 1], q[..|q| - 1])
              && SegmentAllowed(tree, glob, segs, q, |segs| - 1)
  {
    var n := |segs| - 1;
    forall i: nat | i < n
      ensures SegmentAllowed(tree, glob, segs, q, i) <==> SegmentAllowed(tree, glob, segs[..n], q[..n], i)
    {
      assert q[..n][..i] == q[..i];
    }
  }

  // ---------------------------------------------------------------- patterns without "." and ".."

  ghost predicate Plain(segs: seq<string>) {
    forall i | 0 <= i < |segs| :: segs[i] != "." && segs[i] != ".."
  }

  lemma {:induction false} OpenPlain(tree: Tree, q: Path)
    requires IsTree(tree) && Plain(q)
    ensures Open(tree, q) == if q in tree then Some(q) else None
  {
    if q != [] {
      OpenPlain(tree, q[..|q| - 1]);
      assert q == q[..|q| - 1] + [q[|q| - 1]];
    }
  }

  lemma ChildIsName(tree: Tree, q: Path, name: string)
    requires IsTree(tree) && name in ChildrenOf(tree, q)
    ensures IsName(name)
  {
  }

  lemma {:induction false} ParentsAreThere(tree: Tree, q: Path, i: nat)
    requires IsTree(tree) && q in tree && i <= |q|
    ensures q[..i] in tree
    decreases |q| - i
  {
    if i == |q| {
      assert q[..i] == q;
    } else {
      ParentsAreThere(tree, q, i + 1);
      assert q[..i + 1][..i] == q[..i];
    }
  }

  lemma PlainSegment(tree: Tree, glob: Glob, segs: seq<string>, q: Path, i: nat)
    requires IsTree(tree) && Plain(segs) && q in tree && i < |q| == |segs| && Plain(q)
    ensures SegmentAllowed(tree, glob, segs, q, i) <==>
            if HasWildcard(segs[i]) then glob(segs[i], q[i]) == Match else q[i] == segs[i]
  {
    ParentsAreThere(tree, q, i);
    ParentsAreThere(tree, q, i + 1);
    OpenPlain(tree, q[..i]);
    assert q[..i + 1][..i] == q[..i] && q[..i + 1][i] == q[i];
    assert q[i] in Children(tree, q[..i]);
  }

  lemma {:induction false} DirectoriesArePlain(tree: Tree, q: Path)
    requires IsTree(tree) && q in tree
    ensures Plain(q)
  {
    forall i | 0 <= i < |q| ensures q[i] != "." && q[i] != ".." {
      ParentsAreThere(tree, q, i + 1);
    }
  }

  // For a pattern without "." and ".." segments, the matches are exactly the existing directories with as
  // many segments as the pattern, where each literal segment is equal and each wildcard segment matches.
  lemma MatchesAreDirectories(tree: Tree, glob: Glob, segs: seq<string>, q: Path)
    requires IsTree(tree) && Plain(segs)
    ensures FullMatch(tree, glob, segs, q) <==>
            && q in tree && |q| == |segs|
            && forall i: nat | i < |segs| ::
               if HasWildcard(segs[i]) then glob(segs[i], q[i]) == Match else q[i] == segs[i]
  {
    if q in tree {
      DirectoriesArePlain(tree, q);
      OpenPlain(tree, q);
      if |q| == |segs| {
        forall i: nat | i < |segs|
          ensures SegmentAllowed(tree, glob, segs, q, i) <==>
                  if HasWildcard(segs[i]) then glob(segs[i], q[i]) == Match else q[i] == segs[i]
        {
          PlainSegment(tree, glob, segs, q, i);
        }
      }
    } else if PartialMatch(tree, glob, segs, q) {
      forall i | 0 <= i < |q| ensures q[i] != "." && q[i] != ".." {
        assert SegmentAllowed(tree, glob, segs, q, i);
        if HasWildcard(segs[i]) { ChildIsName(tree, q[..i], q[i]); }
      }
      OpenPlain(tree, q);
    }
  }

  // ---------------------------------------------------------------- the root

  // How deep below the root a match of the pattern lies: ".." climbs, "." stays.
  function Depth(segs: seq<string>): int {
    if segs == [] then 0 else
    var seg := segs[|segs| - 1];
    Depth(segs[..|segs| - 1]) + (if seg == "." then 0 else if seg == ".." then -1 else 1)
  }

  lemma {:induction false} MatchHasDepth(tree: Tree, glob: Glob, segs: seq<string>, q: Path)
    requires IsTree(tree) && PartialMatch(tree, glob, segs, q)
    ensures match Open(tree, q) case Some(d) => |d| == Depth(segs) case None => true
  {
    if segs != [] {
      var n := |segs| - 1;
      PartialMatchExtends(tree, glob, segs, q);
      MatchHasDepth(tree, glob, segs[..n], q[..n]);
      DotsAreLiteral(tree, glob, segs, q, n);
    }
  }

  lemma DotsAreLiteral(tree: Tree, glob: Glob, segs: seq<string>, q: Path, i: nat)
    requires IsTree(tree) && i < |segs| == |q| && SegmentAllowed(tree, glob, segs, q, i)
    ensures (q[i] == "." <==> segs[i] == ".") && (q[i] == ".." <==> segs[i] == "..")
  {
    assert !HasWildcard(".") && !HasWildcard("..");
    if HasWildcard(segs[i]) {
      ChildIsName(tree, q[..i], q[i]);
    }
  }

  lemma {:induction false} PlainDepth(segs: seq<string>)
    requires Plain(segs)
    ensures Depth(segs) == |segs|
  {
    if segs != [] {
      PlainDepth(segs[..|segs| - 1]);
    }
  }

  // A match opens the root cgroup exactly when the pattern climbs as often as it descends. So a pattern
  // without "." and ".." never yields the root, but "/." and "/*/.." do where they match anything.
  lemma MatchIsRootIff(tree: Tree, glob: Glob, segs: seq<string>, q: Path)
    requires IsTree(tree) && FullMatch(tree, glob, segs, q)
    ensures Open(tree, q) == Some([]) <==> Depth(segs) == 0
    ensures segs != [] && Plain(segs) ==> Open(tree, q) != Some([])
  {
    MatchHasDepth(tree, glob, segs, q);
    if Plain(segs) {
      PlainDepth(segs);
    }
  }

  lemma DotMatchesTheRoot(tree: Tree, glob: Glob)
    requires IsTree(tree)
    ensures FullMatch(tree, glob, ["."], ["."]) && Open(tree, ["."]) == Some([])
  {
    assert Open(tree, []) == Some([]);
  }

  // ---------------------------------------------------------------- the bound

  lemma {:induction false} LiteralKeepsCount(prev: set<Path>, seg: string)
    ensures |set q | q in prev :: q + [seg]| == |prev|
  {
    if prev == {} {
      assert (set q | q in prev :: q + [seg]) == {};
    } else {
      var r :| r in prev;
      LiteralKeepsCount(prev - {r}, seg);
      assert (set q | q in prev :: q + [seg]) == (set q | q in prev - {r} :: q + [seg]) + {r + [seg]};
      forall q | q in prev - {r} ensures q + [seg] != r + [seg] {
        assert (q + [seg])[..|q|] == q && (r + [seg])[..|r|] == r;
      }
    }
  }

  lemma {:induction false} LevelIsBounded(tree: Tree, glob: Glob, segs: seq<string>, max: int)
    requires max > 0 && Failure(tree, glob, segs, max).None?
    ensures |Level(tree, glob, segs)| <= max
  {
    if segs != [] {
      LevelIsBounded(tree, glob, segs[..|segs| - 1], max);
      LiteralKeepsCount(Level(tree, glob, segs[..|segs| - 1]), segs[|segs| - 1]);
    }
  }

  ghost predicate Overflows(tree: Tree, glob: Glob, segs: seq<string>, max: int, k: nat) {
    k < |segs| && HasWildcard(segs[k]) && max > 0 && |Level(tree, glob, segs[..k + 1])| > max
  }

  // Wildcard k is one path.Match rejects, on some child it is matched against.
  ghost predicate Breaks(tree: Tree, glob: Glob, segs: seq<string>, k: nat) {
    k < |segs| && HasWildcard(segs[k]) && Malformed(tree, glob, Level(tree, glob, segs[..k]), segs[k])
  }

  // The first of the errors at the segments below n; a rejected wildcard is noticed before its level is counted.
  ghost function FirstError(tooMany: nat -> bool, rejected: nat -> bool, n: nat): Option<ExpandError> {
    if n == 0 then None else
    var before := FirstError(tooMany, rejected, n - 1);
    if before.Some? then before
    else if rejected(n - 1) then Some(MalformedPattern)
    else if tooMany(n - 1) then Some(TooManyMatches)
    else None
  }

  lemma {:induction false} FirstErrorIff(tooMany: nat -> bool, rejected: nat -> bool, n: nat)
    ensures FirstError(tooMany, rejected, n) == Some(TooManyMatches) <==>
            exists k: nat :: k < n && tooMany(k) && forall j: nat | j <= k :: !rejected(j)
    ensures FirstError(tooMany, rejected, n) == Some(MalformedPattern) <==>
            exists k: nat :: k < n && rejected(k) && forall j: nat | j < k :: !tooMany(j)
    ensures FirstError(tooMany, rejected, n) == None <==>
            forall k: nat | k < n :: !tooMany(k) && !rejected(k)
  {
    if n > 0 {
      FirstErrorIff(tooMany, rejected, n - 1);
    }
  }

  // What the segment after the first n adds.
  lemma FailureStep(tree: Tree, glob: Glob, segs: seq<string>, max: int, n: nat)
    requires n < |segs|
    ensures Failure(tree, glob, segs[..n + 1], max) ==
            var before := Failure(tree, glob, segs[..n], max);
            if before.Some? then before
            else if Breaks(tree, glob, segs, n) then Some(MalformedPattern)
            else if Overflows(tree, glob, segs, max, n) then Some(TooManyMatches)
            else None
  {
    var upto := segs[..n + 1];
    assert upto[..n] == segs[..n] && upto[n] == segs[n] && upto != [];
  }

  ghost function TooManyAt(tree: Tree, glob: Glob, segs: seq<string>, max: int): nat -> bool {
    (k: nat) => Overflows(tree, glob, segs, max, k)
  }

  ghost function RejectedAt(tree: Tree, glob: Glob, segs: seq<string>): nat -> bool {
    (k: nat) => Breaks(tree, glob, segs, k)
  }

  lemma {:induction false} FailureIsFirst(tree: Tree, glob: Glob, segs: seq<string>, max: int, n: nat)
    requires n <= |segs|
    ensures Failure(tree, glob, segs[..n], max)
            == FirstError(TooManyAt(tree, glob, segs, max), RejectedAt(tree, glob, segs), n)
  {
    if n > 0 {
      FailureIsFirst(tree, glob, segs, max, n - 1);
      FailureStep(tree, glob, segs, max, n - 1);
    }
  }

  // Which error an expansion ends in, for any pattern: the limit error exactly when some wildcard level holds
  // more than max partial matches (even if later segments would have dropped them) and no wildcard up to it
  // was rejected; a malformed pattern exactly when a wildcard is rejected with no such level before it.
  lemma FailureIff(tree: Tree, glob: Glob, segs: seq<string>, max: int)
    ensures var failure, tooMany, rejected :=
        Failure(tree, glob, segs, max), TooManyAt(tree, glob, segs, max), RejectedAt(tree, glob, segs);
      && (failure == Some(TooManyMatches) <==> exists k: nat :: tooMany(k) && forall j: nat | j <= k :: !rejected(j))
      && (failure == Some(MalformedPattern) <==> exists k: nat :: rejected(k) && forall j: nat | j < k :: !tooMany(j))
      && (failure == None <==> forall k: nat :: !tooMany(k) && !rejected(k))
  {
    FailureIsFirst(tree, glob, segs, max, |segs|);
    assert segs[..|segs|] == segs;
    FirstErrorIff(TooManyAt(tree, glob, segs, max), RejectedAt(tree, glob, segs), |segs|);
  }

  // When no wildcard of the pattern is rejected, the limit error occurs exactly when some wildcard level
  // holds more than max partial matches.
  lemma TooManyIff(tree: Tree, glob: Glob, segs: seq<string>, max: int)
    requires forall k: nat | k < |segs| && HasWildcard(segs[k]) ::
             !Malformed(tree, glob, Level(tree, glob, segs[..k]), segs[k])
    ensures Failure(tree, glob, segs, max) ==
            if exists k: nat :: Overflows(tree, glob, segs, max, k) then Some(TooManyMatches) else None
  {
    FailureIff(tree, glob, segs, max);
    var tooMany, rejected := TooManyAt(tree, glob, segs, max), RejectedAt(tree, glob, segs);
    assert forall k: nat :: !rejected(k);
    if k: nat :| Overflows(tree, glob, segs, max, k) {
      assert tooMany(k);
    }
  }
}
