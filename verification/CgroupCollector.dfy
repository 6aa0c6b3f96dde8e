/** `collectGroup` and `collectPaths` of `collector/cgroup_collector.go`: which cgroups are read in a
    scrape, and what the two counters of skipped groups and dropped patterns count. What is read from a
    cgroup, and the metrics made of it, are not part of this model: a `Reading` stands for them. */
module CgroupCollection {
  import opened Collections
  import opened Paths
  import opened ExpandSpec
  import opened Reports
  import opened GroupSpec
  import GS = GrouperSpec
  import E = Expand

  // One call of collectOne: the label the metrics carry, and the cgroup they are read from.
  datatype Reading = OfGroup(gname: string, path: string) | OfPath(path: string)

  function Conflicting(groups: map<string, Group>): set<string> {
    set gname | gname in groups && groups[gname].cgroupV2Conflict
  }

  // The readings due for the groups: those with one resolved cgroup that is not the root.
  function GroupReadings(groups: map<string, Group>): set<Reading> {
    set gname | gname in groups && Readable(groups[gname]) :: OfGroup(gname, groups[gname].cgroupV2Path)
  }

  predicate Readable(g: Group) {
    !g.cgroupV2Conflict && g.cgroupV2Path != "" && g.cgroupV2Path != "/"
  }

  // The pattern cannot be expanded in this tree within the limit.
  ghost predicate Fails(tree: Tree, glob: Glob, pattern: string, max: int) {
    Segments(pattern) == [] || Failure(tree, glob, Segments(pattern), max).Some?
  }

  ghost function Failed(tree: Tree, glob: Glob, patterns: seq<string>, max: int): nat {
    if patterns == [] then 0 else
    Failed(tree, glob, patterns[..|patterns| - 1], max)
      + (if Fails(tree, glob, patterns[|patterns| - 1], max) then 1 else 0)
  }

  // The readings of one pattern: nothing at all when it fails, otherwise every match once, in order.
  ghost predicate ReadsPattern(tree: Tree, glob: Glob, pattern: string, max: int, rs: seq<Reading>) {
    if Fails(tree, glob, pattern, max) then rs == []
    else exists paths :: E.IsExpansion(tree, glob, Segments(pattern), paths) && rs == PathReadings(paths)
  }

  ghost predicate ReadsEach(tree: Tree, glob: Glob, patterns: seq<string>, max: int, parts: seq<seq<Reading>>) {
    |parts| == |patterns| && forall i | 0 <= i < |patterns| :: ReadsPattern(tree, glob, patterns[i], max, parts[i])
  }

  lemma ReadsOneMore(tree: Tree, glob: Glob, patterns: seq<string>, max: int, parts: seq<seq<Reading>>,
                     part: seq<Reading>)
    requires patterns != [] && ReadsEach(tree, glob, patterns[..|patterns| - 1], max, parts)
    requires ReadsPattern(tree, glob, patterns[|patterns| - 1], max, part)
    ensures ReadsEach(tree, glob, patterns, max, parts + [part])
  {
    forall i | 0 <= i < |patterns| ensures ReadsPattern(tree, glob, patterns[i], max, (parts + [part])[i]) {
      if i < |parts| { assert ReadsPattern(tree, glob, patterns[..|patterns| - 1][i], max, parts[i]); }
    }
  }

  function PathReadings(paths: seq<string>): seq<Reading> {
    seq(|paths|, i requires 0 <= i < |paths| => OfPath(paths[i]))
  }

  function Flatten(parts: seq<seq<Reading>>): seq<Reading> {
    if parts == [] then [] else Flatten(parts[..|parts| - 1]) + parts[|parts| - 1]
  }

  function Conflicts(groups: map<string, Group>): int {
    |Conflicting(groups)|
  }

  lemma OneMorePattern(tree: Tree, glob: Glob, patterns: seq<string>, i: nat, max: int, parts: seq<seq<Reading>>,
                       part: seq<Reading>)
    requires i < |patterns| && ReadsEach(tree, glob, patterns[..i], max, parts)
    requires ReadsPattern(tree, glob, patterns[i], max, part)
    ensures ReadsEach(tree, glob, patterns[..i + 1], max, parts + [part])
    ensures Flatten(parts + [part]) == Flatten(parts) + part
    ensures Failed(tree, glob, patterns[..i + 1], max) ==
            Failed(tree, glob, patterns[..i], max) + (if Fails(tree, glob, patterns[i], max) then 1 else 0)
  {
    assert patterns[..i + 1][..i] == patterns[..i];
    ReadsOneMore(tree, glob, patterns[..i + 1], max, parts, part);
    assert (parts + [part])[..|parts|] == parts;
  }

  // path.Match is the same function throughout; the hierarchy and the groups change from scrape to scrape.
  class CgroupCollector {
    const glob: Glob
    const paths: seq<string>
    const maxPaths: int
    var skipped: nat
    var patternDropped: nat

    // The groups and the hierarchy of every scrape so far.
    ghost var scraped: seq<map<string, Group>>
    ghost var trees: seq<Tree>

    ghost function Drops(): Tree -> int {
      tree => Failed(tree, glob, paths, maxPaths)
    }

    // Over all scrapes so far: skipped counts the groups with differing paths, patternDropped the
    // expansions that failed.
    ghost predicate Valid()
      reads this
    {
      skipped == SumOf(scraped, Conflicts) && patternDropped == SumOf(trees, Drops())
    }

    // A limit of 0 in the configuration means the default, 200.
    constructor (glob: Glob, paths: seq<string>, configuredMax: int)
      ensures this.glob == glob && this.paths == paths
      ensures maxPaths == if configuredMax == 0 then 200 else configuredMax
      ensures Valid() && scraped == [] && trees == []
    {
      this.glob := glob;
      this.paths := paths;
      this.maxPaths := if configuredMax == 0 then 200 else configuredMax;
      skipped := 0;
      patternDropped := 0;
      scraped := [];
      trees := [];
    }

    // The two counters as a scrape sends them.
    method CollectSummary() returns (skippedGroups: nat, droppedPatterns: nat)
      requires Valid()
      ensures skippedGroups == SumOf(scraped, Conflicts)
      ensures droppedPatterns == SumOf(trees, Drops())
    {
      return skipped, patternDropped;
    }

    method CollectGroup(gname: string, group: Group) returns (rs: seq<Reading>)
      modifies this`skipped
      ensures skipped == old(skipped) + (if group.cgroupV2Conflict then 1 else 0)
      ensures rs == if Readable(group) then [OfGroup(gname, group.cgroupV2Path)] else []
    {
      rs := [];
      if group.cgroupV2Conflict {
        skipped := skipped + 1;
        return;
      }
      if group.cgroupV2Path == "" || group.cgroupV2Path == "/" {
        return;
      }
      rs := [OfGroup(gname, group.cgroupV2Path)];
    }

    // The groups of one scrape, in whatever order.
    method CollectGroups(groups: map<string, Group>) returns (rs: seq<Reading>)
      requires Valid()
      modifies this`skipped, this`scraped
      ensures Valid() && scraped == old(scraped) + [groups]
      ensures skipped == old(skipped) + |Conflicting(groups)|
      ensures Ordering(rs, GroupReadings(groups))
    {
      rs := VisitGroups(groups);
      assert (scraped + [groups])[..|scraped|] == scraped;
      scraped := scraped + [groups];
    }

    method VisitGroups(groups: map<string, Group>) returns (rs: seq<Reading>)
      modifies this`skipped
      ensures skipped == old(skipped) + |Conflicting(groups)|
      ensures Ordering(rs, GroupReadings(groups))
    {
      rs := [];
      var done: set<string> := {};
      while groups.Keys - done != {}
        invariant done <= groups.Keys
        invariant skipped == old(skipped) + |Conflicting(groups) * done|
        invariant Ordering(rs, ReadingsAmong(groups, done))
        decreases groups.Keys - done
      {
        var gname :| gname in groups.Keys - done;
        var r := CollectGroup(gname, groups[gname]);
        OneMoreGroup(groups, done, gname, rs);
        rs, done := rs + r, done + {gname};
      }
      assert done == groups.Keys;
      assert Conflicting(groups) * done == Conflicting(groups);
    }

    // One pattern of the list.
    method CollectPattern(tree: Tree, pattern: string) returns (rs: seq<Reading>)
      requires IsTree(tree)
      modifies this`patternDropped
      ensures patternDropped == old(patternDropped) + (if Fails(tree, glob, pattern, maxPaths) then 1 else 0)
      ensures ReadsPattern(tree, glob, pattern, maxPaths, rs)
    {
      rs := [];
      var expanded := E.ExpandPattern(tree, glob, pattern, maxPaths);
      if expanded.Err? {
        patternDropped := patternDropped + 1;
        return;
      }
      rs := ReadAll(expanded.value);
    }

    method ReadAll(matches: seq<string>) returns (rs: seq<Reading>)
      ensures rs == PathReadings(matches)
    {
      rs := [];
      for k := 0 to |matches|
        invariant rs == PathReadings(matches[..k])
      {
        assert matches[..k + 1] == matches[..k] + [matches[k]];
        rs := rs + [OfPath(matches[k])];
      }
      assert matches[..|matches|] == matches;
    }

    // The patterns of one scrape, in the hierarchy as it is now.
    method CollectPaths(tree: Tree) returns (rs: seq<Reading>, ghost parts: seq<seq<Reading>>)
      requires IsTree(tree) && Valid()
      modifies this`patternDropped, this`trees
      ensures Valid() && trees == old(trees) + [tree]
      ensures patternDropped == old(patternDropped) + Failed(tree, glob, paths, maxPaths)
      ensures rs == Flatten(parts) && ReadsEach(tree, glob, paths, maxPaths, parts)
    {
      rs, parts := VisitPatterns(tree);
      assert (trees + [tree])[..|trees|] == trees;
      trees := trees + [tree];
    }

    method VisitPatterns(tree: Tree) returns (rs: seq<Reading>, ghost parts: seq<seq<Reading>>)
      requires IsTree(tree)
      modifies this`patternDropped
      ensures patternDropped == old(patternDropped) + Failed(tree, glob, paths, maxPaths)
      ensures rs == Flatten(parts) && ReadsEach(tree, glob, paths, maxPaths, parts)
    {
      rs, parts := [], [];
      for i := 0 to |paths|
        invariant patternDropped == old(patternDropped) + Failed(tree, glob, paths[..i], maxPaths)
        invariant rs == Flatten(parts) && ReadsEach(tree, glob, paths[..i], maxPaths, parts)
      {
        var part := CollectPattern(tree, paths[i]);
        OneMorePattern(tree, glob, paths, i, maxPaths, parts, part);
        rs, parts := rs + part, parts + [part];
      }
      assert paths[..|paths|] == paths;
    }
  }

  // Every part is read, in order and once.
  lemma {:induction false} FlattenJoins(a: seq<seq<Reading>>, b: seq<seq<Reading>>)
    ensures Flatten(a + b) == Flatten(a) + Flatten(b)
    ensures |b| == 1 ==> Flatten(b) == b[0]
  {
    if b == [] {
      assert a + b == a;
    } else {
      FlattenJoins(a, b[..|b| - 1]);
      assert (a + b)[..|a + b| - 1] == a + b[..|b| - 1];
    }
  }

  lemma {:induction false} FlattenHolds(parts: seq<seq<Reading>>, r: Reading)
    ensures r in Flatten(parts) <==> exists i :: 0 <= i < |parts| && r in parts[i]
  {
    if parts != [] {
      var front := parts[..|parts| - 1];
      FlattenHolds(front, r);
      if i :| 0 <= i < |front| && r in front[i] { assert r in parts[i]; }
    }
  }

  // What one pass over the patterns reads: the matches of every pattern that expands, and nothing else.
  ghost predicate IsMatchOf(tree: Tree, glob: Glob, pattern: string, max: int, p: string) {
    !Fails(tree, glob, pattern, max) && exists q :: FullMatch(tree, glob, Segments(pattern), q) && p == Render(q)
  }

  lemma PathsAreRead(tree: Tree, glob: Glob, patterns: seq<string>, max: int, parts: seq<seq<Reading>>, p: string)
    requires ReadsEach(tree, glob, patterns, max, parts)
    ensures OfPath(p) in Flatten(parts) <==>
            exists i :: 0 <= i < |patterns| && IsMatchOf(tree, glob, patterns[i], max, p)
    ensures forall r | r in Flatten(parts) :: r.OfPath?
  {
    forall i | 0 <= i < |patterns|
      ensures OfPath(p) in parts[i] <==> IsMatchOf(tree, glob, patterns[i], max, p)
      ensures forall r | r in parts[i] :: r.OfPath?
    {
      assert ReadsPattern(tree, glob, patterns[i], max, parts[i]);
      PatternIsRead(tree, glob, patterns[i], max, parts[i], p);
    }
    FlattenHolds(parts, OfPath(p));
    forall r | r in Flatten(parts) ensures r.OfPath? {
      FlattenHolds(parts, r);
    }
  }

  lemma PatternIsRead(tree: Tree, glob: Glob, pattern: string, max: int, rs: seq<Reading>, p: string)
    requires ReadsPattern(tree, glob, pattern, max, rs)
    ensures OfPath(p) in rs <==> IsMatchOf(tree, glob, pattern, max, p)
    ensures forall r | r in rs :: r.OfPath?
  {
    if !Fails(tree, glob, pattern, max) {
      var paths :| E.IsExpansion(tree, glob, Segments(pattern), paths) && rs == PathReadings(paths);
      assert OfPath(p) in rs <==> p in paths by {
        if k :| 0 <= k < |paths| && paths[k] == p { assert rs[k] == OfPath(p); }
      }
    }
  }

  // The readings due for some of the groups.
  ghost function ReadingsAmong(groups: map<string, Group>, done: set<string>): set<Reading> {
    set gname | gname in groups && gname in done && Readable(groups[gname]) ::
      OfGroup(gname, groups[gname].cgroupV2Path)
  }

  lemma OneMoreGroup(groups: map<string, Group>, done: set<string>, gname: string, rs: seq<Reading>)
    requires gname in groups && gname !in done && Ordering(rs, ReadingsAmong(groups, done))
    ensures |Conflicting(groups) * (done + {gname})|
         == |Conflicting(groups) * done| + (if groups[gname].cgroupV2Conflict then 1 else 0)
    ensures Ordering(rs + (if Readable(groups[gname]) then [OfGroup(gname, groups[gname].cgroupV2Path)] else []),
                     ReadingsAmong(groups, done + {gname}))
  {
    var group := groups[gname];
    if group.cgroupV2Conflict {
      assert Conflicting(groups) * (done + {gname}) == Conflicting(groups) * done + {gname};
    } else {
      assert Conflicting(groups) * (done + {gname}) == Conflicting(groups) * done;
    }
    var r := OfGroup(gname, group.cgroupV2Path);
    if Readable(group) {
      assert ReadingsAmong(groups, done + {gname}) == ReadingsAmong(groups, done) + {r};
      assert r !in ReadingsAmong(groups, done);
    } else {
      assert ReadingsAmong(groups, done + {gname}) == ReadingsAmong(groups, done);
      assert rs + [] == rs;
    }
  }

  ghost predicate ShareOnePath(us: seq<Update>, path: string) {
    forall u | u in us :: u.cgroupV2Path == path
  }

  // A cgroup is read for a group with processes exactly when they all report one path and it is neither
  // empty nor the root; the group is skipped and counted exactly when two of them report different paths.
  lemma GroupIsReadIff(us: seq<Update>)
    requires us != []
    ensures Readable(Aggregate(us)) <==>
            exists path :: ShareOnePath(us, path) && path != "" && path != "/"
    ensures Readable(Aggregate(us)) ==> ShareOnePath(us, Aggregate(us).cgroupV2Path)
    ensures Aggregate(us).cgroupV2Conflict <==> exists u, v :: u in us && v in us && u.cgroupV2Path != v.cgroupV2Path
  {
    CgroupVerdict(us);
    assert us[0] in us;
    if Readable(Aggregate(us)) {
      assert ShareOnePath(us, Aggregate(us).cgroupV2Path);
    }
  }

  // A group without processes now is neither read nor counted as skipped.
  lemma AbsentGroupIsNotRead(removeEmpty: bool, st: GS.GState, us: seq<Update>, gname: string)
    requires gname in GS.Groups(removeEmpty, st, us) && gname !in AggregateAll(us)
    ensures !Readable(GS.Groups(removeEmpty, st, us)[gname]) && !GS.Groups(removeEmpty, st, us)[gname].cgroupV2Conflict
  {
  }

  // Some process of the group is reported, and all of them report this path.
  ghost predicate GroupShares(us: seq<Update>, gname: string, path: string) {
    && (exists u :: u in us && NameOf(u) == gname)
    && forall u | u in us && NameOf(u) == gname :: u.cgroupV2Path == path
  }

  ghost predicate GroupDiffers(us: seq<Update>, gname: string) {
    exists u, v :: u in us && v in us && NameOf(u) == gname && NameOf(v) == gname && u.cgroupV2Path != v.cgroupV2Path
  }

  // The reports of one group, seen in the reports of all.
  lemma GroupIsOneOfAll(us: seq<Update>, gname: string)
    ensures var mine := Having(NameOf, us, gname);
      && (gname in AggregateAll(us) <==> mine != [])
      && (gname in AggregateAll(us) ==> AggregateAll(us)[gname] == Aggregate(mine))
      && (GroupDiffers(us, gname) <==> exists u, v :: u in mine && v in mine && u.cgroupV2Path != v.cgroupV2Path)
      && forall path :: GroupShares(us, gname, path) <==> mine != [] && ShareOnePath(mine, path)
  {
    var mine := Having(NameOf, us, gname);
    FoldByKeyIsFold(GroupAdd, NO_GROUP, NameOf, us, gname);
    forall u ensures u in mine <==> u in us && NameOf(u) == gname {
      HavingKeepsMembers(NameOf, us, gname, u);
    }
    if mine != [] {
      assert mine[0] in mine;
    }
  }

  // Of the groups an Update returns, exactly those are skipped and counted of which two processes report
  // different paths, and exactly those are read, and under that path, of which all processes report the same
  // path that is neither empty nor the root. A group without a process now is neither.
  lemma ScrapeReadsIff(removeEmpty: bool, st: GS.GState, us: seq<Update>, gname: string, path: string)
    ensures var groups := GS.Groups(removeEmpty, st, us);
      && (gname in Conflicting(groups) <==> GroupDiffers(us, gname))
      && (OfGroup(gname, path) in GroupReadings(groups) <==> GroupShares(us, gname, path) && path != "" && path != "/")
  {
    var groups, now := GS.Groups(removeEmpty, st, us), AggregateAll(us);
    GroupIsOneOfAll(us, gname);
    if gname in now {
      var mine := Having(NameOf, us, gname);
      GroupIsReadIff(mine);
      SameVerdict(removeEmpty, st, us, gname);
      assert ShareOnePath(mine, path) && Readable(groups[gname]) ==> mine[0].cgroupV2Path == path by {
        assert mine[0] in mine;
      }
    } else if gname in groups {
      AbsentGroupIsNotRead(removeEmpty, st, us, gname);
    }
  }

  // Adding what was accumulated leaves the flags of a group alone.
  lemma SameVerdict(removeEmpty: bool, st: GS.GState, us: seq<Update>, gname: string)
    requires gname in AggregateAll(us)
    ensures gname in GS.Groups(removeEmpty, st, us)
    ensures VerdictOf(GS.Groups(removeEmpty, st, us)[gname]) == VerdictOf(AggregateAll(us)[gname])
  {
  }

  // There is only one expansion: what a pattern reads is determined by the tree.
  lemma {:induction false} OneSortedList(a: seq<string>, b: seq<string>)
    requires StrictlySorted(a) && StrictlySorted(b) && forall p :: p in a <==> p in b
    ensures a == b
  {
    if a != [] || b != [] {
      var x := if a != [] then a[0] else b[0];
      assert x in a || x in b;
      assert a[0] in a && b[0] in b;
      var i :| 0 <= i < |b| && b[i] == a[0];
      var j :| 0 <= j < |a| && a[j] == b[0];
      if i > 0 && j > 0 {
        AtMostIsAntisymmetric(a[0], b[0]);
      }
      assert a[0] == b[0];
      forall p ensures p in a[1..] <==> p in b[1..] {
        assert p in a <==> p == a[0] || p in a[1..];
        assert p in b <==> p == b[0] || p in b[1..];
      }
      OneSortedList(a[1..], b[1..]);
    }
  }
}
