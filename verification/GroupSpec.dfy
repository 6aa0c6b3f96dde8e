/** Aggregation by group name (`proc/grouper.go`) as functions on values. */
module GroupSpec {
  import opened Wrappers
  import opened Counters
  import opened Process
  import opened Collections
  import opened Reports

  // All threads of a group that share a name.
  datatype NamedThreads = NamedThreads(name: string, numThreads: int, counts: Counts)

  // The float64 ratio open/limit over the exact numbers; a limit of 0 gives +Inf (NaN and -Inf never win).
  datatype FDRatio = Ratio(r: real) | Infinite

  // threads is a slice in the source; its order is Go's random map order, and the names in it are distinct.
  datatype Group = Group(
    counts: Counts, states: States, wchans: map<string, int>, procs: int, memory: Memory,
    oldestStartTime: Time, openFDs: u64, worstFDratio: FDRatio, numThreads: u64, threads: set<NamedThreads>,
    cgroupV2Path: string, cgroupV2Conflict: bool, cgroupV2SawEmpty: bool)

  const NO_GROUP: Group := Group(
    NO_COUNTS, States(0, 0, 0, 0, 0), map[], 0, Memory(0, 0, 0, 0, 0), NO_TIME, 0, Ratio(0.0), 0, {}, "", false, false)

  function AddMemory(m: Memory, d: Memory): Memory {
    Memory(AddU(m.residentBytes, d.residentBytes), AddU(m.virtualBytes, d.virtualBytes),
           AddU(m.vmSwapBytes, d.vmSwapBytes), AddU(m.proportionalBytes, d.proportionalBytes),
           AddU(m.proportionalSwapBytes, d.proportionalSwapBytes))
  }

  function AddOpen(openFDs: u64, open: int): u64 {
    if open != -1 then AddU(openFDs, WrapU(open)) else openFDs
  }

  // None: NaN or -Inf, which no comparison prefers.
  function RatioOf(fd: Filedesc): Option<FDRatio> {
    if fd.limit != 0 then Some(Ratio(fd.open as real / fd.limit as real))
    else if fd.open > 0 then Some(Infinite)
    else None
  }

  predicate Below(a: FDRatio, b: FDRatio) {
    a.Ratio? && (b.Infinite? || a.r < b.r)
  }

  function WorstRatio(w: FDRatio, fd: Filedesc): FDRatio {
    match RatioOf(fd)
    case Some(r) => if Below(w, r) then r else w
    case None => w
  }

  function Oldest(oldest: Time, start: Time): Time {
    if oldest == NO_TIME || start < oldest then start else oldest
  }

  // The three membership fields (path, sawEmpty, conflict).
  datatype Verdict = Verdict(path: string, sawEmpty: bool, conflict: bool)

  function Judge(v: Verdict, path: string): Verdict {
    if v.conflict then v else
    var v1 := if path == "" then v.(sawEmpty := true)
              else if v.path == "" then v.(path := path)
              else if v.path != path then v.(conflict := true)
              else v;
    if v1.sawEmpty && v1.path != "" then v1.(conflict := true) else v1
  }

  function VerdictOf(g: Group): Verdict {
    Verdict(g.cgroupV2Path, g.cgroupV2SawEmpty, g.cgroupV2Conflict)
  }

  function GroupAdd(g: Group, u: Update): Group {
    var v := Judge(VerdictOf(g), u.cgroupV2Path);
    Group(g.counts.Add(u.latest), g.states.Add(u.states), AddMaps(g.wchans, u.wchans), g.procs + 1,
          AddMemory(g.memory, u.memory), Oldest(g.oldestStartTime, u.start),
          AddOpen(g.openFDs, u.filedesc.open), WorstRatio(g.worstFDratio, u.filedesc),
          AddU(g.numThreads, u.numThreads), g.threads, v.path, v.conflict, v.sawEmpty)
  }

  function NameOf(u: Update): string {
    u.groupName
  }

  // groupadd folded over the reports of one group.
  function Aggregate(us: seq<Update>): Group {
    Fold(GroupAdd, NO_GROUP, us)
  }

  // The first loop of `groups`: one Group per name.
  function AggregateAll(us: seq<Update>): map<string, Group> {
    FoldByKey(GroupAdd, NO_GROUP, NameOf, us)
  }

  // ---------------------------------------------------------------- the order of the reports

  // What a reader of a group sees: under a conflict the remembered path and the empty mark mean nothing.
  function Visible(g: Group): Group {
    if g.cgroupV2Conflict then g.(cgroupV2Path := "", cgroupV2SawEmpty := false) else g
  }

  ghost predicate Started(us: seq<Update>) {
    forall u | u in us :: u.start != NO_TIME
  }

  function Sight(v: Verdict): Verdict {
    if v.conflict then Verdict("", false, true) else v
  }

  lemma JudgeCommutes(v: Verdict, p: string, q: string)
    ensures Sight(Judge(Judge(v, p), q)) == Sight(Judge(Judge(v, q), p))
  {
  }

  lemma AddUCommutes(a: u64, b: u64, c: u64)
    ensures AddU(AddU(a, b), c) == AddU(AddU(a, c), b)
  {
  }

  lemma MemoryCommutes(m: Memory, a: Memory, b: Memory)
    ensures AddMemory(AddMemory(m, a), b) == AddMemory(AddMemory(m, b), a)
  {
    AddUCommutes(m.residentBytes, a.residentBytes, b.residentBytes);
    AddUCommutes(m.virtualBytes, a.virtualBytes, b.virtualBytes);
    AddUCommutes(m.vmSwapBytes, a.vmSwapBytes, b.vmSwapBytes);
    AddUCommutes(m.proportionalBytes, a.proportionalBytes, b.proportionalBytes);
    AddUCommutes(m.proportionalSwapBytes, a.proportionalSwapBytes, b.proportionalSwapBytes);
  }

  lemma CountsCommute(c: Counts, a: Counts, b: Counts)
    ensures c.Add(a).Add(b) == c.Add(b).Add(a)
  {
    AddUCommutes(c.readBytes, a.readBytes, b.readBytes);
    AddUCommutes(c.writeBytes, a.writeBytes, b.writeBytes);
    AddUCommutes(c.majorFaults, a.majorFaults, b.majorFaults);
    AddUCommutes(c.minorFaults, a.minorFaults, b.minorFaults);
    AddUCommutes(c.ctxVoluntary, a.ctxVoluntary, b.ctxVoluntary);
    AddUCommutes(c.ctxNonvoluntary, a.ctxNonvoluntary, b.ctxNonvoluntary);
  }

  lemma GaugesCommute(g: Group, a: Update, b: Update)
    requires a.start != NO_TIME && b.start != NO_TIME
    ensures Oldest(Oldest(g.oldestStartTime, a.start), b.start) == Oldest(Oldest(g.oldestStartTime, b.start), a.start)
    ensures AddOpen(AddOpen(g.openFDs, a.filedesc.open), b.filedesc.open)
         == AddOpen(AddOpen(g.openFDs, b.filedesc.open), a.filedesc.open)
    ensures WorstRatio(WorstRatio(g.worstFDratio, a.filedesc), b.filedesc)
         == WorstRatio(WorstRatio(g.worstFDratio, b.filedesc), a.filedesc)
  {
    AddUCommutes(g.openFDs, WrapU(a.filedesc.open), WrapU(b.filedesc.open));
  }

  lemma GroupAddCommutes(g: Group, a: Update, b: Update)
    requires a.start != NO_TIME && b.start != NO_TIME
    ensures Visible(GroupAdd(GroupAdd(g, a), b)) == Visible(GroupAdd(GroupAdd(g, b), a))
  {
    JudgeCommutes(VerdictOf(g), a.cgroupV2Path, b.cgroupV2Path);
    MemoryCommutes(g.memory, a.memory, b.memory);
    CountsCommute(g.counts, a.latest, b.latest);
    AddMapsCommutes(g.wchans, a.wchans, b.wchans);
    GaugesCommute(g, a, b);
    AddUCommutes(g.numThreads, a.numThreads, b.numThreads);
  }

  lemma GroupAddSeesVisible(g: Group, h: Group, u: Update)
    requires Visible(g) == Visible(h)
    ensures Visible(GroupAdd(g, u)) == Visible(GroupAdd(h, u))
  {
  }

  lemma GroupAddIgnoresOrder()
    ensures Commutes(GroupAdd, Visible, (u: Update) => u.start != NO_TIME)
  {
    forall g, a: Update, b: Update | a.start != NO_TIME && b.start != NO_TIME
      ensures Visible(GroupAdd(GroupAdd(g, a), b)) == Visible(GroupAdd(GroupAdd(g, b), a))
    {
      GroupAddCommutes(g, a, b);
    }
    forall g, h, u | Visible(g) == Visible(h) ensures Visible(GroupAdd(g, u)) == Visible(GroupAdd(h, u)) {
      GroupAddSeesVisible(g, h, u);
    }
  }

  // Whatever order the tracker's random map iteration reports the processes in, every group comes out the same.
  lemma GroupsIgnoreOrder(us: seq<Update>, vs: seq<Update>, gname: string)
    requires multiset(us) == multiset(vs) && Started(us)
    ensures gname in AggregateAll(us) <==> gname in AggregateAll(vs)
    ensures gname in AggregateAll(us) ==> Visible(AggregateAll(us)[gname]) == Visible(AggregateAll(vs)[gname])
  {
    GroupAddIgnoresOrder();
    FoldByKeyIgnoresOrder(GroupAdd, NO_GROUP, Visible, (u: Update) => u.start != NO_TIME, NameOf, us, vs, gname);
  }

  // ---------------------------------------------------------------- what the fields are

  function Increment(u: Update): Tally {
    u.latest.Exact()
  }

  lemma {:induction false} AggregateCounts(us: seq<Update>)
    ensures Aggregate(us).procs == |us|
    ensures Aggregate(us).counts == SumSeq(us, Increment).Wrap()
  {
    if us != [] {
      var front, last := us[..|us| - 1], us[|us| - 1];
      AggregateCounts(front);
      WrapKeepsCounts(last.latest);
      AddIsExactModulo(SumSeq(front, Increment), last.latest.Exact());
    }
  }

  // A uint64 field of a group that every report adds one of its own fields to.
  ghost predicate Gathers(get: Group -> u64, field: Update -> int) {
    get(NO_GROUP) == 0 && forall g, u :: get(GroupAdd(g, u)) == AddU(get(g), WrapU(field(u)))
  }

  lemma {:induction false} GathersTheSum(us: seq<Update>, get: Group -> u64, field: Update -> int)
    requires Gathers(get, field)
    ensures get(Aggregate(us)) == WrapU(SumOf(us, field))
  {
    if us != [] {
      GathersTheSum(us[..|us| - 1], get, field);
      AddUOfWraps(SumOf(us[..|us| - 1], field), field(us[|us| - 1]));
    }
  }

  lemma SumsResidentBytes(us: seq<Update>)
    ensures Aggregate(us).memory.residentBytes == WrapU(SumOf(us, (u: Update) => u.memory.residentBytes))
  {
    GathersTheSum(us, (g: Group) => g.memory.residentBytes, (u: Update) => u.memory.residentBytes);
  }

  lemma SumsVirtualBytes(us: seq<Update>)
    ensures Aggregate(us).memory.virtualBytes == WrapU(SumOf(us, (u: Update) => u.memory.virtualBytes))
  {
    GathersTheSum(us, (g: Group) => g.memory.virtualBytes, (u: Update) => u.memory.virtualBytes);
  }

  lemma SumsVmSwapBytes(us: seq<Update>)
    ensures Aggregate(us).memory.vmSwapBytes == WrapU(SumOf(us, (u: Update) => u.memory.vmSwapBytes))
  {
    GathersTheSum(us, (g: Group) => g.memory.vmSwapBytes, (u: Update) => u.memory.vmSwapBytes);
  }

  lemma SumsProportionalBytes(us: seq<Update>)
    ensures Aggregate(us).memory.proportionalBytes == WrapU(SumOf(us, (u: Update) => u.memory.proportionalBytes))
  {
    GathersTheSum(us, (g: Group) => g.memory.proportionalBytes, (u: Update) => u.memory.proportionalBytes);
  }

  lemma SumsProportionalSwapBytes(us: seq<Update>)
    ensures Aggregate(us).memory.proportionalSwapBytes
            == WrapU(SumOf(us, (u: Update) => u.memory.proportionalSwapBytes))
  {
    GathersTheSum(us, (g: Group) => g.memory.proportionalSwapBytes, (u: Update) => u.memory.proportionalSwapBytes);
  }

  lemma SumsNumThreads(us: seq<Update>)
    ensures Aggregate(us).numThreads == WrapU(SumOf(us, (u: Update) => u.numThreads))
  {
    GathersTheSum(us, (g: Group) => g.numThreads, (u: Update) => u.numThreads);
  }

  lemma SumsOpenFDs(us: seq<Update>)
    ensures Aggregate(us).openFDs == WrapU(SumOf(us, KnownOpen))
  {
    forall g, u ensures GroupAdd(g, u).openFDs == AddU(g.openFDs, WrapU(KnownOpen(u))) {
      AddOpenIsKnown(g.openFDs, u);
    }
    GathersTheSum(us, (g: Group) => g.openFDs, KnownOpen);
  }

  // Every size of a group is the sum of that size over its reports, modulo 2^64; a process whose number of
  // open descriptors is unknown counts none.
  lemma SizesAreSums(us: seq<Update>)
    ensures var m := Aggregate(us).memory;
      && m.residentBytes == WrapU(SumOf(us, (u: Update) => u.memory.residentBytes))
      && m.virtualBytes == WrapU(SumOf(us, (u: Update) => u.memory.virtualBytes))
      && m.vmSwapBytes == WrapU(SumOf(us, (u: Update) => u.memory.vmSwapBytes))
      && m.proportionalBytes == WrapU(SumOf(us, (u: Update) => u.memory.proportionalBytes))
      && m.proportionalSwapBytes == WrapU(SumOf(us, (u: Update) => u.memory.proportionalSwapBytes))
    ensures Aggregate(us).numThreads == WrapU(SumOf(us, (u: Update) => u.numThreads))
    ensures Aggregate(us).openFDs == WrapU(SumOf(us, KnownOpen))
  {
    SumsResidentBytes(us);
    SumsVirtualBytes(us);
    SumsVmSwapBytes(us);
    SumsProportionalBytes(us);
    SumsProportionalSwapBytes(us);
    SumsNumThreads(us);
    SumsOpenFDs(us);
  }

  lemma AddOpenIsKnown(openFDs: u64, u: Update)
    ensures AddOpen(openFDs, u.filedesc.open) == AddU(openFDs, WrapU(KnownOpen(u)))
  {
  }

  function KnownOpen(u: Update): int {
    if u.filedesc.open == -1 then 0 else u.filedesc.open
  }

  // States and wait channels are plain sums.
  lemma {:induction false} AggregateTallies(us: seq<Update>, wchan: string)
    ensures var s := Aggregate(us).states;
      && s.running == SumOf(us, (u: Update) => u.states.running)
      && s.sleeping == SumOf(us, (u: Update) => u.states.sleeping)
      && s.waiting == SumOf(us, (u: Update) => u.states.waiting)
      && s.zombie == SumOf(us, (u: Update) => u.states.zombie)
      && s.other == SumOf(us, (u: Update) => u.states.other)
    ensures wchan in Aggregate(us).wchans <==> exists i :: 0 <= i < |us| && wchan in us[i].wchans
    ensures At(Aggregate(us).wchans, wchan) == SumOf(us, (u: Update) => At(u.wchans, wchan))
  {
    if us != [] {
      var front := us[..|us| - 1];
      AggregateTallies(front, wchan);
      if i :| 0 <= i < |front| && wchan in front[i].wchans { assert wchan in us[i].wchans; }
    }
  }

  // t is the minimum of the start times of us.
  ghost predicate IsOldest(us: seq<Update>, t: Time) {
    && (forall i | 0 <= i < |us| :: t <= us[i].start)
    && exists i :: 0 <= i < |us| && t == us[i].start
  }

  lemma OldestStep(us: seq<Update>, t: Time)
    requires |us| > 1 && t != NO_TIME && IsOldest(us[..|us| - 1], t)
    ensures IsOldest(us, Oldest(t, us[|us| - 1].start))
  {
    var front, last := us[..|us| - 1], us[|us| - 1];
    assert forall i | 0 <= i < |front| :: front[i] == us[i];
    var i :| 0 <= i < |front| && t == front[i].start;
    assert t == us[i].start;
    if last.start < t {
      assert Oldest(t, last.start) == us[|us| - 1].start;
    }
  }

  lemma {:induction false} OldestIsMinimum(us: seq<Update>)
    requires us != [] && forall i | 0 <= i < |us| :: us[i].start != NO_TIME
    ensures IsOldest(us, Aggregate(us).oldestStartTime)
  {
    var front, last := us[..|us| - 1], us[|us| - 1];
    assert Aggregate(us).oldestStartTime == Oldest(Aggregate(front).oldestStartTime, last.start);
    if front == [] {
      assert Aggregate(us).oldestStartTime == us[0].start;
    } else {
      OldestIsMinimum(front);
      OldestStep(us, Aggregate(front).oldestStartTime);
    }
  }

  // The share of its descriptors a process has open is at most w; any number open under a limit of 0 is infinite.
  ghost predicate SharesAtMost(fd: Filedesc, w: FDRatio) {
    if fd.limit > 0 then w.Infinite? || fd.open as real / fd.limit as real <= w.r
    else fd.open > 0 ==> w.Infinite?
  }

  ghost predicate Shares(fd: Filedesc, w: FDRatio) {
    if fd.limit > 0 then w == Ratio(fd.open as real / fd.limit as real) else fd.open > 0 && w.Infinite?
  }

  // w is the maximum of the shares of us, and 0.
  ghost predicate IsWorst(us: seq<Update>, w: FDRatio) {
    && (forall i | 0 <= i < |us| :: SharesAtMost(us[i].filedesc, w))
    && (w.Ratio? ==> w.r >= 0.0)
    && (w == Ratio(0.0) || exists i :: 0 <= i < |us| && Shares(us[i].filedesc, w))
  }

  lemma WorstOfTwo(w: FDRatio, fd: Filedesc)
    requires w.Ratio? ==> w.r >= 0.0
    ensures var m := WorstRatio(w, fd);
      && SharesAtMost(fd, m) && (m.Ratio? ==> m.r >= 0.0) && (m == w || Shares(fd, m))
      && forall other :: SharesAtMost(other, w) ==> SharesAtMost(other, m)
  {
  }

  lemma WorstStep(us: seq<Update>, w: FDRatio)
    requires us != [] && IsWorst(us[..|us| - 1], w)
    ensures IsWorst(us, WorstRatio(w, us[|us| - 1].filedesc))
  {
    var front, n := us[..|us| - 1], |us| - 1;
    var m := WorstRatio(w, us[n].filedesc);
    WorstOfTwo(w, us[n].filedesc);
    forall i | 0 <= i < n ensures SharesAtMost(us[i].filedesc, m) {
      assert SharesAtMost(front[i].filedesc, w);
    }
    if i :| 0 <= i < n && Shares(front[i].filedesc, w) {
      assert Shares(us[i].filedesc, w);
    }
  }

  lemma {:induction false} WorstIsMaximum(us: seq<Update>)
    ensures IsWorst(us, Aggregate(us).worstFDratio)
  {
    if us != [] {
      WorstIsMaximum(us[..|us| - 1]);
      WorstStep(us, Aggregate(us[..|us| - 1]).worstFDratio);
    }
  }

  // ---------------------------------------------------------------- cgroup membership

  // The flags, kept while the reports come in one by one, decide whether the processes of the group all
  // report one path (an empty path counts as a path), and which.
  lemma {:induction false} CgroupVerdict(us: seq<Update>)
    ensures var g := Aggregate(us);
      && (g.cgroupV2Conflict <==> exists u, v :: u in us && v in us && u.cgroupV2Path != v.cgroupV2Path)
      && (!g.cgroupV2Conflict ==>
            && (forall u | u in us :: u.cgroupV2Path == g.cgroupV2Path)
            && (g.cgroupV2SawEmpty <==> us != [] && g.cgroupV2Path == ""))
      && (us == [] ==> g.cgroupV2Path == "")
  {
    if us != [] {
      var front, last := us[..|us| - 1], us[|us| - 1];
      assert us == front + [last];
      CgroupVerdict(front);
      var g, h := Aggregate(front), Aggregate(us);
      assert last in us && forall u | u in front :: u in us;
      if !g.cgroupV2Conflict && front != [] {
        assert front[0] in front;
        assert h.cgroupV2Conflict <==> g.cgroupV2Path != last.cgroupV2Path;
      }
    }
  }
}
