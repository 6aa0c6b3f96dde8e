/** What a group holds that Update returns: each field in terms of the reports of its name, and of the
    processes that are live under it. Nothing here mentions how the grouper puts a group together. */
module GroupAnswers {
  import opened Wrappers
  import opened Counters
  import opened Process
  import opened Collections
  import opened TrackerSpec
  import opened Reports
  import opened GroupSpec
  import opened GrouperSpec
  import opened ThreadAccounting
  import opened TrackerRuns
  import opened Observations
  import opened Conservation
  import OrderFree

  // ---------------------------------------------------------------- in terms of the reports

  ghost predicate HasSizes(g: Group, us: seq<Update>) {
    && g.procs == |us|
    && g.memory.residentBytes == WrapU(SumOf(us, (u: Update) => u.memory.residentBytes))
    && g.memory.virtualBytes == WrapU(SumOf(us, (u: Update) => u.memory.virtualBytes))
    && g.memory.vmSwapBytes == WrapU(SumOf(us, (u: Update) => u.memory.vmSwapBytes))
    && g.memory.proportionalBytes == WrapU(SumOf(us, (u: Update) => u.memory.proportionalBytes))
    && g.memory.proportionalSwapBytes == WrapU(SumOf(us, (u: Update) => u.memory.proportionalSwapBytes))
    && g.numThreads == WrapU(SumOf(us, (u: Update) => u.numThreads))
    && g.openFDs == WrapU(SumOf(us, (u: Update) => if u.filedesc.open == -1 then 0 else u.filedesc.open))
  }

  ghost predicate HasTallies(g: Group, us: seq<Update>) {
    && g.states.running == SumOf(us, (u: Update) => u.states.running)
    && g.states.sleeping == SumOf(us, (u: Update) => u.states.sleeping)
    && g.states.waiting == SumOf(us, (u: Update) => u.states.waiting)
    && g.states.zombie == SumOf(us, (u: Update) => u.states.zombie)
    && g.states.other == SumOf(us, (u: Update) => u.states.other)
    && forall w :: HasWchan(g, us, w)
  }

  ghost predicate HasWchan(g: Group, us: seq<Update>, w: string) {
    && (w in g.wchans <==> exists i :: 0 <= i < |us| && w in us[i].wchans)
    && At(g.wchans, w) == SumOf(us, (u: Update) => At(u.wchans, w))
  }

  ghost predicate HasExtremes(g: Group, us: seq<Update>) {
    && IsWorst(us, g.worstFDratio)
    && (us == [] ==> g.oldestStartTime == NO_TIME)
    && (us != [] && Started(us) ==> IsOldest(us, g.oldestStartTime))
  }

  // The threads of a group: one entry for each thread name in the batch, with the number of threads of that
  // name and their increases on top of what was remembered of the name.
  ghost predicate HasThreads(g: Group, batch: seq<ThreadUpdate>, history: Option<History>) {
    forall nt :: ThreadsAt(g.threads, batch, history, nt)
  }

  lemma GaugesOfAggregate(us: seq<Update>)
    ensures HasSizes(Aggregate(us), us) && HasTallies(Aggregate(us), us) && HasExtremes(Aggregate(us), us)
  {
    SizesOfAggregate(us);
    TalliesOfAggregate(us);
    WorstIsMaximum(us);
    if us != [] && Started(us) {
      forall i | 0 <= i < |us| ensures us[i].start != NO_TIME { assert us[i] in us; }
      OldestIsMinimum(us);
    }
  }

  lemma SizesOfAggregate(us: seq<Update>)
    ensures HasSizes(Aggregate(us), us)
  {
    AggregateCounts(us);
    SizesAreSums(us);
    SumOfAgrees(us, KnownOpen, (u: Update) => if u.filedesc.open == -1 then 0 else u.filedesc.open);
  }

  lemma TalliesOfAggregate(us: seq<Update>)
    ensures HasTallies(Aggregate(us), us)
  {
    forall w ensures HasWchan(Aggregate(us), us, w) {
      AggregateTallies(us, w);
    }
    AggregateTallies(us, "");
  }

  lemma {:induction false} SumOfAgrees<T>(s: seq<T>, f: T -> int, g: T -> int)
    requires forall i | 0 <= i < |s| :: f(s[i]) == g(s[i])
    ensures SumOf(s, f) == SumOf(s, g)
  {
    if s != [] {
      SumOfAgrees(s[..|s| - 1], f, g);
    }
  }

  // The fields a group keeps of its own cycle.
  ghost predicate SameGauges(g: Group, h: Group) {
    && g.procs == h.procs && g.memory == h.memory && g.numThreads == h.numThreads && g.openFDs == h.openFDs
    && g.states == h.states && g.wchans == h.wchans
    && g.worstFDratio == h.worstFDratio && g.oldestStartTime == h.oldestStartTime
  }

  lemma GaugesCarryOver(g: Group, h: Group, us: seq<Update>)
    requires SameGauges(g, h) && HasSizes(h, us) && HasTallies(h, us) && HasExtremes(h, us)
    ensures HasSizes(g, us) && HasTallies(g, us) && HasExtremes(g, us)
  {
    forall w ensures HasWchan(g, us, w) {
      assert HasWchan(h, us, w);
    }
  }

  // Every group Update returns shows exactly the reports of its name: a group with no process now shows none,
  // and so nothing but zeros.
  lemma GroupShowsItsReports(removeEmpty: bool, st: GState, us: seq<Update>, gname: string)
    requires gname in Groups(removeEmpty, st, us)
    ensures var g, mine := Groups(removeEmpty, st, us)[gname], Having(NameOf, us, gname);
      HasSizes(g, mine) && HasTallies(g, mine) && HasExtremes(g, mine)
  {
    var g, mine := Groups(removeEmpty, st, us)[gname], Having(NameOf, us, gname);
    LooksUp(removeEmpty, st, us, gname);
    assert Lookup(Groups(removeEmpty, st, us), gname) == Some(g);
    FoldByKeyIsFold(GroupAdd, NO_GROUP, NameOf, us, gname);
    GaugesOfAggregate(mine);
    GaugesCarryOver(g, Aggregate(mine), mine);
  }

  function ShownThreads(h: Option<History>): set<NamedThreads> {
    match h case Some(named) => named.Values case None => {}
  }

  ghost predicate ThreadsAt(threads: set<NamedThreads>, batch: seq<ThreadUpdate>, history: Option<History>,
                            nt: NamedThreads) {
    nt in threads <==>
      && Names(batch, nt.name)
      && nt.numThreads == |Having(ThreadName, batch, nt.name)|
      && nt.counts == (if history.Some? && nt.name in history.value
                       then CycleSum(batch, nt.name).Wrap().Add(history.value[nt.name].counts)
                       else CycleSum(batch, nt.name).Wrap())
  }

  lemma ThreadsOfStep(history: Option<History>, batch: seq<ThreadUpdate>, nt: NamedThreads)
    ensures ThreadsAt(ShownThreads(ThreadStep(history, batch)), batch, history, nt)
  {
    if batch != [] {
      var totals := ThreadTotals(batch);
      var named := WithHistory(totals, match history case Some(h) => h case None => map[]);
      assert ShownThreads(ThreadStep(history, batch)) == named.Values;
      forall name | name in named ensures named[name].name == name {
        OrderFree.TotalsAreNamed(batch, name);
      }
      CycleTotals(batch, nt.name);
      assert nt in named.Values <==> nt.name in named && named[nt.name] == nt;
    }
  }

  lemma {:induction false} AbsentHasNoBatch(us: seq<Update>, gname: string)
    requires Having(NameOf, us, gname) == []
    ensures Batch(us, gname) == []
  {
    if us != [] {
      AbsentHasNoBatch(us[..|us| - 1], gname);
    }
  }

  // And exactly the threads of its batch, by name.
  lemma GroupShowsItsThreads(removeEmpty: bool, st: GState, us: seq<Update>, gname: string)
    requires gname in Groups(removeEmpty, st, us)
    ensures HasThreads(Groups(removeEmpty, st, us)[gname], Batch(us, gname), Lookup(st.threadAccum, gname))
  {
    var g, batch, history := Groups(removeEmpty, st, us)[gname], Batch(us, gname), Lookup(st.threadAccum, gname);
    LooksUp(removeEmpty, st, us, gname);
    assert Lookup(Groups(removeEmpty, st, us), gname) == Some(g);
    if gname in AggregateAll(us) {
      assert g.threads == ShownThreads(ThreadStep(history, batch));
    } else {
      FoldByKeyIsFold(GroupAdd, NO_GROUP, NameOf, us, gname);
      AbsentHasNoBatch(us, gname);
      assert g.threads == ShownThreads(ThreadStep(history, []));
    }
    forall nt ensures ThreadsAt(g.threads, batch, history, nt) {
      ThreadsOfStep(history, batch, nt);
    }
  }

  // ---------------------------------------------------------------- in terms of the processes

  const NO_METRICS: Metrics :=
    Metrics(NO_COUNTS, Memory(0, 0, 0, 0, 0), Filedesc(0, 0), 0, States(0, 0, 0, 0, 0), "")

  // What is held of a process.
  function MetricsOf(t: TState, id: ID): Metrics {
    if id in LiveIds(t) then t.tracked[id].value.metrics else NO_METRICS
  }

  function StartTimeOf(t: TState, id: ID): Time {
    if id in LiveIds(t) then t.tracked[id].value.stat.startTime else NO_TIME
  }

  function PathOf(t: TState, id: ID): string {
    if id in LiveIds(t) then t.tracked[id].value.stat.cgroupV2Path else ""
  }

  // A process with a single thread shows none.
  function ThreadsOf(t: TState, id: ID): ThreadMap {
    if id in LiveIds(t) && |t.tracked[id].value.threads| > 1 then t.tracked[id].value.threads else map[]
  }

  ghost function WaitingOn(t: TState, id: ID, w: string): int {
    if w == "" then 0 else
    (if MetricsOf(t, id).wchan == w then 1 else 0)
    + |set tid | tid in ThreadsOf(t, id) && ThreadsOf(t, id)[tid].wchan == w|
  }

  lemma MineIsMember(t: TState, ids: seq<ID>, us: seq<Update>, gname: string, i: nat)
    requires ReportsAll(t, ids, us) && i < |us|
    ensures NameOf(us[i]) == gname <==> ids[i] in Members(t, gname)
    ensures ids[i] in LiveIds(t) && IsUpdate(t.tracked[ids[i]].value, us[i])
  {
    assert Reported(t, ids[i], us[i]);
  }

  // A sum over the reports of a name is the sum over its processes.
  lemma SumOverMembers(t: TState, ids: seq<ID>, us: seq<Update>, gname: string, f: Update -> int, h: ID -> int)
    requires ReportsAll(t, ids, us)
    requires forall i | 0 <= i < |us| && ids[i] in Members(t, gname) :: f(us[i]) == h(ids[i])
    ensures SumOf(Having(NameOf, us, gname), f) == SumInt(Members(t, gname), h)
  {
    var hm := id => if id in Members(t, gname) then h(id) else 0;
    SumOfHavingInts(NameOf, us, gname, f);
    forall i | 0 <= i < |us| ensures OnlyInts(NameOf, gname, f)(us[i]) == hm(ids[i]) {
      MineIsMember(t, ids, us, gname, i);
    }
    SumOfSame(us, OnlyInts(NameOf, gname, f), ids, hm);
    SumOfInts(ids, LiveIds(t), hm);
    SumIntIgnoresZeros(Members(t, gname), LiveIds(t), h, hm);
  }

  ghost predicate SizesOfProcs(g: Group, t: TState, procs: set<ID>) {
    && g.procs == |procs|
    && g.memory.residentBytes == WrapU(SumInt(procs, id => MetricsOf(t, id).memory.residentBytes))
    && g.memory.virtualBytes == WrapU(SumInt(procs, id => MetricsOf(t, id).memory.virtualBytes))
    && g.memory.vmSwapBytes == WrapU(SumInt(procs, id => MetricsOf(t, id).memory.vmSwapBytes))
    && g.memory.proportionalBytes == WrapU(SumInt(procs, id => MetricsOf(t, id).memory.proportionalBytes))
    && g.memory.proportionalSwapBytes == WrapU(SumInt(procs, id => MetricsOf(t, id).memory.proportionalSwapBytes))
    && g.numThreads == WrapU(SumInt(procs, id => MetricsOf(t, id).numThreads))
    && g.openFDs == WrapU(SumInt(procs, id =>
         if MetricsOf(t, id).filedesc.open == -1 then 0 else MetricsOf(t, id).filedesc.open))
  }

  ghost predicate TalliesOfProcs(g: Group, t: TState, procs: set<ID>) {
    && g.states.running == SumInt(procs, id => MetricsOf(t, id).states.running)
    && g.states.sleeping == SumInt(procs, id => MetricsOf(t, id).states.sleeping)
    && g.states.waiting == SumInt(procs, id => MetricsOf(t, id).states.waiting)
    && g.states.zombie == SumInt(procs, id => MetricsOf(t, id).states.zombie)
    && g.states.other == SumInt(procs, id => MetricsOf(t, id).states.other)
    && forall w :: WchanOfProcs(g, t, procs, w)
  }

  ghost predicate WchanOfProcs(g: Group, t: TState, procs: set<ID>, w: string) {
    && (w in g.wchans <==> exists id :: id in procs && WaitingOn(t, id, w) > 0)
    && At(g.wchans, w) == SumInt(procs, id => WaitingOn(t, id, w))
  }

  ghost predicate OldestOfProcs(g: Group, t: TState, procs: set<ID>) {
    && (procs == {} ==> g.oldestStartTime == NO_TIME)
    && (procs != {} && (forall id | id in procs :: StartTimeOf(t, id) != NO_TIME) ==>
          && (forall id | id in procs :: g.oldestStartTime <= StartTimeOf(t, id))
          && exists id :: id in procs && g.oldestStartTime == StartTimeOf(t, id))
  }

  ghost predicate WorstOfProcs(g: Group, t: TState, procs: set<ID>) {
    && (forall id | id in procs :: SharesAtMost(MetricsOf(t, id).filedesc, g.worstFDratio))
    && (g.worstFDratio.Ratio? ==> g.worstFDratio.r >= 0.0)
    && (g.worstFDratio == Ratio(0.0) || exists id :: id in procs && Shares(MetricsOf(t, id).filedesc, g.worstFDratio))
  }

  // Every process of the group has a report of its name, and the other way round.
  lemma MemberHasReport(t: TState, ids: seq<ID>, us: seq<Update>, gname: string, id: ID) returns (i: nat)
    requires ReportsAll(t, ids, us) && id in Members(t, gname)
    ensures i < |us| && ids[i] == id && us[i] in Having(NameOf, us, gname) && IsUpdate(t.tracked[id].value, us[i])
  {
    assert id in ids;
    i :| 0 <= i < |ids| && ids[i] == id;
    MineIsMember(t, ids, us, gname, i);
    HavingKeepsMembers(NameOf, us, gname, us[i]);
  }

  lemma ReportHasMember(t: TState, ids: seq<ID>, us: seq<Update>, gname: string, u: Update) returns (id: ID)
    requires ReportsAll(t, ids, us) && u in Having(NameOf, us, gname)
    ensures id in Members(t, gname) && IsUpdate(t.tracked[id].value, u)
  {
    HavingKeepsMembers(NameOf, us, gname, u);
    var i :| 0 <= i < |us| && us[i] == u;
    MineIsMember(t, ids, us, gname, i);
    id := ids[i];
  }

  lemma SizesByProcs(t: TState, ids: seq<ID>, us: seq<Update>, gname: string, g: Group)
    requires ReportsAll(t, ids, us) && HasSizes(g, Having(NameOf, us, gname))
    ensures SizesOfProcs(g, t, Members(t, gname))
  {
    forall i | 0 <= i < |us| && ids[i] in Members(t, gname)
      ensures us[i].memory == MetricsOf(t, ids[i]).memory && us[i].numThreads == MetricsOf(t, ids[i]).numThreads
      ensures us[i].filedesc == MetricsOf(t, ids[i]).filedesc
    {
      MineIsMember(t, ids, us, gname, i);
    }
    SumOverMembers(t, ids, us, gname, (u: Update) => 1, (id: ID) => 1);
    SumOfOnes(Having(NameOf, us, gname));
    SumIntOfOnes(Members(t, gname));
    MemoryByProcs(t, ids, us, gname);
    SumOverMembers(t, ids, us, gname, (u: Update) => u.numThreads, id => MetricsOf(t, id).numThreads);
    SumOverMembers(t, ids, us, gname, (u: Update) => if u.filedesc.open == -1 then 0 else u.filedesc.open,
                   id => if MetricsOf(t, id).filedesc.open == -1 then 0 else MetricsOf(t, id).filedesc.open);
  }

  lemma MemoryByProcs(t: TState, ids: seq<ID>, us: seq<Update>, gname: string)
    requires ReportsAll(t, ids, us)
    requires forall i | 0 <= i < |us| && ids[i] in Members(t, gname) :: us[i].memory == MetricsOf(t, ids[i]).memory
    ensures var mine, procs := Having(NameOf, us, gname), Members(t, gname);
      && SumOf(mine, (u: Update) => u.memory.residentBytes)
         == SumInt(procs, id => MetricsOf(t, id).memory.residentBytes)
      && SumOf(mine, (u: Update) => u.memory.virtualBytes) == SumInt(procs, id => MetricsOf(t, id).memory.virtualBytes)
      && SumOf(mine, (u: Update) => u.memory.vmSwapBytes) == SumInt(procs, id => MetricsOf(t, id).memory.vmSwapBytes)
      && SumOf(mine, (u: Update) => u.memory.proportionalBytes)
           == SumInt(procs, id => MetricsOf(t, id).memory.proportionalBytes)
      && SumOf(mine, (u: Update) => u.memory.proportionalSwapBytes)
           == SumInt(procs, id => MetricsOf(t, id).memory.proportionalSwapBytes)
  {
    SumOverMembers(t, ids, us, gname, (u: Update) => u.memory.residentBytes,
      id => MetricsOf(t, id).memory.residentBytes);
    SumOverMembers(t, ids, us, gname, (u: Update) => u.memory.virtualBytes, id => MetricsOf(t, id).memory.virtualBytes);
    SumOverMembers(t, ids, us, gname, (u: Update) => u.memory.vmSwapBytes, id => MetricsOf(t, id).memory.vmSwapBytes);
    SumOverMembers(t, ids, us, gname, (u: Update) => u.memory.proportionalBytes,
                   id => MetricsOf(t, id).memory.proportionalBytes);
    SumOverMembers(t, ids, us, gname, (u: Update) => u.memory.proportionalSwapBytes,
                   id => MetricsOf(t, id).memory.proportionalSwapBytes);
  }

  lemma TalliesByProcs(t: TState, ids: seq<ID>, us: seq<Update>, gname: string, g: Group)
    requires ReportsAll(t, ids, us) && HasTallies(g, Having(NameOf, us, gname))
    ensures TalliesOfProcs(g, t, Members(t, gname))
  {
    forall i | 0 <= i < |us| && ids[i] in Members(t, gname) ensures us[i].states == MetricsOf(t, ids[i]).states {
      MineIsMember(t, ids, us, gname, i);
    }
    SumOverMembers(t, ids, us, gname, (u: Update) => u.states.running, id => MetricsOf(t, id).states.running);
    SumOverMembers(t, ids, us, gname, (u: Update) => u.states.sleeping, id => MetricsOf(t, id).states.sleeping);
    SumOverMembers(t, ids, us, gname, (u: Update) => u.states.waiting, id => MetricsOf(t, id).states.waiting);
    SumOverMembers(t, ids, us, gname, (u: Update) => u.states.zombie, id => MetricsOf(t, id).states.zombie);
    SumOverMembers(t, ids, us, gname, (u: Update) => u.states.other, id => MetricsOf(t, id).states.other);
    forall w ensures WchanOfProcs(g, t, Members(t, gname), w) {
      assert HasWchan(g, Having(NameOf, us, gname), w);
      WchanByProcs(t, ids, us, gname, g, w);
    }
  }

  lemma WaitingIsCounted(t: TState, id: ID, w: string)
    requires id in LiveIds(t)
    ensures WchanCount(t.tracked[id].value, ThreadsOf(t, id), w) == WaitingOn(t, id, w)
  {
    var threads := ThreadsOf(t, id);
    assert WaitingIn(threads, w) == set tid | tid in threads && threads[tid].wchan == w;
  }

  lemma WchanOfReport(t: TState, id: ID, u: Update, w: string)
    requires id in LiveIds(t) && IsUpdate(t.tracked[id].value, u)
    ensures At(u.wchans, w) == WaitingOn(t, id, w) && (w in u.wchans <==> WaitingOn(t, id, w) > 0)
  {
    WaitingIsCounted(t, id, w);
    assert CountsWchans(t.tracked[id].value, ThreadsOf(t, id), u.wchans);
  }

  lemma WchanByProcs(t: TState, ids: seq<ID>, us: seq<Update>, gname: string, g: Group, w: string)
    requires ReportsAll(t, ids, us) && HasWchan(g, Having(NameOf, us, gname), w)
    ensures WchanOfProcs(g, t, Members(t, gname), w)
  {
    forall i | 0 <= i < |us| && ids[i] in Members(t, gname) ensures At(us[i].wchans, w) == WaitingOn(t, ids[i], w) {
      MineIsMember(t, ids, us, gname, i);
      WchanOfReport(t, ids[i], us[i], w);
    }
    SumOverMembers(t, ids, us, gname, (u: Update) => At(u.wchans, w), id => WaitingOn(t, id, w));
    SomeoneWaits(t, ids, us, gname, w);
  }

  lemma SomeoneWaits(t: TState, ids: seq<ID>, us: seq<Update>, gname: string, w: string)
    requires ReportsAll(t, ids, us)
    ensures var mine := Having(NameOf, us, gname);
      (exists i :: 0 <= i < |mine| && w in mine[i].wchans) <==>
        exists id :: id in Members(t, gname) && WaitingOn(t, id, w) > 0
  {
    var mine := Having(NameOf, us, gname);
    if i :| 0 <= i < |mine| && w in mine[i].wchans {
      var id := ReportHasMember(t, ids, us, gname, mine[i]);
      WchanOfReport(t, id, mine[i], w);
    }
    if id :| id in Members(t, gname) && WaitingOn(t, id, w) > 0 {
      var i := MemberHasReport(t, ids, us, gname, id);
      WchanOfReport(t, id, us[i], w);
      var j :| 0 <= j < |mine| && mine[j] == us[i];
      assert w in mine[j].wchans;
    }
  }

  lemma OldestByProcs(t: TState, ids: seq<ID>, us: seq<Update>, gname: string, g: Group)
    requires ReportsAll(t, ids, us) && HasExtremes(g, Having(NameOf, us, gname))
    ensures OldestOfProcs(g, t, Members(t, gname))
  {
    var mine, procs := Having(NameOf, us, gname), Members(t, gname);
    if procs == {} {
      if mine != [] {
        var id := ReportHasMember(t, ids, us, gname, mine[0]);
      }
    } else if forall id | id in procs :: StartTimeOf(t, id) != NO_TIME {
      forall u | u in mine ensures u.start != NO_TIME {
        var id := ReportHasMember(t, ids, us, gname, u);
      }
      var some :| some in procs;
      var k := MemberHasReport(t, ids, us, gname, some);
      forall id | id in procs ensures g.oldestStartTime <= StartTimeOf(t, id) {
        var i := MemberHasReport(t, ids, us, gname, id);
        var j :| 0 <= j < |mine| && mine[j] == us[i];
      }
      var i :| 0 <= i < |mine| && g.oldestStartTime == mine[i].start;
      var id := ReportHasMember(t, ids, us, gname, mine[i]);
      assert g.oldestStartTime == StartTimeOf(t, id);
    }
  }

  lemma WorstByProcs(t: TState, ids: seq<ID>, us: seq<Update>, gname: string, g: Group)
    requires ReportsAll(t, ids, us) && HasExtremes(g, Having(NameOf, us, gname))
    ensures WorstOfProcs(g, t, Members(t, gname))
  {
    var mine, procs := Having(NameOf, us, gname), Members(t, gname);
    forall id | id in procs ensures SharesAtMost(MetricsOf(t, id).filedesc, g.worstFDratio) {
      var i := MemberHasReport(t, ids, us, gname, id);
      var j :| 0 <= j < |mine| && mine[j] == us[i];
      assert SharesAtMost(mine[j].filedesc, g.worstFDratio);
    }
    if i :| 0 <= i < |mine| && Shares(mine[i].filedesc, g.worstFDratio) {
      var id := ReportHasMember(t, ids, us, gname, mine[i]);
      assert Shares(MetricsOf(t, id).filedesc, g.worstFDratio);
    }
  }

  // The cgroup flags: a conflict exactly when two processes of the group differ in path.
  ghost predicate PathOfProcs(g: Group, t: TState, procs: set<ID>) {
    && (g.cgroupV2Conflict <==> exists a, b :: a in procs && b in procs && PathOf(t, a) != PathOf(t, b))
    && (!g.cgroupV2Conflict ==> forall id | id in procs :: PathOf(t, id) == g.cgroupV2Path)
    && (procs == {} ==> g.cgroupV2Path == "")
  }

  // Two reports of the group differ in path exactly when two processes do.
  lemma PathsDiffer(t: TState, ids: seq<ID>, us: seq<Update>, gname: string)
    requires ReportsAll(t, ids, us)
    ensures var mine, procs := Having(NameOf, us, gname), Members(t, gname);
      (exists u, v :: u in mine && v in mine && u.cgroupV2Path != v.cgroupV2Path) <==>
      (exists a, b :: a in procs && b in procs && PathOf(t, a) != PathOf(t, b))
  {
    var mine, procs := Having(NameOf, us, gname), Members(t, gname);
    if u, v :| u in mine && v in mine && u.cgroupV2Path != v.cgroupV2Path {
      var a := ReportHasMember(t, ids, us, gname, u);
      var b := ReportHasMember(t, ids, us, gname, v);
      assert PathOf(t, a) != PathOf(t, b);
    }
    if a, b :| a in procs && b in procs && PathOf(t, a) != PathOf(t, b) {
      var i := MemberHasReport(t, ids, us, gname, a);
      var j := MemberHasReport(t, ids, us, gname, b);
      assert us[i].cgroupV2Path != us[j].cgroupV2Path;
    }
  }

  lemma PathByProcs(t: TState, ids: seq<ID>, us: seq<Update>, gname: string)
    requires ReportsAll(t, ids, us)
    ensures PathOfProcs(Aggregate(Having(NameOf, us, gname)), t, Members(t, gname))
  {
    var mine := Having(NameOf, us, gname);
    CgroupVerdict(mine);
    PathsDiffer(t, ids, us, gname);
    if !Aggregate(mine).cgroupV2Conflict {
      forall id | id in Members(t, gname) ensures PathOf(t, id) == Aggregate(mine).cgroupV2Path {
        var i := MemberHasReport(t, ids, us, gname, id);
      }
    }
    if mine != [] {
      var id := ReportHasMember(t, ids, us, gname, mine[0]);
    }
  }

  // ---------------------------------------------------------------- threads of the processes

  ghost function ThreadsNamed(t: TState, id: ID, name: string): set<ThreadID> {
    set tid | tid in ThreadsOf(t, id) && ThreadsOf(t, id)[tid].name == name
  }

  // What the threads of that name add up to, in one process and over all processes of the group.
  ghost function SumOfOwn(t: TState, id: ID, name: string, f: Delta -> int): int {
    SumInt(ThreadsNamed(t, id, name), tid =>
      if tid in ThreadsOf(t, id) then f(ThreadsOf(t, id)[tid].latest) else 0)
  }

  ghost function SumOfThreads(t: TState, procs: set<ID>, name: string, f: Delta -> int): int {
    SumInt(procs, id => SumOfOwn(t, id, name, f))
  }

  function OfLatest(f: Delta -> int): ThreadUpdate -> int {
    (u: ThreadUpdate) => f(u.latest)
  }

  lemma ThreadsOfOne(threads: ThreadMap, tids: seq<ThreadID>, us: seq<ThreadUpdate>, name: string, f: Delta -> int)
    requires ListsThreads(threads, tids, us)
    ensures SumOf(Having(ThreadName, us, name), OfLatest(f)) ==
            SumInt((set tid | tid in threads && threads[tid].name == name),
                   tid => if tid in threads then f(threads[tid].latest) else 0)
  {
    var named := set tid | tid in threads && threads[tid].name == name;
    var h := (tid: ThreadID) => if tid in threads then f(threads[tid].latest) else 0;
    var hn := (tid: ThreadID) => if tid in named then h(tid) else 0;
    SumOfHavingInts(ThreadName, us, name, OfLatest(f));
    forall i | 0 <= i < |us| ensures OnlyInts(ThreadName, name, OfLatest(f))(us[i]) == hn(tids[i]) {
      assert tids[i] in tids;
    }
    SumOfSame(us, OnlyInts(ThreadName, name, OfLatest(f)), tids, hn);
    SumOfInts(tids, threads.Keys, hn);
    SumIntIgnoresZeros(named, threads.Keys, h, hn);
  }

  function OfThreads(name: string, f: Delta -> int): Update -> int {
    (u: Update) => SumOf(Having(ThreadName, u.threads, name), OfLatest(f))
  }

  lemma {:induction false} HavingJoined(a: seq<ThreadUpdate>, b: seq<ThreadUpdate>, name: string)
    ensures Having(ThreadName, a + b, name) == Having(ThreadName, a, name) + Having(ThreadName, b, name)
  {
    if b == [] {
      assert a + b == a;
    } else {
      HavingJoined(a, b[..|b| - 1], name);
      assert (a + b)[..|a + b| - 1] == a + b[..|b| - 1];
    }
  }

  lemma {:induction false} BatchIsOfReports(us: seq<Update>, gname: string, name: string, f: Delta -> int)
    ensures SumOf(Having(ThreadName, Batch(us, gname), name), OfLatest(f))
         == SumOf(Having(NameOf, us, gname), OfThreads(name, f))
  {
    if us != [] {
      var front, u := us[..|us| - 1], us[|us| - 1];
      BatchIsOfReports(front, gname, name, f);
      if u.groupName == gname {
        HavingJoined(Batch(front, gname), u.threads, name);
        SumOfJoined(Having(ThreadName, Batch(front, gname), name), Having(ThreadName, u.threads, name), OfLatest(f));
        assert (Having(NameOf, front, gname) + [u])[..|Having(NameOf, front, gname)|] == Having(NameOf, front, gname);
      }
    }
  }

  lemma BatchByProcs(t: TState, ids: seq<ID>, us: seq<Update>, gname: string, name: string, f: Delta -> int)
    requires ReportsAll(t, ids, us)
    ensures SumOf(Having(ThreadName, Batch(us, gname), name), OfLatest(f))
         == SumOfThreads(t, Members(t, gname), name, f)
  {
    forall i | 0 <= i < |us| && ids[i] in Members(t, gname)
      ensures OfThreads(name, f)(us[i]) == SumOfOwn(t, ids[i], name, f)
    {
      MineIsMember(t, ids, us, gname, i);
      ReportAddsItsThreads(t, ids[i], us[i], name, f);
    }
    BatchIsOfReports(us, gname, name, f);
    SumOverMembers(t, ids, us, gname, OfThreads(name, f), id => SumOfOwn(t, id, name, f));
  }

  lemma ReportAddsItsThreads(t: TState, id: ID, u: Update, name: string, f: Delta -> int)
    requires id in LiveIds(t) && IsUpdate(t.tracked[id].value, u)
    ensures OfThreads(name, f)(u) == SumOfOwn(t, id, name, f)
  {
    var tids :| ListsThreads(ReportedThreads(t.tracked[id].value), tids, u.threads);
    assert ReportedThreads(t.tracked[id].value) == ThreadsOf(t, id);
    ThreadsOfOne(ThreadsOf(t, id), tids, u.threads, name, f);
  }

  lemma {:induction false} SumSeqAt(us: seq<ThreadUpdate>, k: Counter)
    ensures SumSeq(us, Latest).Of(k) == SumOf(us, OfLatest((d: Delta) => d.Of(k)))
  {
    if us != [] {
      SumSeqAt(us[..|us| - 1], k);
      SumsAt(SumSeq(us[..|us| - 1], Latest), us[|us| - 1].latest.Exact(), k);
    }
  }

  // The number of threads of a name that a group shows is the number its processes have, and what they add to
  // each counter is what those threads' counts grew by.
  lemma ThreadsByProcs(t: TState, ids: seq<ID>, us: seq<Update>, gname: string, name: string)
    requires ReportsAll(t, ids, us)
    ensures var batch, procs := Batch(us, gname), Members(t, gname);
      && |Having(ThreadName, batch, name)| == SumInt(procs, id => |ThreadsNamed(t, id, name)|)
      && forall k: Counter :: CycleSum(batch, name).Of(k) == SumOfThreads(t, procs, name, (d: Delta) => d.Of(k))
  {
    var batch, procs := Batch(us, gname), Members(t, gname);
    var one := (d: Delta) => 1;
    BatchByProcs(t, ids, us, gname, name, one);
    SumOfAgrees(Having(ThreadName, batch, name), OfLatest(one), (u: ThreadUpdate) => 1);
    SumOfOnes(Having(ThreadName, batch, name));
    ThreadsAreCounted(t, procs, name);
    forall k: Counter ensures CycleSum(batch, name).Of(k) == SumOfThreads(t, procs, name, (d: Delta) => d.Of(k)) {
      SumSeqAt(Having(ThreadName, batch, name), k);
      BatchByProcs(t, ids, us, gname, name, (d: Delta) => d.Of(k));
    }
  }

  lemma ThreadsAreCounted(t: TState, procs: set<ID>, name: string)
    ensures SumOfThreads(t, procs, name, (d: Delta) => 1) == SumInt(procs, id => |ThreadsNamed(t, id, name)|)
  {
    var one := (d: Delta) => 1;
    forall id | id in procs ensures SumOfOwn(t, id, name, one) == |ThreadsNamed(t, id, name)| {
      SumIntAgrees(ThreadsNamed(t, id, name),
                   tid => if tid in ThreadsOf(t, id) then one(ThreadsOf(t, id)[tid].latest) else 0,
                   (tid: ThreadID) => 1);
      SumIntOfOnes(ThreadsNamed(t, id, name));
    }
    SumIntAgrees(procs, id => SumOfOwn(t, id, name, one), id => |ThreadsNamed(t, id, name)|);
  }

  lemma PathCarriesOver(removeEmpty: bool, st: GState, us: seq<Update>, gname: string)
    requires gname in Groups(removeEmpty, st, us)
    ensures var g, own := Groups(removeEmpty, st, us)[gname], Aggregate(Having(NameOf, us, gname));
      g.cgroupV2Path == own.cgroupV2Path && g.cgroupV2Conflict == own.cgroupV2Conflict
  {
    LooksUp(removeEmpty, st, us, gname);
    assert Lookup(Groups(removeEmpty, st, us), gname) == Some(Groups(removeEmpty, st, us)[gname]);
    FoldByKeyIsFold(GroupAdd, NO_GROUP, NameOf, us, gname);
  }

  ghost predicate ShowsProcs(g: Group, t: TState, procs: set<ID>) {
    && SizesOfProcs(g, t, procs) && TalliesOfProcs(g, t, procs) && PathOfProcs(g, t, procs)
    && OldestOfProcs(g, t, procs) && WorstOfProcs(g, t, procs)
  }

  lemma GroupShowsItsProcesses(removeEmpty: bool, st: GState, t: TState, ids: seq<ID>, us: seq<Update>, gname: string)
    requires ReportsAll(t, ids, us) && gname in Groups(removeEmpty, st, us)
    ensures ShowsProcs(Groups(removeEmpty, st, us)[gname], t, Members(t, gname))
  {
    var g := Groups(removeEmpty, st, us)[gname];
    GroupShowsItsReports(removeEmpty, st, us, gname);
    SizesByProcs(t, ids, us, gname, g);
    TalliesByProcs(t, ids, us, gname, g);
    OldestByProcs(t, ids, us, gname, g);
    WorstByProcs(t, ids, us, gname, g);
    PathByProcs(t, ids, us, gname);
    PathCarriesOver(removeEmpty, st, us, gname);
  }

  // The threads of a group: one entry for each name a thread of its processes has, with the number of those
  // threads, and in each counter what they add to what was remembered of the name, modulo 2^64.
  ghost predicate ShowsThreads(g: Group, t: TState, procs: set<ID>, history: Option<History>) {
    forall nt :: nt in g.threads ==> ThreadsShown(nt, t, procs, history)
  }

  ghost predicate ThreadsShown(nt: NamedThreads, t: TState, procs: set<ID>, history: Option<History>) {
    && nt.numThreads == ThreadNumber(t, procs, nt.name) > 0
    && exists gained: Tally ::
         && (forall k: Counter :: gained.Of(k) == SumOfThreads(t, procs, nt.name, (d: Delta) => d.Of(k)))
         && nt.counts == (if history.Some? && nt.name in history.value
                          then gained.Wrap().Add(history.value[nt.name].counts) else gained.Wrap())
  }

  ghost function ThreadNumber(t: TState, procs: set<ID>, name: string): int {
    SumInt(procs, id => |ThreadsNamed(t, id, name)|)
  }

  ghost predicate NameShown(g: Group, name: string) {
    exists nt :: nt in g.threads && nt.name == name
  }

  ghost predicate ShowsEveryName(g: Group, t: TState, procs: set<ID>) {
    forall name :: ThreadNumber(t, procs, name) > 0 ==> NameShown(g, name)
  }

  lemma ShownThreadIsThere(t: TState, ids: seq<ID>, us: seq<Update>, gname: string, threads: set<NamedThreads>,
                           history: Option<History>, nt: NamedThreads)
    requires ReportsAll(t, ids, us) && nt in threads && ThreadsAt(threads, Batch(us, gname), history, nt)
    ensures ThreadsShown(nt, t, Members(t, gname), history)
  {
    ThreadsByProcs(t, ids, us, gname, nt.name);
    var gained := CycleSum(Batch(us, gname), nt.name);
    assert forall k: Counter :: gained.Of(k) == SumOfThreads(t, Members(t, gname), nt.name, (d: Delta) => d.Of(k));
  }

  function ShownAs(batch: seq<ThreadUpdate>, history: Option<History>, name: string): NamedThreads {
    var sum := CycleSum(batch, name).Wrap();
    NamedThreads(name, |Having(ThreadName, batch, name)|,
                 if history.Some? && name in history.value then sum.Add(history.value[name].counts) else sum)
  }

  lemma NameIsShown(t: TState, ids: seq<ID>, us: seq<Update>, gname: string, g: Group, history: Option<History>,
                    name: string)
    requires ReportsAll(t, ids, us) && HasThreads(g, Batch(us, gname), history)
    requires ThreadNumber(t, Members(t, gname), name) > 0
    ensures NameShown(g, name)
  {
    ThreadsByProcs(t, ids, us, gname, name);
    assert ThreadsAt(g.threads, Batch(us, gname), history, ShownAs(Batch(us, gname), history, name));
  }

  lemma GroupShowsThreadsOfProcesses(removeEmpty: bool, st: GState, t: TState, ids: seq<ID>, us: seq<Update>,
                                     gname: string)
    requires ReportsAll(t, ids, us) && gname in Groups(removeEmpty, st, us)
    ensures var g, procs := Groups(removeEmpty, st, us)[gname], Members(t, gname);
      ShowsThreads(g, t, procs, Lookup(st.threadAccum, gname)) && ShowsEveryName(g, t, procs)
  {
    var g, procs, history := Groups(removeEmpty, st, us)[gname], Members(t, gname), Lookup(st.threadAccum, gname);
    GroupShowsItsThreads(removeEmpty, st, us, gname);
    forall nt | nt in g.threads ensures ThreadsShown(nt, t, procs, history) {
      ShownThreadIsThere(t, ids, us, gname, g.threads, history, nt);
    }
    forall name | ThreadNumber(t, procs, name) > 0 ensures NameShown(g, name) {
      NameIsShown(t, ids, us, gname, g, history, name);
    }
  }

  // ---------------------------------------------------------------- over whole runs

  // Update i read these metrics of the process, its threads taken in.
  ghost predicate AsRead(es: seq<Event>, i: nat, id: ID, m: Metrics) {
    exists k :: RowOf(es, i, k, id) && m == Observe(RowAt(es, i, k).metrics.value, RowAt(es, i, k).threads)
  }

  ghost predicate AllAsRead(es: seq<Event>, i: nat, t: TState, gname: string) {
    forall id | id in Members(t, gname) :: AsRead(es, i, id, MetricsOf(t, id))
  }

  // Every group a successful Update returns shows exactly the processes that are live under its name. What is
  // held of each of them is what its row in this very listing says.
  lemma {:induction false} AnswerShowsTheListing(c: Config, removeEmpty: bool, es: seq<Event>, ts: seq<TState>,
                                                 us: seq<seq<Update>>, gs: seq<GState>, outs: seq<map<string, Group>>,
                                                 i: nat, gname: string)
    requires AnsweredRun(c, removeEmpty, es, ts, us, gs, outs) && i < |es| && gname in outs[i]
    ensures ShowsProcs(outs[i][gname], ts[i + 1], Members(ts[i + 1], gname))
    ensures ShowsThreads(outs[i][gname], ts[i + 1], Members(ts[i + 1], gname), Lookup(gs[i].threadAccum, gname))
    ensures ShowsEveryName(outs[i][gname], ts[i + 1], Members(ts[i + 1], gname))
    ensures AllAsRead(es, i, ts[i + 1], gname)
  {
    assert AnswerAt(removeEmpty, es, us, gs, outs, i);
    assert GroupStep(removeEmpty, es[i], ts[i + 1], us[i], gs[i], gs[i + 1]);
    var ids :| ReportsAll(ts[i + 1], ids, us[i]);
    GroupShowsItsProcesses(removeEmpty, gs[i], ts[i + 1], ids, us[i], gname);
    GroupShowsThreadsOfProcesses(removeEmpty, gs[i], ts[i + 1], ids, us[i], gname);
    var next := ts[i + 1];
    forall id | id in Members(next, gname) ensures AsRead(es, i, id, MetricsOf(next, id)) {
      var k := LiveIsAsListed(c, es, ts, i, id);
    }
  }
}
