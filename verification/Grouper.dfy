/** `proc/grouper.go` in its own form: accumulator maps updated in place by loops over Go maps. */
module Grouping {
  import opened Wrappers
  import opened Counters
  import opened Process
  import opened Collections
  import opened Reports
  import opened GroupSpec
  import opened GrouperSpec
  import U = TrackerUpdate
  import T = Tracking

  // `groupadd` fills the group field by field.
  method AddToGroup(grp: Group, ts: Update) returns (g: Group)
    ensures g == GroupAdd(grp, ts)
  {
    g := AddSizes(grp, ts);
    g := g.(numThreads := AddU(g.numThreads, ts.numThreads));
    g := g.(counts := g.counts.Add(ts.latest), states := g.states.Add(ts.states));
    if g.oldestStartTime == NO_TIME || ts.start < g.oldestStartTime {
      g := g.(oldestStartTime := ts.start);
    }
    var wchans := AddInto(g.wchans, ts.wchans);
    g := g.(wchans := wchans);
    g := NotePath(g, ts.cgroupV2Path);
  }

  // Its first part.
  method AddSizes(grp: Group, ts: Update) returns (g: Group)
    ensures g == grp.(procs := grp.procs + 1, memory := AddMemory(grp.memory, ts.memory),
                      openFDs := AddOpen(grp.openFDs, ts.filedesc.open),
                      worstFDratio := WorstRatio(grp.worstFDratio, ts.filedesc))
  {
    g := grp.(procs := grp.procs + 1);
    g := g.(memory := Memory(AddU(g.memory.residentBytes, ts.memory.residentBytes),
                             AddU(g.memory.virtualBytes, ts.memory.virtualBytes),
                             AddU(g.memory.vmSwapBytes, ts.memory.vmSwapBytes),
                             AddU(g.memory.proportionalBytes, ts.memory.proportionalBytes),
                             AddU(g.memory.proportionalSwapBytes, ts.memory.proportionalSwapBytes)));
    if ts.filedesc.open != -1 {
      g := g.(openFDs := AddU(g.openFDs, WrapU(ts.filedesc.open)));
    }
    var openratio := RatioOf(ts.filedesc);
    if openratio.Some? && Below(g.worstFDratio, openratio.value) {
      g := g.(worstFDratio := openratio.value);
    }
  }

  // Its last part, which keeps the three flags of cgroup membership.
  method NotePath(grp: Group, path: string) returns (g: Group)
    ensures var v := Judge(VerdictOf(grp), path);
      g == grp.(cgroupV2Path := v.path, cgroupV2SawEmpty := v.sawEmpty, cgroupV2Conflict := v.conflict)
  {
    g := grp;
    if !g.cgroupV2Conflict {
      if path == "" {
        g := g.(cgroupV2SawEmpty := true);
      } else if g.cgroupV2Path == "" {
        g := g.(cgroupV2Path := path);
      } else if g.cgroupV2Path != path {
        g := g.(cgroupV2Conflict := true);
      }
      if g.cgroupV2SawEmpty && g.cgroupV2Path != "" {
        g := g.(cgroupV2Conflict := true);
      }
    }
  }

  class Grouper {
    const removeEmptyGroups: bool
    const tracker: T.Tracker
    var groupAccum: map<string, Counts>
    var threadAccum: map<string, History>

    ghost function Model(): GState
      reads this
    {
      GState(groupAccum, threadAccum)
    }

    constructor (config: TrackerSpec.Config, removeEmptyGroups: bool)
      ensures this.removeEmptyGroups == removeEmptyGroups
      ensures fresh(tracker) && tracker.config == config
      ensures tracker.Valid() && tracker.Procs() == {} && tracker.Model() == TrackerSpec.EMPTY
      ensures Model() == EMPTY_GROUPS
    {
      this.removeEmptyGroups := removeEmptyGroups;
      tracker := new T.Tracker(config);
      groupAccum := map[];
      threadAccum := map[];
    }

    method Threads(gname: string, tracked: seq<ThreadUpdate>) returns (ret: set<NamedThreads>)
      modifies this`threadAccum
      ensures var step := ThreadStep(Lookup(old(threadAccum), gname), tracked);
        && threadAccum == (if step.Some? then old(threadAccum)[gname := step.value] else old(threadAccum) - {gname})
        && ret == (if step.Some? then step.value.Values else {})
    {
      if |tracked| == 0 {
        threadAccum := threadAccum - {gname};
        return {};
      }
      var threads: History := map[];
      for i := 0 to |tracked|
        invariant threads == ThreadTotals(tracked[..i])
      {
        assert tracked[..i + 1][..i] == tracked[..i];
        var nc := tracked[i];
        var curthr := if nc.threadName in threads then threads[nc.threadName] else NO_THREADS;
        threads := threads[nc.threadName :=
          NamedThreads(nc.threadName, curthr.numThreads + 1, curthr.counts.Add(nc.latest))];
      }
      assert tracked[..|tracked|] == tracked;
      if gname in threadAccum {
        threads := AddHistory(threads, threadAccum[gname]);
      }
      assert threads == WithHistory(ThreadTotals(tracked), if gname in threadAccum then threadAccum[gname] else map[]);
      threadAccum := threadAccum[gname := threads];
      ret := threads.Values;
    }

    method AddHistory(now: History, history: History) returns (threads: History)
      ensures threads == WithHistory(now, history)
    {
      threads := now;
      var todo := now.Keys;
      while todo != {}
        invariant todo <= now.Keys
        invariant threads == map name | name in now ::
                  if name in todo then now[name] else Recall(now[name], history, name)
      {
        var tname :| tname in todo;
        todo := todo - {tname};
        if tname in history {
          var counts := threads[tname];
          threads := threads[tname := counts.(counts := counts.counts.Add(history[tname].counts))];
        }
      }
    }

    // The first loop of `groups`.
    method AggregateReports(tracked: seq<Update>)
      returns (groups: map<string, Group>, threadsByGroup: map<string, seq<ThreadUpdate>>)
      ensures groups == AggregateAll(tracked)
      ensures forall g :: BatchIn(threadsByGroup, g) == Batch(tracked, g)
    {
      groups, threadsByGroup := map[], map[];
      for i := 0 to |tracked|
        invariant groups == AggregateAll(tracked[..i])
        invariant forall g :: BatchIn(threadsByGroup, g) == Batch(tracked[..i], g)
      {
        assert tracked[..i + 1][..i] == tracked[..i];
        var update := tracked[i];
        var g := AddToGroup(if update.groupName in groups then groups[update.groupName] else NO_GROUP, update);
        groups := groups[update.groupName := g];
        if |update.threads| > 0 {
          var sofar := if update.groupName in threadsByGroup then threadsByGroup[update.groupName] else [];
          threadsByGroup := threadsByGroup[update.groupName := sofar + update.threads];
        }
      }
      assert tracked[..|tracked|] == tracked;
    }

    // The second loop: add the accumulated counts and update the accumulators.
    method AddAccumulated(now: map<string, Group>, batches: map<string, seq<ThreadUpdate>>)
      returns (groups: map<string, Group>)
      modifies this
      ensures forall g :: Lookup(groups, g) ==
                if g in now then Some(Present(old(Model()), now[g], g, BatchIn(batches, g))) else None
      ensures forall g :: Lookup(groupAccum, g) ==
                if g in now then Some(Accumulate(old(Model()), now[g], g)) else Lookup(old(groupAccum), g)
      ensures forall g :: Lookup(threadAccum, g) ==
                if g in now then ThreadsNow(old(Model()), g, BatchIn(batches, g)) else Lookup(old(threadAccum), g)
    {
      ghost var st := Model();
      groups := now;
      var done: set<string> := {};
      while now.Keys - done != {}
        invariant done <= now.Keys
        invariant forall g :: Lookup(groups, g) ==
                    if g in done then Some(Present(st, now[g], g, BatchIn(batches, g))) else Lookup(now, g)
        invariant forall g :: Lookup(groupAccum, g) ==
                    if g in done then Some(Accumulate(st, now[g], g)) else Lookup(st.groupAccum, g)
        invariant forall g :: Lookup(threadAccum, g) ==
                    if g in done then ThreadsNow(st, g, BatchIn(batches, g)) else Lookup(st.threadAccum, g)
        decreases now.Keys - done
      {
        var gname :| gname in now.Keys - done;
        assert Lookup(groups, gname) == Lookup(now, gname);
        var group := AccumulateOne(gname, groups[gname], BatchIn(batches, gname), st);
        groups := groups[gname := group];
        done := done + {gname};
      }
    }

    static function BatchIn(batches: map<string, seq<ThreadUpdate>>, gname: string): seq<ThreadUpdate> {
      if gname in batches then batches[gname] else []
    }

    method AccumulateOne(gname: string, now: Group, batch: seq<ThreadUpdate>, ghost st: GState) returns (group: Group)
      requires Lookup(groupAccum, gname) == Lookup(st.groupAccum, gname)
      requires Lookup(threadAccum, gname) == Lookup(st.threadAccum, gname)
      modifies this
      ensures group == Present(st, now, gname, batch)
      ensures forall g ::
              Lookup(groupAccum, g) ==
              if g == gname then Some(Accumulate(st, now, gname)) else Lookup(old(groupAccum), g)
      ensures forall g ::
              Lookup(threadAccum, g) == if g == gname then ThreadsNow(st, gname, batch) else Lookup(old(threadAccum), g)
    {
      group := now;
      if gname in groupAccum {
        group := group.(counts := group.counts.Add(groupAccum[gname]));
      }
      groupAccum := groupAccum[gname := group.counts];
      var threads := Threads(gname, batch);
      group := group.(threads := threads);
    }

    // The third loop: groups observed in the past that are not running now.
    method AddAbsent(present: map<string, Group>) returns (groups: map<string, Group>)
      modifies this
      ensures forall g :: Lookup(groups, g) ==
                if g in present then Some(present[g])
                else if g in old(groupAccum) && !removeEmptyGroups then Some(NO_GROUP.(counts := old(groupAccum)[g]))
                else None
      ensures forall g :: Lookup(groupAccum, g) ==
                if g in old(groupAccum) && (g in present || !removeEmptyGroups) then Some(old(groupAccum)[g]) else None
      ensures forall g :: Lookup(threadAccum, g) ==
                if g in old(groupAccum) && g !in present && removeEmptyGroups then None else Lookup(old(threadAccum), g)
    {
      ghost var accum, histories := groupAccum, threadAccum;
      var known := groupAccum.Keys;
      groups := present;
      var done: set<string> := {};
      while known - done != {}
        invariant done <= known
        invariant forall g :: Lookup(groups, g) ==
                    if g in present then Some(present[g])
                    else if g in done && !removeEmptyGroups then Some(NO_GROUP.(counts := accum[g]))
                    else None
        invariant forall g :: Lookup(groupAccum, g) ==
                    if g in done && g !in present && removeEmptyGroups then None else Lookup(accum, g)
        invariant forall g :: Lookup(threadAccum, g) ==
                    if g in done && g !in present && removeEmptyGroups then None else Lookup(histories, g)
        decreases known - done
      {
        var gname :| gname in known - done;
        assert Lookup(groupAccum, gname) == Lookup(accum, gname);
        assert gname in groups <==> Lookup(groups, gname).Some?;
        if gname !in groups {
          groups := AddOrForget(gname, groups);
        }
        done := done + {gname};
      }
    }

    method AddOrForget(gname: string, soFar: map<string, Group>) returns (groups: map<string, Group>)
      requires gname in groupAccum
      modifies this
      ensures forall g :: Lookup(groups, g) ==
                if g == gname && !removeEmptyGroups then Some(NO_GROUP.(counts := old(groupAccum)[g]))
                else Lookup(soFar, g)
      ensures forall g ::
              Lookup(groupAccum, g) == if g == gname && removeEmptyGroups then None else Lookup(old(groupAccum), g)
      ensures forall g ::
              Lookup(threadAccum, g) == if g == gname && removeEmptyGroups then None else Lookup(old(threadAccum), g)
    {
      groups := soFar;
      if removeEmptyGroups {
        groupAccum := groupAccum - {gname};
        threadAccum := threadAccum - {gname};
      } else {
        groups := groups[gname := NO_GROUP.(counts := groupAccum[gname])];
      }
    }

    // Grouper.groups: the groups of this cycle, and the new history.
    method Groups(tracked: seq<Update>) returns (groups: map<string, Group>)
      modifies this
      ensures groups == GrouperSpec.Groups(removeEmptyGroups, old(Model()), tracked)
      ensures Model() == NextGState(removeEmptyGroups, old(Model()), tracked)
    {
      ghost var st := Model();
      var now, batches := AggregateReports(tracked);
      var present := AddAccumulated(now, batches);
      ghost var accum, histories := groupAccum, threadAccum;
      groups := AddAbsent(present);
      forall g
        ensures Lookup(groups, g) == Lookup(GrouperSpec.Groups(removeEmptyGroups, st, tracked), g)
        ensures Lookup(groupAccum, g) == Lookup(NextGroupAccum(removeEmptyGroups, st, tracked), g)
        ensures Lookup(threadAccum, g) == Lookup(NextThreadAccum(removeEmptyGroups, st, tracked), g)
      {
        LooksUp(removeEmptyGroups, st, tracked, g);
        assert BatchIn(batches, g) == Batch(tracked, g);
        assert g in present <==> Lookup(present, g).Some?;
        assert g in accum <==> Lookup(accum, g).Some?;
      }
      SameLookups(groups, GrouperSpec.Groups(removeEmptyGroups, st, tracked));
      SameLookups(groupAccum, NextGroupAccum(removeEmptyGroups, st, tracked));
      SameLookups(threadAccum, NextThreadAccum(removeEmptyGroups, st, tracked));
    }

    // Grouper.Update. The ghost results name the choices the map iterations made.
    method Update(procs: ProcIterator, clock: U.Clock)
      returns (groups: map<string, Group>, err: bool, ghost order: seq<ID>, ghost ids: seq<ID>, ghost us: seq<Update>)
      requires tracker.Valid() && procs.Valid()
      requires !procs.failed ==> U.Walkable(tracker.config, tracker.Model(), procs.Remaining(), clock)
      modifies this, tracker, tracker.Procs(), procs
      ensures tracker.Valid() && fresh(tracker.Procs() - old(tracker.Procs()))
      ensures err == old(procs.failed)
      ensures err ==>
        && groups == map[] && Model() == old(Model())
        && tracker.Model()
           == TrackerSpec.ScanRows(U.Begin(old(tracker.Model()), clock), old(procs.Remaining()), clock.now).0
      ensures !err ==>
        && T.Updates(tracker.config, old(tracker.Model()), old(procs.Remaining()), clock, order,
                     tracker.Model(), ids, us)
        && groups == GrouperSpec.Groups(removeEmptyGroups, old(Model()), us)
        && Model() == NextGState(removeEmptyGroups, old(Model()), us)
    {
      var tracked;
      tracked, err, order, ids := tracker.Update(procs, clock);
      us := tracked;
      if err {
        groups := map[];
      } else {
        groups := AddUp(tracked, tracker.Model());
      }
    }

    // The tracker is left alone.
    method AddUp(tracked: seq<Update>, ghost t: TrackerSpec.TState) returns (groups: map<string, Group>)
      requires tracker.Valid() && tracker.Model() == t
      modifies this
      ensures tracker.Valid() && tracker.Model() == t && tracker.Procs() == old(tracker.Procs())
      ensures groups == GrouperSpec.Groups(removeEmptyGroups, old(Model()), tracked)
      ensures Model() == NextGState(removeEmptyGroups, old(Model()), tracked)
    {
      groups := Groups(tracked);
    }
  }
}
