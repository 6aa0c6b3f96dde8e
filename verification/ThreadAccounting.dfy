/** Thread accounting: what a process's thread map holds after an update, and what the per-name thread
    totals of a group are over many cycles. */
module ThreadAccounting {
  import opened Wrappers
  import opened Counters
  import opened Process
  import opened Collections
  import opened TrackerSpec
  import opened TrackerUpdate
  import opened TrackerRuns
  import opened Reports
  import opened GroupSpec
  import opened GrouperSpec
  import opened Accounting
  import opened Observations
  import opened Conservation

  // ---------------------------------------------------------------- one process

  ghost predicate Seen(threads: seq<Thread>, tid: ThreadID) {
    exists i :: 0 <= i < |threads| && threads[i].tid == tid
  }

  ghost predicate DistinctThreads(threads: seq<Thread>) {
    forall i, j | 0 <= i < j < |threads| :: threads[i].tid != threads[j].tid
  }

  lemma {:induction false} MergeIsExact(known: ThreadMap, threads: seq<Thread>, now: Time, tid: ThreadID)
    ensures var m := MergeThreads(known, threads, now);
      && (tid in m <==> tid in known || Seen(threads, tid))
      && (Seen(threads, tid) ==> m[tid].lastUpdate == now)
      && (!Seen(threads, tid) && tid in known ==> m[tid] == known[tid])
      && (DistinctThreads(threads) ==> forall i | 0 <= i < |threads| && threads[i].tid == tid ::
            m[tid] == SeenThread(known, threads[i], now))
  {
    if threads != [] {
      var front, thr := threads[..|threads| - 1], threads[|threads| - 1];
      MergeIsExact(known, front, now, tid);
      assert Seen(threads, tid) <==> Seen(front, tid) || thr.tid == tid by {
        assert forall i | 0 <= i < |front| :: front[i] == threads[i];
      }
      if DistinctThreads(threads) && thr.tid == tid {
        assert !Seen(front, tid);
      }
    }
  }

  function Voluntary(thr: Thread): int {
    thr.counts.ctxVoluntary
  }

  function Nonvoluntary(thr: Thread): int {
    thr.counts.ctxNonvoluntary
  }

  lemma AddUAbsorbs(total: int, a: u64)
    ensures AddU(WrapU(total), a) == WrapU(total + a)
  {
    WrapUAbsorbs(total, a);
  }

  lemma {:induction false} AddThreadsSums(m: Metrics, threads: seq<Thread>)
    ensures AddThreads(m, threads).counts.ctxVoluntary == WrapU(m.counts.ctxVoluntary + SumOf(threads, Voluntary))
    ensures AddThreads(m, threads).counts.ctxNonvoluntary
            == WrapU(m.counts.ctxNonvoluntary + SumOf(threads, Nonvoluntary))
  {
    if threads != [] {
      var front, thr := threads[..|threads| - 1], threads[|threads| - 1];
      AddThreadsSums(m, front);
      AddUAbsorbs(m.counts.ctxVoluntary + SumOf(front, Voluntary), thr.counts.ctxVoluntary);
      AddUAbsorbs(m.counts.ctxNonvoluntary + SumOf(front, Nonvoluntary), thr.counts.ctxNonvoluntary);
    }
  }

  lemma {:induction false} AddThreadsKeeps(m: Metrics, threads: seq<Thread>)
    ensures var r := AddThreads(m, threads);
      r == m.(counts := m.counts.(ctxVoluntary := r.counts.ctxVoluntary, ctxNonvoluntary := r.counts.ctxNonvoluntary),
              states := r.states)
  {
    if threads != [] {
      AddThreadsKeeps(m, threads[..|threads| - 1]);
    }
  }

  lemma {:induction false} AddThreadsStates(m: Metrics, threads: seq<Thread>)
    ensures var s := AddThreads(m, threads).states;
      && s.running == m.states.running + SumOf(threads, (thr: Thread) => thr.states.running)
      && s.sleeping == m.states.sleeping + SumOf(threads, (thr: Thread) => thr.states.sleeping)
      && s.waiting == m.states.waiting + SumOf(threads, (thr: Thread) => thr.states.waiting)
      && s.zombie == m.states.zombie + SumOf(threads, (thr: Thread) => thr.states.zombie)
      && s.other == m.states.other + SumOf(threads, (thr: Thread) => thr.states.other)
  {
    if threads != [] {
      AddThreadsStates(m, threads[..|threads| - 1]);
    }
  }

  // What is recorded of a process: with threads at hand its context switches are the sums over them, modulo
  // 2^64, whatever the process itself reported; their states are added to its own; nothing else changes.
  lemma ObservedSwitches(m: Metrics, threads: seq<Thread>)
    ensures var o := Observe(m, threads);
      && (threads == [] ==> o == m)
      && (threads != [] ==>
            && o.counts.ctxVoluntary == WrapU(SumOf(threads, Voluntary))
            && o.counts.ctxNonvoluntary == WrapU(SumOf(threads, Nonvoluntary))
            && o.states.running == m.states.running + SumOf(threads, (thr: Thread) => thr.states.running)
            && o.states.sleeping == m.states.sleeping + SumOf(threads, (thr: Thread) => thr.states.sleeping)
            && o.states.waiting == m.states.waiting + SumOf(threads, (thr: Thread) => thr.states.waiting)
            && o.states.zombie == m.states.zombie + SumOf(threads, (thr: Thread) => thr.states.zombie)
            && o.states.other == m.states.other + SumOf(threads, (thr: Thread) => thr.states.other)
            && o == m.(counts := m.counts.(ctxVoluntary := o.counts.ctxVoluntary,
                                           ctxNonvoluntary := o.counts.ctxNonvoluntary),
                       states := o.states))
  {
    var reset := m.(counts := m.counts.(ctxNonvoluntary := 0, ctxVoluntary := 0));
    AddThreadsSums(reset, threads);
    AddThreadsKeeps(reset, threads);
    AddThreadsStates(reset, threads);
  }

  // After an update the thread map holds exactly the threads just observed, each with its latest counts
  // and the increase since the previous observation; a process with one thread keeps none.
  lemma ThreadsAreObserved(p: ProcState, m: Metrics, threads: seq<Thread>, now: Time, tid: ThreadID)
    requires ProcBefore(p, now)
    ensures var next := UpdateProc(p, m, threads, now).threads;
      && (tid in next <==> |threads| > 1 && Seen(threads, tid))
      && (DistinctThreads(threads) && |threads| > 1 ==> forall i | 0 <= i < |threads| && threads[i].tid == tid ::
            && next[tid].accum == threads[i].counts
            && next[tid].name == threads[i].name
            && next[tid].latest
               == (if tid in p.threads then threads[i].counts.Sub(p.threads[tid].accum) else NO_COUNTS))
  {
    MergeIsExact(p.threads, threads, now, tid);
  }

  // What the tracker keeps of a thread of a live process.
  function ThreadOf(t: TState, id: ID, tid: ThreadID): Option<TrackedThread> {
    if id in LiveIds(t) then Lookup(t.tracked[id].value.threads, tid) else None
  }

  // The thread is kept from state i to state j of the run.
  ghost predicate KeepsThread(ts: seq<TState>, i: nat, j: nat, id: ID, tid: ThreadID) {
    i <= j < |ts| && forall k | i <= k <= j :: ThreadOf(ts[k], id, tid).Some?
  }

  lemma {:induction false} StartIsExact(threads: seq<Thread>, tid: ThreadID)
    ensures var m := StartThreads(threads);
      && (tid in m <==> Seen(threads, tid))
      && (DistinctThreads(threads) ==> forall i | 0 <= i < |threads| && threads[i].tid == tid ::
            && m[tid].name == threads[i].name && m[tid].wchan == threads[i].wchan
            && m[tid].accum == threads[i].counts && m[tid].latest == NO_COUNTS)
  {
    if threads != [] {
      var front, thr := threads[..|threads| - 1], threads[|threads| - 1];
      StartIsExact(front, tid);
      assert forall i | 0 <= i < |front| :: front[i] == threads[i];
      if DistinctThreads(threads) && thr.tid == tid {
        assert !Seen(front, tid);
      }
    }
  }

  // The thread as row says, with what its counts grew by since it was kept last.
  ghost predicate KeptAsListed(kept: TrackedThread, thr: Thread, before: Option<TrackedThread>) {
    && kept.name == thr.name && kept.wchan == thr.wchan && kept.accum == thr.counts
    && kept.latest == (if before.Some? then thr.counts.Sub(before.value.accum) else NO_COUNTS)
  }

  // After a successful Update, the threads kept of a live process are those its row lists (of a process known
  // before, none when a single one is listed), each as listed and with its increase.
  lemma {:induction false} ThreadsAsListed(c: Config, es: seq<Event>, ts: seq<TState>, i: nat, k: nat, id: ID,
                                           tid: ThreadID)
    requires Run(c, es, ts) && RowOf(es, i, k, id) && id in LiveIds(ts[i + 1])
    ensures var threads, kept := RowAt(es, i, k).threads, ThreadOf(ts[i + 1], id, tid);
      && (kept.Some? <==> Seen(threads, tid) && (id in LiveIds(ts[i]) ==> |threads| > 1))
      && (kept.Some? && DistinctThreads(threads) ==> forall j | 0 <= j < |threads| && threads[j].tid == tid ::
            KeptAsListed(kept.value, threads[j], ThreadOf(ts[i], id, tid)))
  {
    var rows, row := es[i].listing.value, RowAt(es, i, k);
    ReachableBefore(c, es, ts, i);
    UpdateIsExact(c, ts[i], rows, es[i].clock, es[i].order);
    assert Outcome(c, ts[i], rows, es[i].clock, ts[i + 1], id);
    RowIsTheRow(rows, k, id);
    if id in LiveIds(ts[i]) {
      var p := ts[i].tracked[id].value;
      assert ProcBefore(p, es[i].clock.now);
      KnownThreadsAsListed(p, Observe(row.metrics.value, row.threads), row.threads, es[i].clock.now, tid);
    } else {
      StartIsExact(row.threads, tid);
    }
  }

  lemma KnownThreadsAsListed(p: ProcState, m: Metrics, threads: seq<Thread>, now: Time, tid: ThreadID)
    requires ProcBefore(p, now)
    ensures var kept := Lookup(UpdateProc(p, m, threads, now).threads, tid);
      && (kept.Some? <==> Seen(threads, tid) && |threads| > 1)
      && (kept.Some? && DistinctThreads(threads) ==> forall j | 0 <= j < |threads| && threads[j].tid == tid ::
            KeptAsListed(kept.value, threads[j], Lookup(p.threads, tid)))
  {
    MergeIsExact(p.threads, threads, now, tid);
  }

  // The increases recorded for the thread by the Updates from i to j.
  ghost function ThreadDeltas(es: seq<Event>, ts: seq<TState>, i: nat, j: nat, id: ID, tid: ThreadID): Tally
    requires |ts| == |es| + 1 && KeepsThread(ts, i, j, id, tid)
  {
    if i == j then ZERO else
    var front := ThreadDeltas(es, ts, i, j - 1, id, tid);
    if es[j - 1].listing.Some? then front.Plus(ThreadOf(ts[j], id, tid).value.latest.Exact()) else front
  }

  // The kernel lists a thread once.
  ghost predicate ListedOnce(e: Event, id: ID) {
    e.listing.Some? && Read(e.listing.value, id) ==> DistinctThreads(ObservedThreads(e.listing.value, id))
  }

  // One Update of a thread that is kept: its increase is what its counts grew by.
  lemma {:induction false} ThreadStepDelta(c: Config, es: seq<Event>, ts: seq<TState>, j: nat, id: ID, tid: ThreadID)
    requires Run(c, es, ts) && j < |es| && ListedOnce(es[j], id)
    requires ThreadOf(ts[j], id, tid).Some? && ThreadOf(ts[j + 1], id, tid).Some?
    ensures var before, after := ThreadOf(ts[j], id, tid).value, ThreadOf(ts[j + 1], id, tid).value;
      if es[j].listing.Some? then after.latest == after.accum.Sub(before.accum) else after == before
  {
    if rows: seq<Row> :| es[j].listing == Some(rows) {
      var e, p := es[j], ts[j].tracked[id].value;
      ReachableBefore(c, es, ts, j);
      UpdateIsExact(c, ts[j], rows, e.clock, e.order);
      assert Outcome(c, ts[j], rows, e.clock, ts[j + 1], id);
      var threads := ObservedThreads(rows, id);
      assert ProcBefore(p, e.clock.now);
      ThreadsAreObserved(p, Observed(rows, id), threads, e.clock.now, tid);
      var i :| 0 <= i < |threads| && threads[i].tid == tid;
    }
  }

  // The increase recorded by Update k is what the thread's counts grew by.
  ghost predicate DeltaAt(es: seq<Event>, ts: seq<TState>, k: nat, id: ID, tid: ThreadID) {
    && k < |es| && k + 1 < |ts| && ThreadOf(ts[k], id, tid).Some? && ThreadOf(ts[k + 1], id, tid).Some?
    && var before, after := ThreadOf(ts[k], id, tid).value, ThreadOf(ts[k + 1], id, tid).value;
       if es[k].listing.Some? then after.latest == after.accum.Sub(before.accum) else after == before
  }

  lemma {:induction false} DeltasTelescope(es: seq<Event>, ts: seq<TState>, i: nat, j: nat, id: ID, tid: ThreadID)
    requires |ts| == |es| + 1 && KeepsThread(ts, i, j, id, tid)
    requires forall k: nat | i <= k < j :: DeltaAt(es, ts, k, id, tid)
    ensures ThreadOf(ts[i], id, tid).value.accum.Add(ThreadDeltas(es, ts, i, j, id, tid).Wrap())
         == ThreadOf(ts[j], id, tid).value.accum
  {
    var first := ThreadOf(ts[i], id, tid).value.accum;
    if i == j {
      WrapKeepsCounts(first);
      AddIsExactModulo(first.Exact(), ZERO);
      PlusZero(first.Exact());
    } else {
      DeltasTelescope(es, ts, i, j - 1, id, tid);
      assert DeltaAt(es, ts, j - 1, id, tid);
      var older, newer := ThreadOf(ts[j - 1], id, tid).value.accum, ThreadOf(ts[j], id, tid).value.accum;
      OneMoreDelta(first, ThreadDeltas(es, ts, i, j - 1, id, tid), older, newer);
    }
  }

  // Over any part of any run, while the thread is kept, its increases add up to its last counts minus its
  // first, modulo 2^64.
  lemma {:induction false} ThreadDeltasTelescope(c: Config, es: seq<Event>, ts: seq<TState>, i: nat, j: nat, id: ID,
                                                 tid: ThreadID)
    requires Run(c, es, ts) && KeepsThread(ts, i, j, id, tid)
    requires forall k | i <= k < j :: ListedOnce(es[k], id)
    ensures ThreadOf(ts[i], id, tid).value.accum.Add(ThreadDeltas(es, ts, i, j, id, tid).Wrap())
         == ThreadOf(ts[j], id, tid).value.accum
  {
    forall k: nat | i <= k < j ensures DeltaAt(es, ts, k, id, tid) {
      ThreadStepDelta(c, es, ts, k, id, tid);
    }
    DeltasTelescope(es, ts, i, j, id, tid);
  }

  lemma OneMoreDelta(first: Counts, deltas: Tally, older: Counts, newer: Counts)
    requires first.Add(deltas.Wrap()) == older
    ensures first.Add(deltas.Plus(newer.Sub(older).Exact()).Wrap()) == newer
  {
    var delta := newer.Sub(older);
    SubThenAdd(newer, older);
    WrapKeepsCounts(first);
    WrapKeepsCounts(delta);
    AddIsExactModulo(first.Exact(), deltas);
    AddIsExactModulo(first.Exact().Plus(deltas), delta.Exact());
    AddIsExactModulo(first.Exact(), deltas.Plus(delta.Exact()));
    PlusAssociates(first.Exact(), deltas, delta.Exact());
  }

  // ---------------------------------------------------------------- one cycle of one group

  function Latest(u: ThreadUpdate): Tally {
    u.latest.Exact()
  }

  lemma {:induction false} NamedThreadsSum(batch: seq<ThreadUpdate>)
    ensures var t := Fold(ThreadAdd, NO_THREADS, batch);
      t.numThreads == |batch| && t.counts == SumSeq(batch, Latest).Wrap()
  {
    if batch != [] {
      var front, u := batch[..|batch| - 1], batch[|batch| - 1];
      NamedThreadsSum(front);
      WrapKeepsCounts(u.latest);
      AddIsExactModulo(SumSeq(front, Latest), u.latest.Exact());
    }
  }

  // The increase of one thread name in one cycle.
  function CycleSum(batch: seq<ThreadUpdate>, name: string): Tally {
    SumSeq(Having(ThreadName, batch, name), Latest)
  }

  predicate Names(batch: seq<ThreadUpdate>, name: string) {
    Having(ThreadName, batch, name) != []
  }

  lemma CycleTotals(batch: seq<ThreadUpdate>, name: string)
    ensures var m := ThreadTotals(batch);
      && (name in m <==> Names(batch, name))
      && (name in m ==>
         m[name].numThreads == |Having(ThreadName, batch, name)| && m[name].counts == CycleSum(batch, name).Wrap())
  {
    FoldByKeyIsFold(ThreadAdd, NO_THREADS, ThreadName, batch, name);
    NamedThreadsSum(Having(ThreadName, batch, name));
  }

  // The thread counts of a group's names add up to the thread updates received.
  lemma ThreadCountsAddUp(batch: seq<ThreadUpdate>, history: History)
    ensures var m := WithHistory(ThreadTotals(batch), history);
      SumInt(m.Keys, name => if name in m then m[name].numThreads else 0) == |batch|
  {
    var m := WithHistory(ThreadTotals(batch), history);
    var f := (name: string) => if name in m then m[name].numThreads else 0;
    var g := (name: string) => |Having(ThreadName, batch, name)|;
    forall name ensures name in m <==> name in KeysOf(ThreadName, batch) {
      CycleTotals(batch, name);
      NamedMeansPresent(batch, name);
    }
    assert m.Keys == KeysOf(ThreadName, batch);
    forall name | name in m.Keys ensures f(name) == g(name) {
      CycleTotals(batch, name);
    }
    SumIntAgrees(m.Keys, f, g);
    HavingPartitions(ThreadName, batch);
  }

  lemma NamedMeansPresent(batch: seq<ThreadUpdate>, name: string)
    ensures Names(batch, name) <==> name in KeysOf(ThreadName, batch)
  {
    if Names(batch, name) {
      HavingKeepsMembers(ThreadName, batch, name, Having(ThreadName, batch, name)[0]);
    }
    if name in KeysOf(ThreadName, batch) {
      var u :| u in batch && ThreadName(u) == name;
      HavingKeepsMembers(ThreadName, batch, name, u);
    }
  }

  // Likewise the processes of all groups add up to the reports.
  lemma ProcsAddUp(us: seq<Update>)
    ensures var m := AggregateAll(us);
      SumInt(m.Keys, gname => if gname in m then m[gname].procs else 0) == |us|
  {
    var m := AggregateAll(us);
    var f := (gname: string) => if gname in m then m[gname].procs else 0;
    var g := (gname: string) => |Having(NameOf, us, gname)|;
    forall gname ensures gname in m <==> gname in KeysOf(NameOf, us) {
      FoldByKeyIsFold(GroupAdd, NO_GROUP, NameOf, us, gname);
      if Having(NameOf, us, gname) != [] {
        HavingKeepsMembers(NameOf, us, gname, Having(NameOf, us, gname)[0]);
      }
      if gname in KeysOf(NameOf, us) {
        var u :| u in us && NameOf(u) == gname;
        HavingKeepsMembers(NameOf, us, gname, u);
      }
    }
    assert m.Keys == KeysOf(NameOf, us);
    forall gname | gname in m.Keys ensures f(gname) == g(gname) {
      FoldByKeyIsFold(GroupAdd, NO_GROUP, NameOf, us, gname);
      AggregateCounts(Having(NameOf, us, gname));
    }
    SumIntAgrees(m.Keys, f, g);
    HavingPartitions(NameOf, us);
  }

  // ---------------------------------------------------------------- many cycles of one group

  // The history of a group after the cycles in which it was present, given their thread updates.
  function HistoryAfter(batches: seq<seq<ThreadUpdate>>): Option<History> {
    if batches == [] then None
    else ThreadStep(HistoryAfter(batches[..|batches| - 1]), batches[|batches| - 1])
  }

  function SumFrom(batches: seq<seq<ThreadUpdate>>, k: nat, name: string): Tally
    requires k <= |batches|
  {
    if k == |batches| then ZERO
    else SumFrom(batches[..|batches| - 1], k, name).Plus(CycleSum(batches[|batches| - 1], name))
  }

  // The name was seen in every cycle from k on, and not in the one before.
  ghost predicate UnbrokenSince(batches: seq<seq<ThreadUpdate>>, k: nat, name: string) {
    && k < |batches|
    && (forall i | k <= i < |batches| :: Names(batches[i], name))
    && (k > 0 ==> !Names(batches[k - 1], name))
  }

  lemma EmptyNamesNothing(name: string)
    ensures !Names([], name)
  {
  }

  // A thread name's total is the sum of its increases since the cycle in which its history was last
  // missing: a name that skips one cycle starts again from nothing.
  lemma {:induction false} ThreadTotalSinceDrop(batches: seq<seq<ThreadUpdate>>, name: string)
    ensures var h := HistoryAfter(batches);
      && ((h.Some? && name in h.value) <==> batches != [] && Names(batches[|batches| - 1], name))
      && forall k | UnbrokenSince(batches, k, name) ::
           h.Some? && name in h.value && h.value[name].counts == SumFrom(batches, k, name).Wrap()
  {
    if batches != [] {
      var front, last := batches[..|batches| - 1], batches[|batches| - 1];
      ThreadTotalSinceDrop(front, name);
      CycleTotals(last, name);
      EmptyNamesNothing(name);
      forall k | UnbrokenSince(batches, k, name)
        ensures HistoryAfter(batches).Some? && name in HistoryAfter(batches).value
        ensures HistoryAfter(batches).value[name].counts == SumFrom(batches, k, name).Wrap()
      {
        assert Names(batches[|batches| - 1], name);
        ExtendTotal(batches, front, k, name);
      }
    }
  }

  lemma ExtendTotal(batches: seq<seq<ThreadUpdate>>, front: seq<seq<ThreadUpdate>>, k: nat, name: string)
    requires batches != [] && front == batches[..|batches| - 1]
    requires UnbrokenSince(batches, k, name) && batches[|batches| - 1] != []
    requires var h := HistoryAfter(front);
      && ((h.Some? && name in h.value) <==> |batches| > 1 && Names(batches[|batches| - 2], name))
      && forall j | UnbrokenSince(front, j, name) ::
           h.Some? && name in h.value && h.value[name].counts == SumFrom(front, j, name).Wrap()
    ensures HistoryAfter(batches).Some? && name in HistoryAfter(batches).value
    ensures HistoryAfter(batches).value[name].counts == SumFrom(batches, k, name).Wrap()
  {
    var last := batches[|batches| - 1];
    CycleTotals(last, name);
    assert Names(last, name);
    if k == |front| {
      assert SumFrom(front, k, name) == ZERO;
      PlusZero(CycleSum(last, name));
    } else {
      assert UnbrokenSince(front, k, name);
      AddIsExactModulo(CycleSum(last, name), SumFrom(front, k, name));
      PlusCommutes(CycleSum(last, name), SumFrom(front, k, name));
    }
  }

  // The thread updates of the cycles in which the group was present.
  function PresentBatches(es: seq<Event>, us: seq<seq<Update>>, gname: string): seq<seq<ThreadUpdate>>
    requires |es| == |us|
  {
    if us == [] then [] else
    var n := |us| - 1;
    var front := PresentBatches(es[..n], us[..n], gname);
    if es[n].listing.Some? && gname in AggregateAll(us[n]) then front + [Batch(us[n], gname)] else front
  }

  // Where the cycles begin that a group's history is made of: with removeEmptyGroups, when it last had no process.
  ghost function HistoryStart(removeEmpty: bool, ts: seq<TState>, i: nat, gname: string): (m: nat)
    requires i < |ts|
    ensures m <= i
  {
    if removeEmpty then LastAbsent(ts, i, gname) else 0
  }

  // The cycles in which the group was present since then.
  ghost function CyclesOf(removeEmpty: bool, es: seq<Event>, ts: seq<TState>, us: seq<seq<Update>>, i: nat,
                          gname: string)
    : seq<seq<ThreadUpdate>>
    requires i < |ts| == |es| + 1 && |us| == |es|
  {
    var m := HistoryStart(removeEmpty, ts, i, gname);
    PresentBatches(es[m..i], us[m..i], gname)
  }

  lemma PresentBatchesAppends(es: seq<Event>, e: Event, us: seq<seq<Update>>, u: seq<Update>, gname: string)
    requires |es| == |us|
    ensures PresentBatches(es + [e], us + [u], gname) ==
            var batches := PresentBatches(es, us, gname);
            if e.listing.Some? && gname in AggregateAll(u) then batches + [Batch(u, gname)] else batches
  {
    assert (es + [e])[..|es|] == es && (us + [u])[..|us|] == us;
  }

  lemma OneMoreBatch(es: seq<Event>, us: seq<seq<Update>>, m: nat, n: nat, gname: string)
    requires m <= n < |es| == |us|
    ensures PresentBatches(es[m..n + 1], us[m..n + 1], gname) ==
            var batches := PresentBatches(es[m..n], us[m..n], gname);
            if es[n].listing.Some? && gname in AggregateAll(us[n]) then batches + [Batch(us[n], gname)] else batches
  {
    assert es[m..n + 1] == es[m..n] + [es[n]] && us[m..n + 1] == us[m..n] + [us[n]];
    PresentBatchesAppends(es[m..n], es[n], us[m..n], us[n], gname);
  }

  // One Update leaves a group's history as it was, takes it through one more cycle, or forgets it.
  lemma HistoryStep(removeEmpty: bool, e: Event, next: TState, us: seq<Update>, st: GState, st': GState,
                    batches: seq<seq<ThreadUpdate>>, gname: string)
    requires GroupStep(removeEmpty, e, next, us, st, st') && Lookup(st.threadAccum, gname) == HistoryAfter(batches)
    ensures Lookup(st'.threadAccum, gname) ==
            if e.listing.None? then HistoryAfter(batches)
            else if gname in AggregateAll(us) then HistoryAfter(batches + [Batch(us, gname)])
            else if removeEmpty && gname in st.groupAccum then None
            else HistoryAfter(batches)
  {
    if e.listing.Some? {
      LooksUp(removeEmpty, st, us, gname);
      assert (batches + [Batch(us, gname)])[..|batches|] == batches;
    }
  }

  // A group has reports in a successful Update exactly when it has members after it, and keeps them otherwise.
  lemma PresentIffMembers(removeEmpty: bool, e: Event, t: TState, next: TState, us: seq<Update>, st: GState,
                          st': GState, gname: string)
    requires GroupStep(removeEmpty, e, next, us, st, st') && (e.listing.None? ==> next.tracked == t.tracked)
    ensures e.listing.Some? ==> (gname in AggregateAll(us) <==> Members(next, gname) != {})
    ensures e.listing.None? ==> Members(next, gname) == Members(t, gname)
  {
    if e.listing.Some? {
      var ids :| ReportsAll(next, ids, us);
      ReportedGroups(next, ids, us, gname);
      if id :| id in LiveIds(next) && next.tracked[id].value.groupName == gname { assert id in Members(next, gname); }
    }
  }

  // How the cycles grow from one state to the next.
  lemma {:induction false} CyclesStep(removeEmpty: bool, es: seq<Event>, ts: seq<TState>, us: seq<seq<Update>>, n: nat,
                                      gname: string)
    requires n < |es| == |us| && |ts| == |es| + 1
    ensures CyclesOf(removeEmpty, es, ts, us, n + 1, gname) ==
            if removeEmpty && Members(ts[n + 1], gname) == {} then []
            else var batches := CyclesOf(removeEmpty, es, ts, us, n, gname);
                 if es[n].listing.Some? && gname in AggregateAll(us[n])
                 then batches + [Batch(us[n], gname)] else batches
    ensures removeEmpty && Members(ts[n], gname) == {} ==> CyclesOf(removeEmpty, es, ts, us, n, gname) == []
  {
    OneMoreBatch(es, us, HistoryStart(removeEmpty, ts, n, gname), n, gname);
  }

  // Over any run, a group's thread history is that of the cycles it was present in: a failed listing drops
  // nothing, nor does the group's absence, except with removeEmptyGroups, where it drops all that came before.
  lemma {:induction false} HistoryIsOfPresentCycles(c: Config, removeEmpty: bool, es: seq<Event>, ts: seq<TState>,
                                                    us: seq<seq<Update>>, gs: seq<GState>, i: nat, gname: string)
    requires GroupRun(c, removeEmpty, es, ts, us, gs) && i < |ts|
    ensures Lookup(gs[i].threadAccum, gname) == HistoryAfter(CyclesOf(removeEmpty, es, ts, us, i, gname))
  {
    if i > 0 {
      HistoryIsOfPresentCycles(c, removeEmpty, es, ts, us, gs, i - 1, gname);
      HistoryOneMore(c, removeEmpty, es, ts, us, gs, i - 1, gname);
    }
  }

  lemma {:induction false} HistoryOneMore(c: Config, removeEmpty: bool, es: seq<Event>, ts: seq<TState>,
                                          us: seq<seq<Update>>, gs: seq<GState>, n: nat, gname: string)
    requires GroupRun(c, removeEmpty, es, ts, us, gs) && n < |es|
    requires Lookup(gs[n].threadAccum, gname) == HistoryAfter(CyclesOf(removeEmpty, es, ts, us, n, gname))
    ensures Lookup(gs[n + 1].threadAccum, gname) == HistoryAfter(CyclesOf(removeEmpty, es, ts, us, n + 1, gname))
  {
    assert GroupStep(removeEmpty, es[n], ts[n + 1], us[n], gs[n], gs[n + 1]);
    HistoryStep(removeEmpty, es[n], ts[n + 1], us[n], gs[n], gs[n + 1], CyclesOf(removeEmpty, es, ts, us, n, gname),
      gname);
    CyclesStep(removeEmpty, es, ts, us, n, gname);
    PresentIffMembers(removeEmpty, es[n], ts[n], ts[n + 1], us[n], gs[n], gs[n + 1], gname);
    if removeEmpty {
      CountersSinceAbsent(c, es, ts, us, gs, n, gname);
    }
  }
}
