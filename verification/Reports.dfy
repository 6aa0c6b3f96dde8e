/** What `Tracker.Update` reports of each tracked process (`getUpdate` in `proc/tracker.go`). */
module Reports {
  import opened Counters
  import opened Process
  import opened TrackerSpec
  import opened Collections

  datatype ThreadUpdate = ThreadUpdate(threadName: string, latest: Delta)

  datatype Update = Update(
    groupName: string, cgroupV2Path: string, latest: Delta, memory: Memory, filedesc: Filedesc,
    start: Time, numThreads: u64, states: States, wchans: map<string, int>, threads: seq<ThreadUpdate>)

  ghost function WaitingIn(threads: ThreadMap, wchan: string): set<ThreadID> {
    set tid | tid in threads && threads[tid].wchan == wchan
  }

  // How often getUpdate counts a wait channel: once for the process itself, once per thread.
  ghost function WchanCount(p: ProcState, threads: ThreadMap, wchan: string): int {
    if wchan == "" then 0 else
    (if p.metrics.wchan == wchan then 1 else 0) + |WaitingIn(threads, wchan)|
  }

  ghost predicate CountsWchans(p: ProcState, threads: ThreadMap, wchans: map<string, int>) {
    forall w :: (w in wchans <==> WchanCount(p, threads, w) > 0)
      && (w in wchans ==> wchans[w] == WchanCount(p, threads, w))
  }

  ghost predicate ListsThreads(threads: ThreadMap, tids: seq<ThreadID>, us: seq<ThreadUpdate>) {
    && Ordering(tids, threads.Keys)
    && |us| == |tids|
    && forall i | 0 <= i < |us| :: us[i] == ThreadUpdate(threads[tids[i]].name, threads[tids[i]].latest)
  }

  // A process with one thread reports no threads.
  function ReportedThreads(p: ProcState): ThreadMap {
    if |p.threads| > 1 then p.threads else map[]
  }

  // u is a report of p; its thread updates may come in any order.
  ghost predicate IsUpdate(p: ProcState, u: Update) {
    && u.groupName == p.groupName
    && u.cgroupV2Path == p.stat.cgroupV2Path
    && u.latest == p.lastAccum
    && u.memory == p.metrics.memory
    && u.filedesc == p.metrics.filedesc
    && u.start == p.stat.startTime
    && u.numThreads == p.metrics.numThreads
    && u.states == p.metrics.states
    && CountsWchans(p, ReportedThreads(p), u.wchans)
    && exists tids :: ListsThreads(ReportedThreads(p), tids, u.threads)
  }

  function LiveIds(t: TState): set<ID> {
    set id | id in t.tracked && t.tracked[id].Some?
  }

  ghost predicate Reported(t: TState, id: ID, u: Update) {
    id in LiveIds(t) && IsUpdate(t.tracked[id].value, u)
  }

  // us reports every tracked process once, in the order of ids.
  ghost predicate ReportsAll(t: TState, ids: seq<ID>, us: seq<Update>) {
    && Ordering(ids, LiveIds(t))
    && |us| == |ids|
    && forall i | 0 <= i < |us| :: Reported(t, ids[i], us[i])
  }

  // ---------------------------------------------------------------- every state can be reported

  lemma WaitsSomewhere(p: ProcState, threads: ThreadMap, w: string)
    requires WchanCount(p, threads, w) > 0
    ensures w == p.metrics.wchan || exists tid :: tid in threads && threads[tid].wchan == w
  {
    if WaitingIn(threads, w) != {} {
      var tid :| tid in WaitingIn(threads, w);
    }
  }

  lemma SomeWchans(p: ProcState, threads: ThreadMap) returns (wchans: map<string, int>)
    ensures CountsWchans(p, threads, wchans)
  {
    var known := {p.metrics.wchan} + set tid | tid in threads :: threads[tid].wchan;
    wchans := map w | w in known && WchanCount(p, threads, w) > 0 :: WchanCount(p, threads, w);
    forall w | WchanCount(p, threads, w) > 0 ensures w in known {
      WaitsSomewhere(p, threads, w);
    }
  }

  lemma SomeUpdate(p: ProcState) returns (u: Update)
    ensures IsUpdate(p, u)
  {
    var threads := ReportedThreads(p);
    var tids := SomeOrdering(threads.Keys);
    var us := seq(|tids|, i requires 0 <= i < |tids| =>
      if tids[i] in threads then ThreadUpdate(threads[tids[i]].name, threads[tids[i]].latest)
      else ThreadUpdate("", NO_COUNTS));
    assert ListsThreads(threads, tids, us);
    var wchans := SomeWchans(p, threads);
    u := Update(p.groupName, p.stat.cgroupV2Path, p.lastAccum, p.metrics.memory, p.metrics.filedesc,
                p.stat.startTime, p.metrics.numThreads, p.metrics.states, wchans, us);
  }

  lemma {:induction false} SomeUpdates(t: TState, ids: seq<ID>) returns (us: seq<Update>)
    requires forall i | 0 <= i < |ids| :: ids[i] in LiveIds(t)
    ensures |us| == |ids| && forall i | 0 <= i < |us| :: Reported(t, ids[i], us[i])
  {
    us := [];
    if ids != [] {
      var front, id := ids[..|ids| - 1], ids[|ids| - 1];
      us := SomeUpdates(t, front);
      var u := SomeUpdate(t.tracked[id].value);
      assert Reported(t, id, u);
      us := us + [u];
    }
  }

  // Whatever is tracked can be reported.
  lemma SomeReport(t: TState) returns (ids: seq<ID>, us: seq<Update>)
    ensures ReportsAll(t, ids, us)
  {
    ids := SomeOrdering(LiveIds(t));
    us := SomeUpdates(t, ids);
  }
}
