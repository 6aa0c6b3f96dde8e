/** The tracker's operations (`proc/tracker.go`) as functions on values.

    `Tracker.dfy` holds the classes that update maps and processes in place; each of their
    methods is proved to have exactly the effect of the function here, and the run-level
    properties are proved about these functions. */
module TrackerSpec {
  import opened Wrappers
  import opened Counters
  import opened Process

  datatype Config = Config(
    namer: ProcAttributes -> Option<string>,  // None: no rule wants the process
    userOf: int -> string,                    // user name of a uid, cached by the tracker
    trackChildren: bool,
    recheck: bool,
    recheckTimeLimit: int)

  datatype TrackedThread = TrackedThread(
    name: string, accum: Counts, latest: Delta, lastUpdate: Time, wchan: string)

  type ThreadMap = map<ThreadID, TrackedThread>

  datatype ProcState = ProcState(
    lastUpdate: Time, stat: Static, metrics: Metrics, lastAccum: Delta, groupName: string, threads: ThreadMap)

  // tracked[id] == None is the source's nil entry: the process is ignored.
  datatype TState = TState(
    tracked: map<ID, Option<ProcState>>, procIds: map<int, ID>, firstUpdateAt: Time)

  const EMPTY: TState := TState(map[], map[], NO_TIME)

  // ---------------------------------------------------------------- one process

  function StartThreads(threads: seq<Thread>): ThreadMap {
    if threads == [] then map[] else
    var thr := threads[|threads| - 1];
    StartThreads(threads[..|threads| - 1])[
      thr.tid := TrackedThread(thr.name, thr.counts, NO_COUNTS, NO_TIME, thr.wchan)]
  }

  // A process first seen after the tracker started owes its whole count to the last interval.
  function FirstAccum(firstUpdateAt: Time, info: IDInfo): Delta {
    if info.stat.startTime > firstUpdateAt then info.metrics.counts else NO_COUNTS
  }

  function NewProc(firstUpdateAt: Time, groupName: string, info: IDInfo): ProcState {
    ProcState(NO_TIME, info.stat, info.metrics, FirstAccum(firstUpdateAt, info), groupName, StartThreads(info.threads))
  }

  function SeenThread(threads: ThreadMap, thr: Thread, now: Time): TrackedThread {
    TrackedThread(thr.name, thr.counts,
                  if thr.tid in threads then thr.counts.Sub(threads[thr.tid].accum) else NO_COUNTS,
                  now, thr.wchan)
  }

  function MergeThreads(known: ThreadMap, threads: seq<Thread>, now: Time): ThreadMap {
    if threads == [] then known else
    var merged := MergeThreads(known, threads[..|threads| - 1], now);
    var thr := threads[|threads| - 1];
    merged[thr.tid := SeenThread(merged, thr, now)]
  }

  function FreshThreads(threads: ThreadMap, now: Time): ThreadMap {
    map tid | tid in threads && threads[tid].lastUpdate == now :: threads[tid]
  }

  function UpdateProc(p: ProcState, metrics: Metrics, threads: seq<Thread>, now: Time): ProcState {
    ProcState(
      now, p.stat, metrics, metrics.counts.Sub(p.metrics.counts), p.groupName,
      if |threads| > 1 then FreshThreads(MergeThreads(p.threads, threads, now), now) else map[])
  }

  function AddThreads(m: Metrics, threads: seq<Thread>): Metrics {
    if threads == [] then m else
    var r := AddThreads(m, threads[..|threads| - 1]);
    var thr := threads[|threads| - 1];
    r.(counts := r.counts.(ctxNonvoluntary := AddU(r.counts.ctxNonvoluntary, thr.counts.ctxNonvoluntary),
                           ctxVoluntary := AddU(r.counts.ctxVoluntary, thr.counts.ctxVoluntary)),
       states := r.states.Add(thr.states))
  }

  // With threads at hand the context switches are replaced by the sum over the live threads.
  function Observe(m: Metrics, threads: seq<Thread>): Metrics {
    if |threads| > 0
    then AddThreads(m.(counts := m.counts.(ctxNonvoluntary := 0, ctxVoluntary := 0)), threads)
    else m
  }

  // ---------------------------------------------------------------- the two maps

  function Track(t: TState, groupName: string, info: IDInfo): TState {
    t.(tracked := t.tracked[info.id := Some(NewProc(t.firstUpdateAt, groupName, info))])
  }

  // The clock reading `ignore` takes for each process. A process may be walked again in the same Update as
  // long as it is spared; sparing leaves nothing behind, so only the reading of the last walk counts.
  type Wall = ID -> Time

  // -recheck keeps an unwanted process out of the ignore list, for a limited time when a limit is set.
  predicate Spared(c: Config, startTime: Time, reading: Time) {
    c.recheck && (c.recheckTimeLimit == 0 || startTime + c.recheckTimeLimit > reading)
  }

  function Ignore(c: Config, t: TState, info: IDInfo, wall: Wall): TState {
    if Spared(c, info.stat.startTime, wall(info.id)) then t else t.(tracked := t.tracked[info.id := None])
  }

  function HandleProc(t: TState, row: Row, now: Time): (TState, Option<IDInfo>) {
    if row.procID.None? then (t, None) else
    var id := row.procID.value;
    if id in t.tracked && t.tracked[id].None? then (t, None) else
    if row.metrics.None? then (t, None) else
    var m := Observe(row.metrics.value, row.threads);
    if id in t.tracked then
      (t.(tracked := t.tracked[id := Some(UpdateProc(t.tracked[id].value, m, row.threads, now))]), None)
    else if row.stat.None? then (t, None)
    else
      var displaced := if id.pid in t.procIds then {t.procIds[id.pid]} else {};
      (t.(tracked := t.tracked - displaced, procIds := t.procIds[id.pid := id]),
       Some(IDInfo(id, row.stat.value, m, row.threads)))
  }

  function ScanRows(t: TState, rows: seq<Row>, now: Time): (TState, seq<IDInfo>) {
    if rows == [] then (t, []) else
    var (t1, found) := ScanRows(t, rows[..|rows| - 1], now);
    var (t2, newProc) := HandleProc(t1, rows[|rows| - 1], now);
    (t2, if newProc.Some? then found + [newProc.value] else found)
  }

  predicate Stale(t: TState, id: ID, now: Time) {
    id in t.tracked && t.tracked[id].Some? && t.tracked[id].value.lastUpdate != now
  }

  function Sweep(t: TState, now: Time): TState {
    var stale := set id | id in t.tracked && Stale(t, id, now);
    t.(tracked := t.tracked - stale, procIds := t.procIds - set id | id in stale :: id.pid)
  }

  function Attributes(c: Config, info: IDInfo): ProcAttributes {
    ProcAttributes(info.stat.name, info.stat.cmdline, info.stat.cgroups,
                   c.userOf(info.stat.effectiveUID), info.id.pid, info.stat.startTime)
  }

  // Step 1 of Update: the state with every process a rule wants, and the others by id.
  function MatchNew(c: Config, t: TState, found: seq<IDInfo>): (TState, map<ID, IDInfo>) {
    if found == [] then (t, map[]) else
    var (t1, untracked) := MatchNew(c, t, found[..|found| - 1]);
    var info := found[|found| - 1];
    match c.namer(Attributes(c, info))
    case Some(gname) => (Track(t1, gname, info), untracked)
    case None => (t1, untracked[info.id := info])
  }
}
