/** `proc/tracker.go` in its own form: processes and maps updated in place. Every method is proved to do
    to the tracker's abstract state (`Model`) exactly what the function of the same name in
    `TrackerSpec`, `Ancestry` or `TrackerUpdate` says. A loop over a Go map picks its keys in an
    arbitrary order. */
module Tracking {
  import opened Wrappers
  import opened Counters
  import opened Process
  import opened TrackerSpec
  import A = Ancestry
  import U = TrackerUpdate
  import opened Collections
  import opened Reports

  class TrackedProc {
    var lastUpdate: Time
    var stat: Static
    var metrics: Metrics
    var lastAccum: Delta
    var groupName: string
    var threads: ThreadMap

    ghost function View(): ProcState
      reads this
    {
      ProcState(lastUpdate, stat, metrics, lastAccum, groupName, threads)
    }

    constructor (groupName: string, info: IDInfo, firstUpdateAt: Time)
      ensures View() == NewProc(firstUpdateAt, groupName, info)
    {
      var started: ThreadMap := map[];
      for i := 0 to |info.threads|
        invariant started == StartThreads(info.threads[..i])
      {
        var thr := info.threads[i];
        assert info.threads[..i + 1][..i] == info.threads[..i];
        started := started[thr.tid := TrackedThread(thr.name, thr.counts, NO_COUNTS, NO_TIME, thr.wchan)];
      }
      assert info.threads[..|info.threads|] == info.threads;
      this.lastUpdate := NO_TIME;
      this.stat := info.stat;
      this.metrics := info.metrics;
      this.lastAccum := if info.stat.startTime > firstUpdateAt then info.metrics.counts else NO_COUNTS;
      this.groupName := groupName;
      this.threads := started;
    }

    method GetUpdate() returns (u: Reports.Update)
      ensures IsUpdate(View(), u)
    {
      ghost var p := View();
      var wchans: map<string, int> := map[];
      if metrics.wchan != "" {
        wchans := wchans[metrics.wchan := 1];
      }
      assert CountsWchans(p, map[], wchans) by {
        assert forall w :: WaitingIn(map[], w) == {};
      }
      var us: seq<ThreadUpdate> := [];
      ghost var tids: seq<ThreadID> := [];
      if |threads| > 1 {
        us, wchans, tids := ListThreads(wchans);
      } else {
        assert ListsThreads(map[], tids, us);
      }
      u := Reports.Update(groupName, stat.cgroupV2Path, lastAccum, metrics.memory, metrics.filedesc,
                          stat.startTime, metrics.numThreads, metrics.states, wchans, us);
      assert ListsThreads(ReportedThreads(p), tids, u.threads);
    }

    method ListThreads(own: map<string, int>)
      returns (us: seq<ThreadUpdate>, wchans: map<string, int>, ghost tids: seq<ThreadID>)
      requires CountsWchans(View(), map[], own)
      ensures ListsThreads(threads, tids, us)
      ensures CountsWchans(View(), threads, wchans)
    {
      us, wchans, tids := [], own, [];
      var todo := threads.Keys;
      ghost var listed: ThreadMap := map[];
      while todo != {}
        invariant todo <= threads.Keys
        invariant listed == map tid | tid in threads && tid !in todo :: threads[tid]
        invariant ListsThreads(listed, tids, us)
        invariant CountsWchans(View(), listed, wchans)
      {
        var tid :| tid in todo;
        todo := todo - {tid};
        var tt := threads[tid];
        OneMoreWaiting(View(), listed, tid, tt, wchans);
        us := us + [ThreadUpdate(tt.name, tt.latest)];
        if tt.wchan != "" {
          wchans := wchans[tt.wchan := (if tt.wchan in wchans then wchans[tt.wchan] else 0) + 1];
        }
        listed, tids := listed[tid := tt], tids + [tid];
      }
      assert listed == threads;
    }

    method Update(metrics: Metrics, now: Time, seen: seq<Thread>)
      modifies this
      ensures View() == UpdateProc(old(View()), metrics, seen, now)
    {
      lastAccum := metrics.counts.Sub(this.metrics.counts);
      this.metrics := metrics;
      lastUpdate := now;
      if |seen| > 1 {
        MarkThreads(now, seen);
        DropUnmarked(now);
      } else {
        threads := map[];
      }
    }

    method MarkThreads(now: Time, seen: seq<Thread>)
      modifies this`threads
      ensures threads == MergeThreads(old(threads), seen, now)
    {
      for i := 0 to |seen|
        invariant threads == MergeThreads(old(threads), seen[..i], now)
      {
        assert seen[..i + 1][..i] == seen[..i];
        var thr := seen[i];
        var latest := NO_COUNTS;
        if thr.tid in threads {
          latest := thr.counts.Sub(threads[thr.tid].accum);
        }
        threads := threads[thr.tid := TrackedThread(thr.name, thr.counts, latest, now, thr.wchan)];
      }
      assert seen[..|seen|] == seen;
    }

    method DropUnmarked(now: Time)
      modifies this`threads
      ensures threads == FreshThreads(old(threads), now)
    {
      var todo := threads.Keys;
      while todo != {}
        invariant todo <= old(threads).Keys
        invariant threads == map tid | tid in old(threads) && (tid in todo || old(threads)[tid].lastUpdate == now)
                               :: old(threads)[tid]
      {
        var tid :| tid in todo;
        todo := todo - {tid};
        if threads[tid].lastUpdate != now {
          threads := threads - {tid};
        }
      }
    }
  }

  // A successful Update of t: step 2 walked the unmatched processes in this order, the report lists the
  // tracked processes in the order of ids.
  ghost predicate Updates(c: Config, t: TState, rows: seq<Row>, clock: U.Clock, order: seq<ID>,
                          next: TState, ids: seq<ID>, us: seq<Reports.Update>) {
    && U.FitOrder(c, t, rows, clock, order)
    && next == U.Update(c, t, rows, clock, order)
    && ReportsAll(next, ids, us)
  }

  class Tracker {
    const config: Config
    var tracked: map<ID, TrackedProc?>
    var procIds: map<int, ID>
    var firstUpdateAt: Time

    ghost function Procs(): set<TrackedProc?>
      reads this
    {
      set p | p in tracked.Values && p != null
    }

    // No two ids share a process object.
    ghost predicate Valid()
      reads this
    {
      forall a, b | a in tracked && b in tracked && a != b && tracked[a] != null :: tracked[a] != tracked[b]
    }

    ghost function Model(): TState
      reads this, Procs()
    {
      TState(map id | id in tracked :: if tracked[id] == null then None else Some(tracked[id].View()),
             procIds, firstUpdateAt)
    }

    constructor (config: Config)
      ensures Valid() && Procs() == {} && Model() == EMPTY && this.config == config
    {
      this.config := config;
      tracked := map[];
      procIds := map[];
      firstUpdateAt := NO_TIME;
    }

    method Track(groupName: string, info: IDInfo)
      requires Valid()
      modifies this`tracked
      ensures Valid() && fresh(Procs() - old(Procs()))
      ensures Model() == TrackerSpec.Track(old(Model()), groupName, info)
    {
      var p := new TrackedProc(groupName, info, firstUpdateAt);
      tracked := tracked[info.id := p];
    }

    method Ignore(info: IDInfo, wall: Wall)
      requires Valid()
      modifies this`tracked
      ensures Valid() && Procs() <= old(Procs())
      ensures Model() == TrackerSpec.Ignore(config, old(Model()), info, wall)
    {
      if config.recheck {
        if config.recheckTimeLimit == 0 {
          return;
        }
        if info.stat.startTime + config.recheckTimeLimit > wall(info.id) {
          return;
        }
      }
      ghost var was := Model();
      tracked := tracked[info.id := null];
      assert Model().tracked == was.tracked[info.id := None];
    }

    method ReadMetrics(metrics: Metrics, threads: seq<Thread>) returns (m: Metrics)
      ensures m == Observe(metrics, threads)
    {
      m := metrics;
      if |threads| > 0 {
        m := m.(counts := m.counts.(ctxNonvoluntary := 0, ctxVoluntary := 0));
        ghost var reset := m;
        for i := 0 to |threads|
          invariant m == AddThreads(reset, threads[..i])
        {
          assert threads[..i + 1][..i] == threads[..i];
          var c := threads[i].counts;
          m := m.(counts := m.counts.(ctxNonvoluntary := AddU(m.counts.ctxNonvoluntary, c.ctxNonvoluntary),
                                      ctxVoluntary := AddU(m.counts.ctxVoluntary, c.ctxVoluntary)),
                  states := m.states.Add(threads[i].states));
        }
        assert threads[..|threads|] == threads;
      }
    }

    method HandleProc(row: Row, now: Time) returns (newProc: Option<IDInfo>)
      requires Valid()
      modifies this, Procs()
      ensures Valid() && Procs() <= old(Procs())
      ensures (Model(), newProc) == TrackerSpec.HandleProc(old(Model()), row, now)
    {
      newProc := None;
      if row.procID.None? {
        return;
      }
      var id := row.procID.value;
      if id in tracked && tracked[id] == null {
        return;
      }
      if row.metrics.None? {
        return;
      }
      var m := ReadMetrics(row.metrics.value, row.threads);
      if id in tracked {
        UpdateKnown(id, m, now, row.threads);
      } else {
        if row.stat.None? {
          return;
        }
        newProc := Some(IDInfo(id, row.stat.value, m, row.threads));
        Admit(id);
      }
    }

    method UpdateKnown(id: ID, m: Metrics, now: Time, threads: seq<Thread>)
      requires Valid() && id in tracked && tracked[id] != null
      modifies tracked[id]
      ensures Model() == old(Model()).(tracked :=
                old(Model()).tracked[id := Some(UpdateProc(old(Model()).tracked[id].value, m, threads, now))])
    {
      ghost var was := Model();
      tracked[id].Update(m, now, threads);
      assert forall x | x in tracked && x != id && tracked[x] != null :: tracked[x].View() == was.tracked[x].value;
      assert Model().tracked == was.tracked[id := Some(UpdateProc(was.tracked[id].value, m, threads, now))];
    }

    // A new process takes over its pid.
    method Admit(id: ID)
      requires Valid()
      modifies this`tracked, this`procIds
      ensures Valid() && Procs() <= old(Procs())
      ensures var was := old(Model());
        Model() == was.(tracked := was.tracked - (if id.pid in was.procIds then {was.procIds[id.pid]} else {}),
                        procIds := was.procIds[id.pid := id])
    {
      ghost var was := Model();
      if id.pid in procIds {
        tracked := tracked - {procIds[id.pid]};
        assert Model().tracked == was.tracked - {procIds[id.pid]};
      }
      procIds := procIds[id.pid := id];
      assert Model().tracked == was.tracked - (if id.pid in was.procIds then {was.procIds[id.pid]} else {});
    }

    // The scan and the sweep of stale processes.
    method UpdateKnownProcs(procs: ProcIterator, now: Time) returns (found: seq<IDInfo>, err: bool)
      requires Valid() && procs.Valid()
      modifies this, Procs(), procs
      ensures Valid() && Procs() <= old(Procs())
      ensures err == old(procs.failed)
      ensures err ==> Model() == ScanRows(old(Model()), old(procs.Remaining()), now).0
      ensures !err ==> var (t, new') := ScanRows(old(Model()), old(procs.Remaining()), now);
                       Model() == TrackerSpec.Sweep(t, now) && found == new'
    {
      found := Scan(procs, now);
      err := procs.Close();
      if !err {
        Sweep(now);
      }
    }

    method Scan(procs: ProcIterator, now: Time) returns (found: seq<IDInfo>)
      requires Valid() && procs.Valid()
      modifies this, Procs(), procs`idx
      ensures Valid() && Procs() <= old(Procs()) && procs.Valid()
      ensures (Model(), found) == ScanRows(old(Model()), old(procs.Remaining()), now)
    {
      ghost var rows, done := procs.Remaining(), 0;
      found := [];
      assert rows[..0] == [];
      while true
        invariant Valid() && Procs() <= old(Procs()) && procs.Valid()
        invariant 0 <= done <= |rows| && procs.Remaining() == rows[done..]
        invariant (Model(), found) == ScanRows(old(Model()), rows[..done], now)
        decreases |rows| - done
      {
        var more, row := procs.Next();
        if !more {
          assert rows[..done] == rows;
          break;
        }
        var newProc := HandleProc(row.value, now);
        if newProc.Some? {
          found := found + [newProc.value];
        }
        assert rows[..done + 1][..done] == rows[..done];
        done := done + 1;
      }
    }

    method Sweep(now: Time)
      requires Valid()
      modifies this`tracked, this`procIds
      ensures Valid() && Procs() <= old(Procs())
      ensures Model() == TrackerSpec.Sweep(old(Model()), now)
    {
      ghost var was := Model();
      ghost var stale := set id | id in was.tracked && Stale(was, id, now);
      DropStale(now, stale);
      assert Model().tracked == was.tracked - stale;
    }

    method DropStale(now: Time, ghost stale: set<ID>)
      requires forall id | id in tracked :: id in stale <==> tracked[id] != null && tracked[id].lastUpdate != now
      requires stale <= tracked.Keys
      modifies this`tracked, this`procIds
      ensures tracked == old(tracked) - stale
      ensures procIds == old(procIds) - Pids(stale)
    {
      var todo := tracked.Keys;
      while todo != {}
        invariant todo <= tracked.Keys
        invariant tracked == old(tracked) - (stale - todo)
        invariant procIds == old(procIds) - Pids(stale - todo)
      {
        var id :| id in todo;
        ghost var dead := stale - todo;
        todo := todo - {id};
        if tracked[id] != null && tracked[id].lastUpdate != now {
          PidsGrow(old(procIds), dead, id);
          DropsCompose(old(tracked), dead, id);
          tracked := tracked - {id};
          procIds := procIds - {id.pid};
          assert stale - todo == dead + {id};
        } else {
          assert stale - todo == dead;
        }
      }
      assert stale - todo == stale;
    }

    static ghost function Pids(ids: set<ID>): set<int> {
      set id | id in ids :: id.pid
    }

    static lemma PidsGrow(index: map<int, ID>, dead: set<ID>, id: ID)
      ensures index - Pids(dead) - {id.pid} == index - Pids(dead + {id})
    {
      assert Pids(dead + {id}) == Pids(dead) + {id.pid};
    }

    static lemma DropsCompose(m: map<ID, TrackedProc?>, dead: set<ID>, id: ID)
      ensures m - dead - {id} == m - (dead + {id})
    {
    }

    method CheckAncestry(info: IDInfo, news: A.NewProcs, wall: Wall) returns (name: string)
      requires Valid()
      requires A.Acyclic(procIds, news) && A.KeyedById(news) && info.id in news && news[info.id] == info
      modifies this`tracked
      ensures Valid() && fresh(Procs() - old(Procs()))
      ensures (Model(), name) == A.CheckAncestry(config, old(Model()), news, info.id, wall)
      decreases A.Above(procIds, news, info.id)
    {
      var parent := A.ParentId(procIds, info);
      if parent.pid < 1 {
        Ignore(info, wall);
        return "";
      }
      if parent in tracked {
        if tracked[parent] != null {
          name := tracked[parent].groupName;
          Track(name, info);
          return;
        }
        Ignore(info, wall);
        return "";
      }
      if parent in news {
        A.AboveShrinks(procIds, news, info.id);
        ghost var was := Model();
        A.WalkKeepsIndex(config, was, news, parent, wall);
        name := CheckAncestry(news[parent], news, wall);
        if name != "" {
          Track(name, info);
          return;
        }
      }
      Ignore(info, wall);
      return "";
    }

    // Step 1 of Update.
    method MatchNew(found: seq<IDInfo>) returns (news: A.NewProcs)
      requires Valid()
      modifies this`tracked
      ensures Valid() && fresh(Procs() - old(Procs()))
      ensures (Model(), news) == TrackerSpec.MatchNew(config, old(Model()), found)
    {
      news := map[];
      for i := 0 to |found|
        invariant Valid() && fresh(Procs() - old(Procs()))
        invariant (Model(), news) == TrackerSpec.MatchNew(config, old(Model()), found[..i])
      {
        assert found[..i + 1][..i] == found[..i];
        var gname := config.namer(Attributes(config, found[i]));
        if gname.Some? {
          Track(gname.value, found[i]);
        } else {
          news := news[found[i].id := found[i]];
        }
      }
      assert found[..|found|] == found;
    }

    // Step 2 of Update. The order is whatever the map iteration chose.
    method InheritGroups(news: A.NewProcs, wall: Wall) returns (ghost order: seq<ID>)
      requires Valid()
      requires A.Acyclic(procIds, news) && A.KeyedById(news)
      modifies this`tracked
      ensures Valid() && fresh(Procs() - old(Procs()))
      ensures Ordering(order, news.Keys)
      ensures Model() == A.Inherit(config, old(Model()), news, order, wall)
    {
      order := [];
      var todo := news.Keys;
      while todo != {}
        invariant Valid() && fresh(Procs() - old(Procs()))
        invariant todo <= news.Keys && Ordering(order, news.Keys - todo)
        invariant Model() == A.Inherit(config, old(Model()), news, order, wall)
      {
        var id :| id in todo;
        todo := todo - {id};
        assert (order + [id])[..|order|] == order;
        order := order + [id];
        if id !in tracked {
          A.WalkKeepsIndex(config, Model(), news, id, wall);
          var _ := CheckAncestry(news[id], news, wall);
        }
      }
    }

    method ReportLive() returns (us: seq<Reports.Update>, ghost ids: seq<ID>)
      requires Valid()
      ensures ReportsAll(Model(), ids, us)
    {
      ghost var m := Model();
      us, ids := [], [];
      var todo := tracked.Keys;
      while todo != {}
        invariant todo <= tracked.Keys && |us| == |ids|
        invariant Ordering(ids, LiveIds(m) - todo)
        invariant forall i | 0 <= i < |us| :: Reported(m, ids[i], us[i])
      {
        var id :| id in todo;
        todo := todo - {id};
        if tracked[id] != null {
          var u := tracked[id].GetUpdate();
          assert Reported(m, id, u);
          us, ids := us + [u], ids + [id];
        }
      }
    }

    // Tracker.Update: the report of every tracked process, or an error when the listing failed.
    method Update(procs: ProcIterator, clock: U.Clock)
      returns (us: seq<Reports.Update>, err: bool, ghost order: seq<ID>, ghost ids: seq<ID>)
      requires Valid() && procs.Valid()
      requires !procs.failed ==> U.Walkable(config, Model(), procs.Remaining(), clock)
      modifies this, Procs(), procs
      ensures Valid() && fresh(Procs() - old(Procs()))
      ensures err == old(procs.failed)
      ensures err ==> us == [] && Model() == ScanRows(U.Begin(old(Model()), clock), old(procs.Remaining()), clock.now).0
      ensures !err ==> Updates(config, old(Model()), old(procs.Remaining()), clock, order, Model(), ids, us)
    {
      us, order, ids := [], [], [];
      if firstUpdateAt == NO_TIME {
        firstUpdateAt := clock.first;
      }
      assert Model() == U.Begin(old(Model()), clock);
      ghost var rows := procs.Remaining();
      var found: seq<IDInfo>;
      found, err := UpdateKnownProcs(procs, clock.now);
      if err {
        return;
      }
      ghost var swept := Model();
      assert (swept, found) == U.AfterScan(old(Model()), rows, clock);
      var news := MatchNew(found);
      assert (Model(), news) == U.AfterMatch(config, old(Model()), rows, clock);
      if config.trackChildren {
        MatchKeepsIds(config, swept, found);
        order := InheritGroups(news, clock.wall);
      } else {
        order := SomeOrdering(news.Keys);
      }
      us, ids := ReportLive();
    }
  }

  lemma {:induction false} MatchKeepsIds(c: Config, t: TState, found: seq<IDInfo>)
    ensures A.KeyedById(TrackerSpec.MatchNew(c, t, found).1)
  {
    if found != [] {
      MatchKeepsIds(c, t, found[..|found| - 1]);
    }
  }

  lemma OneMoreWaiting(p: ProcState, listed: ThreadMap, tid: ThreadID, tt: TrackedThread, wchans: map<string, int>)
    requires CountsWchans(p, listed, wchans) && tid !in listed
    ensures CountsWchans(p, listed[tid := tt],
              if tt.wchan == "" then wchans
              else wchans[tt.wchan := (if tt.wchan in wchans then wchans[tt.wchan] else 0) + 1])
  {
    var more := if tt.wchan == "" then wchans
                else wchans[tt.wchan := (if tt.wchan in wchans then wchans[tt.wchan] else 0) + 1];
    forall w
      ensures w in more <==> WchanCount(p, listed[tid := tt], w) > 0
      ensures w in more ==> more[w] == WchanCount(p, listed[tid := tt], w)
    {
      WaitingGrows(listed, tid, tt, w);
      assert w in wchans <==> WchanCount(p, listed, w) > 0;
    }
  }

  lemma WaitingGrows(listed: ThreadMap, tid: ThreadID, tt: TrackedThread, w: string)
    requires tid !in listed
    ensures |WaitingIn(listed[tid := tt], w)| == |WaitingIn(listed, w)| + (if tt.wchan == w then 1 else 0)
  {
    assert WaitingIn(listed[tid := tt], w) == WaitingIn(listed, w) + (if tt.wchan == w then {tid} else {});
  }
}
