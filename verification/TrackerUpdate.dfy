/** One `Tracker.Update` as a whole: what it leaves in the two maps, process by process, and the
    invariants it keeps. */
module TrackerUpdate {
  import opened Wrappers
  import opened Process
  import opened TrackerSpec
  import opened Collections
  import opened Ancestry

  // The readings of the wall clock during one Update: for firstUpdateAt, for the scan, and for the age
  // limit of -recheck, which is checked process by process.
  datatype Clock = Clock(first: Time, now: Time, wall: Wall)

  function Begin(t: TState, clock: Clock): TState {
    if t.firstUpdateAt == NO_TIME then t.(firstUpdateAt := clock.first) else t
  }

  function AfterScan(t: TState, rows: seq<Row>, clock: Clock): (TState, seq<IDInfo>) {
    var (t1, found) := ScanRows(Begin(t, clock), rows, clock.now);
    (Sweep(t1, clock.now), found)
  }

  function AfterMatch(c: Config, t: TState, rows: seq<Row>, clock: Clock): (TState, NewProcs) {
    var (t1, found) := AfterScan(t, rows, clock);
    MatchNew(c, t1, found)
  }

  // The walk up the process tree must end; nothing else can stop an Update.
  ghost predicate Walkable(c: Config, t: TState, rows: seq<Row>, clock: Clock) {
    var (t1, news) := AfterMatch(c, t, rows, clock);
    c.trackChildren ==> Acyclic(t1.procIds, news)
  }

  ghost predicate FitOrder(c: Config, t: TState, rows: seq<Row>, clock: Clock, order: seq<ID>) {
    && Walkable(c, t, rows, clock)
    && Ordering(order, AfterMatch(c, t, rows, clock).1.Keys)
  }

  function Update(c: Config, t: TState, rows: seq<Row>, clock: Clock, order: seq<ID>): TState
    requires FitOrder(c, t, rows, clock, order)
  {
    var (t1, news) := AfterMatch(c, t, rows, clock);
    if c.trackChildren then Inherit(c, t1, news, order, clock.wall) else t1
  }

  // ---------------------------------------------------------------- reachable states

  // The index: the entry of a pid is the one process with that pid that `tracked` knows.
  ghost predicate Indexed(t: TState) {
    && (forall id | id in t.tracked :: id.pid in t.procIds && t.procIds[id.pid] == id)
    && (forall pid | pid in t.procIds :: t.procIds[pid].pid == pid)
  }

  // No process was updated at `now` or later: the clock of the next Update is fresh.
  ghost predicate Before(t: TState, now: Time) {
    && NO_TIME < now
    && forall id | id in t.tracked && t.tracked[id].Some? :: ProcBefore(t.tracked[id].value, now)
  }

  ghost predicate ProcBefore(p: ProcState, now: Time) {
    && p.lastUpdate < now
    && forall tid | tid in p.threads :: p.threads[tid].lastUpdate < now
  }

  // A listing of /proc has one directory per pid.
  ghost predicate OneRowPerPid(rows: seq<Row>) {
    forall i, j | 0 <= i < j < |rows| && rows[i].procID.Some? && rows[j].procID.Some? ::
      rows[i].procID.value.pid != rows[j].procID.value.pid
  }

  // ---------------------------------------------------------------- one scan

  function RowFor(rows: seq<Row>, id: ID): Option<Row> {
    if rows == [] then None
    else if rows[|rows| - 1].procID == Some(id) then Some(rows[|rows| - 1])
    else RowFor(rows[..|rows| - 1], id)
  }

  // The process was identified and its metrics were read.
  predicate Read(rows: seq<Row>, id: ID) {
    RowFor(rows, id).Some? && RowFor(rows, id).value.metrics.Some?
  }

  function Observed(rows: seq<Row>, id: ID): Metrics
    requires Read(rows, id)
  {
    var row := RowFor(rows, id).value;
    Observe(row.metrics.value, row.threads)
  }

  function ObservedThreads(rows: seq<Row>, id: ID): seq<Thread>
    requires Read(rows, id)
  {
    RowFor(rows, id).value.threads
  }

  // A process the tracker does not know, fully read in this scan.
  predicate NewIn(t: TState, rows: seq<Row>, id: ID) {
    id !in t.tracked && Read(rows, id) && RowFor(rows, id).value.stat.Some?
  }

  function InfoOf(t: TState, rows: seq<Row>, id: ID): IDInfo
    requires NewIn(t, rows, id)
  {
    IDInfo(id, RowFor(rows, id).value.stat.value, Observed(rows, id), ObservedThreads(rows, id))
  }

  // Another process has taken over the pid.
  ghost predicate Displaced(t: TState, rows: seq<Row>, id: ID) {
    exists id2: ID :: id2.pid == id.pid && NewIn(t, rows, id2)
  }

  function Refreshed(t: TState, rows: seq<Row>, id: ID, now: Time): Option<ProcState>
    requires id in t.tracked
  {
    if t.tracked[id].Some? && Read(rows, id)
    then Some(UpdateProc(t.tracked[id].value, Observed(rows, id), ObservedThreads(rows, id), now))
    else t.tracked[id]
  }

  lemma {:induction false} RowForIsARow(rows: seq<Row>, id: ID)
    ensures RowFor(rows, id).Some? <==> exists i :: 0 <= i < |rows| && rows[i].procID == Some(id)
    ensures RowFor(rows, id).Some? ==> RowFor(rows, id).value in rows && RowFor(rows, id).value.procID == Some(id)
  {
    if rows != [] {
      RowForIsARow(rows[..|rows| - 1], id);
      if rows[|rows| - 1].procID != Some(id) && RowFor(rows, id).Some? {
        var i :| 0 <= i < |rows| - 1 && rows[..|rows| - 1][i].procID == Some(id);
        assert rows[i].procID == Some(id);
      }
      if i :| 0 <= i < |rows| - 1 && rows[i].procID == Some(id) {
        assert rows[..|rows| - 1][i].procID == Some(id);
      }
    }
  }

  // The last row's pid is nowhere in the rows before it.
  lemma LastPidIsNew(rows: seq<Row>)
    requires OneRowPerPid(rows) && rows != []
    ensures var front, row := rows[..|rows| - 1], rows[|rows| - 1];
      && (row.procID.Some? ==>
            forall id: ID | id.pid == row.procID.value.pid :: RowFor(front, id).None?)
      && forall id | Some(id) != row.procID :: RowFor(rows, id) == RowFor(front, id)
  {
    var front, row := rows[..|rows| - 1], rows[|rows| - 1];
    forall id: ID | row.procID.Some? && id.pid == row.procID.value.pid ensures RowFor(front, id).None? {
      RowForIsARow(front, id);
    }
  }

  ghost predicate TrackedResult(t: TState, rows: seq<Row>, now: Time, r: TState) {
    && r.firstUpdateAt == t.firstUpdateAt
    && forall id :: TrackedAt(t, rows, now, r, id)
  }

  ghost predicate FoundResult(t: TState, rows: seq<Row>, found: seq<IDInfo>) {
    && (forall i | 0 <= i < |found| :: NewIn(t, rows, found[i].id) && found[i] == InfoOf(t, rows, found[i].id))
    && (forall id | NewIn(t, rows, id) :: InfoOf(t, rows, id) in found)
    && (forall i, j | 0 <= i < j < |found| :: found[i].id != found[j].id)
  }

  ghost predicate IndexResult(t: TState, rows: seq<Row>, r: TState) {
    && (forall id | NewIn(t, rows, id) :: id.pid in r.procIds && r.procIds[id.pid] == id)
    && (forall id :: !Displaced(t, rows, id) ==>
          (id.pid in r.procIds <==> id.pid in t.procIds)
            && (id.pid in t.procIds ==> r.procIds[id.pid] == t.procIds[id.pid]))
  }

  ghost predicate ScanResult(t: TState, rows: seq<Row>, now: Time, r: TState, found: seq<IDInfo>) {
    TrackedResult(t, rows, now, r) && FoundResult(t, rows, found) && IndexResult(t, rows, r)
  }

  lemma {:induction false} ScanIsExact(t: TState, rows: seq<Row>, now: Time)
    requires Indexed(t) && OneRowPerPid(rows)
    ensures ScanResult(t, rows, now, ScanRows(t, rows, now).0, ScanRows(t, rows, now).1)
  {
    if rows != [] {
      ScanIsExact(t, rows[..|rows| - 1], now);
      var (t1, found1) := ScanRows(t, rows[..|rows| - 1], now);
      IndexStep(t, rows, now, t1);
      TrackedStep(t, rows, now, t1);
      FoundStep(t, rows, now, t1, found1);
    }
  }

  lemma IndexStep(t: TState, rows: seq<Row>, now: Time, t1: TState)
    requires Indexed(t) && OneRowPerPid(rows) && rows != []
    requires TrackedResult(t, rows[..|rows| - 1], now, t1) && IndexResult(t, rows[..|rows| - 1], t1)
    ensures IndexResult(t, rows, HandleProc(t1, rows[|rows| - 1], now).0)
  {
    LastPidIsNew(rows);
    var front, row := rows[..|rows| - 1], rows[|rows| - 1];
    if row.procID.Some? {
      assert TrackedAt(t, front, now, t1, row.procID.value);
    }
    forall id | NewIn(t, rows, id) && Some(id) != row.procID ensures NewIn(t, front, id) {}
  }

  lemma DisplacedStep(t: TState, rows: seq<Row>, x: ID)
    requires OneRowPerPid(rows) && rows != []
    ensures var front, row := rows[..|rows| - 1], rows[|rows| - 1];
      Displaced(t, rows, x) <==>
      Displaced(t, front, x) || (row.procID.Some? && x.pid == row.procID.value.pid && NewIn(t, rows, row.procID.value))
  {
    LastPidIsNew(rows);
    var front, row := rows[..|rows| - 1], rows[|rows| - 1];
    if y: ID :| y.pid == x.pid && NewIn(t, rows, y) && Some(y) != row.procID {
      assert NewIn(t, front, y);
    }
    if y: ID :| y.pid == x.pid && NewIn(t, front, y) {
      assert Some(y) != row.procID && NewIn(t, rows, y);
    }
  }

  ghost predicate TrackedAt(t: TState, rows: seq<Row>, now: Time, r: TState, x: ID) {
    && (x in r.tracked <==> x in t.tracked && !Displaced(t, rows, x))
    && (x in r.tracked ==> r.tracked[x] == Refreshed(t, rows, x, now))
  }

  lemma TrackedStepAt(t: TState, rows: seq<Row>, now: Time, t1: TState, x: ID)
    requires OneRowPerPid(rows) && rows != []
    requires x in t.tracked ==> x.pid in t.procIds && t.procIds[x.pid] == x
    requires var front, row := rows[..|rows| - 1], rows[|rows| - 1];
      && TrackedAt(t, front, now, t1, x)
      && (Some(x) != row.procID ==> RowFor(rows, x) == RowFor(front, x))
      && (row.procID.Some? ==>
            var id := row.procID.value;
            && TrackedAt(t, front, now, t1, id)
            && RowFor(front, id).None? && !Displaced(t, front, id)
            && (id.pid in t1.procIds <==> id.pid in t.procIds)
            && (id.pid in t.procIds ==> t1.procIds[id.pid] == t.procIds[id.pid])
            && (id.pid in t.procIds ==> t.procIds[id.pid].pid == id.pid)
            && (x.pid == id.pid ==> !Displaced(t, front, x)))
    ensures TrackedAt(t, rows, now, HandleProc(t1, rows[|rows| - 1], now).0, x)
  {
    DisplacedStep(t, rows, x);
  }

  lemma TrackedStep(t: TState, rows: seq<Row>, now: Time, t1: TState)
    requires Indexed(t) && OneRowPerPid(rows) && rows != []
    requires TrackedResult(t, rows[..|rows| - 1], now, t1) && IndexResult(t, rows[..|rows| - 1], t1)
    ensures TrackedResult(t, rows, now, HandleProc(t1, rows[|rows| - 1], now).0)
  {
    LastPidIsNew(rows);
    var r := HandleProc(t1, rows[|rows| - 1], now).0;
    forall x: ID ensures TrackedAt(t, rows, now, r, x) {
      TrackedStepAt(t, rows, now, t1, x);
    }
  }

  // Which new process the last row yields, and that the other processes are as before it.
  ghost predicate NewProcResult(t: TState, rows: seq<Row>, newProc: Option<IDInfo>)
    requires rows != []
  {
    var front, row := rows[..|rows| - 1], rows[|rows| - 1];
    && (newProc.Some? <==> row.procID.Some? && NewIn(t, rows, row.procID.value))
    && (newProc.Some? ==> newProc == Some(InfoOf(t, rows, row.procID.value)))
    && (row.procID.Some? ==> !NewIn(t, front, row.procID.value))
    && forall id | Some(id) != row.procID ::
         NewIn(t, rows, id) == NewIn(t, front, id)
           && (NewIn(t, rows, id) ==> InfoOf(t, rows, id) == InfoOf(t, front, id))
  }

  lemma NewProcStep(t: TState, rows: seq<Row>, now: Time, t1: TState)
    requires Indexed(t) && OneRowPerPid(rows) && rows != []
    requires TrackedResult(t, rows[..|rows| - 1], now, t1)
    ensures NewProcResult(t, rows, HandleProc(t1, rows[|rows| - 1], now).1)
  {
    LastPidIsNew(rows);
    var front, row := rows[..|rows| - 1], rows[|rows| - 1];
    if row.procID.Some? {
      assert TrackedAt(t, front, now, t1, row.procID.value);
    }
  }

  lemma FoundStep(t: TState, rows: seq<Row>, now: Time, t1: TState, found1: seq<IDInfo>)
    requires Indexed(t) && OneRowPerPid(rows) && rows != []
    requires TrackedResult(t, rows[..|rows| - 1], now, t1) && FoundResult(t, rows[..|rows| - 1], found1)
    ensures var newProc := HandleProc(t1, rows[|rows| - 1], now).1;
      FoundResult(t, rows, if newProc.Some? then found1 + [newProc.value] else found1)
  {
    NewProcStep(t, rows, now, t1);
    FoundGrows(t, rows, found1, HandleProc(t1, rows[|rows| - 1], now).1);
  }

  lemma FoundGrows(t: TState, rows: seq<Row>, found1: seq<IDInfo>, newProc: Option<IDInfo>)
    requires rows != [] && FoundResult(t, rows[..|rows| - 1], found1) && NewProcResult(t, rows, newProc)
    ensures FoundResult(t, rows, if newProc.Some? then found1 + [newProc.value] else found1)
  {
    var found := if newProc.Some? then found1 + [newProc.value] else found1;
    FoundOnly(t, rows, rows[..|rows| - 1], found1, newProc);
    FoundAll(t, rows, rows[..|rows| - 1], found1, newProc, found);
    FoundTogether(t, rows, found1, newProc, found);
  }

  lemma FoundTogether(t: TState, rows: seq<Row>, found1: seq<IDInfo>, newProc: Option<IDInfo>, found: seq<IDInfo>)
    requires found == if newProc.Some? then found1 + [newProc.value] else found1
    requires forall i | 0 <= i < |found1| :: NewIn(t, rows, found1[i].id) && found1[i] == InfoOf(t, rows, found1[i].id)
    requires forall i, j | 0 <= i < j < |found1| :: found1[i].id != found1[j].id
    requires newProc.Some? ==> NewIn(t, rows, newProc.value.id) && newProc.value == InfoOf(t, rows, newProc.value.id)
    requires newProc.Some? ==> forall i | 0 <= i < |found1| :: found1[i].id != newProc.value.id
    requires forall id | NewIn(t, rows, id) :: InfoOf(t, rows, id) in found
    ensures FoundResult(t, rows, found)
  {
  }

  lemma FoundOnly(t: TState, rows: seq<Row>, front: seq<Row>, found1: seq<IDInfo>, newProc: Option<IDInfo>)
    requires rows != [] && front == rows[..|rows| - 1] && NewProcResult(t, rows, newProc)
    requires forall i | 0 <= i < |found1| ::
             NewIn(t, front, found1[i].id) && found1[i] == InfoOf(t, front, found1[i].id)
    ensures forall i | 0 <= i < |found1| :: NewIn(t, rows, found1[i].id) && found1[i] == InfoOf(t, rows, found1[i].id)
    ensures forall i | 0 <= i < |found1| :: Some(found1[i].id) != rows[|rows| - 1].procID
  {
    forall i | 0 <= i < |found1|
      ensures Some(found1[i].id) != rows[|rows| - 1].procID
      ensures NewIn(t, rows, found1[i].id) && found1[i] == InfoOf(t, rows, found1[i].id)
    {
      assert NewIn(t, front, found1[i].id);
    }
  }

  lemma FoundAll(t: TState, rows: seq<Row>, front: seq<Row>, found1: seq<IDInfo>, newProc: Option<IDInfo>,
                 found: seq<IDInfo>)
    requires rows != [] && front == rows[..|rows| - 1] && NewProcResult(t, rows, newProc)
    requires found == if newProc.Some? then found1 + [newProc.value] else found1
    requires forall id | NewIn(t, front, id) :: InfoOf(t, front, id) in found1
    ensures forall id | NewIn(t, rows, id) :: InfoOf(t, rows, id) in found
  {
    forall id | NewIn(t, rows, id) ensures InfoOf(t, rows, id) in found {
      if Some(id) == rows[|rows| - 1].procID {
        assert found[|found| - 1] == InfoOf(t, rows, id);
      } else {
        assert InfoOf(t, front, id) in found1;
      }
    }
  }

  // ---------------------------------------------------------------- the stale sweep

  // What a scan and its sweep leave for one process.
  ghost predicate SweptAt(t: TState, rows: seq<Row>, now: Time, s: TState, id: ID) {
    && (id in s.tracked <==>
          id in t.tracked && (if t.tracked[id].Some? then Read(rows, id) else !Displaced(t, rows, id)))
    && (id in s.tracked ==> s.tracked[id] == Refreshed(t, rows, id, now))
  }

  // A process read in this scan keeps its pid: no other row has it.
  lemma ReadIsNotDisplaced(t: TState, rows: seq<Row>, id: ID)
    requires OneRowPerPid(rows) && id in t.tracked && Read(rows, id)
    ensures !Displaced(t, rows, id)
  {
    if y: ID :| y.pid == id.pid && NewIn(t, rows, y) {
      RowForIsARow(rows, id);
      RowForIsARow(rows, y);
      assert false;
    }
  }

  lemma SweepIsExact(t: TState, rows: seq<Row>, now: Time, t1: TState)
    requires Indexed(t) && Before(t, now) && OneRowPerPid(rows)
    requires TrackedResult(t, rows, now, t1) && IndexResult(t, rows, t1)
    ensures forall id :: SweptAt(t, rows, now, Sweep(t1, now), id)
  {
    var s := Sweep(t1, now);
    forall id ensures SweptAt(t, rows, now, s, id) {
      assert TrackedAt(t, rows, now, t1, id);
      if id in t.tracked && Read(rows, id) {
        ReadIsNotDisplaced(t, rows, id);
      }
    }
  }

  lemma SweepKeepsIndex(t: TState, rows: seq<Row>, now: Time, t1: TState)
    requires Indexed(t) && OneRowPerPid(rows)
    requires TrackedResult(t, rows, now, t1) && IndexResult(t, rows, t1)
    ensures Indexed(Sweep(t1, now))
    ensures forall id | NewIn(t, rows, id) ::
              id.pid in Sweep(t1, now).procIds && Sweep(t1, now).procIds[id.pid] == id
  {
    var s := Sweep(t1, now);
    forall id | id in t1.tracked ensures id.pid in t1.procIds && t1.procIds[id.pid] == id {
      assert TrackedAt(t, rows, now, t1, id);
    }
    forall id, stale | NewIn(t, rows, id) && stale in t1.tracked ensures stale.pid != id.pid {
      assert TrackedAt(t, rows, now, t1, stale);
    }
    forall pid | pid in s.procIds ensures s.procIds[pid].pid == pid {
      var id := ID(pid, 0);
      if Displaced(t, rows, id) {
        var y: ID :| y.pid == id.pid && NewIn(t, rows, y);
      }
    }
  }

  // The process the index held under the pid was tracked, and was not read in this scan.
  ghost predicate GoneFrom(t: TState, rows: seq<Row>, pid: int) {
    && pid in t.procIds
    && var x := t.procIds[pid];
       x in t.tracked && t.tracked[x].Some? && !Read(rows, x)
  }

  // What the scan and its sweep leave in the index: under each pid the process first read under it now, or
  // else the one known before, unless that is gone.
  ghost predicate IndexedAt(t: TState, rows: seq<Row>, s: TState, pid: int) {
    && (forall y: ID | y.pid == pid && NewIn(t, rows, y) :: pid in s.procIds && s.procIds[pid] == y)
    && ((forall y: ID | y.pid == pid :: !NewIn(t, rows, y)) ==>
          Lookup(s.procIds, pid) == if GoneFrom(t, rows, pid) then None else Lookup(t.procIds, pid))
  }

  lemma IndexIsExact(t: TState, rows: seq<Row>, now: Time, t1: TState)
    requires Indexed(t) && Before(t, now) && OneRowPerPid(rows)
    requires TrackedResult(t, rows, now, t1) && IndexResult(t, rows, t1)
    ensures forall pid :: IndexedAt(t, rows, Sweep(t1, now), pid)
  {
    SweepKeepsIndex(t, rows, now, t1);
    forall pid ensures IndexedAt(t, rows, Sweep(t1, now), pid) {
      if forall y: ID | y.pid == pid :: !NewIn(t, rows, y) {
        OldIndexAt(t, rows, now, t1, pid);
      }
    }
  }

  lemma OldIndexAt(t: TState, rows: seq<Row>, now: Time, t1: TState, pid: int)
    requires Indexed(t) && Before(t, now)
    requires TrackedResult(t, rows, now, t1) && IndexResult(t, rows, t1)
    requires forall y: ID | y.pid == pid :: !NewIn(t, rows, y)
    ensures Lookup(Sweep(t1, now).procIds, pid) == if GoneFrom(t, rows, pid) then None else Lookup(t.procIds, pid)
  {
    var id := ID(pid, 0);
    assert !Displaced(t, rows, id);
    assert Lookup(t1.procIds, id.pid) == Lookup(t.procIds, id.pid);
    if pid in t.procIds {
      var x := t.procIds[pid];
      assert x.pid == pid && !Displaced(t, rows, x);
      assert TrackedAt(t, rows, now, t1, x);
      assert GoneFrom(t, rows, pid) <==> Stale(t1, x, now);
    }
    forall y | y in t1.tracked && y.pid == pid ensures pid in t.procIds && t.procIds[pid] == y {
      assert TrackedAt(t, rows, now, t1, y);
    }
  }

  // ---------------------------------------------------------------- step 1

  ghost predicate MatchedAt(c: Config, s: TState, found: seq<IDInfo>, r: TState, news: NewProcs, id: ID) {
    && (id in s.tracked ==> id in r.tracked && r.tracked[id] == s.tracked[id])
    && (forall i | 0 <= i < |found| && found[i].id == id ::
          match c.namer(Attributes(c, found[i]))
          case Some(g) => id in r.tracked && r.tracked[id] == Some(NewProc(s.firstUpdateAt, g, found[i])) && id !in news
          case None => id in news && news[id] == found[i] && id !in r.tracked)
    && ((forall i | 0 <= i < |found| :: found[i].id != id) ==> id !in news && (id in r.tracked ==> id in s.tracked))
  }

  lemma {:induction false} MatchIsExact(c: Config, s: TState, found: seq<IDInfo>)
    requires forall i, j | 0 <= i < j < |found| :: found[i].id != found[j].id
    requires forall i | 0 <= i < |found| :: found[i].id !in s.tracked
    ensures var (r, news) := MatchNew(c, s, found);
            && r.procIds == s.procIds && r.firstUpdateAt == s.firstUpdateAt
            && forall id :: MatchedAt(c, s, found, r, news, id)
  {
    if found != [] {
      var front := found[..|found| - 1];
      MatchIsExact(c, s, front);
      var (r1, news1) := MatchNew(c, s, front);
      var (r, news) := MatchNew(c, s, found);
      forall id ensures MatchedAt(c, s, found, r, news, id) {
        assert MatchedAt(c, s, front, r1, news1, id);
        assert forall i | 0 <= i < |front| :: found[i] == front[i];
      }
    }
  }

  // ---------------------------------------------------------------- the whole Update

  // What one Update leaves for a process, with the parent rule left open: an unmatched new process is
  // absent, ignored, or freshly tracked under some inherited name.
  ghost predicate Outcome(c: Config, t: TState, rows: seq<Row>, clock: Clock, r: TState, id: ID) {
    if id in t.tracked then
      match t.tracked[id]
      case Some(p) =>
        (id in r.tracked <==> Read(rows, id)) &&
        (Read(rows, id) ==>
           r.tracked[id] == Some(UpdateProc(p, Observed(rows, id), ObservedThreads(rows, id), clock.now)))
      case None =>
        (id in r.tracked <==> !Displaced(t, rows, id)) && (id in r.tracked ==> r.tracked[id] == None)
    else if NewIn(t, rows, id) then
      var info, first := InfoOf(t, rows, id), Begin(t, clock).firstUpdateAt;
      match c.namer(Attributes(c, info))
      case Some(g) => id in r.tracked && r.tracked[id] == Some(NewProc(first, g, info))
      case None =>
        (id in r.tracked ==> c.trackChildren) &&
        (id in r.tracked && r.tracked[id].Some? ==>
           r.tracked[id].value == NewProc(first, r.tracked[id].value.groupName, info))
    else id !in r.tracked
  }

  ghost predicate Matched(c: Config, t: TState, rows: seq<Row>, clock: Clock, s: TState, news: NewProcs) {
    && s.firstUpdateAt == Begin(t, clock).firstUpdateAt
    && Indexed(s)
    && (forall id | id in news :: id.pid in s.procIds && s.procIds[id.pid] == id)
    && (forall id :: id in news <==> NewIn(t, rows, id) && c.namer(Attributes(c, InfoOf(t, rows, id))).None?)
    && (forall id | id in news :: news[id] == InfoOf(t, rows, id) && id !in s.tracked)
    && (forall id | id !in news :: Outcome(c, t, rows, clock, s, id))
  }

  lemma Step1IsExact(c: Config, t: TState, rows: seq<Row>, clock: Clock)
    requires Indexed(t) && Before(t, clock.now) && OneRowPerPid(rows)
    ensures Matched(c, t, rows, clock, AfterMatch(c, t, rows, clock).0, AfterMatch(c, t, rows, clock).1)
  {
    var b := Begin(t, clock);
    ScanIsExact(b, rows, clock.now);
    var (t1, found) := ScanRows(b, rows, clock.now);
    SweepIsExact(b, rows, clock.now, t1);
    SweepKeepsIndex(b, rows, clock.now, t1);
    var s := Sweep(t1, clock.now);
    forall i | 0 <= i < |found| ensures found[i].id !in s.tracked {
      assert SweptAt(b, rows, clock.now, s, found[i].id);
    }
    MatchIsExact(c, s, found);
    Step1Combines(c, t, rows, clock, s, found);
  }

  lemma BeginChangesNothing(t: TState, rows: seq<Row>, clock: Clock)
    ensures forall id :: NewIn(Begin(t, clock), rows, id) == NewIn(t, rows, id)
    ensures forall id :: Displaced(Begin(t, clock), rows, id) == Displaced(t, rows, id)
  {
    var b := Begin(t, clock);
    assert b.tracked == t.tracked;
    forall id ensures Displaced(b, rows, id) == Displaced(t, rows, id) {
      if y: ID :| y.pid == id.pid && NewIn(t, rows, y) { assert NewIn(b, rows, y); }
      if y: ID :| y.pid == id.pid && NewIn(b, rows, y) { assert NewIn(t, rows, y); }
    }
  }

  // One process after step 1.
  ghost predicate MatchedFor(c: Config, t: TState, rows: seq<Row>, clock: Clock, r: TState, news: NewProcs, id: ID) {
    && (id in news <==> NewIn(t, rows, id) && c.namer(Attributes(c, InfoOf(t, rows, id))).None?)
    && (id in news ==> news[id] == InfoOf(t, rows, id) && id !in r.tracked)
    && (id !in news ==> Outcome(c, t, rows, clock, r, id))
  }

  lemma Step1At(c: Config, t: TState, rows: seq<Row>, clock: Clock, s: TState, found: seq<IDInfo>, r: TState,
                news: NewProcs, id: ID)
    requires var b := Begin(t, clock);
      && FoundResult(b, rows, found) && SweptAt(b, rows, clock.now, s, id)
      && s.firstUpdateAt == b.firstUpdateAt && MatchedAt(c, s, found, r, news, id)
    ensures MatchedFor(c, t, rows, clock, r, news, id)
    ensures id in r.tracked && id !in s.tracked ==> NewIn(t, rows, id)
  {
    var b := Begin(t, clock);
    BeginChangesNothing(t, rows, clock);
    if NewIn(b, rows, id) {
      assert InfoOf(b, rows, id) in found;
      var i :| 0 <= i < |found| && found[i] == InfoOf(b, rows, id);
      assert found[i].id == id;
    } else {
      assert forall i | 0 <= i < |found| :: found[i].id != id;
    }
  }

  lemma Step1Combines(c: Config, t: TState, rows: seq<Row>, clock: Clock, s: TState, found: seq<IDInfo>)
    requires var b := Begin(t, clock);
      && FoundResult(b, rows, found)
      && (forall id :: SweptAt(b, rows, clock.now, s, id))
      && Indexed(s)
      && s.firstUpdateAt == b.firstUpdateAt
      && (forall id | NewIn(b, rows, id) :: id.pid in s.procIds && s.procIds[id.pid] == id)
    requires var (r, news) := MatchNew(c, s, found);
      && r.procIds == s.procIds && r.firstUpdateAt == s.firstUpdateAt
      && forall id :: MatchedAt(c, s, found, r, news, id)
    ensures Matched(c, t, rows, clock, MatchNew(c, s, found).0, MatchNew(c, s, found).1)
  {
    var b := Begin(t, clock);
    var (r, news) := MatchNew(c, s, found);
    BeginChangesNothing(t, rows, clock);
    forall id
      ensures MatchedFor(c, t, rows, clock, r, news, id)
      ensures id in r.tracked && id !in s.tracked ==> NewIn(b, rows, id)
    {
      assert SweptAt(b, rows, clock.now, s, id);
      assert MatchedAt(c, s, found, r, news, id);
      Step1At(c, t, rows, clock, s, found, r, news, id);
    }
    MatchedAll(c, t, rows, clock, r, news);
  }

  lemma MatchedAll(c: Config, t: TState, rows: seq<Row>, clock: Clock, r: TState, news: NewProcs)
    requires r.firstUpdateAt == Begin(t, clock).firstUpdateAt && Indexed(r)
    requires forall id | NewIn(t, rows, id) :: id.pid in r.procIds && r.procIds[id.pid] == id
    requires forall id :: MatchedFor(c, t, rows, clock, r, news, id)
    ensures Matched(c, t, rows, clock, r, news)
  {
    forall id ensures id in news <==> NewIn(t, rows, id) && c.namer(Attributes(c, InfoOf(t, rows, id))).None? {
      assert MatchedFor(c, t, rows, clock, r, news, id);
    }
    forall id | id in news ensures news[id] == InfoOf(t, rows, id) && id !in r.tracked {
      assert MatchedFor(c, t, rows, clock, r, news, id);
    }
    forall id | id !in news ensures Outcome(c, t, rows, clock, r, id) {
      assert MatchedFor(c, t, rows, clock, r, news, id);
    }
  }

  // The index step 2 looks parents up in.
  lemma IndexAfterMatch(c: Config, t: TState, rows: seq<Row>, clock: Clock)
    requires Indexed(t) && Before(t, clock.now) && OneRowPerPid(rows)
    ensures forall pid :: IndexedAt(t, rows, AfterMatch(c, t, rows, clock).0, pid)
  {
    var b := Begin(t, clock);
    ScanIsExact(b, rows, clock.now);
    var (t1, found) := ScanRows(b, rows, clock.now);
    IndexIsExact(b, rows, clock.now, t1);
    SweepIsExact(b, rows, clock.now, t1);
    var s := Sweep(t1, clock.now);
    forall i | 0 <= i < |found| ensures found[i].id !in s.tracked {
      assert SweptAt(b, rows, clock.now, s, found[i].id);
    }
    MatchIsExact(c, s, found);
    var r := AfterMatch(c, t, rows, clock).0;
    forall pid ensures IndexedAt(t, rows, r, pid) {
      assert IndexedAt(b, rows, s, pid);
      IndexIgnoresBegin(t, rows, clock, s, r, pid);
    }
  }

  lemma IndexIgnoresBegin(t: TState, rows: seq<Row>, clock: Clock, s: TState, r: TState, pid: int)
    requires IndexedAt(Begin(t, clock), rows, s, pid) && r.procIds == s.procIds
    ensures IndexedAt(t, rows, r, pid)
  {
    BeginChangesNothing(t, rows, clock);
  }

  lemma UpdateIsExact(c: Config, t: TState, rows: seq<Row>, clock: Clock, order: seq<ID>)
    requires Indexed(t) && Before(t, clock.now) && OneRowPerPid(rows)
    requires FitOrder(c, t, rows, clock, order)
    ensures var r := Update(c, t, rows, clock, order);
            && r.firstUpdateAt == Begin(t, clock).firstUpdateAt
            && forall id :: Outcome(c, t, rows, clock, r, id)
  {
    Step1IsExact(c, t, rows, clock);
    var (s, news) := AfterMatch(c, t, rows, clock);
    if c.trackChildren {
      InheritOnlyAdds(c, s, news, order, clock.wall);
      var r := Inherit(c, s, news, order, clock.wall);
      forall id ensures Outcome(c, t, rows, clock, r, id) {
        if id !in news { assert Outcome(c, t, rows, clock, s, id); }
      }
    }
  }
}
