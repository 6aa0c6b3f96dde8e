/** Runs of the tracker: any sequence of Updates, each fed an arbitrary listing of /proc or a failed one. */
module TrackerRuns {
  import opened Wrappers
  import opened Process
  import opened TrackerSpec
  import opened Ancestry
  import opened TrackerUpdate

  // listing is None when /proc could not be listed; order is the order Go's map iteration
  // happened to choose in step 2.
  datatype Event = Event(listing: Option<seq<Row>>, clock: Clock, order: seq<ID>)

  ghost predicate Fits(c: Config, t: TState, e: Event) {
    e.listing.Some? ==> OneRowPerPid(e.listing.value) && FitOrder(c, t, e.listing.value, e.clock, e.order)
  }

  // A failed listing yields no rows, so all that Update did was to note its first call.
  function Step(c: Config, t: TState, e: Event): TState
    requires Fits(c, t, e)
  {
    match e.listing
    case Some(rows) => Update(c, t, rows, e.clock, e.order)
    case None => Begin(t, e.clock)
  }

  ghost predicate Ticking(es: seq<Event>) {
    && (forall i | 0 <= i < |es| :: NO_TIME < es[i].clock.now)
    && forall i, j | 0 <= i < j < |es| :: es[i].clock.now < es[j].clock.now
  }

  // Lemmas about runs are proved with automatic induction off: what induction there is goes over the Updates,
  // and their bodies carry it out.
  ghost predicate Run(c: Config, es: seq<Event>, ts: seq<TState>) {
    && |ts| == |es| + 1 && ts[0] == EMPTY
    && Ticking(es)
    && forall i | 0 <= i < |es| :: Fits(c, ts[i], es[i]) && ts[i + 1] == Step(c, ts[i], es[i])
  }

  // ---------------------------------------------------------------- the invariant of every reachable state

  lemma {:induction false} StartThreadsAreUnmarked(threads: seq<Thread>)
    ensures forall tid | tid in StartThreads(threads) :: StartThreads(threads)[tid].lastUpdate == NO_TIME
  {
    if threads != [] {
      StartThreadsAreUnmarked(threads[..|threads| - 1]);
    }
  }

  lemma StepKeepsInvariant(c: Config, t: TState, e: Event, later: Time)
    requires Indexed(t) && Before(t, e.clock.now) && Fits(c, t, e) && e.clock.now < later
    ensures Indexed(Step(c, t, e)) && Before(Step(c, t, e), later)
  {
    if rows: seq<Row> :| e.listing == Some(rows) {
      Step1IsExact(c, t, rows, e.clock);
      UpdateIsExact(c, t, rows, e.clock, e.order);
      var (s, news) := AfterMatch(c, t, rows, e.clock);
      var r := Step(c, t, e);
      if c.trackChildren {
        InheritOnlyAdds(c, s, news, e.order, e.clock.wall);
      }
      forall id | id in r.tracked && r.tracked[id].Some? ensures ProcBefore(r.tracked[id].value, later) {
        assert Outcome(c, t, rows, e.clock, r, id);
        if id !in t.tracked {
          StartThreadsAreUnmarked(InfoOf(t, rows, id).threads);
        }
      }
    }
  }

  // In every reachable state, procIds names each known process, ignored ones included, under its own pid:
  // no two known processes share a pid. And every Update finds its clock reading unused.
  lemma {:induction false} ReachableInvariant(c: Config, es: seq<Event>, ts: seq<TState>, i: nat, later: Time)
    requires Run(c, es, ts) && i < |ts|
    requires if i < |es| then later == es[i].clock.now else NO_TIME < later && (i > 0 ==> es[i - 1].clock.now < later)
    ensures Indexed(ts[i]) && Before(ts[i], later)
    ensures forall a, b | a in ts[i].tracked && b in ts[i].tracked && a.pid == b.pid :: a == b
  {
    if i > 0 {
      ReachableInvariant(c, es, ts, i - 1, es[i - 1].clock.now);
      StepKeepsInvariant(c, ts[i - 1], es[i - 1], later);
    }
  }

  lemma {:induction false} ReachableBefore(c: Config, es: seq<Event>, ts: seq<TState>, i: nat)
    requires Run(c, es, ts) && i < |es|
    ensures Indexed(ts[i]) && Before(ts[i], es[i].clock.now)
  {
    ReachableInvariant(c, es, ts, i, es[i].clock.now);
  }

  // ---------------------------------------------------------------- who is reported

  ghost predicate Live(t: TState, id: ID) {
    id in t.tracked && t.tracked[id].Some?
  }

  // After a successful Update the live processes are exactly: those that were live and were read again,
  // the new ones a rule wants, and, with trackChildren, unmatched new ones that inherited a group.
  // All of them were read in this very scan.
  lemma {:induction false} LiveSetIsExact(c: Config, es: seq<Event>, ts: seq<TState>, i: nat, id: ID)
    requires Run(c, es, ts) && i < |es| && es[i].listing.Some?
    ensures var rows := es[i].listing.value;
      && (Live(ts[i + 1], id) ==> Read(rows, id))
      && (Live(ts[i], id) ==> (Live(ts[i + 1], id) <==> Read(rows, id)))
      && (NewIn(ts[i], rows, id) && c.namer(Attributes(c, InfoOf(ts[i], rows, id))).Some? ==> Live(ts[i + 1], id))
      && (Live(ts[i + 1], id) && !Live(ts[i], id) ==>
            && NewIn(ts[i], rows, id)
            && (c.trackChildren || c.namer(Attributes(c, InfoOf(ts[i], rows, id))).Some?))
  {
    ReachableBefore(c, es, ts, i);
    UpdateIsExact(c, ts[i], es[i].listing.value, es[i].clock, es[i].order);
    assert Outcome(c, ts[i], es[i].listing.value, es[i].clock, ts[i + 1], id);
  }

  // A process keeps its group for as long as it stays tracked.
  lemma {:induction false} GroupIsFixed(c: Config, es: seq<Event>, ts: seq<TState>, i: nat, j: nat, id: ID)
    requires Run(c, es, ts) && i <= j < |ts|
    requires Live(ts[i], id) && Live(ts[j], id)
    requires forall k | i <= k <= j :: Live(ts[k], id)
    ensures ts[j].tracked[id].value.groupName == ts[i].tracked[id].value.groupName
  {
    if i < j {
      GroupIsFixed(c, es, ts, i, j - 1, id);
      ReachableBefore(c, es, ts, j - 1);
      if rows: seq<Row> :| es[j - 1].listing == Some(rows) {
        UpdateIsExact(c, ts[j - 1], rows, es[j - 1].clock, es[j - 1].order);
        assert Outcome(c, ts[j - 1], rows, es[j - 1].clock, ts[j], id);
      }
    }
  }

  // ---------------------------------------------------------------- ignoring

  ghost predicate Ignored(t: TState, id: ID) {
    id in t.tracked && t.tracked[id].None?
  }

  ghost predicate TakenOver(t: TState, e: Event, id: ID) {
    e.listing.Some? && Displaced(t, e.listing.value, id)
  }

  lemma {:induction false} IgnoredStep(c: Config, es: seq<Event>, ts: seq<TState>, i: nat, id: ID)
    requires Run(c, es, ts) && i < |es| && Ignored(ts[i], id)
    ensures Ignored(ts[i + 1], id) <==> !TakenOver(ts[i], es[i], id)
    ensures !Live(ts[i + 1], id)
  {
    if rows: seq<Row> :| es[i].listing == Some(rows) {
      ReachableBefore(c, es, ts, i);
      UpdateIsExact(c, ts[i], rows, es[i].clock, es[i].order);
      assert Outcome(c, ts[i], rows, es[i].clock, ts[i + 1], id);
    }
  }

  // An ignored process stays ignored, and so unreported, exactly until another process is first read
  // under its pid.
  lemma {:induction false} IgnoredUntilTakenOver(c: Config, es: seq<Event>, ts: seq<TState>, i: nat, j: nat, id: ID)
    requires Run(c, es, ts) && i <= j < |ts| && Ignored(ts[i], id)
    ensures (forall k | i <= k <= j :: Ignored(ts[k], id)) <==> (forall k | i <= k < j :: !TakenOver(ts[k], es[k], id))
  {
    if i < j {
      IgnoredUntilTakenOver(c, es, ts, i, j - 1, id);
      if Ignored(ts[j - 1], id) {
        IgnoredStep(c, es, ts, j - 1, id);
      }
    }
  }

  // ---------------------------------------------------------------- no ignore list at all

  ghost predicate NoneIgnored(t: TState) {
    forall id | id in t.tracked :: t.tracked[id].Some?
  }

  lemma {:induction false} WalkIgnoresNone(c: Config, t: TState, news: NewProcs, id: ID, wall: Wall)
    requires c.recheck && c.recheckTimeLimit == 0
    requires Acyclic(t.procIds, news) && id in news && NoneIgnored(t)
    ensures NoneIgnored(CheckAncestry(c, t, news, id, wall).0)
    decreases Above(t.procIds, news, id)
  {
    var p := ParentId(t.procIds, news[id]);
    if p.pid >= 1 && p !in t.tracked && p in news {
      AboveShrinks(t.procIds, news, id);
      WalkIgnoresNone(c, t, news, p, wall);
    }
  }

  lemma {:induction false} InheritIgnoresNone(c: Config, t: TState, news: NewProcs, order: seq<ID>, wall: Wall)
    requires c.recheck && c.recheckTimeLimit == 0
    requires Acyclic(t.procIds, news) && NoneIgnored(t)
    requires forall id | id in order :: id in news
    ensures NoneIgnored(Inherit(c, t, news, order, wall))
  {
    if order != [] {
      var front, id := order[..|order| - 1], order[|order| - 1];
      assert order == front + [id];
      InheritIgnoresNone(c, t, news, front, wall);
      WalkIgnoresNone(c, Inherit(c, t, news, front, wall), news, id, wall);
    }
  }

  // With -recheck and no time limit, or without -children, nothing is ever ignored.
  lemma {:induction false} NothingIsIgnored(c: Config, es: seq<Event>, ts: seq<TState>, i: nat)
    requires Run(c, es, ts) && i < |ts|
    requires !c.trackChildren || (c.recheck && c.recheckTimeLimit == 0)
    ensures NoneIgnored(ts[i])
  {
    if i > 0 {
      NothingIsIgnored(c, es, ts, i - 1);
      var t, e := ts[i - 1], es[i - 1];
      if rows: seq<Row> :| e.listing == Some(rows) {
        ReachableBefore(c, es, ts, i - 1);
        Step1IsExact(c, t, rows, e.clock);
        var (s, news) := AfterMatch(c, t, rows, e.clock);
        forall id | id in s.tracked ensures s.tracked[id].Some? {
          assert Outcome(c, t, rows, e.clock, s, id);
        }
        if c.trackChildren {
          InheritIgnoresNone(c, s, news, e.order, e.clock.wall);
        }
      }
    }
  }

  // ---------------------------------------------------------------- map order does not matter

  ghost predicate NoBlankGroup(t: TState) {
    forall id | Live(t, id) :: t.tracked[id].value.groupName != ""
  }

  ghost predicate NeverBlank(c: Config) {
    forall a :: c.namer(a) != Some("")
  }

  lemma {:induction false} ResolvesToNoBlank(t: TState, news: NewProcs, id: ID)
    requires Acyclic(t.procIds, news) && id in news && NoBlankGroup(t)
    ensures Resolve(t, news, id) != Some("")
    decreases Above(t.procIds, news, id)
  {
    var p := ParentId(t.procIds, news[id]);
    if p.pid >= 1 && p !in t.tracked && p in news {
      AboveShrinks(t.procIds, news, id);
      ResolvesToNoBlank(t, news, p);
    } else if p in t.tracked && t.tracked[p].Some? {
      assert Live(t, p);
    }
  }

  // The state after an Update, with no order in it: every unmatched new process settled by its ancestors.
  ghost function Settlement(c: Config, t: TState, rows: seq<Row>, clock: Clock): TState
    requires Walkable(c, t, rows, clock)
  {
    var (s, news) := AfterMatch(c, t, rows, clock);
    if c.trackChildren then Final(c, s, news, clock.wall) else s
  }

  lemma UpdateReachesFinal(c: Config, t: TState, rows: seq<Row>, clock: Clock, order: seq<ID>)
    requires Indexed(t) && Before(t, clock.now) && OneRowPerPid(rows) && FitOrder(c, t, rows, clock, order)
    requires NeverBlank(c) && NoBlankGroup(t)
    ensures Update(c, t, rows, clock, order) == Settlement(c, t, rows, clock)
    ensures NoBlankGroup(Update(c, t, rows, clock, order))
  {
    Step1IsExact(c, t, rows, clock);
    var (s, news) := AfterMatch(c, t, rows, clock);
    Step1NamesNoBlank(c, t, rows, clock, s, news);
    if c.trackChildren {
      forall id | id in news ensures Resolve(s, news, id) != Some("") {
        ResolvesToNoBlank(s, news, id);
      }
      InheritReachesFinal(c, s, news, order, clock.wall);
      FinalNamesNoBlank(c, s, news, clock.wall);
    }
  }

  lemma Step1NamesNoBlank(c: Config, t: TState, rows: seq<Row>, clock: Clock, s: TState, news: NewProcs)
    requires Matched(c, t, rows, clock, s, news) && NeverBlank(c) && NoBlankGroup(t)
    ensures NoBlankGroup(s)
  {
    forall id | Live(s, id) ensures s.tracked[id].value.groupName != "" {
      assert Outcome(c, t, rows, clock, s, id);
      if id in t.tracked { assert Live(t, id); }
    }
  }

  lemma FinalNamesNoBlank(c: Config, s: TState, news: NewProcs, wall: Wall)
    requires Acyclic(s.procIds, news) && NoBlankGroup(s)
    requires forall id | id in news :: Resolve(s, news, id) != Some("")
    ensures NoBlankGroup(Final(c, s, news, wall))
  {
    var r := Final(c, s, news, wall);
    forall id | Live(r, id) ensures r.tracked[id].value.groupName != "" {
      if id !in news { assert Live(s, id); }
    }
  }

  // When no rule gives an empty name, two runs over the same listings and clock readings go through the
  // same states, whatever orders Go's map iteration picks in each.
  lemma {:induction false} RunsAgree(c: Config, es: seq<Event>, ts: seq<TState>, es': seq<Event>, ts': seq<TState>,
                                     i: nat)
    requires Run(c, es, ts) && Run(c, es', ts') && |es| == |es'|
    requires forall k | 0 <= k < |es| :: es[k].listing == es'[k].listing && es[k].clock == es'[k].clock
    requires NeverBlank(c) && i < |ts|
    ensures ts[i] == ts'[i] && NoBlankGroup(ts[i])
  {
    if i > 0 {
      RunsAgree(c, es, ts, es', ts', i - 1);
      ReachableBefore(c, es, ts, i - 1);
      if rows: seq<Row> :| es[i - 1].listing == Some(rows) {
        UpdateReachesFinal(c, ts[i - 1], rows, es[i - 1].clock, es[i - 1].order);
        UpdateReachesFinal(c, ts'[i - 1], rows, es'[i - 1].clock, es'[i - 1].order);
      } else {
        assert es[i - 1].listing == None;
        assert forall id | Live(ts[i], id) :: Live(ts[i - 1], id);
      }
    }
  }

  lemma LiveAfterSettling(c: Config, s: TState, news: NewProcs, wall: Wall, id: ID)
    requires Acyclic(s.procIds, news)
    ensures var r := Final(c, s, news, wall);
      && (id in news && Resolve(s, news, id).Some? ==>
            Live(r, id) && Some(r.tracked[id].value.groupName) == Resolve(s, news, id))
      && (id in news && Resolve(s, news, id).None? ==>
         Live(r, id) == (Live(s, id) && Settled(c, s, news, id, wall).None?))
      && (id !in news ==> Live(r, id) == Live(s, id))
  {
  }

  // Before step 2, the live processes are those read again and the new ones a rule wants.
  lemma LiveAfterStep1(c: Config, t: TState, rows: seq<Row>, clock: Clock, s: TState, news: NewProcs, id: ID)
    requires Matched(c, t, rows, clock, s, news)
    ensures Live(s, id) <==> (Live(t, id) && Read(rows, id))
                             || (NewIn(t, rows, id) && c.namer(Attributes(c, InfoOf(t, rows, id))).Some?)
    ensures id in news ==> !Live(s, id)
  {
    if id !in news {
      assert Outcome(c, t, rows, clock, s, id);
    }
  }

  // With trackChildren and no empty names, the live set after a successful Update is known exactly: the
  // processes that were live and read again, the new ones a rule wants, and the new unmatched ones with a
  // tracked process as nearest known ancestor - each of the last under that ancestor's group.
  lemma {:induction false} LiveSetWithChildren(c: Config, es: seq<Event>, ts: seq<TState>, i: nat, id: ID)
    requires Run(c, es, ts) && i < |es| && es[i].listing.Some? && NeverBlank(c) && c.trackChildren
    ensures var t, rows := ts[i], es[i].listing.value;
      var (s, news) := AfterMatch(c, t, rows, es[i].clock);
      && Acyclic(s.procIds, news)
      && (Live(ts[i + 1], id) <==>
            || (Live(t, id) && Read(rows, id))
            || (NewIn(t, rows, id) && c.namer(Attributes(c, InfoOf(t, rows, id))).Some?)
            || (id in news && Resolve(s, news, id).Some?))
      && (id in news && Resolve(s, news, id).Some? ==>
            Live(ts[i + 1], id) && Some(ts[i + 1].tracked[id].value.groupName) == Resolve(s, news, id))
  {
    var t, e := ts[i], es[i];
    var rows := e.listing.value;
    RunsAgree(c, es, ts, es, ts, i);
    ReachableBefore(c, es, ts, i);
    Step1IsExact(c, t, rows, e.clock);
    UpdateReachesFinal(c, t, rows, e.clock, e.order);
    var (s, news) := AfterMatch(c, t, rows, e.clock);
    LiveAfterStep1(c, t, rows, e.clock, s, news, id);
    LiveAfterSettling(c, s, news, e.clock.wall, id);
  }

  // ---------------------------------------------------------------- why one row per pid

  // If /proc listed one pid twice, both processes would end up tracked, and the index would be lost.
  lemma TwoRowsPerPidBreakIndex(c: Config, a: ID, b: ID, m: Metrics, st: Static)
    requires a != b && a.pid == b.pid
    requires forall attrs :: c.namer(attrs).Some?
    ensures var rows := [Row(Some(a), Some(m), [], Some(st)), Row(Some(b), Some(m), [], Some(st))];
      !Indexed(AfterMatch(c, EMPTY, rows, Clock(1, 1, _ => 1)).0)
  {
    var ra, rb := Row(Some(a), Some(m), [], Some(st)), Row(Some(b), Some(m), [], Some(st));
    var begun := Begin(EMPTY, Clock(1, 1, _ => 1));
    var ia, ib := IDInfo(a, st, m, []), IDInfo(b, st, m, []);
    assert [ra, rb][..1] == [ra] && [ra][..0] == [];
    assert ScanRows(begun, [], 1) == (begun, []);
    assert ScanRows(begun, [ra], 1).1 == [ia];
    assert ScanRows(begun, [ra, rb], 1).1 == [ia, ib];
    var s := Sweep(ScanRows(begun, [ra, rb], 1).0, 1);
    assert [ia, ib][..1] == [ia] && [ia][..0] == [];
    var r := MatchNew(c, s, [ia, ib]).0;
    assert a in MatchNew(c, s, [ia]).0.tracked;
    assert a in r.tracked && b in r.tracked;
  }

  // ---------------------------------------------------------------- why the walk must end

  // Two processes listed as each other's parent, which a scan can meet when one of them is reparented and its
  // old parent's pid is taken by its own child meanwhile: checkAncestry would climb from one to the other for ever.
  lemma ParentCycleIsNotWalkable(c: Config, a: ID, b: ID, m: Metrics, st: Static)
    requires c.trackChildren && forall attrs :: c.namer(attrs).None?
    requires a.pid > 1 && b.pid > 1 && a.pid != b.pid
    ensures var rows := [Row(Some(a), Some(m), [], Some(st.(parentPid := b.pid))),
                         Row(Some(b), Some(m), [], Some(st.(parentPid := a.pid)))];
      OneRowPerPid(rows) && !Walkable(c, EMPTY, rows, Clock(1, 1, _ => 1))
  {
    var rows := [Row(Some(a), Some(m), [], Some(st.(parentPid := b.pid))),
                 Row(Some(b), Some(m), [], Some(st.(parentPid := a.pid)))];
    assert rows[..1] == [rows[0]] && RowFor(rows, b) == Some(rows[1]) && RowFor([rows[0]], a) == Some(rows[0]);
    Step1IsExact(c, EMPTY, rows, Clock(1, 1, _ => 1));
    var (s, news) := AfterMatch(c, EMPTY, rows, Clock(1, 1, _ => 1));
    assert NewIn(EMPTY, rows, a) && NewIn(EMPTY, rows, b);
    assert Climb(s.procIds, news, a, 0) == Some(a);
    assert Climb(s.procIds, news, a, 1) == Some(b);
    assert Climb(s.procIds, news, a, 2) == Some(a);
  }
}
