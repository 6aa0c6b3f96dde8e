/** Runs in which a group's counter goes down: each leaves out one premise of
    `Conservation.CountersNeverDecrease`. One rule names every process "g", at most one process is running at
    a time, and all of them start after the first Update began, so that they count in full. */
module Falls {
  import opened Wrappers
  import opened Counters
  import opened Process
  import opened Collections
  import opened TrackerSpec
  import opened TrackerUpdate
  import opened TrackerRuns
  import opened Reports
  import opened GrouperSpec
  import opened Accounting
  import opened Ledger
  import opened Conservation

  const NAME: string := "g"

  // One rule that names every process NAME; no -children.
  const ONE_GROUP: Config := Config(attrs => Some(NAME), uid => "", false, false, 0)

  function ScanOf(listing: seq<Row>, now: Time): Event {
    Event(Some(listing), Clock(1, now, _ => now), [])
  }

  function Alone(id: ID, m: Metrics, threads: seq<Thread>, stat: Static): seq<Row> {
    [Row(Some(id), Some(m), threads, Some(stat))]
  }

  lemma ReadAlone(id: ID, m: Metrics, threads: seq<Thread>, stat: Static, x: ID)
    ensures RowFor(Alone(id, m, threads, stat), x) ==
            if x == id then Some(Row(Some(id), Some(m), threads, Some(stat))) else None
    ensures RowFor([], x) == None
  {
    var rows := Alone(id, m, threads, stat);
    assert rows[..|rows| - 1] == [];
  }

  // Under one rule for all, nothing is left for step 2.
  lemma {:induction false} NothingIsUnmatched(es: seq<Event>, ts: seq<TState>, rows: seq<Row>, now: Time)
    requires Run(ONE_GROUP, es, ts) && Fresh(es, now) && OneRowPerPid(rows)
    ensures Indexed(ts[|es|]) && Before(ts[|es|], now) && NoneIgnored(ts[|es|])
    ensures Fits(ONE_GROUP, ts[|es|], ScanOf(rows, now))
    ensures Step(ONE_GROUP, ts[|es|], ScanOf(rows, now)).firstUpdateAt
            == Begin(ts[|es|], ScanOf(rows, now).clock).firstUpdateAt
    ensures forall x ::
            Outcome(ONE_GROUP, ts[|es|], rows, ScanOf(rows, now).clock, Step(ONE_GROUP, ts[|es|], ScanOf(rows, now)), x)
  {
    var n := |es|;
    var t, e := ts[n], ScanOf(rows, now);
    ReachableInvariant(ONE_GROUP, es, ts, n, now);
    NothingIsIgnored(ONE_GROUP, es, ts, n);
    Step1IsExact(ONE_GROUP, t, rows, e.clock);
    var news := AfterMatch(ONE_GROUP, t, rows, e.clock).1;
    assert news.Keys == {};
    UpdateIsExact(ONE_GROUP, t, rows, e.clock, []);
  }

  // Of the processes, only id is live, under NAME, last seen with these counts and reported with this increment.
  ghost predicate OnlyLive(t: TState, id: ID, counts: Counts, increment: Delta) {
    && LiveIds(t) == {id}
    && var p := t.tracked[id].value;
       p.metrics.counts == counts && p.groupName == NAME && p.lastAccum == increment
  }

  lemma {:induction false} AloneIsLive(es: seq<Event>, ts: seq<TState>, id: ID, m: Metrics, threads: seq<Thread>,
                                       stat: Static, now: Time)
    requires Run(ONE_GROUP, es, ts) && Fresh(es, now)
    ensures var t, rows := ts[|es|], Alone(id, m, threads, stat);
      Fits(ONE_GROUP, t, ScanOf(rows, now)) && LiveIds(Step(ONE_GROUP, t, ScanOf(rows, now))) == {id}
  {
    var t, rows := ts[|es|], Alone(id, m, threads, stat);
    var e := ScanOf(rows, now);
    NothingIsUnmatched(es, ts, rows, now);
    forall x ensures x in LiveIds(Step(ONE_GROUP, t, e)) <==> x == id {
      ReadAlone(id, m, threads, stat, x);
      assert Outcome(ONE_GROUP, t, rows, e.clock, Step(ONE_GROUP, t, e), x);
    }
  }

  // A process that started after the first Update (at 1) is new: all it did counts.
  lemma {:induction false} NewAlone(es: seq<Event>, ts: seq<TState>, id: ID, m: Metrics, threads: seq<Thread>,
                                    stat: Static, now: Time)
    requires Run(ONE_GROUP, es, ts) && Fresh(es, now)
    requires id !in LiveIds(ts[|es|]) && ts[|es|].firstUpdateAt <= 1 < stat.startTime
    ensures var t, rows := ts[|es|], Alone(id, m, threads, stat);
      && Fits(ONE_GROUP, t, ScanOf(rows, now))
      && OnlyLive(Step(ONE_GROUP, t, ScanOf(rows, now)), id, Observe(m, threads).counts, Observe(m, threads).counts)
      && Step(ONE_GROUP, t, ScanOf(rows, now)).firstUpdateAt <= 1
  {
    var t, rows := ts[|es|], Alone(id, m, threads, stat);
    AloneIsLive(es, ts, id, m, threads, stat, now);
    NothingIsUnmatched(es, ts, rows, now);
    ReadAlone(id, m, threads, stat, id);
    assert Outcome(ONE_GROUP, t, rows, ScanOf(rows, now).clock, Step(ONE_GROUP, t, ScanOf(rows, now)), id);
  }

  lemma {:induction false} KnownAlone(es: seq<Event>, ts: seq<TState>, id: ID, m: Metrics, threads: seq<Thread>,
                                      stat: Static, now: Time, counts: Counts, increment: Delta)
    requires Run(ONE_GROUP, es, ts) && Fresh(es, now) && OnlyLive(ts[|es|], id, counts, increment)
    ensures var t, rows, seen := ts[|es|], Alone(id, m, threads, stat), Observe(m, threads).counts;
      && Fits(ONE_GROUP, t, ScanOf(rows, now))
      && OnlyLive(Step(ONE_GROUP, t, ScanOf(rows, now)), id, seen, seen.Sub(counts))
  {
    var t, rows := ts[|es|], Alone(id, m, threads, stat);
    AloneIsLive(es, ts, id, m, threads, stat, now);
    NothingIsUnmatched(es, ts, rows, now);
    ReadAlone(id, m, threads, stat, id);
    assert id in LiveIds(t);
    assert Outcome(ONE_GROUP, t, rows, ScanOf(rows, now).clock, Step(ONE_GROUP, t, ScanOf(rows, now)), id);
  }

  lemma {:induction false} NobodyIsLive(es: seq<Event>, ts: seq<TState>, now: Time)
    requires Run(ONE_GROUP, es, ts) && Fresh(es, now) && ts[|es|].firstUpdateAt <= 1
    ensures Fits(ONE_GROUP, ts[|es|], ScanOf([], now)) && LiveIds(Step(ONE_GROUP, ts[|es|], ScanOf([], now))) == {}
    ensures Step(ONE_GROUP, ts[|es|], ScanOf([], now)).firstUpdateAt <= 1
  {
    NothingIsUnmatched(es, ts, [], now);
    forall x ensures x !in LiveIds(Step(ONE_GROUP, ts[|es|], ScanOf([], now))) {
      assert Outcome(ONE_GROUP, ts[|es|], [], ScanOf([], now).clock, Step(ONE_GROUP, ts[|es|], ScanOf([], now)), x);
    }
  }

  // ---------------------------------------------------------------- what is returned

  lemma AnswerOfOne(removeEmpty: bool, e: Event, next: TState, us: seq<Update>, st: GState, st': GState,
                    id: ID, counts: Counts, increment: Delta)
    requires GroupStep(removeEmpty, e, next, us, st, st') && e.listing.Some? && OnlyLive(next, id, counts, increment)
    ensures var out := Groups(removeEmpty, st, us);
      && NAME in out && NAME in st'.groupAccum && out[NAME].counts == st'.groupAccum[NAME]
      && out[NAME].counts == if NAME in st.groupAccum then increment.Add(st.groupAccum[NAME]) else increment
  {
    var ids :| ReportsAll(next, ids, us);
    assert id in LiveIds(next);
    ReportedGroups(next, ids, us, NAME);
    ReportsSum(next, ids, us, NAME);
    SumTakes(LiveIds(next), x => ReportedBy(next, NAME, x), id);
    assert LiveIds(next) - {id} == {};
    PlusZero(increment.Exact());
    WrapKeepsCounts(increment);
    OutputIsRemembered(removeEmpty, st, us, NAME);
    LooksUp(removeEmpty, st, us, NAME);
  }

  lemma AnswerOfNone(e: Event, next: TState, us: seq<Update>, st: GState, st': GState)
    requires GroupStep(true, e, next, us, st, st') && e.listing.Some? && LiveIds(next) == {}
    ensures NAME !in st'.groupAccum
  {
    var ids :| ReportsAll(next, ids, us);
    ReportedGroups(next, ids, us, NAME);
    LooksUp(true, st, us, NAME);
  }

  // A run, built Update by Update.
  datatype Exhibit = Exhibit(
    es: seq<Event>, ts: seq<TState>, us: seq<seq<Update>>, gs: seq<GState>, outs: seq<map<string, G.Group>>)

  const BLANK: Exhibit := Exhibit([], [EMPTY], [], [EMPTY_GROUPS], [])

  ghost predicate IsRun(removeEmpty: bool, x: Exhibit) {
    AnsweredRun(ONE_GROUP, removeEmpty, x.es, x.ts, x.us, x.gs, x.outs)
  }

  // x2 is x and one more Update, with event e.
  ghost predicate GoesOn(x: Exhibit, e: Event, x2: Exhibit) {
    && x2.es == x.es + [e] && x.ts <= x2.ts && x.outs <= x2.outs && x.gs <= x2.gs
    && |x2.ts| == |x.ts| + 1 && |x2.outs| == |x.outs| + 1 && |x2.gs| == |x.gs| + 1
  }

  lemma AnswerStays(removeEmpty: bool, x: Exhibit, x2: Exhibit, i: nat)
    requires x.es <= x2.es && x.us <= x2.us && x.gs <= x2.gs && x.outs <= x2.outs
    requires AnswerAt(removeEmpty, x.es, x.us, x.gs, x.outs, i)
    ensures AnswerAt(removeEmpty, x2.es, x2.us, x2.gs, x2.outs, i)
  {
  }

  lemma AnswersExtend(removeEmpty: bool, x: Exhibit, x2: Exhibit)
    requires |x2.es| == |x.es| + 1 && x.es <= x2.es && x.us <= x2.us && x.gs <= x2.gs && x.outs <= x2.outs
    requires forall i: nat | i < |x.es| :: AnswerAt(removeEmpty, x.es, x.us, x.gs, x.outs, i)
    requires AnswerAt(removeEmpty, x2.es, x2.us, x2.gs, x2.outs, |x.es|)
    ensures forall i: nat | i < |x2.es| :: AnswerAt(removeEmpty, x2.es, x2.us, x2.gs, x2.outs, i)
  {
    forall i: nat | i < |x.es| ensures AnswerAt(removeEmpty, x2.es, x2.us, x2.gs, x2.outs, i) {
      AnswerStays(removeEmpty, x, x2, i);
    }
  }

  lemma GoOn(removeEmpty: bool, x: Exhibit, e: Event) returns (x2: Exhibit)
    requires IsRun(removeEmpty, x) && Fits(ONE_GROUP, x.ts[|x.es|], e) && Fresh(x.es, e.clock.now)
    ensures IsRun(removeEmpty, x2) && GoesOn(x, e, x2) && |x2.us| == |x2.es|
    ensures var n := |x.es|;
      && x2.ts[n + 1] == Step(ONE_GROUP, x.ts[n], e)
      && GroupStep(removeEmpty, e, x2.ts[n + 1], x2.us[n], x.gs[n], x2.gs[n + 1])
      && (e.listing.Some? ==> x2.outs[n] == Groups(removeEmpty, x.gs[n], x2.us[n]))
  {
    var n := |x.es|;
    var next := Step(ONE_GROUP, x.ts[n], e);
    var us, st := SomeGroupStep(removeEmpty, e, next, x.gs[n]);
    GroupRunExtends(ONE_GROUP, removeEmpty, x.es, x.ts, x.us, x.gs, e, next, us, st);
    var out := if e.listing.Some? then Groups(removeEmpty, x.gs[n], us) else map[];
    x2 := Exhibit(x.es + [e], x.ts + [next], x.us + [us], x.gs + [st], x.outs + [out]);
    AnswersExtend(removeEmpty, x, x2);
  }

  // The last Update of x returned and remembers these counts for the group; its one process was last seen with seen.
  ghost predicate Ends(x: Exhibit, id: ID, seen: Counts, total: Counts) {
    var n := |x.es|;
    && n > 0 && |x.ts| == n + 1 && |x.gs| == n + 1 && |x.outs| == n
    && (exists increment :: OnlyLive(x.ts[n], id, seen, increment)) && x.ts[n].firstUpdateAt <= 1
    && NAME in x.outs[n - 1] && x.outs[n - 1][NAME].counts == total
    && NAME in x.gs[n].groupAccum && x.gs[n].groupAccum[NAME] == total
  }

  // No reading of the group's processes has gone backwards.
  ghost predicate Grows(x: Exhibit, k: Counter) {
    ReadingsGrow(x.es, x.ts, |x.es|, NAME, k)
  }

  lemma StillGrows(x: Exhibit, e: Event, x2: Exhibit, k: Counter)
    requires |x.ts| == |x.es| + 1 && GoesOn(x, e, x2)
    requires Grows(x, k) && GrowsAt(x2.es, x2.ts, |x.es|, NAME, k)
    ensures Grows(x2, k)
  {
    forall i: nat | i < |x2.es| ensures GrowsAt(x2.es, x2.ts, i, NAME, k) {
      if i < |x.es| {
        assert GrowsAt(x.es, x.ts, i, NAME, k);
        assert x2.ts[i] == x.ts[i] && x2.ts[i + 1] == x.ts[i + 1] && x2.es[i] == x.es[i];
        forall id ensures ReadingOf(x2.es, x2.ts, i, id) == ReadingOf(x.es, x.ts, i, id) {
          LastListedStays(x.es, x2.es, i, id);
        }
      }
    }
  }

  lemma NewGrows(x: Exhibit, e: Event, x2: Exhibit, id: ID)
    requires |x.ts| == |x.es| + 1 && GoesOn(x, e, x2) && LiveIds(x2.ts[|x2.es|]) == {id}
    requires id !in LiveIds(x.ts[|x.es|]) && Grows(x, ReadBytes)
    ensures Grows(x2, ReadBytes)
  {
    var n := |x.es|;
    forall y | y in Members(x2.ts[n + 1], NAME)
      ensures ReadingOf(x2.es, x2.ts, n, y).Of(ReadBytes) <= CountsIn(x2.es[n], y).Of(ReadBytes)
    {
      assert y in LiveIds(x2.ts[n + 1]) && y == id && x2.ts[n] == x.ts[n];
    }
    StillGrows(x, e, x2, ReadBytes);
  }

  lemma NobodyGrows(x: Exhibit, e: Event, x2: Exhibit, k: Counter)
    requires |x.ts| == |x.es| + 1 && GoesOn(x, e, x2)
    requires LiveIds(x2.ts[|x2.es|]) == {} && Grows(x, k)
    ensures Grows(x2, k)
  {
    StillGrows(x, e, x2, k);
  }

  // A new process is seen: the group gains all it did.
  lemma NewIsCounted(removeEmpty: bool, x: Exhibit, id: ID, m: Metrics, threads: seq<Thread>, stat: Static, now: Time)
    returns (x2: Exhibit)
    requires IsRun(removeEmpty, x) && Fresh(x.es, now)
    requires id !in LiveIds(x.ts[|x.es|]) && x.ts[|x.es|].firstUpdateAt <= 1 < stat.startTime
    ensures IsRun(removeEmpty, x2) && GoesOn(x, ScanOf(Alone(id, m, threads, stat), now), x2)
    ensures var seen, accum := Observe(m, threads).counts, x.gs[|x.es|].groupAccum;
      Ends(x2, id, seen, if NAME in accum then seen.Add(accum[NAME]) else seen)
  {
    var seen, n := Observe(m, threads).counts, |x.es|;
    NewAlone(x.es, x.ts, id, m, threads, stat, now);
    x2 := GoOn(removeEmpty, x, ScanOf(Alone(id, m, threads, stat), now));
    AnswerOfOne(removeEmpty, x2.es[n], x2.ts[n + 1], x2.us[n], x.gs[n], x2.gs[n + 1], id, seen, seen);
  }

  lemma SeeNew(removeEmpty: bool, x: Exhibit, id: ID, m: Metrics, threads: seq<Thread>, stat: Static, now: Time)
    returns (x2: Exhibit)
    requires IsRun(removeEmpty, x) && Fresh(x.es, now)
    requires id !in LiveIds(x.ts[|x.es|]) && x.ts[|x.es|].firstUpdateAt <= 1 < stat.startTime
    ensures IsRun(removeEmpty, x2) && GoesOn(x, ScanOf(Alone(id, m, threads, stat), now), x2)
    ensures var seen, accum := Observe(m, threads).counts, x.gs[|x.es|].groupAccum;
      Ends(x2, id, seen, if NAME in accum then seen.Add(accum[NAME]) else seen)
    ensures Grows(x, ReadBytes) ==> Grows(x2, ReadBytes)
  {
    var seen, accum, e := Observe(m, threads).counts, x.gs[|x.es|].groupAccum, ScanOf(Alone(id, m, threads, stat), now);
    x2 := NewIsCounted(removeEmpty, x, id, m, threads, stat, now);
    GrowsWithNew(x, e, x2, id, seen, if NAME in accum then seen.Add(accum[NAME]) else seen);
  }

  lemma GrowsWithNew(x: Exhibit, e: Event, x2: Exhibit, id: ID, seen: Counts, total: Counts)
    requires |x.ts| == |x.es| + 1 && GoesOn(x, e, x2) && Ends(x2, id, seen, total)
    requires id !in LiveIds(x.ts[|x.es|])
    ensures Grows(x, ReadBytes) ==> Grows(x2, ReadBytes)
  {
    if Grows(x, ReadBytes) {
      NewGrows(x, e, x2, id);
    }
  }

  // The process is seen again: the group gains what it did since.
  lemma SeeAgain(removeEmpty: bool, x: Exhibit, id: ID, before: Counts, total: Counts, m: Metrics, threads: seq<Thread>,
                 stat: Static, now: Time) returns (x2: Exhibit)
    requires IsRun(removeEmpty, x) && Fresh(x.es, now) && Ends(x, id, before, total)
    ensures IsRun(removeEmpty, x2) && GoesOn(x, ScanOf(Alone(id, m, threads, stat), now), x2)
    ensures var seen := Observe(m, threads).counts;
      && NAME in x2.outs[|x.es|] && x2.outs[|x.es|][NAME].counts == seen.Sub(before).Add(total)
  {
    var seen, n := Observe(m, threads).counts, |x.es|;
    var increment :| OnlyLive(x.ts[n], id, before, increment);
    KnownAlone(x.es, x.ts, id, m, threads, stat, now, before, increment);
    x2 := GoOn(removeEmpty, x, ScanOf(Alone(id, m, threads, stat), now));
    AnswerOfOne(removeEmpty, x2.es[n], x2.ts[n + 1], x2.us[n], x.gs[n], x2.gs[n + 1], id, seen, seen.Sub(before));
  }

  // Nobody is seen, and the group is forgotten.
  lemma SeeNobody(x: Exhibit, now: Time) returns (x2: Exhibit)
    requires IsRun(true, x) && Fresh(x.es, now) && x.ts[|x.es|].firstUpdateAt <= 1
    ensures IsRun(true, x2) && GoesOn(x, ScanOf([], now), x2)
    ensures LiveIds(x2.ts[|x2.es|]) == {} && x2.ts[|x2.es|].firstUpdateAt <= 1 && NAME !in x2.gs[|x2.es|].groupAccum
    ensures Grows(x, ReadBytes) ==> Grows(x2, ReadBytes)
  {
    var n := |x.es|;
    NobodyIsLive(x.es, x.ts, now);
    x2 := GoOn(true, x, ScanOf([], now));
    AnswerOfNone(x2.es[n], x2.ts[n + 1], x2.us[n], x.gs[n], x2.gs[n + 1]);
    if Grows(x, ReadBytes) {
      NobodyGrows(x, x2.es[n], x2, ReadBytes);
    }
  }

  // ---------------------------------------------------------------- the runs

  // A process is read with three threads, then with the two that are left. Its context switches are the sums
  // over its threads, so its group's counter goes from 12 to 5, with empty groups kept and nothing near 2^64.
  lemma ThreadExitLowersGroup(id: ID, m: Metrics, a: Thread, b: Thread, c: Thread, stat: Static) returns (x: Exhibit)
    requires stat.startTime == 2
    requires a.counts.ctxVoluntary == 5 && b.counts.ctxVoluntary == 7 && c.counts.ctxVoluntary == 0
    ensures IsRun(false, x)
    ensures x.es == [ScanOf(Alone(id, m, [a, b, c], stat), 3), ScanOf(Alone(id, m, [a, c], stat), 4)]
    ensures |x.outs| == 2 && NAME in x.outs[0] && NAME in x.outs[1]
    ensures x.outs[0][NAME].counts.ctxVoluntary == 12 && x.outs[1][NAME].counts.ctxVoluntary == 5
  {
    ThreadExitLowersSwitches(m, a, b, c);
    var all, left := Observe(m, [a, b, c]).counts, Observe(m, [a, c]).counts;
    var x1 := SeeNew(false, BLANK, id, m, [a, b, c], stat, 3);
    x := SeeAgain(false, x1, id, all, all, m, [a, c], stat, 4);
    SubThenAdd(left, all);
    AddCommutes(all, left.Sub(all));
  }

  lemma SeeFirst(removeEmpty: bool, id: ID, m: Metrics, stat: Static) returns (x: Exhibit)
    requires stat.startTime == 2
    ensures IsRun(removeEmpty, x) && x.es == [ScanOf(Alone(id, m, [], stat), 3)] && Ends(x, id, m.counts, m.counts)
    ensures Grows(x, ReadBytes)
  {
    x := SeeNew(removeEmpty, BLANK, id, m, [], stat, 3);
  }

  // Two processes, one after the other, read 2^64 - 1 bytes and 1 byte. Nothing observed goes backwards, but
  // the group's counter goes from 2^64 - 1 to 0.
  lemma OverflowLowersGroup(id: ID, next: ID, m: Metrics, n: Metrics, stat: Static) returns (x: Exhibit)
    requires id != next && stat.startTime == 2
    requires m.counts.readBytes == TWO_64 - 1 && n.counts.readBytes == 1
    ensures IsRun(false, x) && x.es == [ScanOf(Alone(id, m, [], stat), 3), ScanOf(Alone(next, n, [], stat), 4)]
            && Grows(x, ReadBytes)
    ensures |x.outs| == 2 && NAME in x.outs[0] && NAME in x.outs[1]
    ensures x.outs[0][NAME].counts.readBytes == TWO_64 - 1 && x.outs[1][NAME].counts.readBytes == 0
  {
    var x1 := SeeFirst(false, id, m, stat);
    x := SeeNew(false, x1, next, n, [], stat, 4);
  }

  lemma SeeFirstThenNobody(id: ID, m: Metrics, stat: Static) returns (x: Exhibit)
    requires stat.startTime == 2
    ensures IsRun(true, x) && x.es == [ScanOf(Alone(id, m, [], stat), 3), ScanOf([], 4)] && Grows(x, ReadBytes)
    ensures |x.outs| == 2 && NAME in x.outs[0] && x.outs[0][NAME].counts == m.counts
    ensures LiveIds(x.ts[2]) == {} && x.ts[2].firstUpdateAt <= 1 && NAME !in x.gs[2].groupAccum
  {
    var x1 := SeeFirst(true, id, m, stat);
    x := SeeNobody(x1, 4);
  }

  // With removeEmptyGroups a group that was empty in between starts over: its counter goes from 5 to 1.
  lemma RemovalLowersGroup(id: ID, next: ID, m: Metrics, n: Metrics, stat: Static) returns (x: Exhibit)
    requires stat.startTime == 2 && m.counts.readBytes == 5 && n.counts.readBytes == 1
    ensures IsRun(true, x) && Grows(x, ReadBytes)
    ensures x.es == [ScanOf(Alone(id, m, [], stat), 3), ScanOf([], 4), ScanOf(Alone(next, n, [], stat), 5)]
    ensures |x.outs| == 3 && NAME in x.outs[0] && NAME in x.outs[2]
    ensures x.outs[0][NAME].counts.readBytes == 5 && x.outs[2][NAME].counts.readBytes == 1
  {
    var x2 := SeeFirstThenNobody(id, m, stat);
    x := SeeNew(true, x2, next, n, [], stat, 5);
  }
}
