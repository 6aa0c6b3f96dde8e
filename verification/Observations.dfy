/** What the tracker holds of a process, in terms of the listings of /proc alone. The operations of
    `TrackerSpec` are not mentioned: every statement is about a run, its listings and its clock readings. */
module Observations {
  import opened Wrappers
  import opened Counters
  import opened Process
  import opened TrackerSpec
  import opened TrackerUpdate
  import opened TrackerRuns
  import opened Reports
  import opened Ancestry

  // ---------------------------------------------------------------- the first Update

  // The first clock reading taken for firstUpdateAt that is not Go's zero time.
  function FirstReading(es: seq<Event>): Time {
    if es == [] then NO_TIME
    else if es[0].clock.first != NO_TIME then es[0].clock.first
    else FirstReading(es[1..])
  }

  lemma {:induction false} FirstReadingStays(es: seq<Event>, e: Event)
    ensures FirstReading(es + [e]) == if FirstReading(es) != NO_TIME then FirstReading(es) else e.clock.first
  {
    if es == [] {
      assert ([e])[1..] == [];
    } else {
      assert (es + [e])[1..] == es[1..] + [e];
      FirstReadingStays(es[1..], e);
    }
  }

  // The tracker remembers when its first Update began, and no later Update moves that.
  lemma {:induction false} FirstUpdateIsRemembered(c: Config, es: seq<Event>, ts: seq<TState>, i: nat)
    requires Run(c, es, ts) && i < |ts|
    ensures ts[i].firstUpdateAt == FirstReading(es[..i])
    ensures i > 0 && es[0].clock.first != NO_TIME ==> ts[i].firstUpdateAt == es[0].clock.first
  {
    if i > 0 {
      FirstUpdateIsRemembered(c, es, ts, i - 1);
      var e := es[i - 1];
      FirstReadingStays(es[..i - 1], e);
      assert es[..i] == es[..i - 1] + [e];
      FirstUpdateStep(c, es, ts, i - 1);
    }
  }

  lemma {:induction false} FirstUpdateStep(c: Config, es: seq<Event>, ts: seq<TState>, i: nat)
    requires Run(c, es, ts) && i < |es|
    ensures ts[i + 1].firstUpdateAt ==
            if ts[i].firstUpdateAt != NO_TIME then ts[i].firstUpdateAt else es[i].clock.first
  {
    if rows: seq<Row> :| es[i].listing == Some(rows) {
      ReachableBefore(c, es, ts, i);
      UpdateIsExact(c, ts[i], rows, es[i].clock, es[i].order);
    }
  }

  // ---------------------------------------------------------------- one row

  // Row k of Update i is that of process id, and its metrics were read.
  ghost predicate RowOf(es: seq<Event>, i: nat, k: nat, id: ID) {
    && i < |es| && es[i].listing.Some? && k < |es[i].listing.value|
    && var row := es[i].listing.value[k];
       row.procID == Some(id) && row.metrics.Some?
  }

  function RowAt(es: seq<Event>, i: nat, k: nat): Row
    requires i < |es| && es[i].listing.Some? && k < |es[i].listing.value|
  {
    es[i].listing.value[k]
  }

  // What the rules are shown of a process.
  function Shown(c: Config, id: ID, stat: Static): ProcAttributes {
    ProcAttributes(
      name := stat.name, cmdline := stat.cmdline, cgroups := stat.cgroups,
      username := c.userOf(stat.effectiveUID), pid := id.pid, startTime := stat.startTime)
  }

  lemma RowIsTheRow(rows: seq<Row>, k: nat, id: ID)
    requires OneRowPerPid(rows) && k < |rows| && rows[k].procID == Some(id)
    ensures RowFor(rows, id) == Some(rows[k])
  {
    RowForIsARow(rows, id);
    var i :| 0 <= i < |rows| && rows[i] == RowFor(rows, id).value;
    assert rows[i].procID == rows[k].procID;
  }

  // After a successful Update, a live process was listed, and what is held of it is what its row says: its
  // metrics always, and if it is new all that is static about it, with its whole counts as increment if it
  // started after the first Update and none otherwise. A process that was live before keeps the rest, and
  // its increment is the wrapped difference to the counts it was last seen with.
  lemma {:induction false} LiveIsAsListed(c: Config, es: seq<Event>, ts: seq<TState>, i: nat, id: ID) returns (k: nat)
    requires Run(c, es, ts) && i < |es| && es[i].listing.Some? && id in LiveIds(ts[i + 1])
    ensures RowOf(es, i, k, id)
    ensures var row, p := RowAt(es, i, k), ts[i + 1].tracked[id].value;
      && p.metrics == Observe(row.metrics.value, row.threads)
      && if id in LiveIds(ts[i]) then
           var was := ts[i].tracked[id].value;
           && p.stat == was.stat && p.groupName == was.groupName
           && p.lastAccum == p.metrics.counts.Sub(was.metrics.counts)
         else
           && row.stat == Some(p.stat)
           && p.lastAccum == (if p.stat.startTime > FirstReading(es[..i + 1]) then p.metrics.counts else NO_COUNTS)
  {
    var rows := es[i].listing.value;
    ReachableBefore(c, es, ts, i);
    UpdateIsExact(c, ts[i], rows, es[i].clock, es[i].order);
    assert Outcome(c, ts[i], rows, es[i].clock, ts[i + 1], id);
    RowForIsARow(rows, id);
    k :| 0 <= k < |rows| && rows[k] == RowFor(rows, id).value;
    FirstUpdateIsRemembered(c, es, ts, i + 1);
  }

  // ---------------------------------------------------------------- new processes

  // A row of a process the tracker does not know, with all three reads answered.
  ghost predicate NewRow(es: seq<Event>, ts: seq<TState>, i: nat, k: nat, id: ID) {
    RowOf(es, i, k, id) && RowAt(es, i, k).stat.Some? && i < |ts| && id !in ts[i].tracked
  }

  lemma {:induction false} NewRowIsNew(es: seq<Event>, ts: seq<TState>, i: nat, k: nat, id: ID)
    requires NewRow(es, ts, i, k, id) && OneRowPerPid(es[i].listing.value)
    ensures var rows, row := es[i].listing.value, RowAt(es, i, k);
      && NewIn(ts[i], rows, id)
      && InfoOf(ts[i], rows, id) == IDInfo(id, row.stat.value, Observe(row.metrics.value, row.threads), row.threads)
  {
    RowIsTheRow(es[i].listing.value, k, id);
  }

  // A new process that a rule wants, shown what its row says, is live under the rule's name; without
  // -children nobody else is taken in.
  lemma {:induction false} WantedIsTracked(c: Config, es: seq<Event>, ts: seq<TState>, i: nat, k: nat, id: ID)
    requires Run(c, es, ts) && NewRow(es, ts, i, k, id)
    ensures var wanted := c.namer(Shown(c, id, RowAt(es, i, k).stat.value));
      && (wanted.Some? ==> id in LiveIds(ts[i + 1]) && ts[i + 1].tracked[id].value.groupName == wanted.value)
      && (wanted.None? && !c.trackChildren ==> id !in ts[i + 1].tracked)
  {
    var rows := es[i].listing.value;
    ReachableBefore(c, es, ts, i);
    NewRowIsNew(es, ts, i, k, id);
    UpdateIsExact(c, ts[i], rows, es[i].clock, es[i].order);
    assert Outcome(c, ts[i], rows, es[i].clock, ts[i + 1], id);
    assert Attributes(c, InfoOf(ts[i], rows, id)) == Shown(c, id, RowAt(es, i, k).stat.value);
  }

  ghost predicate LiveAs(t: TState, id: ID, group: string) {
    id in LiveIds(t) && t.tracked[id].value.groupName == group
  }

  // With -children and no empty names, a new process no rule wants is live exactly under the name of the
  // tracked process it descends from, through new unwanted processes only. The links are the parent pids in
  // the rows, looked up in the index as this very scan left it. With no such ancestor it is ignored, unless
  // -recheck is on and has no limit, or the process is younger than the limit when it is checked.
  lemma {:induction false} UnwantedIsSettled(c: Config, es: seq<Event>, ts: seq<TState>, i: nat, k: nat, id: ID)
    requires Run(c, es, ts) && NewRow(es, ts, i, k, id) && NeverBlank(c) && c.trackChildren
    requires c.namer(Shown(c, id, RowAt(es, i, k).stat.value)).None?
    ensures var t, rows, row, clock, next := ts[i], es[i].listing.value, RowAt(es, i, k), es[i].clock, ts[i + 1];
      var (s, news) := AfterMatch(c, t, rows, clock);
      && (forall pid :: IndexedAt(t, rows, s, pid))
      && id in news && news[id].stat == row.stat.value
      && (forall group :: LiveAs(next, id, group) <==> Descends(s, news, id, group))
      && (Ignored(next, id) <==>
            && (forall group :: !Descends(s, news, id, group))
            && !(c.recheck && (c.recheckTimeLimit == 0
                               || row.stat.value.startTime + c.recheckTimeLimit > clock.wall(id))))
  {
    var t, rows, clock := ts[i], es[i].listing.value, es[i].clock;
    ReachableBefore(c, es, ts, i);
    RunsAgree(c, es, ts, es, ts, i);
    NewRowIsNew(es, ts, i, k, id);
    Step1IsExact(c, t, rows, clock);
    IndexAfterMatch(c, t, rows, clock);
    UpdateReachesFinal(c, t, rows, clock, es[i].order);
    var (s, news) := AfterMatch(c, t, rows, clock);
    assert Attributes(c, InfoOf(t, rows, id)) == Shown(c, id, RowAt(es, i, k).stat.value);
    SettledByLineage(c, s, news, id, clock.wall);
  }

  lemma SettledByLineage(c: Config, s: TState, news: NewProcs, id: ID, wall: Wall)
    requires Step2Ready(s, news) && id in news
    ensures var r := Final(c, s, news, wall);
      && (forall group :: LiveAs(r, id, group) <==> Descends(s, news, id, group))
      && (Ignored(r, id) <==>
            && (forall group :: !Descends(s, news, id, group))
            && !(c.recheck && (c.recheckTimeLimit == 0
                               || news[id].stat.startTime + c.recheckTimeLimit > wall(id))))
  {
    forall group ensures Resolve(s, news, id) == Some(group) <==> Descends(s, news, id, group) {
      InheritsByLineage(s, news, id, group);
    }
    if Resolve(s, news, id).Some? {
      assert Descends(s, news, id, Resolve(s, news, id).value);
    }
  }
}
