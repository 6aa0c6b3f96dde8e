/** Theorems about whole runs of the grouper: its counters balance the book of episodes, and never decrease. */
module Conservation {
  import opened Wrappers
  import opened Counters
  import opened Process
  import opened Collections
  import opened TrackerSpec
  import opened TrackerUpdate
  import opened TrackerRuns
  import opened Reports
  import opened GrouperSpec
  import opened Accounting
  import opened Observations
  import opened Ledger

  // One Grouper.Update: us are the tracker's reports, in whatever order. A failed listing changes nothing.
  ghost predicate GroupStep(removeEmpty: bool, e: Event, next: TState, us: seq<Update>, st: GState, st': GState) {
    if e.listing.Some? then (exists ids :: ReportsAll(next, ids, us)) && st' == NextGState(removeEmpty, st, us)
    else st' == st
  }

  ghost predicate GroupRun(c: Config, removeEmpty: bool, es: seq<Event>, ts: seq<TState>, us: seq<seq<Update>>,
                           gs: seq<GState>)
  {
    && Run(c, es, ts)
    && |us| == |es| && |gs| == |ts| && gs[0] == EMPTY_GROUPS
    && forall i | 0 <= i < |es| :: GroupStep(removeEmpty, es[i], ts[i + 1], us[i], gs[i], gs[i + 1])
  }

  // A clock reading later than every Update so far.
  ghost predicate Fresh(es: seq<Event>, now: Time) {
    NO_TIME < now && forall i | 0 <= i < |es| :: es[i].clock.now < now
  }

  lemma {:induction false} RunExtends(c: Config, es: seq<Event>, ts: seq<TState>, e: Event, next: TState)
    requires Run(c, es, ts) && Fresh(es, e.clock.now) && Fits(c, ts[|es|], e) && next == Step(c, ts[|es|], e)
    ensures Run(c, es + [e], ts + [next])
  {
    var es', ts' := es + [e], ts + [next];
    forall i | 0 <= i < |es'| ensures Fits(c, ts'[i], es'[i]) && ts'[i + 1] == Step(c, ts'[i], es'[i]) {
      assert ts'[i] == ts[i] && es'[i] == if i < |es| then es[i] else e;
    }
  }

  lemma StepsExtend<E, T, U, G>(step: (E, T, U, G, G) -> bool, es: seq<E>, ts: seq<T>, us: seq<U>, gs: seq<G>,
                                e: E, t: T, u: U, g: G)
    requires |us| == |es| && |ts| == |gs| == |es| + 1
    requires forall i | 0 <= i < |es| :: step(es[i], ts[i + 1], us[i], gs[i], gs[i + 1])
    requires step(e, t, u, gs[|es|], g)
    ensures var es', ts', us', gs' := es + [e], ts + [t], us + [u], gs + [g];
      forall i | 0 <= i < |es'| :: step(es'[i], ts'[i + 1], us'[i], gs'[i], gs'[i + 1])
  {
  }

  // Whatever the next Update meets, the run goes on.
  lemma {:induction false} GroupRunExtends(c: Config, removeEmpty: bool, es: seq<Event>, ts: seq<TState>,
                                           us: seq<seq<Update>>, gs: seq<GState>, e: Event, next: TState,
                                           reports: seq<Update>, st: GState)
    requires GroupRun(c, removeEmpty, es, ts, us, gs)
    requires Fresh(es, e.clock.now) && Fits(c, ts[|es|], e) && next == Step(c, ts[|es|], e)
    requires GroupStep(removeEmpty, e, next, reports, gs[|es|], st)
    ensures GroupRun(c, removeEmpty, es + [e], ts + [next], us + [reports], gs + [st])
  {
    RunExtends(c, es, ts, e, next);
    var step := (e, t, u, g, g') => GroupStep(removeEmpty, e, t, u, g, g');
    StepsExtend(step, es, ts, us, gs, e, next, reports, st);
    var es', ts', us', gs' := es + [e], ts + [next], us + [reports], gs + [st];
    forall i | 0 <= i < |es'| ensures GroupStep(removeEmpty, es'[i], ts'[i + 1], us'[i], gs'[i], gs'[i + 1]) {
      assert step(es'[i], ts'[i + 1], us'[i], gs'[i], gs'[i + 1]);
    }
    assert gs'[0] == gs[0];
  }

  lemma SomeGroupStep(removeEmpty: bool, e: Event, next: TState, st: GState) returns (us: seq<Update>, st': GState)
    ensures GroupStep(removeEmpty, e, next, us, st, st')
  {
    var ids;
    ids, us := SomeReport(next);
    st' := if e.listing.Some? then NextGState(removeEmpty, st, us) else st;
  }

  lemma {:induction false} SuccessSteps(c: Config, es: seq<Event>, ts: seq<TState>, i: nat)
    requires Run(c, es, ts) && i < |es| && es[i].listing.Some?
    ensures StepsEverywhere(ts[i], ts[i + 1])
  {
    ReachableBefore(c, es, ts, i);
    UpdateIsExact(c, ts[i], es[i].listing.value, es[i].clock, es[i].order);
    var t, next := ts[i], ts[i + 1];
    forall id ensures StepsTo(t, next, id) {
      assert Outcome(c, t, es[i].listing.value, es[i].clock, next, id);
    }
  }

  lemma FailureKeepsBook(book: Book, t: TState, next: TState)
    requires Booked(book, t) && next.tracked == t.tracked
    ensures NextBook(book, t, next) == book && Booked(book, next)
  {
    assert LiveIds(next) == LiveIds(t);
    forall id | id in LiveIds(t) ensures id in book && NextEpisodes(book, t, next, id) == book[id] {
      assert OpenEpisode(book, t.tracked[id].value, id);
    }
    forall id | id in LiveIds(next) ensures OpenEpisode(book, next.tracked[id].value, id) {
      assert OpenEpisode(book, t.tracked[id].value, id);
    }
  }

  lemma {:induction false} BookAtNext(c: Config, es: seq<Event>, ts: seq<TState>, i: nat)
    requires Run(c, es, ts) && i < |es| && Booked(BookAt(es, ts, i), ts[i])
    ensures BookAt(es, ts, i + 1) == NextBook(BookAt(es, ts, i), ts[i], ts[i + 1])
  {
    if es[i].listing.Some? {
      SuccessKeepsBook(c, es, ts, i);
    } else {
      FailureKeepsBook(BookAt(es, ts, i), ts[i], ts[i + 1]);
    }
  }

  // After any run, each group's counters equal, modulo 2^64, the sum over every tracking episode ever
  // opened under its name of the counts last listed minus the counts it started from: those first listed, or
  // zero for a process that started after the first Update. And a group is remembered exactly when it ever
  // had an episode.
  lemma {:induction false} CountersBalance(c: Config, es: seq<Event>, ts: seq<TState>, us: seq<seq<Update>>,
                                           gs: seq<GState>, i: nat)
    requires GroupRun(c, false, es, ts, us, gs) && i < |ts|
    ensures Booked(BookAt(es, ts, i), ts[i])
    ensures Balanced(gs[i], BookAt(es, ts, i))
  {
    if i == 0 {
      assert BookAt(es, ts, 0) == map[];
      NothingBalances();
    } else {
      CountersBalance(c, es, ts, us, gs, i - 1);
      BalancesOnceMore(c, es, ts, us, gs, i - 1);
    }
  }

  lemma {:induction false} BalancesOnceMore(c: Config, es: seq<Event>, ts: seq<TState>, us: seq<seq<Update>>,
                                            gs: seq<GState>, i: nat)
    requires GroupRun(c, false, es, ts, us, gs) && i < |es|
    requires Booked(BookAt(es, ts, i), ts[i]) && Balanced(gs[i], BookAt(es, ts, i))
    ensures Booked(BookAt(es, ts, i + 1), ts[i + 1]) && Balanced(gs[i + 1], BookAt(es, ts, i + 1))
  {
    OneUpdateBalances(c, es, ts, us, gs, i, BookAt(es, ts, i));
    BookAtNext(c, es, ts, i);
  }

  lemma {:induction false} OneUpdateBalances(c: Config, es: seq<Event>, ts: seq<TState>, us: seq<seq<Update>>,
                                             gs: seq<GState>, i: nat, book: Book)
    requires GroupRun(c, false, es, ts, us, gs) && i < |es|
    requires Booked(book, ts[i]) && Balanced(gs[i], book)
    ensures Booked(NextBook(book, ts[i], ts[i + 1]), ts[i + 1])
    ensures Balanced(gs[i + 1], NextBook(book, ts[i], ts[i + 1]))
  {
    var e, t, next, st, st' := es[i], ts[i], ts[i + 1], gs[i], gs[i + 1];
    assert GroupStep(false, e, next, us[i], st, st');
    if e.listing.Some? {
      SuccessSteps(c, es, ts, i);
      SuccessBalances(book, t, next, us[i], st);
    } else {
      FailureKeepsBook(book, t, next);
    }
  }

  lemma NothingBalances()
    ensures Booked(map[], EMPTY) && Balanced(EMPTY_GROUPS, map[])
  {
    forall group ensures !HasEpisode(map[], group) {}
  }

  lemma SuccessBalances(book: Book, t: TState, next: TState, us: seq<Update>, st: GState)
    requires Booked(book, t) && Balanced(st, book) && StepsEverywhere(t, next)
    requires exists ids :: ReportsAll(next, ids, us)
    ensures Booked(NextBook(book, t, next), next)
    ensures Balanced(NextGState(false, st, us), NextBook(book, t, next))
  {
    var ids :| ReportsAll(next, ids, us);
    BookedStep(book, t, next);
    BalanceStep(book, t, next, st, ids, us);
  }

  // ---------------------------------------------------------------- the same with removeEmptyGroups

  ghost function Members(t: TState, group: string): set<ID> {
    set id | id in LiveIds(t) && t.tracked[id].value.groupName == group
  }

  // The last of the first i Updates after which the group had no process.
  ghost function LastAbsent(ts: seq<TState>, i: nat, group: string): (m: nat)
    requires i < |ts|
    ensures m <= i
  {
    if i == 0 || Members(ts[i], group) == {} then i else LastAbsent(ts, i - 1, group)
  }

  // What the group's processes gained since it last had none.
  ghost function SinceAbsent(es: seq<Event>, ts: seq<TState>, i: nat, group: string): Tally
    requires i <= |es| && i < |ts|
  {
    Total(BookAt(es, ts, i), group).Minus(Total(BookAt(es, ts, LastAbsent(ts, i, group)), group))
  }

  lemma {:induction false} BookIsKept(c: Config, es: seq<Event>, ts: seq<TState>, i: nat)
    requires Run(c, es, ts) && i < |ts|
    ensures Booked(BookAt(es, ts, i), ts[i])
  {
    if i == 0 {
      assert BookAt(es, ts, 0) == map[];
      NothingBalances();
    } else {
      BookIsKept(c, es, ts, i - 1);
      BookAtNext(c, es, ts, i - 1);
      BookIsKeptOnce(c, es, ts, i - 1, BookAt(es, ts, i - 1));
    }
  }

  lemma {:induction false} BookIsKeptOnce(c: Config, es: seq<Event>, ts: seq<TState>, i: nat, book: Book)
    requires Run(c, es, ts) && i < |es| && Booked(book, ts[i])
    ensures Booked(NextBook(book, ts[i], ts[i + 1]), ts[i + 1])
    ensures es[i].listing.Some? ==> StepsEverywhere(ts[i], ts[i + 1])
    ensures es[i].listing.None? ==> NextBook(book, ts[i], ts[i + 1]) == book && ts[i + 1].tracked == ts[i].tracked
  {
    var t, next := ts[i], ts[i + 1];
    if es[i].listing.Some? {
      SuccessSteps(c, es, ts, i);
      BookedStep(book, t, next);
    } else {
      FailureKeepsBook(book, t, next);
    }
  }

  // One cycle's increments are what the totals moved by.
  lemma CycleCounts(book: Book, t: TState, next: TState, us: seq<Update>, group: string)
    requires Booked(book, t) && StepsEverywhere(t, next)
    requires exists ids :: ReportsAll(next, ids, us)
    ensures group in G.AggregateAll(us) <==> Members(next, group) != {}
    ensures group in G.AggregateAll(us) ==>
              G.AggregateAll(us)[group].counts == Total(NextBook(book, t, next), group).Minus(Total(book, group)).Wrap()
  {
    var ids :| ReportsAll(next, ids, us);
    ReportedGroups(next, ids, us, group);
    assert Members(next, group) != {} <==> HasLive(next, group) by {
      if id :| id in LiveIds(next) && next.tracked[id].value.groupName == group { assert id in Members(next, group); }
    }
    if group in G.AggregateAll(us) {
      ReportsSum(next, ids, us, group);
      ReportedSumIsGrowth(book, t, next, group);
      TotalStep(book, t, next, group);
      PlusMinus(Total(book, group), Sum(LiveIds(next), id => Growth(book, t, next, group, id)));
    }
  }

  // An accumulator of a forgetful grouper, given what the total was when the group last had no process.
  ghost predicate HoldsSince(st: GState, t: TState, book: Book, start: Tally, group: string) {
    Lookup(st.groupAccum, group) ==
      if Members(t, group) == {} then None else Some(Total(book, group).Minus(start).Wrap())
  }

  lemma SinceStep(book: Book, t: TState, next: TState, us: seq<Update>, st: GState, start: Tally, group: string)
    requires Booked(book, t) && StepsEverywhere(t, next)
    requires exists ids :: ReportsAll(next, ids, us)
    requires HoldsSince(st, t, book, start, group)
    requires Members(t, group) == {} ==> start == Total(book, group)
    ensures HoldsSince(NextGState(true, st, us), next, NextBook(book, t, next), start, group)
  {
    LooksUp(true, st, us, group);
    CycleCounts(book, t, next, us, group);
    var before, after := Total(book, group), Total(NextBook(book, t, next), group);
    if group in G.AggregateAll(us) && Members(t, group) != {} {
      AddsUp(G.AggregateAll(us)[group].counts, after.Minus(before), before.Minus(start));
      Telescopes(start, before, after);
    }
  }

  lemma {:induction false} SinceOneUpdate(c: Config, es: seq<Event>, ts: seq<TState>, us: seq<seq<Update>>,
                                          gs: seq<GState>, i: nat, book: Book, start: Tally, group: string)
    requires GroupRun(c, true, es, ts, us, gs) && i < |es|
    requires Booked(book, ts[i]) && HoldsSince(gs[i], ts[i], book, start, group)
    requires Members(ts[i], group) == {} ==> start == Total(book, group)
    ensures HoldsSince(gs[i + 1], ts[i + 1], NextBook(book, ts[i], ts[i + 1]), start, group)
  {
    BookIsKeptOnce(c, es, ts, i, book);
    var t, next := ts[i], ts[i + 1];
    assert GroupStep(true, es[i], next, us[i], gs[i], gs[i + 1]);
    if es[i].listing.Some? {
      SinceStep(book, t, next, us[i], gs[i], start, group);
    } else {
      assert Members(next, group) == Members(t, group);
    }
  }

  // What the total was when the group last had no process.
  ghost function StartOf(es: seq<Event>, ts: seq<TState>, i: nat, group: string): Tally
    requires i <= |es| && i < |ts|
  {
    Total(BookAt(es, ts, LastAbsent(ts, i, group)), group)
  }

  // The start moves only while the group has no process, and then nothing is remembered.
  lemma {:induction false} StartMoves(st: GState, es: seq<Event>, ts: seq<TState>, i: nat, book: Book, group: string)
    requires i + 1 <= |es| && i + 1 < |ts| && HoldsSince(st, ts[i + 1], book, StartOf(es, ts, i, group), group)
    ensures HoldsSince(st, ts[i + 1], book, StartOf(es, ts, i + 1, group), group)
  {
  }

  lemma {:induction false} AbsentStartsHere(es: seq<Event>, ts: seq<TState>, i: nat, group: string)
    requires i <= |es| && i < |ts|
    ensures Members(ts[i], group) == {} ==> StartOf(es, ts, i, group) == Total(BookAt(es, ts, i), group)
  {
  }

  lemma NothingIsHeld(book: Book, start: Tally, group: string)
    ensures HoldsSince(EMPTY_GROUPS, EMPTY, book, start, group)
  {
    assert Members(EMPTY, group) == {};
  }

  lemma {:induction false} HoldsOneMore(c: Config, es: seq<Event>, ts: seq<TState>, us: seq<seq<Update>>,
                                        gs: seq<GState>, i: nat, group: string)
    requires GroupRun(c, true, es, ts, us, gs) && i < |es|
    requires HoldsSince(gs[i], ts[i], BookAt(es, ts, i), StartOf(es, ts, i, group), group)
    ensures HoldsSince(gs[i + 1], ts[i + 1], BookAt(es, ts, i + 1), StartOf(es, ts, i, group), group)
  {
    BookIsKept(c, es, ts, i);
    BookAtNext(c, es, ts, i);
    AbsentStartsHere(es, ts, i, group);
    SinceOneUpdate(c, es, ts, us, gs, i, BookAt(es, ts, i), StartOf(es, ts, i, group), group);
  }

  lemma {:induction false} HoldsSinceAbsent(c: Config, es: seq<Event>, ts: seq<TState>, us: seq<seq<Update>>,
                                            gs: seq<GState>, i: nat, group: string)
    requires GroupRun(c, true, es, ts, us, gs) && i < |ts|
    ensures HoldsSince(gs[i], ts[i], BookAt(es, ts, i), StartOf(es, ts, i, group), group)
  {
    if i == 0 {
      NothingIsHeld(BookAt(es, ts, 0), StartOf(es, ts, i, group), group);
    } else {
      HoldsSinceAbsent(c, es, ts, us, gs, i - 1, group);
      HoldsOneMore(c, es, ts, us, gs, i - 1, group);
      StartMoves(gs[i], es, ts, i - 1, BookAt(es, ts, i), group);
    }
  }

  // With removeEmptyGroups, a group is remembered exactly while it has a process, with what its processes
  // gained, modulo 2^64, since it last had none.
  lemma {:induction false} CountersSinceAbsent(c: Config, es: seq<Event>, ts: seq<TState>, us: seq<seq<Update>>,
                                               gs: seq<GState>, i: nat, group: string)
    requires GroupRun(c, true, es, ts, us, gs) && i < |ts|
    ensures Lookup(gs[i].groupAccum, group) ==
            if Members(ts[i], group) == {} then None else Some(SinceAbsent(es, ts, i, group).Wrap())
  {
    HoldsSinceAbsent(c, es, ts, us, gs, i, group);
  }

  // ---------------------------------------------------------------- what an Update returns

  // What Update returns for a group is what it remembers of it.
  lemma OutputIsRemembered(removeEmpty: bool, st: GState, us: seq<Update>, group: string)
    ensures var out, st' := Groups(removeEmpty, st, us), NextGState(removeEmpty, st, us);
      && (group in out <==> group in st'.groupAccum)
      && (group in out ==> out[group].counts == st'.groupAccum[group])
  {
    LooksUp(removeEmpty, st, us, group);
    assert group in Groups(removeEmpty, st, us) <==> Lookup(Groups(removeEmpty, st, us), group).Some?;
    assert group in NextGroupAccum(removeEmpty, st, us) <==> Lookup(NextGroupAccum(removeEmpty, st, us), group).Some?;
  }

  // The exact value of a group's counters after i Updates.
  ghost function Due(removeEmpty: bool, es: seq<Event>, ts: seq<TState>, i: nat, group: string): Tally
    requires i <= |es| && i < |ts|
  {
    if removeEmpty then SinceAbsent(es, ts, i, group) else Total(BookAt(es, ts, i), group)
  }

  // What Update i returned; nothing when its listing failed.
  ghost predicate AnswerAt(removeEmpty: bool, es: seq<Event>, us: seq<seq<Update>>, gs: seq<GState>,
                           outs: seq<map<string, G.Group>>, i: nat) {
    && i < |es| && i < |us| && i < |gs| && i < |outs|
    && outs[i] == if es[i].listing.Some? then Groups(removeEmpty, gs[i], us[i]) else map[]
  }

  // A run of the grouper, with what its Updates returned.
  ghost predicate AnsweredRun(c: Config, removeEmpty: bool, es: seq<Event>, ts: seq<TState>, us: seq<seq<Update>>,
                              gs: seq<GState>, outs: seq<map<string, G.Group>>) {
    && GroupRun(c, removeEmpty, es, ts, us, gs)
    && |outs| == |es| && forall i: nat | i < |es| :: AnswerAt(removeEmpty, es, us, gs, outs, i)
  }

  lemma {:induction false} AnswerIsRemembered(c: Config, removeEmpty: bool, es: seq<Event>, ts: seq<TState>,
                                              us: seq<seq<Update>>, gs: seq<GState>, outs: seq<map<string, G.Group>>,
                                              i: nat, group: string)
    requires AnsweredRun(c, removeEmpty, es, ts, us, gs, outs) && i < |es|
    ensures group in outs[i] ==> group in gs[i + 1].groupAccum && outs[i][group].counts == gs[i + 1].groupAccum[group]
    ensures es[i].listing.Some? && group in gs[i + 1].groupAccum ==> group in outs[i]
  {
    assert AnswerAt(removeEmpty, es, us, gs, outs, i);
    assert GroupStep(removeEmpty, es[i], ts[i + 1], us[i], gs[i], gs[i + 1]);
    OutputIsRemembered(removeEmpty, gs[i], us[i], group);
  }

  lemma {:induction false} RememberedIsTotal(c: Config, es: seq<Event>, ts: seq<TState>, us: seq<seq<Update>>,
                                             gs: seq<GState>, i: nat, group: string)
    requires GroupRun(c, false, es, ts, us, gs) && i < |ts| && group in gs[i].groupAccum
    ensures gs[i].groupAccum[group] == Total(BookAt(es, ts, i), group).Wrap()
  {
    CountersBalance(c, es, ts, us, gs, i);
    assert Lookup(gs[i].groupAccum, group) ==
      if HasEpisode(BookAt(es, ts, i), group) then Some(Total(BookAt(es, ts, i), group).Wrap()) else None;
  }

  // The counters an Update returns are the exact ones seen modulo 2^64, whether empty groups are kept or not.
  lemma {:induction false} AnswerIsDue(c: Config, removeEmpty: bool, es: seq<Event>, ts: seq<TState>,
                                       us: seq<seq<Update>>, gs: seq<GState>, outs: seq<map<string, G.Group>>, i: nat,
                                       group: string)
    requires AnsweredRun(c, removeEmpty, es, ts, us, gs, outs) && i < |es| && group in outs[i]
    ensures outs[i][group].counts == Due(removeEmpty, es, ts, i + 1, group).Wrap()
    ensures removeEmpty ==> Members(ts[i + 1], group) != {}
  {
    AnswerIsRemembered(c, removeEmpty, es, ts, us, gs, outs, i, group);
    if removeEmpty {
      CountersSinceAbsent(c, es, ts, us, gs, i + 1, group);
    } else {
      RememberedIsTotal(c, es, ts, us, gs, i + 1, group);
    }
  }

  // Between any two Updates that return the group, a counter goes down exactly when its exact value did, as
  // long as 64 bits can hold it.
  lemma {:induction false} CounterOrderIff(c: Config, removeEmpty: bool, es: seq<Event>, ts: seq<TState>,
                                           us: seq<seq<Update>>, gs: seq<GState>, outs: seq<map<string, G.Group>>,
                                           i: nat, j: nat, group: string, k: Counter)
    requires AnsweredRun(c, removeEmpty, es, ts, us, gs, outs)
    requires i < |es| && j < |es| && group in outs[i] && group in outs[j]
    requires Due(removeEmpty, es, ts, i + 1, group).FitsAt(k) && Due(removeEmpty, es, ts, j + 1, group).FitsAt(k)
    ensures outs[i][group].counts.Of(k) <= outs[j][group].counts.Of(k) <==>
            Due(removeEmpty, es, ts, i + 1, group).Of(k) <= Due(removeEmpty, es, ts, j + 1, group).Of(k)
  {
    AnswerIsDue(c, removeEmpty, es, ts, us, gs, outs, i, group);
    AnswerIsDue(c, removeEmpty, es, ts, us, gs, outs, j, group);
    FitsAtIsExact(Due(removeEmpty, es, ts, i + 1, group), k);
    FitsAtIsExact(Due(removeEmpty, es, ts, j + 1, group), k);
  }

  // ---------------------------------------------------------------- when a counter goes down

  // What Update i listed of a process beyond what was listed of it before: the change of its counts, or for a
  // process new to the tracker what its episode starts with.
  ghost function Gain(es: seq<Event>, ts: seq<TState>, i: nat, id: ID): Tally {
    if i >= |es| || i >= |ts| then ZERO else
    var before := if id in LiveIds(ts[i]) then LastListed(es, i, id) else Baseline(es, i, id);
    CountsIn(es[i], id).Exact().Minus(before.Exact())
  }

  ghost function GroupGain(es: seq<Event>, ts: seq<TState>, i: nat, group: string): Tally
    requires i + 1 < |ts|
  {
    Sum(Members(ts[i + 1], group), id => Gain(es, ts, i, id))
  }

  lemma {:induction false} GrowthIsGain(c: Config, es: seq<Event>, ts: seq<TState>, i: nat, book: Book, group: string,
                                        id: ID)
    requires Run(c, es, ts) && i < |es| && es[i].listing.Some?
    requires Booked(book, ts[i]) && id in LiveIds(ts[i + 1])
    ensures Growth(book, ts[i], ts[i + 1], group, id) ==
            if id in Members(ts[i + 1], group) then Gain(es, ts, i, id) else ZERO
  {
    var t, next := ts[i], ts[i + 1];
    LiveCounts(c, es, ts, i, id);
    SuccessSteps(c, es, ts, i);
    assert StepsTo(t, next, id);
    if id in LiveIds(t) {
      LiveIsLastListed(c, es, ts, i, id);
      assert OpenEpisode(book, t.tracked[id].value, id);
      GrowthOfContinued(book, t, next, group, id);
    } else {
      FirstUpdateIsRemembered(c, es, ts, i + 1);
      GrowthOfOpened(book, t, next, group, id);
    }
  }

  lemma {:induction false} GrowthsAreGains(c: Config, es: seq<Event>, ts: seq<TState>, i: nat, book: Book,
                                           group: string)
    requires Run(c, es, ts) && i < |es| && es[i].listing.Some? && Booked(book, ts[i])
    ensures Sum(LiveIds(ts[i + 1]), id => Growth(book, ts[i], ts[i + 1], group, id)) == GroupGain(es, ts, i, group)
  {
    var growth := id => Growth(book, ts[i], ts[i + 1], group, id);
    forall id | id in LiveIds(ts[i + 1])
      ensures growth(id) == if id in Members(ts[i + 1], group) then Gain(es, ts, i, id) else ZERO
    {
      GrowthIsGain(c, es, ts, i, book, group, id);
    }
    SumIgnoresZeros(Members(ts[i + 1], group), LiveIds(ts[i + 1]), id => Gain(es, ts, i, id), growth);
  }

  // A group's total moves by what is listed of its processes.
  lemma {:induction false} TotalMoves(c: Config, es: seq<Event>, ts: seq<TState>, i: nat, group: string)
    requires Run(c, es, ts) && i < |es|
    ensures Total(BookAt(es, ts, i + 1), group) == if es[i].listing.Some?
              then Total(BookAt(es, ts, i), group).Plus(GroupGain(es, ts, i, group))
              else Total(BookAt(es, ts, i), group)
  {
    if es[i].listing.Some? {
      BookIsKept(c, es, ts, i);
      SuccessKeepsBook(c, es, ts, i);
      TotalStep(BookAt(es, ts, i), ts[i], ts[i + 1], group);
      GrowthsAreGains(c, es, ts, i, BookAt(es, ts, i), group);
    }
  }

  lemma {:induction false} DueMovesByGain(c: Config, removeEmpty: bool, es: seq<Event>, ts: seq<TState>, i: nat,
                                          group: string)
    requires Run(c, es, ts) && i < |es| && es[i].listing.Some?
    requires removeEmpty ==> Members(ts[i], group) != {} && Members(ts[i + 1], group) != {}
    ensures Due(removeEmpty, es, ts, i + 1, group)
            == Due(removeEmpty, es, ts, i, group).Plus(GroupGain(es, ts, i, group))
  {
    TotalMoves(c, es, ts, i, group);
    var start := if removeEmpty then Total(BookAt(es, ts, LastAbsent(ts, i, group)), group) else ZERO;
    PlusThenMinus(Total(BookAt(es, ts, i), group), GroupGain(es, ts, i, group), start);
  }

  // From one successful Update to the next, a counter that a group is returned with goes down exactly when
  // its processes were together observed with less than before; whether empty groups are kept or not.
  lemma {:induction false} CounterFallsIff(c: Config, removeEmpty: bool, es: seq<Event>, ts: seq<TState>,
                                           us: seq<seq<Update>>, gs: seq<GState>, outs: seq<map<string, G.Group>>,
                                           i: nat, group: string, k: Counter)
    requires AnsweredRun(c, removeEmpty, es, ts, us, gs, outs)
    requires i + 1 < |es| && es[i + 1].listing.Some? && group in outs[i] && group in outs[i + 1]
    requires Due(removeEmpty, es, ts, i + 1, group).FitsAt(k) && Due(removeEmpty, es, ts, i + 2, group).FitsAt(k)
    ensures outs[i + 1][group].counts.Of(k) < outs[i][group].counts.Of(k) <==>
            GroupGain(es, ts, i + 1, group).Of(k) < 0
  {
    CounterOrderIff(c, removeEmpty, es, ts, us, gs, outs, i, i + 1, group, k);
    if removeEmpty {
      AnswerIsDue(c, true, es, ts, us, gs, outs, i, group);
      AnswerIsDue(c, true, es, ts, us, gs, outs, i + 1, group);
    }
    DueMovesByGain(c, removeEmpty, es, ts, i + 1, group);
    SumsAt(Due(removeEmpty, es, ts, i + 1, group), GroupGain(es, ts, i + 1, group), k);
  }

  // ---------------------------------------------------------------- counters never decrease

  // The counts Update i is measured against.
  function ReadingOf(es: seq<Event>, ts: seq<TState>, i: nat, id: ID): Counts
    requires i <= |es| && i < |ts|
  {
    if id in LiveIds(ts[i]) then LastListed(es, i, id) else NO_COUNTS
  }

  // Update i lists no process of the group with less of counter k than it was listed with before, while it
  // stays tracked.
  ghost predicate GrowsAt(es: seq<Event>, ts: seq<TState>, i: nat, group: string, k: Counter) {
    i < |es| && i + 1 < |ts| && es[i].listing.Some? ==>
      forall id | id in Members(ts[i + 1], group) :: ReadingOf(es, ts, i, id).Of(k) <= CountsIn(es[i], id).Of(k)
  }

  // Nor do any of the first n Updates.
  ghost predicate ReadingsGrow(es: seq<Event>, ts: seq<TState>, n: nat, group: string, k: Counter) {
    forall i: nat | i < n :: GrowsAt(es, ts, i, group, k)
  }

  lemma {:induction false} TotalGrows(c: Config, es: seq<Event>, ts: seq<TState>, i: nat, group: string, k: Counter)
    requires Run(c, es, ts) && i < |es| && GrowsAt(es, ts, i, group, k)
    ensures Total(BookAt(es, ts, i), group).Of(k) <= Total(BookAt(es, ts, i + 1), group).Of(k)
  {
    TotalMoves(c, es, ts, i, group);
    if es[i].listing.Some? {
      GroupGainIsPositive(es, ts, i, group, k);
      SumsAt(Total(BookAt(es, ts, i), group), GroupGain(es, ts, i, group), k);
    }
  }

  lemma {:induction false} GroupGainIsPositive(es: seq<Event>, ts: seq<TState>, i: nat, group: string, k: Counter)
    requires i < |es| && i + 1 < |ts|
    requires forall id | id in Members(ts[i + 1], group) ::
               ReadingOf(es, ts, i, id).Of(k) <= CountsIn(es[i], id).Of(k)
    ensures 0 <= GroupGain(es, ts, i, group).Of(k)
  {
    var gain := id => Gain(es, ts, i, id);
    forall id | id in Members(ts[i + 1], group) ensures 0 <= gain(id).Of(k) {
      GainIsPositive(es, ts, i, id, k);
    }
    SumIsPositive(Members(ts[i + 1], group), gain, k);
  }

  lemma {:induction false} GainIsPositive(es: seq<Event>, ts: seq<TState>, i: nat, id: ID, k: Counter)
    requires i < |es| && i + 1 < |ts| && ReadingOf(es, ts, i, id).Of(k) <= CountsIn(es[i], id).Of(k)
    ensures 0 <= Gain(es, ts, i, id).Of(k)
  {
  }

  lemma {:induction false} TotalGrowsOver(c: Config, es: seq<Event>, ts: seq<TState>, i: nat, n: nat, group: string,
                                          k: Counter)
    requires Run(c, es, ts) && i <= n < |ts| && ReadingsGrow(es, ts, n, group, k)
    ensures 0 <= Total(BookAt(es, ts, i), group).Of(k) <= Total(BookAt(es, ts, n), group).Of(k)
    decreases n
  {
    if n == 0 {
      assert BookAt(es, ts, 0) == map[];
      NoEpisodeNoTotal(map[], group);
    } else {
      assert ReadingsGrow(es, ts, n - 1, group, k);
      TotalGrowsOver(c, es, ts, if i < n then i else n - 1, n - 1, group, k);
      TotalGrows(c, es, ts, n - 1, group, k);
    }
  }

  // In the first n Updates, i and j among them, the exact totals grow and stay below 2^64.
  lemma {:induction false} TotalsInOrder(c: Config, es: seq<Event>, ts: seq<TState>, i: nat, j: nat, n: nat,
                                         group: string, k: Counter)
    requires Run(c, es, ts) && i <= j <= n < |ts| && ReadingsGrow(es, ts, n, group, k)
             && Total(BookAt(es, ts, n), group).FitsAt(k)
    ensures InOrder(Total(BookAt(es, ts, i), group), Total(BookAt(es, ts, j), group), k)
  {
    TotalGrowsOver(c, es, ts, j, n, group, k);
    assert ReadingsGrow(es, ts, j, group, k);
    TotalGrowsOver(c, es, ts, i, j, group, k);
    FitsBelow(Total(BookAt(es, ts, j), group), Total(BookAt(es, ts, n), group), k);
  }

  lemma {:induction false} RememberedInOrder(c: Config, es: seq<Event>, ts: seq<TState>, us: seq<seq<Update>>,
                                             gs: seq<GState>, i: nat, j: nat, n: nat, group: string, k: Counter)
    requires GroupRun(c, false, es, ts, us, gs) && i <= j <= n < |ts|
    requires group in gs[i].groupAccum && group in gs[j].groupAccum
    requires ReadingsGrow(es, ts, n, group, k) && Total(BookAt(es, ts, n), group).FitsAt(k)
    ensures gs[i].groupAccum[group].Of(k) <= gs[j].groupAccum[group].Of(k) == Total(BookAt(es, ts, j), group).Of(k)
  {
    TotalsInOrder(c, es, ts, i, j, n, group, k);
    RememberedIsTotal(c, es, ts, us, gs, i, group);
    RememberedIsTotal(c, es, ts, us, gs, j, group);
    WrapsInOrder(Total(BookAt(es, ts, i), group), Total(BookAt(es, ts, j), group), k);
  }

  // With empty groups kept, a group returned by one Update is returned by every later successful one, also
  // after its last process is gone. A counter of it never goes down, and is the exact total, provided no
  // process of the group was observed with less of that counter than before and the total is one 64 bits
  // hold. (The premises may be about any n Updates that include i and j.)
  lemma {:induction false} CountersNeverDecrease(c: Config, es: seq<Event>, ts: seq<TState>, us: seq<seq<Update>>,
                                                 gs: seq<GState>, outs: seq<map<string, G.Group>>, i: nat, j: nat,
                                                 n: nat, group: string)
    requires AnsweredRun(c, false, es, ts, us, gs, outs)
    requires i <= j < n <= |es| && es[j].listing.Some? && group in outs[i]
    ensures group in outs[j]
    ensures forall k | ReadingsGrow(es, ts, n, group, k) && Total(BookAt(es, ts, n), group).FitsAt(k) ::
              outs[i][group].counts.Of(k) <= outs[j][group].counts.Of(k) == Total(BookAt(es, ts, j + 1), group).Of(k)
  {
    AnswerIsRemembered(c, false, es, ts, us, gs, outs, i, group);
    RememberedStays(c, es, ts, us, gs, i + 1, j + 1, group);
    AnswerIsRemembered(c, false, es, ts, us, gs, outs, j, group);
    forall k | ReadingsGrow(es, ts, n, group, k) && Total(BookAt(es, ts, n), group).FitsAt(k)
      ensures outs[i][group].counts.Of(k) <= outs[j][group].counts.Of(k) == Total(BookAt(es, ts, j + 1), group).Of(k)
    {
      RememberedInOrder(c, es, ts, us, gs, i + 1, j + 1, n, group, k);
    }
  }

  // All eight counters at once: below 2^64 the returned counts are ordered exactly as the exact totals are.
  lemma {:induction false} CountsOrderIff(c: Config, es: seq<Event>, ts: seq<TState>, us: seq<seq<Update>>,
                                          gs: seq<GState>, outs: seq<map<string, G.Group>>, i: nat, j: nat,
                                          group: string)
    requires AnsweredRun(c, false, es, ts, us, gs, outs)
    requires i < |es| && j < |es| && group in outs[i] && group in outs[j]
    requires Total(BookAt(es, ts, i + 1), group).Fits() && Total(BookAt(es, ts, j + 1), group).Fits()
    ensures outs[i][group].counts.AtMost(outs[j][group].counts) <==>
            Total(BookAt(es, ts, i + 1), group).AtMost(Total(BookAt(es, ts, j + 1), group))
  {
    AnswerIsDue(c, false, es, ts, us, gs, outs, i, group);
    AnswerIsDue(c, false, es, ts, us, gs, outs, j, group);
    FitsIsExact(Total(BookAt(es, ts, i + 1), group));
    FitsIsExact(Total(BookAt(es, ts, j + 1), group));
  }

  lemma {:induction false} RememberedStays(c: Config, es: seq<Event>, ts: seq<TState>, us: seq<seq<Update>>,
                                           gs: seq<GState>, i: nat, j: nat, group: string)
    requires GroupRun(c, false, es, ts, us, gs) && i <= j < |ts| && group in gs[i].groupAccum
    ensures group in gs[j].groupAccum
  {
    if i < j {
      RememberedStays(c, es, ts, us, gs, i, j - 1, group);
      assert GroupStep(false, es[j - 1], ts[j], us[j - 1], gs[j - 1], gs[j]);
      if es[j - 1].listing.Some? {
        LooksUp(false, gs[j - 1], us[j - 1], group);
      }
    }
  }

  // A process's context switches can go backwards: handleProc sums them over the live threads, so a
  // thread that exits takes its own switches out of the sum.
  lemma ThreadExitLowersSwitches(m: Metrics, a: Thread, b: Thread, c: Thread)
    requires a.counts.ctxVoluntary == 5 && b.counts.ctxVoluntary == 7 && c.counts.ctxVoluntary == 0
    ensures Observe(m, [a, b, c]).counts.ctxVoluntary == 12
    ensures Observe(m, [a, c]).counts.ctxVoluntary == 5
    ensures !Observe(m, [a, b, c]).counts.AtMost(Observe(m, [a, c]).counts)
  {
    assert [a, b, c][..2] == [a, b] && [a, b][..1] == [a] && [a][..0] == [];
    assert [a, c][..1] == [a];
    var z := m.(counts := m.counts.(ctxNonvoluntary := 0, ctxVoluntary := 0));
    assert AddThreads(z, []) == z;
    assert AddThreads(z, [a]).counts.ctxVoluntary == 5;
    assert AddThreads(z, [a, b]).counts.ctxVoluntary == 12;
  }
}
