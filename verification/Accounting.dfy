/** Conservation over whole runs: what the accumulated counters of a group are, in terms of the
    tracking episodes that ever ran under its name.

    An episode of a process begins when the tracker starts tracking it and ends when the tracker drops
    it; the same process may have several (a failed read of its metrics ends one). `Book` lists them
    all, with the counts each episode started from and the counts last observed. It is built from the
    observed states alone, without the deltas the code works with. */
module Accounting {
  import opened Wrappers
  import opened Counters
  import opened Process
  import opened Collections
  import opened TrackerSpec
  import opened Reports
  import G = GroupSpec
  import opened GrouperSpec

  datatype Episode = Episode(group: string, baseline: Counts, last: Counts)
  {
    function Grown(): Tally {
      last.Exact().Minus(baseline.Exact())
    }
  }

  type Book = map<ID, seq<Episode>>

  function EpisodesOf(book: Book, id: ID): seq<Episode> {
    if id in book then book[id] else []
  }

  // An episode starts from the first observed counts, or from zero for a process that started after
  // the tracker did.
  function Opened(firstUpdateAt: Time, p: ProcState): Episode {
    Episode(p.groupName, if p.stat.startTime > firstUpdateAt then NO_COUNTS else p.metrics.counts, p.metrics.counts)
  }

  function Continued(eps: seq<Episode>, counts: Counts): seq<Episode> {
    if eps == [] then [] else eps[..|eps| - 1] + [eps[|eps| - 1].(last := counts)]
  }

  function NextEpisodes(book: Book, t: TState, next: TState, id: ID): seq<Episode> {
    if id !in LiveIds(next) then EpisodesOf(book, id)
    else if id in LiveIds(t) then Continued(EpisodesOf(book, id), next.tracked[id].value.metrics.counts)
    else EpisodesOf(book, id) + [Opened(next.firstUpdateAt, next.tracked[id].value)]
  }

  function NextBook(book: Book, t: TState, next: TState): Book {
    map id | id in book.Keys + LiveIds(next) :: NextEpisodes(book, t, next, id)
  }

  function GainFor(group: string): Episode -> Tally {
    (e: Episode) => if e.group == group then e.Grown() else ZERO
  }

  // What a list of episodes adds to a group.
  function Gained(eps: seq<Episode>, group: string): Tally {
    SumSeq(eps, GainFor(group))
  }

  // The exact sum over all episodes ever opened under the name.
  ghost function Total(book: Book, group: string): Tally {
    Sum(book.Keys, id => Gained(EpisodesOf(book, id), group))
  }

  ghost predicate HasEpisode(book: Book, group: string) {
    exists id, i :: id in book && 0 <= i < |book[id]| && book[id][i].group == group
  }

  // The last episode of a live process is the open one.
  ghost predicate Booked(book: Book, t: TState) {
    forall id | id in LiveIds(t) :: OpenEpisode(book, t.tracked[id].value, id)
  }

  ghost predicate OpenEpisode(book: Book, p: ProcState, id: ID) {
    && id in book && book[id] != []
    && book[id][|book[id]| - 1].group == p.groupName
    && book[id][|book[id]| - 1].last == p.metrics.counts
  }

  // ---------------------------------------------------------------- one step, one process

  // What the step adds to the group through this process, exactly.
  function Growth(book: Book, t: TState, next: TState, group: string, id: ID): Tally {
    Gained(NextEpisodes(book, t, next, id), group).Minus(Gained(EpisodesOf(book, id), group))
  }

  // What the tracker reports it added.
  function ReportedBy(next: TState, group: string, id: ID): Tally {
    if id in LiveIds(next) && next.tracked[id].value.groupName == group
    then next.tracked[id].value.lastAccum.Exact() else ZERO
  }

  // A step of the tracker, process by process.
  ghost predicate StepsTo(t: TState, next: TState, id: ID) {
    id in LiveIds(next) ==>
      var p := next.tracked[id].value;
      if id in LiveIds(t) then
        && p.groupName == t.tracked[id].value.groupName
        && p.lastAccum == p.metrics.counts.Sub(t.tracked[id].value.metrics.counts)
      else
        p.lastAccum == (if p.stat.startTime > next.firstUpdateAt then p.metrics.counts else NO_COUNTS)
  }

  ghost predicate StepsEverywhere(t: TState, next: TState) {
    forall id :: StepsTo(t, next, id)
  }

  lemma GainedGrows(eps: seq<Episode>, e: Episode, counts: Counts, group: string)
    ensures Gained(eps + [e], group) == Gained(eps, group).Plus(GainFor(group)(e))
    ensures Continued(eps + [e], counts) == eps + [e.(last := counts)]
  {
    SumSeqAppends(eps, e, GainFor(group));
  }

  lemma GrowthOfContinued(book: Book, t: TState, next: TState, group: string, id: ID)
    requires id in LiveIds(t) && id in LiveIds(next) && OpenEpisode(book, t.tracked[id].value, id)
    ensures Growth(book, t, next, group, id) ==
            if t.tracked[id].value.groupName == group
            then next.tracked[id].value.metrics.counts.Exact().Minus(t.tracked[id].value.metrics.counts.Exact())
            else ZERO
  {
    var eps := book[id];
    var front, e, counts := eps[..|eps| - 1], eps[|eps| - 1], next.tracked[id].value.metrics.counts;
    assert eps == front + [e];
    GainedGrows(front, e, counts, group);
    GainedGrows(front, e.(last := counts), counts, group);
  }

  lemma GrowthOfOpened(book: Book, t: TState, next: TState, group: string, id: ID)
    requires id !in LiveIds(t) && id in LiveIds(next)
    ensures Growth(book, t, next, group, id) ==
            var e := Opened(next.firstUpdateAt, next.tracked[id].value);
            if e.group == group then e.Grown() else ZERO
  {
    var e := Opened(next.firstUpdateAt, next.tracked[id].value);
    GainedGrows(EpisodesOf(book, id), e, e.last, group);
    PlusMinus(Gained(EpisodesOf(book, id), group), if e.group == group then e.Grown() else ZERO);
  }

  lemma ContinuedReport(newer: Counts, older: Counts, reported: Delta)
    requires reported == newer.Sub(older)
    ensures reported.Exact().Wrap() == newer.Exact().Minus(older.Exact()).Wrap()
  {
    SubIsExactModulo(newer, older);
    WrapKeepsCounts(reported);
  }

  lemma ReportIsGrowthModulo(book: Book, t: TState, next: TState, group: string, id: ID)
    requires Booked(book, t) && StepsTo(t, next, id)
    ensures ReportedBy(next, group, id).Wrap() == Growth(book, t, next, group, id).Wrap()
  {
    if id !in LiveIds(next) {
      MinusSelf(Gained(EpisodesOf(book, id), group));
    } else if id in LiveIds(t) {
      assert OpenEpisode(book, t.tracked[id].value, id);
      GrowthOfContinued(book, t, next, group, id);
      ContinuedReport(next.tracked[id].value.metrics.counts, t.tracked[id].value.metrics.counts,
        next.tracked[id].value.lastAccum);
    } else {
      GrowthOfOpened(book, t, next, group, id);
      MinusSelf(next.tracked[id].value.metrics.counts.Exact());
      assert NO_COUNTS.Exact() == ZERO;
    }
  }

  // ---------------------------------------------------------------- one step, all processes

  lemma TotalStep(book: Book, t: TState, next: TState, group: string)
    ensures Total(NextBook(book, t, next), group)
         == Total(book, group).Plus(Sum(LiveIds(next), id => Growth(book, t, next, group, id)))
  {
    var later: Book := NextBook(book, t, next);
    var f := id => Gained(EpisodesOf(book, id), group);
    var growth := id => Growth(book, t, next, group, id);
    var h := id => Gained(EpisodesOf(later, id), group);
    forall id | id in later.Keys ensures h(id) == f(id).Plus(growth(id)) {
      PlusTheRest(f(id), h(id));
    }
    SumAdds(later.Keys, f, growth, h);
    SumIgnoresZeros(book.Keys, later.Keys, f, f);
    forall id | id !in LiveIds(next) ensures growth(id) == ZERO {
      MinusSelf(f(id));
    }
    SumIgnoresZeros(LiveIds(next), later.Keys, growth, growth);
  }

  lemma ReportIsOne(next: TState, id: ID, u: Update, group: string)
    requires id in LiveIds(next) && IsUpdate(next.tracked[id].value, u)
    ensures (if G.NameOf(u) == group then G.Increment(u) else ZERO) == ReportedBy(next, group, id)
  {
  }

  // A group has reports exactly when some live process bears its name.
  lemma ReportedGroups(next: TState, ids: seq<ID>, us: seq<Update>, group: string)
    requires ReportsAll(next, ids, us)
    ensures group in G.AggregateAll(us) <==> HasLive(next, group)
  {
    var mine := Having(G.NameOf, us, group);
    FoldByKeyIsFold(G.GroupAdd, G.NO_GROUP, G.NameOf, us, group);
    if mine != [] {
      HavingKeepsMembers(G.NameOf, us, group, mine[0]);
      var i :| 0 <= i < |us| && us[i] == mine[0];
      assert ids[i] in LiveIds(next);
    }
    if id :| id in LiveIds(next) && next.tracked[id].value.groupName == group {
      assert id in ids;
      var i :| 0 <= i < |ids| && ids[i] == id;
      HavingKeepsMembers(G.NameOf, us, group, us[i]);
    }
  }

  // The group's counts in this cycle are what the tracker reports, process by process.
  lemma ReportsSum(next: TState, ids: seq<ID>, us: seq<Update>, group: string)
    requires ReportsAll(next, ids, us)
    requires group in G.AggregateAll(us)
    ensures G.AggregateAll(us)[group].counts == Sum(LiveIds(next), id => ReportedBy(next, group, id)).Wrap()
  {
    var mine := Having(G.NameOf, us, group);
    FoldByKeyIsFold(G.GroupAdd, G.NO_GROUP, G.NameOf, us, group);
    G.AggregateCounts(mine);
    SumOfHaving(G.NameOf, us, group, G.Increment);
    ReportsAgree(next, ids, us, group);
  }

  lemma ReportsAgree(next: TState, ids: seq<ID>, us: seq<Update>, group: string)
    requires ReportsAll(next, ids, us)
    ensures SumSeq(us, Only(G.NameOf, group, G.Increment))
         == Sum(LiveIds(next), id => ReportedBy(next, group, id))
  {
    var f := Only(G.NameOf, group, G.Increment);
    var g := id => ReportedBy(next, group, id);
    forall i | 0 <= i < |us| ensures f(us[i]) == g(ids[i]) {
      ReportIsOne(next, ids[i], us[i], group);
    }
    SumSeqAgrees(us, f, ids, g);
    SumOfOrdering(ids, LiveIds(next), g);
  }

  // ---------------------------------------------------------------- the balance

  ghost predicate Balanced(st: GState, book: Book) {
    forall group :: Lookup(st.groupAccum, group) ==
      if HasEpisode(book, group) then Some(Total(book, group).Wrap()) else None
  }

  ghost predicate HasLive(t: TState, group: string) {
    exists id :: id in LiveIds(t) && t.tracked[id].value.groupName == group
  }

  lemma LiveHasEpisode(book: Book, t: TState, group: string)
    requires Booked(book, t) && HasLive(t, group)
    ensures HasEpisode(book, group)
  {
    var id :| id in LiveIds(t) && t.tracked[id].value.groupName == group;
    assert OpenEpisode(book, t.tracked[id].value, id);
    assert book[id][|book[id]| - 1].group == group;
  }

  // A step ends no episode, and begins one only for a live process.
  lemma EpisodesOfStep(book: Book, t: TState, next: TState, id: ID, i: nat)
    requires i < |NextEpisodes(book, t, next, id)|
    ensures i < |EpisodesOf(book, id)| ==> NextEpisodes(book, t, next, id)[i].group == EpisodesOf(book, id)[i].group
    ensures i >= |EpisodesOf(book, id)| ==>
              id in LiveIds(next) && NextEpisodes(book, t, next, id)[i].group == next.tracked[id].value.groupName
  {
  }

  lemma EpisodesAreKept(book: Book, t: TState, next: TState, group: string)
    requires HasEpisode(book, group)
    ensures HasEpisode(NextBook(book, t, next), group)
  {
    var id, i :| id in book && 0 <= i < |book[id]| && book[id][i].group == group;
    assert id in NextBook(book, t, next) && NextBook(book, t, next)[id][i].group == group;
  }

  lemma EpisodesStay(book: Book, t: TState, next: TState, group: string)
    requires Booked(book, t) && StepsEverywhere(t, next)
    ensures HasEpisode(NextBook(book, t, next), group) <==> HasEpisode(book, group) || HasLive(next, group)
  {
    var later: Book := NextBook(book, t, next);
    if HasEpisode(book, group) {
      EpisodesAreKept(book, t, next, group);
    }
    if HasLive(next, group) {
      BookedStep(book, t, next);
      LiveHasEpisode(later, next, group);
    }
    if id, i :| id in later && 0 <= i < |later[id]| && later[id][i].group == group {
      EpisodesOfStep(book, t, next, id, i);
      if i < |EpisodesOf(book, id)| {
        assert book[id][i].group == group;
      }
    }
  }

  lemma BookedStep(book: Book, t: TState, next: TState)
    requires Booked(book, t) && StepsEverywhere(t, next)
    ensures Booked(NextBook(book, t, next), next)
  {
    forall id | id in LiveIds(next) ensures OpenEpisode(NextBook(book, t, next), next.tracked[id].value, id) {
      assert StepsTo(t, next, id);
      assert id in LiveIds(t) ==> OpenEpisode(book, t.tracked[id].value, id);
    }
  }

  // With no episode under the name there is nothing to add up.
  lemma NoEpisodeNoTotal(book: Book, group: string)
    requires !HasEpisode(book, group)
    ensures Total(book, group) == ZERO
  {
    forall id | id in book.Keys ensures Gained(EpisodesOf(book, id), group) == ZERO {
      forall i | 0 <= i < |book[id]| ensures GainFor(group)(book[id][i]) == ZERO {
        assert book[id][i].group != group;
      }
      SumSeqOfZeros(book[id], GainFor(group));
    }
    SumOfZeros(book.Keys, id => Gained(EpisodesOf(book, id), group));
  }

  lemma AbsentGrowth(book: Book, t: TState, next: TState, group: string, id: ID)
    requires Booked(book, t) && StepsTo(t, next, id)
    requires id in LiveIds(next) && next.tracked[id].value.groupName != group
    ensures Growth(book, t, next, group, id) == ZERO
  {
    if id in LiveIds(t) {
      assert OpenEpisode(book, t.tracked[id].value, id);
      GrowthOfContinued(book, t, next, group, id);
    } else {
      GrowthOfOpened(book, t, next, group, id);
    }
  }

  // A group nobody is live in gains nothing.
  lemma AbsentGroupKeepsTotal(book: Book, t: TState, next: TState, group: string)
    requires Booked(book, t) && StepsEverywhere(t, next)
    requires forall id | id in LiveIds(next) :: next.tracked[id].value.groupName != group
    ensures Total(NextBook(book, t, next), group) == Total(book, group)
  {
    forall id | id in LiveIds(next) ensures Growth(book, t, next, group, id) == ZERO {
      AbsentGrowth(book, t, next, group, id);
    }
    SumOfZeros(LiveIds(next), id => Growth(book, t, next, group, id));
    TotalStep(book, t, next, group);
    PlusZero(Total(book, group));
  }

  lemma ReportedSumIsGrowth(book: Book, t: TState, next: TState, group: string)
    requires Booked(book, t) && StepsEverywhere(t, next)
    ensures Sum(LiveIds(next), id => ReportedBy(next, group, id)).Wrap()
         == Sum(LiveIds(next), id => Growth(book, t, next, group, id)).Wrap()
  {
    var reported, growth := id => ReportedBy(next, group, id), id => Growth(book, t, next, group, id);
    forall id | id in LiveIds(next) ensures reported(id).Wrap() == growth(id).Wrap() {
      assert StepsTo(t, next, id);
      ReportIsGrowthModulo(book, t, next, group, id);
    }
    SumWraps(LiveIds(next), reported, growth);
  }

  lemma AddsUp(now: Counts, delta: Tally, before: Tally)
    requires now == delta.Wrap()
    ensures now.Add(before.Wrap()) == before.Plus(delta).Wrap()
  {
    AddIsExactModulo(delta, before);
    PlusCommutes(delta, before);
  }

  lemma PresentGroupBalances(book: Book, t: TState, next: TState, st: GState, ids: seq<ID>, us: seq<Update>,
                             group: string)
    requires Booked(book, t) && StepsEverywhere(t, next)
    requires Balanced(st, book) && ReportsAll(next, ids, us)
    requires group in G.AggregateAll(us)
    ensures Accumulate(st, G.AggregateAll(us)[group], group) == Total(NextBook(book, t, next), group).Wrap()
  {
    var delta := Sum(LiveIds(next), id => Growth(book, t, next, group, id));
    ReportsSum(next, ids, us, group);
    ReportedSumIsGrowth(book, t, next, group);
    TotalStep(book, t, next, group);
    AddsUp(G.AggregateAll(us)[group].counts, delta, Total(book, group));
    assert Lookup(st.groupAccum, group) == if HasEpisode(book, group) then Some(Total(book, group).Wrap()) else None;
    if !HasEpisode(book, group) {
      NoEpisodeNoTotal(book, group);
      PlusZero(delta);
    }
  }

  lemma BalanceStep(book: Book, t: TState, next: TState, st: GState, ids: seq<ID>, us: seq<Update>)
    requires Booked(book, t) && StepsEverywhere(t, next)
    requires Balanced(st, book) && ReportsAll(next, ids, us)
    ensures Balanced(NextGState(false, st, us), NextBook(book, t, next))
  {
    var later: Book := NextBook(book, t, next);
    forall group
      ensures Lookup(NextGState(false, st, us).groupAccum, group) ==
        if HasEpisode(later, group) then Some(Total(later, group).Wrap()) else None
    {
      LooksUp(false, st, us, group);
      EpisodesStay(book, t, next, group);
      ReportedGroups(next, ids, us, group);
      if group in G.AggregateAll(us) {
        PresentGroupBalances(book, t, next, st, ids, us, group);
      } else {
        AbsentGroupKeepsTotal(book, t, next, group);
        assert Lookup(st.groupAccum, group) ==
          if HasEpisode(book, group) then Some(Total(book, group).Wrap()) else None;
      }
    }
  }
}
