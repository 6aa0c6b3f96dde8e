/** The book of tracking episodes, kept from the listings of /proc: every count in it is one that a listing
    showed. The tracker's states only say which processes are live, and under which name. */
module Ledger {
  import opened Counters
  import opened Process
  import opened TrackerSpec
  import opened TrackerUpdate
  import opened TrackerRuns
  import opened Reports
  import opened Observations
  import opened Accounting

  // The counts this Update read of the process, context switches summed over its threads.
  function CountsIn(e: Event, id: ID): Counts {
    if e.listing.Some? && Read(e.listing.value, id) then Observed(e.listing.value, id).counts else NO_COUNTS
  }

  // The start time this Update read of the process.
  function StartIn(e: Event, id: ID): Time {
    if e.listing.Some? && Read(e.listing.value, id) && RowFor(e.listing.value, id).value.stat.Some?
    then RowFor(e.listing.value, id).value.stat.value.startTime
    else NO_TIME
  }

  // The counts the process was last read with, before Update i.
  function LastListed(es: seq<Event>, i: nat, id: ID): Counts
    requires i <= |es|
  {
    if i == 0 then NO_COUNTS
    else if es[i - 1].listing.Some? && Read(es[i - 1].listing.value, id) then CountsIn(es[i - 1], id)
    else LastListed(es, i - 1, id)
  }

  lemma {:induction false} LastListedStays(es: seq<Event>, more: seq<Event>, i: nat, id: ID)
    requires i <= |es| && es <= more
    ensures LastListed(es, i, id) == LastListed(more, i, id)
  {
    if i > 0 {
      LastListedStays(es, more, i - 1, id);
    }
  }

  // What an episode that begins with Update i starts from: zero for a process that started after the first
  // Update did, or else what it has done so far.
  function Baseline(es: seq<Event>, i: nat, id: ID): Counts
    requires i < |es|
  {
    if StartIn(es[i], id) > FirstReading(es[..i + 1]) then NO_COUNTS else CountsIn(es[i], id)
  }

  function ListedEpisodes(es: seq<Event>, ts: seq<TState>, i: nat, book: Book, id: ID): seq<Episode>
    requires i < |es| && i + 1 < |ts|
  {
    if id !in LiveIds(ts[i + 1]) then EpisodesOf(book, id)
    else if id in LiveIds(ts[i]) then Continued(EpisodesOf(book, id), CountsIn(es[i], id))
    else EpisodesOf(book, id)
         + [Episode(ts[i + 1].tracked[id].value.groupName, Baseline(es, i, id), CountsIn(es[i], id))]
  }

  // The book after the first i Updates.
  function BookAt(es: seq<Event>, ts: seq<TState>, i: nat): Book
    requires i <= |es| && i < |ts|
  {
    if i == 0 then map[] else
    var book := BookAt(es, ts, i - 1);
    if es[i - 1].listing.None? then book
    else map id | id in book.Keys + LiveIds(ts[i]) :: ListedEpisodes(es, ts, i - 1, book, id)
  }

  // ---------------------------------------------------------------- the tracker's states hold the same counts

  lemma {:induction false} LiveCounts(c: Config, es: seq<Event>, ts: seq<TState>, i: nat, id: ID)
    requires Run(c, es, ts) && i < |es| && es[i].listing.Some? && id in LiveIds(ts[i + 1])
    ensures Read(es[i].listing.value, id) && ts[i + 1].tracked[id].value.metrics.counts == CountsIn(es[i], id)
    ensures id !in LiveIds(ts[i]) ==> ts[i + 1].tracked[id].value.stat.startTime == StartIn(es[i], id)
  {
    var k := LiveIsAsListed(c, es, ts, i, id);
    RowIsTheRow(es[i].listing.value, k, id);
  }

  lemma {:induction false} LiveIsLastListed(c: Config, es: seq<Event>, ts: seq<TState>, i: nat, id: ID)
    requires Run(c, es, ts) && i < |ts| && id in LiveIds(ts[i])
    ensures ts[i].tracked[id].value.metrics.counts == LastListed(es, i, id)
  {
    if i > 0 {
      if es[i - 1].listing.Some? {
        LiveCounts(c, es, ts, i - 1, id);
      } else {
        assert ts[i].tracked == ts[i - 1].tracked;
        LiveIsLastListed(c, es, ts, i - 1, id);
      }
    }
  }

  lemma {:induction false} EpisodesAsListed(c: Config, es: seq<Event>, ts: seq<TState>, i: nat, book: Book, id: ID)
    requires Run(c, es, ts) && i < |es| && es[i].listing.Some?
    ensures ListedEpisodes(es, ts, i, book, id) == NextEpisodes(book, ts[i], ts[i + 1], id)
  {
    if id in LiveIds(ts[i + 1]) {
      LiveCounts(c, es, ts, i, id);
      FirstUpdateIsRemembered(c, es, ts, i + 1);
    }
  }

  lemma {:induction false} SuccessKeepsBook(c: Config, es: seq<Event>, ts: seq<TState>, i: nat)
    requires Run(c, es, ts) && i < |es| && es[i].listing.Some?
    ensures BookAt(es, ts, i + 1) == NextBook(BookAt(es, ts, i), ts[i], ts[i + 1])
  {
    var book := BookAt(es, ts, i);
    forall id | id in book.Keys + LiveIds(ts[i + 1])
      ensures ListedEpisodes(es, ts, i, book, id) == NextEpisodes(book, ts[i], ts[i + 1], id)
    {
      EpisodesAsListed(c, es, ts, i, book, id);
    }
  }
}
