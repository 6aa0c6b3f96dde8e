/** `NamedProcessCollector.scrape` of `collector/process_collector.go`: one listing of /proc becomes one
    step of the grouper's run, and its answer is sent metric by metric. */
module Collector {
  import opened Wrappers
  import opened Process
  import opened Collections
  import opened TrackerSpec
  import opened TrackerUpdate
  import opened TrackerRuns
  import opened Conservation
  import Gr = Grouping
  import GS = GrouperSpec
  import opened Scrape

  // The history is a run of the grouper that ends in these states of tracker and grouper.
  ghost predicate EndsIn(c: Config, h: Updates, t: TState, st: GS.GState) {
    IsHistory(c, h) && h.ts[|h.es|] == t && h.gs[|h.es|] == st
  }

  // /proc is read once per Update: listing is what it listed, None when that failed. The collector keeps, as
  // a ghost, the history the protocol of Scrape speaks of.
  class NamedProcessCollector {
    const grouper: Gr.Grouper
    var scrapeErrors: nat
    ghost var updates: Updates

    ghost predicate Consistent()
      reads this`updates, grouper, grouper.tracker, grouper.tracker.Procs()
    {
      && grouper.tracker.Valid()
      && updates.removeEmpty == grouper.removeEmptyGroups
      && EndsIn(grouper.tracker.config, updates, grouper.tracker.Model(), grouper.Model())
    }

    ghost predicate Valid()
      reads this, grouper, grouper.tracker, grouper.tracker.Procs()
    {
      Consistent() && scrapeErrors == Failures(updates.es)
    }

    constructor (config: Config, removeEmptyGroups: bool)
      ensures Valid() && fresh(grouper) && fresh(grouper.tracker) && grouper.tracker.Procs() == {}
      ensures grouper.tracker.config == config && grouper.removeEmptyGroups == removeEmptyGroups
      ensures updates == Updates(removeEmptyGroups, [], [EMPTY], [], [GS.EMPTY_GROUPS])
    {
      grouper := new Gr.Grouper(config, removeEmptyGroups);
      scrapeErrors := 0;
      updates := Updates(removeEmptyGroups, [], [EMPTY], [], [GS.EMPTY_GROUPS]);
    }

    // The first Update, before the server starts. When it fails there is no collector.
    method Start(listing: Option<seq<Row>>, clock: Clock) returns (ok: bool)
      requires Valid() && updates.es == [] && CanMeet(grouper.tracker.config, updates, listing, clock)
      modifies this`updates, grouper, grouper.tracker, grouper.tracker.Procs()
      ensures ok <==> listing.Some?
      ensures ok ==> Valid() && |updates.es| == 1 && updates.es[0].listing.Some?
    {
      var groups, err := RunUpdate(listing, clock);
      ok := !err;
    }

    method RunUpdate(listing: Option<seq<Row>>, clock: Clock) returns (groups: map<string, G.Group>, err: bool)
      requires Consistent() && CanMeet(grouper.tracker.config, updates, listing, clock)
      modifies this`updates, grouper, grouper.tracker, grouper.tracker.Procs()
      ensures Consistent() && Met(old(updates), updates, listing, clock)
      ensures fresh(grouper.tracker.Procs() - old(grouper.tracker.Procs()))
      ensures err <==> listing.None?
      ensures (if err then map[] else groups) == GroupsOf(updates, |old(updates).es|)
      ensures Failures(updates.es) == Failures(old(updates).es) + (if err then 1 else 0)
    {
      ghost var e, us;
      groups, err, e, us := Read(listing, clock);
      Record(e, us);
    }

    // The grouper's Update, as a step of its run.
    method Read(listing: Option<seq<Row>>, clock: Clock)
      returns (groups: map<string, G.Group>, err: bool, ghost e: Event, ghost us: seq<R.Update>)
      requires grouper.tracker.Valid()
      requires listing.Some? ==> OneRowPerPid(listing.value)
      requires listing.Some? ==> Walkable(grouper.tracker.config, grouper.tracker.Model(), listing.value, clock)
      modifies grouper, grouper.tracker, grouper.tracker.Procs()
      ensures grouper.tracker.Valid() && fresh(grouper.tracker.Procs() - old(grouper.tracker.Procs()))
      ensures e.listing == listing && e.clock == clock && (err <==> listing.None?)
      ensures Fits(grouper.tracker.config, old(grouper.tracker.Model()), e)
      ensures grouper.tracker.Model() == TrackerRuns.Step(grouper.tracker.config, old(grouper.tracker.Model()), e)
      ensures GroupStep(grouper.removeEmptyGroups, e, grouper.tracker.Model(), us,
                        old(grouper.Model()), grouper.Model())
      ensures !err ==> groups == GS.Groups(grouper.removeEmptyGroups, old(grouper.Model()), us)
    {
      var procs := new ProcIterator.AllProcs(listing);
      ghost var order, ids;
      groups, err, order, ids, us := grouper.Update(procs, clock);
      e := Event(listing, clock, order);
    }

    // Adds that step to the history.
    ghost method Record(e: Event, us: seq<R.Update>)
      requires grouper.tracker.Valid() && updates.removeEmpty == grouper.removeEmptyGroups
      requires CanMeet(grouper.tracker.config, updates, e.listing, e.clock)
      requires Fits(grouper.tracker.config, updates.ts[|updates.es|], e)
      requires grouper.tracker.Model() == TrackerRuns.Step(grouper.tracker.config, updates.ts[|updates.es|], e)
      requires GroupStep(grouper.removeEmptyGroups, e, grouper.tracker.Model(), us,
                         updates.gs[|updates.es|], grouper.Model())
      modifies this`updates
      ensures Consistent() && Met(old(updates), updates, e.listing, e.clock)
      ensures Failures(updates.es) == Failures(old(updates).es) + (if e.listing.None? then 1 else 0)
      ensures updates.es[|old(updates).es|] == e && updates.us[|old(updates).es|] == us
    {
      var t, st := grouper.tracker.Model(), grouper.Model();
      var h2 := HistoryExtends(grouper.tracker.config, updates, e, t, us, st);
      updates := h2;
      assert grouper.tracker.Model() == t && grouper.Model() == st;
    }

    // Sends the groups in whatever order the map iteration gives them.
    method SendGroups(groups: map<string, G.Group>) returns (out: seq<Metric>)
      ensures Ordering(out, set g | g in groups :: OfGroup(g, groups[g]))
    {
      out := [];
      var done: set<string> := {};
      while groups.Keys - done != {}
        invariant done <= groups.Keys
        invariant Ordering(out, set g | g in done && g in groups :: OfGroup(g, groups[g]))
        decreases groups.Keys - done
      {
        var gname :| gname in groups.Keys - done;
        ghost var sent := set g | g in done && g in groups :: OfGroup(g, groups[g]);
        done := done + {gname};
        assert (set g | g in done && g in groups :: OfGroup(g, groups[g])) == sent + {OfGroup(gname, groups[gname])};
        assert OfGroup(gname, groups[gname]) !in sent;
        out := out + [OfGroup(gname, groups[gname])];
      }
      assert groups.Keys == done + (groups.Keys - done);
    }

    // One scrape: it runs the next Update of the history and sends exactly what the protocol says it should.
    method Scrape(listing: Option<seq<Row>>, clock: Clock) returns (out: seq<Metric>)
      requires Valid() && CanMeet(grouper.tracker.config, updates, listing, clock)
      modifies this, grouper, grouper.tracker, grouper.tracker.Procs()
      ensures Valid() && Met(old(updates), updates, listing, clock)
      ensures fresh(grouper.tracker.Procs() - old(grouper.tracker.Procs()))
      ensures IsOutput(updates, |old(updates).es|, out)
      ensures scrapeErrors == old(scrapeErrors) + (if listing.None? then 1 else 0)
    {
      var groups, err := RunUpdate(listing, clock);
      if err {
        CountError();
      }
      out := SendAll(updates, groups, err, scrapeErrors);
    }

    method CountError()
      requires Consistent()
      modifies this`scrapeErrors
      ensures Consistent() && scrapeErrors == old(scrapeErrors) + 1
    {
      scrapeErrors := scrapeErrors + 1;
    }

    // The groups, unless the Update failed, and then the error counter.
    method SendAll(ghost h: Updates, groups: map<string, G.Group>, err: bool, errors: nat) returns (out: seq<Metric>)
      requires h.es != [] && |h.us| == |h.es| && |h.gs| == |h.es| + 1
      requires errors == Failures(h.es)
      requires (if err then map[] else groups) == GroupsOf(h, |h.es| - 1)
      ensures IsOutput(h, |h.es| - 1, out)
    {
      out := [];
      if !err {
        out := SendGroups(groups);
      }
      ghost var sent := out;
      out := out + [ScrapeErrors(errors)];
      assert out[..|out| - 1] == sent;
      assert h.es[..|h.es|] == h.es;
    }
  }

  lemma HistoryExtends(c: Config, h: Updates, e: Event, next: TState, us: seq<R.Update>, st: GS.GState)
    returns (h2: Updates)
    requires CanMeet(c, h, e.listing, e.clock) && Fits(c, h.ts[|h.es|], e)
    requires next == TrackerRuns.Step(c, h.ts[|h.es|], e)
    requires GroupStep(h.removeEmpty, e, next, us, h.gs[|h.es|], st)
    ensures EndsIn(c, h2, next, st) && Met(h, h2, e.listing, e.clock)
    ensures h2.es[|h.es|] == e && h2.us[|h.es|] == us
    ensures Failures(h2.es) == Failures(h.es) + (if e.listing.None? then 1 else 0)
  {
    GroupRunExtends(c, h.removeEmpty, h.es, h.ts, h.us, h.gs, e, next, us, st);
    h2 := Updates(h.removeEmpty, h.es + [e], h.ts + [next], h.us + [us], h.gs + [st]);
    OneMoreFailure(h, h2);
  }

  lemma OneMoreFailure(h: Updates, h2: Updates)
    requires OneMore(h, h2)
    ensures Failures(h2.es) == Failures(h.es) + (if h2.es[|h.es|].listing.None? then 1 else 0)
  {
  }

  // What the class does in one scrape is the server's step in the protocol: from any protocol state with this
  // history and a call accepted, the step leads to the class's new history and to sending what it sent.
  lemma ScrapeIsServersStep(c: Config, s: Protocol, h2: Updates, listing: Option<seq<Row>>, clock: Clock,
                            out: seq<Metric>)
    returns (s2: Protocol)
    requires s.server.Accepted? && IsHistory(c, h2) && Met(s.updates, h2, listing, clock)
    requires IsOutput(h2, |s.updates.es|, out) && s.scrapeErrors == Failures(s.updates.es)
    ensures Serves(c, s, s2, listing, clock)
    ensures s2.updates == h2 && s2.server == Emitting(s.server.call, out) && s2.scrapeErrors == Failures(h2.es)
  {
    s2 := UpdateIsStep(c, s, h2, out);
    OneMoreFailure(s.updates, h2);
  }
}
