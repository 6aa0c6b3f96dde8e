/** The scrape protocol of `collector/process_collector.go`, as a state machine over its steps: any number
    of concurrent `Collect` calls hand their result channel to one server goroutine over an unbuffered
    channel; the server updates the grouper, sends the metrics one by one, and signals the caller. */
module Scrape {
  import opened Wrappers
  import opened Process
  import opened Collections
  import opened TrackerSpec
  import opened TrackerUpdate
  import opened TrackerRuns
  import R = Reports
  import G = GroupSpec
  import opened GrouperSpec
  import opened Accounting
  import opened Ledger
  import opened Conservation

  // What one scrape sends for a group, and the error counter that closes every scrape.
  datatype Metric = OfGroup(gname: string, group: G.Group) | ScrapeErrors(count: nat)

  // Every Update the collector has run, the one of its constructor included.
  datatype Updates = Updates(
    removeEmpty: bool, es: seq<Event>, ts: seq<TState>, us: seq<seq<R.Update>>, gs: seq<GState>)

  ghost predicate IsHistory(c: Config, h: Updates) {
    GroupRun(c, h.removeEmpty, h.es, h.ts, h.us, h.gs)
  }

  // h2 is h and one more Update.
  ghost predicate OneMore(h: Updates, h2: Updates) {
    && h2.removeEmpty == h.removeEmpty
    && |h2.es| == |h.es| + 1 && h2.es[..|h.es|] == h.es
    && |h2.ts| == |h.ts| + 1 && h2.ts[..|h.ts|] == h.ts
    && |h2.us| == |h.us| + 1 && h2.us[..|h.us|] == h.us
    && |h2.gs| == |h.gs| + 1 && h2.gs[..|h.gs|] == h.gs
  }

  function Failures(es: seq<Event>): nat {
    if es == [] then 0 else Failures(es[..|es| - 1]) + (if es[|es| - 1].listing.None? then 1 else 0)
  }

  function GroupsOf(h: Updates, k: nat): map<string, G.Group>
    requires k < |h.es| && |h.us| == |h.es| && |h.gs| == |h.es| + 1
  {
    if h.es[k].listing.Some? then Groups(h.removeEmpty, h.gs[k], h.us[k]) else map[]
  }

  // The whole output of the scrape that ran Update k: every group once in any order, then the error count.
  ghost predicate IsOutput(h: Updates, k: nat, out: seq<Metric>) {
    && k < |h.es| && |h.us| == |h.es| && |h.gs| == |h.es| + 1
    && out != [] && out[|out| - 1] == ScrapeErrors(Failures(h.es[..k + 1]))
    && Ordering(out[..|out| - 1], set g | g in GroupsOf(h, k) :: OfGroup(g, GroupsOf(h, k)[g]))
  }

  datatype Call = Sending | Waiting | Returned

  datatype Server =
    | Receiving                               // for req := range p.scrapeChan
    | Accepted(call: nat)                     // about to run Update
    | Emitting(call: nat, rest: seq<Metric>)  // sending metrics to the call's channel

  datatype Protocol = Protocol(
    calls: map<nat, Call>,          // the Collect calls so far
    got: map<nat, seq<Metric>>,     // what each call's channel has received
    server: Server,
    scrapeErrors: nat,
    updates: Updates,
    log: seq<nat>,                  // log[k] is the call whose scrape ran Update k + 1
    outputs: seq<seq<Metric>>)      // outputs[k] is what that scrape set out to send

  // NewProcessCollector: one successful Update, then the goroutine starts.
  ghost predicate Init(c: Config, s: Protocol) {
    && IsHistory(c, s.updates) && |s.updates.es| == 1 && s.updates.es[0].listing.Some?
    && s.calls == map[] && s.got == map[] && s.server == Receiving && s.scrapeErrors == 0
    && s.log == [] && s.outputs == []
  }

  datatype Step = Start(call: nat) | Rendezvous(call: nat) | RunUpdate | Emit | Done

  // The server runs the grouper's Update and turns the answer into metrics.
  ghost predicate UpdateStep(s: Protocol, s2: Protocol) {
    && s.server.Accepted? && s2.server.Emitting? && s2.server.call == s.server.call
    && OneMore(s.updates, s2.updates)
    && s2.scrapeErrors == s.scrapeErrors + (if s2.updates.es[|s.updates.es|].listing.None? then 1 else 0)
    && IsOutput(s2.updates, |s.updates.es|, s2.server.rest)
    && s2.log == s.log + [s.server.call] && s2.outputs == s.outputs + [s2.server.rest]
    && s2.calls == s.calls && s2.got == s.got
  }

  ghost predicate Next(c: Config, s: Protocol, step: Step, s2: Protocol) {
    match step
    case Start(call) =>
      // Collect makes its request and blocks on scrapeChan
      && call !in s.calls
      && s2 == s.(calls := s.calls[call := Sending], got := s.got[call := []])
    case Rendezvous(call) =>
      && s.server == Receiving && call in s.calls && s.calls[call] == Sending
      && s2 == s.(calls := s.calls[call := Waiting], server := Accepted(call))
    case RunUpdate =>
      IsHistory(c, s2.updates) && UpdateStep(s, s2)
    case Emit =>
      && s.server.Emitting? && s.server.rest != [] && s.server.call in s.got
      && s2 == s.(server := Emitting(s.server.call, s.server.rest[1..]),
                  got := s.got[s.server.call := s.got[s.server.call] + [s.server.rest[0]]])
    case Done =>
      && s.server.Emitting? && s.server.rest == [] && s.server.call in s.calls && s.calls[s.server.call] == Waiting
      && s2 == s.(server := Receiving, calls := s.calls[s.server.call := Returned])
  }

  ghost predicate Behaviour(c: Config, ss: seq<Protocol>, steps: seq<Step>) {
    && |ss| == |steps| + 1 && Init(c, ss[0])
    && forall i | 0 <= i < |steps| :: Next(c, ss[i], steps[i], ss[i + 1])
  }

  // ---------------------------------------------------------------- the invariant

  function Current(s: Protocol): set<nat> {
    if s.server.Receiving? then {} else {s.server.call}
  }

  // The one call between its rendezvous and its return is the one the server works for.
  ghost predicate OneAtATime(s: Protocol) {
    && s.got.Keys == s.calls.Keys
    && forall call | call in s.calls :: s.calls[call] == Waiting <==> call in Current(s)
  }

  ghost predicate CurrentIsKnown(s: Protocol) {
    Current(s) <= s.calls.Keys
  }

  // Every scrape in the log was for one call, and that call gets its output and nothing else.
  ghost predicate Logged(s: Protocol) {
    && |s.outputs| == |s.log| && |s.updates.es| == |s.log| + 1
    && (forall i, j | 0 <= i < j < |s.log| :: s.log[i] != s.log[j])
    && (forall k | 0 <= k < |s.log| :: s.log[k] in s.calls && s.calls[s.log[k]] != Sending)
    && (forall call | call in s.calls && s.calls[call] == Returned :: call in s.log)
    && (s.server.Emitting? <==> |s.log| > 0 && s.log[|s.log| - 1] in Current(s))
    && (s.server.Accepted? ==> s.server.call !in s.log)
  }

  ghost predicate Delivered(s: Protocol) {
    && s.got.Keys == s.calls.Keys
    && |s.outputs| == |s.log|
    && (forall call | call in s.calls && call !in s.log :: s.got[call] == [])
    && (forall k | 0 <= k < |s.log| && s.log[k] in s.got ::
          s.outputs[k]
            == s.got[s.log[k]] + (if s.server.Emitting? && s.server.call == s.log[k] then s.server.rest else []))
  }

  ghost predicate Outputs(s: Protocol) {
    && |s.outputs| == |s.log| && |s.updates.es| == |s.log| + 1
    && (forall k | 0 <= k < |s.outputs| :: IsOutput(s.updates, k + 1, s.outputs[k]))
    && s.updates.es[0].listing.Some?
    && s.scrapeErrors == Failures(s.updates.es)
  }

  ghost predicate Inv(c: Config, s: Protocol) {
    && IsHistory(c, s.updates)
    && OneAtATime(s) && CurrentIsKnown(s) && Logged(s) && Delivered(s) && Outputs(s)
  }

  lemma InitHolds(c: Config, s: Protocol)
    requires Init(c, s)
    ensures Inv(c, s)
  {
    assert s.updates.es[..0] == [];
    assert Failures(s.updates.es) == 0;
  }

  // An output stays what it was when the history grows.
  lemma OutputStays(h: Updates, h2: Updates, k: nat, out: seq<Metric>)
    requires OneMore(h, h2) && IsOutput(h, k, out) && |h2.us| == |h2.es| && |h2.gs| == |h2.es| + 1
    ensures IsOutput(h2, k, out)
  {
    assert h2.es[k] == h2.es[..|h.es|][k] && h2.us[k] == h2.us[..|h.us|][k] && h2.gs[k] == h2.gs[..|h.gs|][k];
    assert h2.es[..k + 1] == h.es[..k + 1];
  }

  lemma UpdateKeepsOutputs(s: Protocol, s2: Protocol)
    requires Outputs(s) && UpdateStep(s, s2)
    ensures Outputs(s2)
  {
    forall k | 0 <= k < |s2.outputs| ensures IsOutput(s2.updates, k + 1, s2.outputs[k]) {
      if k < |s.outputs| {
        assert IsOutput(s.updates, k + 1, s.outputs[k]);
        OutputStays(s.updates, s2.updates, k + 1, s.outputs[k]);
      }
    }
    assert s2.updates.es[0] == s2.updates.es[..|s.updates.es|][0];
  }

  // The log with one more call, the one being served.
  lemma LogWithCall(s: Protocol, s2: Protocol)
    requires Logged(s) && s.server.Accepted? && s2.server.Emitting? && s2.server.call == s.server.call
    requires s2.calls == s.calls && s.server.call in s.calls && s.calls[s.server.call] == Waiting
    requires s2.log == s.log + [s.server.call]
    requires |s2.outputs| == |s.outputs| + 1 && |s2.updates.es| == |s.updates.es| + 1
    ensures Logged(s2)
  {
    forall other | other in s2.calls ensures other in s2.log <==> other in s.log || other == s.server.call {}
  }

  lemma UpdateKeepsLog(s: Protocol, s2: Protocol)
    requires OneAtATime(s) && CurrentIsKnown(s) && Logged(s) && UpdateStep(s, s2)
    ensures Logged(s2)
  {
    assert s.server.call in Current(s);
    LogWithCall(s, s2);
  }

  lemma UpdateKeepsDelivery(s: Protocol, s2: Protocol)
    requires CurrentIsKnown(s) && Delivered(s) && UpdateStep(s, s2)
    requires s.server.call in s.calls && s.server.call !in s.log
    ensures Delivered(s2)
  {
    var call := s.server.call;
    assert s.got[call] == [];
    forall k | 0 <= k < |s2.log| && s2.log[k] in s2.got
      ensures s2.outputs[k] == s2.got[s2.log[k]] + (if s2.server.call == s2.log[k] then s2.server.rest else [])
    {
      if k < |s.log| {
        assert s.log[k] in s.log;
      }
    }
  }

  lemma UpdateKeepsShared(s: Protocol, s2: Protocol)
    requires Shared(s) && UpdateStep(s, s2)
    ensures Shared(s2)
  {
    assert Current(s2) == Current(s);
    UpdateKeepsLog(s, s2);
    UpdateKeepsDelivery(s, s2);
  }

  lemma NextKeeps(c: Config, s: Protocol, step: Step, s2: Protocol)
    requires Inv(c, s) && Next(c, s, step, s2)
    ensures Inv(c, s2)
  {
    match step
    case Start(call) => StartKeeps(s, call, s2);
    case Rendezvous(call) => RendezvousKeeps(s, call, s2);
    case RunUpdate => UpdateKeepsOutputs(s, s2); UpdateKeepsShared(s, s2);
    case Emit => EmitKeeps(s, s2);
    case Done => DoneKeeps(s, s2);
  }

  ghost predicate Shared(s: Protocol) {
    OneAtATime(s) && CurrentIsKnown(s) && Logged(s) && Delivered(s)
  }

  lemma StartKeeps(s: Protocol, call: nat, s2: Protocol)
    requires Shared(s) && call !in s.calls && s2 == s.(calls := s.calls[call := Sending], got := s.got[call := []])
    ensures Shared(s2)
  {
    assert call !in s.log;
  }

  lemma RendezvousKeeps(s: Protocol, call: nat, s2: Protocol)
    requires Shared(s) && s.server == Receiving && call in s.calls && s.calls[call] == Sending
    requires s2 == s.(calls := s.calls[call := Waiting], server := Accepted(call))
    ensures Shared(s2)
  {
    assert call !in s.log;
  }

  lemma EmitKeeps(s: Protocol, s2: Protocol)
    requires Shared(s) && s.server.Emitting? && s.server.rest != [] && s.server.call in s.got
    requires s2 == s.(server := Emitting(s.server.call, s.server.rest[1..]),
                      got := s.got[s.server.call := s.got[s.server.call] + [s.server.rest[0]]])
    ensures Shared(s2)
  {
    var call, rest := s.server.call, s.server.rest;
    assert call in s.log;
    forall k | 0 <= k < |s2.log| && s2.log[k] in s2.got
      ensures s2.outputs[k]
              == s2.got[s2.log[k]] + (if s2.server.Emitting? && s2.server.call == s2.log[k] then s2.server.rest else [])
    {
      if s.log[k] == call {
        assert s.got[call] + rest == s.got[call] + [rest[0]] + rest[1..];
      }
    }
  }

  lemma DoneKeeps(s: Protocol, s2: Protocol)
    requires Shared(s) && s.server.Emitting? && s.server.rest == [] && s.server.call in s.calls
    requires s2 == s.(server := Receiving, calls := s.calls[s.server.call := Returned])
    ensures Shared(s2)
  {
    assert s.server.call in s.log;
  }

  lemma {:induction false} Reached(c: Config, ss: seq<Protocol>, steps: seq<Step>, i: nat)
    requires Behaviour(c, ss, steps) && i < |ss|
    ensures Inv(c, ss[i])
  {
    var holds := s => Inv(c, s);
    InitHolds(c, ss[0]);
    forall k | 0 <= k < |steps| && holds(ss[k]) ensures holds(ss[k + 1]) {
      NextKeeps(c, ss[k], steps[k], ss[k + 1]);
    }
    HoldsThroughout(holds, ss, i);
    assert holds(ss[i]);
  }

  lemma {:induction false} HoldsThroughout(holds: Protocol -> bool, ss: seq<Protocol>, i: nat)
    requires i < |ss| && holds(ss[0])
    requires forall k | 0 <= k < |ss| - 1 && holds(ss[k]) :: holds(ss[k + 1])
    ensures holds(ss[i])
  {
    if i > 0 {
      HoldsThroughout(holds, ss, i - 1);
    }
  }

  lemma {:induction false} ReachedShared(c: Config, ss: seq<Protocol>, steps: seq<Step>, i: nat)
    requires Behaviour(c, ss, steps) && i < |ss|
    ensures Shared(ss[i])
  {
    Reached(c, ss, steps, i);
  }

  lemma {:induction false} ReachedHistory(c: Config, ss: seq<Protocol>, steps: seq<Step>, i: nat)
    requires Behaviour(c, ss, steps) && i < |ss|
    ensures IsHistory(c, ss[i].updates)
  {
    Reached(c, ss, steps, i);
  }

  // ---------------------------------------------------------------- what callers may rely on

  // Scrapes are serialised: no two calls are ever being served at once, whatever the interleaving.
  lemma {:induction false} OneScrapeAtATime(c: Config, ss: seq<Protocol>, steps: seq<Step>, i: nat, a: nat, b: nat)
    requires Behaviour(c, ss, steps) && i < |ss|
    requires a in ss[i].calls && b in ss[i].calls && ss[i].calls[a] == Waiting && ss[i].calls[b] == Waiting
    ensures a == b
  {
    Reached(c, ss, steps, i);
  }

  // A Collect that has returned received the whole output of exactly one scrape, in order, and nothing
  // else; a call that is not being served has received nothing.
  lemma {:induction false} ReturnedGotOneScrape(c: Config, ss: seq<Protocol>, steps: seq<Step>, i: nat, call: nat)
    returns (k: nat)
    requires Behaviour(c, ss, steps) && i < |ss|
    requires call in ss[i].calls && ss[i].calls[call] == Returned
    ensures var s := ss[i];
      && k < |s.log| && s.log[k] == call && (forall j | 0 <= j < |s.log| && s.log[j] == call :: j == k)
      && |s.outputs| == |s.log| && call in s.got && s.got[call] == s.outputs[k]
         && IsOutput(s.updates, k + 1, s.got[call])
  {
    Reached(c, ss, steps, i);
    var s := ss[i];
    assert call in s.log;
    k :| 0 <= k < |s.log| && s.log[k] == call;
    assert IsOutput(s.updates, k + 1, s.outputs[k]);
  }

  // What the server may meet when it runs its next Update: a listing that failed, or any one with one row per
  // pid whose process tree has no cycle; and a later clock.
  ghost predicate CanMeet(c: Config, h: Updates, listing: Option<seq<Row>>, clock: Clock) {
    && IsHistory(c, h) && Fresh(h.es, clock.now)
    && (listing.Some? ==> OneRowPerPid(listing.value) && Walkable(c, h.ts[|h.es|], listing.value, clock))
  }

  // h2 is h and one more Update, which met this listing at this time.
  ghost predicate Met(h: Updates, h2: Updates, listing: Option<seq<Row>>, clock: Clock) {
    OneMore(h, h2) && h2.es[|h.es|].listing == listing && h2.es[|h.es|].clock == clock
  }

  lemma AnUpdateCanRun(c: Config, h: Updates, listing: Option<seq<Row>>, clock: Clock) returns (h2: Updates)
    requires CanMeet(c, h, listing, clock)
    ensures Met(h, h2, listing, clock) && IsHistory(c, h2)
  {
    var t := h.ts[|h.es|];
    var order := [];
    if listing.Some? {
      order := SomeOrdering(AfterMatch(c, t, listing.value, clock).1.Keys);
    }
    var e := Event(listing, clock, order);
    var next := TrackerRuns.Step(c, t, e);
    var us, st := SomeGroupStep(h.removeEmpty, e, next, h.gs[|h.es|]);
    GroupRunExtends(c, h.removeEmpty, h.es, h.ts, h.us, h.gs, e, next, us, st);
    h2 := Updates(h.removeEmpty, h.es + [e], h.ts + [next], h.us + [us], h.gs + [st]);
  }

  lemma SomeOutput(h: Updates, k: nat) returns (out: seq<Metric>)
    requires k < |h.es| && |h.us| == |h.es| && |h.gs| == |h.es| + 1
    ensures IsOutput(h, k, out)
  {
    var front := SomeOrdering(set g | g in GroupsOf(h, k) :: OfGroup(g, GroupsOf(h, k)[g]));
    out := front + [ScrapeErrors(Failures(h.es[..k + 1]))];
    assert out[..|out| - 1] == front;
  }

  // The server's step, given the Update it ran and the metrics it made of it.
  lemma UpdateIsStep(c: Config, s: Protocol, h2: Updates, out: seq<Metric>) returns (s2: Protocol)
    requires s.server.Accepted? && IsHistory(c, h2) && OneMore(s.updates, h2) && IsOutput(h2, |s.updates.es|, out)
    ensures Next(c, s, RunUpdate, s2)
    ensures s2.updates == h2 && s2.server == Emitting(s.server.call, out)
  {
    var errors := s.scrapeErrors + (if h2.es[|s.updates.es|].listing.None? then 1 else 0);
    s2 := Protocol(s.calls, s.got, Emitting(s.server.call, out), errors, h2, s.log + [s.server.call],
      s.outputs + [out]);
  }

  ghost predicate Serves(c: Config, s: Protocol, s2: Protocol, listing: Option<seq<Row>>, clock: Clock) {
    Next(c, s, RunUpdate, s2) && Met(s.updates, s2.updates, listing, clock)
  }

  // Among listings with one row per pid and a later clock, a scrape that was accepted goes on with exactly those
  // that failed or whose process tree has no cycle: on a cycle checkAncestry does not end, nor does the scrape.
  lemma UpdateRunsIff(c: Config, s: Protocol, listing: Option<seq<Row>>, clock: Clock)
    requires IsHistory(c, s.updates) && s.server.Accepted?
    ensures (exists s2 :: Serves(c, s, s2, listing, clock)) <==> CanMeet(c, s.updates, listing, clock)
  {
    if CanMeet(c, s.updates, listing, clock) {
      var h2 := AnUpdateCanRun(c, s.updates, listing, clock);
      var out := SomeOutput(h2, |s.updates.es|);
      var s2 := UpdateIsStep(c, s, h2, out);
      assert Serves(c, s, s2, listing, clock);
    }
    if s2 :| Serves(c, s, s2, listing, clock) {
      OnlyWhatCanBeMet(c, s.updates, s2.updates, listing, clock);
    }
  }

  lemma OnlyWhatCanBeMet(c: Config, h: Updates, h2: Updates, listing: Option<seq<Row>>, clock: Clock)
    requires IsHistory(c, h) && IsHistory(c, h2) && Met(h, h2, listing, clock)
    ensures CanMeet(c, h, listing, clock)
  {
    var n := |h.es|;
    assert h2.ts[n] == h2.ts[..|h.ts|][n] == h.ts[n];
    forall i | 0 <= i < n ensures h.es[i].clock.now < clock.now {
      assert h2.es[i] == h2.es[..n][i] == h.es[i];
    }
  }

  // A failed listing can always be met.
  lemma FailureCanBeMet(c: Config, h: Updates) returns (clock: Clock)
    requires IsHistory(c, h) && h.es != []
    ensures CanMeet(c, h, None, clock)
  {
    var now := h.es[|h.es| - 1].clock.now + 1;
    clock := Clock(now, now, _ => now);
  }

  // No deadlock: as long as a call has not returned, some step other than a new call can be taken. If that is
  // the server's Update, it can be taken whatever listing the Update meets.
  lemma {:induction false} NeverStuck(c: Config, ss: seq<Protocol>, steps: seq<Step>, i: nat, call: nat)
    returns (step: Step, s2: Protocol)
    requires Behaviour(c, ss, steps) && i < |ss|
    requires call in ss[i].calls && ss[i].calls[call] != Returned
    ensures !step.Start? && Next(c, ss[i], step, s2)
    ensures ss[i].server.Accepted? ==> forall listing, clock | CanMeet(c, ss[i].updates, listing, clock) ::
              exists later :: Serves(c, ss[i], later, listing, clock)
  {
    Reached(c, ss, steps, i);
    var s := ss[i];
    match s.server
    case Receiving =>
      step := Rendezvous(call);
      s2 := s.(calls := s.calls[call := Waiting], server := Accepted(call));
    case Accepted(_) =>
      step := RunUpdate;
      forall listing, clock | CanMeet(c, s.updates, listing, clock)
        ensures exists later :: Serves(c, s, later, listing, clock)
      {
        UpdateRunsIff(c, s, listing, clock);
      }
      var clock := FailureCanBeMet(c, s.updates);
      s2 :| Serves(c, s, s2, None, clock);
    case Emitting(current, rest) =>
      if rest == [] {
        step := Done;
        s2 := s.(server := Receiving, calls := s.calls[current := Returned]);
      } else {
        step := Emit;
        s2 := s.(server := Emitting(current, rest[1..]), got := s.got[current := s.got[current] + [rest[0]]]);
      }
  }

  function SendingCalls(s: Protocol): set<nat> {
    set call | call in s.calls && s.calls[call] == Sending
  }

  function Phase(server: Server): nat {
    match server
    case Receiving => 0
    case Emitting(_, _) => 1
    case Accepted(_) => 2
  }

  // And the work runs out: every step but a new call leaves fewer calls waiting for the server, or as many
  // and the server further on with the call it has.
  lemma WorkRunsOut(c: Config, s: Protocol, step: Step, s2: Protocol)
    requires Next(c, s, step, s2) && !step.Start?
    ensures SendingCalls(s2) < SendingCalls(s)
         || (SendingCalls(s2) == SendingCalls(s) && Phase(s2.server) < Phase(s.server))
         || (SendingCalls(s2) == SendingCalls(s) && s.server.Emitting? && s2.server.Emitting?
            && |s2.server.rest| < |s.server.rest|)
  {
    match step
    case Rendezvous(call) =>
      assert call in SendingCalls(s) && call !in SendingCalls(s2);
    case RunUpdate =>
    case Emit =>
    case Done =>
      assert s.server.call !in SendingCalls(s);
  }

  // ---------------------------------------------------------------- real-time order

  ghost predicate Later(s: Protocol, s2: Protocol) {
    && s.log <= s2.log
    && forall call | call in s.calls && s.calls[call] == Returned :: call in s2.calls && s2.calls[call] == Returned
  }

  lemma {:induction false} LogGrows(c: Config, ss: seq<Protocol>, steps: seq<Step>, i: nat, j: nat)
    requires Behaviour(c, ss, steps) && i <= j < |ss|
    ensures Later(ss[i], ss[j])
  {
    if i < j {
      LogGrows(c, ss, steps, i, j - 1);
      assert Next(c, ss[j - 1], steps[j - 1], ss[j]);
    }
  }

  // If one Collect has returned before another starts, the other is served by a later Update.
  lemma {:induction false} EarlierCallEarlierUpdate(c: Config, ss: seq<Protocol>, steps: seq<Step>, i: nat, j: nat,
                                                    a: nat, b: nat, ka: nat, kb: nat)
    requires Behaviour(c, ss, steps) && i <= j < |ss|
    requires a in ss[i].calls && ss[i].calls[a] == Returned && b !in ss[i].calls
    requires ka < |ss[j].log| && kb < |ss[j].log| && ss[j].log[ka] == a && ss[j].log[kb] == b
    ensures ka < kb
  {
    ReachedShared(c, ss, steps, i);
    ReachedShared(c, ss, steps, j);
    LogGrows(c, ss, steps, i, j);
    OrderInLog(ss[i], ss[j], a, b, ka, kb);
  }

  lemma OrderInLog(s: Protocol, s2: Protocol, a: nat, b: nat, ka: nat, kb: nat)
    requires Logged(s) && Logged(s2) && s.log <= s2.log
    requires a in s.calls && s.calls[a] == Returned && b !in s.calls
    requires ka < |s2.log| && kb < |s2.log| && s2.log[ka] == a && s2.log[kb] == b
    ensures ka < kb
  {
    assert a in s.log;
    var k :| 0 <= k < |s.log| && s.log[k] == a;
    assert s2.log[k] == a;
    assert forall x | 0 <= x < |s.log| :: s2.log[x] == s.log[x] && s.log[x] in s.calls;
  }

  ghost predicate Reports(out: seq<Metric>, gname: string, group: G.Group) {
    OfGroup(gname, group) in out
  }

  lemma OutputOfGroup(h: Updates, k: nat, out: seq<Metric>, gname: string, group: G.Group)
    requires IsOutput(h, k, out)
    ensures Reports(out, gname, group) <==> gname in GroupsOf(h, k) && group == GroupsOf(h, k)[gname]
  {
    var front := out[..|out| - 1];
    assert out == front + [out[|out| - 1]];
    assert OfGroup(gname, group) in out <==> OfGroup(gname, group) in front;
  }

  function Answers(h: Updates): seq<map<string, G.Group>>
    requires |h.us| == |h.es| && |h.gs| == |h.es| + 1
  {
    seq(|h.es|, k requires 0 <= k < |h.es| => GroupsOf(h, k))
  }

  lemma HistoryAnswers(c: Config, h: Updates)
    requires IsHistory(c, h)
    ensures AnsweredRun(c, h.removeEmpty, h.es, h.ts, h.us, h.gs, Answers(h))
  {
    forall k: nat | k < |h.es| ensures AnswerAt(h.removeEmpty, h.es, h.us, h.gs, Answers(h), k) {}
  }

  lemma LaterCounters(c: Config, h: Updates, outs: seq<map<string, G.Group>>, ka: nat, kb: nat, gname: string)
    requires IsHistory(c, h) && !h.removeEmpty && outs == Answers(h)
    requires ka <= kb < |h.es| && h.es[kb].listing.Some? && gname in outs[ka]
    ensures gname in outs[kb]
    ensures forall k | ReadingsGrow(h.es, h.ts, |h.es|, gname, k)
            && Total(BookAt(h.es, h.ts, |h.es|), gname).FitsAt(k) ::
              outs[ka][gname].counts.Of(k) <= outs[kb][gname].counts.Of(k)
  {
    HistoryAnswers(c, h);
    CountersNeverDecrease(c, h.es, h.ts, h.us, h.gs, outs, ka, kb, |h.es|, gname);
  }

  lemma LaterUpdateAnswersMore(c: Config, h: Updates, ka: nat, kb: nat, outA: seq<Metric>, outB: seq<Metric>,
                               gname: string, group: G.Group) returns (later: G.Group)
    requires IsHistory(c, h) && !h.removeEmpty
    requires ka <= kb < |h.es| && h.es[kb].listing.Some?
    requires IsOutput(h, ka, outA) && IsOutput(h, kb, outB) && Reports(outA, gname, group)
    ensures Reports(outB, gname, later)
    ensures forall k | ReadingsGrow(h.es, h.ts, |h.es|, gname, k)
            && Total(BookAt(h.es, h.ts, |h.es|), gname).FitsAt(k) ::
              group.counts.Of(k) <= later.counts.Of(k)
  {
    var outs := Answers(h);
    OutputOfGroup(h, ka, outA, gname, group);
    LaterCounters(c, h, outs, ka, kb, gname);
    later := outs[kb][gname];
    OutputOfGroup(h, kb, outB, gname, later);
  }

  lemma {:induction false} ServedInOrder(c: Config, ss: seq<Protocol>, steps: seq<Step>, i: nat, j: nat, a: nat, b: nat)
    returns (ka: nat, kb: nat)
    requires Behaviour(c, ss, steps) && i <= j < |ss|
    requires a in ss[i].calls && ss[i].calls[a] == Returned && b !in ss[i].calls
    requires b in ss[j].calls && ss[j].calls[b] == Returned
    ensures var s := ss[j];
      && IsHistory(c, s.updates)
      && ka < kb && |s.updates.es| > kb && a in s.got && b in s.got
      && IsOutput(s.updates, ka, s.got[a]) && IsOutput(s.updates, kb, s.got[b])
  {
    ReachedHistory(c, ss, steps, j);
    LogGrows(c, ss, steps, i, j);
    var k := ReturnedGotOneScrape(c, ss, steps, j, a);
    var l := ReturnedGotOneScrape(c, ss, steps, j, b);
    EarlierCallEarlierUpdate(c, ss, steps, i, j, a, b, k, l);
    ka, kb := k + 1, l + 1;
  }

  // A scraper that calls Collect again after an earlier call returned never sees a group vanish, when empty
  // groups are kept and neither call hit a failed listing; and a counter of the group is no smaller than
  // before, when no process of the group was observed with less of it and its total is one 64 bits can hold.
  lemma {:induction false} ScrapesNeverGoBack(c: Config, ss: seq<Protocol>, steps: seq<Step>, i: nat, j: nat, a: nat,
                                              b: nat, gname: string, group: G.Group) returns (later: G.Group)
    requires Behaviour(c, ss, steps) && i <= j < |ss|
    requires a in ss[i].calls && ss[i].calls[a] == Returned && b !in ss[i].calls
    requires b in ss[j].calls && ss[j].calls[b] == Returned
    requires a in ss[j].got && b in ss[j].got && Reports(ss[j].got[a], gname, group)
    requires !ss[j].updates.removeEmpty
    requires forall k | 0 <= k < |ss[j].updates.es| &&
               (IsOutput(ss[j].updates, k, ss[j].got[a]) || IsOutput(ss[j].updates, k, ss[j].got[b])) ::
               ss[j].updates.es[k].listing.Some?
    ensures Reports(ss[j].got[b], gname, later)
    ensures |ss[j].updates.ts| == |ss[j].updates.es| + 1
    ensures var h := ss[j].updates;
      forall k | ReadingsGrow(h.es, h.ts, |h.es|, gname, k) && Total(BookAt(h.es, h.ts, |h.es|), gname).FitsAt(k) ::
        group.counts.Of(k) <= later.counts.Of(k)
  {
    var ka, kb := ServedInOrder(c, ss, steps, i, j, a, b);
    later := LaterUpdateAnswersMore(c, ss[j].updates, ka, kb, ss[j].got[a], ss[j].got[b], gname, group);
  }
}
