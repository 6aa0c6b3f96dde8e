/** Go's random map iteration decides the order in which the tracker reports processes, lists their
    threads, and walks the unmatched ones. None of it shows in what the grouper answers. */
module OrderFree {
  import opened Wrappers
  import opened Counters
  import opened Process
  import opened Collections
  import opened TrackerSpec
  import opened TrackerRuns
  import opened Reports
  import opened GroupSpec
  import opened GrouperSpec
  import C = Conservation

  // ---------------------------------------------------------------- two reports of one process

  function Entry(threads: ThreadMap, tid: ThreadID): multiset<ThreadUpdate> {
    if tid in threads then multiset{ThreadUpdate(threads[tid].name, threads[tid].latest)} else multiset{}
  }

  function AddEntry(threads: ThreadMap): (multiset<ThreadUpdate>, ThreadID) -> multiset<ThreadUpdate> {
    (m: multiset<ThreadUpdate>, tid: ThreadID) => m + Entry(threads, tid)
  }

  lemma {:induction false} ListedThreads(threads: ThreadMap, tids: seq<ThreadID>, us: seq<ThreadUpdate>)
    requires |us| == |tids|
    requires forall i | 0 <= i < |us| ::
               tids[i] in threads && us[i] == ThreadUpdate(threads[tids[i]].name, threads[tids[i]].latest)
    ensures multiset(us) == Fold(AddEntry(threads), multiset{}, tids)
  {
    if us != [] {
      ListedThreads(threads, tids[..|tids| - 1], us[..|us| - 1]);
      assert us == us[..|us| - 1] + [us[|us| - 1]];
    }
  }

  lemma AddEntryCommutes(threads: ThreadMap)
    ensures Commutes(AddEntry(threads), (m: multiset<ThreadUpdate>) => m, (tid: ThreadID) => true)
  {
    forall m: multiset<ThreadUpdate>, a: ThreadID, b: ThreadID
      ensures AddEntry(threads)(AddEntry(threads)(m, a), b) == AddEntry(threads)(AddEntry(threads)(m, b), a)
    {
      UnionSwaps(m, Entry(threads, a), Entry(threads, b));
    }
  }

  lemma UnionSwaps<T>(m: multiset<T>, a: multiset<T>, b: multiset<T>)
    ensures m + a + b == m + b + a
  {
  }

  lemma ThreadListsAgree(threads: ThreadMap, tids: seq<ThreadID>, us: seq<ThreadUpdate>, tids': seq<ThreadID>,
                         us': seq<ThreadUpdate>)
    requires ListsThreads(threads, tids, us) && ListsThreads(threads, tids', us')
    ensures multiset(us) == multiset(us')
  {
    ListedThreads(threads, tids, us);
    ListedThreads(threads, tids', us');
    OrderingsAgree(tids, tids', threads.Keys);
    AddEntryCommutes(threads);
    FoldIgnoresOrder(AddEntry(threads), multiset{}, (m: multiset<ThreadUpdate>) => m, (tid: ThreadID) => true,
                     tids, tids');
  }

  ghost predicate SameReport(u: Update, v: Update) {
    u.(threads := []) == v.(threads := []) && multiset(u.threads) == multiset(v.threads)
  }

  lemma ReportsOfOneAgree(p: ProcState, u: Update, v: Update)
    requires IsUpdate(p, u) && IsUpdate(p, v)
    ensures SameReport(u, v)
  {
    var threads := ReportedThreads(p);
    forall w ensures w in u.wchans <==> w in v.wchans {
      assert w in u.wchans <==> WchanCount(p, threads, w) > 0;
    }
    forall w | w in u.wchans ensures u.wchans[w] == v.wchans[w] {
      assert u.wchans[w] == WchanCount(p, threads, w);
    }
    assert u.wchans == v.wchans;
    var tids :| ListsThreads(threads, tids, u.threads);
    var tids' :| ListsThreads(threads, tids', v.threads);
    ThreadListsAgree(threads, tids, u.threads, tids', v.threads);
  }

  // ---------------------------------------------------------------- two reports of one state

  // Both lists report the same processes; m is one report of each.
  ghost predicate Presents(m: map<ID, Update>, ids: seq<ID>, us: seq<Update>) {
    && Ordering(ids, m.Keys)
    && |us| == |ids|
    && forall i | 0 <= i < |us| :: SameReport(us[i], m[ids[i]])
  }

  lemma SomePresentation(t: TState, ids: seq<ID>, us: seq<Update>, ids': seq<ID>, us': seq<Update>)
    returns (m: map<ID, Update>)
    requires ReportsAll(t, ids, us) && ReportsAll(t, ids', us')
    ensures Presents(m, ids, us) && Presents(m, ids', us')
    ensures forall id | id in m :: id in LiveIds(t) && m[id].start == t.tracked[id].value.stat.startTime
  {
    m := map id | id in LiveIds(t) :: us[IndexIn(ids, id)];
    forall i | 0 <= i < |us| ensures SameReport(us[i], m[ids[i]]) {
      assert IndexIn(ids, ids[i]) == i;
    }
    forall i | 0 <= i < |us'| ensures SameReport(us'[i], m[ids'[i]]) {
      var j := IndexIn(ids, ids'[i]);
      ReportsOfOneAgree(t.tracked[ids'[i]].value, us'[i], us[j]);
    }
  }

  function AddNamed(m: map<ID, Update>): (Group, ID) -> Group {
    (g: Group, id: ID) => if id in m then GroupAdd(g, m[id]) else g
  }

  function NameIn(m: map<ID, Update>): ID -> string {
    (id: ID) => if id in m then m[id].groupName else ""
  }

  function OkIn(m: map<ID, Update>): ID -> bool {
    (id: ID) => id in m && m[id].start != NO_TIME
  }

  lemma AddIgnoresThreads(g: Group, u: Update, v: Update)
    requires SameReport(u, v)
    ensures GroupAdd(g, u) == GroupAdd(g, v) && u.groupName == v.groupName
  {
    assert u.(threads := []).groupName == u.groupName && u.(threads := []).wchans == u.wchans;
  }

  lemma AggregatePresented(m: map<ID, Update>, ids: seq<ID>, us: seq<Update>)
    requires Presents(m, ids, us)
    ensures AggregateAll(us) == FoldByKey(AddNamed(m), NO_GROUP, NameIn(m), ids)
  {
    forall i | 0 <= i < |us| ensures NameOf(us[i]) == NameIn(m)(ids[i]) {
      AddIgnoresThreads(NO_GROUP, us[i], m[ids[i]]);
    }
    forall g, i | 0 <= i < |us| ensures GroupAdd(g, us[i]) == AddNamed(m)(g, ids[i]) {
      AddIgnoresThreads(g, us[i], m[ids[i]]);
    }
    FoldByKeyOfMapped(GroupAdd, NO_GROUP, NameOf, us, AddNamed(m), NameIn(m), ids);
  }

  lemma AddNamedCommutes(m: map<ID, Update>)
    ensures Commutes(AddNamed(m), Visible, OkIn(m))
  {
    GroupAddIgnoresOrder();
    forall g, a: ID, b: ID | OkIn(m)(a) && OkIn(m)(b)
      ensures Visible(AddNamed(m)(AddNamed(m)(g, a), b)) == Visible(AddNamed(m)(AddNamed(m)(g, b), a))
    {
      GroupAddCommutes(g, m[a], m[b]);
    }
    forall g, h, a: ID | Visible(g) == Visible(h) ensures Visible(AddNamed(m)(g, a)) == Visible(AddNamed(m)(h, a)) {
      if a in m { GroupAddSeesVisible(g, h, m[a]); }
    }
  }

  lemma GroupsAgree(m: map<ID, Update>, ids: seq<ID>, us: seq<Update>, ids': seq<ID>, us': seq<Update>, gname: string)
    requires Presents(m, ids, us) && Presents(m, ids', us')
    requires forall id | id in m :: m[id].start != NO_TIME
    ensures gname in AggregateAll(us) <==> gname in AggregateAll(us')
    ensures gname in AggregateAll(us) ==> Visible(AggregateAll(us)[gname]) == Visible(AggregateAll(us')[gname])
  {
    AggregatePresented(m, ids, us);
    AggregatePresented(m, ids', us');
    AddNamedCommutes(m);
    OrderingsAgree(ids, ids', m.Keys);
    assert forall id | id in ids :: id in m.Keys;
    FoldByKeyIgnoresOrder(AddNamed(m), NO_GROUP, Visible, OkIn(m), NameIn(m), ids, ids', gname);
  }

  // ---------------------------------------------------------------- threads

  function BatchEntry(m: map<ID, Update>, gname: string, id: ID): multiset<ThreadUpdate> {
    if id in m && m[id].groupName == gname then multiset(m[id].threads) else multiset{}
  }

  function AddBatch(m: map<ID, Update>, gname: string): (multiset<ThreadUpdate>, ID) -> multiset<ThreadUpdate> {
    (b: multiset<ThreadUpdate>, id: ID) => b + BatchEntry(m, gname, id)
  }

  lemma {:induction false} BatchPresented(m: map<ID, Update>, ids: seq<ID>, us: seq<Update>, gname: string)
    requires |us| == |ids| && forall i | 0 <= i < |us| :: ids[i] in m && SameReport(us[i], m[ids[i]])
    ensures multiset(Batch(us, gname)) == Fold(AddBatch(m, gname), multiset{}, ids)
  {
    if us != [] {
      BatchPresented(m, ids[..|ids| - 1], us[..|us| - 1], gname);
      AddIgnoresThreads(NO_GROUP, us[|us| - 1], m[ids[|ids| - 1]]);
    }
  }

  lemma AddBatchCommutes(m: map<ID, Update>, gname: string)
    ensures Commutes(AddBatch(m, gname), (b: multiset<ThreadUpdate>) => b, (id: ID) => true)
  {
    forall b: multiset<ThreadUpdate>, x: ID, y: ID
      ensures AddBatch(m, gname)(AddBatch(m, gname)(b, x), y) == AddBatch(m, gname)(AddBatch(m, gname)(b, y), x)
    {
      UnionSwaps(b, BatchEntry(m, gname, x), BatchEntry(m, gname, y));
    }
  }

  lemma BatchesAgree(m: map<ID, Update>, ids: seq<ID>, us: seq<Update>, ids': seq<ID>, us': seq<Update>, gname: string)
    requires Presents(m, ids, us) && Presents(m, ids', us')
    ensures multiset(Batch(us, gname)) == multiset(Batch(us', gname))
  {
    BatchPresented(m, ids, us, gname);
    BatchPresented(m, ids', us', gname);
    OrderingsAgree(ids, ids', m.Keys);
    AddBatchCommutes(m, gname);
    FoldIgnoresOrder(AddBatch(m, gname), multiset{}, (b: multiset<ThreadUpdate>) => b, (id: ID) => true, ids, ids');
  }

  function SeenThreads(t: NamedThreads): (int, Counts) {
    (t.numThreads, t.counts)
  }

  lemma ThreadAddCommutes()
    ensures Commutes(ThreadAdd, SeenThreads, (u: ThreadUpdate) => true)
  {
    forall t, a, b ensures SeenThreads(ThreadAdd(ThreadAdd(t, a), b)) == SeenThreads(ThreadAdd(ThreadAdd(t, b), a)) {
      CountsCommute(t.counts, a.latest, b.latest);
    }
  }

  lemma TotalsAreNamed(batch: seq<ThreadUpdate>, name: string)
    requires name in ThreadTotals(batch)
    ensures ThreadTotals(batch)[name].name == name
  {
    FoldByKeyIsFold(ThreadAdd, NO_THREADS, ThreadName, batch, name);
    var mine := Having(ThreadName, batch, name);
    HavingKeepsMembers(ThreadName, batch, name, mine[|mine| - 1]);
  }

  lemma TotalsAgree(batch: seq<ThreadUpdate>, batch': seq<ThreadUpdate>)
    requires multiset(batch) == multiset(batch')
    ensures ThreadTotals(batch) == ThreadTotals(batch')
  {
    var a, b := ThreadTotals(batch), ThreadTotals(batch');
    ThreadAddCommutes();
    forall name ensures Lookup(a, name) == Lookup(b, name) {
      FoldByKeyIgnoresOrder(ThreadAdd, NO_THREADS, SeenThreads, (u: ThreadUpdate) => true, ThreadName,
                            batch, batch', name);
      if name in a {
        TotalsAreNamed(batch, name);
        TotalsAreNamed(batch', name);
      }
    }
    SameLookups(a, b);
  }

  // ---------------------------------------------------------------- the grouper's step

  ghost predicate AllStarted(t: TState) {
    forall id | id in LiveIds(t) :: t.tracked[id].value.stat.startTime != NO_TIME
  }

  // However the reports of a state are ordered, Update answers the same groups and remembers the same history.
  lemma GrouperIgnoresOrder(removeEmpty: bool, st: GState, t: TState, ids: seq<ID>, us: seq<Update>, ids': seq<ID>,
                            us': seq<Update>)
    requires ReportsAll(t, ids, us) && ReportsAll(t, ids', us') && AllStarted(t)
    ensures NextGState(removeEmpty, st, us) == NextGState(removeEmpty, st, us')
    ensures SameGroups(Groups(removeEmpty, st, us), Groups(removeEmpty, st, us'))
  {
    var m := SomePresentation(t, ids, us, ids', us');
    forall g
      ensures Lookup(NextGroupAccum(removeEmpty, st, us), g) == Lookup(NextGroupAccum(removeEmpty, st, us'), g)
      ensures Lookup(NextThreadAccum(removeEmpty, st, us), g) == Lookup(NextThreadAccum(removeEmpty, st, us'), g)
      ensures SameGroup(Lookup(Groups(removeEmpty, st, us), g), Lookup(Groups(removeEmpty, st, us'), g))
    {
      GroupIgnoresOrder(removeEmpty, st, m, ids, us, ids', us', g);
    }
    SameLookups(NextGroupAccum(removeEmpty, st, us), NextGroupAccum(removeEmpty, st, us'));
    SameLookups(NextThreadAccum(removeEmpty, st, us), NextThreadAccum(removeEmpty, st, us'));
  }

  ghost predicate SameGroup(a: Option<Group>, b: Option<Group>) {
    (a.Some? <==> b.Some?) && (a.Some? ==> Visible(a.value) == Visible(b.value))
  }

  ghost predicate SameGroups(a: map<string, Group>, b: map<string, Group>) {
    forall g :: SameGroup(Lookup(a, g), Lookup(b, g))
  }

  lemma GroupIgnoresOrder(removeEmpty: bool, st: GState, m: map<ID, Update>, ids: seq<ID>, us: seq<Update>,
                          ids': seq<ID>, us': seq<Update>, g: string)
    requires Presents(m, ids, us) && Presents(m, ids', us')
    requires forall id | id in m :: m[id].start != NO_TIME
    ensures Lookup(NextGroupAccum(removeEmpty, st, us), g) == Lookup(NextGroupAccum(removeEmpty, st, us'), g)
    ensures Lookup(NextThreadAccum(removeEmpty, st, us), g) == Lookup(NextThreadAccum(removeEmpty, st, us'), g)
    ensures SameGroup(Lookup(Groups(removeEmpty, st, us), g), Lookup(Groups(removeEmpty, st, us'), g))
  {
    LooksUp(removeEmpty, st, us, g);
    LooksUp(removeEmpty, st, us', g);
    GroupsAgree(m, ids, us, ids', us', g);
    BatchesAgree(m, ids, us, ids', us', g);
    var b, b' := Batch(us, g), Batch(us', g);
    TotalsAgree(b, b');
    assert |b| == |multiset(b)| && |b'| == |multiset(b')|;
    assert ThreadStep(Lookup(st.threadAccum, g), b) == ThreadStep(Lookup(st.threadAccum, g), b');
    if g in AggregateAll(us) {
      PresentIgnoresOrder(st, AggregateAll(us)[g], AggregateAll(us')[g], g, b, b');
    }
  }

  lemma PresentIgnoresOrder(st: GState, now: Group, now': Group, g: string, b: seq<ThreadUpdate>, b': seq<ThreadUpdate>)
    requires Visible(now) == Visible(now')
    requires ThreadsNow(st, g, b) == ThreadsNow(st, g, b')
    ensures Accumulate(st, now, g) == Accumulate(st, now', g)
    ensures Visible(Present(st, now, g, b)) == Visible(Present(st, now', g, b'))
  {
    assert now.counts == Visible(now).counts == Visible(now').counts == now'.counts;
  }

  // ---------------------------------------------------------------- whole runs

  // Two runs of the exporter over the same listings and clock readings answer the same groups in every
  // Update, whatever orders their map iterations choose (no rule names a group "", start times known).
  lemma {:induction false} RunsAnswerAlike(c: Config, removeEmpty: bool,
                                           es: seq<Event>, ts: seq<TState>, us: seq<seq<Update>>, gs: seq<GState>,
                                           es': seq<Event>, ts': seq<TState>, us': seq<seq<Update>>, gs': seq<GState>,
                                           i: nat)
    requires C.GroupRun(c, removeEmpty, es, ts, us, gs) && C.GroupRun(c, removeEmpty, es', ts', us', gs')
    requires |es| == |es'| && forall k | 0 <= k < |es| :: es[k].listing == es'[k].listing && es[k].clock == es'[k].clock
    requires NeverBlank(c) && forall k | 0 <= k < |ts| :: AllStarted(ts[k])
    requires i < |ts|
    ensures gs[i] == gs'[i]
    ensures i < |es| && es[i].listing.Some? ==>
              SameGroups(Groups(removeEmpty, gs[i], us[i]), Groups(removeEmpty, gs'[i], us'[i]))
  {
    if i > 0 {
      RunsAnswerAlike(c, removeEmpty, es, ts, us, gs, es', ts', us', gs', i - 1);
      StepAnswersAlike(c, removeEmpty, es, ts, us, gs, es', ts', us', gs', i - 1);
    }
    if i < |es| {
      StepAnswersAlike(c, removeEmpty, es, ts, us, gs, es', ts', us', gs', i);
    }
  }

  lemma {:induction false} StepAnswersAlike(c: Config, removeEmpty: bool, es: seq<Event>, ts: seq<TState>,
                                            us: seq<seq<Update>>, gs: seq<GState>, es': seq<Event>, ts': seq<TState>,
                                            us': seq<seq<Update>>, gs': seq<GState>,
                                           i: nat)
    requires C.GroupRun(c, removeEmpty, es, ts, us, gs) && C.GroupRun(c, removeEmpty, es', ts', us', gs')
    requires |es| == |es'| && forall k | 0 <= k < |es| :: es[k].listing == es'[k].listing && es[k].clock == es'[k].clock
    requires NeverBlank(c) && forall k | 0 <= k < |ts| :: AllStarted(ts[k])
    requires i < |es| && gs[i] == gs'[i]
    ensures gs[i + 1] == gs'[i + 1]
    ensures es[i].listing.Some? ==> SameGroups(Groups(removeEmpty, gs[i], us[i]), Groups(removeEmpty, gs'[i], us'[i]))
  {
    RunsAgree(c, es, ts, es', ts', i + 1);
    assert C.GroupStep(removeEmpty, es[i], ts[i + 1], us[i], gs[i], gs[i + 1]);
    assert C.GroupStep(removeEmpty, es'[i], ts'[i + 1], us'[i], gs'[i], gs'[i + 1]);
    if es[i].listing.Some? {
      var ids :| ReportsAll(ts[i + 1], ids, us[i]);
      var ids' :| ReportsAll(ts'[i + 1], ids', us'[i]);
      GrouperIgnoresOrder(removeEmpty, gs[i], ts[i + 1], ids, us[i], ids', us'[i]);
    }
  }
}
