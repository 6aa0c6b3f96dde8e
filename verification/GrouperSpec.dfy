/** The grouper's history (`groups` and `threads` in `proc/grouper.go`) as functions on values. */
module GrouperSpec {
  import opened Wrappers
  import opened Counters
  import opened Collections
  import opened Reports
  import opened GroupSpec

  type History = map<string, NamedThreads>

  datatype GState = GState(groupAccum: map<string, Counts>, threadAccum: map<string, History>)

  const EMPTY_GROUPS: GState := GState(map[], map[])

  // ---------------------------------------------------------------- threads of one group

  const NO_THREADS: NamedThreads := NamedThreads("", 0, NO_COUNTS)

  function ThreadName(u: ThreadUpdate): string {
    u.threadName
  }

  function ThreadAdd(t: NamedThreads, u: ThreadUpdate): NamedThreads {
    NamedThreads(u.threadName, t.numThreads + 1, t.counts.Add(u.latest))
  }

  function ThreadTotals(batch: seq<ThreadUpdate>): History {
    FoldByKey(ThreadAdd, NO_THREADS, ThreadName, batch)
  }

  function Recall(now: NamedThreads, history: History, name: string): NamedThreads {
    if name in history then now.(counts := now.counts.Add(history[name].counts)) else now
  }

  function WithHistory(now: History, history: History): History {
    map name | name in now :: Recall(now[name], history, name)
  }

  // One call of `threads`: the new history of the group, None when it is deleted.
  function ThreadStep(history: Option<History>, batch: seq<ThreadUpdate>): Option<History> {
    if batch == [] then None
    else Some(WithHistory(ThreadTotals(batch), match history case Some(h) => h case None => map[]))
  }

  // ---------------------------------------------------------------- all groups

  // The thread updates of a group, in the order of the reports.
  function Batch(us: seq<Update>, gname: string): seq<ThreadUpdate> {
    if us == [] then [] else
    var front, u := Batch(us[..|us| - 1], gname), us[|us| - 1];
    if u.groupName == gname then front + u.threads else front
  }

  // What was just observed plus everything accumulated before.
  function Accumulate(st: GState, now: Group, gname: string): Counts {
    if gname in st.groupAccum then now.counts.Add(st.groupAccum[gname]) else now.counts
  }

  function ThreadsNow(st: GState, gname: string, batch: seq<ThreadUpdate>): Option<History> {
    ThreadStep(Lookup(st.threadAccum, gname), batch)
  }

  function Present(st: GState, now: Group, gname: string, batch: seq<ThreadUpdate>): Group {
    now.(counts := Accumulate(st, now, gname),
         threads := match ThreadsNow(st, gname, batch) case Some(h) => h.Values case None => {})
  }

  // Groups seen before that have no process now; only with removeEmptyGroups are they forgotten.
  function Absent(st: GState, now: map<string, Group>): set<string> {
    st.groupAccum.Keys - now.Keys
  }

  function Kept(removeEmpty: bool, st: GState, now: map<string, Group>): set<string> {
    if removeEmpty then {} else Absent(st, now)
  }

  function Groups(removeEmpty: bool, st: GState, us: seq<Update>): map<string, Group> {
    var now := AggregateAll(us);
    map gname | gname in now.Keys + Kept(removeEmpty, st, now) ::
      if gname in now then Present(st, now[gname], gname, Batch(us, gname))
      else NO_GROUP.(counts := if gname in st.groupAccum then st.groupAccum[gname] else NO_COUNTS)
  }

  function NextGroupAccum(removeEmpty: bool, st: GState, us: seq<Update>): map<string, Counts> {
    var now := AggregateAll(us);
    map gname | gname in now.Keys + Kept(removeEmpty, st, now) ::
      if gname in now then Accumulate(st, now[gname], gname)
      else if gname in st.groupAccum then st.groupAccum[gname] else NO_COUNTS
  }

  // The history a group has after the cycle.
  function NextHistory(removeEmpty: bool, st: GState, us: seq<Update>, gname: string): Option<History> {
    var now := AggregateAll(us);
    if gname in now then ThreadsNow(st, gname, Batch(us, gname))
    else if removeEmpty && gname in st.groupAccum then None
    else Lookup(st.threadAccum, gname)
  }

  function NextThreadAccum(removeEmpty: bool, st: GState, us: seq<Update>): map<string, History> {
    map gname | gname in st.threadAccum.Keys + AggregateAll(us).Keys && NextHistory(removeEmpty, st, us, gname).Some? ::
      NextHistory(removeEmpty, st, us, gname).value
  }

  function NextGState(removeEmpty: bool, st: GState, us: seq<Update>): GState {
    GState(NextGroupAccum(removeEmpty, st, us), NextThreadAccum(removeEmpty, st, us))
  }

  lemma LooksUp(removeEmpty: bool, st: GState, us: seq<Update>, g: string)
    ensures var now := AggregateAll(us);
      && Lookup(Groups(removeEmpty, st, us), g) ==
           (if g in now then Some(Present(st, now[g], g, Batch(us, g)))
            else if g in st.groupAccum && !removeEmpty then Some(NO_GROUP.(counts := st.groupAccum[g]))
            else None)
      && Lookup(NextGroupAccum(removeEmpty, st, us), g) ==
           (if g in now then Some(Accumulate(st, now[g], g))
            else if g in st.groupAccum && !removeEmpty then Some(st.groupAccum[g])
            else None)
      && Lookup(NextThreadAccum(removeEmpty, st, us), g) == NextHistory(removeEmpty, st, us, g)
  {
  }
}
