# process-exporter, verified

A Dafny model of the parts of process-exporter that keep state and make promises about it, with
proofs of those promises. It covers

- the **tracker** (`proc/tracker.go`): which processes are tracked, ignored or dropped from one scan of
  /proc to the next, what they are called, and the counter increments reported for them;
- the **grouper** (`proc/grouper.go`): the accumulated counters per group and per thread name;
- **pattern expansion** over the cgroup hierarchy (`cgroup/reader.go`) and the two counters of the cgroup
  collector (`collector/cgroup_collector.go`);
- the **scrape protocol** between concurrent `Collect` calls and the one server goroutine
  (`collector/process_collector.go`);
- the **naming rules** (`config/config.go`) and the **stat file parsers** (`cgroup/stat.go`).

`dafny verify dfyconfig.toml` checks everything.

## How it is built

Code that updates things in place is modelled in place: `Tracking.TrackedProc`, `Tracking.Tracker`,
`Grouping.Grouper`, `Process.ProcIterator`, `CgroupCollection.CgroupCollector`,
`NamingRules.CmdlineMatcher`, `NamingRules.MatchNamer` and `Collector.NamedProcessCollector` are classes
with the source's fields and loops. A loop over a Go map takes its keys in an arbitrary order. Each method
is proved to have exactly the effect of a function on values (`TrackerSpec`, `Ancestry`, `TrackerUpdate`,
`GroupSpec`, `GrouperSpec`, `ExpandSpec`), and the properties of whole runs are proved about those
functions. Choices left to Go's map iteration are ghost results of the methods (`order`, `ids`, `us`), and
the theorems hold for all of them.

- One **listing** of /proc is a sequence of `Row`s, each holding what the reads of one directory answered
  (`None` for a failed read), or no listing at all. Listings hold one row per pid; `TwoRowsPerPidBreakIndex`
  shows what would happen otherwise.
- A **run** (`TrackerRuns.Run`, `Conservation.GroupRun`) is any sequence of listings, failed ones
  included, with clock readings that grow from one Update to the next.
- **Counters** wrap at 2^64 as in the source. A `Tally` is the same record over the unbounded integers, and
  exact sums are stated with it.
- The **book** of tracking episodes (`Ledger.BookAt`) is the independent account the grouper's counters are
  compared with. Every count in it is one that a listing showed, and so is the first reading of the clock that
  decides whether an episode starts from zero; of the tracker's states it uses only who is live under which name.
- What a state or an answer must show is also said **in the listing's own fields**, without the functions
  the operations are made of: `Observations` (live processes, names and inherited groups),
  `ThreadAccounting.ThreadsAsListed` (threads), `GroupAnswers` (every field of every group returned) and
  `Expand.ExpandsToDirectories`.

## Results worth knowing

- *Counters never decrease*, the comment in `proc/grouper.go:131-138` says. What Update returns is the exact
  gain of a group's processes seen modulo 2^64 (`CountersBalance`; with `removeEmptyGroups`, the gain since
  the group was last empty, `CountersSinceAbsent`). So, as long as the exact value is one 64 bits can hold, a
  counter goes down between two Updates exactly when the exact value did (`CounterOrderIff`), and from one
  Update to the next exactly when the group's processes were together observed with less than before
  (`CounterFallsIff`). It never goes down (`CountersNeverDecrease`) with three premises the comment does not
  state, each about one counter of one group: `removeEmptyGroups` is off, no process of the group is observed
  with less of that counter than before, and the total stays below 2^64. `Falls` has a run for each premise
  in which leaving it out makes the returned counter go down: a thread that exits takes its context switches
  with it (`ThreadExitLowersGroup`), a total passes 2^64 (`OverflowLowersGroup`), a group is empty in between
  (`RemovalLowersGroup`).
- *Group inheritance* is independent of map order exactly when no empty group name is inherited over
  another unmatched new process (`OrderIsIrrelevantIff`): `checkAncestry` answers `""` both for "no tracked
  ancestor" and for a tracked ancestor whose group is called `""`. A walk that takes parents before their
  children gets even those right (`SomeOrderReachesFinal`); `BlankNameNeedsAnOrder` is a case with two outcomes.
- `checkAncestry` *terminates* exactly when no new process is its own ancestor (`WalksEndIffAcyclic`);
  methods that call it require that, and `ParentCycleIsNotWalkable` is a listing that breaks it. Of the listings
  with one row per pid, those are the only ones a scrape does not get past (`UpdateRunsIff`).
- The `exe` selector is documented as an OR over its rules. The index built from it keeps one rule per base
  name, so the code agrees with the documentation exactly when no rule is followed by a different full path
  of the same base name (`IndexIsAnyRuleIff`). The list `postgres, /opt/bin/postgres` is such a case.
- The limit of `ExpandPattern` applies to partial matches: a pattern none of whose wildcards is rejected by
  `path.Match` is refused exactly when a wildcard level holds more than the limit, even if later segments
  would have left fewer paths (`TooManyIff`; `FailureIff` says which error any pattern ends in).
- The comment in `cgroup/reader.go:165-167` says the *root cgroup* is refused. Only a pattern without segments
  is. One that climbs with ".." as often as it descends, such as "/." or "/*/..", yields the root wherever
  it matches at all, and no other pattern does (`RootIsExpandedIff`, `DotMatchesTheRoot`).

## Model

| member | source | states |
|---|---|---|
| Counters.AddIsExactModulo | proc/read.go:210-219 | adding counters is exact addition seen modulo 2^64, whatever wrapped before |
| Process.ProcIterator.AllProcs | proc/read.go:619-625 | a failed listing gives an iterator with no rows that remembers the failure |
| Process.ProcIterator.Next | proc/read.go:638-646 | yields the remaining rows one by one and says when there are none |
| Process.ProcIterator.Close | proc/read.go:649-654 | reports the listing's failure and leaves no rows |
| Tracking.TrackedProc.constructor | proc/tracker.go:161-182 | a newly tracked process holds what was read of it, with its whole counts as increment if it began after the first Update, else with none; LiveIsAsListed says the same of whole runs in the fields of the rows |
| Tracking.TrackedProc.Update | proc/tracker.go:199-224 | the increment is the wrapped difference to the last counts; the thread map becomes that of the threads just seen |
| Tracking.TrackedProc.MarkThreads | proc/tracker.go:209-215 | every seen thread is entered with its increase since it was last seen |
| Tracking.TrackedProc.DropUnmarked | proc/tracker.go:216-220 | only threads marked in this update stay, in whatever order the map is walked |
| Tracking.TrackedProc.GetUpdate | proc/tracker.go:121-145 | the report: the process's fields, its wait channels counted per process and thread, and every thread once if there is more than one |
| Tracking.Tracker.Track | proc/tracker.go:161-182 | exactly one entry of the tracked map changes |
| Tracking.Tracker.Ignore | proc/tracker.go:184-197 | the entry becomes nil unless -recheck spares it, for ever or as long as its own age check says |
| Tracking.Tracker.ReadMetrics | proc/tracker.go:270-277 | the loop over the threads computes what ObservedSwitches describes |
| ThreadAccounting.ObservedSwitches | proc/tracker.go:270-277 | with threads at hand, context switches are the sums over them modulo 2^64, their states are added, and nothing else changes |
| Tracking.Tracker.HandleProc | proc/tracker.go:231-304 | one row: ignored, updated, taken as new with its pid taken over, or skipped on a failed read |
| Tracking.Tracker.Scan | proc/tracker.go:314-321 | the rows of the iterator are handled in order and the new processes collected |
| Tracking.Tracker.Sweep | proc/tracker.go:332-342 | exactly the tracked processes not updated in this scan leave both maps |
| Tracking.Tracker.UpdateKnownProcs | proc/tracker.go:309-345 | scan and sweep, or an error without the sweep |
| Tracking.Tracker.CheckAncestry | proc/tracker.go:351-398 | the recursive in-place walk does to both maps what the function on values does, and terminates because the new processes above become fewer; InheritsByLineage says what it answers in parent pids and the index |
| Tracking.Tracker.MatchNew | proc/tracker.go:431-451 | new processes a rule wants are tracked under its name, the others kept by id |
| Tracking.Tracker.InheritGroups | proc/tracker.go:453-463 | step 2 in an arbitrary order of the unmatched processes, each with its own reading of the clock |
| Tracking.Tracker.ReportLive | proc/tracker.go:465-471 | every tracked process is reported exactly once, in an arbitrary order |
| Tracking.Tracker.Update | proc/tracker.go:421-472 | a whole Update: new state and reports, or an error with no reports; FirstUpdateIsRemembered, LiveIsAsListed, WantedIsTracked and UnwantedIsSettled say over whole runs what that state is |
| Ancestry.AboveShrinks | proc/tracker.go:379-381 | each recursive call of checkAncestry has strictly fewer new processes above it |
| Ancestry.WalksEndIffAcyclic | proc/tracker.go:351-398 | every walk through the new processes ends if and only if none is its own ancestor |
| Ancestry.WalkIsExact | proc/tracker.go:351-398 | the memoised walk answers the group of the nearest tracked ancestor, from any state step 2 passes through |
| Ancestry.InheritReachesFinal | proc/tracker.go:453-463 | step 2 settles each unmatched process by its ancestors as they were before it, in any order that walks no process inheriting the empty name before its parent |
| Ancestry.InheritanceIsExactIff | proc/tracker.go:351-398 | all orders end there if and only if no empty name is inherited over a new unmatched process |
| Ancestry.SomeOrderReachesFinal | proc/tracker.go:453-463 | whatever the names, some order ends there: parents before children |
| Ancestry.OrderIsIrrelevantIff | proc/tracker.go:351-398 | all orders of the map iteration agree if and only if no empty name is inherited over a new unmatched process |
| Ancestry.BlankNameNeedsAnOrder | proc/tracker.go:379-387 | a process named "", its child and its grandchild, for which two orders differ |
| Ancestry.ResolveIsNearestTracked | proc/tracker.go:347-350 | the inherited group is that of the tracked parent reached by climbing through new unmatched processes only |
| Ancestry.InheritsByLineage | proc/tracker.go:351-398 | a group is inherited exactly if a chain of new processes, each listed with the pid that the index maps to the next, leads to a process tracked under it; a parent pid missing from the index gives none |
| Ancestry.InheritOnlyAdds | proc/tracker.go:453-463 | whatever the names, step 2 changes no entry and adds only unmatched processes, ignored or freshly tracked |
| TrackerUpdate.ScanIsExact | proc/tracker.go:231-321 | what a scan leaves for every id and every pid, and which new processes it finds |
| TrackerUpdate.SweepIsExact | proc/tracker.go:332-342 | after the sweep a tracked process is there exactly if it was read; an ignored one exactly if nobody took its pid |
| TrackerUpdate.MatchIsExact | proc/tracker.go:431-451 | each new process is tracked under the rule's name or left unmatched, and nothing else changes |
| TrackerUpdate.IndexAfterMatch | proc/tracker.go:295-342 | the index in which step 2 looks parents up: the new process read under a pid, or else the one that was there and is not gone |
| TrackerUpdate.UpdateIsExact | proc/tracker.go:421-472 | what one Update leaves for every process id, case by case, relative to the state it began in |
| TrackerRuns.ReachableInvariant | proc/tracker.go:295-301 | in every reachable state procIds names each known process under its pid, so no two share one |
| TrackerRuns.LiveSetIsExact | proc/tracker.go:465-471 | reported processes were read in this very scan; live ones read again and new wanted ones are all reported |
| Observations.FirstUpdateIsRemembered | proc/tracker.go:422-424 | in every reachable state the time of the first Update is the first reading of the clock in the run, and no later Update moves it |
| Observations.LiveIsAsListed | proc/tracker.go:161-204 | over any run, a live process was listed; its metrics are those of its row, and if it is new so is all else, with its increment decided by the run's first reading of the clock |
| Observations.WantedIsTracked | proc/tracker.go:431-451 | a new process is shown to the rules with its own name, command line, user, cgroups, pid and start time, and tracked under the name they answer, or else (without -children) not at all |
| Observations.UnwantedIsSettled | proc/tracker.go:351-398 | with -children and non-empty names, over any run, a new process no rule wants is tracked under a group exactly if its lineage by parent pids leads there, and ignored exactly if none does and -recheck does not spare it at its age |
| TrackerRuns.LiveSetWithChildren | proc/tracker.go:453-471 | with -children, exactly which processes are live after an Update, and the group each inherited |
| TrackerRuns.GroupIsFixed | proc/tracker.go:60-63 | a process keeps its group name for its whole episode |
| TrackerRuns.IgnoredUntilTakenOver | proc/tracker.go:241-245 | an ignored process stays ignored exactly until another process is first read under its pid |
| TrackerRuns.NothingIsIgnored | proc/tracker.go:184-197 | with -recheck and no limit, or without -children, no reachable state holds a nil entry |
| TrackerRuns.UpdateReachesFinal | proc/tracker.go:421-472 | with non-empty names an Update does not depend on map order |
| TrackerRuns.RunsAgree | proc/tracker.go:453-463 | two runs over the same listings go through the same states whatever the map orders |
| TrackerRuns.TwoRowsPerPidBreakIndex | proc/tracker.go:295-301 | with a pid listed twice, both processes would be tracked and the index lost |
| TrackerRuns.ParentCycleIsNotWalkable | proc/tracker.go:351-398 | any two processes listed as each other's parent: the walk would not end |
| GroupSpec.AggregateCounts | proc/grouper.go:81-95 | a group's process number and its increments are those of its reports, the latter modulo 2^64 |
| GroupSpec.SizesAreSums | proc/grouper.go:82-94 | bytes, threads and open descriptors of a group are the sums over its reports modulo 2^64, an unknown number of descriptors counting none |
| GroupSpec.AggregateTallies | proc/grouper.go:96-106 | states and wait channels are plain sums over the reports |
| GroupSpec.OldestIsMinimum | proc/grouper.go:97-99 | the oldest start time is the minimum over the reports |
| GroupSpec.WorstIsMaximum | proc/grouper.go:90-93 | the worst descriptor ratio is the maximum of the ratios and 0, infinite for a limit of 0 |
| GroupSpec.CgroupVerdict | proc/grouper.go:108-126 | conflict is set exactly when two reports differ in path, and otherwise the path is the common one |
| GroupSpec.GroupsIgnoreOrder | proc/grouper.go:152-158 | permuting the reports changes no visible field of any group |
| Grouping.AddToGroup | proc/grouper.go:78-129 | the field-by-field update of a group has the effect of the function whose folds are characterised above |
| Grouping.Grouper.AggregateReports | proc/grouper.go:149-158 | the first loop: one group per name and the thread updates per name |
| Grouping.Grouper.AddAccumulated | proc/grouper.go:160-169 | the second loop: each present group is returned as the first loop left it, with its accumulated counts and threads, and the accumulators are set |
| Grouping.Grouper.AddAbsent | proc/grouper.go:171-181 | the third loop: absent groups are returned with their counts, or forgotten with removeEmptyGroups |
| Grouping.Grouper.Groups | proc/grouper.go:148-184 | the groups returned and the whole new history; GroupShowsItsReports and GroupShowsItsThreads say what each field of a group returned is |
| Grouping.Grouper.Threads | proc/grouper.go:186-222 | the thread totals of one group and its new history |
| GroupAnswers.GroupShowsItsReports | proc/grouper.go:152-168 | of every group returned: process number, sizes, states, wait channels, descriptors, worst ratio and oldest start are those of the reports of its name, and zero if there are none |
| GroupAnswers.GroupShowsItsThreads | proc/grouper.go:186-222 | of every group returned: one entry per thread name of its batch, with the number of such threads and their increases, added to the history of the name |
| GroupAnswers.AnswerShowsTheListing | proc/grouper.go:139-184 | over any run, every field but the counters of every group returned, in terms of the processes live under its name and what their rows of this very listing say |
| Grouping.Grouper.Update | proc/grouper.go:139-145 | a whole Update of tracker and history, or an error that leaves the history alone |
| Accounting.ReportIsGrowthModulo | proc/tracker.go:199-204 | what the tracker reports of a process is what its episode grew by, modulo 2^64 |
| Accounting.BalanceStep | proc/grouper.go:160-181 | one Update keeps every accumulator equal to the episodes' total modulo 2^64 |
| Conservation.CountersBalance | proc/grouper.go:131-184 | after any run, each group's counters are the sum over all episodes ever opened under it of the last listed counts minus the first ones (or 0, of a process started after the first Update), modulo 2^64 |
| Ledger.SuccessKeepsBook | proc/tracker.go:199-204 | the book kept from the listings is the one the tracker's states would give |
| Conservation.CountersSinceAbsent | proc/grouper.go:171-181 | with removeEmptyGroups, a group is remembered exactly while it has a process, with what its episodes gained since it last had none, modulo 2^64 |
| Conservation.AnswerIsDue | proc/grouper.go:160-181 | the counts Update returns are those exact gains modulo 2^64, under either setting |
| Conservation.CounterOrderIff | proc/grouper.go:131-138 | between any two Updates that return a group, each counter is ordered exactly as its exact value, below 2^64 |
| Conservation.CountsOrderIff | proc/grouper.go:131-138 | the same for all eight counters at once, with empty groups kept |
| Conservation.TotalMoves | proc/tracker.go:199-204 | a group's exact total moves by what the listing shows its processes gained in that Update |
| Conservation.CounterFallsIff | proc/grouper.go:131-138 | from one Update to the next a counter falls if and only if the group's processes were together observed with less, below 2^64 |
| Conservation.CountersNeverDecrease | proc/grouper.go:131-138 | with empty groups kept, a group once returned is always returned again, with no counter smaller that was not observed to go backwards in a process of that group, below 2^64; and the counter is the exact total |
| Conservation.ThreadExitLowersSwitches | proc/tracker.go:270-277 | the exit of a thread makes a process's observed context switches go down |
| Falls.ThreadExitLowersGroup | proc/grouper.go:131-138 | a run of two Updates in which the exit of one of three threads makes the group's returned counter go from 12 to 5 |
| Falls.OverflowLowersGroup | proc/grouper.go:131-138 | a run of two Updates, no reading going backwards, in which the returned counter passes 2^64 and is 0 |
| Falls.RemovalLowersGroup | proc/grouper.go:171-181 | a run of three Updates, no reading going backwards, in which a removed group starts over |
| ThreadAccounting.ThreadsAreObserved | proc/tracker.go:205-223 | the thread map holds exactly the threads just observed, with their increases |
| ThreadAccounting.ThreadsAsListed | proc/tracker.go:161-224 | over any run, the threads held of a live process are those its row lists, with their names, counts and wait channels, and with the increase since they were last held |
| ThreadAccounting.ThreadDeltasTelescope | proc/tracker.go:209-215 | over any part of any run in which a thread is kept, its increases add up to last minus first counts modulo 2^64 |
| ThreadAccounting.CycleTotals | proc/grouper.go:195-202 | the totals of one cycle per thread name |
| ThreadAccounting.ThreadCountsAddUp | proc/grouper.go:195-202 | the thread numbers over all names add up to the updates received |
| ThreadAccounting.ProcsAddUp | proc/grouper.go:152-158 | the process numbers over all groups add up to the reports |
| ThreadAccounting.ThreadTotalSinceDrop | proc/grouper.go:186-216 | a thread name's total is the sum of its increases since it was last missing from a cycle |
| ThreadAccounting.HistoryIsOfPresentCycles | proc/grouper.go:160-181 | over whole runs, a group's thread history is that of the cycles it was present in, with removeEmptyGroups of those since it was last absent |
| OrderFree.ReportsOfOneAgree | proc/tracker.go:136-143 | two reports of one process differ only in the order of their threads |
| OrderFree.GrouperIgnoresOrder | proc/grouper.go:148-222 | however a state is reported, the same groups are answered and the same history kept |
| OrderFree.RunsAnswerAlike | proc/grouper.go:139-145 | two runs over the same listings answer the same groups in every Update |
| Paths.SegmentsOfRender | cgroup/reader.go:159-164 | splitting a path made of segments gives the segments back |
| Paths.SegmentsAreBetweenSlashes | cgroup/reader.go:159-164 | every path is split at its slashes, and leading, trailing and doubled ones count nothing |
| Paths.AtMostIsLexicographic | cgroup/reader.go:214 | the order of the result is that of the first character in which two paths differ |
| ExpandSpec.LevelIsPartialMatch | cgroup/reader.go:172-204 | a level of the expansion is the set of paths whose segments so far are allowed by the pattern |
| ExpandSpec.MatchesAreDirectories | cgroup/reader.go:144-153 | without "." and "..", the matches are the existing directories of the pattern's length whose names match segment by segment: through path.Match where the segment holds '*', '?' or '[', and literally elsewhere |
| ExpandSpec.LevelIsBounded | cgroup/reader.go:154-157 | a level reached without an error holds at most max paths |
| ExpandSpec.FailureIff | cgroup/reader.go:188-202 | which error any pattern ends in: the limit error if and only if a level overflows with no wildcard rejected up to it, a malformed pattern if and only if a wildcard is rejected with no overflow before it |
| ExpandSpec.TooManyIff | cgroup/reader.go:199-202 | when path.Match rejects no wildcard of the pattern, the limit error occurs exactly when some wildcard level holds more than max partial matches |
| ExpandSpec.MatchIsRootIff | cgroup/reader.go:165-170 | a match is the root cgroup exactly when the pattern climbs as often as it descends, so never without "." and ".." |
| Expand.ChildDirs | cgroup/reader.go:119-142 | the sorted names of the child directories, or an error when the path cannot be opened |
| Expand.MatchChildren | cgroup/reader.go:182-197 | the matching children of one path are appended, or the malformed pattern reported |
| Expand.ExpandLevel | cgroup/reader.go:180-198 | one wildcard segment turns one level into the next, or is malformed |
| Expand.KeepDirs | cgroup/reader.go:206-213 | exactly the paths that are directories are kept, once each |
| Expand.ExpandPattern | cgroup/reader.go:158-216 | the expansion: exactly the matches, strictly sorted, at most max of them, or the first error; a pattern without segments is refused |
| Expand.ExpandsToDirectories | cgroup/reader.go:158-216 | without "." and "..", an expansion lists exactly the existing directories the pattern describes; a segment is for path.Match exactly if one of its characters is '*', '?' or '[', and compared literally otherwise |
| Expand.RootIsExpandedIff | cgroup/reader.go:165-170 | an expansion holds a path that opens the root exactly when it is not empty and the pattern climbs as often as it descends |
| CgroupCollection.CgroupCollector.constructor | collector/cgroup_collector.go:280-298 | both counters start at 0 and a limit of 0 means 200 |
| CgroupCollection.CgroupCollector.CollectGroup | collector/cgroup_collector.go:355-372 | a conflict is counted and skipped; no path and the root path are not read |
| CgroupCollection.CgroupCollector.CollectGroups | collector/process_collector.go:283-334 | in one scrape every readable group is read once, and skipped stays the number of conflicting groups over all scrapes |
| CgroupCollection.CgroupCollector.CollectPattern | collector/cgroup_collector.go:385-402 | a failing pattern is counted and reads nothing, another reads all its matches in order |
| CgroupCollection.CgroupCollector.CollectPaths | collector/cgroup_collector.go:384-403 | every pattern is expanded in the tree as it now is, and patternDropped stays the number of failed expansions over all scrapes |
| CgroupCollection.PathsAreRead | collector/cgroup_collector.go:384-403 | a path is read in a scrape exactly if some pattern that does not fail matches it |
| CgroupCollection.CgroupCollector.CollectSummary | collector/cgroup_collector.go:625-629 | the counters sent are those sums over every scrape so far |
| CgroupCollection.ScrapeReadsIff | collector/cgroup_collector.go:351-372 | of the groups an Update returns, those are skipped of which two processes differ in path, and those are read, under that path, of which all processes share one path that is neither empty nor the root |
| CgroupCollection.OneSortedList | cgroup/reader.go:214-215 | the expansion of a pattern is determined by its elements |
| Scrape.NextKeeps | collector/process_collector.go:262-274 | every step of the protocol keeps its invariant |
| Scrape.OneScrapeAtATime | collector/process_collector.go:268-274 | in any interleaving at most one call is being served |
| Scrape.ReturnedGotOneScrape | collector/process_collector.go:262-274 | a returned call received exactly one whole scrape and nothing else |
| Scrape.UpdateRunsIff | collector/process_collector.go:276-277 | among listings with one row per pid and a later clock, an accepted scrape goes on with exactly those that failed or whose process tree has no cycle |
| Scrape.NeverStuck | collector/process_collector.go:262-274 | while a call has not returned, some step can be taken; if it is the server's Update, it can be taken with any such listing |
| Scrape.WorkRunsOut | collector/process_collector.go:268-274 | every step but a new call brings the waiting calls nearer their return |
| Scrape.EarlierCallEarlierUpdate | collector/process_collector.go:262-274 | a call that starts after another returned is served by a later Update |
| Scrape.ScrapesNeverGoBack | collector/process_collector.go:276-312 | such a later call never sees a group vanish, nor one of its counters go down that was not observed to go backwards in a process of the group, below 2^64 |
| Collector.NamedProcessCollector.SendGroups | collector/process_collector.go:283-374 | every group is sent once, in an arbitrary order |
| Collector.NamedProcessCollector.Start | collector/process_collector.go:211-226 | the first Update; the server starts only if its listing succeeded |
| Collector.NamedProcessCollector.Scrape | collector/process_collector.go:276-389 | one scrape adds one Update to the history and sends exactly the output the protocol asks for it |
| Collector.ScrapeIsServersStep | collector/process_collector.go:268-274 | what the class does in one scrape is the server's step in the protocol |
| Matchers.BuildExeIndex | config/config.go:271-278 | later exe rules replace earlier ones of the same base name |
| Matchers.BaseIsLastElement | config/config.go:271-278 | the base name is the last element of a path, trailing slashes aside |
| Matchers.IndexAsksLastRule | config/config.go:136-150 | argv[0] is accepted exactly when the last rule of its base name accepts it |
| Matchers.IndexIsAnyRuleIff | config/config.go:270-279 | the index agrees with the documented OR on all command lines if and only if no rule is shadowed |
| NamingRules.CaptureIsFresh | config/config.go:163-165 | after a full match the capture map holds this process's captures and no others |
| NamingRules.CmdlineMatcher.Match | config/config.go:152-168 | the answer depends on this process alone, and a yes leaves exactly its captures |
| NamingRules.MatchNamer.Match | config/config.go:170-177 | all selectors must accept |
| NamingRules.MatchNamer.MatchAndName | config/config.go:97-129 | the name is the one given by the rule without memory |
| NamingRules.FirstMatchAndName | config/config.go:84-91 | after any history, the answer is that of the first rule that accepts the process |
| NamingRules.FirstNameIsFirst | config/config.go:84-91 | the name is that of the first listed rule that matches, and there is none exactly when none matches |
| NamingRules.NameIsRendered | config/config.go:97-129 | a rule names a process exactly if every selector accepts it, and the name is its template on the process's own name, executable, user, cgroups, pid, start time and captures, the last group of a name winning |
| NamingRules.LineJoins | config/config.go:152-168 | what the expressions are matched with is the words of the command line with a space between any two |
| StatText.ParseUintOfDecimal | cgroup/stat.go:61 | a printed number is read back, and one past 2^64 - 1 is rejected |
| StatText.ParseUintIff | cgroup/stat.go:61 | a text is the number n exactly if it is the decimal of n with any zeros before it, and n is below 2^64 |
| StatText.LinesOfText | cgroup/stat.go:51-53 | any text is read line by line, a carriage return before a newline dropped |
| StatText.TrimsBlanks | cgroup/stat.go:54 | white space is taken off both ends and nowhere else |
| StatText.FieldsAreWords | cgroup/stat.go:88 | a line is split into its words at white space of any length |
| StatParse.Uint64RoundTrip | cgroup/stat.go:14-23 | a value file is read back, and overflow rejected |
| StatParse.PidsMaxRoundTrip | cgroup/stat.go:31-44 | a limit, or none, is read back |
| StatParse.ValueIsTrimmed | cgroup/stat.go:14-44 | what either parser answers for any single word between white space |
| StatParse.ParseKeyed | cgroup/stat.go:49-71 | the map of the readable lines, later lines winning |
| StatParse.KeyedRoundTrip | cgroup/stat.go:46-71 | a map printed in any order is read back |
| StatParse.PaddedLineIsRead | cgroup/stat.go:54-64 | a line is read with any white space around its key and its number |
| StatParse.LastLineWins | cgroup/stat.go:66 | a key has exactly the value of the last line that can be read for it |
| StatParse.UnreadableLineIsSkipped | cgroup/stat.go:54-64 | a blank or unreadable line changes nothing, wherever it stands |
| StatParse.LineOrderDoesNotMatter | cgroup/stat.go:52-66 | lines with distinct keys may come in any order |
| StatParse.ParsePairs | cgroup/stat.go:96-107 | the counters of one device line |
| StatParse.ParseIOStat | cgroup/stat.go:84-114 | the map of devices, later lines winning |
| StatParse.IOStatRoundTrip | cgroup/stat.go:73-114 | a map of devices printed in any order is read back, empty entries included |
| StatParse.LastDeviceWins | cgroup/stat.go:87-108 | the same for devices, and for the counters within a line |
| StatParse.UnreadablePairIsSkipped | cgroup/stat.go:97-105 | an unreadable pair changes nothing, wherever it stands in its line |
| StatParse.BlankDeviceLineIsSkipped | cgroup/stat.go:88-91 | nor does a blank line |
| StatParse.DeviceOrderDoesNotMatter | cgroup/stat.go:87-108 | lines of different devices may come in any order |

## Left out

- Reading /proc and the cgroup files themselves, symbolic links, and a hierarchy that changes during one expansion: a listing and a tree are values, one per call.
- Floating point: CPU times are exact clock ticks, descriptor ratios exact rationals (infinite for a limit of 0).
- The clock readings of `ignore` are one per process and Update: a process that is spared may be walked again in the same Update and its age checked anew, and only the last check is modelled, since sparing changes nothing.
- The counts of read errors (`CollectErrors`) and the metrics made from them.
- Nil and empty slices and maps are not told apart; the source does so only to allocate.
- The slice of threads in a group is a set here, since its order is Go's map order and the names in it differ.
- `path.Match`, regular expressions, name templates and user lookup are functions the model takes as parameters.
- Compiling the rules of the configuration (bad expressions and templates) and YAML.
- A line longer than the scanner's buffer, which makes the parsers fail.
- The metrics of a group or a cgroup in detail: a `Metric` or a `Reading` stands for all of them. Series are not claimed to be unique across overlapping path patterns; the source does not deduplicate them.
- The pressure-stall parser, which has the shape of the parsers modelled.
