/** Group inheritance (step 2 of `Tracker.Update`): an unmatched new process takes the group of its
    nearest tracked ancestor. `checkAncestry` walks up the process tree recursively and writes what
    it learns into `tracked` on the way back, and it is started from the unmatched processes in the
    random order of a Go map. `Resolve` and `Final` say what the outcome should be without any
    walking order or memo; the theorems say when the code reaches it. */
module Ancestry {
  import opened Wrappers
  import opened Process
  import opened TrackerSpec
  import opened Collections

  type NewProcs = map<ID, IDInfo>

  ghost predicate KeyedById(news: NewProcs) {
    forall id | id in news :: news[id].id == id
  }

  // ---------------------------------------------------------------- the parent relation

  function ParentId(procIds: map<int, ID>, info: IDInfo): ID {
    if info.stat.parentPid in procIds then procIds[info.stat.parentPid] else NO_ID
  }

  // The parent of a new process, when it is a new unmatched process too.
  function Up(procIds: map<int, ID>, news: NewProcs, id: ID): Option<ID> {
    if id !in news then None else
    var p := ParentId(procIds, news[id]);
    if p.pid >= 1 && p in news then Some(p) else None
  }

  ghost function Climb(procIds: map<int, ID>, news: NewProcs, id: ID, k: nat): Option<ID> {
    if k == 0 then Some(id) else
    match Climb(procIds, news, id, k - 1)
    case Some(a) => Up(procIds, news, a)
    case None => None
  }

  ghost predicate Acyclic(procIds: map<int, ID>, news: NewProcs) {
    forall id, k: nat | id in news && k > 0 :: Climb(procIds, news, id, k) != Some(id)
  }

  // The new unmatched processes above id: the measure the recursion decreases.
  ghost function Above(procIds: map<int, ID>, news: NewProcs, id: ID): set<ID> {
    set a | a in news && exists k: nat :: k > 0 && Climb(procIds, news, id, k) == Some(a)
  }

  lemma {:induction false} ClimbSplit(procIds: map<int, ID>, news: NewProcs, id: ID, j: nat, k: nat)
    ensures Climb(procIds, news, id, j + k) ==
            match Climb(procIds, news, id, j) case Some(a) => Climb(procIds, news, a, k) case None => None
  {
    if k > 0 {
      ClimbSplit(procIds, news, id, j, k - 1);
    }
  }

  lemma AboveShrinks(procIds: map<int, ID>, news: NewProcs, id: ID)
    requires Acyclic(procIds, news)
    requires Up(procIds, news, id).Some?
    ensures Above(procIds, news, Up(procIds, news, id).value) < Above(procIds, news, id)
  {
    var p := Up(procIds, news, id).value;
    assert Climb(procIds, news, id, 0) == Some(id);
    assert Climb(procIds, news, id, 1) == Some(p);
    forall a | a in Above(procIds, news, p) ensures a in Above(procIds, news, id) {
      var k: nat :| k > 0 && Climb(procIds, news, p, k) == Some(a);
      ClimbSplit(procIds, news, id, 1, k);
      assert Climb(procIds, news, id, 1 + k) == Some(a);
    }
    assert p in Above(procIds, news, id) && p !in Above(procIds, news, p);
  }

  // On a cycle the climb never leaves the new processes.
  lemma {:induction false} CycleNeverLeaves(procIds: map<int, ID>, news: NewProcs, id: ID, k: nat, m: nat)
    requires k > 0 && Climb(procIds, news, id, k) == Some(id)
    ensures Climb(procIds, news, id, m).Some?
    decreases m
  {
    if m < k {
      ClimbSplit(procIds, news, id, m, k - m);
    } else {
      ClimbSplit(procIds, news, id, k, m - k);
      CycleNeverLeaves(procIds, news, id, k, m - k);
    }
  }

  lemma {:induction false} ClimbLeaves(procIds: map<int, ID>, news: NewProcs, id: ID) returns (k: nat)
    requires Acyclic(procIds, news)
    ensures Climb(procIds, news, id, k).None?
    decreases Above(procIds, news, id)
  {
    assert Climb(procIds, news, id, 0) == Some(id);
    assert Climb(procIds, news, id, 1) == Up(procIds, news, id);
    match Up(procIds, news, id)
    case None => k := 1;
    case Some(p) =>
      AboveShrinks(procIds, news, id);
      var up := ClimbLeaves(procIds, news, p);
      ClimbSplit(procIds, news, id, 1, up);
      k := 1 + up;
  }

  ghost predicate WalkEnds(procIds: map<int, ID>, news: NewProcs, id: ID) {
    exists k: nat :: Climb(procIds, news, id, k).None?
  }

  // Every walk of checkAncestry through the new processes ends exactly when no process is its own ancestor.
  lemma WalksEndIffAcyclic(procIds: map<int, ID>, news: NewProcs)
    ensures Acyclic(procIds, news) <==> forall id | id in news :: WalkEnds(procIds, news, id)
  {
    if Acyclic(procIds, news) {
      forall id | id in news ensures WalkEnds(procIds, news, id) {
        var k := ClimbLeaves(procIds, news, id);
      }
    } else {
      var id, k: nat :| id in news && k > 0 && Climb(procIds, news, id, k) == Some(id);
      forall m: nat ensures Climb(procIds, news, id, m).Some? {
        CycleNeverLeaves(procIds, news, id, k, m);
      }
      assert !WalkEnds(procIds, news, id);
    }
  }

  // ---------------------------------------------------------------- what the outcome should be

  // The group of the nearest tracked ancestor, judged by the state t before step 2; None when the
  // walk meets an ignored, unknown or missing ancestor first.
  ghost function Resolve(t: TState, news: NewProcs, id: ID): Option<string>
    requires Acyclic(t.procIds, news) && id in news
    decreases Above(t.procIds, news, id)
  {
    var p := ParentId(t.procIds, news[id]);
    if p.pid < 1 then None
    else if p in t.tracked then
      match t.tracked[p] case Some(parent) => Some(parent.groupName) case None => None
    else if p in news then
      AboveShrinks(t.procIds, news, id);
      Resolve(t, news, p)
    else None
  }

  // The entry step 2 should leave for id: None is no entry at all.
  ghost function Settled(c: Config, t: TState, news: NewProcs, id: ID, wall: Wall): Option<Option<ProcState>>
    requires Acyclic(t.procIds, news) && id in news
  {
    match Resolve(t, news, id)
    case Some(group) => Some(Some(NewProc(t.firstUpdateAt, group, news[id])))
    case None => if Spared(c, news[id].stat.startTime, wall(id)) then None else Some(None)
  }

  ghost function Final(c: Config, t: TState, news: NewProcs, wall: Wall): TState
    requires Acyclic(t.procIds, news)
  {
    t.(tracked := t.tracked +
       map id | id in news && Settled(c, t, news, id, wall).Some? :: Settled(c, t, news, id, wall).value)
  }

  // ---------------------------------------------------------------- what the code does

  function CheckAncestry(c: Config, t: TState, news: NewProcs, id: ID, wall: Wall): (TState, string)
    requires Acyclic(t.procIds, news) && id in news
    decreases Above(t.procIds, news, id)
  {
    var info := news[id];
    var p := ParentId(t.procIds, info);
    if p.pid < 1 then (Ignore(c, t, info, wall), "")
    else if p in t.tracked then
      match t.tracked[p]
      case Some(parent) => (Track(t, parent.groupName, info), parent.groupName)
      case None => (Ignore(c, t, info, wall), "")
    else if p in news then
      AboveShrinks(t.procIds, news, id);
      var (t1, name) := CheckAncestry(c, t, news, p, wall);
      if name != "" then (Track(t1, name, info), name) else (Ignore(c, t1, info, wall), "")
    else (Ignore(c, t, info, wall), "")
  }

  lemma {:induction false} WalkKeepsIndex(c: Config, t: TState, news: NewProcs, id: ID, wall: Wall)
    requires Acyclic(t.procIds, news) && id in news
    ensures CheckAncestry(c, t, news, id, wall).0.procIds == t.procIds
    ensures CheckAncestry(c, t, news, id, wall).0.firstUpdateAt == t.firstUpdateAt
    decreases Above(t.procIds, news, id)
  {
    var p := ParentId(t.procIds, news[id]);
    if p.pid >= 1 && p !in t.tracked && p in news {
      AboveShrinks(t.procIds, news, id);
      WalkKeepsIndex(c, t, news, p, wall);
    }
  }

  // The loop of step 2 over the unmatched processes, in the given order.
  function Inherit(c: Config, t: TState, news: NewProcs, order: seq<ID>, wall: Wall): (r: TState)
    requires Acyclic(t.procIds, news)
    requires forall id | id in order :: id in news
    ensures r.procIds == t.procIds && r.firstUpdateAt == t.firstUpdateAt
  {
    if order == [] then t else
    var t1 := Inherit(c, t, news, order[..|order| - 1], wall);
    var id := order[|order| - 1];
    if id in t1.tracked then t1 else
    WalkKeepsIndex(c, t1, news, id, wall);
    CheckAncestry(c, t1, news, id, wall).0
  }

  // ---------------------------------------------------------------- the two agree

  // A process inherits the empty name over at least one new unmatched process. checkAncestry returns ""
  // both for "no group" and for the group named "", so such a chain is where it can go wrong.
  ghost predicate BlankChain(t: TState, news: NewProcs, id: ID)
    requires Acyclic(t.procIds, news)
  {
    && id in news
    && Up(t.procIds, news, id).Some?
    && Resolve(t, news, id) == Some("")
  }

  // cur is a state step 2 may pass through: at least t, at most Final.
  ghost predicate Underway(c: Config, t: TState, cur: TState, news: NewProcs, wall: Wall)
    requires Acyclic(t.procIds, news)
  {
    && cur.procIds == t.procIds && cur.firstUpdateAt == t.firstUpdateAt
    && (forall id | id in t.tracked :: id in cur.tracked && cur.tracked[id] == t.tracked[id])
    && (forall id | id in cur.tracked && id !in t.tracked ::
          id in news && Settled(c, t, news, id, wall) == Some(cur.tracked[id]))
  }

  ghost predicate Step2Ready(t: TState, news: NewProcs) {
    && Acyclic(t.procIds, news)
    && KeyedById(news)
    && news.Keys !! t.tracked.Keys
  }

  lemma TrackStaysUnderway(c: Config, t: TState, cur: TState, news: NewProcs, id: ID, group: string, wall: Wall)
    requires Step2Ready(t, news) && Underway(c, t, cur, news, wall)
    requires id in news && Resolve(t, news, id) == Some(group)
    ensures Underway(c, t, Track(cur, group, news[id]), news, wall) && id in Track(cur, group, news[id]).tracked
  {
  }

  lemma IgnoreStaysUnderway(c: Config, t: TState, cur: TState, news: NewProcs, id: ID, wall: Wall)
    requires Step2Ready(t, news) && Underway(c, t, cur, news, wall)
    requires id in news && Resolve(t, news, id) == None
    ensures Underway(c, t, Ignore(c, cur, news[id], wall), news, wall)
    ensures Settled(c, t, news, id, wall).Some? ==> id in Ignore(c, cur, news[id], wall).tracked
  {
  }

  lemma {:induction false} WalkIsExact(c: Config, t: TState, cur: TState, news: NewProcs, id: ID, wall: Wall)
    requires Step2Ready(t, news)
    requires Underway(c, t, cur, news, wall)
    requires id in news && id !in cur.tracked
    requires BlankChain(t, news, id) ==> Up(t.procIds, news, id).value in cur.tracked
    ensures var (next, name) := CheckAncestry(c, cur, news, id, wall);
            && Underway(c, t, next, news, wall)
            && cur.tracked.Keys <= next.tracked.Keys
            && (Settled(c, t, news, id, wall).Some? ==> id in next.tracked)
            && name == (if Resolve(t, news, id).Some? then Resolve(t, news, id).value else "")
    decreases Above(t.procIds, news, id)
  {
    var p := ParentId(t.procIds, news[id]);
    var before := cur;
    if p.pid >= 1 && p !in t.tracked && p in news {
      AboveShrinks(t.procIds, news, id);
      assert Resolve(t, news, id) == Resolve(t, news, p);
      if p !in cur.tracked {
        assert !BlankChain(t, news, id);
        WalkIsExact(c, t, cur, news, p, wall);
        before := CheckAncestry(c, cur, news, p, wall).0;
      }
    }
    match Resolve(t, news, id)
    case Some(group) => TrackStaysUnderway(c, t, before, news, id, group, wall);
    case None => IgnoreStaysUnderway(c, t, before, news, id, wall);
  }

  // Every process that inherits the empty name over its parent comes after that parent.
  ghost predicate BlanksAfterParents(t: TState, news: NewProcs, order: seq<ID>)
    requires Acyclic(t.procIds, news)
  {
    forall i | 0 <= i < |order| && BlankChain(t, news, order[i]) :: Up(t.procIds, news, order[i]).value in order[..i]
  }

  lemma {:induction false} InheritIsExact(c: Config, t: TState, news: NewProcs, order: seq<ID>, wall: Wall)
    requires Step2Ready(t, news)
    requires BlanksAfterParents(t, news, order)
    requires forall id | id in order :: id in news
    ensures var r := Inherit(c, t, news, order, wall);
            && Underway(c, t, r, news, wall)
            && forall id | id in order :: Settled(c, t, news, id, wall).Some? ==> id in r.tracked
  {
    if order != [] {
      var front, id := order[..|order| - 1], order[|order| - 1];
      assert order == front + [id];
      assert BlanksAfterParents(t, news, front) by {
        assert forall i | 0 <= i < |front| :: front[..i] == order[..i] && front[i] == order[i];
      }
      InheritIsExact(c, t, news, front, wall);
      var cur := Inherit(c, t, news, front, wall);
      if id !in cur.tracked {
        if BlankChain(t, news, id) {
          ParentIsSettled(c, t, news, front, id, wall);
        }
        WalkIsExact(c, t, cur, news, id, wall);
      }
    }
  }

  // The parent of a process that inherits a name inherits it too, or has it.
  lemma ParentIsSettled(c: Config, t: TState, news: NewProcs, front: seq<ID>, id: ID, wall: Wall)
    requires Step2Ready(t, news) && BlankChain(t, news, id)
    requires Up(t.procIds, news, id).value in front
    ensures Settled(c, t, news, Up(t.procIds, news, id).value, wall).Some?
  {
  }

  // In an order where no process that inherits the empty name stands before its parent, step 2 ends in Final.
  lemma InheritReachesFinal(c: Config, t: TState, news: NewProcs, order: seq<ID>, wall: Wall)
    requires Step2Ready(t, news)
    requires Ordering(order, news.Keys) && BlanksAfterParents(t, news, order)
    ensures Inherit(c, t, news, order, wall) == Final(c, t, news, wall)
  {
    InheritIsExact(c, t, news, order, wall);
    var r, f := Inherit(c, t, news, order, wall), Final(c, t, news, wall);
    forall id ensures Lookup(r.tracked, id) == Lookup(f.tracked, id) {
      assert id in news ==> id in order;
      ArrivedAt(c, t, r, news, id, wall);
    }
    SameLookups(r.tracked, f.tracked);
  }

  lemma ArrivedAt(c: Config, t: TState, r: TState, news: NewProcs, id: ID, wall: Wall)
    requires Step2Ready(t, news) && Underway(c, t, r, news, wall)
    requires id in news && Settled(c, t, news, id, wall).Some? ==> id in r.tracked
    ensures Lookup(r.tracked, id) == Lookup(Final(c, t, news, wall).tracked, id)
  {
  }

  // ---------------------------------------------------------------- and only then

  // Some process of the set is nobody's parent in it.
  lemma {:induction false} Lowest(procIds: map<int, ID>, news: NewProcs, ids: set<ID>, id: ID) returns (b: ID)
    requires Acyclic(procIds, news) && ids <= news.Keys && id in ids
    ensures b in ids && forall x | x in ids :: Up(procIds, news, x) != Some(b)
    decreases news.Keys - Above(procIds, news, id)
  {
    if x :| x in ids && Up(procIds, news, x) == Some(id) {
      AboveShrinks(procIds, news, x);
      assert id in Above(procIds, news, x) by {
        assert Climb(procIds, news, x, 0) == Some(x);
        assert Climb(procIds, news, x, 1) == Some(id);
      }
      assert id !in Above(procIds, news, id);
      b := Lowest(procIds, news, ids, x);
    } else {
      b := id;
    }
  }

  lemma BlankBelowBlank(t: TState, news: NewProcs, id: ID, x: ID)
    requires Step2Ready(t, news) && BlankChain(t, news, id) && Up(t.procIds, news, x) == Some(id)
    ensures BlankChain(t, news, x)
  {
    assert Resolve(t, news, x) == Resolve(t, news, id);
  }

  // Below a blank chain there is one that no new process descends from.
  lemma LowestBlankChain(t: TState, news: NewProcs, id: ID) returns (b: ID)
    requires Step2Ready(t, news) && BlankChain(t, news, id)
    ensures BlankChain(t, news, b) && forall x :: Up(t.procIds, news, x) != Some(b)
  {
    var blanks := set x | x in news && BlankChain(t, news, x);
    forall x, y | y in blanks && Up(t.procIds, news, x) == Some(y) ensures x in blanks {
      BlankBelowBlank(t, news, y, x);
    }
    b := Lowest(t.procIds, news, blanks, id);
  }

  lemma {:induction false} BlankWalkAnswersBlank(c: Config, t: TState, news: NewProcs, id: ID, wall: Wall)
    requires Step2Ready(t, news)
    requires id in news && Resolve(t, news, id) == Some("")
    ensures CheckAncestry(c, t, news, id, wall).1 == ""
    decreases Above(t.procIds, news, id)
  {
    var p := ParentId(t.procIds, news[id]);
    if p !in t.tracked {
      AboveShrinks(t.procIds, news, id);
      BlankWalkAnswersBlank(c, t, news, p, wall);
    }
  }

  ghost predicate TrackedIn(t: TState, id: ID) {
    id in t.tracked && t.tracked[id].Some?
  }

  lemma {:induction false} WalkLeavesOthers(c: Config, cur: TState, news: NewProcs, id: ID, b: ID, wall: Wall)
    requires Acyclic(cur.procIds, news) && KeyedById(news)
    requires id in news && id != b
    requires forall x :: Up(cur.procIds, news, x) != Some(b)
    ensures TrackedIn(CheckAncestry(c, cur, news, id, wall).0, b) == TrackedIn(cur, b)
    decreases Above(cur.procIds, news, id)
  {
    var p := ParentId(cur.procIds, news[id]);
    if p.pid >= 1 && p !in cur.tracked && p in news {
      AboveShrinks(cur.procIds, news, id);
      WalkLeavesOthers(c, cur, news, p, b, wall);
    }
  }

  lemma {:induction false} WalkedFirstIsLost(c: Config, t: TState, news: NewProcs, b: ID, order: seq<ID>, wall: Wall)
    requires Step2Ready(t, news) && BlankChain(t, news, b)
    requires forall x :: Up(t.procIds, news, x) != Some(b)
    requires order != [] && order[0] == b
    requires forall i | 0 < i < |order| :: order[i] != b
    requires forall id | id in order :: id in news
    ensures !TrackedIn(Inherit(c, t, news, order, wall), b)
  {
    var front, id := order[..|order| - 1], order[|order| - 1];
    assert order == front + [id];
    if front == [] {
      assert Inherit(c, t, news, front, wall) == t;
      var p := ParentId(t.procIds, news[b]);
      AboveShrinks(t.procIds, news, b);
      BlankWalkAnswersBlank(c, t, news, p, wall);
      WalkLeavesOthers(c, t, news, p, b, wall);
    } else {
      WalkedFirstIsLost(c, t, news, b, front, wall);
      WalkLeavesOthers(c, Inherit(c, t, news, front, wall), news, id, b, wall);
    }
  }

  lemma BlankChainCanBeLost(c: Config, t: TState, news: NewProcs, x: ID, wall: Wall) returns (order: seq<ID>)
    requires Step2Ready(t, news) && BlankChain(t, news, x)
    ensures Ordering(order, news.Keys)
    ensures Inherit(c, t, news, order, wall) != Final(c, t, news, wall)
  {
    var b := LowestBlankChain(t, news, x);
    var rest := SomeOrdering(news.Keys - {b});
    order := [b] + rest;
    assert order[0] == b && order[1..] == rest;
    OrderingWithFirst(b, rest, news.Keys);
    WalkedFirstIsLost(c, t, news, b, order, wall);
    assert TrackedIn(Final(c, t, news, wall), b);
  }

  // Step 2 gives every unmatched process the group of its nearest tracked ancestor, in whatever order
  // the processes are walked, exactly when no empty group name is inherited over a new unmatched process.
  lemma InheritanceIsExactIff(c: Config, t: TState, news: NewProcs, wall: Wall)
    requires Step2Ready(t, news)
    ensures (forall order | Ordering(order, news.Keys) ::
               Inherit(c, t, news, order, wall) == Final(c, t, news, wall))
            <==> (forall x :: !BlankChain(t, news, x))
  {
    if x :| BlankChain(t, news, x) {
      var order := BlankChainCanBeLost(c, t, news, x, wall);
    } else {
      forall order | Ordering(order, news.Keys)
        ensures Inherit(c, t, news, order, wall) == Final(c, t, news, wall)
      {
        InheritReachesFinal(c, t, news, order, wall);
      }
    }
  }

  // ---------------------------------------------------------------- when the order cannot matter

  // No process stands before its parent.
  ghost predicate ParentsFirst(procIds: map<int, ID>, news: NewProcs, order: seq<ID>) {
    forall i | 0 <= i < |order| && Up(procIds, news, order[i]).Some? :: Up(procIds, news, order[i]).value in order[..i]
  }

  ghost predicate ClosedUpwards(procIds: map<int, ID>, news: NewProcs, ids: set<ID>) {
    forall id | id in ids && Up(procIds, news, id).Some? :: Up(procIds, news, id).value in ids
  }

  lemma {:induction false} SomeParentsFirst(procIds: map<int, ID>, news: NewProcs, ids: set<ID>)
    returns (order: seq<ID>)
    requires Acyclic(procIds, news) && ids <= news.Keys && ClosedUpwards(procIds, news, ids)
    ensures Ordering(order, ids) && ParentsFirst(procIds, news, order)
  {
    if ids == {} {
      order := [];
    } else {
      var any :| any in ids;
      var b := Lowest(procIds, news, ids, any);
      var front := SomeParentsFirst(procIds, news, ids - {b});
      order := front + [b];
      forall i | 0 <= i < |order| && Up(procIds, news, order[i]).Some?
        ensures Up(procIds, news, order[i]).value in order[..i]
      {
        assert order[..i] == front[..i];
      }
    }
  }

  // Go's map iteration may pick the right order: one that walks every parent before its children.
  lemma SomeOrderReachesFinal(c: Config, t: TState, news: NewProcs, wall: Wall) returns (order: seq<ID>)
    requires Step2Ready(t, news)
    ensures Ordering(order, news.Keys) && Inherit(c, t, news, order, wall) == Final(c, t, news, wall)
  {
    order := SomeParentsFirst(t.procIds, news, news.Keys);
    InheritReachesFinal(c, t, news, order, wall);
  }

  // Step 2 is independent of the order of Go's map iteration exactly when no empty group name is inherited
  // over a new unmatched process.
  lemma OrderIsIrrelevantIff(c: Config, t: TState, news: NewProcs, wall: Wall)
    requires Step2Ready(t, news)
    ensures (forall a, b | Ordering(a, news.Keys) && Ordering(b, news.Keys) ::
               Inherit(c, t, news, a, wall) == Inherit(c, t, news, b, wall))
            <==> (forall x :: !BlankChain(t, news, x))
  {
    InheritanceIsExactIff(c, t, news, wall);
    var good := SomeOrderReachesFinal(c, t, news, wall);
    if x :| BlankChain(t, news, x) {
      var bad := BlankChainCanBeLost(c, t, news, x, wall);
      assert Inherit(c, t, news, good, wall) != Inherit(c, t, news, bad, wall);
    }
  }

  // Such a case: a process tracked under the name "", its child and its grandchild, neither wanted by a
  // rule. Walked from the top, both inherit the name; walked from the bottom, the grandchild is ignored.
  lemma BlankNameNeedsAnOrder(c: Config, p: ProcState, m: Metrics, st: Static, wall: Wall)
    requires p.groupName == ""
    ensures var top, child, grandchild := ID(1, 0), ID(2, 0), ID(3, 0);
      var t := TState(map[top := Some(p)], map[1 := top, 2 := child, 3 := grandchild], 1);
      var news := map[child := IDInfo(child, st.(parentPid := 1), m, []),
                      grandchild := IDInfo(grandchild, st.(parentPid := 2), m, [])];
      && Step2Ready(t, news)
      && Ordering([child, grandchild], news.Keys) && Ordering([grandchild, child], news.Keys)
      && Inherit(c, t, news, [child, grandchild], wall) != Inherit(c, t, news, [grandchild, child], wall)
  {
    var top, child, grandchild := ID(1, 0), ID(2, 0), ID(3, 0);
    var t := TState(map[top := Some(p)], map[1 := top, 2 := child, 3 := grandchild], 1);
    var news := map[child := IDInfo(child, st.(parentPid := 1), m, []),
                    grandchild := IDInfo(grandchild, st.(parentPid := 2), m, [])];
    forall id, k: nat | id in news && k > 0 ensures Climb(t.procIds, news, id, k) != Some(id) {
      ClimbSplit(t.procIds, news, id, 1, k - 1);
      assert Climb(t.procIds, news, id, 1) == Up(t.procIds, news, id);
      if id == grandchild && k > 1 {
        ClimbSplit(t.procIds, news, child, 1, k - 2);
        assert Climb(t.procIds, news, child, 1) == Up(t.procIds, news, child);
      }
    }
    assert [child, grandchild][..1] == [child] && [grandchild, child][..1] == [grandchild];
    assert [child][..0] == [] && [grandchild][..0] == [];
    assert Inherit(c, t, news, [], wall) == t;
    var t1 := Track(t, "", news[child]);
    assert CheckAncestry(c, t, news, child, wall) == (t1, "");
    assert Inherit(c, t, news, [child], wall) == t1;
    assert CheckAncestry(c, t1, news, grandchild, wall).0 == Track(t1, "", news[grandchild]);
    assert TrackedIn(Inherit(c, t, news, [child, grandchild], wall), grandchild);
    assert Inherit(c, t, news, [grandchild], wall) == Ignore(c, t1, news[grandchild], wall);
    assert !TrackedIn(Inherit(c, t, news, [grandchild, child], wall), grandchild);
  }

  ghost predicate TrackedParent(t: TState, news: NewProcs, a: ID, group: string) {
    && a in news
    && var p := ParentId(t.procIds, news[a]);
       p.pid >= 1 && p in t.tracked && t.tracked[p].Some? && t.tracked[p].value.groupName == group
  }

  ghost predicate InheritsAt(t: TState, news: NewProcs, id: ID, group: string, k: nat) {
    var a := Climb(t.procIds, news, id, k);
    a.Some? && TrackedParent(t, news, a.value, group)
  }

  // What Resolve means, step by step: climbing from id through new unmatched processes only, some k
  // steps up there is one whose parent is tracked under that group.
  lemma {:induction false} ResolveIsNearestTracked(t: TState, news: NewProcs, id: ID, group: string)
    requires Step2Ready(t, news) && id in news
    ensures Resolve(t, news, id) == Some(group) <==> exists k: nat :: InheritsAt(t, news, id, group, k)
    decreases Above(t.procIds, news, id)
  {
    assert InheritsAt(t, news, id, group, 0) <==> TrackedParent(t, news, id, group);
    assert Climb(t.procIds, news, id, 0) == Some(id);
    assert Climb(t.procIds, news, id, 1) == Up(t.procIds, news, id);
    match Up(t.procIds, news, id) {
      case None =>
        forall k: nat | k > 0 ensures !InheritsAt(t, news, id, group, k) {
          ClimbSplit(t.procIds, news, id, 1, k - 1);
        }
      case Some(p) =>
        AboveShrinks(t.procIds, news, id);
        ResolveIsNearestTracked(t, news, p, group);
        forall k: nat ensures InheritsAt(t, news, id, group, 1 + k) <==> InheritsAt(t, news, p, group, k) {
          ClimbSplit(t.procIds, news, id, 1, k);
        }
        assert p !in t.tracked && Resolve(t, news, id) == Resolve(t, news, p);
        if k: nat :| InheritsAt(t, news, id, group, k) {
          assert InheritsAt(t, news, id, group, 1 + (k - 1));
          assert InheritsAt(t, news, p, group, k - 1);
        }
    }
  }

  // ---------------------------------------------------------------- the same, pid by pid

  // The index holds p under the parent pid that was read for the process.
  ghost predicate ParentIs(procIds: map<int, ID>, info: IDInfo, p: ID) {
    info.stat.parentPid in procIds && procIds[info.stat.parentPid] == p && p.pid >= 1
  }

  // A chain of new unmatched processes, each the child of the next, below one that is tracked under the name.
  ghost predicate Lineage(t: TState, news: NewProcs, chain: seq<ID>, group: string) {
    && |chain| > 1
    && (forall k | 0 <= k < |chain| - 1 :: chain[k] in news && ParentIs(t.procIds, news[chain[k]], chain[k + 1]))
    && var top := chain[|chain| - 1];
       top in t.tracked && t.tracked[top].Some? && t.tracked[top].value.groupName == group
  }

  ghost predicate Descends(t: TState, news: NewProcs, id: ID, group: string) {
    exists chain :: Lineage(t, news, chain, group) && chain[0] == id
  }

  lemma LineageGrows(t: TState, news: NewProcs, id: ID, chain: seq<ID>, group: string)
    requires id in news && Lineage(t, news, chain, group) && ParentIs(t.procIds, news[id], chain[0])
    ensures Lineage(t, news, [id] + chain, group)
  {
    var longer := [id] + chain;
    forall k | 0 <= k < |longer| - 1 ensures longer[k] in news && ParentIs(t.procIds, news[longer[k]], longer[k + 1]) {
      if k > 0 { assert longer[k] == chain[k - 1] && longer[k + 1] == chain[k]; }
    }
  }

  lemma LineageShrinks(t: TState, news: NewProcs, chain: seq<ID>, group: string)
    requires Lineage(t, news, chain, group) && |chain| > 2
    ensures Lineage(t, news, chain[1..], group)
  {
    forall k | 0 <= k < |chain| - 2
      ensures chain[1..][k] in news && ParentIs(t.procIds, news[chain[1..][k]], chain[1..][k + 1]) {
      assert chain[k + 1] in news && ParentIs(t.procIds, news[chain[k + 1]], chain[k + 2]);
    }
  }

  // The inherited group is that of the tracked process at the top of a chain of processes linked by the
  // parent pids read for them, and there is none when there is no such chain: the parent pid of one of them
  // is not in the index, or leads to a process that is ignored or unknown.
  lemma {:induction false} InheritsByLineage(t: TState, news: NewProcs, id: ID, group: string)
    requires Step2Ready(t, news) && id in news
    ensures Resolve(t, news, id) == Some(group) <==> Descends(t, news, id, group)
    ensures news[id].stat.parentPid !in t.procIds ==> Resolve(t, news, id) == None
    decreases Above(t.procIds, news, id)
  {
    if Up(t.procIds, news, id).Some? {
      AboveShrinks(t.procIds, news, id);
      var p := Up(t.procIds, news, id).value;
      InheritsByLineage(t, news, p, group);
      if chain :| Lineage(t, news, chain, group) && chain[0] == p {
        LineageGrows(t, news, id, chain, group);
        assert ([id] + chain)[0] == id;
      }
    } else if Resolve(t, news, id) == Some(group) {
      assert Lineage(t, news, [id, t.procIds[news[id].stat.parentPid]], group);
    }
    if chain :| Lineage(t, news, chain, group) && chain[0] == id {
      assert ParentIs(t.procIds, news[chain[0]], chain[1]);
      if |chain| > 2 {
        LineageShrinks(t, news, chain, group);
        assert chain[1..][0] == chain[1] && chain[1] in news;
      }
    }
  }

  // ---------------------------------------------------------------- whatever the names are

  // cur extends t only by new unmatched processes, each ignored or freshly tracked under some group.
  ghost predicate OnlyAdds(t: TState, cur: TState, news: NewProcs) {
    && cur.procIds == t.procIds && cur.firstUpdateAt == t.firstUpdateAt
    && (forall id | id in t.tracked :: id in cur.tracked && cur.tracked[id] == t.tracked[id])
    && (forall id | id in cur.tracked && id !in t.tracked ::
          id in news && (cur.tracked[id].Some? ==>
          cur.tracked[id].value == NewProc(t.firstUpdateAt, cur.tracked[id].value.groupName, news[id])))
  }

  lemma {:induction false} WalkOnlyAdds(c: Config, t: TState, cur: TState, news: NewProcs, id: ID, wall: Wall)
    requires Acyclic(t.procIds, news) && KeyedById(news) && news.Keys !! t.tracked.Keys
    requires OnlyAdds(t, cur, news) && id in news
    ensures OnlyAdds(t, CheckAncestry(c, cur, news, id, wall).0, news)
    decreases Above(t.procIds, news, id)
  {
    var p := ParentId(t.procIds, news[id]);
    if p.pid >= 1 && p !in cur.tracked && p in news {
      AboveShrinks(t.procIds, news, id);
      WalkOnlyAdds(c, t, cur, news, p, wall);
    }
  }

  lemma {:induction false} InheritOnlyAdds(c: Config, t: TState, news: NewProcs, order: seq<ID>, wall: Wall)
    requires Step2Ready(t, news)
    requires forall id | id in order :: id in news
    ensures OnlyAdds(t, Inherit(c, t, news, order, wall), news)
  {
    if order != [] {
      var front, id := order[..|order| - 1], order[|order| - 1];
      assert order == front + [id];
      InheritOnlyAdds(c, t, news, front, wall);
      WalkOnlyAdds(c, t, Inherit(c, t, news, front, wall), news, id, wall);
    }
  }
}
