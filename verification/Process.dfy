/** What one pass over the process table yields (`proc/read.go`).

    Reading /proc is not part of this model: a `Row` holds, for one directory of /proc, what
    each of the reads answered, with `None` for a read that failed. */
module Process {
  import opened Wrappers
  import opened Counters

  // Clock readings. 0 is Go's zero time.
  type Time = int
  const NO_TIME: Time := 0

  datatype ID = ID(pid: int, startTimeRel: u64)

  // What a Go map lookup answers for a missing pid.
  const NO_ID: ID := ID(0, 0)

  type ThreadID = ID

  datatype Static = Static(
    name: string, cmdline: seq<string>, cgroups: seq<string>, cgroupV2Path: string,
    parentPid: int, startTime: Time, effectiveUID: int)

  datatype Memory = Memory(
    residentBytes: u64, virtualBytes: u64, vmSwapBytes: u64,
    proportionalBytes: u64, proportionalSwapBytes: u64)

  // open is -1 when the number of open descriptors is unknown.
  datatype Filedesc = Filedesc(open: int, limit: u64)

  datatype States = States(running: int, sleeping: int, waiting: int, zombie: int, other: int)
  {
    function Add(s: States): States {
      States(running + s.running, sleeping + s.sleeping, waiting + s.waiting, zombie + s.zombie, other + s.other)
    }
  }

  datatype Metrics = Metrics(
    counts: Counts, memory: Memory, filedesc: Filedesc, numThreads: u64, states: States, wchan: string)

  datatype Thread = Thread(tid: ThreadID, name: string, counts: Counts, wchan: string, states: States)

  datatype IDInfo = IDInfo(id: ID, stat: Static, metrics: Metrics, threads: seq<Thread>)

  // threads is empty when the thread read failed, and for a process with a single thread: the source is handed
  // a nil slice then.
  datatype Row = Row(
    procID: Option<ID>, metrics: Option<Metrics>, threads: seq<Thread>, stat: Option<Static>)

  // What a rule of the configuration may look at (common.go).
  datatype ProcAttributes = ProcAttributes(
    name: string, cmdline: seq<string>, cgroups: seq<string>, username: string, pid: int, startTime: Time)

  /** `procIterator`: walks a list of rows; `failed` is the error kept since the listing itself failed. */
  class ProcIterator {
    var procs: seq<Row>
    var idx: int
    var failed: bool

    ghost predicate Valid()
      reads this
    {
      -1 <= idx
    }

    // The rows Next has not reached yet.
    ghost function Remaining(): seq<Row>
      requires Valid()
      reads this
    {
      if idx + 1 < |procs| then procs[idx + 1..] else []
    }

    // AllProcs: `listing` is None when the process table could not be listed, and then there are no rows.
    constructor AllProcs(listing: Option<seq<Row>>)
      ensures Valid()
      ensures Remaining() == if listing.Some? then listing.value else []
      ensures failed <==> listing.None?
    {
      procs := match listing case Some(rows) => rows case None => [];
      failed := listing.None?;
      idx := -1;
    }

    method Next() returns (more: bool, current: Option<Row>)
      requires Valid()
      modifies this`idx
      ensures Valid()
      ensures more <==> old(Remaining()) != []
      ensures more ==> current == Some(old(Remaining())[0]) && Remaining() == old(Remaining())[1..]
      ensures !more ==> current == None && Remaining() == []
    {
      idx := idx + 1;
      current := if idx < |procs| then Some(procs[idx]) else None;
      more := idx < |procs|;
    }

    method Close() returns (err: bool)
      requires Valid()
      modifies this`idx, this`procs
      ensures Valid() && Remaining() == []
      ensures err == failed
    {
      var _, _ := Next();
      procs := [];
      err := failed;
    }
  }
}
