/** The counters of `proc/read.go`.

    `Counts` is what the kernel reports and what the exporter adds and subtracts: eight
    counters, six of them `uint64` that wrap. The two CPU times are `float64` in the
    source; here they are exact integers (clock ticks), since rounding is not the point.

    `Tally` is the same record over the unbounded integers. Every exact sum is stated on
    tallies, and `Wrap` says what 64-bit arithmetic makes of it. */
module Counters {

  const TWO_64: int := 0x1_0000_0000_0000_0000

  type u64 = x: int | 0 <= x < 0x1_0000_0000_0000_0000

  function WrapU(x: int): u64 {
    x % 0x1_0000_0000_0000_0000
  }

  // uint64 addition and subtraction.
  function AddU(a: u64, b: u64): (r: u64)
    ensures r == WrapU(a + b)
  {
    if a + b < TWO_64 then a + b else a + b - TWO_64
  }

  function SubU(a: u64, b: u64): (r: u64)
    ensures r == WrapU(a - b)
  {
    if a < b then a - b + TWO_64 else a - b
  }

  // One of the eight counters.
  datatype Counter =
    CpuUser | CpuSystem | ReadBytes | WriteBytes | MajorFaults | MinorFaults | CtxVoluntary | CtxNonvoluntary

  datatype Counts = Counts(
    cpuUser: int, cpuSystem: int,
    readBytes: u64, writeBytes: u64,
    majorFaults: u64, minorFaults: u64,
    ctxVoluntary: u64, ctxNonvoluntary: u64)
  {
    // c.Add(d): fieldwise, each uint64 addition wrapping.
    function Add(d: Counts): Counts {
      Counts(
        cpuUser + d.cpuUser, cpuSystem + d.cpuSystem,
        AddU(readBytes, d.readBytes), AddU(writeBytes, d.writeBytes),
        AddU(majorFaults, d.majorFaults), AddU(minorFaults, d.minorFaults),
        AddU(ctxVoluntary, d.ctxVoluntary), AddU(ctxNonvoluntary, d.ctxNonvoluntary))
    }

    // c.Sub(d): fieldwise, each uint64 subtraction wrapping.
    function Sub(d: Counts): Delta {
      Counts(
        cpuUser - d.cpuUser, cpuSystem - d.cpuSystem,
        SubU(readBytes, d.readBytes), SubU(writeBytes, d.writeBytes),
        SubU(majorFaults, d.majorFaults), SubU(minorFaults, d.minorFaults),
        SubU(ctxVoluntary, d.ctxVoluntary), SubU(ctxNonvoluntary, d.ctxNonvoluntary))
    }

    function Exact(): Tally {
      Tally(cpuUser, cpuSystem, readBytes, writeBytes, majorFaults, minorFaults, ctxVoluntary, ctxNonvoluntary)
    }

    function Of(k: Counter): int {
      Exact().Of(k)
    }

    // Componentwise order: no counter of this is above that of d.
    predicate AtMost(d: Counts) {
      Exact().AtMost(d.Exact())
    }
  }

  type Delta = Counts

  const NO_COUNTS: Counts := Counts(0, 0, 0, 0, 0, 0, 0, 0)

  datatype Tally = Tally(
    cpuUser: int, cpuSystem: int,
    readBytes: int, writeBytes: int,
    majorFaults: int, minorFaults: int,
    ctxVoluntary: int, ctxNonvoluntary: int)
  {
    function Of(k: Counter): int {
      match k
      case CpuUser => cpuUser
      case CpuSystem => cpuSystem
      case ReadBytes => readBytes
      case WriteBytes => writeBytes
      case MajorFaults => majorFaults
      case MinorFaults => minorFaults
      case CtxVoluntary => ctxVoluntary
      case CtxNonvoluntary => ctxNonvoluntary
    }

    // The counter is one 64 bits can hold; CPU times are not bounded here.
    predicate FitsAt(k: Counter) {
      k.CpuUser? || k.CpuSystem? || 0 <= Of(k) < TWO_64
    }

    function Plus(t: Tally): Tally {
      Tally(
        cpuUser + t.cpuUser, cpuSystem + t.cpuSystem,
        readBytes + t.readBytes, writeBytes + t.writeBytes,
        majorFaults + t.majorFaults, minorFaults + t.minorFaults,
        ctxVoluntary + t.ctxVoluntary, ctxNonvoluntary + t.ctxNonvoluntary)
    }

    function Minus(t: Tally): Tally {
      Tally(
        cpuUser - t.cpuUser, cpuSystem - t.cpuSystem,
        readBytes - t.readBytes, writeBytes - t.writeBytes,
        majorFaults - t.majorFaults, minorFaults - t.minorFaults,
        ctxVoluntary - t.ctxVoluntary, ctxNonvoluntary - t.ctxNonvoluntary)
    }

    predicate AtMost(t: Tally) {
      && cpuUser <= t.cpuUser && cpuSystem <= t.cpuSystem
      && readBytes <= t.readBytes && writeBytes <= t.writeBytes
      && majorFaults <= t.majorFaults && minorFaults <= t.minorFaults
      && ctxVoluntary <= t.ctxVoluntary && ctxNonvoluntary <= t.ctxNonvoluntary
    }

    // Every uint64 counter of the tally is below 2^64 (and none is negative).
    predicate Fits() {
      && 0 <= readBytes < TWO_64 && 0 <= writeBytes < TWO_64
      && 0 <= majorFaults < TWO_64 && 0 <= minorFaults < TWO_64
      && 0 <= ctxVoluntary < TWO_64 && 0 <= ctxNonvoluntary < TWO_64
    }

    function Wrap(): Counts {
      Counts(
        cpuUser, cpuSystem, WrapU(readBytes), WrapU(writeBytes),
        WrapU(majorFaults), WrapU(minorFaults), WrapU(ctxVoluntary), WrapU(ctxNonvoluntary))
    }
  }

  const ZERO: Tally := Tally(0, 0, 0, 0, 0, 0, 0, 0)

  lemma WrapUShift(x: int, q: int)
    ensures WrapU(x + q * 0x1_0000_0000_0000_0000) == WrapU(x)
  {
  }

  lemma WrapUAbsorbs(a: int, b: int)
    ensures WrapU(WrapU(a) + b) == WrapU(a + b)
    ensures WrapU(b - WrapU(a)) == WrapU(b - a)
  {
    var q := a / 0x1_0000_0000_0000_0000;
    WrapUShift(WrapU(a) + b, q);
    WrapUShift(b - WrapU(a), -q);
  }

  lemma WrapKeepsCounts(c: Counts)
    ensures c.Exact().Wrap() == c
  {
  }

  // Wrapping addition is exact addition seen modulo 2^64, whatever was wrapped before.
  lemma AddIsExactModulo(a: Tally, b: Tally)
    ensures a.Wrap().Add(b.Wrap()) == a.Plus(b).Wrap()
  {
    AddUOfWraps(a.readBytes, b.readBytes);
    AddUOfWraps(a.writeBytes, b.writeBytes);
    AddUOfWraps(a.majorFaults, b.majorFaults);
    AddUOfWraps(a.minorFaults, b.minorFaults);
    AddUOfWraps(a.ctxVoluntary, b.ctxVoluntary);
    AddUOfWraps(a.ctxNonvoluntary, b.ctxNonvoluntary);
  }

  // Adding a wrapped difference back gives the newer reading: nothing is lost to wrap-around.
  lemma SubThenAdd(newer: Counts, older: Counts)
    ensures older.Add(newer.Sub(older)) == newer
  {
    SubThenAddU(newer.readBytes, older.readBytes);
    SubThenAddU(newer.writeBytes, older.writeBytes);
    SubThenAddU(newer.majorFaults, older.majorFaults);
    SubThenAddU(newer.minorFaults, older.minorFaults);
    SubThenAddU(newer.ctxVoluntary, older.ctxVoluntary);
    SubThenAddU(newer.ctxNonvoluntary, older.ctxNonvoluntary);
  }

  lemma AddCommutes(a: Counts, b: Counts)
    ensures a.Add(b) == b.Add(a)
  {
  }

  lemma SubThenAddU(newer: u64, older: u64)
    ensures AddU(older, SubU(newer, older)) == newer
  {
  }

  lemma SubIsExactModulo(newer: Counts, older: Counts)
    ensures newer.Sub(older) == newer.Exact().Minus(older.Exact()).Wrap()
  {
  }

  lemma WrapUAbsorbs2(a: int, b: int)
    ensures WrapU(WrapU(a) + WrapU(b)) == WrapU(a + b)
  {
    var qa, qb := a / 0x1_0000_0000_0000_0000, b / 0x1_0000_0000_0000_0000;
    WrapUShift(WrapU(a) + WrapU(b), qa + qb);
    assert WrapU(a) + WrapU(b) + (qa + qb) * 0x1_0000_0000_0000_0000 == a + b;
  }

  lemma AddUOfWraps(a: int, b: int)
    ensures AddU(WrapU(a), WrapU(b)) == WrapU(a + b)
  {
    WrapUAbsorbs2(a, b);
  }

  // With no wrap-around the 64-bit total is the exact total.
  lemma FitsIsExact(t: Tally)
    requires t.Fits()
    ensures t.Wrap().Exact() == t
  {
  }

  // The same, counter by counter.
  lemma FitsAtIsExact(t: Tally, k: Counter)
    requires t.FitsAt(k)
    ensures t.Wrap().Of(k) == t.Of(k)
  {
  }

  predicate InOrder(a: Tally, b: Tally, k: Counter) {
    0 <= a.Of(k) <= b.Of(k) && b.FitsAt(k)
  }

  lemma WrapsInOrder(a: Tally, b: Tally, k: Counter)
    requires InOrder(a, b, k)
    ensures a.Wrap().Of(k) <= b.Wrap().Of(k) == b.Of(k)
  {
    FitsAtIsExact(a, k);
    FitsAtIsExact(b, k);
  }

  lemma FitsBelow(a: Tally, b: Tally, k: Counter)
    requires 0 <= a.Of(k) <= b.Of(k) && b.FitsAt(k)
    ensures a.FitsAt(k)
  {
  }

  lemma SumsAt(a: Tally, b: Tally, k: Counter)
    ensures a.Plus(b).Of(k) == a.Of(k) + b.Of(k) && a.Minus(b).Of(k) == a.Of(k) - b.Of(k)
    ensures ZERO.Of(k) == 0
  {
  }

  // ---------------------------------------------------------------- tallies are a commutative group

  lemma PlusSwaps(a: Tally, b: Tally, c: Tally)
    ensures a.Plus(b.Plus(c)) == b.Plus(a.Plus(c))
  {
  }

  lemma PlusZero(a: Tally)
    ensures a.Plus(ZERO) == a && ZERO.Plus(a) == a
  {
  }

  lemma PlusShuffles(a: Tally, b: Tally, c: Tally, d: Tally)
    ensures a.Plus(b).Plus(c.Plus(d)) == a.Plus(c).Plus(b.Plus(d))
  {
  }

  lemma PlusMinus(a: Tally, b: Tally)
    ensures a.Plus(b).Minus(a) == b
  {
  }

  lemma MinusSelf(a: Tally)
    ensures a.Minus(a) == ZERO && a.Minus(ZERO) == a
  {
  }

  lemma PlusTheRest(a: Tally, b: Tally)
    ensures a.Plus(b.Minus(a)) == b
  {
  }

  lemma PlusThenMinus(a: Tally, b: Tally, c: Tally)
    ensures a.Plus(b).Minus(c) == a.Minus(c).Plus(b)
  {
  }

  // b - a + (c - b) == c - a
  lemma Telescopes(a: Tally, b: Tally, c: Tally)
    ensures b.Minus(a).Plus(c.Minus(b)) == c.Minus(a)
  {
  }

  lemma PlusCommutes(a: Tally, b: Tally)
    ensures a.Plus(b) == b.Plus(a)
  {
  }

  lemma PlusAssociates(a: Tally, b: Tally, c: Tally)
    ensures a.Plus(b).Plus(c) == a.Plus(b.Plus(c))
  {
  }
}
