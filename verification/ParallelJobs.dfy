/** How parallel reingestion sizes its batches and splits ranges into jobs. */
module ParallelJobs {
  import opened LedgerRanges
  import Arith

  const TWO_32: nat := 0x1_0000_0000
  const CHECKPOINT_INTERVAL: nat := 64

  /** Conversion to uint32. */
  function U32(x: nat): (r: nat)
    ensures r < TWO_32 && r <= x && (x < TWO_32 ==> r == x)
  {
    x % TWO_32
  }

  /** calculateParallelLedgerBatchSize. */
  function BatchSize(rangeSize: nat, workerCount: nat, minBatch: nat, maxBatch: nat): (b: nat)
    requires rangeSize < TWO_32 && 1 <= workerCount < TWO_32
    ensures b >= 64 && b % 64 == 0 && b < TWO_32
    ensures maxBatch > 0 ==> b <= if maxBatch > 64 then maxBatch else 64
    ensures b <= 64 || b <= rangeSize || b <= minBatch
    ensures minBatch < TWO_32 && minBatch % 64 == 0 && (maxBatch == 0 || minBatch <= maxBatch < TWO_32) ==>
      b >= minBatch
  {
    var share := rangeSize / workerCount;
    assert share <= rangeSize by { ShareIsSmaller(rangeSize, workerCount); }
    var atLeast := if minBatch > 0 && share < U32(minBatch) then U32(minBatch) else share;
    var target := if maxBatch > 0 && atLeast > U32(maxBatch) then U32(maxBatch) else atLeast;
    if target > CHECKPOINT_INTERVAL then target / CHECKPOINT_INTERVAL * CHECKPOINT_INTERVAL
    else CHECKPOINT_INTERVAL
  }

  /** `b` is the largest multiple of 64 up to `x`. */
  predicate RoundsDown(b: nat, x: nat) {
    b % 64 == 0 && b <= x < b + 64
  }

  /**
   * From 64 ledgers up, the batch is each worker's share of the request rounded down, so that all workers together take
   * at most the request and less than 64 ledgers each are left; limits replace the share where it lies outside them.
   */
  lemma BatchIsShare(rangeSize: nat, workerCount: nat, minBatch: nat, maxBatch: nat)
    requires rangeSize < TWO_32 && 1 <= workerCount < TWO_32 && minBatch < TWO_32 && maxBatch < TWO_32
    ensures var b := BatchSize(rangeSize, workerCount, minBatch, maxBatch);
            var share := rangeSize / workerCount;
            && (share >= 64 && minBatch <= share && (maxBatch == 0 || share <= maxBatch) ==>
                  RoundsDown(b, share) && workerCount * b <= rangeSize < workerCount * (b + 64))
            && (minBatch >= 64 && share < minBatch && (maxBatch == 0 || minBatch <= maxBatch) ==>
                  RoundsDown(b, minBatch))
            && (maxBatch >= 64 && (share > maxBatch || minBatch > maxBatch) ==> RoundsDown(b, maxBatch))
  {
    var b, share := BatchSize(rangeSize, workerCount, minBatch, maxBatch), rangeSize / workerCount;
    if share >= 64 && minBatch <= share && (maxBatch == 0 || share <= maxBatch) {
      ShareBounds(rangeSize, workerCount, b);
    }
  }

  lemma ShareBounds(x: nat, n: nat, b: nat)
    requires n >= 1 && b <= x / n < b + 64
    ensures n * b <= x < n * (b + 64)
  {
    var q := x / n;
    Arith.MulMonotone(n, b, q);
    Arith.MulMonotone(n, q + 1, b + 64);
    Arith.QuotientBounds(x, n);
  }

  lemma ShareIsSmaller(x: nat, n: nat)
    requires n >= 1
    ensures x / n <= x
  {
    if x / n > x {
      Arith.MulAtLeast(n, x / n);
    }
  }

  // ---------------------------------------------------------------------------------------------------------------
  // The total size of the requested ranges.

  function LedgersOf(rs: seq<LedgerRange>): set<nat> {
    if rs == [] then {} else LedgersOf(rs[..|rs| - 1]) + Ledgers(rs[|rs| - 1].first, rs[|rs| - 1].last)
  }

  function Ledgers(lo: nat, hi: nat): (s: set<nat>)
    ensures forall x :: x in s <==> lo <= x <= hi
    ensures |s| == if lo <= hi then hi + 1 - lo else 0
    decreases hi - lo
  {
    if lo > hi then {} else {lo} + Ledgers(lo + 1, hi)
  }

  lemma {:induction false} LedgersOfBound(rs: seq<LedgerRange>)
    requires ValidRanges(rs)
    ensures forall x :: x in LedgersOf(rs) ==> 1 <= x < NextFree(rs)
    ensures |LedgersOf(rs)| < NextFree(rs)
    ensures rs != [] ==>
      |LedgersOf(rs)| == |LedgersOf(rs[..|rs| - 1])| + (rs[|rs| - 1].last - rs[|rs| - 1].first + 1)
  {
    if rs != [] {
      var rest, r := rs[..|rs| - 1], rs[|rs| - 1];
      LedgersOfBound(rest);
      assert NextFree(rest) <= r.first;
      assert LedgersOf(rest) !! Ledgers(r.first, r.last);
    }
  }

  lemma PrefixSize(rs: seq<LedgerRange>, i: nat)
    requires i < |rs| && ValidRanges(rs)
    ensures |LedgersOf(rs[..i + 1])| == |LedgersOf(rs[..i])| + (rs[i].last - rs[i].first + 1) <= rs[i].last
  {
    var upTo := rs[..i + 1];
    assert upTo[..i] == rs[..i] && upTo[i] == rs[i];
    LedgersOfBound(upTo);
  }

  /** totalRangeSize: with wrapping additions, yet for validated ranges it is the number of ledgers they cover. */
  method TotalRangeSize(rs: seq<LedgerRange>) returns (sum: nat)
    requires ValidRanges(rs) && forall i :: 0 <= i < |rs| ==> rs[i].last < TWO_32
    ensures sum == |LedgersOf(rs)|
  {
    sum := 0;
    for i := 0 to |rs|
      invariant sum == |LedgersOf(rs[..i])|
    {
      PrefixSize(rs, i);
      sum := U32(sum + U32(U32(rs[i].last - rs[i].first) + 1));
    }
    assert rs[..|rs|] == rs;
  }

  // ---------------------------------------------------------------------------------------------------------------
  // Jobs.

  function JobsFrom(lo: nat, hi: nat, b: nat): seq<LedgerRange>
    requires b >= 1
    decreases hi - lo
  {
    if lo >= hi then []
    else
      var to := if lo + b - 1 > hi then hi else lo + b - 1;
      [LedgerRange(lo, to)] + JobsFrom(to + 1, hi, b)
  }

  function Jobs(rs: seq<LedgerRange>, b: nat): seq<LedgerRange>
    requires b >= 1
  {
    if rs == [] then [] else Jobs(rs[..|rs| - 1], b) + JobsFrom(rs[|rs| - 1].first, rs[|rs| - 1].last, b)
  }

  /** The one ledger the strict loop condition leaves out of [lo, hi]. */
  predicate LeftOut(lo: nat, hi: nat, b: nat, x: nat)
    requires b >= 1
  {
    lo <= hi && x == hi && (hi - lo) % b == 0
  }

  lemma RemainderDrop(x: nat, b: nat)
    requires b >= 1 && x >= b
    ensures (x - b) % b == x % b
  {
    var q, r := x / b, x % b;
    assert x == q * b + r;
    assert q >= 1;
    assert x - b == (q - 1) * b + r;
    Arith.RemainderUnique(x - b, b, q - 1, r);
  }

  lemma CoveredCons(r: LedgerRange, rs: seq<LedgerRange>, x: nat)
    ensures Covered([r] + rs, x) <==> r.Contains(x) || Covered(rs, x)
  {
    var all := [r] + rs;
    if r.Contains(x) { assert all[0].Contains(x); }
    if Covered(rs, x) {
      var i :| 0 <= i < |rs| && rs[i].Contains(x);
      assert all[i + 1].Contains(x);
    }
  }

  lemma CoveredConcat(a: seq<LedgerRange>, b: seq<LedgerRange>, x: nat)
    ensures Covered(a + b, x) <==> Covered(a, x) || Covered(b, x)
  {
    var all := a + b;
    if Covered(a, x) {
      var i :| 0 <= i < |a| && a[i].Contains(x);
      assert all[i].Contains(x);
    }
    if Covered(b, x) {
      var i :| 0 <= i < |b| && b[i].Contains(x);
      assert all[|a| + i].Contains(x);
    }
  }

  /** The jobs of one range cover it exactly, but for its last ledger when the length minus one is a multiple of `b`. */
  lemma {:induction false} JobsTile(lo: nat, hi: nat, b: nat, x: nat)
    requires b >= 1
    ensures Covered(JobsFrom(lo, hi, b), x) <==> lo <= x <= hi && !LeftOut(lo, hi, b, x)
    decreases hi - lo
  {
    if lo < hi {
      var to := if lo + b - 1 > hi then hi else lo + b - 1;
      CoveredCons(LedgerRange(lo, to), JobsFrom(to + 1, hi, b), x);
      JobsTile(to + 1, hi, b, x);
      if to == hi {
        Arith.RemainderUnique(hi - lo, b, 0, hi - lo);
      } else {
        RemainderDrop(hi - lo, b);
      }
    } else if lo == hi {
      Arith.RemainderUnique(0, b, 0, 0);
    }
  }

  /** Every job of a range but its last one holds `b` ledgers, and that one holds at most `b`. */
  lemma {:induction false} JobsAreFull(lo: nat, hi: nat, b: nat, i: nat)
    requires b >= 1 && i < |JobsFrom(lo, hi, b)|
    ensures var jobs := JobsFrom(lo, hi, b);
      var size := jobs[i].last + 1 - jobs[i].first;
      1 <= size <= b && (i < |jobs| - 1 ==> size == b)
    decreases hi - lo
  {
    var to := if lo + b - 1 > hi then hi else lo + b - 1;
    var rest := JobsFrom(to + 1, hi, b);
    assert JobsFrom(lo, hi, b) == [LedgerRange(lo, to)] + rest;
    if i > 0 {
      JobsAreFull(to + 1, hi, b, i - 1);
    } else if rest != [] {
      assert to < hi;
    }
  }

  lemma {:induction false} JobsFromValid(lo: nat, hi: nat, b: nat)
    requires b >= 1 && lo >= 1
    ensures ValidRanges(JobsFrom(lo, hi, b))
    ensures forall i :: 0 <= i < |JobsFrom(lo, hi, b)| ==>
      lo <= JobsFrom(lo, hi, b)[i].first && JobsFrom(lo, hi, b)[i].last <= hi
    decreases hi - lo
  {
    if lo < hi {
      var to := if lo + b - 1 > hi then hi else lo + b - 1;
      JobsFromValid(to + 1, hi, b);
    }
  }

  lemma ValidConcat(a: seq<LedgerRange>, b: seq<LedgerRange>)
    requires ValidRanges(a) && ValidRanges(b) && (b != [] ==> NextFree(a) <= b[0].first)
    ensures ValidRanges(a + b)
    ensures b != [] ==> NextFree(a + b) == b[|b| - 1].last + 1
  {
    var r := a + b;
    forall i | 0 <= i < |r| ensures 1 <= r[i].first <= r[i].last && (i > 0 ==> r[i - 1].last < r[i].first) {
      if i == |a| && i > 0 {
        assert r[i - 1] == a[|a| - 1] && r[i] == b[0];
      }
    }
  }

  lemma {:induction false} JobsAreValid(rs: seq<LedgerRange>, b: nat)
    requires b >= 1 && ValidRanges(rs)
    ensures ValidRanges(Jobs(rs, b)) && NextFree(Jobs(rs, b)) <= NextFree(rs)
  {
    if rs != [] {
      var rest, r := rs[..|rs| - 1], rs[|rs| - 1];
      JobsAreValid(rest, b);
      JobsFromValid(r.first, r.last, b);
      assert NextFree(rest) <= r.first;
      var jobs := JobsFrom(r.first, r.last, b);
      assert Jobs(rs, b) == Jobs(rest, b) + jobs;
      ValidConcat(Jobs(rest, b), jobs);
      assert jobs == [] ==> Jobs(rs, b) == Jobs(rest, b);
    }
  }

  /** Over all requested ranges: the jobs cover exactly the requested ledgers but those left out at range ends. */
  lemma {:induction false} JobsCover(rs: seq<LedgerRange>, b: nat, x: nat)
    requires b >= 1
    ensures Covered(Jobs(rs, b), x) <==>
      exists i :: 0 <= i < |rs| && rs[i].Contains(x) && !LeftOut(rs[i].first, rs[i].last, b, x)
  {
    if rs != [] {
      var rest, r := rs[..|rs| - 1], rs[|rs| - 1];
      JobsCover(rest, b, x);
      JobsTile(r.first, r.last, b, x);
      CoveredConcat(Jobs(rest, b), JobsFrom(r.first, r.last, b), x);
      if i :| 0 <= i < |rest| && rest[i].Contains(x) && !LeftOut(rest[i].first, rest[i].last, b, x) {
        assert rs[i].Contains(x);
      }
      if i :| 0 <= i < |rs| && rs[i].Contains(x) && !LeftOut(rs[i].first, rs[i].last, b, x) {
        assert i < |rest| ==> rest[i] == rs[i];
      }
    }
  }

  /** `lowest` is the least of `start` and the first ledgers of the jobs. */
  ghost predicate IsLowest(lowest: nat, start: nat, jobs: seq<LedgerRange>) {
    && lowest <= start && (forall i :: 0 <= i < |jobs| ==> lowest <= jobs[i].first)
    && (lowest == start || exists i :: 0 <= i < |jobs| && jobs[i].first == lowest)
  }

  lemma LowestAppend(lowest: nat, start: nat, jobs: seq<LedgerRange>, r: LedgerRange)
    requires IsLowest(lowest, start, jobs)
    ensures IsLowest(if r.first < lowest then r.first else lowest, start, jobs + [r])
  {
    var all := jobs + [r];
    assert all[|jobs|] == r;
    if r.first >= lowest && lowest != start {
      var i :| 0 <= i < |jobs| && jobs[i].first == lowest;
      assert all[i].first == lowest;
    }
  }

  lemma LowestConcat(l0: nat, l1: nat, start: nat, a: seq<LedgerRange>, b: seq<LedgerRange>)
    requires IsLowest(l0, start, a) && IsLowest(l1, l0, b)
    ensures IsLowest(l1, start, a + b)
  {
    var all := a + b;
    if l1 != l0 {
      var i :| 0 <= i < |b| && b[i].first == l1;
      assert all[|a| + i].first == l1;
    } else if l0 != start {
      var i :| 0 <= i < |a| && a[i].first == l0;
      assert all[i].first == l1;
    }
  }

  lemma JobsStep(jobs: seq<LedgerRange>, lo: nat, hi: nat, b: nat)
    requires b >= 1 && lo < hi
    ensures var to := if lo + b - 1 > hi then hi else lo + b - 1;
      jobs + JobsFrom(lo, hi, b) == (jobs + [LedgerRange(lo, to)]) + JobsFrom(to + 1, hi, b)
  {
  }

  /** The inner loop of enqueueReingestTasks; the stop channel is seen once `accepts` jobs are taken. */
  method EnqueueRange(cur: LedgerRange, b: nat, accepts: nat, start: nat)
    returns (lowest: nat, jobs: seq<LedgerRange>, stopped: bool)
    requires 1 <= b <= 0x8000_0000 && cur.first <= cur.last < 0x8000_0000
    ensures jobs <= JobsFrom(cur.first, cur.last, b) && |jobs| <= accepts
    ensures if stopped then |jobs| == accepts else jobs == JobsFrom(cur.first, cur.last, b)
    ensures IsLowest(lowest, start, jobs)
  {
    lowest, jobs := start, [];
    var from := cur.first;
    while from < cur.last
      invariant cur.first <= from <= cur.last + 1 && |jobs| <= accepts
      invariant jobs + JobsFrom(from, cur.last, b) == JobsFrom(cur.first, cur.last, b)
      invariant IsLowest(lowest, start, jobs)
    {
      var to := U32(from + (b - 1));
      if to > cur.last {
        to := cur.last;
      }
      if |jobs| == accepts {
        return lowest, jobs, true;
      }
      var job := LedgerRange(from, to);
      LowestAppend(lowest, start, jobs, job);
      JobsStep(jobs, from, cur.last, b);
      jobs := jobs + [job];
      if from < lowest {
        lowest := from;
      }
      from := to + 1;
    }
    assert jobs + [] == jobs;
    return lowest, jobs, false;
  }

  /**
   * enqueueReingestTasks: it sends a prefix of the jobs, all of them unless stopped, and returns the lowest ledger.
   */
  method Enqueue(rs: seq<LedgerRange>, b: nat, accepts: nat) returns (lowest: nat, sent: seq<LedgerRange>)
    requires ValidRanges(rs) && 1 <= b <= 0x8000_0000
    requires forall i :: 0 <= i < |rs| ==> rs[i].last < 0x8000_0000
    ensures sent <= Jobs(rs, b) && (|sent| == accepts || sent == Jobs(rs, b))
    ensures IsLowest(lowest, TWO_32 - 1, sent)
  {
    lowest, sent := TWO_32 - 1, [];
    for n := 0 to |rs|
      invariant sent == Jobs(rs[..n], b) && |sent| <= accepts
      invariant IsLowest(lowest, TWO_32 - 1, sent)
    {
      var l, jobs, stopped := EnqueueRange(rs[n], b, accepts - |sent|, lowest);
      LowestConcat(lowest, l, TWO_32 - 1, sent, jobs);
      JobsPrefix(rs, n, b);
      lowest, sent := l, sent + jobs;
      if stopped {
        JobsMonotone(rs, n + 1, b);
        return;
      }
    }
    assert rs[..|rs|] == rs;
  }

  lemma JobsPrefix(rs: seq<LedgerRange>, n: nat, b: nat)
    requires n < |rs| && b >= 1
    ensures Jobs(rs[..n + 1], b) == Jobs(rs[..n], b) + JobsFrom(rs[n].first, rs[n].last, b)
  {
    assert rs[..n + 1][..n] == rs[..n];
  }

  lemma {:induction false} JobsMonotone(rs: seq<LedgerRange>, n: nat, b: nat)
    requires n <= |rs| && b >= 1
    ensures Jobs(rs[..n], b) <= Jobs(rs, b)
    decreases |rs| - n
  {
    if n < |rs| {
      JobsPrefix(rs, n, b);
      JobsMonotone(rs, n + 1, b);
    } else {
      assert rs[..n] == rs;
    }
  }

  // ---------------------------------------------------------------------------------------------------------------
  // The batch size a request gets.

  /** The batch size ReingestRange computes for the ranges. */
  function RequestBatch(rs: seq<LedgerRange>, workerCount: nat, minBatch: nat, maxBatch: nat): (b: nat)
    requires ValidRanges(rs) && NextFree(rs) <= TWO_32 && 1 <= workerCount < TWO_32
    ensures b >= 64
  {
    LedgersOfBound(rs);
    BatchSize(|LedgersOf(rs)|, workerCount, minBatch, maxBatch)
  }

  /**
   * The queueing half of ReingestRange: invalid ranges are refused; otherwise the jobs of the computed batch size are
   * sent, all of them unless a worker stops the queueing.
   */
  method QueueRequest(rs: seq<LedgerRange>, workerCount: nat, minBatch: nat, maxBatch: nat, accepts: nat)
    returns (ok: bool, lowest: nat, sent: seq<LedgerRange>)
    requires 1 <= workerCount < TWO_32 && minBatch <= 0x8000_0000
    requires forall i :: 0 <= i < |rs| ==> rs[i].last < 0x8000_0000
    ensures ok <==> ValidRanges(rs)
    ensures !ok ==> sent == []
    ensures ok ==> NextFree(rs) <= 0x8000_0000
    ensures ok ==> var jobs := Jobs(rs, RequestBatch(rs, workerCount, minBatch, maxBatch));
      sent <= jobs && (|sent| == accepts || sent == jobs)
    ensures IsLowest(lowest, TWO_32 - 1, sent)
  {
    ok := ValidateRanges(rs);
    lowest, sent := TWO_32 - 1, [];
    if !ok {
      return;
    }
    LedgersOfBound(rs);
    var size := TotalRangeSize(rs);
    var batch := BatchSize(size, workerCount, minBatch, maxBatch);
    lowest, sent := Enqueue(rs, batch, accepts);
  }

  lemma LedgersOfOne(lo: nat, hi: nat)
    requires lo <= hi
    ensures |LedgersOf([LedgerRange(lo, hi)])| == hi + 1 - lo
  {
    var rs := [LedgerRange(lo, hi)];
    assert rs[..0] == [];
    assert LedgersOf(rs) == Ledgers(lo, hi);
  }

  /** Requests that lose a ledger: a single ledger, whatever the workers and limits, is split into no job at all. */
  lemma SingleLedgerHasNoJob(n: nat, workerCount: nat, minBatch: nat, maxBatch: nat)
    requires 1 <= n < TWO_32 && 1 <= workerCount < TWO_32
    ensures Jobs([LedgerRange(n, n)], RequestBatch([LedgerRange(n, n)], workerCount, minBatch, maxBatch)) == []
  {
    var rs := [LedgerRange(n, n)];
    assert rs[..0] == [];
  }

  /** And 65 ledgers on one worker without limits make one job of 64. */
  lemma LastLedgerHasNoJob(n: nat)
    requires 1 <= n < TWO_32 - 64
    ensures var rs := [LedgerRange(n, n + 64)];
      RequestBatch(rs, 1, 0, 0) == 64 && Jobs(rs, 64) == [LedgerRange(n, n + 63)]
  {
    var rs := [LedgerRange(n, n + 64)];
    LedgersOfOne(n, n + 64);
    assert rs[..0] == [];
    assert JobsFrom(n + 64, n + 64, 64) == [];
  }
}
