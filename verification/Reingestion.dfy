/** The `reingest range` command: delete, ingest again in flushed batches, retry on error. */
module Reingestion {
  import opened Network
  import opened LedgerRanges
  import Arith

  /** How far a deletion over all history tables gets: the tables are cleared one by one, in any order. */
  datatype Deletion = Deletes | FailsBeforeLedgers | FailsAfterLedgers

  /** What goes wrong in one attempt. */
  datatype Attempt = Attempt(
    setupFails: bool, deletion: Deletion, backendFailsAt: Option<nat>, flushFailsAt: Option<nat>, commitFails: bool)

  predicate NoFaultInside(att: Attempt) {
    att.deletion.Deletes? && att.backendFailsAt.None? && att.flushFailsAt.None?
  }

  const NO_FAULT := Attempt(false, Deletes, None, None, false)

  /** Ledger 1 is pregenerated and not available. */
  function FirstLedger(lo: nat): nat {
    if lo == 1 then 2 else lo
  }

  /** History with [lo, hi] replaced by one row per ledger. */
  function Replaced(h: seq<nat>, lo: nat, hi: nat): seq<nat>
    requires lo <= hi + 1
  {
    Partly(h, lo, hi, hi + 1)
  }

  /** History with [lo, hi] deleted and the ledgers [lo, e) ingested again. */
  function Partly(h: seq<nat>, lo: nat, hi: nat, e: nat): seq<nat>
    requires lo <= e
  {
    Without(h, lo, hi) + Interval(lo, e)
  }

  /** What an attempt may leave behind: history as it was, or with the range deleted and a prefix ingested. */
  ghost predicate MayLeave(h: seq<nat>, h': seq<nat>, lo: nat, hi: nat) {
    h' == h || exists e: nat :: lo <= e <= hi + 1 && h' == Partly(h, lo, hi, e)
  }

  /** Deleting the range again after an attempt gives what deleting it in the first place gives. */
  lemma AttemptIsErased(h: seq<nat>, h': seq<nat>, lo: nat, hi: nat)
    requires MayLeave(h, h', lo, hi)
    ensures Without(h', lo, hi) == Without(h, lo, hi)
  {
    if h' != h {
      var e: nat :| lo <= e <= hi + 1 && h' == Partly(h, lo, hi, e);
      WithoutAppend(Without(h, lo, hi), Interval(lo, e), lo, hi);
      WithoutCovers(Interval(lo, e), lo, hi);
      WithoutTwice(h, lo, hi);
      assert Without(h, lo, hi) + [] == Without(h, lo, hi);
    }
  }

  lemma WithoutTwice(h: seq<nat>, lo: nat, hi: nat)
    ensures Without(Without(h, lo, hi), lo, hi) == Without(h, lo, hi)
  {
    var r := Without(h, lo, hi);
    forall i | 0 <= i < |r| ensures !(lo <= r[i] <= hi) {
      WithoutContains(h, lo, hi, r[i]);
    }
    WithoutMisses(r, lo, hi);
  }

  /** Attempts compose: what two of them leave is what one may leave. */
  lemma AttemptsCompose(h: seq<nat>, h': seq<nat>, h'': seq<nat>, lo: nat, hi: nat)
    requires MayLeave(h, h', lo, hi) && MayLeave(h', h'', lo, hi)
    ensures MayLeave(h, h'', lo, hi)
  {
    AttemptIsErased(h, h', lo, hi);
    if h'' != h' {
      var e: nat :| lo <= e <= hi + 1 && h'' == Partly(h', lo, hi, e);
      assert h'' == Partly(h, lo, hi, e);
    }
  }

  function CountOf(h: seq<nat>, x: nat): nat {
    multiset(h)[x]
  }

  lemma {:induction false} CountWithout(h: seq<nat>, lo: nat, hi: nat, x: nat)
    ensures CountOf(Without(h, lo, hi), x) == if lo <= x <= hi then 0 else CountOf(h, x)
  {
    if h != [] {
      CountWithout(h[1..], lo, hi, x);
      assert h == [h[0]] + h[1..];
    }
  }

  lemma {:induction false} CountInterval(lo: nat, hi: nat, x: nat)
    requires lo <= hi
    ensures CountOf(Interval(lo, hi), x) == if lo <= x < hi then 1 else 0
    decreases hi - lo
  {
    if lo < hi {
      CountInterval(lo, hi - 1, x);
      assert Interval(lo, hi) == Interval(lo, hi - 1) + [hi - 1];
    }
  }

  /** A replaced range holds each of its ledgers exactly once and changes nothing outside. */
  lemma ReplacedCounts(h: seq<nat>, lo: nat, hi: nat, x: nat)
    requires lo <= hi + 1
    ensures CountOf(Replaced(h, lo, hi), x) == if lo <= x <= hi then 1 else CountOf(h, x)
  {
    CountWithout(h, lo, hi, x);
    CountInterval(lo, hi + 1, x);
  }

  lemma LeftoverCounts(h: seq<nat>, h': seq<nat>, lo: nat, hi: nat, x: nat)
    requires MayLeave(h, h', lo, hi) && !(lo <= x <= hi)
    ensures CountOf(h', x) == CountOf(h, x)
  {
    if h' != h {
      var e: nat :| lo <= e <= hi + 1 && h' == Partly(h, lo, hi, e);
      CountWithout(h, lo, hi, x);
      CountInterval(lo, e, x);
    }
  }

  /** The loop stopped with [lo, e) flushed: the backend failed within the next flush, or that flush failed. */
  ghost predicate StoppedBy(att: Attempt, lo: nat, hi: nat, flush: nat, e: nat) {
    && lo <= e <= hi
    && exists n: nat :: e - lo == n * flush
                        && ((att.backendFailsAt.Some? && e <= att.backendFailsAt.value < e + flush
                             && att.backendFailsAt.value <= hi)
                            || att.flushFailsAt == Some(n))
  }

  /** Exactly what a failed attempt leaves of `h`, by what failed. */
  ghost predicate Leaves(h: seq<nat>, h': seq<nat>, lo: nat, hi: nat, flush: nat, att: Attempt) {
    match att.deletion
    case FailsBeforeLedgers => h' == h
    case FailsAfterLedgers => h' == Without(h, lo, hi)
    case Deletes => exists e: nat :: StoppedBy(att, lo, hi, flush, e) && h' == Partly(h, lo, hi, e)
  }

  /** The ranges before `i` are reingested, and nothing outside the ranges up to `i` has changed. */
  ghost predicate GaveUpAt(rs: seq<LedgerRange>, i: nat, h: seq<nat>, h': seq<nat>)
    requires i < |rs|
  {
    && (forall x: nat :: x >= 2 && Covered(rs[..i], x) ==> CountOf(h', x) == 1)
    && (forall x: nat :: !(x >= 2 && Covered(rs[..i + 1], x)) ==> CountOf(h', x) == CountOf(h, x))
  }

  ghost predicate Recovers(atts: nat -> Attempt, retries: nat) {
    exists k :: 0 <= k <= retries && atts(k) == NO_FAULT
  }

  class Reingester {
    var history: seq<nat>
    var lastIngested: nat
    const maxLedgerPerFlush: nat

    constructor (h: seq<nat>, last: nat, flush: nat)
      ensures history == h && lastIngested == last && maxLedgerPerFlush == flush
    {
      history, lastIngested, maxLedgerPerFlush := h, last, flush;
    }

    /** The range can be reingested at all: it holds an available ledger and does not reach the last ingested one. */
    predicate Admits(r: LedgerRange, force: bool)
      reads this
    {
      && maxLedgerPerFlush >= 1 && 1 <= r.first && FirstLedger(r.first) <= r.last
      && (force || lastIngested == 0 || r.last < lastIngested)
    }

    /** ingestRange: every successful statement is kept, whatever fails after it. */
    method IngestRange(lo: nat, hi: nat, att: Attempt) returns (ok: bool)
      modifies this`history
      ensures lo > hi ==> !ok
      ensures ok ==> history == Replaced(old(history), lo, hi)
      ensures MayLeave(old(history), history, lo, hi)
      ensures maxLedgerPerFlush >= 1 && 1 <= lo <= hi && NoFaultInside(att) ==> ok
      ensures maxLedgerPerFlush >= 1 && 1 <= lo <= hi && !ok ==>
        Leaves(old(history), history, lo, hi, maxLedgerPerFlush, att)
      ensures !(maxLedgerPerFlush >= 1 && 1 <= lo <= hi) ==> !ok && history == old(history)
    {
      if maxLedgerPerFlush < 1 || lo > hi || lo == 0 || att.deletion.FailsBeforeLedgers? {
        return false;
      }
      history := Without(history, lo, hi);
      NothingFlushed(old(history), lo, hi);
      if att.deletion.FailsAfterLedgers? {
        return false;
      }
      ghost var e;
      ok, e := FlushAll(lo, hi, att, old(history));
    }

    /** The loop of ingestRange over a history `base` whose range has just been deleted. */
    method FlushAll(lo: nat, hi: nat, att: Attempt, ghost base: seq<nat>) returns (ok: bool, ghost e: nat)
      requires maxLedgerPerFlush >= 1 && 1 <= lo <= hi && history == Partly(base, lo, hi, lo)
      modifies this`history
      ensures lo <= e <= hi + 1 && history == Partly(base, lo, hi, e)
      ensures ok ==> e == hi + 1
      ensures att.backendFailsAt.None? && att.flushFailsAt.None? ==> ok
      ensures !ok ==> StoppedBy(att, lo, hi, maxLedgerPerFlush, e)
    {
      var ledgers: seq<nat> := [];
      var cur, flushes := lo, 0;
      e := lo;
      while cur <= hi
        invariant lo <= e <= cur <= hi + 1 && cur - e < maxLedgerPerFlush
        invariant ledgers == Interval(e, cur) && e - lo == flushes * maxLedgerPerFlush
        invariant history == Partly(base, lo, hi, e)
      {
        if att.backendFailsAt == Some(cur) {
          return false, e;
        }
        ledgers := ledgers + [cur];
        cur := cur + 1;
        assert ledgers == Interval(e, cur);
        FullOrNot(|ledgers|, maxLedgerPerFlush);
        if |ledgers| % maxLedgerPerFlush == 0 {
          if att.flushFailsAt == Some(flushes) {
            return false, e;
          }
          FlushExtends(base, lo, hi, e, cur);
          history := history + ledgers;
          ledgers, e := [], cur;
          Arith.NextMultiple(flushes, maxLedgerPerFlush);
          flushes := flushes + 1;
        }
      }
      if |ledgers| > 0 {
        if att.flushFailsAt == Some(flushes) {
          return false, e;
        }
        FlushExtends(base, lo, hi, e, cur);
        history := history + ledgers;
        e := cur;
      }
      return true, e;
    }

    /** reingestHistoryRangeState.run: inside one transaction when forced, statement by statement otherwise. */
    method Run(first: nat, hi: nat, force: bool, att: Attempt) returns (ok: bool)
      modifies this`history
      ensures ok ==> 1 <= first <= hi && FirstLedger(first) <= hi
      ensures ok ==> history == Replaced(old(history), FirstLedger(first), hi)
      ensures ok && !force ==> lastIngested == 0 || hi < lastIngested
      ensures Admits(LedgerRange(first, hi), force) && att == NO_FAULT ==> ok
      ensures MayLeave(old(history), history, FirstLedger(first), hi)
      // What a failed attempt flushed is kept, with force too, unless its commit fails.
      ensures !Admits(LedgerRange(first, hi), force) || att.setupFails ==> !ok && history == old(history)
      ensures force && att.commitFails ==> !ok && history == old(history)
      ensures !ok && Admits(LedgerRange(first, hi), force) && !att.setupFails && !(force && att.commitFails) ==>
        Leaves(old(history), history, FirstLedger(first), hi, maxLedgerPerFlush, att)
    {
      if first == 0 || hi == 0 || first > hi || att.setupFails {
        return false;
      }
      var lo := FirstLedger(first);
      if force {
        var before := history;
        ok := IngestRange(lo, hi, att);
        if att.commitFails {
          history := before;
          return false;
        }
      } else {
        if lastIngested > 0 && hi >= lastIngested {
          return false;
        }
        ok := IngestRange(lo, hi, att);
      }
    }

    /** The retry loop of ReingestRange for one range; `atts` are the attempts to come. */
    method Retry(r: LedgerRange, force: bool, retries: nat, atts: nat -> Attempt) returns (ok: bool, attempts: nat)
      modifies this`history
      ensures ok ==> FirstLedger(r.first) <= r.last && history == Replaced(old(history), FirstLedger(r.first), r.last)
      ensures MayLeave(old(history), history, FirstLedger(r.first), r.last)
      ensures Admits(r, force) && Recovers(atts, retries) ==> ok
      ensures 1 <= attempts <= retries + 1 && (!ok ==> attempts == retries + 1)
    {
      var lo := FirstLedger(r.first);
      ok := Run(r.first, r.last, force, atts(0));
      var retry := 0;
      while !ok && retry < retries
        invariant MayLeave(old(history), history, lo, r.last)
        invariant ok ==> lo <= r.last && history == Replaced(old(history), lo, r.last)
        invariant retry <= retries && (!ok && Admits(r, force) ==> forall k :: 0 <= k <= retry ==> atts(k) != NO_FAULT)
      {
        ghost var before := history;
        ok := Run(r.first, r.last, force, atts(retry + 1));
        AttemptsCompose(old(history), before, history, lo, r.last);
        AttemptIsErased(old(history), before, lo, r.last);
        retry := retry + 1;
      }
      attempts := retry + 1;
    }

    /**
     * System.ReingestRange: when it succeeds, each ledger of the ranges (from 2 on) is stored exactly once; and,
     * successful or not, after any number of failed attempts, nothing outside the ranges has changed. It succeeds if
     * every range is admissible and has one attempt without fault among those made.
     */
    method ReingestRange(rs: seq<LedgerRange>, force: bool, retries: nat, atts: nat -> nat -> Attempt)
      returns (ok: bool)
      modifies this`history
      ensures ok ==> ValidRanges(rs)
      ensures ValidRanges(rs) && (forall i :: 0 <= i < |rs| ==> Admits(rs[i], force) && Recovers(atts(i), retries)) ==>
        ok
      ensures ok ==> forall x: nat :: x >= 2 && Covered(rs, x) ==> CountOf(history, x) == 1
      ensures forall x: nat :: !(x >= 2 && Covered(rs, x)) ==> CountOf(history, x) == CountOf(old(history), x)
      // It gives up at the first range that keeps failing: those before are done, those after untouched.
      ensures !ValidRanges(rs) ==> history == old(history)
      ensures !ok && ValidRanges(rs) ==> exists i :: 0 <= i < |rs| && GaveUpAt(rs, i, old(history), history)
    {
      ok := ValidateRanges(rs);
      if !ok {
        return;
      }
      for i := 0 to |rs|
        invariant forall x: nat :: x >= 2 && Covered(rs[..i], x) ==> CountOf(history, x) == 1
        invariant forall x: nat :: !(x >= 2 && Covered(rs[..i], x)) ==> CountOf(history, x) == CountOf(old(history), x)
      {
        ghost var before := history;
        var r, lo := rs[i], FirstLedger(rs[i].first);
        var attempts;
        ok, attempts := Retry(r, force, retries, atts(i));
        assert rs[..i + 1] == rs[..i] + [r];
        forall x: nat
          ensures Covered(rs[..i + 1], x) <==> Covered(rs[..i], x) || r.Contains(x)
          ensures !(x >= 2 && r.Contains(x)) ==> CountOf(history, x) == CountOf(before, x)
          ensures ok && x >= 2 && r.Contains(x) ==> CountOf(history, x) == 1
        {
          CoveredAppend(rs[..i], r, x);
          if !(lo <= x <= r.last) {
            LeftoverCounts(before, history, lo, r.last, x);
          } else if ok {
            ReplacedCounts(before, lo, r.last, x);
          }
        }
        if !ok {
          forall x: nat | !(x >= 2 && Covered(rs, x)) ensures CountOf(history, x) == CountOf(old(history), x) {
            PrefixCovers(rs, i + 1, x);
          }
          RangesDoNotMeet(rs, i);
          assert GaveUpAt(rs, i, old(history), history);
          return;
        }
      }
      assert rs[..|rs|] == rs;
    }
  }

  lemma RangesDoNotMeet(rs: seq<LedgerRange>, i: nat)
    requires ValidRanges(rs) && i < |rs|
    ensures forall x: nat :: Covered(rs[..i], x) ==> !rs[i].Contains(x)
  {
    RangesIncrease(rs);
    forall x: nat | Covered(rs[..i], x) ensures !rs[i].Contains(x) {
      var j :| 0 <= j < i && rs[..i][j].Contains(x);
      assert rs[j].last < rs[i].first;
    }
  }

  lemma PrefixCovers(rs: seq<LedgerRange>, n: nat, x: nat)
    requires n <= |rs|
    ensures Covered(rs[..n], x) ==> Covered(rs, x)
  {
    if Covered(rs[..n], x) {
      var j :| 0 <= j < n && rs[..n][j].Contains(x);
      assert rs[j].Contains(x);
    }
  }

  lemma NothingFlushed(h: seq<nat>, lo: nat, hi: nat)
    requires lo <= hi
    ensures Without(h, lo, hi) == Partly(h, lo, hi, lo)
  {
    assert Without(h, lo, hi) + Interval(lo, lo) == Without(h, lo, hi);
  }

  lemma FlushExtends(h: seq<nat>, lo: nat, hi: nat, mid: nat, e: nat)
    requires lo <= mid <= e <= hi + 1
    ensures Partly(h, lo, hi, mid) + Interval(mid, e) == Partly(h, lo, hi, e)
  {
    assert Interval(lo, mid) + Interval(mid, e) == Interval(lo, e);
  }

  /** A buffer of at most `m` ledgers is flushed exactly when it is full. */
  lemma FullOrNot(n: nat, m: nat)
    requires 0 < n <= m
    ensures n % m == 0 <==> n == m
  {
    if n < m {
      Arith.RemainderUnique(n, m, 0, n);
    } else {
      Arith.RemainderUnique(n, m, 1, 0);
    }
  }
}
