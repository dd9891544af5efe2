/** The history reaper: deletes ledgers older than the retention window, batch by batch. */
module Reaping {
  import opened Network

  const TWO_32: int := 0x1_0000_0000
  const MAX_INT32: nat := 0x7fff_ffff

  /** The ledgers of [lo, hi] that are stored. */
  function Within(h: set<nat>, lo: nat, hi: int): set<nat> {
    set x | x in h && lo <= x <= hi
  }

  function Above(h: set<nat>, s: nat): set<nat> {
    set x | x in h && x > s
  }

  /** GetNextLedgerSequence: the query names no order, so it may return any stored sequence above `s`. */
  type Pick = (nat, set<nat>) -> nat

  ghost predicate Answers(pick: Pick) {
    forall s: nat, h: set<nat> :: Above(h, s) != {} ==> pick(s, h) in Above(h, s)
  }

  /** The query answers with the least sequence above `s`. */
  ghost predicate Ordered(pick: Pick) {
    forall s: nat, h: set<nat>, x: nat :: x in Above(h, s) ==> pick(s, h) <= x
  }

  /** The last ledger of the batch that starts at `s`. */
  function BatchEnd(s: nat, e: nat, b: nat): int {
    if s + b >= e then e - 1 else s + b
  }

  /** What clearBefore leaves of `h` when no statement fails. */
  ghost function Cleared(h: set<nat>, s: nat, e: nat, b: nat, pick: Pick): set<nat>
    requires b >= 1 && Answers(pick)
    decreases e - s
  {
    if s >= e then h
    else
      var batch := Within(h, s, BatchEnd(s, e, b));
      if batch != {} then Cleared(h - batch, s + b + 1, e, b, pick)
      else if Above(h, s) == {} then h
      else Cleared(h, pick(s, h), e, b, pick)
  }

  lemma ClearedStep(h: set<nat>, s: nat, e: nat, b: nat, pick: Pick)
    requires b >= 1 && Answers(pick) && s < e
    ensures var batch := Within(h, s, BatchEnd(s, e, b));
            && (batch != {} ==> Cleared(h, s, e, b, pick) == Cleared(h - batch, s + b + 1, e, b, pick))
            && (batch == {} && Above(h, s) == {} ==> Cleared(h, s, e, b, pick) == h)
            && (batch == {} && Above(h, s) != {} ==>
                  pick(s, h) in Above(h, s) && Cleared(h, s, e, b, pick) == Cleared(h, pick(s, h), e, b, pick))
  {
  }

  /** `after` lacks only ledgers of [s, e). */
  ghost predicate OnlyWithin(before: set<nat>, after: set<nat>, s: nat, e: nat) {
    after <= before && forall x :: x in before - after ==> s <= x < e
  }

  /** `sum` ledgers of [s, e) were deleted. */
  ghost predicate Deleted(before: set<nat>, after: set<nat>, s: nat, e: nat, sum: nat) {
    OnlyWithin(before, after, s, e) && |after| + sum == |before|
  }

  lemma DeletedMore(before: set<nat>, after: set<nat>, s: nat, e: nat, sum: nat, batch: set<nat>)
    requires Deleted(before, after, s, e, sum) && batch <= after && forall x :: x in batch ==> s <= x < e
    ensures Deleted(before, after - batch, s, e, sum + |batch|)
  {
    forall x | x in before - (after - batch) ensures s <= x < e {
      if x in after {
        assert x in batch;
      } else {
        assert x in before - after;
      }
    }
  }

  class Reaper {
    var history: set<nat>
    var pending: bool
    const retention: nat
    const batchSize: nat

    constructor (h: set<nat>, retention: nat, batchSize: nat)
      ensures history == h && !pending && this.retention == retention && this.batchSize == batchSize
    {
      history, pending, this.retention, this.batchSize := h, false, retention, batchSize;
    }

    /** deleteBatch: the stored ledgers of [start, end] go, and are counted. */
    method DeleteBatch(start: nat, end: nat) returns (count: nat)
      modifies this`history
      ensures history == old(history) - Within(old(history), start, end) && count == |Within(old(history), start, end)|
    {
      var batch := Within(history, start, end);
      history := history - batch;
      count := |batch|;
    }

    /** clearBefore; `failsAt` is the batch whose deletion fails, if any. */
    method ClearBefore(s: nat, e: nat, pick: Pick, failsAt: Option<nat>) returns (ok: bool, sum: nat)
      requires Answers(pick)
      requires e <= MAX_INT32 && batchSize <= MAX_INT32
      modifies this`history
      ensures Deleted(old(history), history, s, e, sum)
      ensures ok ==> batchSize >= 1 && history == Cleared(old(history), s, e, batchSize, pick)
      ensures batchSize >= 1 && failsAt.None? ==> ok
    {
      sum := 0;
      if batchSize <= 0 {
        return false, sum;
      }
      var start, batches := s, 0;
      while start < e
        invariant s <= start
        invariant Deleted(old(history), history, s, e, sum)
        invariant Cleared(history, start, e, batchSize, pick) == Cleared(old(history), s, e, batchSize, pick)
        decreases e - start
      {
        if failsAt == Some(batches) {
          return false, sum;
        }
        batches := batches + 1;
        DeletedMore(old(history), history, s, e, sum, Within(history, start, BatchEnd(start, e, batchSize)));
        var count, next := ClearBatch(start, e, pick);
        sum := sum + count;
        if next.None? {
          break;
        }
        start := next.value;
      }
      return true, sum;
    }

    /** One iteration of clearBefore: delete a batch and find where the next one starts. */
    method ClearBatch(start: nat, e: nat, pick: Pick) returns (count: nat, next: Option<nat>)
      requires Answers(pick) && start < e <= MAX_INT32 && 1 <= batchSize <= MAX_INT32
      modifies this`history
      ensures var batch := Within(old(history), start, BatchEnd(start, e, batchSize));
              history == old(history) - batch && count == |batch|
      ensures next.None? ==> Cleared(old(history), start, e, batchSize, pick) == history
      ensures next.Some? ==>
        && next.value > start
        && Cleared(old(history), start, e, batchSize, pick) == Cleared(history, next.value, e, batchSize, pick)
    {
      var end := (start + batchSize) % TWO_32;
      assert end == start + batchSize;
      if end >= e {
        end := e - 1;
      }
      ClearedStep(history, start, e, batchSize, pick);
      count := DeleteBatch(start, end);
      if count == 0 {
        assert history == old(history);
        if Above(history, start) == {} {
          return count, None;
        }
        next := Some(pick(start, history));
      } else {
        next := Some(start + batchSize + 1);
      }
    }

    /** DeleteUnretainedHistory; `locked` tells whether the advisory reaper lock was acquired. */
    method DeleteUnretainedHistory(locked: bool, pick: Pick, failsAt: Option<nat>) returns (ok: bool)
      requires Answers(pick)
      requires batchSize <= MAX_INT32 && retention < TWO_32 && forall x :: x in history ==> 1 <= x <= MAX_INT32
      modifies this
      ensures pending == old(pending)
      ensures history <= old(history)
      // The newest `retention` sequences, counted down from the latest ledger, are never deleted.
      ensures forall x, y :: x in old(history) && IsMax(y, old(history)) && x + retention > y ==> x in history
      ensures retention == 0 || !locked || old(pending) ==> history == old(history)
      ensures batchSize >= 1 && failsAt.None? ==> ok
      // With an ordered next-sequence query a successful run leaves nothing below the retention window.
      ensures ok && locked && !old(pending) && retention > 0 && Ordered(pick) ==>
        forall x, y :: x in history && IsMax(y, old(history)) ==> x + retention > y
    {
      if retention == 0 {
        return true;
      }
      if pending {
        return true;
      }
      pending := true;
      if !locked || history == {} {
        pending := false;
        return true;
      }
      var latest := MaxOf(history);
      var oldest := MinOf(history);
      ghost var before := history;
      assert forall y :: IsMax(y, before) ==> y == latest;
      var targetElder := (latest - retention + 1) % TWO_32;
      if latest <= retention || targetElder < oldest {
        pending := false;
        return true;
      }
      assert targetElder == latest - retention + 1;
      var sum;
      ok, sum := ClearBefore(oldest, targetElder, pick, failsAt);
      assert forall x :: x in before && x !in history ==> x in before - history;
      if ok && Ordered(pick) {
        OrderedIsComplete(before, oldest, targetElder, batchSize, pick);
      }
      pending := false;
    }
  }

  ghost predicate IsMax(y: nat, h: set<nat>) {
    y in h && forall x :: x in h ==> x <= y
  }

  method MaxOf(h: set<nat>) returns (m: nat)
    requires h != {}
    ensures IsMax(m, h)
  {
    m :| m in h;
    var todo := h - {m};
    while todo != {}
      invariant todo <= h && m in h && forall x :: x in h && x !in todo ==> x <= m
    {
      var x :| x in todo;
      if x > m { m := x; }
      todo := todo - {x};
    }
  }

  method MinOf(h: set<nat>) returns (m: nat)
    requires h != {}
    ensures m in h && forall x :: x in h ==> m <= x
  {
    m :| m in h;
    var todo := h - {m};
    while todo != {}
      invariant todo <= h && m in h && forall x :: x in h && x !in todo ==> m <= x
    {
      var x :| x in todo;
      if x < m { m := x; }
      todo := todo - {x};
    }
  }

  ghost predicate Complete(h: set<nat>, s: nat, e: nat) {
    forall x :: x in h && s <= x ==> e <= x
  }

  lemma {:induction false} OrderedIsComplete(h: set<nat>, s: nat, e: nat, b: nat, pick: Pick)
    requires b >= 1 && Answers(pick) && Ordered(pick)
    ensures Complete(Cleared(h, s, e, b, pick), s, e) && Cleared(h, s, e, b, pick) <= h
    decreases e - s
  {
    if s < e {
      var batch := Within(h, s, BatchEnd(s, e, b));
      if batch != {} {
        OrderedIsComplete(h - batch, s + b + 1, e, b, pick);
      } else {
        assert forall x :: x in h && x >= s ==> x in Above(h, s) by {
          assert s in h ==> s in batch;
        }
        if Above(h, s) != {} {
          OrderedIsComplete(h, pick(s, h), e, b, pick);
        }
      }
    }
  }

  /** No batch window, counted from `s`, is empty while a ledger below `e` is still to come. */
  predicate Dense(h: set<nat>, s: nat, e: nat, b: nat)
    requires b >= 1
    decreases e - s
  {
    s >= e || Within(h, s, e - 1) == {} || (Within(h, s, BatchEnd(s, e, b)) != {} && Dense(h, s + b + 1, e, b))
  }

  lemma {:induction false} DenseIgnoresDeleted(h: set<nat>, s: nat, e: nat, b: nat, gone: set<nat>)
    requires b >= 1 && forall x :: x in gone ==> x < s
    ensures Dense(h - gone, s, e, b) <==> Dense(h, s, e, b)
    decreases e - s
  {
    if s < e {
      assert Within(h - gone, s, e - 1) == Within(h, s, e - 1);
      assert Within(h - gone, s, BatchEnd(s, e, b)) == Within(h, s, BatchEnd(s, e, b));
      DenseIgnoresDeleted(h, s + b + 1, e, b, gone);
    }
  }

  lemma {:induction false} DenseIsComplete(h: set<nat>, s: nat, e: nat, b: nat, pick: Pick)
    requires b >= 1 && Answers(pick) && Dense(h, s, e, b)
    ensures Complete(Cleared(h, s, e, b, pick), s, e) && Cleared(h, s, e, b, pick) <= h
    decreases e - s
  {
    if s < e {
      var batch := Within(h, s, BatchEnd(s, e, b));
      if batch != {} {
        assert Within(h, s, e - 1) != {} by { var x :| x in batch; assert x in Within(h, s, e - 1); }
        DenseIgnoresDeleted(h, s + b + 1, e, b, batch);
        DenseIsComplete(h - batch, s + b + 1, e, b, pick);
      } else {
        assert Within(h, s, e - 1) == {};
        assert forall x :: x in h && s <= x < e ==> x in Within(h, s, e - 1);
        if Above(h, s) != {} {
          assert pick(s, h) >= e;
        }
      }
    }
  }

  ghost function Largest(h: set<nat>): nat
    requires h != {}
    ensures IsMax(Largest(h), h)
  {
    LargestExists(h);
    var m :| IsMax(m, h);
    m
  }

  lemma {:induction false} LargestExists(h: set<nat>)
    requires h != {}
    ensures exists m :: IsMax(m, h)
  {
    var x :| x in h;
    if h == {x} {
      assert IsMax(x, h);
    } else {
      LargestExists(h - {x});
      var m :| IsMax(m, h - {x});
      assert forall y :: y in h ==> y == x || y in h - {x};
      assert IsMax(if x > m then x else m, h);
    }
  }

  /** A query that answers with the latest ledger satisfies everything its SQL promises. */
  ghost function LatestFirst(s: nat, h: set<nat>): nat {
    if h == {} then 0 else Largest(h)
  }

  lemma LatestFirstAnswers()
    ensures Answers(LatestFirst)
  {
    forall s: nat, h: set<nat> | Above(h, s) != {} ensures LatestFirst(s, h) in Above(h, s) {
      var x :| x in Above(h, s);
      assert x <= Largest(h);
    }
  }

  lemma {:induction false} SparseIsIncomplete(h: set<nat>, s: nat, e: nat, b: nat, top: nat)
    requires b >= 1 && top in h && top >= e && !Dense(h, s, e, b) && Answers(LatestFirst)
    ensures !Complete(Cleared(h, s, e, b, LatestFirst), s, e)
    decreases e - s
  {
    var batch := Within(h, s, BatchEnd(s, e, b));
    if batch != {} {
      DenseIgnoresDeleted(h, s + b + 1, e, b, batch);
      assert top in h - batch;
      SparseIsIncomplete(h - batch, s + b + 1, e, b, top);
    } else {
      var x :| x in Within(h, s, e - 1);
      assert top in Above(h, s);
      assert Largest(h) >= top;
    }
  }

  /**
   * Whatever order the next-sequence query uses, reaping [s, e) is complete exactly when no empty batch window precedes
   * a stored ledger below `e` (and it is always complete when the query is ordered).
   */
  lemma CompleteIffDense(h: set<nat>, s: nat, e: nat, b: nat, top: nat)
    requires b >= 1 && top in h && top >= e
    ensures Dense(h, s, e, b) <==> forall pick: Pick :: Answers(pick) ==> Complete(Cleared(h, s, e, b, pick), s, e)
  {
    if Dense(h, s, e, b) {
      forall pick: Pick | Answers(pick) ensures Complete(Cleared(h, s, e, b, pick), s, e) {
        DenseIsComplete(h, s, e, b, pick);
      }
    } else {
      LatestFirstAnswers();
      SparseIsIncomplete(h, s, e, b, top);
    }
  }

  /** A gap wider than a batch and a query that answers with the latest ledger: ledger 5 outlives the target elder 6. */
  lemma UnorderedQueryLeavesLedger()
    ensures Answers(LatestFirst) && !Complete(Cleared({1, 5, 10}, 1, 6, 1, LatestFirst), 1, 6)
  {
    LatestFirstAnswers();
    var h: set<nat> := {1, 5, 10};
    assert 1 in Within(h, 1, 2) && 5 in Within(h, 1, 5) && 5 in Within(h, 3, 5);
    assert Within(h, 3, 4) == {};
    assert !Dense(h, 3, 6, 1);
    SparseIsIncomplete(h, 1, 6, 1, 10);
  }
}
