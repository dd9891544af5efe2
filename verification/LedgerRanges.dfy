/** Ranges of ledger sequences: validation, and detection of the gaps in history. */
module LedgerRanges {

  datatype LedgerRange = LedgerRange(first: nat, last: nat) {
    predicate Contains(x: nat) {
      first <= x <= last
    }
  }

  /** Every range is non-empty and starts at ledger 1 or later, and each ends before the next begins. */
  ghost predicate ValidRanges(rs: seq<LedgerRange>) {
    && (forall i :: 0 <= i < |rs| ==> 1 <= rs[i].first <= rs[i].last)
    && (forall i :: 0 < i < |rs| ==> rs[i - 1].last < rs[i].first)
  }

  method ValidateRanges(rs: seq<LedgerRange>) returns (ok: bool)
    ensures ok <==> ValidRanges(rs)
  {
    for i := 0 to |rs|
      invariant ValidRanges(rs[..i])
    {
      var cur := rs[i];
      if cur.first > cur.last {
        return false;
      }
      if cur.first == 0 {
        return false;
      }
      if i > 0 {
        var prev := rs[i - 1];
        if prev.last >= cur.first {
          return false;
        }
      }
      assert rs[..i + 1] == rs[..i] + [cur];
    }
    assert rs[..|rs|] == rs;
    return true;
  }

  /** Ledger `x` is in one of the ranges. */
  predicate Covered(rs: seq<LedgerRange>, x: nat) {
    exists i :: 0 <= i < |rs| && rs[i].Contains(x)
  }

  lemma CoveredAppend(rs: seq<LedgerRange>, r: LedgerRange, x: nat)
    ensures Covered(rs + [r], x) <==> Covered(rs, x) || r.Contains(x)
  {
    var all := rs + [r];
    if Covered(rs, x) {
      var i :| 0 <= i < |rs| && rs[i].Contains(x);
      assert all[i].Contains(x);
    }
    if r.Contains(x) {
      assert all[|rs|].Contains(x);
    }
  }

  /** One past the last ledger of the ranges so far. */
  function NextFree(rs: seq<LedgerRange>): nat {
    if rs == [] then 1 else rs[|rs| - 1].last + 1
  }

  lemma ValidAppend(rs: seq<LedgerRange>, r: LedgerRange)
    requires ValidRanges(rs) && NextFree(rs) <= r.first <= r.last
    ensures ValidRanges(rs + [r])
  {
  }

  ghost predicate Increasing(s: seq<nat>) {
    forall i, j :: 0 <= i < j < |s| ==> s[i] < s[j]
  }

  /** The rows of `SELECT sequence, LEAD(sequence) OVER (ORDER BY sequence)` whose successor is not adjacent. */
  function Gaps(rows: seq<nat>): seq<LedgerRange> {
    if |rows| < 2 then []
    else
      var n := |rows|;
      Gaps(rows[..n - 1]) +
      if rows[n - 2] + 1 < rows[n - 1] then [LedgerRange(rows[n - 2] + 1, rows[n - 1] - 1)] else []
  }

  lemma {:induction false} GapsAreValid(rows: seq<nat>)
    requires Increasing(rows) && rows != [] && rows[0] > 0
    ensures ValidRanges(Gaps(rows)) && NextFree(Gaps(rows)) <= rows[|rows| - 1]
    ensures Gaps(rows) != [] ==> Gaps(rows)[0].first > rows[0]
  {
    var n := |rows|;
    if n >= 2 {
      var init := rows[..n - 1];
      GapsAreValid(init);
      assert init[0] == rows[0] && init[n - 2] == rows[n - 2] && rows[0] <= rows[n - 2] < rows[n - 1];
      if rows[n - 2] + 1 < rows[n - 1] {
        var gap := LedgerRange(rows[n - 2] + 1, rows[n - 1] - 1);
        assert Gaps(rows) == Gaps(init) + [gap];
        ValidAppend(Gaps(init), gap);
      } else {
        assert Gaps(rows) == Gaps(init);
      }
    }
  }

  lemma MemberOfPrefix(rows: seq<nat>, x: nat)
    requires Increasing(rows) && rows != []
    ensures x in rows <==> x in rows[..|rows| - 1] || x == rows[|rows| - 1]
    ensures x in rows ==> rows[0] <= x <= rows[|rows| - 1]
  {
    assert rows == rows[..|rows| - 1] + [rows[|rows| - 1]];
    if x in rows {
      var i :| 0 <= i < |rows| && rows[i] == x;
    }
  }

  lemma {:induction false} GapsCoverMissing(rows: seq<nat>, x: nat)
    requires Increasing(rows) && rows != []
    ensures Covered(Gaps(rows), x) <==> rows[0] < x < rows[|rows| - 1] && x !in rows
  {
    var n := |rows|;
    if n >= 2 {
      var init := rows[..n - 1];
      GapsCoverMissing(init, x);
      MemberOfPrefix(rows, x);
      MemberOfPrefix(init, x);
      assert init[0] == rows[0] && init[n - 2] == rows[n - 2];
      if rows[n - 2] + 1 < rows[n - 1] {
        CoveredAppend(Gaps(init), LedgerRange(rows[n - 2] + 1, rows[n - 1] - 1), x);
      } else {
        assert Gaps(rows) == Gaps(init);
      }
    }
  }

  /**
   * GetLedgerGapsInRange over the stored sequences in ascending order: the result covers exactly the missing
   * sequences of [lo, hi], sorted and disjoint, in the form ValidateRanges accepts.
   */
  method GetLedgerGapsInRange(rows: seq<nat>, lo: nat, hi: nat) returns (result: seq<LedgerRange>)
    requires Increasing(rows) && (rows != [] ==> rows[0] > 0)
    requires 1 <= lo <= hi
    ensures ValidRanges(result)
    ensures forall x: nat :: Covered(result, x) <==> lo <= x <= hi && x !in rows
  {
    if rows == [] {
      result := [LedgerRange(lo, hi)];
      assert forall x: nat :: result[0].Contains(x) <==> lo <= x <= hi;
      return;
    }
    var oldest, latest := rows[0], rows[|rows| - 1];
    var head := HeadBefore(lo, hi, oldest);
    if hi <= oldest {
      AllBeforeOldest(rows, head, lo, hi);
      return head;
    }
    var gaps := Gaps(rows);
    GapsAreValid(rows);
    var clipped := ClipGaps(gaps, head, lo, hi, oldest, latest);
    result := AppendTail(clipped, lo, hi, latest);
    PartsCoverMissing(rows, head, clipped, result, lo, hi);
  }

  /** The start of GetLedgerGapsInRange: what lies before the oldest stored ledger. */
  method HeadBefore(lo: nat, hi: nat, oldest: nat) returns (head: seq<LedgerRange>)
    requires 1 <= lo <= hi && oldest >= 1
    ensures ValidRanges(head) && NextFree(head) <= oldest
    ensures forall x: nat :: Covered(head, x) <==> lo <= x <= hi && x < oldest
  {
    head := [];
    if lo < oldest {
      head := [LedgerRange(lo, if hi < oldest - 1 then hi else oldest - 1)];
      assert forall x: nat :: head[0].Contains(x) <==> lo <= x <= hi && x < oldest;
    }
  }

  lemma AllBeforeOldest(rows: seq<nat>, head: seq<LedgerRange>, lo: nat, hi: nat)
    requires Increasing(rows) && rows != [] && hi <= rows[0]
    requires forall x: nat :: Covered(head, x) <==> lo <= x <= hi && x < rows[0]
    ensures forall x: nat :: Covered(head, x) <==> lo <= x <= hi && x !in rows
  {
    forall x: nat ensures Covered(head, x) <==> lo <= x <= hi && x !in rows {
      MemberOfPrefix(rows, x);
      assert rows[0] in rows;
    }
  }

  /** A missing ledger of [lo, hi] is before the oldest stored one, in a gap, or after the latest one. */
  lemma PartsCoverMissing(rows: seq<nat>, head: seq<LedgerRange>, clipped: seq<LedgerRange>, result: seq<LedgerRange>,
                          lo: nat, hi: nat)
    requires Increasing(rows) && rows != []
    requires forall x: nat :: Covered(head, x) <==> lo <= x <= hi && x < rows[0]
    requires forall x: nat :: Covered(clipped, x) <==> Covered(head, x) || (lo <= x <= hi && Covered(Gaps(rows), x))
    requires forall x: nat :: Covered(result, x) <==> Covered(clipped, x) || (lo <= x <= hi && x > rows[|rows| - 1])
    ensures forall x: nat :: Covered(result, x) <==> lo <= x <= hi && x !in rows
  {
    forall x: nat ensures Covered(result, x) <==> lo <= x <= hi && x !in rows {
      MissingParts(rows, x);
    }
  }

  lemma MissingParts(rows: seq<nat>, x: nat)
    requires Increasing(rows) && rows != []
    ensures x !in rows <==> x < rows[0] || Covered(Gaps(rows), x) || x > rows[|rows| - 1]
  {
    EndsAreRows(rows);
    if x < rows[0] || x > rows[|rows| - 1] {
      MemberOfPrefix(rows, x);
    } else {
      GapsCoverMissing(rows, x);
    }
  }

  lemma EndsAreRows(rows: seq<nat>)
    requires rows != []
    ensures rows[0] in rows && rows[|rows| - 1] in rows
  {
  }

  /** The end of GetLedgerGapsInRange: what lies past the latest stored ledger. */
  method AppendTail(start: seq<LedgerRange>, lo: nat, hi: nat, latest: nat) returns (result: seq<LedgerRange>)
    requires ValidRanges(start) && NextFree(start) <= latest && 1 <= lo <= hi
    ensures ValidRanges(result)
    ensures forall x: nat :: Covered(result, x) <==> Covered(start, x) || (lo <= x <= hi && x > latest)
  {
    result := start;
    if latest < hi {
      var tail := LedgerRange(if latest + 1 > lo then latest + 1 else lo, hi);
      forall x: nat ensures Covered(start + [tail], x) <==> Covered(start, x) || (lo <= x <= hi && x > latest) {
        CoveredAppend(start, tail, x);
      }
      ValidAppend(start, tail);
      result := start + [tail];
    }
  }

  /** The loop of GetLedgerGapsInRange: clip every gap that meets [lo, hi], stopping at the first one past it. */
  method ClipGaps(gaps: seq<LedgerRange>, start: seq<LedgerRange>, lo: nat, hi: nat, oldest: nat, latest: nat)
    returns (result: seq<LedgerRange>)
    requires ValidRanges(gaps) && ValidRanges(start) && 1 <= lo <= hi && 0 < oldest <= latest
    requires NextFree(start) <= oldest && NextFree(gaps) <= latest && (gaps != [] ==> gaps[0].first > oldest)
    ensures ValidRanges(result) && NextFree(result) <= latest
    ensures forall x: nat :: Covered(result, x) <==> Covered(start, x) || (lo <= x <= hi && Covered(gaps, x))
  {
    result := start;
    RangesIncrease(gaps);
    for i := 0 to |gaps|
      invariant ValidRanges(result)
      invariant NextFree(result) <= (if i == 0 then oldest else gaps[i - 1].last + 1)
      invariant forall x: nat :: Covered(result, x) <==> Covered(start, x) || (lo <= x <= hi && Covered(gaps[..i], x))
    {
      var gap := gaps[i];
      assert gaps[..i + 1] == gaps[..i] + [gap];
      forall x: nat ensures Covered(gaps[..i + 1], x) <==> Covered(gaps[..i], x) || gap.Contains(x) {
        CoveredAppend(gaps[..i], gap, x);
      }
      if gap.last < lo {
        continue;
      }
      if gap.first > hi {
        LaterGapsMiss(gaps, i, hi);
        break;
      }
      var clipped := LedgerRange(if gap.first > lo then gap.first else lo, if gap.last < hi then gap.last else hi);
      forall x: nat
        ensures Covered(result + [clipped], x) <==> Covered(result, x) || (lo <= x <= hi && gap.Contains(x))
      {
        CoveredAppend(result, clipped, x);
      }
      ValidAppend(result, clipped);
      result := result + [clipped];
    }
    assert gaps[..|gaps|] == gaps;
  }

  /** Once a gap starts past `hi`, so does every later one. */
  lemma LaterGapsMiss(gaps: seq<LedgerRange>, i: nat, hi: nat)
    requires ValidRanges(gaps) && i < |gaps| && gaps[i].first > hi
    ensures forall x: nat :: x <= hi ==> (Covered(gaps, x) <==> Covered(gaps[..i], x))
  {
    RangesIncrease(gaps);
    forall x: nat | x <= hi ensures Covered(gaps, x) <==> Covered(gaps[..i], x) {
      if Covered(gaps, x) {
        var j :| 0 <= j < |gaps| && gaps[j].Contains(x);
        assert j < i;
        assert gaps[..i][j].Contains(x);
      }
    }
  }

  lemma RangesIncrease(rs: seq<LedgerRange>)
    requires ValidRanges(rs)
    ensures forall i, j :: 0 <= i < j < |rs| ==> rs[i].last < rs[j].first
  {
    forall i, j | 0 <= i < j < |rs| ensures rs[i].last < rs[j].first {
      RangeBefore(rs, i, j);
    }
  }

  lemma {:induction false} RangeBefore(rs: seq<LedgerRange>, i: nat, j: nat)
    requires ValidRanges(rs) && i < j < |rs|
    ensures rs[i].last < rs[j].first
    decreases j
  {
    if i + 1 < j {
      RangeBefore(rs, i, j - 1);
      assert rs[j - 1].first <= rs[j - 1].last < rs[j].first;
    }
  }
}
