/** What the rest of the model calls "the network": a chain of closed ledgers and the state it denotes. */
module Network {

  datatype Option<+T> = None | Some(value: T)

  /** Contents of the state tables: ledger key to row. */
  type Tables = map<string, string>

  /** The changes a closed ledger carries: the new row of a key, or None when the entry was removed. */
  type Changes = map<string, Option<string>>

  function ApplyChanges(t: Tables, c: Changes): Tables
  {
    map k | k in t.Keys + c.Keys && (k in c ==> c[k].Some?) :: if k in c then c[k].value else t[k]
  }

  datatype Chain = Chain(genesis: Tables, closed: nat -> Changes)

  /** The true state of the network after ledger `n`. */
  function Spec(net: Chain, n: nat): (t: Tables)
  {
    if n == 0 then net.genesis else ApplyChanges(Spec(net, n - 1), net.closed(n))
  }

  /** The ledger sequences lo, lo + 1, ..., hi - 1. */
  function Interval(lo: nat, hi: nat): (s: seq<nat>)
    requires lo <= hi
    ensures |s| == hi - lo
    ensures forall i :: 0 <= i < |s| ==> s[i] == lo + i
  {
    seq(hi - lo, i requires 0 <= i < hi - lo => lo + i)
  }

  lemma IntervalContains(lo: nat, hi: nat, x: nat)
    requires lo <= hi
    ensures x in Interval(lo, hi) <==> lo <= x < hi
  {
    if lo <= x < hi {
      assert Interval(lo, hi)[x - lo] == x;
    }
  }

  lemma IntervalPush(lo: nat, hi: nat)
    requires lo <= hi
    ensures Interval(lo, hi) + [hi] == Interval(lo, hi + 1)
  {
  }

  /** The greatest of the first `n` sequences. */
  function LatestUpTo(h: seq<nat>, n: nat): (m: nat)
    requires n <= |h|
    ensures n == 0 ==> m == 0
    ensures n > 0 ==> exists i :: 0 <= i < n && h[i] == m
    ensures forall i :: 0 <= i < n ==> h[i] <= m
  {
    if n == 0 then 0
    else
      var m := LatestUpTo(h, n - 1);
      if h[n - 1] >= m then h[n - 1] else m
  }

  /** `SELECT COALESCE(MAX(sequence), 0) FROM history_ledgers`. */
  function Latest(h: seq<nat>): (m: nat)
    ensures h == [] ==> m == 0
    ensures h != [] ==> m in h
    ensures forall i :: 0 <= i < |h| ==> h[i] <= m
  {
    LatestUpTo(h, |h|)
  }

  lemma LatestAppend(g: seq<nat>, h: seq<nat>)
    ensures Latest(g + h) == if Latest(g) >= Latest(h) then Latest(g) else Latest(h)
  {
    var r := g + h;
    assert forall i :: 0 <= i < |r| ==> r[i] == if i < |g| then g[i] else h[i - |g|];
    assert forall i :: 0 <= i < |g| ==> g[i] <= Latest(g);
    assert forall i :: 0 <= i < |h| ==> h[i] <= Latest(h);
    if g != [] && Latest(g) >= Latest(h) {
      var k :| 0 <= k < |g| && g[k] == Latest(g);
      LatestIs(r, k);
    } else if h != [] {
      var k :| 0 <= k < |h| && h[k] == Latest(h);
      LatestIs(r, |g| + k);
    }
  }

  lemma LatestInterval(lo: nat, hi: nat)
    requires lo < hi
    ensures Latest(Interval(lo, hi)) == hi - 1
  {
    LatestIs(Interval(lo, hi), hi - 1 - lo);
  }

  lemma LatestIs(h: seq<nat>, k: nat)
    requires k < |h| && forall i :: 0 <= i < |h| ==> h[i] <= h[k]
    ensures Latest(h) == h[k]
  {
    assert h[k] <= Latest(h);
    var i :| 0 <= i < |h| && h[i] == Latest(h);
  }

  lemma LatestPush(h: seq<nat>, x: nat)
    requires Latest(h) <= x
    ensures Latest(h + [x]) == x
  {
    assert forall i :: 0 <= i < |h| ==> h[i] <= Latest(h);
    LatestIs(h + [x], |h|);
  }

  /** `h` without the sequences in [lo, hi], order kept: the effect of DeleteRangeAll on history_ledgers. */
  function Without(h: seq<nat>, lo: nat, hi: nat): (r: seq<nat>)
  {
    if h == [] then [] else (if lo <= h[0] <= hi then [] else [h[0]]) + Without(h[1..], lo, hi)
  }

  lemma {:induction false} WithoutContains(h: seq<nat>, lo: nat, hi: nat, x: nat)
    ensures x in Without(h, lo, hi) <==> x in h && !(lo <= x <= hi)
  {
    if h != [] {
      WithoutContains(h[1..], lo, hi, x);
      assert h == [h[0]] + h[1..];
    }
  }

  lemma Associates(a: seq<nat>, b: seq<nat>, c: seq<nat>)
    ensures a + (b + c) == (a + b) + c
  {
  }

  lemma {:induction false} WithoutAppend(g: seq<nat>, h: seq<nat>, lo: nat, hi: nat)
    ensures Without(g + h, lo, hi) == Without(g, lo, hi) + Without(h, lo, hi)
  {
    if g == [] {
      assert g + h == h;
    } else {
      WithoutAppend(g[1..], h, lo, hi);
      assert (g + h)[1..] == g[1..] + h;
      Associates(if lo <= g[0] <= hi then [] else [g[0]], Without(g[1..], lo, hi), Without(h, lo, hi));
    }
  }

  lemma {:induction false} WithoutMisses(h: seq<nat>, lo: nat, hi: nat)
    requires forall i :: 0 <= i < |h| ==> !(lo <= h[i] <= hi)
    ensures Without(h, lo, hi) == h
  {
    if h != [] {
      WithoutMisses(h[1..], lo, hi);
      assert h == [h[0]] + h[1..];
    }
  }

  lemma {:induction false} WithoutCovers(h: seq<nat>, lo: nat, hi: nat)
    requires forall i :: 0 <= i < |h| ==> lo <= h[i] <= hi
    ensures Without(h, lo, hi) == []
  {
    if h != [] {
      WithoutCovers(h[1..], lo, hi);
    }
  }

  /** No ledger sequence is stored twice. */
  ghost predicate Distinct(h: seq<nat>) {
    forall i, j :: 0 <= i < j < |h| ==> h[i] != h[j]
  }

  /** Every sequence between two stored ones is stored. */
  ghost predicate GapFree(h: seq<nat>) {
    forall x: nat, y: nat, z: nat :: x in h && z in h && x < y < z ==> y in h
  }

  lemma {:induction false} WithoutDistinct(h: seq<nat>, lo: nat, hi: nat)
    requires Distinct(h)
    ensures Distinct(Without(h, lo, hi))
  {
    if h != [] {
      WithoutDistinct(h[1..], lo, hi);
      WithoutContains(h[1..], lo, hi, h[0]);
      assert h[0] !in h[1..];
      var r, rest := Without(h, lo, hi), Without(h[1..], lo, hi);
      assert r == rest || r == [h[0]] + rest;
    }
  }

  /** Appending the sequences that follow the latest one keeps a history free of duplicates and gaps. */
  lemma ExtendKeepsShape(h: seq<nat>, hi: nat)
    requires Latest(h) < hi
    ensures Distinct(h) ==> Distinct(h + Interval(Latest(h) + 1, hi))
    ensures GapFree(h) && h != [] ==> GapFree(h + Interval(Latest(h) + 1, hi))
  {
    var tail := Interval(Latest(h) + 1, hi);
    var r := h + tail;
    if Distinct(h) {
      forall i, j | 0 <= i < j < |r| ensures r[i] != r[j] {
        if i < |h| <= j { assert r[j] == tail[j - |h|]; }
      }
    }
    if GapFree(h) && h != [] {
      forall x: nat, y: nat, z: nat | x in r && z in r && x < y < z ensures y in r {
        IntervalContains(Latest(h) + 1, hi, x);
        IntervalContains(Latest(h) + 1, hi, y);
        IntervalContains(Latest(h) + 1, hi, z);
        if y <= Latest(h) {
          assert Latest(h) in h && x in h;
        }
      }
    }
  }
}
