/** Cursor-based pages over a table ordered by a two-part key. */
module Paging {
  import opened Network

  /** (history_operation_id, order) of an effect; one-column tables use `lo == 0`. */
  datatype Key = Key(hi: int, lo: int)

  datatype Order = Asc | Desc

  datatype PageQuery = PageQuery(cursor: string, order: Order, limit: nat)

  predicate Before(a: Key, b: Key) {
    a.hi < b.hi || (a.hi == b.hi && a.lo < b.lo)
  }

  /** A table, listed in key order; keys are unique. */
  ghost predicate Increasing(t: seq<Key>) {
    forall i, j {:trigger Before(t[i], t[j])} :: 0 <= i < j < |t| ==> Before(t[i], t[j])
  }

  /** The rows that satisfy a WHERE clause, in key order. */
  function Select(t: seq<Key>, p: Key -> bool): seq<Key>
    decreases |t|
  {
    if t == [] then [] else (if p(t[0]) then [t[0]] else []) + Select(t[1..], p)
  }

  function Reverse(t: seq<Key>): seq<Key> {
    seq(|t|, i requires 0 <= i < |t| => t[|t| - 1 - i])
  }

  /** WHERE p ORDER BY key LIMIT limit. */
  function Query(t: seq<Key>, p: Key -> bool, order: Order, limit: nat): seq<Key> {
    var rows := if order == Asc then Select(t, p) else Reverse(Select(t, p));
    if |rows| <= limit then rows else rows[..limit]
  }

  /** The rows past cursor `c`. */
  function Past(c: Key, order: Order): Key -> bool {
    (k: Key) => if order == Asc then Before(c, k) else Before(k, c)
  }

  lemma {:induction false} SelectCongruent(t: seq<Key>, p: Key -> bool, q: Key -> bool)
    requires forall i :: 0 <= i < |t| ==> (p(t[i]) <==> q(t[i]))
    ensures Select(t, p) == Select(t, q)
    decreases |t|
  {
    if t != [] {
      SelectCongruent(t[1..], p, q);
    }
  }

  lemma {:induction false} SelectSuffix(t: seq<Key>, p: Key -> bool, n: nat)
    requires n <= |t|
    requires forall i :: 0 <= i < |t| ==> (p(t[i]) <==> i >= n)
    ensures Select(t, p) == t[n..]
    decreases |t|
  {
    if t != [] {
      SelectSuffix(t[1..], p, if n == 0 then 0 else n - 1);
      if n == 0 {
        assert t == [t[0]] + t[1..];
      }
    }
  }

  lemma {:induction false} SelectPrefix(t: seq<Key>, p: Key -> bool, n: nat)
    requires n <= |t|
    requires forall i :: 0 <= i < |t| ==> (p(t[i]) <==> i < n)
    ensures Select(t, p) == t[..n]
    decreases |t|
  {
    if t != [] {
      SelectPrefix(t[1..], p, if n == 0 then 0 else n - 1);
      if n > 0 {
        assert t[..n] == [t[0]] + t[1..][..n - 1];
      }
    }
  }

  /** Where a cursor cuts the table: ascending pages read `t[n..]`, descending ones `t[..n]` backwards. */
  lemma Cut(t: seq<Key>, c: Key, order: Order) returns (n: nat)
    requires Increasing(t)
    ensures n <= |t|
    ensures forall i :: 0 <= i < |t| ==> (Past(c, order)(t[i]) <==> if order == Asc then i >= n else i < n)
    ensures Select(t, Past(c, order)) == if order == Asc then t[n..] else t[..n]
  {
    n := 0;
    while n < |t| && Past(c, order)(t[n]) == (order == Desc)
      invariant n <= |t|
      invariant forall i :: 0 <= i < n ==> (Past(c, order)(t[i]) <==> order == Desc)
    {
      n := n + 1;
    }
    forall i | n <= i < |t| ensures Past(c, order)(t[i]) <==> order == Asc {
      assert i == n || Before(t[n], t[i]);
    }
    if order == Asc {
      SelectSuffix(t, Past(c, order), n);
    } else {
      SelectPrefix(t, Past(c, order), n);
    }
  }

  /** The whole table in the order of the pages. */
  function Listed(t: seq<Key>, order: Order): seq<Key> {
    if order == Asc then t else Reverse(t)
  }

  /** The rows past cursor `c`, in the order of the pages. */
  function Rows(t: seq<Key>, c: Key, order: Order): seq<Key> {
    Listed(Select(t, Past(c, order)), order)
  }

  /** The rows past a cursor end the listing. */
  lemma RowsAreSuffix(t: seq<Key>, c: Key, order: Order) returns (n: nat)
    requires Increasing(t)
    ensures n <= |t| == |Listed(t, order)| && Rows(t, c, order) == Listed(t, order)[n..]
  {
    n := Cut(t, c, order);
    if order == Desc {
      ReversePrefix(t, n);
      n := |t| - n;
    }
  }

  lemma ReversePrefix(t: seq<Key>, n: nat)
    requires n <= |t|
    ensures Reverse(t[..n]) == Reverse(t)[|t| - n..]
  {
  }

  /** Past a row of the listing come the rows listed after it. */
  lemma RowsPastRow(t: seq<Key>, order: Order, i: nat)
    requires Increasing(t) && i < |t|
    ensures |Listed(t, order)| == |t| && Rows(t, Listed(t, order)[i], order) == Listed(t, order)[i + 1..]
  {
    var u := Listed(t, order);
    if order == Asc {
      forall j | 0 <= j < |t| ensures Past(u[i], Asc)(t[j]) <==> j >= i + 1 {
        assert j < i ==> Before(t[j], t[i]);
        assert j > i ==> Before(t[i], t[j]);
      }
      SelectSuffix(t, Past(u[i], Asc), i + 1);
    } else {
      var k := |t| - 1 - i;
      assert u[i] == t[k];
      forall j | 0 <= j < |t| ensures Past(u[i], Desc)(t[j]) <==> j < k {
        assert j < k ==> Before(t[j], t[k]);
        assert j > k ==> Before(t[k], t[j]);
      }
      SelectPrefix(t, Past(u[i], Desc), k);
      ReversePrefix(t, k);
    }
  }

  lemma QueryTakes(t: seq<Key>, c: Key, order: Order, limit: nat)
    ensures var rows := Rows(t, c, order);
            Query(t, Past(c, order), order, limit) == if |rows| <= limit then rows else rows[..limit]
  {
  }

  /** The first rows of a suffix of the listing, and what follows the last of them. */
  lemma SplitSuffix(u: seq<Key>, n: nat, limit: nat, rows: seq<Key>, page: seq<Key>) returns (i: nat)
    requires n <= |u| && rows == u[n..] && page != [] && page == if |rows| <= limit then rows else rows[..limit]
    ensures i < |u| && page[|page| - 1] == u[i] && rows == page + u[i + 1..]
  {
    i := n + |page| - 1;
    assert page == rows[..|page|];
  }

  /** A page and the rows past its last row together are the rows past the cursor. */
  lemma PageSplits(t: seq<Key>, c: Key, order: Order, limit: nat)
    requires Increasing(t) && limit >= 1
    requires Query(t, Past(c, order), order, limit) != []
    ensures var page := Query(t, Past(c, order), order, limit);
            var last := page[|page| - 1];
            last in t && Rows(t, c, order) == page + Rows(t, last, order)
  {
    QueryTakes(t, c, order, limit);
    var n := RowsAreSuffix(t, c, order);
    RowsSplit(t, order, n, limit, Rows(t, c, order), Query(t, Past(c, order), order, limit));
  }

  lemma RowsSplit(t: seq<Key>, order: Order, n: nat, limit: nat, rows: seq<Key>, page: seq<Key>)
    requires Increasing(t) && n <= |t| == |Listed(t, order)| && rows == Listed(t, order)[n..]
    requires page != [] && page == if |rows| <= limit then rows else rows[..limit]
    ensures page[|page| - 1] in t && rows == page + Rows(t, page[|page| - 1], order)
  {
    var i := SplitSuffix(Listed(t, order), n, limit, rows, page);
    ListedAt(t, order, i);
    RowsPastRow(t, order, i);
  }

  lemma ListedAt(t: seq<Key>, order: Order, i: nat)
    requires i < |t|
    ensures |Listed(t, order)| == |t| && Listed(t, order)[i] in t
  {
    assert Listed(t, order)[i] == if order == Asc then t[i] else t[|t| - 1 - i];
  }

  lemma {:induction false} SelectIsShorter(t: seq<Key>, p: Key -> bool)
    ensures |Select(t, p)| <= |t|
    decreases |t|
  {
    if t != [] {
      SelectIsShorter(t[1..], p);
    }
  }

  lemma {:induction false} SelectHolds(t: seq<Key>, p: Key -> bool, k: Key)
    ensures k in Select(t, p) <==> k in t && p(k)
    decreases |t|
  {
    if t != [] {
      SelectHolds(t[1..], p, k);
      assert t == [t[0]] + t[1..];
    }
  }

  lemma FirstRowsHold(rows: seq<Key>, limit: nat, k: Key)
    requires k in if |rows| <= limit then rows else rows[..limit]
    ensures k in rows
  {
  }

  lemma ReverseHolds(t: seq<Key>, k: Key)
    ensures k in Reverse(t) ==> k in t
  {
    if i :| 0 <= i < |Reverse(t)| && Reverse(t)[i] == k {
      assert t[|t| - 1 - i] == k;
    }
  }

  lemma PageHolds(t: seq<Key>, p: Key -> bool, order: Order, limit: nat, k: Key)
    requires k in Query(t, p, order, limit)
    ensures k in t && p(k)
  {
    var rows := Select(t, p);
    FirstRowsHold(if order == Asc then rows else Reverse(rows), limit, k);
    ReverseHolds(rows, k);
    SelectHolds(t, p, k);
  }

  lemma {:induction false} SelectIncreases(t: seq<Key>, p: Key -> bool)
    requires Increasing(t)
    ensures Increasing(Select(t, p))
    decreases |t|
  {
    if t != [] {
      var rest := Select(t[1..], p);
      SelectIncreases(t[1..], p);
      forall i | 0 <= i < |rest| ensures Before(t[0], rest[i]) {
        SelectHolds(t[1..], p, rest[i]);
        var j :| 0 <= j < |t[1..]| && t[1..][j] == rest[i];
        assert Before(t[0], t[j + 1]);
      }
    }
  }

  /** The first rows of the listing and the rows past the last of them are the whole listing. */
  lemma FirstPageSplits(t: seq<Key>, order: Order, size: nat)
    requires Increasing(t) && 1 <= size <= |t|
    ensures var u := Listed(t, order);
            |u| == |t| && u[size - 1] in t && u == u[..size] + Rows(t, u[size - 1], order)
  {
    var u := Listed(t, order);
    ListedAt(t, order, size - 1);
    RowsPastRow(t, order, size - 1);
    assert u == u[..size] + u[size..];
  }

  /** A client that only sees cursors: it asks `fetch` for the page at one and goes on from the last row's token. */
  function Client<C>(fetch: C -> Option<seq<Key>>, token: Key -> C, cursor: C, n: nat): seq<Key>
    decreases n
  {
    if n == 0 then []
    else
      match fetch(cursor)
      case None => []
      case Some(page) => if page == [] then [] else page + Client(fetch, token, token(page[|page| - 1]), n - 1)
  }

  /** The page at `cursor` starts what is left there, and its last row's token leads to the remainder. */
  ghost predicate Chains<C>(fetch: C -> Option<seq<Key>>, token: Key -> C, rest: C -> seq<Key>, cursor: C)
  {
    match fetch(cursor)
    case None => rest(cursor) == []
    case Some(page) => rest(cursor) == if page == [] then [] else page + rest(token(page[|page| - 1]))
  }

  /** Enough requests list exactly what is left at the first cursor. */
  lemma {:induction false} ClientLists<C(!new)>(
    fetch: C -> Option<seq<Key>>, token: Key -> C, rest: C -> seq<Key>, cursor: C, n: nat)
    requires forall s {:trigger Chains(fetch, token, rest, s)} :: Chains(fetch, token, rest, s)
    requires n > |rest(cursor)|
    ensures Client(fetch, token, cursor, n) == rest(cursor)
    decreases n
  {
    assert Chains(fetch, token, rest, cursor);
    if fetch(cursor).Some? && fetch(cursor).value != [] {
      var page := fetch(cursor).value;
      ClientLists(fetch, token, rest, token(page[|page| - 1]), n - 1);
    }
  }
}
