/** Claimable balances and the lookup table of their claimants. */
module ClaimableBalances {
  import opened Network
  import opened Paging

  /** Balance ids, numbered in the database's collation order. */
  type Id = int

  type Address = string

  datatype Balance = Balance(lastModified: int, claimants: seq<Address>, asset: string, sponsor: string)

  type Balances = map<Id, Balance>

  /** (id, destination) is the primary key of the claimants table. */
  type Claimants = map<(Id, Address), int>

  /** Every claimant row refers to a stored balance and carries its last-modified ledger. */
  ghost predicate Linked(b: Balances, c: Claimants) {
    forall row :: row in c ==> row.0 in b && c[row] == b[row.0].lastModified
  }

  // ----- Queries -----

  lemma {:induction false} LeastExists(s: set<Key>)
    requires s != {}
    ensures exists m :: m in s && forall k :: k in s ==> k == m || Before(m, k)
  {
    var x :| x in s;
    if s - {x} == {} {
      assert s == {x};
    } else {
      LeastExists(s - {x});
      var m :| m in s - {x} && forall k :: k in s - {x} ==> k == m || Before(m, k);
      assert forall k :: k in s ==> k == x || k in s - {x};
      var least := if Before(x, m) then x else m;
      assert least in s && forall k :: k in s ==> k == least || Before(least, k);
    }
  }

  /** ORDER BY (last_modified_ledger, id). */
  ghost function Sorted(s: set<Key>): (t: seq<Key>)
    ensures Increasing(t) && forall k :: k in t <==> k in s
    decreases s
  {
    if s == {} then []
    else
      LeastExists(s);
      var m :| m in s && forall k :: k in s ==> k == m || Before(m, k);
      var rest := Sorted(s - {m});
      assert forall i :: 0 <= i < |rest| ==> rest[i] in s - {m};
      [m] + rest
  }

  lemma {:induction false} SortedIsUnique(a: seq<Key>, b: seq<Key>)
    requires Increasing(a) && Increasing(b) && forall k :: k in a <==> k in b
    ensures a == b
    decreases |a|
  {
    if a == [] {
      assert forall i :: 0 <= i < |b| ==> b[i] in a;
    } else {
      assert a[0] in b && b != [] && b[0] in a;
      assert forall i :: 0 < i < |a| ==> Before(a[0], a[i]);
      assert forall i :: 0 < i < |b| ==> Before(b[0], b[i]);
      assert a[0] == b[0];
      forall k ensures k in a[1..] <==> k in b[1..] {
        assert k in a[1..] ==> k in a && k != a[0];
        assert k in b[1..] ==> k in b && k != b[0];
        assert k in a && k != a[0] ==> k in a[1..];
        assert k in b && k != b[0] ==> k in b[1..];
      }
      SortedIsUnique(a[1..], b[1..]);
      assert a == [a[0]] + a[1..] && b == [b[0]] + b[1..];
    }
  }

  /** The cursor counts only when both its parts are set. */
  datatype Cursor = Cursor(ledger: int, id: Option<Id>)

  predicate PastCursor(k: Key, c: Cursor, order: Order) {
    c.ledger > 0 && c.id.Some? ==> Past(Key(c.ledger, c.id.value), order)(k)
  }

  /** ORDER BY key in the page's direction, LIMIT limit. */
  ghost function Page(s: set<Key>, order: Order, limit: nat): seq<Key> {
    var rows := if order == Asc then Sorted(s) else Reverse(Sorted(s));
    if |rows| <= limit then rows else rows[..limit]
  }

  /** The balances that some claimant row for `d` joins with. */
  ghost function JoinRows(b: Balances, c: Claimants, d: Address, cursor: Cursor, order: Order): set<Key> {
    set id | id in b && (id, d) in c && PastCursor(Key(b[id].lastModified, id), cursor, order)
      :: Key(b[id].lastModified, id)
  }

  /** The join form of the query. */
  ghost function JoinPage(b: Balances, c: Claimants, d: Address, cursor: Cursor, order: Order, limit: nat): seq<Key> {
    Page(JoinRows(b, c, d, cursor, order), order, limit)
  }

  /** The subquery reads the claimants table alone, with its own ledger column. */
  ghost function SubqueryRows(c: Claimants, d: Address, cursor: Cursor, order: Order): set<Key> {
    set row | row in c && row.1 == d && PastCursor(Key(c[row], row.0), cursor, order) :: Key(c[row], row.0)
  }

  ghost function SelectedRows(b: Balances, sub: seq<Key>, cursor: Cursor, order: Order): set<Key> {
    set id | id in b && PastCursor(Key(b[id].lastModified, id), cursor, order) && (exists k :: k in sub && k.lo == id)
      :: Key(b[id].lastModified, id)
  }

  /** The `IN` form: the limited subquery picks ids, the outer query orders and limits again. */
  ghost function SubqueryPage(b: Balances, c: Claimants, d: Address, cursor: Cursor, order: Order, limit: nat): seq<Key>
  {
    var sub := Page(SubqueryRows(c, d, cursor, order), order, limit);
    Page(SelectedRows(b, sub, cursor, order), order, limit)
  }

  lemma SubqueryReadsJoin(b: Balances, c: Claimants, d: Address, cursor: Cursor, order: Order)
    requires Linked(b, c)
    ensures SubqueryRows(c, d, cursor, order) == JoinRows(b, c, d, cursor, order)
  {
    var sub, join := SubqueryRows(c, d, cursor, order), JoinRows(b, c, d, cursor, order);
    forall k | k in sub ensures k in join {
      var row :| row in c && row.1 == d && PastCursor(Key(c[row], row.0), cursor, order) && k == Key(c[row], row.0);
      assert row == (row.0, d);
    }
    forall k | k in join ensures k in sub {
      var id :| id in b && (id, d) in c && PastCursor(Key(b[id].lastModified, id), cursor, order)
                && k == Key(b[id].lastModified, id);
      var row := (id, d);
      assert row in c && c[row] == b[id].lastModified;
    }
  }

  /** Picking the rows of a page by id and paging again gives the page back. */
  lemma PageOfPage(s: set<Key>, picked: set<Key>, order: Order, limit: nat)
    requires forall k :: k in picked <==> k in Page(s, order, limit)
    ensures Page(picked, order, limit) == Page(s, order, limit)
  {
    if order == Asc {
      SortedIsUnique(Sorted(picked), Page(s, order, limit));
    } else {
      DescendingPageOfPage(s, picked, limit);
    }
  }

  lemma DescendingPageOfPage(s: set<Key>, picked: set<Key>, limit: nat)
    requires forall k :: k in picked <==> k in Page(s, Desc, limit)
    ensures Page(picked, Desc, limit) == Page(s, Desc, limit)
  {
    var t := Sorted(s);
    var suffix := if |t| <= limit then t else t[|t| - limit..];
    if |t| > limit {
      ReverseSuffix(t, limit);
    }
    ReverseKeepsRows(suffix);
    SortedIsUnique(Sorted(picked), suffix);
  }

  lemma ReverseSuffix(t: seq<Key>, n: nat)
    requires n <= |t|
    ensures Reverse(t)[..n] == Reverse(t[|t| - n..])
  {
  }

  lemma ReverseKeepsRows(t: seq<Key>)
    ensures forall k :: k in Reverse(t) <==> k in t
  {
    forall k | k in t ensures k in Reverse(t) {
      var i :| 0 <= i < |t| && t[i] == k;
      assert Reverse(t)[|t| - 1 - i] == k;
    }
  }

  lemma PageHoldsRows(s: set<Key>, order: Order, limit: nat, k: Key)
    ensures k in Page(s, order, limit) ==> k in s
  {
    ReverseKeepsRows(Sorted(s));
  }

  /** With linked tables the limited subquery form returns the join form's page, in the same order. */
  lemma SubqueryIsJoin(b: Balances, c: Claimants, d: Address, cursor: Cursor, order: Order, limit: nat)
    requires Linked(b, c)
    ensures SubqueryPage(b, c, d, cursor, order, limit) == JoinPage(b, c, d, cursor, order, limit)
  {
    SubqueryReadsJoin(b, c, d, cursor, order);
    var s := JoinRows(b, c, d, cursor, order);
    var sub := Page(s, order, limit);
    var picked := SelectedRows(b, sub, cursor, order);
    forall k ensures k in picked <==> k in sub {
      if k in sub {
        PageHoldsRows(s, order, limit, k);
      }
      if k in picked {
        var k' :| k' in sub && k'.lo == k.lo;
        PageHoldsRows(s, order, limit, k');
        assert k' == k;
      }
    }
    PageOfPage(s, picked, order, limit);
  }

  // ----- What a page holds -----

  /** All balances of claimant `d`, in the order of the pages' keys. */
  ghost function Holdings(b: Balances, c: Claimants, d: Address): (t: seq<Key>)
    ensures Increasing(t)
  {
    Sorted(set id | id in b && (id, d) in c :: Key(b[id].lastModified, id))
  }

  predicate IsSet(cursor: Cursor) {
    cursor.ledger > 0 && cursor.id.Some?
  }

  lemma HoldsBalances(b: Balances, c: Claimants, d: Address, k: Key)
    ensures k in Holdings(b, c, d) <==> k.lo in b && (k.lo, d) in c && k.hi == b[k.lo].lastModified
  {
    var all := set id | id in b && (id, d) in c :: Key(b[id].lastModified, id);
    if k.lo in b && (k.lo, d) in c && k.hi == b[k.lo].lastModified {
      assert k == Key(b[k.lo].lastModified, k.lo);
    }
  }

  lemma JoinRowsSorted(b: Balances, c: Claimants, d: Address, cursor: Cursor, order: Order, p: Key -> bool)
    requires forall k :: p(k) <==> (IsSet(cursor) ==> Past(Key(cursor.ledger, cursor.id.value), order)(k))
    ensures Sorted(JoinRows(b, c, d, cursor, order)) == Select(Holdings(b, c, d), p)
  {
    var rows, t := JoinRows(b, c, d, cursor, order), Holdings(b, c, d);
    SelectIncreases(t, p);
    forall k ensures k in rows <==> k in Select(t, p) {
      SelectHolds(t, p, k);
      HoldsBalances(b, c, d, k);
      if k in Select(t, p) {
        assert k == Key(b[k.lo].lastModified, k.lo);
      }
    }
    SortedIsUnique(Sorted(rows), Select(t, p));
  }

  /** At a set cursor both forms return the first balances of `d` strictly past it, in the order of the page. */
  lemma PageIsPastCursor(b: Balances, c: Claimants, d: Address, l: int, i: Id, order: Order, limit: nat)
    requires l > 0
    ensures JoinPage(b, c, d, Cursor(l, Some(i)), order, limit)
            == Query(Holdings(b, c, d), Past(Key(l, i), order), order, limit)
    ensures Linked(b, c) ==>
            SubqueryPage(b, c, d, Cursor(l, Some(i)), order, limit)
            == Query(Holdings(b, c, d), Past(Key(l, i), order), order, limit)
  {
    JoinRowsSorted(b, c, d, Cursor(l, Some(i)), order, Past(Key(l, i), order));
    if Linked(b, c) {
      SubqueryIsJoin(b, c, d, Cursor(l, Some(i)), order, limit);
    }
  }

  /** Without a cursor, or with one at ledger 0, both forms return the first balances of `d`. */
  lemma PageWithoutCursor(b: Balances, c: Claimants, d: Address, cursor: Cursor, order: Order, limit: nat)
    requires !IsSet(cursor)
    ensures var all := Listed(Holdings(b, c, d), order);
            && JoinPage(b, c, d, cursor, order, limit) == (if |all| <= limit then all else all[..limit])
            && (Linked(b, c) ==> SubqueryPage(b, c, d, cursor, order, limit) == JoinPage(b, c, d, cursor, order, limit))
  {
    var t, p := Holdings(b, c, d), (k: Key) => true;
    JoinRowsSorted(b, c, d, cursor, order, p);
    SelectSuffix(t, p, 0);
    if Linked(b, c) {
      SubqueryIsJoin(b, c, d, cursor, order, limit);
    }
  }

  /** The server as a client of one claimant sees it, in either query form. */
  ghost function Server(b: Balances, c: Claimants, d: Address, order: Order, limit: nat, subquery: bool)
    : Cursor -> Option<seq<Key>>
  {
    (cursor: Cursor) =>
      Some(if subquery then SubqueryPage(b, c, d, cursor, order, limit) else JoinPage(b, c, d, cursor, order, limit))
  }

  /** The cursor that a row's paging token stands for. */
  function Token(): Key -> Cursor {
    (k: Key) => Cursor(k.hi, Some(k.lo))
  }

  ghost function Left(t: seq<Key>, order: Order): Cursor -> seq<Key> {
    (cursor: Cursor) => if IsSet(cursor) then Rows(t, Key(cursor.ledger, cursor.id.value), order) else Listed(t, order)
  }

  /** Every balance was last modified by some ledger. */
  ghost predicate Dated(b: Balances) {
    forall id :: id in b ==> b[id].lastModified > 0
  }

  /** Every key of the table has a positive ledger, so that its token is a set cursor. */
  ghost predicate DatedKeys(t: seq<Key>) {
    Increasing(t) && forall k :: k in t ==> k.hi > 0
  }

  lemma LeftAtToken(t: seq<Key>, order: Order, k: Key)
    requires k.hi > 0
    ensures Left(t, order)(Token()(k)) == Rows(t, k, order)
  {
  }

  lemma PageChains(t: seq<Key>, c: Key, order: Order, limit: nat)
    requires DatedKeys(t) && limit >= 1
    ensures var page := Query(t, Past(c, order), order, limit);
            Rows(t, c, order) == if page == [] then [] else page + Left(t, order)(Token()(page[|page| - 1]))
  {
    var page := Query(t, Past(c, order), order, limit);
    QueryTakes(t, c, order, limit);
    if page != [] {
      PageSplits(t, c, order, limit);
      LeftAtToken(t, order, page[|page| - 1]);
    }
  }

  lemma FirstPageChains(t: seq<Key>, order: Order, limit: nat)
    requires DatedKeys(t) && limit >= 1
    ensures var u := Listed(t, order);
            var page := if |u| <= limit then u else u[..limit];
            u == if page == [] then [] else page + Left(t, order)(Token()(page[|page| - 1]))
  {
    var u := Listed(t, order);
    var page := if |u| <= limit then u else u[..limit];
    if page != [] {
      assert page == u[..|page|];
      FirstPageSplits(t, order, |page|);
      LeftAtToken(t, order, page[|page| - 1]);
    }
  }

  lemma HoldingsAreDated(b: Balances, c: Claimants, d: Address)
    requires Dated(b)
    ensures DatedKeys(Holdings(b, c, d))
  {
    forall k | k in Holdings(b, c, d) ensures k.hi > 0 {
      HoldsBalances(b, c, d, k);
    }
  }

  lemma ServerChains(b: Balances, c: Claimants, d: Address, order: Order, limit: nat, subquery: bool, cursor: Cursor)
    requires Linked(b, c) && Dated(b) && limit >= 1
    ensures Chains(Server(b, c, d, order, limit, subquery), Token(), Left(Holdings(b, c, d), order), cursor)
  {
    HoldingsAreDated(b, c, d);
    ServerServes(b, c, d, order, limit, subquery, cursor);
    PagesChain(Holdings(b, c, d), order, limit, cursor);
  }

  /** The page of a sorted table at a cursor, set or not. */
  function PageAt(t: seq<Key>, order: Order, limit: nat, cursor: Cursor): seq<Key> {
    if IsSet(cursor) then Query(t, Past(Key(cursor.ledger, cursor.id.value), order), order, limit)
    else if |Listed(t, order)| <= limit then Listed(t, order)
    else Listed(t, order)[..limit]
  }

  lemma ServerServes(b: Balances, c: Claimants, d: Address, order: Order, limit: nat, subquery: bool, cursor: Cursor)
    requires Linked(b, c)
    ensures Server(b, c, d, order, limit, subquery)(cursor) == Some(PageAt(Holdings(b, c, d), order, limit, cursor))
  {
    if IsSet(cursor) {
      PageIsPastCursor(b, c, d, cursor.ledger, cursor.id.value, order, limit);
      assert cursor == Cursor(cursor.ledger, Some(cursor.id.value));
    } else {
      PageWithoutCursor(b, c, d, cursor, order, limit);
    }
  }

  lemma PagesChain(t: seq<Key>, order: Order, limit: nat, cursor: Cursor)
    requires DatedKeys(t) && limit >= 1
    ensures var page := PageAt(t, order, limit, cursor);
            Left(t, order)(cursor) == if page == [] then [] else page + Left(t, order)(Token()(page[|page| - 1]))
  {
    if IsSet(cursor) {
      var k := Key(cursor.ledger, cursor.id.value);
      assert Left(t, order)(cursor) == Rows(t, k, order);
      PageChains(t, k, order, limit);
    } else {
      assert Left(t, order)(cursor) == Listed(t, order);
      FirstPageChains(t, order, limit);
    }
  }

  /**
   * Following each page's last row from no cursor lists every balance of `d` exactly once, in either direction and
   * either query form, whatever the page size.
   */
  lemma FollowListsHoldings(b: Balances, c: Claimants, d: Address, order: Order, limit: nat, subquery: bool, n: nat)
    requires Linked(b, c) && Dated(b) && limit >= 1 && n > |Holdings(b, c, d)|
    ensures Client(Server(b, c, d, order, limit, subquery), Token(), Cursor(0, None), n)
            == Listed(Holdings(b, c, d), order)
  {
    var t := Holdings(b, c, d);
    var fetch, rest := Server(b, c, d, order, limit, subquery), Left(t, order);
    forall s {:trigger Chains(fetch, Token(), rest, s)} ensures Chains(fetch, Token(), rest, s) {
      ServerChains(b, c, d, order, limit, subquery, s);
    }
    ClientLists(fetch, Token(), rest, Cursor(0, None), n);
  }

  // ----- Upserts and removals -----

  datatype Row = Row(id: Id, destination: Address, lastModified: int)

  datatype Entry = Entry(id: Id, balance: Balance)

  /** The claimant rows of one entry, after its first `n` claimants. */
  function EntryRows(e: Entry, n: nat): seq<Row>
    requires n <= |e.balance.claimants|
  {
    if n == 0 then [] else EntryRows(e, n - 1) + [Row(e.id, e.balance.claimants[n - 1], e.balance.lastModified)]
  }

  function ClaimantRows(cbs: seq<Entry>, n: nat): seq<Row>
    requires n <= |cbs|
  {
    if n == 0 then [] else ClaimantRows(cbs, n - 1) + EntryRows(cbs[n - 1], |cbs[n - 1].balance.claimants|)
  }

  function UpsertedClaimants(c: Claimants, rows: seq<Row>, n: nat): Claimants
    requires n <= |rows|
  {
    if n == 0 then c
    else UpsertedClaimants(c, rows, n - 1)[(rows[n - 1].id, rows[n - 1].destination) := rows[n - 1].lastModified]
  }

  function UpsertedBalances(b: Balances, cbs: seq<Entry>, n: nat): Balances
    requires n <= |cbs|
  {
    if n == 0 then b else UpsertedBalances(b, cbs, n - 1)[cbs[n - 1].id := cbs[n - 1].balance]
  }

  function WithoutIds(c: Claimants, ids: set<Id>): Claimants {
    map row | row in c && row.0 !in ids :: c[row]
  }

  /** What the change processor has collected when it commits. */
  datatype Batch = Batch(created: seq<Entry>, updated: seq<Entry>, removed: set<Id>)

  function Upserted(b: Balances, c: Claimants, cbs: seq<Entry>): (Balances, Claimants) {
    var rows := ClaimantRows(cbs, |cbs|);
    (UpsertedBalances(b, cbs, |cbs|), UpsertedClaimants(c, rows, |rows|))
  }

  function Removed(b: Balances, c: Claimants, ids: set<Id>): (Balances, Claimants) {
    (b - ids, WithoutIds(c, ids))
  }

  function Committed(b: Balances, c: Claimants, batch: Batch): (Balances, Claimants) {
    var inserted := Upserted(b, c, batch.created);
    var updated := Upserted(inserted.0, inserted.1, batch.updated);
    Removed(updated.0, updated.1, batch.removed)
  }

  class Store {
    var balances: Balances
    var claimants: Claimants

    constructor ()
      ensures balances == map[] && claimants == map[]
    {
      balances, claimants := map[], map[];
    }

    method UpsertCBs(cbs: seq<Entry>)
      modifies this`balances
      ensures balances == UpsertedBalances(old(balances), cbs, |cbs|)
    {
      for i := 0 to |cbs|
        invariant balances == UpsertedBalances(old(balances), cbs, i)
      {
        balances := balances[cbs[i].id := cbs[i].balance];
      }
    }

    method CollectRows(cbs: seq<Entry>) returns (rows: seq<Row>)
      ensures rows == ClaimantRows(cbs, |cbs|)
    {
      rows := [];
      for i := 0 to |cbs|
        invariant rows == ClaimantRows(cbs, i)
      {
        for j := 0 to |cbs[i].balance.claimants|
          invariant rows == ClaimantRows(cbs, i) + EntryRows(cbs[i], j)
        {
          rows := rows + [Row(cbs[i].id, cbs[i].balance.claimants[j], cbs[i].balance.lastModified)];
        }
      }
    }

    method UpsertCBClaimants(cbs: seq<Entry>)
      modifies this`claimants
      ensures claimants == UpsertedClaimants(old(claimants), ClaimantRows(cbs, |cbs|), |ClaimantRows(cbs, |cbs|)|)
    {
      var rows := CollectRows(cbs);
      for i := 0 to |rows|
        invariant claimants == UpsertedClaimants(old(claimants), rows, i)
      {
        claimants := claimants[(rows[i].id, rows[i].destination) := rows[i].lastModified];
      }
    }

    /** UpsertClaimableBalances keeps the two tables linked exactly when no stored claimant is left behind. */
    method UpsertClaimableBalances(cbs: seq<Entry>)
      requires DistinctIds(cbs) && Linked(balances, claimants)
      modifies this
      ensures balances == UpsertedBalances(old(balances), cbs, |cbs|)
      ensures claimants == UpsertedClaimants(old(claimants), ClaimantRows(cbs, |cbs|), |ClaimantRows(cbs, |cbs|)|)
      ensures Linked(balances, claimants) <==> NoneLeftBehind(old(claimants), cbs)
    {
      UpsertLinks(balances, claimants, cbs);
      UpsertCBs(cbs);
      UpsertCBClaimants(cbs);
    }

    /** The insert builders: the rows are new, since the entries are. */
    method InsertClaimableBalances(cbs: seq<Entry>)
      modifies this
      ensures balances == UpsertedBalances(old(balances), cbs, |cbs|)
      ensures claimants == UpsertedClaimants(old(claimants), ClaimantRows(cbs, |cbs|), |ClaimantRows(cbs, |cbs|)|)
    {
      UpsertCBClaimants(cbs);
      UpsertCBs(cbs);
    }

    /**
     * Commit of the change processor: inserts, then updates, then removals. It fails, for the caller to roll back,
     * exactly when a balance to remove is not stored by then.
     */
    method Commit(batch: Batch) returns (ok: bool)
      requires Exact(balances, claimants) && Allowed(balances, batch)
      modifies this
      ensures var inserted := UpsertedBalances(old(balances), batch.created, |batch.created|);
        ok <==> batch.removed <= UpsertedBalances(inserted, batch.updated, |batch.updated|).Keys
      ensures ok ==> (balances, claimants) == Committed(old(balances), old(claimants), batch)
      ensures Exact(balances, claimants)
    {
      InsertKeepsExact(balances, claimants, batch.created);
      InsertClaimableBalances(batch.created);
      ExactIsLinked(balances, claimants);
      if |batch.updated| > 0 {
        UpdateKeepsExact(balances, claimants, batch.updated);
        UpsertClaimableBalances(batch.updated);
        ExactIsLinked(balances, claimants);
      }
      if !(batch.removed <= balances.Keys) {
        return false;
      }
      RemoveKeepsExact(balances, claimants, batch.removed);
      RemoveClaimableBalances(batch.removed);
      return true;
    }

    method RemoveClaimableBalances(ids: set<Id>)
      requires Linked(balances, claimants)
      modifies this
      ensures balances == old(balances) - ids
      ensures claimants == WithoutIds(old(claimants), ids)
      ensures Linked(balances, claimants)
    {
      balances := balances - ids;
      claimants := WithoutIds(claimants, ids);
    }
  }

  /** A single INSERT .. ON CONFLICT cannot touch a row twice, so batches have distinct ids. */
  ghost predicate DistinctIds(cbs: seq<Entry>) {
    forall i, j :: 0 <= i < j < |cbs| ==> cbs[i].id != cbs[j].id
  }

  /** A stored claimant that an upserted balance no longer names already carries the new last-modified ledger. */
  ghost predicate NoneLeftBehind(c: Claimants, cbs: seq<Entry>) {
    forall i, row :: 0 <= i < |cbs| && row in c && row.0 == cbs[i].id && row.1 !in cbs[i].balance.claimants ==>
      c[row] == cbs[i].balance.lastModified
  }

  lemma {:induction false} BalancesAfter(b: Balances, cbs: seq<Entry>, n: nat, id: Id)
    requires n <= |cbs| && DistinctIds(cbs)
    ensures (forall i :: 0 <= i < n ==> cbs[i].id != id) ==>
              (id in UpsertedBalances(b, cbs, n) <==> id in b) && (id in b ==> UpsertedBalances(b, cbs, n)[id] == b[id])
    ensures forall i :: 0 <= i < n && cbs[i].id == id ==>
              id in UpsertedBalances(b, cbs, n) && UpsertedBalances(b, cbs, n)[id] == cbs[i].balance
  {
    if n > 0 {
      BalancesAfter(b, cbs, n - 1, id);
    }
  }

  lemma {:induction false} EntryRowsAre(e: Entry, n: nat, r: Row)
    requires n <= |e.balance.claimants|
    ensures r in EntryRows(e, n) <==>
            r.id == e.id && r.lastModified == e.balance.lastModified && r.destination in e.balance.claimants[..n]
  {
    if n > 0 {
      EntryRowsAre(e, n - 1, r);
      assert e.balance.claimants[..n] == e.balance.claimants[..n - 1] + [e.balance.claimants[n - 1]];
    }
  }

  lemma {:induction false} RowsAre(cbs: seq<Entry>, n: nat, r: Row)
    requires n <= |cbs|
    ensures r in ClaimantRows(cbs, n) <==>
            exists i :: 0 <= i < n && r.id == cbs[i].id && r.lastModified == cbs[i].balance.lastModified
                        && r.destination in cbs[i].balance.claimants
  {
    if n > 0 {
      var e := cbs[n - 1];
      RowsAre(cbs, n - 1, r);
      EntryRowsAre(e, |e.balance.claimants|, r);
      assert e.balance.claimants[..|e.balance.claimants|] == e.balance.claimants;
    }
  }

  /** An upserted row holds what some batch row says; the others are untouched. */
  lemma {:induction false} ClaimantsAfter(c: Claimants, rows: seq<Row>, n: nat, id: Id, d: Address)
    requires n <= |rows|
    ensures var r := UpsertedClaimants(c, rows, n);
            && ((forall i :: 0 <= i < n ==> rows[i].id != id || rows[i].destination != d) ==>
                 ((id, d) in r <==> (id, d) in c) && ((id, d) in c ==> r[(id, d)] == c[(id, d)]))
            && ((exists i :: 0 <= i < n && rows[i].id == id && rows[i].destination == d) ==>
                 (id, d) in r && exists i :: 0 <= i < n && rows[i] == Row(id, d, r[(id, d)]))
  {
    if n > 0 {
      ClaimantsAfter(c, rows, n - 1, id, d);
      if rows[n - 1].id == id && rows[n - 1].destination == d {
        assert rows[n - 1] == Row(id, d, UpsertedClaimants(c, rows, n)[(id, d)]);
      }
    }
  }

  /** Claimant (id, d) after an upsert of distinct balances. */
  lemma ClaimantAfter(c: Claimants, cbs: seq<Entry>, id: Id, d: Address)
    requires DistinctIds(cbs)
    ensures var rows := ClaimantRows(cbs, |cbs|);
            var r := UpsertedClaimants(c, rows, |rows|);
            && (forall i :: 0 <= i < |cbs| && cbs[i].id == id && d in cbs[i].balance.claimants ==>
                  (id, d) in r && r[(id, d)] == cbs[i].balance.lastModified)
            && ((forall i :: 0 <= i < |cbs| ==> cbs[i].id != id || d !in cbs[i].balance.claimants) ==>
                 ((id, d) in r <==> (id, d) in c) && ((id, d) in c ==> r[(id, d)] == c[(id, d)]))
  {
    var rows := ClaimantRows(cbs, |cbs|);
    var r := UpsertedClaimants(c, rows, |rows|);
    ClaimantsAfter(c, rows, |rows|, id, d);
    forall i | 0 <= i < |cbs| && cbs[i].id == id && d in cbs[i].balance.claimants
      ensures (id, d) in r && r[(id, d)] == cbs[i].balance.lastModified
    {
      RowsAre(cbs, |cbs|, Row(id, d, cbs[i].balance.lastModified));
      var k :| 0 <= k < |rows| && rows[k] == Row(id, d, cbs[i].balance.lastModified);
      var j :| 0 <= j < |rows| && rows[j] == Row(id, d, r[(id, d)]);
      RowsAre(cbs, |cbs|, rows[j]);
    }
    if forall i :: 0 <= i < |cbs| ==> cbs[i].id != id || d !in cbs[i].balance.claimants {
      forall i | 0 <= i < |rows| ensures rows[i].id != id || rows[i].destination != d {
        RowsAre(cbs, |cbs|, rows[i]);
        assert rows[i] in rows;
      }
    }
  }

  lemma UpsertLinks(b: Balances, c: Claimants, cbs: seq<Entry>)
    requires DistinctIds(cbs) && Linked(b, c)
    ensures var rows := ClaimantRows(cbs, |cbs|);
            Linked(UpsertedBalances(b, cbs, |cbs|), UpsertedClaimants(c, rows, |rows|)) <==> NoneLeftBehind(c, cbs)
  {
    var rows := ClaimantRows(cbs, |cbs|);
    var b', c' := UpsertedBalances(b, cbs, |cbs|), UpsertedClaimants(c, rows, |rows|);
    if NoneLeftBehind(c, cbs) {
      forall row | row in c' ensures row.0 in b' && c'[row] == b'[row.0].lastModified {
        assert row == (row.0, row.1);
        BalancesAfter(b, cbs, |cbs|, row.0);
        ClaimantAfter(c, cbs, row.0, row.1);
      }
    }
    if Linked(b', c') {
      forall i, row | 0 <= i < |cbs| && row in c && row.0 == cbs[i].id && row.1 !in cbs[i].balance.claimants
        ensures c[row] == cbs[i].balance.lastModified
      {
        assert row == (row.0, row.1);
        BalancesAfter(b, cbs, |cbs|, row.0);
        ClaimantAfter(c, cbs, row.0, row.1);
      }
    }
  }

  /** An upsert that drops a claimant: its row stays, and puts another balance on the subquery form's page. */
  lemma DroppedClaimantChangesPage(x: Balance, y: Balance, z: Balance, d: Address)
    requires x.lastModified == 5 && y.lastModified == 10 && z.lastModified == 20 && d !in z.claimants
    ensures var b: Balances, c: Claimants := map[1 := x, 2 := y], map[(1, d) := 5, (2, d) := 10];
            var after := Upserted(b, c, [Entry(1, z)]);
            && Linked(b, c) && !Linked(after.0, after.1)
            && JoinPage(after.0, after.1, d, Cursor(0, None), Asc, 1) == [Key(10, 2)]
            && SubqueryPage(after.0, after.1, d, Cursor(0, None), Asc, 1) == [Key(20, 1)]
  {
    var b: Balances, c: Claimants := map[1 := x, 2 := y], map[(1, d) := 5, (2, d) := 10];
    var cbs := [Entry(1, z)];
    var after := Upserted(b, c, cbs);
    UpsertLinks(b, c, cbs);
    assert (1, d) in c && c[(1, d)] == 5 && cbs[0].id == 1;
    assert after.0 == b[1 := z];
    forall id: Id ensures ((id, d) in after.1 <==> (id, d) in c) && ((id, d) in c ==> after.1[(id, d)] == c[(id, d)]) {
      ClaimantAfter(c, cbs, id, d);
    }
    DroppedClaimantPages(after.0, after.1, d);
  }

  lemma DroppedClaimantPages(b: Balances, c: Claimants, d: Address)
    requires b.Keys == {1, 2} && b[1].lastModified == 20 && b[2].lastModified == 10
    requires forall id: Id :: (id, d) in c <==> id == 1 || id == 2
    requires c[(1, d)] == 5 && c[(2, d)] == 10
    ensures JoinPage(b, c, d, Cursor(0, None), Asc, 1) == [Key(10, 2)]
    ensures SubqueryPage(b, c, d, Cursor(0, None), Asc, 1) == [Key(20, 1)]
  {
    var none := Cursor(0, None);
    var join, sub := JoinRows(b, c, d, none, Asc), SubqueryRows(c, d, none, Asc);
    assert join == {Key(10, 2), Key(20, 1)};
    SortedIsUnique(Sorted(join), [Key(10, 2), Key(20, 1)]);
    forall k ensures k in sub <==> k in {Key(5, 1), Key(10, 2)} {
      assert (1, d) in c && (2, d) in c;
      if k in sub {
        var row :| row in c && row.1 == d && k == Key(c[row], row.0);
        assert row == (row.0, d);
      }
    }
    SortedIsUnique(Sorted(sub), [Key(5, 1), Key(10, 2)]);
    var first := Page(sub, Asc, 1);
    assert first == [Key(5, 1)];
    assert first[0].lo == 1;
    assert SelectedRows(b, first, none, Asc) == {Key(20, 1)};
    SortedIsUnique(Sorted({Key(20, 1)}), [Key(20, 1)]);
  }

  // ----- Runs of the change processor -----

  /** The claimants table holds one row for each claimant of each balance, with the balance's ledger, and no other. */
  ghost predicate Exact(b: Balances, c: Claimants) {
    && Linked(b, c)
    && forall id, d :: (id, d) in c <==> id in b && d in b[id].claimants
  }

  lemma ExactIsLinked(b: Balances, c: Claimants)
    requires Exact(b, c)
    ensures Linked(b, c)
  {
  }

  /** Entries of balances that exist: only the sponsor and the ledger can have changed. */
  ghost predicate Updates(b: Balances, cbs: seq<Entry>) {
    forall i :: 0 <= i < |cbs| ==> cbs[i].id in b && b[cbs[i].id].claimants == cbs[i].balance.claimants
  }

  ghost predicate Creates(b: Balances, cbs: seq<Entry>) {
    forall i :: 0 <= i < |cbs| ==> cbs[i].id !in b
  }

  /** What the network can make of the entries: created ids are new and claimants are immutable. */
  ghost predicate Allowed(b: Balances, batch: Batch) {
    && DistinctIds(batch.created) && Creates(b, batch.created)
    && DistinctIds(batch.updated) && Updates(UpsertedBalances(b, batch.created, |batch.created|), batch.updated)
  }

  /** An upsert of entries whose stored claimants, if any, are the same keeps the claimants table exact. */
  lemma UpsertKeepsExact(b: Balances, c: Claimants, cbs: seq<Entry>)
    requires Exact(b, c) && DistinctIds(cbs)
    requires forall i :: 0 <= i < |cbs| && cbs[i].id in b ==> b[cbs[i].id].claimants == cbs[i].balance.claimants
    ensures Exact(Upserted(b, c, cbs).0, Upserted(b, c, cbs).1)
  {
    var r := Upserted(b, c, cbs);
    UpsertLinks(b, c, cbs);
    assert NoneLeftBehind(c, cbs) by {
      forall i, row | 0 <= i < |cbs| && row in c && row.0 == cbs[i].id ensures row.1 in cbs[i].balance.claimants {
        assert (row.0, row.1) in c;
      }
    }
    forall id, d ensures (id, d) in r.1 <==> id in r.0 && d in r.0[id].claimants {
      BalancesAfter(b, cbs, |cbs|, id);
      ClaimantAfter(c, cbs, id, d);
    }
  }

  lemma InsertKeepsExact(b: Balances, c: Claimants, cbs: seq<Entry>)
    requires Exact(b, c) && DistinctIds(cbs) && Creates(b, cbs)
    ensures Exact(Upserted(b, c, cbs).0, Upserted(b, c, cbs).1)
  {
    UpsertKeepsExact(b, c, cbs);
  }

  lemma UpdateKeepsExact(b: Balances, c: Claimants, cbs: seq<Entry>)
    requires Exact(b, c) && DistinctIds(cbs) && Updates(b, cbs)
    ensures Exact(Upserted(b, c, cbs).0, Upserted(b, c, cbs).1)
  {
    UpsertKeepsExact(b, c, cbs);
  }

  lemma RemoveKeepsExact(b: Balances, c: Claimants, ids: set<Id>)
    requires Exact(b, c)
    ensures Exact(Removed(b, c, ids).0, Removed(b, c, ids).1)
  {
    var r := Removed(b, c, ids);
    forall id, d ensures (id, d) in r.1 <==> id in r.0 && d in r.0[id].claimants {
      assert (id, d) in r.1 <==> (id, d) in c && id !in ids;
    }
  }

  lemma CommitKeepsExact(b: Balances, c: Claimants, batch: Batch)
    requires Exact(b, c) && Allowed(b, batch)
    ensures Exact(Committed(b, c, batch).0, Committed(b, c, batch).1)
  {
    InsertKeepsExact(b, c, batch.created);
    var inserted := Upserted(b, c, batch.created);
    UpdateKeepsExact(inserted.0, inserted.1, batch.updated);
    var updated := Upserted(inserted.0, inserted.1, batch.updated);
    RemoveKeepsExact(updated.0, updated.1, batch.removed);
  }

  /** Whether, and as what, a balance is stored after a commit: removals win over updates, these over creations. */
  lemma CommittedAt(b: Balances, c: Claimants, batch: Batch, id: Id)
    requires DistinctIds(batch.created) && DistinctIds(batch.updated)
    ensures var r := Committed(b, c, batch).0;
            && (id in batch.removed ==> id !in r)
            && (id !in batch.removed ==>
                 && (forall i :: 0 <= i < |batch.updated| && batch.updated[i].id == id ==>
                       id in r && r[id] == batch.updated[i].balance)
                 && (id !in Ids(batch.updated) ==>
                       forall i :: 0 <= i < |batch.created| && batch.created[i].id == id ==>
                         id in r && r[id] == batch.created[i].balance)
                 && (id !in Ids(batch.updated) && id !in Ids(batch.created) ==>
                       (id in r <==> id in b) && (id in b ==> r[id] == b[id])))
  {
    BalancesAfter(b, batch.created, |batch.created|, id);
    BalancesAfter(Upserted(b, c, batch.created).0, batch.updated, |batch.updated|, id);
    NotAmongIds(batch.created, id);
    NotAmongIds(batch.updated, id);
  }

  function Ids(cbs: seq<Entry>): set<Id> {
    set i | 0 <= i < |cbs| :: cbs[i].id
  }

  lemma NotAmongIds(cbs: seq<Entry>, id: Id)
    ensures id !in Ids(cbs) <==> forall i :: 0 <= i < |cbs| ==> cbs[i].id != id
  {
  }

  function CommittedAll(b: Balances, c: Claimants, batches: seq<Batch>): (Balances, Claimants)
    decreases |batches|
  {
    if batches == [] then (b, c)
    else var next := Committed(b, c, batches[0]); CommittedAll(next.0, next.1, batches[1..])
  }

  ghost predicate AllAllowed(b: Balances, c: Claimants, batches: seq<Batch>)
    decreases |batches|
  {
    batches != [] ==>
      && Allowed(b, batches[0])
      && var next := Committed(b, c, batches[0]); AllAllowed(next.0, next.1, batches[1..])
  }

  /**
   * Over any creations, updates and removals the network can make, the claimants table stays exact, so that the
   * subquery form always returns the join form's page.
   */
  lemma {:induction false} SubqueryIsAlwaysJoin(
    b: Balances, c: Claimants, batches: seq<Batch>, d: Address, cursor: Cursor, order: Order, limit: nat)
    requires Exact(b, c) && AllAllowed(b, c, batches)
    ensures var r := CommittedAll(b, c, batches);
            && Exact(r.0, r.1)
            && SubqueryPage(r.0, r.1, d, cursor, order, limit) == JoinPage(r.0, r.1, d, cursor, order, limit)
    decreases |batches|
  {
    if batches == [] {
      SubqueryIsJoin(b, c, d, cursor, order, limit);
    } else {
      CommitKeepsExact(b, c, batches[0]);
      var next := Committed(b, c, batches[0]);
      SubqueryIsAlwaysJoin(next.0, next.1, batches[1..], d, cursor, order, limit);
    }
  }
}
