/** The state verifier: a batched comparison of the history archive with the rows Horizon stores. */
module StateVerifier {

  datatype Kind =
    | Account | Data | Offer | TrustLine | ClaimableBalance | LiquidityPool
    | ContractData | Ttl
    | Unexpected

  /** The types whose entries are rows of Horizon tables. */
  predicate InTables(k: Kind) {
    k in {Account, Data, Offer, TrustLine, ClaimableBalance, LiquidityPool}
  }

  datatype Key = Key(kind: Kind, id: string)
  datatype Entry = Entry(key: Key, body: string)

  predicate DistinctKeys(es: seq<Entry>) {
    forall i, j :: 0 <= i < j < |es| ==> es[i].key != es[j].key
  }

  /** `m` holds exactly the entries of `es`. */
  predicate Holds(m: map<Key, string>, es: seq<Entry>) {
    && (forall i :: 0 <= i < |es| ==> es[i].key in m && m[es[i].key] == es[i].body)
    && (forall k :: k in m ==> exists i :: 0 <= i < |es| && es[i].key == k)
  }

  lemma HoldsPush(m: map<Key, string>, es: seq<Entry>, e: Entry)
    requires Holds(m, es) && forall i :: 0 <= i < |es| ==> es[i].key != e.key
    ensures Holds(m[e.key := e.body], es + [e])
  {
    var m', es' := m[e.key := e.body], es + [e];
    forall k | k in m' ensures exists i :: 0 <= i < |es'| && es'[i].key == k {
      if k == e.key {
        assert es'[|es|].key == k;
      } else {
        var i :| 0 <= i < |es| && es[i].key == k;
        assert es'[i].key == k;
      }
    }
  }

  /** `es` is the normalized form of source[from..to]. */
  predicate Serves(es: seq<Entry>, norm: string -> string, source: seq<Entry>, from: nat, to: nat) {
    && from <= to <= |source| && |es| == to - from
    && forall i :: 0 <= i < |es| ==> es[i] == Entry(source[from + i].key, norm(source[from + i].body))
  }

  lemma ServeNext(m: map<Key, string>, es: seq<Entry>, norm: string -> string, source: seq<Entry>, from: nat, to: nat)
    requires Serves(es, norm, source, from, to) && Holds(m, es) && to < |source| && DistinctKeys(source)
    ensures var e := Entry(source[to].key, norm(source[to].body));
      Serves(es + [e], norm, source, from, to + 1) && Holds(m[e.key := e.body], es + [e])
  {
    var e := Entry(source[to].key, norm(source[to].body));
    forall i | 0 <= i < |es| ensures es[i].key != e.key {
      assert source[from + i].key != source[to].key;
    }
    HoldsPush(m, es, e);
  }

  /** StateVerifier of internal/ingest/verify.go over a checkpoint reader that serves `source` in order. */
  class StateVerifier {
    const source: seq<Entry>
    const norm: string -> string
    var position: nat
    var readEntries: nat
    var readingDone: bool
    var currentEntries: map<Key, string>

    constructor (source: seq<Entry>, norm: string -> string)
      ensures this.source == source && this.norm == norm
      ensures position == 0 && readEntries == 0 && !readingDone && currentEntries == map[]
    {
      this.source, this.norm := source, norm;
      position, readEntries, readingDone, currentEntries := 0, 0, false, map[];
    }

    method CheckUnreadEntries() returns (ok: bool)
      ensures ok <==> currentEntries == map[]
    {
      ok := |currentEntries| == 0;
    }

    method GetLedgerEntries(count: nat) returns (ok: bool, entries: seq<Entry>)
      requires position <= |source| && DistinctKeys(source)
      modifies this
      ensures ok <==> old(currentEntries) == map[]
      ensures !ok ==> position == old(position) && currentEntries == old(currentEntries)
      ensures ok ==>
        && old(position) <= position <= |source|
        && position == (if old(position) + count <= |source| then old(position) + count else |source|)
        && Serves(entries, norm, source, old(position), position)
        && Holds(currentEntries, entries)
        && readEntries == old(readEntries) + |entries|
        && (readingDone <==> old(readingDone) || old(position) + count > |source|)
    {
      entries := [];
      ok := CheckUnreadEntries();
      if !ok {
        return;
      }
      currentEntries := map[];
      var left := count;
      while left > 0
        invariant 0 <= left <= count && position == old(position) + (count - left) <= |source|
        invariant Serves(entries, norm, source, old(position), position)
        invariant Holds(currentEntries, entries)
        invariant readEntries == old(readEntries) + |entries|
        invariant readingDone == old(readingDone)
      {
        if position == |source| {
          readingDone := true;
          return;
        }
        var entry := Entry(source[position].key, norm(source[position].body));
        ServeNext(currentEntries, entries, norm, source, old(position), position);
        entries := entries + [entry];
        currentEntries := currentEntries[entry.key := entry.body];
        left := left - 1;
        readEntries := readEntries + 1;
        position := position + 1;
      }
    }

    method Write(entry: Entry) returns (ok: bool)
      modifies this`currentEntries
      ensures ok <==> entry.key in old(currentEntries) && norm(entry.body) == old(currentEntries)[entry.key]
      ensures currentEntries == old(currentEntries) - {entry.key}
    {
      if entry.key !in currentEntries {
        return false;
      }
      var expected := currentEntries[entry.key];
      currentEntries := currentEntries - {entry.key};
      return norm(entry.body) == expected;
    }

    method Verify(countAll: nat) returns (ok: bool)
      ensures ok <==> currentEntries == map[] && readingDone && readEntries == countAll
    {
      ok := CheckUnreadEntries();
      ok := ok && readingDone && readEntries == countAll;
    }
  }

  // ---------------------------------------------------------------------------------------------------------------
  // One batch.

  /** Nothing stored contradicts the archive entry `e` (whose body is normalized). */
  predicate Agrees(norm: string -> string, storage: map<Key, string>, e: Entry) {
    && e.key.kind != Unexpected
    && (InTables(e.key.kind) && e.key in storage ==> norm(storage[e.key]) == e.body)
  }

  /** addAccountsToStateVerifier and its five siblings: write the stored rows among `ids`, in any order. */
  method AddRows(v: StateVerifier, storage: map<Key, string>, ids: set<Key>) returns (ok: bool)
    requires ids <= v.currentEntries.Keys
    modifies v`currentEntries
    ensures ok <==> forall k :: k in ids && k in storage ==> v.norm(storage[k]) == old(v.currentEntries)[k]
    ensures ok ==> v.currentEntries == old(v.currentEntries) - (ids * storage.Keys)
  {
    var rows := ids * storage.Keys;
    var todo := rows;
    while todo != {}
      invariant todo <= rows
      invariant v.currentEntries == old(v.currentEntries) - (rows - todo)
      invariant forall k :: k in rows - todo ==> v.norm(storage[k]) == old(v.currentEntries)[k]
    {
      var k :| k in todo;
      var matches := v.Write(Entry(k, storage[k]));
      if !matches {
        return false;
      }
      todo := todo - {k};
    }
    return true;
  }

  function KeysOf(es: seq<Entry>, kind: Kind): set<Key> {
    set i | 0 <= i < |es| && es[i].key.kind == kind :: es[i].key
  }

  const TABLE_KINDS := [Account, Data, Offer, TrustLine, ClaimableBalance, LiquidityPool]

  /** The table-backed keys among the first `n` entries that the store lacks. */
  function Missing(es: seq<Entry>, n: nat, storage: map<Key, string>): set<Key>
    requires n <= |es|
  {
    set i | 0 <= i < n && InTables(es[i].key.kind) && es[i].key !in storage :: es[i].key
  }

  predicate WrittenBack(k: Kind) {
    k == ContractData || k == Ttl
  }

  /** Contract data and TTL entries are written back from the archive itself. */
  method WriteBack(v: StateVerifier, entries: seq<Entry>) returns (ok: bool)
    requires Holds(v.currentEntries, entries) && DistinctKeys(entries)
    requires forall i :: 0 <= i < |entries| ==> v.norm(entries[i].body) == entries[i].body
    modifies v`currentEntries
    ensures ok <==> forall i :: 0 <= i < |entries| ==> entries[i].key.kind != Unexpected
    ensures ok ==>
      v.currentEntries == map k | k in old(v.currentEntries) && InTables(k.kind) :: old(v.currentEntries)[k]
  {
    ghost var all := v.currentEntries;
    ghost var gone: set<Key> := {};
    for n := 0 to |entries|
      invariant forall i :: 0 <= i < n ==> entries[i].key.kind != Unexpected
      invariant v.currentEntries == all - gone
      invariant GoneAre(entries, n, gone)
    {
      var e := entries[n];
      if WrittenBack(e.key.kind) {
        assert e.key in all && e.key !in gone;
        MinusOneMore(all, gone, e.key);
        GoneGrows(entries, n, gone);
        var written := v.Write(e);
        assert written;
        gone := gone + {e.key};
      } else if e.key.kind == Unexpected {
        return false;
      }
    }
    TablesRemain(all, entries, gone);
    return true;
  }

  /** `gone` holds, among the keys of the entries, those of the first `n` that are written back. */
  ghost predicate GoneAre(entries: seq<Entry>, n: nat, gone: set<Key>) {
    forall i :: 0 <= i < |entries| ==> (entries[i].key in gone <==> i < n && WrittenBack(entries[i].key.kind))
  }

  lemma MinusOneMore(m: map<Key, string>, gone: set<Key>, k: Key)
    ensures (m - gone) - {k} == m - (gone + {k})
  {
  }

  lemma GoneGrows(entries: seq<Entry>, n: nat, gone: set<Key>)
    requires DistinctKeys(entries) && n < |entries| && GoneAre(entries, n, gone) && WrittenBack(entries[n].key.kind)
    ensures GoneAre(entries, n + 1, gone + {entries[n].key})
  {
  }

  lemma TablesRemain(all: map<Key, string>, entries: seq<Entry>, gone: set<Key>)
    requires Holds(all, entries) && forall i :: 0 <= i < |entries| ==> entries[i].key.kind != Unexpected
    requires forall i :: 0 <= i < |entries| ==> (entries[i].key in gone <==> WrittenBack(entries[i].key.kind))
    ensures all - gone == map k | k in all && InTables(k.kind) :: all[k]
  {
    forall k | k in all ensures k in gone <==> !InTables(k.kind) {
      var i :| 0 <= i < |entries| && entries[i].key == k;
      assert entries[i].key.kind != Unexpected;
    }
  }

  /** One table's share of a batch. */
  method AddKind(
    v: StateVerifier, storage: map<Key, string>, entries: seq<Entry>, kind: Kind, ghost all: map<Key, string>)
    returns (ok: bool)
    requires Holds(all, entries) && InTables(kind)
    requires forall k :: k in all && k.kind == kind ==> k in v.currentEntries && v.currentEntries[k] == all[k]
    modifies v`currentEntries
    ensures ok <==>
      forall i :: 0 <= i < |entries| && entries[i].key.kind == kind ==> Agrees(v.norm, storage, entries[i])
    ensures ok ==> v.currentEntries == old(v.currentEntries) - (KeysOf(entries, kind) * storage.Keys)
  {
    var ids := KeysOf(entries, kind);
    ok := AddRows(v, storage, ids);
    if !ok {
      ghost var k :| k in ids && k in storage && v.norm(storage[k]) != all[k];
      ghost var i :| 0 <= i < |entries| && entries[i].key.kind == kind && entries[i].key == k;
      assert !Agrees(v.norm, storage, entries[i]);
    }
  }

  method CheckBatch(v: StateVerifier, storage: map<Key, string>, entries: seq<Entry>) returns (ok: bool)
    requires Holds(v.currentEntries, entries) && DistinctKeys(entries)
    requires forall i :: 0 <= i < |entries| ==> v.norm(entries[i].body) == entries[i].body
    modifies v`currentEntries
    ensures ok <==> forall i :: 0 <= i < |entries| ==> Agrees(v.norm, storage, entries[i])
    ensures ok ==> v.currentEntries.Keys == Missing(entries, |entries|, storage)
  {
    ghost var all := v.currentEntries;
    ok := WriteBack(v, entries);
    if !ok {
      return;
    }
    for n := 0 to |TABLE_KINDS|
      invariant forall k :: k in v.currentEntries <==>
        k in all && InTables(k.kind) && !(k in storage && k.kind in TABLE_KINDS[..n])
      invariant forall k :: k in v.currentEntries ==> v.currentEntries[k] == all[k]
      invariant forall i :: 0 <= i < |entries| && entries[i].key.kind in TABLE_KINDS[..n] ==>
        Agrees(v.norm, storage, entries[i])
    {
      var kind := TABLE_KINDS[n];
      assert kind !in TABLE_KINDS[..n] && InTables(kind);
      assert TABLE_KINDS[..n + 1] == TABLE_KINDS[..n] + [kind];
      ok := AddKind(v, storage, entries, kind, all);
      if !ok {
        return;
      }
    }
    assert forall k: Kind :: InTables(k) ==> k in TABLE_KINDS;
    return true;
  }

  // ---------------------------------------------------------------------------------------------------------------
  // The whole run.

  predicate Expected(archive: seq<Entry>) {
    forall i :: 0 <= i < |archive| ==> archive[i].key.kind != Unexpected
  }

  /** The table-backed entries among the archive's first `n`, as a map. */
  function TableEntries(norm: string -> string, archive: seq<Entry>, n: nat): map<Key, string>
    requires n <= |archive|
  {
    if n == 0 then map[]
    else
      var rest, e := TableEntries(norm, archive, n - 1), archive[n - 1];
      if InTables(e.key.kind) then rest[e.key := norm(e.body)] else rest
  }

  function StoredEntries(norm: string -> string, storage: map<Key, string>): map<Key, string> {
    map k | k in storage :: norm(storage[k])
  }

  /** The number of contract data and TTL entries among the first `n`, counted while batches are written. */
  function SpecialCount(es: seq<Entry>, n: nat): nat
    requires n <= |es|
  {
    if n == 0 then 0 else SpecialCount(es, n - 1) + if InTables(es[n - 1].key.kind) then 0 else 1
  }

  lemma {:induction false} BatchCounts(norm: string -> string, archive: seq<Entry>, es: seq<Entry>, from: nat, n: nat)
    requires from + n <= |archive| && n <= |es| && forall i :: 0 <= i < n ==> es[i].key == archive[from + i].key
    ensures SpecialCount(archive, from + n) == SpecialCount(archive, from) + SpecialCount(es, n)
  {
    if n > 0 {
      BatchCounts(norm, archive, es, from, n - 1);
    }
  }

  lemma {:induction false} TableEntriesAt(norm: string -> string, archive: seq<Entry>, n: nat, i: nat)
    requires DistinctKeys(archive) && i < n <= |archive| && InTables(archive[i].key.kind)
    ensures archive[i].key in TableEntries(norm, archive, n)
    ensures TableEntries(norm, archive, n)[archive[i].key] == norm(archive[i].body)
  {
    if i < n - 1 {
      TableEntriesAt(norm, archive, n - 1, i);
      assert archive[i].key != archive[n - 1].key;
    }
  }

  lemma {:induction false} TableEntriesFrom(norm: string -> string, archive: seq<Entry>, n: nat, k: Key)
    returns (i: nat)
    requires n <= |archive| && k in TableEntries(norm, archive, n)
    ensures i < n && archive[i].key == k && InTables(k.kind)
  {
    if InTables(archive[n - 1].key.kind) && archive[n - 1].key == k {
      i := n - 1;
    } else {
      i := TableEntriesFrom(norm, archive, n - 1, k);
    }
  }

  lemma {:induction false} TableEntriesCount(norm: string -> string, archive: seq<Entry>, n: nat)
    requires DistinctKeys(archive) && n <= |archive|
    ensures |TableEntries(norm, archive, n)| + SpecialCount(archive, n) == n
  {
    if n > 0 {
      TableEntriesCount(norm, archive, n - 1);
      var k := archive[n - 1].key;
      if k in TableEntries(norm, archive, n - 1) {
        var i := TableEntriesFrom(norm, archive, n - 1, k);
        assert false;
      }
    }
  }

  predicate Same(norm: string -> string, archive: seq<Entry>, storage: map<Key, string>) {
    Expected(archive) && StoredEntries(norm, storage) == TableEntries(norm, archive, |archive|)
  }

  /** Nothing stored contradicts archive entry `i`. */
  predicate AgreesAt(norm: string -> string, archive: seq<Entry>, storage: map<Key, string>, i: nat)
    requires i < |archive|
  {
    Agrees(norm, storage, Entry(archive[i].key, norm(archive[i].body)))
  }

  /** An archive entry that the store contradicts or lacks shows that the two differ. */
  lemma BadEntryRefutes(norm: string -> string, archive: seq<Entry>, storage: map<Key, string>, i: nat)
    requires DistinctKeys(archive) && i < |archive|
    requires
      || !AgreesAt(norm, archive, storage, i)
      || (InTables(archive[i].key.kind) && archive[i].key !in storage)
    ensures !Same(norm, archive, storage)
  {
    var k := archive[i].key;
    if InTables(k.kind) {
      TableEntriesAt(norm, archive, |archive|, i);
      assert k in storage ==> StoredEntries(norm, storage)[k] == norm(storage[k]);
      assert k !in storage ==> k !in StoredEntries(norm, storage);
    }
  }

  lemma SubsetOfSameSize<T>(a: set<T>, b: set<T>)
    requires a <= b && |a| == |b|
    ensures a == b
  {
    assert b == a + (b - a);
  }

  /** Once every archive entry agrees and none is missing, counting tells whether the store has extra rows. */
  lemma CountDecides(norm: string -> string, archive: seq<Entry>, storage: map<Key, string>)
    requires DistinctKeys(archive) && Missing(archive, |archive|, storage) == {}
    requires forall i :: 0 <= i < |archive| ==> AgreesAt(norm, archive, storage, i)
    ensures |storage| + SpecialCount(archive, |archive|) == |archive| <==> Same(norm, archive, storage)
  {
    var m, s := TableEntries(norm, archive, |archive|), StoredEntries(norm, storage);
    TableEntriesCount(norm, archive, |archive|);
    forall k | k in m ensures k in s && s[k] == m[k] {
      var i := TableEntriesFrom(norm, archive, |archive|, k);
      TableEntriesAt(norm, archive, |archive|, i);
      assert AgreesAt(norm, archive, storage, i);
      assert archive[i].key !in Missing(archive, |archive|, storage);
    }
    SizeDecides(m, s);
    assert s.Keys == storage.Keys;
    assert |s| == |s.Keys| == |storage.Keys| == |storage|;
    assert forall i :: 0 <= i < |archive| ==> AgreesAt(norm, archive, storage, i) ==> archive[i].key.kind != Unexpected;
  }

  lemma SizeDecides(m: map<Key, string>, s: map<Key, string>)
    requires forall k :: k in m ==> k in s && s[k] == m[k]
    ensures |m| == |s| <==> m == s
  {
    assert |m| == |m.Keys| && |s| == |s.Keys|;
    if |m| == |s| {
      SubsetOfSameSize(m.Keys, s.Keys);
      assert forall k :: k in s ==> k in m.Keys;
    }
  }

  lemma NoneMissing(es: seq<Entry>, n: nat, storage: map<Key, string>)
    requires n <= |es|
    ensures Missing(es, n, storage) == {} <==>
      forall i :: 0 <= i < n && InTables(es[i].key.kind) ==> es[i].key in storage
  {
    if i :| 0 <= i < n && InTables(es[i].key.kind) && es[i].key !in storage {
      assert es[i].key in Missing(es, n, storage);
    }
  }

  /** After a batch, the unwritten entries are exactly the table entries read so far that the store lacks. */
  lemma MissingGrows(archive: seq<Entry>, storage: map<Key, string>, es: seq<Entry>, from: nat, to: nat)
    requires from <= to <= |archive| && |es| == to - from
    requires forall i :: 0 <= i < |es| ==> es[i].key == archive[from + i].key
    requires Missing(archive, from, storage) == {}
    ensures Missing(archive, to, storage) == Missing(es, |es|, storage)
  {
    NoneMissing(archive, from, storage);
    forall i | from <= i < to && InTables(archive[i].key.kind) && archive[i].key !in storage
      ensures archive[i].key in Missing(es, |es|, storage)
    {
      assert es[i - from].key == archive[i].key;
    }
    forall i | 0 <= i < |es| && InTables(es[i].key.kind) && es[i].key !in storage
      ensures es[i].key in Missing(archive, to, storage)
    {
      assert archive[from + i].key == es[i].key;
    }
  }

  lemma MissingRefutes(norm: string -> string, archive: seq<Entry>, storage: map<Key, string>, n: nat)
    requires DistinctKeys(archive) && n <= |archive| && Missing(archive, n, storage) != {}
    ensures !Same(norm, archive, storage)
  {
    NoneMissing(archive, n, storage);
    var i :| 0 <= i < n && InTables(archive[i].key.kind) && archive[i].key !in storage;
    BadEntryRefutes(norm, archive, storage, i);
  }

  /** A batch agrees with the store exactly when the archive entries it serves do. */
  lemma BatchAgrees(
    norm: string -> string, archive: seq<Entry>, storage: map<Key, string>, es: seq<Entry>, from: nat, to: nat)
    requires Serves(es, norm, archive, from, to) && DistinctKeys(archive)
    ensures DistinctKeys(es)
    ensures (forall i :: 0 <= i < |es| ==> Agrees(norm, storage, es[i]))
       <==> (forall i :: from <= i < to ==> AgreesAt(norm, archive, storage, i))
    ensures !(forall i :: 0 <= i < |es| ==> Agrees(norm, storage, es[i])) ==> !Same(norm, archive, storage)
  {
    forall i, j | 0 <= i < j < |es| ensures es[i].key != es[j].key {
      assert archive[from + i].key != archive[from + j].key;
    }
    forall i | from <= i < to ensures AgreesAt(norm, archive, storage, i) <==> Agrees(norm, storage, es[i - from]) {
      assert es[i - from] == Entry(archive[i].key, norm(archive[i].body));
    }
    if i :| 0 <= i < |es| && !Agrees(norm, storage, es[i]) {
      assert !AgreesAt(norm, archive, storage, from + i);
      BadEntryRefutes(norm, archive, storage, from + i);
    }
  }

  /** What holds between two batches: all entries read agree, and the unwritten ones are those the store lacks. */
  ghost predicate Progress(v: StateVerifier, archive: seq<Entry>, storage: map<Key, string>, norm: string -> string)
    reads v
  {
    && v.source == archive && v.norm == norm
    && v.position <= |archive| && v.readEntries == v.position
    && (forall i :: 0 <= i < v.position ==> AgreesAt(norm, archive, storage, i))
    && v.currentEntries.Keys == Missing(archive, v.position, storage)
  }

  /** One iteration of the loop: fetch a batch, write what the store has for it. */
  method NextBatch(v: StateVerifier, storage: map<Key, string>, batch: nat, ghost archive: seq<Entry>)
    returns (ok: bool, entries: seq<Entry>)
    requires batch >= 1 && DistinctKeys(archive) && forall x :: v.norm(v.norm(x)) == v.norm(x)
    requires Progress(v, archive, storage, v.norm)
    modifies v
    ensures ok ==> Progress(v, archive, storage, v.norm) && v.position == old(v.position) + |entries|
    ensures ok ==> forall i :: 0 <= i < |entries| ==> entries[i].key == archive[old(v.position) + i].key
    ensures ok && entries == [] ==> v.readingDone && v.position == |archive| && v.currentEntries == map[]
    ensures !ok ==> !Same(v.norm, archive, storage)
  {
    ghost var from := v.position;
    ok, entries := v.GetLedgerEntries(batch);
    if !ok {
      MissingRefutes(v.norm, archive, storage, from);
      return;
    }
    assert Missing(archive, from, storage) == {};
    MissingGrows(archive, storage, entries, from, v.position);
    if |entries| == 0 {
      return;
    }
    BatchAgrees(v.norm, archive, storage, entries, from, v.position);
    ok := CheckBatch(v, storage, entries);
  }

  /**
   * The loop of verifyState from the creation of the verifier to verifier.Verify: for an archive with distinct keys
   * and any batch size it succeeds exactly when the stored rows equal the archive's table-backed entries as maps.
   */
  method VerifyState(archive: seq<Entry>, storage: map<Key, string>, norm: string -> string, batch: nat)
    returns (ok: bool)
    requires batch >= 1 && DistinctKeys(archive)
    requires forall x :: norm(norm(x)) == norm(x)
    requires forall k :: k in storage ==> InTables(k.kind)
    ensures ok <==> Same(norm, archive, storage)
  {
    var v := new StateVerifier(archive, norm);
    var special;
    ok, special := ReadAll(v, storage, batch, archive);
    if !ok {
      return;
    }
    CountDecides(norm, archive, storage);
    ok := v.Verify(|storage| + special);
  }

  /** The loop itself: it ends with every entry read and written, or shows that store and archive differ. */
  method ReadAll(v: StateVerifier, storage: map<Key, string>, batch: nat, ghost archive: seq<Entry>)
    returns (ok: bool, special: nat)
    requires batch >= 1 && DistinctKeys(archive) && forall x :: v.norm(v.norm(x)) == v.norm(x)
    requires Progress(v, archive, storage, v.norm) && v.position == 0
    modifies v
    ensures ok ==>
      && Progress(v, archive, storage, v.norm)
      && v.readingDone && v.position == |archive| && v.currentEntries == map[]
      && special == SpecialCount(archive, |archive|)
    ensures !ok ==> !Same(v.norm, archive, storage)
  {
    special := 0;
    while true
      invariant Progress(v, archive, storage, v.norm)
      invariant special == SpecialCount(archive, v.position)
      decreases |archive| - v.position
    {
      ghost var from := v.position;
      var entries;
      ok, entries := NextBatch(v, storage, batch, archive);
      if !ok {
        return;
      }
      if |entries| == 0 {
        break;
      }
      special := special + SpecialCount(entries, |entries|);
      BatchCounts(v.norm, archive, entries, from, |entries|);
    }
  }
}
