/** The in-memory order book graph, kept up to date from the soft-deleted, compacted offer and pool tables. */
module OrderBook {
  import opened Network

  /** A row of the offers or the liquidity_pools table; rows of removed entries stay until compaction. */
  datatype Row = Row(entry: string, lastModified: nat, deleted: bool)

  type Table = map<int, Row>
  type Book = map<int, string>

  /** The live entries of a table: what StreamAllOffers and StreamAllLiquidityPools load. */
  function Live(t: Table): Book {
    map id | id in t && !t[id].deleted :: t[id].entry
  }

  /** The part of the database the stream reads in its repeatable-read transaction. */
  datatype Store = Store(
    lastIngested: nat, lastHistory: nat, stateInvalid: bool,
    offers: Table, pools: Table, offerCompaction: nat, poolCompaction: nat)

  predicate Consistent(s: Store) {
    s.lastHistory == s.lastIngested || s.lastHistory == 0
  }

  // ---------------------------------------------------------------------------------------------------------------
  // What happens to the tables between two updates.

  /** One ledger's changes to a table: changed rows carry the ledger, removed entries become deleted rows. */
  function Touch(t: Table, changes: map<int, Option<string>>, ledger: nat): Table {
    t + map id | id in changes && (changes[id].Some? || id in t) ::
      if changes[id].Some? then Row(changes[id].value, ledger, false) else Row(t[id].entry, ledger, true)
  }

  /** CompactOffers and CompactLiquidityPools: drop the deleted rows last modified at or before the cutoff. */
  function Compact(t: Table, cutoff: nat): Table {
    map id | id in t && !(t[id].deleted && t[id].lastModified <= cutoff) :: t[id]
  }

  /** What happens to the store: the next ledger is ingested, a table is compacted, or the flags change. */
  datatype Event =
    | Ingest(offerChanges: map<int, Option<string>>, poolChanges: map<int, Option<string>>)
    | CompactOffers(offerCutoff: nat)
    | CompactPools(poolCutoff: nat)
    | MarkInvalid(invalid: bool)
    | HistoryAt(ledger: nat)

  /** The processors' cutoff follows the ledger sequence, so it never moves backwards. */
  predicate Allowed(s: Store, e: Event) {
    match e
    case CompactOffers(cutoff) => s.offerCompaction <= cutoff
    case CompactPools(cutoff) => s.poolCompaction <= cutoff
    case _ => true
  }

  function After(s: Store, e: Event): Store {
    match e
    case Ingest(o, p) =>
      s.(offers := Touch(s.offers, o, s.lastIngested + 1), pools := Touch(s.pools, p, s.lastIngested + 1),
         lastIngested := s.lastIngested + 1)
    case CompactOffers(cutoff) => s.(offers := Compact(s.offers, cutoff), offerCompaction := cutoff)
    case CompactPools(cutoff) => s.(pools := Compact(s.pools, cutoff), poolCompaction := cutoff)
    case MarkInvalid(invalid) => s.(stateInvalid := invalid)
    case HistoryAt(ledger) => s.(lastHistory := ledger)
  }

  // ---------------------------------------------------------------------------------------------------------------
  // The invariant: the table still determines the book of an older ledger, unless compaction overtook that ledger.

  predicate Bounded(t: Table, ledger: nat) {
    forall id :: id in t ==> t[id].lastModified <= ledger
  }

  /**
   * `book` was the live view at `ledger`: rows not modified since agree with it, and what it holds but the table lost
   * can only have been compacted away with a cutoff above `ledger`.
   */
  predicate Derives(t: Table, compaction: nat, book: Book, ledger: nat) {
    && (forall id :: id in t && t[id].lastModified <= ledger ==>
          (id in book <==> !t[id].deleted) && (id in book ==> book[id] == t[id].entry))
    && (forall id :: id in book && id !in t ==> compaction > ledger)
  }

  predicate Tracks(s: Store, offers: Book, pools: Book, ledger: nat) {
    && ledger <= s.lastIngested
    && Derives(s.offers, s.offerCompaction, offers, ledger)
    && Derives(s.pools, s.poolCompaction, pools, ledger)
  }

  predicate WellFormed(s: Store) {
    Bounded(s.offers, s.lastIngested) && Bounded(s.pools, s.lastIngested)
  }

  lemma LiveDerives(t: Table, compaction: nat, ledger: nat)
    ensures Derives(t, compaction, Live(t), ledger)
  {
  }

  lemma TouchDerives(t: Table, compaction: nat, book: Book, ledger: nat, changes: map<int, Option<string>>, now: nat)
    requires Derives(t, compaction, book, ledger) && ledger < now
    ensures Derives(Touch(t, changes, now), compaction, book, ledger)
  {
    var t' := Touch(t, changes, now);
    assert forall id :: id in t' && t'[id].lastModified <= ledger ==> id in t && t[id] == t'[id];
  }

  lemma CompactDerives(t: Table, compaction: nat, book: Book, ledger: nat, cutoff: nat)
    requires Derives(t, compaction, book, ledger) && compaction <= cutoff
    ensures Derives(Compact(t, cutoff), cutoff, book, ledger)
  {
    var t' := Compact(t, cutoff);
    assert forall id :: id in t' ==> t'[id] == t[id];
  }

  lemma CompactKeepsLive(t: Table, cutoff: nat)
    ensures Live(Compact(t, cutoff)) == Live(t)
  {
  }

  lemma IngestKeepsOffers(s: Store, o: map<int, Option<string>>, p: map<int, Option<string>>, book: Book, ledger: nat)
    requires Derives(s.offers, s.offerCompaction, book, ledger) && ledger <= s.lastIngested
    ensures var s' := After(s, Ingest(o, p)); Derives(s'.offers, s'.offerCompaction, book, ledger)
  {
    TouchDerives(s.offers, s.offerCompaction, book, ledger, o, s.lastIngested + 1);
  }

  lemma IngestKeepsPools(s: Store, o: map<int, Option<string>>, p: map<int, Option<string>>, book: Book, ledger: nat)
    requires Derives(s.pools, s.poolCompaction, book, ledger) && ledger <= s.lastIngested
    ensures var s' := After(s, Ingest(o, p)); Derives(s'.pools, s'.poolCompaction, book, ledger)
  {
    TouchDerives(s.pools, s.poolCompaction, book, ledger, p, s.lastIngested + 1);
  }

  /** Ingesting a ledger applies its changes to the live entries, and to nothing else. */
  lemma TouchApplies(t: Table, changes: map<int, Option<string>>, now: nat, id: int)
    ensures var before, after := Live(t), Live(Touch(t, changes, now));
            && (id in changes && changes[id].Some? ==> id in after && after[id] == changes[id].value)
            && (id in changes && changes[id].None? ==> id !in after)
            && (id !in changes ==> (id in after <==> id in before) && (id in after ==> after[id] == before[id]))
  {
  }

  /** Forward ingestion, compaction and flag changes never invalidate what is known about an older book. */
  lemma EventKeepsTracks(s: Store, e: Event, offers: Book, pools: Book, ledger: nat)
    requires Tracks(s, offers, pools, ledger) && WellFormed(s) && Allowed(s, e)
    ensures Tracks(After(s, e), offers, pools, ledger)
  {
    match e
    case Ingest(o, p) =>
      IngestKeepsOffers(s, o, p, offers, ledger);
      IngestKeepsPools(s, o, p, pools, ledger);
    case CompactOffers(cutoff) => CompactDerives(s.offers, s.offerCompaction, offers, ledger, cutoff);
    case CompactPools(cutoff) => CompactDerives(s.pools, s.poolCompaction, pools, ledger, cutoff);
    case _ =>
  }

  lemma EventKeepsWellFormed(s: Store, e: Event)
    requires WellFormed(s)
    ensures WellFormed(After(s, e))
  {
  }

  // ---------------------------------------------------------------------------------------------------------------
  // Replaying the rows modified since `ledger` on the book of `ledger`.

  /** The rows GetUpdatedOffers returns, in any order: every row modified after `ledger`, deleted ones included. */
  predicate IsUpdateOf(rows: seq<(int, Row)>, t: Table, ledger: nat) {
    && (forall i :: 0 <= i < |rows| ==> rows[i].0 in t && t[rows[i].0] == rows[i].1 && rows[i].1.lastModified > ledger)
    && (forall id :: id in t && t[id].lastModified > ledger ==> exists i :: 0 <= i < |rows| && rows[i].0 == id)
  }

  /** The rows a full load streams, in any order. */
  predicate IsLoadOf(rows: seq<(int, Row)>, t: Table) {
    && (forall i :: 0 <= i < |rows| ==> rows[i].0 in t && t[rows[i].0] == rows[i].1 && !rows[i].1.deleted)
    && (forall id :: id in t && !t[id].deleted ==> exists i :: 0 <= i < |rows| && rows[i].0 == id)
  }

  function Replay(book: Book, rows: seq<(int, Row)>): Book {
    if rows == [] then book
    else
      var b := Replay(book, rows[..|rows| - 1]);
      var (id, row) := rows[|rows| - 1];
      if row.deleted then b - {id} else b[id := row.entry]
  }

  /** Ids that occur end up as their row says, the others are left alone. */
  lemma {:induction false} ReplayAt(book: Book, rows: seq<(int, Row)>, t: Table, id: int)
    requires forall i :: 0 <= i < |rows| ==> rows[i].0 in t && t[rows[i].0] == rows[i].1
    ensures var b := Replay(book, rows);
      if exists i :: 0 <= i < |rows| && rows[i].0 == id
      then (id in b <==> !t[id].deleted) && (id in b ==> b[id] == t[id].entry)
      else (id in b <==> id in book) && (id in b ==> b[id] == book[id])
  {
    if rows != [] {
      var rest, last := rows[..|rows| - 1], rows[|rows| - 1];
      ReplayAt(book, rest, t, id);
      if last.0 != id && (exists i :: 0 <= i < |rows| && rows[i].0 == id) {
        var i :| 0 <= i < |rows| && rows[i].0 == id;
        assert rest[i].0 == id;
      }
    }
  }

  /** Replaying the modified rows gives the same book as a full reload exactly when compaction lost no entry of it. */
  lemma ReplayExactness(t: Table, compaction: nat, book: Book, ledger: nat, rows: seq<(int, Row)>)
    requires Derives(t, compaction, book, ledger) && IsUpdateOf(rows, t, ledger)
    ensures Replay(book, rows) == Live(t) <==> forall id :: id in book ==> id in t
  {
    var b := Replay(book, rows);
    forall id: int
      ensures id in t ==> (id in b <==> id in Live(t)) && (id in b ==> b[id] == Live(t)[id])
      ensures id !in t ==> (id in b <==> id in book)
    {
      ReplayAt(book, rows, t, id);
    }
    if id :| id in book && id !in t {
      assert id in b && id !in Live(t);
    } else {
      forall id: int ensures (id in b <==> id in Live(t)) && (id in b ==> b[id] == Live(t)[id]) {
        assert id in t || (id !in b && id !in Live(t));
      }
    }
  }

  /** Such a loss happens: an entry removed after `ledger`, its row compacted away since, is never seen to be gone. */
  lemma CompactionLosesRemoval(id: int, entry: string, ledger: nat)
    ensures var t, book := map[id := Row(entry, ledger, false)], map[id := entry];
            var later := Compact(Touch(t, map[id := None], ledger + 1), ledger + 1);
            && Live(t) == book && Derives(later, ledger + 1, book, ledger) && IsUpdateOf([], later, ledger)
            && Live(later) == map[] && Replay(book, []) == book
  {
    var t := map[id := Row(entry, ledger, false)];
    var touched := Touch(t, map[id := None], ledger + 1);
    assert touched == map[id := Row(entry, ledger + 1, true)];
    assert Compact(touched, ledger + 1) == map[];
  }

  /** The compaction guard rules such a loss out. */
  lemma ReplayIsReload(t: Table, compaction: nat, book: Book, ledger: nat, rows: seq<(int, Row)>)
    requires Derives(t, compaction, book, ledger) && compaction <= ledger && IsUpdateOf(rows, t, ledger)
    ensures Replay(book, rows) == Live(t)
  {
    ReplayExactness(t, compaction, book, ledger, rows);
  }

  lemma ReplayOfLoad(t: Table, rows: seq<(int, Row)>)
    requires IsLoadOf(rows, t)
    ensures Replay(map[], rows) == Live(t)
  {
    var b := Replay(map[], rows);
    forall id: int ensures (id in b <==> id in Live(t)) && (id in b ==> b[id] == Live(t)[id]) {
      ReplayAt(map[], rows, t, id);
    }
  }

  // ---------------------------------------------------------------------------------------------------------------
  // The graph and the stream.

  /** orderbook.OBGraph: additions and removals are staged, Apply publishes them, Discard drops them. */
  class Graph {
    var offers: Book
    var pools: Book
    var stagedOffers: Book
    var stagedPools: Book

    predicate Clean() reads this {
      stagedOffers == offers && stagedPools == pools
    }

    constructor ()
      ensures Clean() && offers == map[] && pools == map[]
    {
      offers, pools, stagedOffers, stagedPools := map[], map[], map[], map[];
    }

    method StageOffer(id: int, row: Row)
      modifies this`stagedOffers
      ensures stagedOffers == if row.deleted then old(stagedOffers) - {id} else old(stagedOffers)[id := row.entry]
    {
      stagedOffers := if row.deleted then stagedOffers - {id} else stagedOffers[id := row.entry];
    }

    method StagePool(id: int, row: Row)
      modifies this`stagedPools
      ensures stagedPools == if row.deleted then old(stagedPools) - {id} else old(stagedPools)[id := row.entry]
    {
      stagedPools := if row.deleted then stagedPools - {id} else stagedPools[id := row.entry];
    }

    method Apply()
      modifies this
      ensures offers == old(stagedOffers) && pools == old(stagedPools) && Clean()
    {
      offers, pools := stagedOffers, stagedPools;
    }

    method Discard()
      modifies this`stagedOffers, this`stagedPools
      ensures Clean()
    {
      stagedOffers, stagedPools := offers, pools;
    }

    method Clear()
      modifies this
      ensures Clean() && offers == map[] && pools == map[]
    {
      offers, pools, stagedOffers, stagedPools := map[], map[], map[], map[];
    }

    method StageOffers(rows: seq<(int, Row)>)
      modifies this`stagedOffers
      ensures stagedOffers == Replay(old(stagedOffers), rows)
    {
      for i := 0 to |rows|
        invariant stagedOffers == Replay(old(stagedOffers), rows[..i])
      {
        assert rows[..i + 1][..i] == rows[..i];
        StageOffer(rows[i].0, rows[i].1);
      }
      assert rows[..|rows|] == rows;
    }

    method StagePools(rows: seq<(int, Row)>)
      modifies this`stagedPools
      ensures stagedPools == Replay(old(stagedPools), rows)
    {
      for i := 0 to |rows|
        invariant stagedPools == Replay(old(stagedPools), rows[..i])
      {
        assert rows[..i + 1][..i] == rows[..i];
        StagePool(rows[i].0, rows[i].1);
      }
      assert rows[..|rows|] == rows;
    }
  }

  /**
   * The rows the queries of one update return, and which of its calls fail: a query for updates, a load of offers or a
   * pass over pools after the given number of rows, or the final apply.
   */
  datatype Reads = Reads(
    allOffers: seq<(int, Row)>, allPools: seq<(int, Row)>,
    newOffers: seq<(int, Row)>, newPools: seq<(int, Row)>,
    queryFails: bool, offersFail: Option<nat>, poolsFail: Option<nat>, applyFails: bool)

  function FirstRows(rows: seq<(int, Row)>, n: nat): seq<(int, Row)> {
    if n <= |rows| then rows[..n] else rows
  }

  predicate Answers(r: Reads, s: Store, ledger: nat) {
    && IsLoadOf(r.allOffers, s.offers) && IsLoadOf(r.allPools, s.pools)
    && IsUpdateOf(r.newOffers, s.offers, ledger) && IsUpdateOf(r.newPools, s.pools, ledger)
  }

  /** What the stream publishes, and the ledger it believes this to be the state of (0: reload next time). */
  datatype View = View(offers: Book, pools: Book, ledger: nat)

  datatype Refreshed = Refreshed(view: View, reset: bool, failed: bool)

  predicate MustReset(v: View, s: Store) {
    || v.ledger == 0 || s.stateInvalid || !Consistent(s) || s.lastIngested < v.ledger
    || v.ledger < s.offerCompaction || s.offerCompaction != s.poolCompaction
  }

  function Refresh(v: View, s: Store, r: Reads): Refreshed {
    if MustReset(v, s) then
      if s.stateInvalid || !Consistent(s) then Refreshed(View(map[], map[], 0), true, false)
      else if r.offersFail.Some? || r.poolsFail.Some? || r.applyFails then Refreshed(View(map[], map[], 0), true, true)
      else Refreshed(View(Replay(map[], r.allOffers), Replay(map[], r.allPools), s.lastIngested), true, false)
    else if s.lastIngested == v.ledger then Refreshed(v, false, false)
    else if r.queryFails || r.poolsFail.Some? || r.applyFails then Refreshed(v, false, true)
    else Refreshed(View(Replay(v.offers, r.newOffers), Replay(v.pools, r.newPools), s.lastIngested), false, false)
  }

  class Stream {
    const graph: Graph
    var lastLedger: nat

    constructor (g: Graph)
      requires g.Clean()
      ensures graph == g && lastLedger == 0
    {
      graph, lastLedger := g, 0;
    }

    function Published(): View reads this, graph {
      View(graph.offers, graph.pools, lastLedger)
    }

    method Update(s: Store, r: Reads) returns (reset: bool, failed: bool)
      requires graph.Clean()
      modifies this, graph
      ensures graph.Clean()
      ensures Refreshed(Published(), reset, failed) == Refresh(old(Published()), s, r)
    {
      reset := lastLedger == 0;
      if s.stateInvalid {
        reset := true;
      } else if !Consistent(s) {
        reset := true;
      } else if s.lastIngested < lastLedger {
        reset := true;
      } else if lastLedger > 0 && lastLedger < s.offerCompaction {
        reset := true;
      } else if s.offerCompaction != s.poolCompaction {
        reset := true;
      }
      if reset {
        graph.Clear();
        lastLedger := 0;
        if s.stateInvalid || !Consistent(s) {
          return true, false;
        }
        if r.offersFail.Some? {
          graph.StageOffers(FirstRows(r.allOffers, r.offersFail.value));
          graph.Discard();
          return true, true;
        }
        graph.StageOffers(r.allOffers);
        if r.poolsFail.Some? {
          graph.StagePools(FirstRows(r.allPools, r.poolsFail.value));
          graph.Discard();
          return true, true;
        }
        graph.StagePools(r.allPools);
        if r.applyFails {
          graph.Discard();
          return true, true;
        }
        graph.Apply();
        lastLedger := s.lastIngested;
        return true, false;
      }
      if s.lastIngested == lastLedger {
        return false, false;
      }
      if r.queryFails {
        graph.Discard();
        return false, true;
      }
      graph.StageOffers(r.newOffers);
      if r.poolsFail.Some? {
        graph.StagePools(FirstRows(r.newPools, r.poolsFail.value));
        graph.Discard();
        return false, true;
      }
      graph.StagePools(r.newPools);
      if r.applyFails {
        graph.Discard();
        return false, true;
      }
      graph.Apply();
      lastLedger := s.lastIngested;
      return false, false;
    }
  }

  lemma NothingNewer(t: Table, ledger: nat, rows: seq<(int, Row)>)
    requires Bounded(t, ledger) && IsUpdateOf(rows, t, ledger)
    ensures rows == []
  {
    var id := if rows == [] then 0 else rows[0].0;
    assert id in t ==> t[id].lastModified <= ledger;
  }

  predicate Good(s: Store, v: View) {
    WellFormed(s) && (v.ledger > 0 ==> Tracks(s, v.offers, v.pools, v.ledger))
  }

  /** The status alone tells that a book of `ledger` cannot be brought up to date. */
  predicate Alarming(s: Store, ledger: nat) {
    || s.stateInvalid
    || !Consistent(s)
    || s.lastIngested < ledger
    || ledger < s.offerCompaction
    || s.offerCompaction != s.poolCompaction
  }

  predicate IsReload(v: View, s: Store) {
    v == View(Live(s.offers), Live(s.pools), s.lastIngested)
  }

  /**
   * An update without error on a valid, consistent database equals a full reload at the last ingested ledger, whatever
   * the stream held, as long as the store still tracks it or shows an alarming status.
   */
  lemma RefreshIsReload(v: View, s: Store, r: Reads)
    requires WellFormed(s) && Answers(r, s, v.ledger)
    requires v.ledger > 0 && !Alarming(s, v.ledger) ==> Tracks(s, v.offers, v.pools, v.ledger)
    requires !s.stateInvalid && Consistent(s) && !Refresh(v, s, r).failed
    ensures IsReload(Refresh(v, s, r).view, s)
  {
    if MustReset(v, s) {
      ReplayOfLoad(s.offers, r.allOffers);
      ReplayOfLoad(s.pools, r.allPools);
    } else {
      ReplayIsReload(s.offers, s.offerCompaction, v.offers, v.ledger, r.newOffers);
      ReplayIsReload(s.pools, s.poolCompaction, v.pools, v.ledger, r.newPools);
      if s.lastIngested == v.ledger {
        NothingNewer(s.offers, v.ledger, r.newOffers);
        NothingNewer(s.pools, v.ledger, r.newPools);
      }
    }
  }

  /** The stream already publishes the last ingested ledger and nothing is wrong with the status. */
  predicate UpToDate(v: View, s: Store) {
    v.ledger > 0 && !Alarming(s, v.ledger) && v.ledger == s.lastIngested
  }

  /** A call on the path of the update fails: a load or a query, the conversion of a pool row, or the apply. */
  predicate PathFails(v: View, s: Store, r: Reads) {
    || r.poolsFail.Some? || r.applyFails
    || if v.ledger == 0 || Alarming(s, v.ledger) then r.offersFail.Some? else r.queryFails
  }

  /**
   * An update clears the graph exactly when it has no ledger or the status is alarming. It fails exactly when the store
   * is valid and consistent, there is something to load, and a call on its path fails. A failed or useless reload
   * leaves an empty graph without ledger, a failed increment the graph it had.
   */
  lemma RefreshExactly(v: View, s: Store, r: Reads)
    ensures var y := Refresh(v, s, r);
            var usable := !s.stateInvalid && Consistent(s);
            && (y.reset <==> v.ledger == 0 || Alarming(s, v.ledger))
            && (y.failed <==> usable && !UpToDate(v, s) && PathFails(v, s, r))
            && (y.reset && (y.failed || !usable) ==> y.view == View(map[], map[], 0))
            && (!y.reset && y.failed ==> y.view == v)
  {
  }

  /** Without a failing call an update on a valid, consistent store succeeds and is a reload. */
  lemma FaultlessUpdateReloads(v: View, s: Store, r: Reads)
    requires WellFormed(s) && Answers(r, s, v.ledger)
    requires v.ledger > 0 && !Alarming(s, v.ledger) ==> Tracks(s, v.offers, v.pools, v.ledger)
    requires !s.stateInvalid && Consistent(s) && !PathFails(v, s, r)
    ensures !Refresh(v, s, r).failed && IsReload(Refresh(v, s, r).view, s)
  {
    RefreshExactly(v, s, r);
    RefreshIsReload(v, s, r);
  }

  // ---------------------------------------------------------------------------------------------------------------
  // Whole runs.

  /** `Meets`: the update finds any other store, as after a rebuild or a restore, with an alarming status. */
  datatype Step = Happens(event: Event) | Updates(answers: Reads) | Meets(other: Store, answers: Reads) | Forgets

  /** `past` records the live offers and pools of every ledger the run has seen. */
  datatype Run = Run(store: Store, view: View, past: map<nat, (Book, Book)>)

  predicate CanStep(x: Run, step: Step) {
    match step
    case Happens(e) => Allowed(x.store, e)
    case Updates(r) => Answers(r, x.store, x.view.ledger)
    case Meets(s, r) => WellFormed(s) && Alarming(s, x.view.ledger) && Answers(r, s, x.view.ledger)
    case Forgets => true
  }

  /** `Forgets` is a verification that finds fault with the graph and asks for a reload. */
  function Take(x: Run, step: Step): Run {
    match step
    case Happens(e) =>
      var s := After(x.store, e);
      x.(store := s, past := x.past[s.lastIngested := (Live(s.offers), Live(s.pools))])
    case Updates(r) => x.(view := Refresh(x.view, x.store, r).view)
    case Meets(s, r) =>
      Run(s, Refresh(x.view, s, r).view, map[s.lastIngested := (Live(s.offers), Live(s.pools))])
    case Forgets => x.(view := x.view.(ledger := 0))
  }

  function TakeAll(x: Run, steps: seq<Step>): Run
    decreases |steps|
  {
    if steps == [] then x else TakeAll(Take(x, steps[0]), steps[1..])
  }

  predicate CanStepAll(x: Run, steps: seq<Step>)
    decreases |steps|
  {
    steps != [] ==> CanStep(x, steps[0]) && CanStepAll(Take(x, steps[0]), steps[1..])
  }

  /** A stream at ledger n > 0 publishes exactly the offers and pools that were live at ledger n. */
  predicate Agrees(x: Run) {
    && Good(x.store, x.view)
    && x.store.lastIngested in x.past
    && x.past[x.store.lastIngested] == (Live(x.store.offers), Live(x.store.pools))
    && (forall n :: n in x.past ==> n <= x.store.lastIngested)
    && (x.view.ledger > 0 ==> x.view.ledger in x.past && x.past[x.view.ledger] == (x.view.offers, x.view.pools))
  }

  lemma EventAgrees(x: Run, e: Event)
    requires Agrees(x) && Allowed(x.store, e)
    ensures Agrees(Take(x, Happens(e)))
  {
    EventKeepsWellFormed(x.store, e);
    if x.view.ledger > 0 {
      EventKeepsTracks(x.store, e, x.view.offers, x.view.pools, x.view.ledger);
    }
    match e
    case CompactOffers(cutoff) => CompactKeepsLive(x.store.offers, cutoff);
    case CompactPools(cutoff) => CompactKeepsLive(x.store.pools, cutoff);
    case _ =>
  }

  lemma UpdateAgrees(x: Run, r: Reads)
    requires Agrees(x) && Answers(r, x.store, x.view.ledger)
    ensures Agrees(Take(x, Updates(r)))
  {
    var y := Refresh(x.view, x.store, r);
    if !y.failed && !x.store.stateInvalid && Consistent(x.store) {
      RefreshIsReload(x.view, x.store, r);
      LiveDerives(x.store.offers, x.store.offerCompaction, x.store.lastIngested);
      LiveDerives(x.store.pools, x.store.poolCompaction, x.store.lastIngested);
    }
  }

  /** Without an error-free reload of a valid, consistent store, an alarming status leaves the stream without ledger. */
  lemma MeetingAgrees(x: Run, s: Store, r: Reads)
    requires CanStep(x, Meets(s, r))
    ensures Agrees(Take(x, Meets(s, r)))
  {
    var y := Refresh(x.view, s, r);
    if !y.failed && !s.stateInvalid && Consistent(s) {
      RefreshIsReload(x.view, s, r);
      LiveDerives(s.offers, s.offerCompaction, s.lastIngested);
      LiveDerives(s.pools, s.poolCompaction, s.lastIngested);
    }
  }

  /** Across any number of ledgers, compactions, updates and errors, the stream agrees with the ledger it reports. */
  lemma {:induction false} StreamAlwaysAgrees(x: Run, steps: seq<Step>)
    requires Agrees(x) && CanStepAll(x, steps)
    ensures Agrees(TakeAll(x, steps))
    decreases |steps|
  {
    if steps != [] {
      match steps[0] {
        case Happens(e) => EventAgrees(x, e);
        case Updates(r) => UpdateAgrees(x, r);
        case Meets(s, r) => MeetingAgrees(x, s, r);
        case Forgets =>
      }
      StreamAlwaysAgrees(Take(x, steps[0]), steps[1..]);
    }
  }

  /**
   * After any run, whatever failed in it, one update without a failing call on a valid, consistent store publishes the
   * live offers and pools of the last ingested ledger.
   */
  lemma StreamRecovers(x: Run, steps: seq<Step>, r: Reads)
    requires Agrees(x) && CanStepAll(x, steps)
    requires var y := TakeAll(x, steps);
             && CanStep(y, Updates(r)) && !y.store.stateInvalid && Consistent(y.store)
             && !PathFails(y.view, y.store, r)
    ensures var y := TakeAll(x, steps); IsReload(Take(y, Updates(r)).view, y.store)
  {
    StreamAlwaysAgrees(x, steps);
    var y := TakeAll(x, steps);
    FaultlessUpdateReloads(y.view, y.store, r);
  }
}
