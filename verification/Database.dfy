/** The shared Horizon database as ingestion sees it, and a session with one open transaction. */
module Database {
  import opened Network

  /** CurrentVersion in internal/ingest/main.go. */
  const CURRENT_VERSION: int := 20

  /** The load test cells of the key value store: both set or both absent. */
  datatype LoadTest = LoadTest(runId: string, restoreLedger: nat)

  /** `history` holds the sequences of history_ledgers in insertion order; nothing forbids duplicates. */
  datatype Db = Db(
    lastIngested: nat,
    version: int,
    history: seq<nat>,
    tables: Tables,
    stateInvalid: bool,
    loadTest: Option<LoadTest>)

  /** checkPendingLoadTest returns no error for a node whose own run id is `runId`. */
  predicate LoadTestAllows(d: Db, runId: string) {
    match d.loadTest
    case None => runId == ""
    case Some(t) => t.runId == runId
  }

  /**
   * A session on the database. Ingestion takes the row lock on the last ingested ledger right after Begin, so no
   * other lock holder commits between a node's Begin and its Commit or Rollback.
   */
  class HistoryQ {
    var committed: Db
    var tx: Option<Db>

    constructor (d: Db)
      ensures committed == d && tx == None
    {
      committed, tx := d, None;
    }

    method Begin()
      requires tx.None?
      modifies this
      ensures tx == Some(committed) && committed == old(committed)
    {
      tx := Some(committed);
    }

    method Commit()
      requires tx.Some?
      modifies this
      ensures committed == old(tx).value && tx == None
    {
      committed, tx := tx.value, None;
    }

    method Rollback()
      modifies this
      ensures committed == old(committed) && tx == None
    {
      tx := None;
    }

    method UpdateLastLedgerIngest(ledger: nat)
      requires tx.Some?
      modifies this
      ensures committed == old(committed) && tx == Some(old(tx).value.(lastIngested := ledger))
    {
      tx := Some(tx.value.(lastIngested := ledger));
    }

    method UpdateExpStateInvalid(invalid: bool)
      requires tx.Some?
      modifies this
      ensures committed == old(committed) && tx == Some(old(tx).value.(stateInvalid := invalid))
    {
      tx := Some(tx.value.(stateInvalid := invalid));
    }

    method UpdateIngestVersion(version: int)
      requires tx.Some?
      modifies this
      ensures committed == old(committed) && tx == Some(old(tx).value.(version := version))
    {
      tx := Some(tx.value.(version := version));
    }

    method TruncateIngestStateTables()
      requires tx.Some?
      modifies this
      ensures committed == old(committed) && tx == Some(old(tx).value.(tables := map[]))
    {
      tx := Some(tx.value.(tables := map[]));
    }

    /** The change processors fed with every entry of a history archive snapshot: each row is upserted. */
    method IngestArchive(archive: Tables)
      requires tx.Some?
      modifies this
      ensures committed == old(committed) && tx == Some(old(tx).value.(tables := old(tx).value.tables + archive))
    {
      tx := Some(tx.value.(tables := tx.value.tables + archive));
    }

    /** The change processors fed with the changes of one closed ledger. */
    method IngestChanges(changes: Changes)
      requires tx.Some?
      modifies this
      ensures committed == old(committed)
      ensures tx == Some(old(tx).value.(tables := ApplyChanges(old(tx).value.tables, changes)))
    {
      tx := Some(tx.value.(tables := ApplyChanges(tx.value.tables, changes)));
    }

    /** The transaction processors fed with a batch of ledgers: one history_ledgers row each. */
    method InsertLedgers(ledgers: seq<nat>)
      requires tx.Some?
      modifies this
      ensures committed == old(committed)
      ensures tx == Some(old(tx).value.(history := old(tx).value.history + ledgers))
    {
      tx := Some(tx.value.(history := tx.value.history + ledgers));
    }

    method DeleteLedgers(lo: nat, hi: nat)
      requires tx.Some?
      modifies this
      ensures committed == old(committed)
      ensures tx == Some(old(tx).value.(history := Without(old(tx).value.history, lo, hi)))
    {
      tx := Some(tx.value.(history := Without(tx.value.history, lo, hi)));
    }

    method SetLoadTest(t: Option<LoadTest>)
      requires tx.Some?
      modifies this
      ensures committed == old(committed) && tx == Some(old(tx).value.(loadTest := t))
    {
      tx := Some(tx.value.(loadTest := t));
    }
  }
}
