/** The nodes of the ingestion state machine: each `Run...` method is one state's `run`, inside one transaction. */
module Ingestion {
  import opened Network
  import opened Database
  import Arith

  datatype Node =
    | Start(suggestedCheckpoint: nat)
    | Build(checkpoint: nat, skipChecks: bool, stop: bool)
    | Resume(latestProcessed: nat)
    | HistoryRange(fromLedger: nat, toLedger: nat)
    | WaitForCheckpoint
    | Stop

  datatype DbState = Empty | Valid | NeedsRebuild | Inconsistent

  function EvaluateDbState(lastIngested: nat, version: int, lastHistory: nat): (s: DbState)
    ensures s == Valid <==>
      lastIngested > 0 && version == CURRENT_VERSION && (lastHistory == 0 || lastHistory == lastIngested)
    ensures s == Empty <==> lastIngested == 0
    ensures s == NeedsRebuild <==> lastIngested > 0 && version != CURRENT_VERSION
    ensures s == Inconsistent <==>
      lastIngested > 0 && version == CURRENT_VERSION && lastHistory > 0 && lastHistory != lastIngested
  {
    if lastIngested == 0 then Empty
    else if version != CURRENT_VERSION then NeedsRebuild
    else if lastHistory != 0 && lastHistory != lastIngested then Inconsistent
    else Valid
  }

  function StateOf(d: Db): DbState {
    EvaluateDbState(d.lastIngested, d.version, Latest(d.history))
  }

  /** The calls of a `run` that can return an error. */
  datatype Call =
    | CallPrepareRange | CallGetLedger | CallBegin | CallGetLastLedger | CallGetLoadTest | CallGetVersion
    | CallGetLatestHistory | CallGetCheckpoint | CallUpdateLastLedger | CallUpdateStateInvalid | CallTruncate
    | CallProcess | CallUpdateVersion | CallTradeAggregations | CallDeleteRange | CallCommit

  /**
   * What the environment contributes to one `run`: the archive's latest checkpoint, its snapshot at the checkpoint
   * being built, the changes of the ledger being resumed, and the first ledger the backend fails on.
   */
  datatype Env = Env(latestCheckpoint: nat, archive: Tables, changes: Changes, backendFailsAt: Option<nat>)

  datatype Outcome = Outcome(db: Db, next: Node, failed: bool)

  function StartOutcome(d: Db, runId: string, suggested: nat, env: Env): Outcome {
    var latest := Latest(d.history);
    var checkpoint := if suggested != 0 then suggested else env.latestCheckpoint;
    if !LoadTestAllows(d, runId) then Outcome(d, Start(0), true)
    else if d.version > CURRENT_VERSION then Outcome(d, Stop, false)
    else match StateOf(d)
      case Empty => Outcome(d, RebuildFrom(latest, checkpoint), false)
      case NeedsRebuild => Outcome(d, RebuildFrom(latest, checkpoint), false)
      case Inconsistent =>
        if latest > d.lastIngested then Outcome(d.(lastIngested := 0), Start(0), false)
        else Outcome(d, HistoryRange(latest + 1, d.lastIngested), false)
      case Valid => Outcome(d, Resume(d.lastIngested), false)
  }

  function RebuildFrom(latest: nat, checkpoint: nat): Node {
    if latest != 0 && latest > checkpoint then WaitForCheckpoint
    else if latest != 0 && latest < checkpoint then HistoryRange(latest + 1, checkpoint)
    else Build(checkpoint, false, false)
  }

  function FailState(stop: bool): Node {
    if stop then Stop else Start(0)
  }

  function BuildOutcome(d: Db, runId: string, checkpoint: nat, stop: bool, env: Env): Outcome {
    if checkpoint == 0 || !LoadTestAllows(d, runId) then Outcome(d, FailState(stop), true)
    else if d.version == CURRENT_VERSION && d.lastIngested > 0 then Outcome(d, FailState(stop), false)
    else
      Outcome(
        d.(lastIngested := checkpoint, stateInvalid := false, tables := env.archive, version := CURRENT_VERSION),
        if stop then Stop else Resume(checkpoint),
        false)
  }

  function ResumeOutcome(d: Db, runId: string, latest: nat, env: Env): Outcome {
    if latest == 0 || latest > d.lastIngested then Outcome(d, Start(0), true)
    else if latest < d.lastIngested then Outcome(d, Resume(d.lastIngested), false)
    else if !LoadTestAllows(d, runId) then Outcome(d, Resume(latest), true)
    else if d.version != CURRENT_VERSION then Outcome(d, Start(0), false)
    else if Latest(d.history) != 0 && Latest(d.history) != d.lastIngested then Outcome(d, Start(0), false)
    else
      Outcome(
        d.(tables := ApplyChanges(d.tables, env.changes), history := d.history + [latest + 1],
           lastIngested := latest + 1),
        Resume(latest + 1),
        false)
  }

  /** One past the last ledger of [lo, hi] that full flushes of `flush` ledgers have stored when the backend fails. */
  function FlushedEnd(lo: nat, hi: nat, flush: nat, failsAt: Option<nat>): (e: nat)
    requires lo <= hi && flush >= 1
    ensures lo <= e <= hi + 1
    // Without a failure everything is stored; else all full flushes before it, which is all but less than one flush.
    ensures !(failsAt.Some? && lo <= failsAt.value <= hi) ==> e == hi + 1
    ensures failsAt.Some? && lo <= failsAt.value <= hi ==> e <= failsAt.value < e + flush && (e - lo) % flush == 0
  {
    assert failsAt.Some? && lo <= failsAt.value ==>
      Arith.Truncated(failsAt.value - lo, flush) % flush == 0 by {
      if failsAt.Some? && lo <= failsAt.value {
        Arith.TruncatedIsMultiple(failsAt.value - lo, flush);
      }
    }
    if failsAt.Some? && lo <= failsAt.value <= hi
    then failsAt.value - (failsAt.value - lo) % flush
    else hi + 1
  }

  function HistoryRangeOutcome(d: Db, lo: nat, hi: nat, flush: nat, env: Env): Outcome {
    if lo == 0 || hi == 0 || lo > hi || flush < 1 then Outcome(d, Start(0), true)
    else if Latest(d.history) != lo - 1 then Outcome(d, Start(0), false)
    else
      var failed := env.backendFailsAt.Some? && lo <= env.backendFailsAt.value <= hi;
      Outcome(
        d.(history := Extended(d.history, lo, FlushedEnd(lo, hi, flush, env.backendFailsAt))), Start(0), failed)
  }

  function RunOutcome(d: Db, runId: string, flush: nat, cur: Node, env: Env): Outcome {
    match cur
    case Start(suggested) => StartOutcome(d, runId, suggested, env)
    case Build(checkpoint, _, stop) => BuildOutcome(d, runId, checkpoint, stop, env)
    case Resume(latest) => ResumeOutcome(d, runId, latest, env)
    case HistoryRange(lo, hi) => HistoryRangeOutcome(d, lo, hi, flush, env)
    case WaitForCheckpoint => Outcome(d, Start(0), false)
    case Stop => Outcome(d, Stop, true)
  }

  /** The outcome of a `run` in which a call fails, after which the node continues at `fault`, or none does. */
  function Attempted(d: Db, runId: string, flush: nat, cur: Node, env: Env, fault: Option<Node>): Outcome {
    if fault.Some? then Outcome(d, fault.value, true) else RunOutcome(d, runId, flush, cur, env)
  }

  /** The calls a node makes before it commits: none of them may have failed when it does. */
  function CallsBeforeCommit(cur: Node): set<Call> {
    match cur
    case Start(_) =>
      {CallBegin, CallGetLastLedger, CallGetLoadTest, CallGetVersion, CallGetLatestHistory, CallUpdateLastLedger,
       CallCommit}
    case Build(_, skipChecks, _) =>
      (if skipChecks then {} else {CallPrepareRange, CallGetLedger})
      + {CallBegin, CallGetLastLedger, CallGetLoadTest, CallGetVersion, CallUpdateLastLedger, CallUpdateStateInvalid,
         CallTruncate, CallProcess, CallUpdateVersion, CallCommit}
    case Resume(_) =>
      {CallPrepareRange, CallGetLedger, CallBegin, CallGetLastLedger, CallGetLoadTest, CallGetVersion,
       CallGetLatestHistory, CallProcess, CallTradeAggregations, CallUpdateLastLedger, CallCommit}
    case HistoryRange(_, _) =>
      {CallPrepareRange, CallBegin, CallGetLastLedger, CallGetLatestHistory, CallProcess, CallCommit}
    case _ => {}
  }

  /** Where a node may continue after a `run` that hit an error and rolled back. */
  predicate FaultTarget(cur: Node, next: Node) {
    match cur
    case Build(_, _, stop) => next == FailState(stop)
    case Resume(_) => next == Start(0) || next == cur
    case _ => next == Start(0)
  }

  /** Only a process that meets a newer version, or was told to build and stop, leaves the state machine. */
  lemma StopsExactly(d: Db, runId: string, flush: nat, cur: Node, env: Env)
    requires !cur.Stop?
    ensures RunOutcome(d, runId, flush, cur, env).next.Stop? <==>
      (cur.Start? && LoadTestAllows(d, runId) && d.version > CURRENT_VERSION) || (cur.Build? && cur.stop)
  {
  }

  /** The run cannot do its work: it is refused by a load test, malformed, ahead of the database, or out of ledgers. */
  predicate Refused(d: Db, runId: string, flush: nat, cur: Node, env: Env) {
    match cur
    case Start(_) => !LoadTestAllows(d, runId)
    case Build(checkpoint, _, _) => checkpoint == 0 || !LoadTestAllows(d, runId)
    case Resume(l) => !(0 < l <= d.lastIngested) || (l == d.lastIngested && !LoadTestAllows(d, runId))
    case HistoryRange(lo, hi) =>
      || !(0 < lo <= hi) || flush < 1
      || (Latest(d.history) + 1 == lo && env.backendFailsAt.Some? && lo <= env.backendFailsAt.value <= hi)
    case WaitForCheckpoint => false
    case Stop => true
  }

  /** A run reports an error exactly when it is refused, and then only a historyRange may have committed anything. */
  lemma FailsExactly(d: Db, runId: string, flush: nat, cur: Node, env: Env)
    ensures var o := RunOutcome(d, runId, flush, cur, env);
      (o.failed <==> Refused(d, runId, flush, cur, env)) && (o.failed && !cur.HistoryRange? ==> o.db == d)
  {
  }

  /** A process that starts on a database of a newer version leaves it alone and stops. */
  lemma NewerVersionIsLeftAlone(d: Db, runId: string, suggested: nat, env: Env)
    requires d.version > CURRENT_VERSION
    ensures var o := StartOutcome(d, runId, suggested, env);
      o.db == d && (LoadTestAllows(d, runId) ==> o.next == Stop) && (!LoadTestAllows(d, runId) ==> o.next == Start(0))
  {
  }

  /** History `h` with the ledgers [lo, hi) appended. */
  function Extended(h: seq<nat>, lo: nat, hi: nat): seq<nat>
    requires lo <= hi
  {
    h + Interval(lo, hi)
  }

  lemma ExtendedTwice(h: seq<nat>, lo: nat, mid: nat, hi: nat)
    requires lo <= mid <= hi
    ensures Extended(h, lo, mid) + Interval(mid, hi) == Extended(h, lo, hi)
  {
    assert Interval(lo, mid) + Interval(mid, hi) == Interval(lo, hi);
  }

  lemma ExtendedPush(h: seq<nat>, lo: nat, hi: nat)
    requires lo <= hi
    ensures Extended(h, lo, hi) + [hi] == Extended(h, lo, hi + 1)
  {
    assert Interval(lo, hi) + [hi] == Interval(lo, hi + 1);
  }

  lemma ExtendedByNone(h: seq<nat>, lo: nat)
    ensures Extended(h, lo, lo) == h
  {
    assert Interval(lo, lo) == [];
  }

  /** Of the ledgers [lo, cur) the first `flushed` are stored in `tx`, which began as `d`, and the rest are buffered. */
  ghost predicate Buffered(d: Db, tx: Db, ledgers: seq<nat>, lo: nat, cur: nat, flushed: nat) {
    && cur == lo + flushed + |ledgers| && ledgers == Interval(lo + flushed, cur)
    && tx == d.(history := Extended(d.history, lo, lo + flushed))
  }

  lemma NothingBuffered(d: Db, lo: nat)
    ensures Buffered(d, d, [], lo, lo, 0)
  {
    ExtendedByNone(d.history, lo);
  }

  lemma BufferOne(d: Db, tx: Db, ledgers: seq<nat>, lo: nat, cur: nat, flushed: nat)
    requires Buffered(d, tx, ledgers, lo, cur, flushed)
    ensures Buffered(d, tx, ledgers + [cur], lo, cur + 1, flushed)
  {
    IntervalPush(lo + flushed, cur);
  }

  lemma FlushBuffer(d: Db, tx: Db, ledgers: seq<nat>, lo: nat, cur: nat, flushed: nat)
    requires Buffered(d, tx, ledgers, lo, cur, flushed)
    ensures Buffered(d, tx.(history := tx.history + ledgers), [], lo, cur, flushed + |ledgers|)
  {
    ExtendedTwice(d.history, lo, lo + flushed, cur);
  }

  /** The `system` a Horizon process runs the state machine on. */
  class System {
    const historyQ: HistoryQ
    const maxLedgerPerFlush: nat
    var runId: string

    constructor (q: HistoryQ, flush: nat)
      ensures historyQ == q && maxLedgerPerFlush == flush && runId == ""
    {
      historyQ, maxLedgerPerFlush, runId := q, flush, "";
    }

    method RunStart(suggested: nat, env: Env, faults: set<Call>) returns (next: Node, failed: bool)
      requires historyQ.tx.None?
      modifies historyQ
      ensures historyQ.tx.None?
      ensures faults == {} ==>
        Outcome(historyQ.committed, next, failed) == StartOutcome(old(historyQ.committed), runId, suggested, env)
      ensures
        || Outcome(historyQ.committed, next, failed) == StartOutcome(old(historyQ.committed), runId, suggested, env)
        || (historyQ.committed == old(historyQ.committed) && next == Start(0) && failed)
      ensures historyQ.committed != old(historyQ.committed) ==> faults !! CallsBeforeCommit(Start(suggested))
    {
      if CallBegin in faults { return Start(0), true; }
      historyQ.Begin();
      if CallGetLastLedger in faults || CallGetLoadTest in faults {
        historyQ.Rollback();
        return Start(0), true;
      }
      var lastIngested := historyQ.tx.value.lastIngested;
      if !LoadTestAllows(historyQ.tx.value, runId) || CallGetVersion in faults {
        historyQ.Rollback();
        return Start(0), true;
      }
      if historyQ.tx.value.version > CURRENT_VERSION {
        historyQ.Rollback();
        return Stop, false;
      }
      if CallGetLatestHistory in faults {
        historyQ.Rollback();
        return Start(0), true;
      }
      var lastHistory := Latest(historyQ.tx.value.history);
      var state := EvaluateDbState(lastIngested, historyQ.tx.value.version, lastHistory);
      match state {
        case Valid =>
          historyQ.Rollback();
          return Resume(lastIngested), false;
        case Inconsistent =>
          if lastHistory > lastIngested {
            historyQ.UpdateLastLedgerIngest(0);
            if CallUpdateLastLedger in faults || CallCommit in faults {
              historyQ.Rollback();
              return Start(0), true;
            }
            historyQ.Commit();
            return Start(0), false;
          }
          historyQ.Rollback();
          return HistoryRange(lastHistory + 1, lastIngested), false;
        case _ =>
          historyQ.Rollback();
          if suggested == 0 && CallGetCheckpoint in faults { return Start(0), true; }
          return RebuildFrom(lastHistory, if suggested != 0 then suggested else env.latestCheckpoint), false;
      }
    }

    method RunBuild(checkpoint: nat, skipChecks: bool, stop: bool, env: Env, faults: set<Call>)
      returns (next: Node, failed: bool)
      requires historyQ.tx.None?
      modifies historyQ
      ensures historyQ.tx.None?
      ensures faults == {} ==>
        Outcome(historyQ.committed, next, failed) == BuildOutcome(old(historyQ.committed), runId, checkpoint, stop, env)
      ensures
        || Outcome(historyQ.committed, next, failed)
             == BuildOutcome(old(historyQ.committed), runId, checkpoint, stop, env)
        || (historyQ.committed == old(historyQ.committed) && next == FailState(stop) && failed)
      ensures historyQ.committed != old(historyQ.committed) ==>
        faults !! CallsBeforeCommit(Build(checkpoint, skipChecks, stop))
    {
      var fail := FailState(stop);
      if checkpoint == 0 { return fail, true; }
      if !skipChecks && (CallPrepareRange in faults || CallGetLedger in faults) { return fail, true; }
      if CallBegin in faults { return fail, true; }
      historyQ.Begin();
      if CallGetLastLedger in faults || CallGetLoadTest in faults || !LoadTestAllows(historyQ.tx.value, runId)
         || CallGetVersion in faults {
        historyQ.Rollback();
        return fail, true;
      }
      if historyQ.tx.value.version == CURRENT_VERSION && historyQ.tx.value.lastIngested > 0 {
        historyQ.Rollback();
        return fail, false;
      }
      historyQ.UpdateLastLedgerIngest(0);
      historyQ.UpdateExpStateInvalid(false);
      historyQ.TruncateIngestStateTables();
      if CallUpdateLastLedger in faults || CallUpdateStateInvalid in faults || CallTruncate in faults
         || CallProcess in faults || CallUpdateVersion in faults {
        historyQ.Rollback();
        return fail, true;
      }
      historyQ.IngestArchive(env.archive);
      historyQ.UpdateIngestVersion(CURRENT_VERSION);
      var ok := CompleteIngestion(checkpoint, faults);
      if !ok { return fail, true; }
      assert map[] + env.archive == env.archive;
      return if stop then Stop else Resume(checkpoint), false;
    }

    method CompleteIngestion(ledger: nat, faults: set<Call>) returns (ok: bool)
      requires historyQ.tx.Some?
      modifies historyQ
      ensures historyQ.tx.None?
      ensures ok <==> ledger != 0 && CallUpdateLastLedger !in faults && CallCommit !in faults
      ensures ok ==> historyQ.committed == old(historyQ.tx).value.(lastIngested := ledger)
      ensures !ok ==> historyQ.committed == old(historyQ.committed)
    {
      if ledger == 0 || CallUpdateLastLedger in faults || CallCommit in faults {
        historyQ.Rollback();
        return false;
      }
      historyQ.UpdateLastLedgerIngest(ledger);
      historyQ.Commit();
      return true;
    }

    method RunResume(latest: nat, env: Env, faults: set<Call>) returns (next: Node, failed: bool)
      requires historyQ.tx.None?
      modifies historyQ
      ensures historyQ.tx.None?
      ensures faults == {} ==>
        Outcome(historyQ.committed, next, failed) == ResumeOutcome(old(historyQ.committed), runId, latest, env)
      ensures
        || Outcome(historyQ.committed, next, failed) == ResumeOutcome(old(historyQ.committed), runId, latest, env)
        || (historyQ.committed == old(historyQ.committed) && FaultTarget(Resume(latest), next) && failed)
      ensures historyQ.committed != old(historyQ.committed) ==> faults !! CallsBeforeCommit(Resume(latest))
    {
      if latest == 0 { return Start(0), true; }
      var ingestLedger := latest + 1;
      if CallPrepareRange in faults || CallGetLedger in faults { return Start(0), true; }
      if CallBegin in faults { return Resume(latest), true; }
      historyQ.Begin();
      if CallGetLastLedger in faults {
        historyQ.Rollback();
        return Resume(latest), true;
      }
      var lastIngested := historyQ.tx.value.lastIngested;
      if ingestLedger > lastIngested + 1 {
        historyQ.Rollback();
        return Start(0), true;
      } else if ingestLedger <= lastIngested {
        historyQ.Rollback();
        return Resume(lastIngested), false;
      }
      if CallGetLoadTest in faults || !LoadTestAllows(historyQ.tx.value, runId) || CallGetVersion in faults {
        historyQ.Rollback();
        return Resume(latest), true;
      }
      if historyQ.tx.value.version != CURRENT_VERSION {
        historyQ.Rollback();
        return Start(0), false;
      }
      if CallGetLatestHistory in faults {
        historyQ.Rollback();
        return Resume(latest), true;
      }
      var lastHistory := Latest(historyQ.tx.value.history);
      if lastHistory != 0 && lastHistory != lastIngested {
        historyQ.Rollback();
        return Start(0), false;
      }
      if CallProcess in faults || CallTradeAggregations in faults {
        historyQ.Rollback();
        return Resume(latest), true;
      }
      historyQ.IngestChanges(env.changes);
      historyQ.InsertLedgers([ingestLedger]);
      var ok := CompleteIngestion(ingestLedger, faults);
      if !ok { return Resume(latest), true; }
      return Resume(ingestLedger), false;
    }

    method RunHistoryRange(lo: nat, hi: nat, env: Env, faults: set<Call>) returns (next: Node, failed: bool)
      requires historyQ.tx.None?
      modifies historyQ
      ensures historyQ.tx.None?
      ensures faults == {} ==>
        Outcome(historyQ.committed, next, failed)
          == HistoryRangeOutcome(old(historyQ.committed), lo, hi, maxLedgerPerFlush, env)
      ensures
        || Outcome(historyQ.committed, next, failed)
             == HistoryRangeOutcome(old(historyQ.committed), lo, hi, maxLedgerPerFlush, env)
        || (historyQ.committed == old(historyQ.committed) && next == Start(0) && failed)
      ensures historyQ.committed != old(historyQ.committed) ==> faults !! CallsBeforeCommit(HistoryRange(lo, hi))
    {
      if lo == 0 || hi == 0 || lo > hi || maxLedgerPerFlush < 1 || CallPrepareRange in faults || CallBegin in faults {
        return Start(0), true;
      }
      historyQ.Begin();
      if CallGetLastLedger in faults || CallGetLatestHistory in faults {
        historyQ.Rollback();
        return Start(0), true;
      }
      if Latest(historyQ.tx.value.history) != lo - 1 {
        historyQ.Rollback();
        return Start(0), false;
      }
      var fetched, processed := FlushRange(lo, hi, env, faults);
      if !processed {
        historyQ.Rollback();
        return Start(0), true;
      }
      if CallCommit in faults {
        historyQ.Rollback();
        return Start(0), true;
      }
      historyQ.Commit();
      return Start(0), !fetched;
    }

    /**
     * The loop of historyRangeState.run: fetch each ledger and flush full buffers. When the backend fails the
     * buffered ledgers are dropped and the flushed ones stay in the transaction, for the caller to commit.
     */
    method FlushRange(lo: nat, hi: nat, env: Env, faults: set<Call>) returns (fetched: bool, processed: bool)
      requires lo <= hi && maxLedgerPerFlush >= 1 && historyQ.tx.Some?
      modifies historyQ
      ensures historyQ.committed == old(historyQ.committed) && historyQ.tx.Some?
      ensures CallProcess !in faults ==> processed
      ensures CallProcess in faults && processed ==> historyQ.tx == old(historyQ.tx)
      ensures processed ==>
        && historyQ.tx.value == old(historyQ.tx).value.(history :=
             Extended(old(historyQ.tx).value.history, lo, FlushedEnd(lo, hi, maxLedgerPerFlush, env.backendFailsAt)))
        && (fetched <==> !(env.backendFailsAt.Some? && lo <= env.backendFailsAt.value <= hi))
    {
      var ledgers: seq<nat> := [];
      var cur := lo;
      ghost var d := historyQ.tx.value;
      ghost var flushed: nat := 0;
      NothingBuffered(d, lo);
      while cur <= hi
        invariant lo <= cur <= hi + 1
        invariant historyQ.committed == old(historyQ.committed) && historyQ.tx.Some?
        invariant |ledgers| < maxLedgerPerFlush && Arith.Multiple(flushed, maxLedgerPerFlush)
        invariant CallProcess in faults ==> historyQ.tx == old(historyQ.tx)
        invariant Buffered(d, historyQ.tx.value, ledgers, lo, cur, flushed)
        invariant env.backendFailsAt.Some? && lo <= env.backendFailsAt.value <= hi ==> cur <= env.backendFailsAt.value
      {
        if env.backendFailsAt == Some(cur) {
          ghost var q := Arith.MultipleLeaves(flushed, maxLedgerPerFlush, |ledgers|);
          return false, true;
        }
        BufferOne(d, historyQ.tx.value, ledgers, lo, cur, flushed);
        ledgers := ledgers + [cur];
        if |ledgers| == maxLedgerPerFlush {
          if CallProcess in faults {
            return true, false;
          }
          FlushBuffer(d, historyQ.tx.value, ledgers, lo, cur + 1, flushed);
          historyQ.InsertLedgers(ledgers);
          flushed := flushed + maxLedgerPerFlush;
          ledgers := [];
        }
        cur := cur + 1;
      }
      if |ledgers| > 0 {
        if CallProcess in faults {
          return true, false;
        }
        FlushBuffer(d, historyQ.tx.value, ledgers, lo, cur, flushed);
        historyQ.InsertLedgers(ledgers);
      }
      return true, true;
    }

    /** One iteration of runStateMachine: run the current node in its own transaction. */
    method Step(cur: Node, env: Env, faults: set<Call>) returns (next: Node, failed: bool, ghost fault: Option<Node>)
      requires historyQ.tx.None?
      modifies historyQ
      ensures historyQ.tx.None?
      // What a step does is one of the attempts that cluster runs are made of.
      ensures fault.Some? ==> faults != {} && FaultTarget(cur, fault.value)
      ensures Outcome(historyQ.committed, next, failed)
        == Attempted(old(historyQ.committed), runId, maxLedgerPerFlush, cur, env, fault)
      ensures historyQ.committed != old(historyQ.committed) ==> faults !! CallsBeforeCommit(cur)
      ensures faults == {} ==>
        Outcome(historyQ.committed, next, failed)
          == RunOutcome(old(historyQ.committed), runId, maxLedgerPerFlush, cur, env)
      ensures
        || Outcome(historyQ.committed, next, failed)
             == RunOutcome(old(historyQ.committed), runId, maxLedgerPerFlush, cur, env)
        || (historyQ.committed == old(historyQ.committed) && FaultTarget(cur, next) && failed)
    {
      match cur {
        case Start(suggested) => next, failed := RunStart(suggested, env, faults);
        case Build(checkpoint, skip, stop) => next, failed := RunBuild(checkpoint, skip, stop, env, faults);
        case Resume(latest) => next, failed := RunResume(latest, env, faults);
        case HistoryRange(lo, hi) => next, failed := RunHistoryRange(lo, hi, env, faults);
        case WaitForCheckpoint => next, failed := Start(0), false;
        case Stop => next, failed := Stop, true;
      }
      ghost var o := RunOutcome(old(historyQ.committed), runId, maxLedgerPerFlush, cur, env);
      fault := if Outcome(historyQ.committed, next, failed) == o then None else Some(next);
    }

    /** loadTestSnapshot.save; `newId` stands for the random run id. */
    method Save(newId: string, faults: set<Call>) returns (ok: bool)
      requires historyQ.tx.None?
      requires newId != ""
      modifies historyQ, this`runId
      ensures historyQ.tx.None?
      ensures ok ==> historyQ.committed == SaveOutcome(old(historyQ.committed), newId) && runId == newId
      ensures ok ==> old(runId) == "" && old(historyQ.committed).loadTest.None?
      ensures !ok ==> historyQ.committed == old(historyQ.committed) && runId == old(runId)
      ensures faults == {} && old(runId) == "" && old(historyQ.committed).loadTest.None? ==> ok
      ensures ok ==> faults !! {CallBegin, CallGetLastLedger, CallGetLoadTest, CallCommit}
    {
      if CallBegin in faults { return false; }
      historyQ.Begin();
      if runId != "" || CallGetLastLedger in faults || CallGetLoadTest in faults
         || historyQ.tx.value.loadTest.Some? || CallCommit in faults {
        historyQ.Rollback();
        return false;
      }
      historyQ.SetLoadTest(Some(LoadTest(newId, historyQ.tx.value.lastIngested)));
      historyQ.Commit();
      runId := newId;
      return true;
    }
  }

  function SaveOutcome(d: Db, newId: string): Db {
    d.(loadTest := Some(LoadTest(newId, d.lastIngested)))
  }

  function RestoreOutcome(d: Db): Db {
    if d.loadTest.None? || d.loadTest.value.restoreLedger > d.lastIngested then d
    else if d.loadTest.value.restoreLedger == d.lastIngested then d.(loadTest := None)
    else
      var kept := Without(d.history, d.loadTest.value.restoreLedger + 1, d.lastIngested);
      d.(history := kept, version := 0, loadTest := None)
  }

  /** The pending snapshot was taken at a later ledger than the database is at. */
  predicate AheadOfDatabase(d: Db) {
    d.loadTest.Some? && d.loadTest.value.restoreLedger > d.lastIngested
  }

  /** restoreSnapshot. */
  method RestoreSnapshot(q: HistoryQ, faults: set<Call>) returns (ok: bool)
    requires q.tx.None?
    modifies q
    ensures q.tx.None?
    ensures q.committed == RestoreOutcome(old(q.committed)) || (q.committed == old(q.committed) && !ok)
    ensures q.committed != old(q.committed) ==> faults !! {CallBegin, CallGetLastLedger, CallGetLoadTest, CallCommit}
    // Success leaves no load test pending; a snapshot ahead of the database is refused and stays pending.
    ensures ok ==> q.committed.loadTest.None?
    ensures AheadOfDatabase(old(q.committed)) ==> !ok && q.committed == old(q.committed)
    ensures faults == {} ==> q.committed == RestoreOutcome(old(q.committed))
    ensures faults == {} ==>
      (ok <==> old(q.committed).loadTest.Some? ==>
        old(q.committed).loadTest.value.restoreLedger <= old(q.committed).lastIngested)
  {
    if CallBegin in faults { return false; }
    q.Begin();
    if CallGetLastLedger in faults || CallGetLoadTest in faults {
      q.Rollback();
      return false;
    }
    var lastIngested := q.tx.value.lastIngested;
    if q.tx.value.loadTest.None? {
      q.Rollback();
      return true;
    }
    var restoreLedger := q.tx.value.loadTest.value.restoreLedger;
    if restoreLedger > lastIngested {
      q.Rollback();
      return false;
    }
    if restoreLedger < lastIngested {
      q.DeleteLedgers(restoreLedger + 1, lastIngested);
      q.UpdateIngestVersion(0);
      if CallDeleteRange in faults || CallUpdateVersion in faults {
        q.Rollback();
        return false;
      }
    }
    q.SetLoadTest(None);
    if CallCommit in faults {
      q.Rollback();
      return false;
    }
    q.Commit();
    return true;
  }
}
