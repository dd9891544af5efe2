/**
 * Any number of Horizon processes on one database. A run is any sequence of actions: processes start, run their
 * current node (with any error), load tests are saved and restored, the reaper deletes and the verifier marks.
 */
module Cluster {
  import opened Network
  import opened Database
  import opened Ingestion

  /** `checking`: a load test that has saved its snapshot and not yet looked at the database. */
  datatype Worker = Worker(node: Node, runId: string, flush: nat, checking: bool)

  /** `used` collects every load test run id handed out so far. */
  datatype Cluster = Cluster(db: Db, workers: map<nat, Worker>, used: set<string>)

  datatype Action =
    | Joins(joinId: nat, node: Node, flush: nat)
    | Runs(id: nat, env: Env, fault: Option<Node>)
    | Saves(saver: nat, newId: string)
    | Checks(checker: nat)
    | Restores
    | Reaps(below: nat)
    | MarksInvalid

  /** A process enters the machine at `start` (Run) or at a build that stops afterwards (BuildState). */
  predicate Entry(n: Node) {
    n == Start(0) || (n.Build? && n.stop)
  }

  /**
   * What a node reads from outside the database: the archive holds the true state of its checkpoints, and a node
   * outside a load test reads the true ledgers. The backend of a load test serves any ledgers at all.
   */
  ghost predicate Truthful(net: Chain, w: Worker, env: Env) {
    && (w.node.Build? ==> env.archive == Spec(net, w.node.checkpoint))
    && (w.node.Resume? && w.runId == "" ==> env.changes == net.closed(w.node.latestProcessed + 1))
  }

  ghost predicate Enabled(net: Chain, c: Cluster, a: Action) {
    match a
    case Joins(_, node, _) => Entry(node)
    case Runs(id, env, fault) =>
      && id in c.workers && !c.workers[id].node.Stop?
      && Truthful(net, c.workers[id], env)
      && (fault.Some? ==> FaultTarget(c.workers[id].node, fault.value))
    case Saves(saver, newId) =>
      saver in c.workers && c.workers[saver].runId == "" && c.db.loadTest.None? && newId != "" && newId !in c.used
    case Checks(checker) => checker in c.workers && c.workers[checker].checking
    case Restores => true
    case Reaps(below) => below <= Latest(c.db.history)
    case MarksInvalid => true
  }

  function Ran(d: Db, w: Worker, env: Env, fault: Option<Node>): Outcome {
    Attempted(d, w.runId, w.flush, w.node, env, fault)
  }

  function Exec(c: Cluster, a: Action): Cluster {
    match a
    case Joins(id, node, flush) => c.(workers := c.workers[id := Worker(node, "", flush, false)])
    case Runs(id, env, fault) =>
      if id !in c.workers then c
      else
        var o := Ran(c.db, c.workers[id], env, fault);
        c.(db := o.db, workers := c.workers[id := c.workers[id].(node := o.next)])
    case Saves(saver, newId) =>
      if saver !in c.workers then c
      else
        var owner := c.workers[saver].(node := Stop, runId := newId, checking := true);
        Cluster(SaveOutcome(c.db, newId), c.workers[saver := owner], c.used + {newId})
    case Checks(checker) =>
      // LoadTest starts the machine if the database is valid by now and returns otherwise.
      if checker !in c.workers then c
      else
        var node := if StateOf(c.db) == Valid then Start(0) else Stop;
        c.(workers := c.workers[checker := c.workers[checker].(node := node, checking := false)])
    case Restores => c.(db := RestoreOutcome(c.db))
    case Reaps(below) => if below == 0 then c else c.(db := c.db.(history := Without(c.db.history, 0, below - 1)))
    case MarksInvalid => c.(db := c.db.(stateInvalid := true))
  }

  function Play(c: Cluster, acts: seq<Action>): Cluster
    decreases |acts|
  {
    if acts == [] then c else Play(Exec(c, acts[0]), acts[1..])
  }

  ghost predicate Possible(net: Chain, c: Cluster, acts: seq<Action>)
    decreases |acts|
  {
    acts != [] ==> Enabled(net, c, acts[0]) && Possible(net, Exec(c, acts[0]), acts[1..])
  }

  // ---------------------------------------------------------------------------------------------------------------
  // The state tables hold the true state.

  /** A database that claims to be current at ledger n > 0 holds the true state of ledger n. */
  ghost predicate StateMatches(net: Chain, d: Db) {
    d.version == CURRENT_VERSION && d.lastIngested > 0 ==> d.tables == Spec(net, d.lastIngested)
  }

  /** While a load test is pending, the database either is still where it was saved or is past it (or was reset). */
  ghost predicate PendingIsSafe(net: Chain, d: Db)
    requires d.loadTest.Some?
  {
    var saved := d.loadTest.value.restoreLedger;
    && d.loadTest.value.runId != ""
    && (d.lastIngested == 0 || d.lastIngested >= saved)
    && (d.lastIngested == saved ==> StateMatches(net, d))
    && (saved == 0 ==> d.lastIngested == 0)
    && (d.lastIngested == 0 && saved > 0 ==> Latest(d.history) > saved)
  }

  /** The process that owns the pending load test never rebuilds at or below the ledger it must restore to. */
  ghost predicate OwnerIsAhead(d: Db, w: Worker) {
    d.loadTest.Some? && w.runId == d.loadTest.value.runId && !w.node.Stop? ==>
      && d.version == CURRENT_VERSION
      && d.loadTest.value.restoreLedger > 0
      && (w.node.Build? ==> w.node.checkpoint > d.loadTest.value.restoreLedger)
      && (w.node.Start? ==> w.node.suggestedCheckpoint == 0)
  }

  ghost predicate Inv(net: Chain, c: Cluster) {
    && DbInv(net, c.db)
    && (forall id :: id in c.workers ==> OwnerIsAhead(c.db, c.workers[id]))
    && (forall id :: id in c.workers ==> c.workers[id].runId == "" || c.workers[id].runId in c.used)
  }

  ghost predicate DbInv(net: Chain, d: Db) {
    if d.loadTest.None? then StateMatches(net, d) else PendingIsSafe(net, d)
  }

  lemma StartKeepsInv(net: Chain, d: Db, w: Worker, env: Env)
    requires DbInv(net, d) && OwnerIsAhead(d, w) && w.node.Start?
    ensures var o := StartOutcome(d, w.runId, w.node.suggestedCheckpoint, env);
      && DbInv(net, o.db) && o.db.loadTest == d.loadTest && OwnerIsAhead(o.db, w.(node := o.next))
      && o.db.version == d.version
  {
  }

  lemma BuildKeepsInv(net: Chain, d: Db, w: Worker, env: Env)
    requires DbInv(net, d) && OwnerIsAhead(d, w) && w.node.Build? && env.archive == Spec(net, w.node.checkpoint)
    ensures var o := BuildOutcome(d, w.runId, w.node.checkpoint, w.node.stop, env);
      && DbInv(net, o.db) && o.db.loadTest == d.loadTest && OwnerIsAhead(o.db, w.(node := o.next))
      && (o.db.version == d.version || o.db.version == CURRENT_VERSION)
  {
  }

  lemma ResumeKeepsInv(net: Chain, d: Db, w: Worker, env: Env)
    requires DbInv(net, d) && OwnerIsAhead(d, w) && w.node.Resume?
    requires w.runId == "" ==> env.changes == net.closed(w.node.latestProcessed + 1)
    ensures var o := ResumeOutcome(d, w.runId, w.node.latestProcessed, env);
      && DbInv(net, o.db) && o.db.loadTest == d.loadTest && OwnerIsAhead(o.db, w.(node := o.next))
      && o.db.version == d.version
  {
  }

  lemma RangeKeepsInv(net: Chain, d: Db, w: Worker, env: Env)
    requires DbInv(net, d) && OwnerIsAhead(d, w) && w.node.HistoryRange?
    ensures var o := HistoryRangeOutcome(d, w.node.fromLedger, w.node.toLedger, w.flush, env);
      && DbInv(net, o.db) && o.db.loadTest == d.loadTest && OwnerIsAhead(o.db, w.(node := o.next))
      && o.db.version == d.version
  {
    var o := HistoryRangeOutcome(d, w.node.fromLedger, w.node.toLedger, w.flush, env);
    if o.db != d {
      LatestAppend(
        d.history,
        Interval(w.node.fromLedger, FlushedEnd(w.node.fromLedger, w.node.toLedger, w.flush, env.backendFailsAt)));
    }
  }

  /** One node's run keeps the invariant of the database and of its own worker. */
  lemma RunKeepsInv(net: Chain, d: Db, w: Worker, env: Env)
    requires DbInv(net, d) && OwnerIsAhead(d, w) && Truthful(net, w, env) && !w.node.Stop?
    ensures var o := RunOutcome(d, w.runId, w.flush, w.node, env);
      && DbInv(net, o.db) && o.db.loadTest == d.loadTest && OwnerIsAhead(o.db, w.(node := o.next))
      && (o.db.version == d.version || o.db.version == CURRENT_VERSION)
  {
    match w.node
    case Start(_) => StartKeepsInv(net, d, w, env);
    case Build(_, _, _) => BuildKeepsInv(net, d, w, env);
    case Resume(_) => ResumeKeepsInv(net, d, w, env);
    case HistoryRange(_, _) => RangeKeepsInv(net, d, w, env);
    case WaitForCheckpoint =>
  }

  lemma RunStepKeepsInv(net: Chain, c: Cluster, id: nat, env: Env, fault: Option<Node>)
    requires Inv(net, c) && Enabled(net, c, Runs(id, env, fault))
    ensures Inv(net, Exec(c, Runs(id, env, fault)))
  {
    if fault.None? {
      RunKeepsInv(net, c.db, c.workers[id], env);
    }
  }

  lemma SaveKeepsInv(net: Chain, c: Cluster, saver: nat, newId: string)
    requires Inv(net, c) && Enabled(net, c, Saves(saver, newId))
    ensures Inv(net, Exec(c, Saves(saver, newId)))
  {
    var c' := Exec(c, Saves(saver, newId));
    assert DbInv(net, c'.db);
    forall id | id in c'.workers ensures OwnerIsAhead(c'.db, c'.workers[id]) {
      if id != saver {
        assert c'.workers[id] == c.workers[id] && c.workers[id].runId != newId;
      }
    }
  }

  lemma CheckKeepsInv(net: Chain, c: Cluster, checker: nat)
    requires Inv(net, c) && Enabled(net, c, Checks(checker))
    ensures Inv(net, Exec(c, Checks(checker)))
  {
  }

  lemma RestoreKeepsInv(net: Chain, c: Cluster)
    requires Inv(net, c)
    ensures Inv(net, Exec(c, Restores))
  {
    var c' := Exec(c, Restores);
    if c'.db != c.db {
      assert c'.db.loadTest.None?;
    }
  }

  /** Actions that only touch history below its latest ledger or the invalid flag. */
  lemma MaintenanceKeepsInv(net: Chain, c: Cluster, h: seq<nat>, invalid: bool)
    requires Inv(net, c) && Latest(h) == Latest(c.db.history)
    ensures Inv(net, c.(db := c.db.(history := h, stateInvalid := invalid)))
  {
  }

  lemma JoinKeepsInv(net: Chain, c: Cluster, id: nat, node: Node, flush: nat)
    requires Inv(net, c) && Entry(node)
    ensures Inv(net, Exec(c, Joins(id, node, flush)))
  {
  }

  lemma StepKeepsInv(net: Chain, c: Cluster, a: Action)
    requires Inv(net, c) && Enabled(net, c, a)
    ensures Inv(net, Exec(c, a))
  {
    match a
    case Joins(id, node, flush) => JoinKeepsInv(net, c, id, node, flush);
    case Runs(id, env, fault) => RunStepKeepsInv(net, c, id, env, fault);
    case Saves(saver, newId) => SaveKeepsInv(net, c, saver, newId);
    case Checks(checker) => CheckKeepsInv(net, c, checker);
    case Restores => RestoreKeepsInv(net, c);
    case Reaps(below) =>
      if below != 0 {
        ReapKeepsLatest(c.db.history, below);
        MaintenanceKeepsInv(net, c, Without(c.db.history, 0, below - 1), c.db.stateInvalid);
      }
    case MarksInvalid => MaintenanceKeepsInv(net, c, c.db.history, true);
  }

  lemma ReapKeepsLatest(h: seq<nat>, below: nat)
    requires 0 < below <= Latest(h)
    ensures Latest(Without(h, 0, below - 1)) == Latest(h)
  {
    var r := Without(h, 0, below - 1);
    WithoutContains(h, 0, below - 1, Latest(h));
    WithoutContains(h, 0, below - 1, Latest(r));
  }

  /**
   * In every run, whatever errors occur and however processes interleave, a database without a pending load test
   * that claims to be current at ledger n > 0 holds exactly the true state of ledger n.
   */
  lemma {:induction false} StateAlwaysMatches(net: Chain, c: Cluster, acts: seq<Action>)
    requires Inv(net, c) && Possible(net, c, acts)
    ensures Inv(net, Play(c, acts))
    ensures Play(c, acts).db.loadTest.None? ==> StateMatches(net, Play(c, acts).db)
    decreases |acts|
  {
    if acts != [] {
      StepKeepsInv(net, c, acts[0]);
      StateAlwaysMatches(net, Exec(c, acts[0]), acts[1..]);
    }
  }

  /** Any consistent database with freshly started processes is such a starting point. */
  lemma FreshClusterIsSound(net: Chain, c: Cluster)
    requires c.db.loadTest.None? && StateMatches(net, c.db)
    requires forall id :: id in c.workers ==> Entry(c.workers[id].node) && c.workers[id].runId == ""
    ensures Inv(net, c)
  {
  }

  /** A resume that commits extends the ledger it read under the lock by exactly one, from its true state. */
  lemma ResumeIsExact(net: Chain, c: Cluster, a: Action)
    requires Inv(net, c) && Enabled(net, c, a) && c.db.loadTest.None?
    requires a.Runs? && c.workers[a.id].node.Resume? && Exec(c, a).db != c.db
    ensures c.db.lastIngested > 0 && c.db.lastIngested == c.workers[a.id].node.latestProcessed
    ensures c.db.tables == Spec(net, c.db.lastIngested)
    ensures Exec(c, a).db.lastIngested == c.db.lastIngested + 1
    ensures Exec(c, a).db.tables == Spec(net, c.db.lastIngested + 1)
    ensures Exec(c, a).db.history == c.db.history + [c.db.lastIngested + 1]
  {
    StepKeepsInv(net, c, a);
  }

  // ---------------------------------------------------------------------------------------------------------------
  // History.

  ghost predicate Positive(h: seq<nat>) {
    forall i :: 0 <= i < |h| ==> h[i] > 0
  }

  /** `h'` is `h`, or `h` continued with the ledgers right after its latest one up to `hi` (from anywhere if empty). */
  ghost predicate Continues(h: seq<nat>, h': seq<nat>, hi: nat) {
    || h' == h
    || (h != [] && Latest(h) < hi && h' == h + Interval(Latest(h) + 1, hi))
    || (h == [] && exists lo: nat :: 0 < lo <= hi && h' == Interval(lo, hi))
  }

  lemma PushContinues(h: seq<nat>, l: nat)
    requires Latest(h) == 0 || Latest(h) == l
    requires Positive(h)
    ensures Continues(h, h + [l + 1], l + 2)
  {
    assert [l + 1] == Interval(l + 1, l + 2);
    if h == [] {
      assert h + [l + 1] == Interval(l + 1, l + 2);
    } else {
      assert Latest(h) in h;
    }
  }

  lemma RangeContinues(h: seq<nat>, lo: nat, hi: nat)
    requires 0 < lo <= hi && Latest(h) == lo - 1
    ensures Continues(h, Extended(h, lo, hi), hi)
  {
    if h == [] {
      assert Extended(h, lo, hi) == Interval(lo, hi);
    }
  }

  /** What a run may add to history: nothing, or the ledgers right after the latest one. */
  lemma RunExtendsHistory(d: Db, w: Worker, env: Env) returns (hi: nat)
    requires Positive(d.history)
    ensures Continues(d.history, RunOutcome(d, w.runId, w.flush, w.node, env).db.history, hi)
  {
    hi := match w.node
      case Resume(l) => l + 2
      case HistoryRange(lo, to) =>
        if lo <= to && w.flush >= 1 then FlushedEnd(lo, to, w.flush, env.backendFailsAt) else 0
      case _ => 0;
    match w.node
    case Resume(l) => ResumeContinues(d, w.runId, l, env);
    case HistoryRange(lo, to) =>
      if lo <= to && w.flush >= 1 {
        HistoryRangeContinues(d, lo, to, w.flush, env);
      }
    case _ =>
  }

  lemma ResumeContinues(d: Db, runId: string, l: nat, env: Env)
    requires Positive(d.history)
    ensures Continues(d.history, ResumeOutcome(d, runId, l, env).db.history, l + 2)
  {
    if ResumeOutcome(d, runId, l, env).db.history != d.history {
      PushContinues(d.history, l);
    }
  }

  lemma HistoryRangeContinues(d: Db, lo: nat, to: nat, flush: nat, env: Env)
    requires Positive(d.history) && lo <= to && flush >= 1
    ensures Continues(
      d.history, HistoryRangeOutcome(d, lo, to, flush, env).db.history, FlushedEnd(lo, to, flush, env.backendFailsAt))
  {
    if HistoryRangeOutcome(d, lo, to, flush, env).db.history != d.history {
      RangeContinues(d.history, lo, FlushedEnd(lo, to, flush, env.backendFailsAt));
    }
  }

  lemma ContinuedKeepsShape(h: seq<nat>, h': seq<nat>, hi: nat)
    requires Positive(h) && Distinct(h) && Continues(h, h', hi)
    ensures Positive(h') && Distinct(h') && (GapFree(h) ==> GapFree(h'))
  {
    if h' != h {
      if h == [] {
        var lo: nat :| 0 < lo <= hi && h' == Interval(lo, hi);
        IntervalIsGapFree(lo, hi);
      } else {
        ExtendKeepsShape(h, hi);
      }
    }
  }

  lemma RunKeepsHistory(d: Db, w: Worker, env: Env)
    requires Positive(d.history) && Distinct(d.history)
    ensures var h := RunOutcome(d, w.runId, w.flush, w.node, env).db.history;
      && Positive(h) && Distinct(h)
      && (GapFree(d.history) ==> GapFree(h))
  {
    var hi := RunExtendsHistory(d, w, env);
    ContinuedKeepsShape(d.history, RunOutcome(d, w.runId, w.flush, w.node, env).db.history, hi);
  }

  lemma IntervalIsGapFree(lo: nat, hi: nat)
    requires lo <= hi
    ensures GapFree(Interval(lo, hi))
  {
    forall x: nat, y: nat, z: nat | x in Interval(lo, hi) && z in Interval(lo, hi) && x < y < z
      ensures y in Interval(lo, hi)
    {
      IntervalContains(lo, hi, x);
      IntervalContains(lo, hi, y);
      IntervalContains(lo, hi, z);
    }
  }

  lemma WithoutKeepsPositive(h: seq<nat>, lo: nat, hi: nat)
    requires Positive(h)
    ensures Positive(Without(h, lo, hi))
  {
    var r := Without(h, lo, hi);
    forall i | 0 <= i < |r| ensures r[i] > 0 {
      WithoutContains(h, lo, hi, r[i]);
    }
  }

  lemma CutKeepsHistory(h: seq<nat>, lo: nat, hi: nat)
    requires Positive(h) && Distinct(h)
    ensures Positive(Without(h, lo, hi)) && Distinct(Without(h, lo, hi))
  {
    WithoutDistinct(h, lo, hi);
    WithoutKeepsPositive(h, lo, hi);
  }

  lemma RestoreKeepsHistory(d: Db)
    requires Positive(d.history) && Distinct(d.history)
    ensures var h := RestoreOutcome(d).history; Positive(h) && Distinct(h) && (d.loadTest.None? ==> h == d.history)
  {
    if d.loadTest.Some? {
      CutKeepsHistory(d.history, d.loadTest.value.restoreLedger + 1, d.lastIngested);
    }
  }

  lemma ReapKeepsGapFree(h: seq<nat>, below: nat)
    requires GapFree(h) && below > 0
    ensures GapFree(Without(h, 0, below - 1))
  {
    var r := Without(h, 0, below - 1);
    forall x: nat, y: nat, z: nat | x in r && z in r && x < y < z ensures y in r {
      WithoutContains(h, 0, below - 1, x);
      WithoutContains(h, 0, below - 1, y);
      WithoutContains(h, 0, below - 1, z);
    }
  }

  ghost predicate NoLoadTest(acts: seq<Action>) {
    forall i :: 0 <= i < |acts| ==> !acts[i].Saves?
  }

  lemma StepKeepsHistory(net: Chain, c: Cluster, a: Action)
    requires Enabled(net, c, a) && Positive(c.db.history) && Distinct(c.db.history)
    ensures Positive(Exec(c, a).db.history) && Distinct(Exec(c, a).db.history)
    ensures c.db.loadTest.None? && GapFree(c.db.history) ==> GapFree(Exec(c, a).db.history)
    ensures c.db.loadTest.None? && !a.Saves? ==> Exec(c, a).db.loadTest.None?
  {
    match a
    case Runs(id, env, fault) =>
      if fault.None? {
        RunKeepsHistory(c.db, c.workers[id], env);
      }
    case Restores =>
      RestoreKeepsHistory(c.db);
    case Reaps(below) =>
      if below != 0 {
        CutKeepsHistory(c.db.history, 0, below - 1);
        if GapFree(c.db.history) { ReapKeepsGapFree(c.db.history, below); }
      }
    case _ =>
  }

  /**
   * In every run no history ledger is ever inserted while already present, and, as long as no load test is started,
   * a history without gaps stays without gaps.
   */
  lemma {:induction false} HistoryKeepsShape(net: Chain, c: Cluster, acts: seq<Action>)
    requires Possible(net, c, acts) && Positive(c.db.history) && Distinct(c.db.history)
    ensures Positive(Play(c, acts).db.history) && Distinct(Play(c, acts).db.history)
    ensures c.db.loadTest.None? && NoLoadTest(acts) && GapFree(c.db.history) ==> GapFree(Play(c, acts).db.history)
    decreases |acts|
  {
    if acts != [] {
      StepKeepsHistory(net, c, acts[0]);
      HistoryKeepsShape(net, Exec(c, acts[0]), acts[1..]);
    }
  }

  // ---------------------------------------------------------------------------------------------------------------
  // A valid database stays valid.

  /** A historyRange that commits and leaves history ending elsewhere than at the last ingested ledger. */
  predicate Overruns(c: Cluster, a: Action) {
    && a.Runs? && a.id in c.workers && c.workers[a.id].node.HistoryRange? && Exec(c, a).db != c.db
    && Latest(Exec(c, a).db.history) != c.db.lastIngested
  }

  lemma ResumeKeepsValid(d: Db, runId: string, l: nat, env: Env)
    requires StateOf(d) == Valid
    ensures var d' := ResumeOutcome(d, runId, l, env).db; StateOf(d') == Valid && d'.lastIngested >= d.lastIngested
  {
    if ResumeOutcome(d, runId, l, env).db != d {
      LatestPush(d.history, l + 1);
    }
  }

  lemma RangeKeepsValid(d: Db, lo: nat, hi: nat, flush: nat, env: Env)
    requires StateOf(d) == Valid
    ensures var d' := HistoryRangeOutcome(d, lo, hi, flush, env).db;
      && d'.lastIngested == d.lastIngested && d'.version == d.version
      && (d' != d ==> Latest(d'.history) > 0)
      && (StateOf(d') == Valid <==> d' == d || Latest(d'.history) == d.lastIngested)
  {
    var d' := HistoryRangeOutcome(d, lo, hi, flush, env).db;
    if d' != d {
      var e := FlushedEnd(lo, hi, flush, env.backendFailsAt);
      assert e > lo by {
        if e == lo {
          ExtendedByNone(d.history, lo);
        }
      }
      LatestAppend(d.history, Interval(lo, e));
      LatestInterval(lo, e);
    }
  }

  /**
   * Without load tests, a step on a valid database leaves it valid exactly when it is no historyRange that overruns the
   * last ingested ledger, and never moves that ledger backwards.
   */
  lemma StepKeepsValid(net: Chain, c: Cluster, a: Action)
    requires Enabled(net, c, a) && c.db.loadTest.None? && !a.Saves? && StateOf(c.db) == Valid
    ensures StateOf(Exec(c, a).db) == Valid <==> !Overruns(c, a)
    ensures Exec(c, a).db.lastIngested >= c.db.lastIngested && Exec(c, a).db.loadTest.None?
  {
    match a
    case Runs(id, env, fault) =>
      RunKeepsValid(c.db, c.workers[id], env, fault);
    case Reaps(below) =>
      if below != 0 {
        ReapKeepsLatest(c.db.history, below);
      }
    case _ =>
  }

  /** One run on a valid database: only a historyRange can invalidate it, by leaving history elsewhere. */
  lemma RunKeepsValid(d: Db, w: Worker, env: Env, fault: Option<Node>)
    requires StateOf(d) == Valid && d.loadTest.None?
    ensures var d' := Ran(d, w, env, fault).db;
      && d'.lastIngested >= d.lastIngested && d'.loadTest.None?
      && (StateOf(d') == Valid <==> !(w.node.HistoryRange? && d' != d && Latest(d'.history) != d.lastIngested))
  {
    if fault.None? {
      match w.node
      case Start(suggested) => assert StartOutcome(d, w.runId, suggested, env).db == d;
      case Build(checkpoint, _, stop) => assert BuildOutcome(d, w.runId, checkpoint, stop, env).db == d;
      case Resume(l) => ResumeKeepsValid(d, w.runId, l, env);
      case HistoryRange(lo, hi) => RangeKeepsValid(d, lo, hi, w.flush, env);
      case _ =>
    }
  }

  ghost predicate NeverOverruns(c: Cluster, acts: seq<Action>)
    decreases |acts|
  {
    acts != [] ==> !Overruns(c, acts[0]) && NeverOverruns(Exec(c, acts[0]), acts[1..])
  }

  /** In every such run a valid database stays valid, and its last ingested ledger never decreases. */
  lemma {:induction false} ValidStaysValid(net: Chain, c: Cluster, acts: seq<Action>)
    requires Possible(net, c, acts) && NoLoadTest(acts) && c.db.loadTest.None? && StateOf(c.db) == Valid
    requires NeverOverruns(c, acts)
    ensures StateOf(Play(c, acts).db) == Valid && Play(c, acts).db.lastIngested >= c.db.lastIngested
    decreases |acts|
  {
    if acts != [] {
      StepKeepsValid(net, c, acts[0]);
      ValidStaysValid(net, Exec(c, acts[0]), acts[1..]);
    }
  }

  lemma PlayFirst(net: Chain, c: Cluster, a: Action, c': Cluster, rest: seq<Action>)
    requires c' == Exec(c, a)
    ensures Play(c, [a] + rest) == Play(c', rest)
    ensures Possible(net, c, [a] + rest) <==> Enabled(net, c, a) && Possible(net, c', rest)
  {
    assert ([a] + rest)[1..] == rest;
  }

  /** The cluster in which process 1 is at `n1` and process 2 at `n2`. */
  function Pair(d: Db, flush: nat, n1: Node, n2: Node): Cluster {
    Cluster(d, map[1 := Worker(n1, "", flush, false), 2 := Worker(n2, "", flush, false)], {})
  }

  function RunsAlone(id: nat, checkpoint: nat, archive: Tables): Action {
    Runs(id, Env(checkpoint, archive, map[], None), None)
  }

  /** A database whose history is the one ledger `l`, before and after a build there. */
  function Before(l: nat): Db {
    Db(0, CURRENT_VERSION, [l], map[], false, None)
  }

  function Built(net: Chain, l: nat): Db {
    Db(l, CURRENT_VERSION, [l], Spec(net, l), false, None)
  }

  function Overrun(net: Chain, l: nat, cp: nat): Db
    requires l < cp
  {
    Built(net, l).(history := Extended([l], l + 1, cp + 1))
  }

  lemma StartsOfRace(net: Chain, l: nat, cp: nat, flush: nat)
    requires 1 <= l < cp
    ensures var c := Pair(Before(l), flush, Start(0), Start(0));
      Exec(c, RunsAlone(1, cp, map[])) == Pair(Before(l), flush, HistoryRange(l + 1, cp), Start(0))
    ensures var c := Pair(Before(l), flush, HistoryRange(l + 1, cp), Start(0));
      Exec(c, RunsAlone(2, l, map[])) == Pair(Before(l), flush, HistoryRange(l + 1, cp), Build(l, false, false))
  {
    LatestIs([l], 0);
    assert StartOutcome(Before(l), "", 0, Env(cp, map[], map[], None))
      == Outcome(Before(l), HistoryRange(l + 1, cp), false);
    assert StartOutcome(Before(l), "", 0, Env(l, map[], map[], None))
      == Outcome(Before(l), Build(l, false, false), false);
  }

  lemma BuildOfRace(net: Chain, l: nat, flush: nat, n1: Node)
    requires 1 <= l
    ensures Exec(Pair(Before(l), flush, n1, Build(l, false, false)), RunsAlone(2, l, Spec(net, l)))
      == Pair(Built(net, l), flush, n1, Resume(l))
    ensures StateOf(Built(net, l)) == Valid
  {
    LatestIs([l], 0);
    assert BuildOutcome(Before(l), "", l, false, Env(l, Spec(net, l), map[], None))
      == Outcome(Built(net, l), Resume(l), false);
  }

  lemma OverrunLatest(net: Chain, l: nat, cp: nat)
    requires 1 <= l < cp
    ensures Latest(Overrun(net, l, cp).history) == cp && StateOf(Overrun(net, l, cp)) == Inconsistent
  {
    LatestIs([l], 0);
    LatestAppend([l], Interval(l + 1, cp + 1));
    LatestInterval(l + 1, cp + 1);
  }

  lemma RangeOfRace(net: Chain, l: nat, cp: nat, flush: nat, n2: Node)
    requires 1 <= l < cp && flush >= 1
    ensures Exec(Pair(Built(net, l), flush, HistoryRange(l + 1, cp), n2), RunsAlone(1, cp, map[]))
      == Pair(Overrun(net, l, cp), flush, Start(0), n2)
  {
    LatestIs([l], 0);
    assert HistoryRangeOutcome(Built(net, l), l + 1, cp, flush, Env(cp, map[], map[], None))
      == Outcome(Overrun(net, l, cp), Start(0), false);
  }

  lemma ResetOfRace(d: Db, cp: nat, flush: nat, n2: Node)
    requires d.loadTest.None? && StateOf(d) == Inconsistent && Latest(d.history) > d.lastIngested
    requires d.version == CURRENT_VERSION
    ensures Exec(Pair(d, flush, Start(0), n2), RunsAlone(1, cp, map[])).db.lastIngested == 0
  {
  }

  /**
   * An overrun happens: history ends at `l`, one process saw checkpoint `cp` and is about to catch up to it, another
   * saw checkpoint `l` and builds there. The late catch-up makes the database just built inconsistent, and the next
   * start resets its last ingested ledger to 0.
   */
  lemma LateRangeOverruns(net: Chain, l: nat, cp: nat, flush: nat)
    requires 1 <= l < cp && flush >= 1
    ensures var c := Pair(Before(l), flush, Start(0), Start(0));
      var acts := [RunsAlone(1, cp, map[]), RunsAlone(2, l, map[]), RunsAlone(2, l, Spec(net, l))];
      var built, late := Play(c, acts), RunsAlone(1, cp, map[]);
      && Inv(net, c) && Possible(net, c, acts)
      && StateOf(built.db) == Valid && built.db.lastIngested == l
      && Enabled(net, built, late) && Overruns(built, late)
      && StateOf(Exec(built, late).db) == Inconsistent
      && Enabled(net, Exec(built, late), late) && Exec(Exec(built, late), late).db.lastIngested == 0
  {
    var a0, a1, a2 := RunsAlone(1, cp, map[]), RunsAlone(2, l, map[]), RunsAlone(2, l, Spec(net, l));
    var c := Pair(Before(l), flush, Start(0), Start(0));
    var c1 := Pair(Before(l), flush, HistoryRange(l + 1, cp), Start(0));
    var c2 := Pair(Before(l), flush, HistoryRange(l + 1, cp), Build(l, false, false));
    var c3 := Pair(Built(net, l), flush, HistoryRange(l + 1, cp), Resume(l));
    StartsOfRace(net, l, cp, flush);
    BuildOfRace(net, l, flush, HistoryRange(l + 1, cp));
    OverrunLatest(net, l, cp);
    RangeOfRace(net, l, cp, flush, Resume(l));
    ResetOfRace(Overrun(net, l, cp), cp, flush, Resume(l));
    RaceStarts(net, l, flush);
    RacePlays(net, c, c1, c2, c3, a0, a1, a2);
  }

  lemma RaceStarts(net: Chain, l: nat, flush: nat)
    ensures Inv(net, Pair(Before(l), flush, Start(0), Start(0)))
  {
  }

  lemma RacePlays(net: Chain, c: Cluster, c1: Cluster, c2: Cluster, c3: Cluster, a0: Action, a1: Action, a2: Action)
    requires Exec(c, a0) == c1 && Exec(c1, a1) == c2 && Exec(c2, a2) == c3
    ensures Play(c, [a0, a1, a2]) == c3
    ensures Possible(net, c, [a0, a1, a2]) <==> Enabled(net, c, a0) && Enabled(net, c1, a1) && Enabled(net, c2, a2)
  {
    PlayFirst(net, c, a0, c1, [a1, a2]);
    PlayFirst(net, c1, a1, c2, [a2]);
    PlayFirst(net, c2, a2, c3, []);
    assert [a0] + [a1, a2] == [a0, a1, a2] && [a1] + [a2] == [a1, a2] && [a2] + [] == [a2];
  }

  // ---------------------------------------------------------------------------------------------------------------
  // Progress of a process among others.

  /**
   * In a cluster on a valid database without load test: a run of a process that is behind only moves it to the last
   * ingested ledger, and a run of a process that is there commits the next one. So a process overtaken by others
   * commits within two runs once the others pause.
   */
  lemma ResumeFollows(c: Cluster, id: nat, env: Env)
    requires id in c.workers && c.workers[id].node.Resume? && c.workers[id].runId == ""
    requires c.db.loadTest.None? && StateOf(c.db) == Valid
    requires 0 < c.workers[id].node.latestProcessed <= c.db.lastIngested
    ensures var n, after := c.db.lastIngested, Exec(c, Runs(id, env, None));
      && after.workers[id].node == Resume(after.db.lastIngested) && StateOf(after.db) == Valid
      && after.db.lastIngested == (if c.workers[id].node.latestProcessed < n then n else n + 1)
      && (after.db.lastIngested == n ==> after.db == c.db)
  {
    ResumeKeepsValid(c.db, "", c.workers[id].node.latestProcessed, env);
  }

  /** Only a verifier that finds fault marks the state invalid, and only a build that commits clears the mark. */
  lemma InvalidUntilRebuild(net: Chain, c: Cluster, a: Action)
    requires Enabled(net, c, a)
    ensures !c.db.stateInvalid && Exec(c, a).db.stateInvalid ==> a.MarksInvalid?
    ensures a.MarksInvalid? ==> Exec(c, a).db == c.db.(stateInvalid := true)
    ensures c.db.stateInvalid ==>
      (!Exec(c, a).db.stateInvalid <==> a.Runs? && c.workers[a.id].node.Build? && Exec(c, a).db != c.db)
  {
  }
}
