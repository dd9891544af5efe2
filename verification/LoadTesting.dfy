/** Load tests: who may change the state while one is pending, and what restoring its snapshot leaves behind. */
module LoadTesting {
  import opened Network
  import opened Database
  import opened Ingestion
  import opened Cluster

  /** The action is a run of start, build or resume: the nodes that call checkPendingLoadTest. */
  predicate Checked(c: Cluster, a: Action) {
    && a.Runs? && a.id in c.workers
    && (c.workers[a.id].node.Start? || c.workers[a.id].node.Build? || c.workers[a.id].node.Resume?)
  }

  predicate ChangesState(c: Cluster, a: Action) {
    var d, d' := c.db, Exec(c, a).db;
    d'.lastIngested != d.lastIngested || d'.tables != d.tables || d'.version != d.version
  }

  lemma CheckedChangeIsAllowed(c: Cluster, a: Action)
    requires Checked(c, a) && ChangesState(c, a)
    ensures LoadTestAllows(c.db, c.workers[a.id].runId)
  {
  }

  /** `runId` was handed out, and only `saver` may hold it. */
  ghost predicate HeldOnlyBy(c: Cluster, runId: string, saver: nat) {
    runId in c.used && runId != "" && forall id :: id in c.workers && c.workers[id].runId == runId ==> id == saver
  }

  lemma StepKeepsHolder(net: Chain, c: Cluster, a: Action, runId: string, saver: nat)
    requires HeldOnlyBy(c, runId, saver) && Enabled(net, c, a)
    ensures HeldOnlyBy(Exec(c, a), runId, saver)
  {
    var c' := Exec(c, a);
    forall id | id in c'.workers && c'.workers[id].runId == runId ensures id == saver {
      assert a.Joins? ==> id != a.joinId;
      assert id in c.workers && c.workers[id].runId == runId;
    }
  }

  lemma {:induction false} RunKeepsHolder(net: Chain, c: Cluster, acts: seq<Action>, runId: string, saver: nat)
    requires HeldOnlyBy(c, runId, saver) && Possible(net, c, acts)
    ensures HeldOnlyBy(Play(c, acts), runId, saver)
    decreases |acts|
  {
    if acts != [] {
      StepKeepsHolder(net, c, acts[0], runId, saver);
      RunKeepsHolder(net, Exec(c, acts[0]), acts[1..], runId, saver);
    }
  }

  /**
   * After `saver` commits a snapshot with run id R, at any later point of any run: while R is pending, a change that
   * start, build or resume commits is by `saver`, which still holds R; and once R is no longer pending, the holder of
   * R can commit no such change any more.
   */
  lemma LoadTestExcludes(net: Chain, c: Cluster, saver: nat, newId: string, acts: seq<Action>, a: Action)
    requires Inv(net, c) && Enabled(net, c, Saves(saver, newId))
    requires Possible(net, Exec(c, Saves(saver, newId)), acts)
    requires var c' := Play(Exec(c, Saves(saver, newId)), acts); Checked(c', a) && ChangesState(c', a)
    ensures var c' := Play(Exec(c, Saves(saver, newId)), acts);
      && (c'.db.loadTest.Some? && c'.db.loadTest.value.runId == newId ==>
            a.id == saver && c'.workers[saver].runId == newId)
      && (c'.db.loadTest.None? || c'.db.loadTest.value.runId != newId ==> c'.workers[a.id].runId != newId)
  {
    var c1 := Exec(c, Saves(saver, newId));
    assert HeldOnlyBy(c1, newId, saver);
    RunKeepsHolder(net, c1, acts, newId, saver);
    CheckedChangeIsAllowed(Play(c1, acts), a);
  }

  // ---------------------------------------------------------------------------------------------------------------
  // Restoring the snapshot.

  /** Every action of the run either leaves the database alone or is a resume of the process holding `runId`. */
  ghost predicate OnlyOwnerResumes(c: Cluster, acts: seq<Action>, runId: string)
    decreases |acts|
  {
    acts != [] ==>
      && (Exec(c, acts[0]).db == c.db
          || (acts[0].Runs? && acts[0].id in c.workers && c.workers[acts[0].id].node.Resume?
              && c.workers[acts[0].id].runId == runId))
      && OnlyOwnerResumes(Exec(c, acts[0]), acts[1..], runId)
  }

  /** History `h` at ledger `n` is `h0` at ledger `n0` continued ledger by ledger. */
  ghost predicate Grown(h0: seq<nat>, n0: nat, h: seq<nat>, n: nat) {
    n > n0 && Latest(h0) <= n0 && h == Extended(h0, n0 + 1, n + 1) && Latest(h) == n
  }

  /** `d` is the snapshot `d0`, or `d0` extended by the ledgers after its last ingested one. */
  ghost predicate Extends(d0: Db, d: Db) {
    && d.loadTest == d0.loadTest
    && (d == d0 || (Grown(d0.history, d0.lastIngested, d.history, d.lastIngested) && d.version == CURRENT_VERSION))
  }

  lemma GrowsFirst(h: seq<nat>, l: nat)
    requires Latest(h) <= l
    ensures Grown(h, l, h + [l + 1], l + 1)
  {
    ExtendedByNone(h, l + 1);
    ExtendedPush(h, l + 1, l + 1);
    LatestPush(h, l + 1);
  }

  lemma GrowsMore(h0: seq<nat>, n0: nat, h: seq<nat>, l: nat)
    requires Grown(h0, n0, h, l) && Latest(h + [l + 1]) == l + 1
    ensures Grown(h0, n0, h + [l + 1], l + 1)
  {
    ExtendedPush(h0, n0 + 1, l + 1);
  }

  lemma ResumeExtends(d0: Db, d: Db, runId: string, l: nat, env: Env)
    requires Extends(d0, d)
    ensures Extends(d0, ResumeOutcome(d, runId, l, env).db)
  {
    var d' := ResumeOutcome(d, runId, l, env).db;
    if d' != d {
      OneMoreExtends(d0, d, d', l);
    }
  }

  lemma OneMoreExtends(d0: Db, d: Db, d': Db, l: nat)
    requires Extends(d0, d) && d.lastIngested == l && Latest(d.history) <= l
    requires d'.loadTest == d.loadTest && d'.lastIngested == l + 1 && d'.version == CURRENT_VERSION
    requires d'.history == d.history + [l + 1]
    ensures Extends(d0, d')
  {
    if d == d0 {
      GrowsFirst(d.history, l);
    } else {
      LatestPush(d.history, l + 1);
      GrowsMore(d0.history, d0.lastIngested, d.history, l);
    }
  }

  lemma RestoreUndoes(h: seq<nat>, lo: nat, hi: nat)
    requires lo <= hi + 1 && Latest(h) < lo
    ensures Without(Extended(h, lo, hi + 1), lo, hi) == h
  {
    WithoutAppend(h, Interval(lo, hi + 1), lo, hi);
    WithoutMisses(h, lo, hi);
    WithoutCovers(Interval(lo, hi + 1), lo, hi);
    assert h + [] == h;
  }

  lemma {:induction false} OwnerExtends(c: Cluster, acts: seq<Action>, runId: string, d0: Db)
    requires OnlyOwnerResumes(c, acts, runId) && Extends(d0, c.db)
    ensures Extends(d0, Play(c, acts).db)
    decreases |acts|
  {
    if acts != [] {
      var a := acts[0];
      if Exec(c, a).db != c.db && a.fault.None? {
        ResumeExtends(d0, c.db, c.workers[a.id].runId, c.workers[a.id].node.latestProcessed, a.env);
      }
      OwnerExtends(Exec(c, a), acts[1..], runId, d0);
    }
  }

  /** Restoring an extension of the snapshot `d0` of a database. */
  lemma RestoreOfExtension(d0: Db, d: Db)
    requires d0.loadTest.Some? && d0.loadTest.value.restoreLedger == d0.lastIngested && Extends(d0, d)
    ensures var r := RestoreOutcome(d);
      r.loadTest.None? && r.history == d0.history && (r == d0.(loadTest := None) || r.version == 0)
  {
    if d != d0 {
      assert RestoreOutcome(d).history == Without(d.history, d0.lastIngested + 1, d.lastIngested);
      GrownIsUndone(d0.history, d0.lastIngested, d.history, d.lastIngested);
    }
  }

  lemma GrownIsUndone(h0: seq<nat>, n0: nat, h: seq<nat>, n: nat)
    requires Grown(h0, n0, h, n)
    ensures Without(h, n0 + 1, n) == h0
  {
    RestoreUndoes(h0, n0 + 1, n);
  }

  /**
   * If only the owner's resume steps commit between save and restore, restoring brings history back to exactly what
   * it was, and either the whole database is as it was or its version is 0, and no resume commits on it.
   */
  lemma SnapshotIsRestored(net: Chain, c: Cluster, saver: nat, newId: string, acts: seq<Action>)
    requires Enabled(net, c, Saves(saver, newId))
    requires OnlyOwnerResumes(Exec(c, Saves(saver, newId)), acts, newId)
    ensures var r := RestoreOutcome(Play(Exec(c, Saves(saver, newId)), acts).db);
      && r.loadTest.None? && r.history == c.db.history
      && (r == c.db || (r.version == 0 && forall runId, l, env :: ResumeOutcome(r, runId, l, env).db == r))
  {
    var c1 := Exec(c, Saves(saver, newId));
    OwnerExtends(c1, acts, newId, c1.db);
    RestoreOfExtension(c1.db, Play(c1, acts).db);
  }

  /** The action is a run of a build that commits. */
  predicate Rebuilds(c: Cluster, a: Action) {
    a.Runs? && a.id in c.workers && c.workers[a.id].node.Build? && Exec(c, a).db != c.db
  }

  ghost predicate NeverRebuilds(c: Cluster, acts: seq<Action>)
    decreases |acts|
  {
    acts != [] ==> !Rebuilds(c, acts[0]) && NeverRebuilds(Exec(c, acts[0]), acts[1..])
  }

  lemma {:induction false} OutdatedUntilRebuild(c: Cluster, acts: seq<Action>)
    requires c.db.version == 0 && NeverRebuilds(c, acts)
    ensures Play(c, acts).db.version == 0
    decreases |acts|
  {
    if acts != [] {
      assert Exec(c, acts[0]).db.version == 0;
      OutdatedUntilRebuild(Exec(c, acts[0]), acts[1..]);
    }
  }

  /**
   * After a restore that undid ledgers, at any later point of any run: until a build has committed, the version is 0
   * and no process commits a resume.
   */
  lemma NoResumeUntilRebuild(
    net: Chain, c: Cluster, saver: nat, newId: string, acts: seq<Action>, later: seq<Action>, a: Action)
    requires Enabled(net, c, Saves(saver, newId))
    requires OnlyOwnerResumes(Exec(c, Saves(saver, newId)), acts, newId)
    requires var restored := Exec(Play(Exec(c, Saves(saver, newId)), acts), Restores);
      restored.db != c.db && NeverRebuilds(restored, later)
    requires var now := Play(Exec(Play(Exec(c, Saves(saver, newId)), acts), Restores), later);
      a.Runs? && a.id in now.workers && now.workers[a.id].node.Resume?
    ensures var now := Play(Exec(Play(Exec(c, Saves(saver, newId)), acts), Restores), later);
      now.db.version == 0 && Exec(now, a).db == now.db
  {
    SnapshotIsRestored(net, c, saver, newId, acts);
    OutdatedUntilRebuild(Exec(Play(Exec(c, Saves(saver, newId)), acts), Restores), later);
  }

  /** The owner of a snapshot of a valid database goes on to ingest whatever its backend serves. */
  lemma OwnerIngests(net: Chain, c: Cluster, saver: nat, newId: string, env: Env, env': Env)
    requires Enabled(net, c, Saves(saver, newId)) && StateOf(c.db) == Valid
    ensures var checked := Exec(Exec(c, Saves(saver, newId)), Checks(saver));
      var ran := Exec(Exec(checked, Runs(saver, env, None)), Runs(saver, env', None));
      && checked.db.loadTest == Some(LoadTest(newId, c.db.lastIngested))
      && ran.db.lastIngested == c.db.lastIngested + 1 && ran.db.tables == ApplyChanges(c.db.tables, env'.changes)
      && ran.workers[saver].node == Resume(ran.db.lastIngested)
  {
    var checked := Exec(Exec(c, Saves(saver, newId)), Checks(saver));
    var started := Exec(checked, Runs(saver, env, None));
    assert checked.workers[saver].node == Start(0) && checked.workers[saver].runId == newId;
    assert started.workers[saver].node == Resume(c.db.lastIngested) && started.db == checked.db;
  }

  /** A snapshot of a database that is not valid is not used: its owner leaves the machine without a run. */
  lemma InvalidIsNotTested(net: Chain, c: Cluster, checker: nat)
    requires Enabled(net, c, Checks(checker)) && StateOf(c.db) != Valid
    ensures Exec(c, Checks(checker)).workers[checker].node == Stop && Exec(c, Checks(checker)).db == c.db
  {
  }

  // ---------------------------------------------------------------------------------------------------------------
  // Fixtures.

  /** LoadTest ingests its fixtures after the save, without moving the last ingested ledger. */
  function LoadFixtures(c: Cluster, fixtures: Changes): Cluster {
    c.(db := c.db.(tables := ApplyChanges(c.db.tables, fixtures)))
  }

  /** Every fixture says what the table says already. */
  predicate Redundant(t: Tables, fixtures: Changes) {
    forall k :: k in fixtures ==>
      if fixtures[k].Some? then k in t && t[k] == fixtures[k].value else k !in t
  }

  lemma RedundantChangesNothing(t: Tables, fixtures: Changes)
    ensures ApplyChanges(t, fixtures) == t <==> Redundant(t, fixtures)
  {
    var t' := ApplyChanges(t, fixtures);
    if t' == t {
      forall k | k in fixtures
        ensures if fixtures[k].Some? then k in t && t[k] == fixtures[k].value else k !in t
      {
        assert k in t' <==> fixtures[k].Some?;
      }
    }
  }

  /**
   * Restoring after fixtures and any resumes of the owner leaves a sound database exactly when some ledger was ingested
   * after the fixtures or every fixture was redundant: without a ledger, the restore does not see that there is
   * anything to undo.
   */
  lemma FixturesEscapeRestore(
    net: Chain, c: Cluster, saver: nat, newId: string, fixtures: Changes, acts: seq<Action>)
    requires Enabled(net, c, Saves(saver, newId)) && StateOf(c.db) == Valid && StateMatches(net, c.db)
    requires OnlyOwnerResumes(LoadFixtures(Exec(c, Saves(saver, newId)), fixtures), acts, newId)
    ensures var d := Play(LoadFixtures(Exec(c, Saves(saver, newId)), fixtures), acts).db;
      && RestoreOutcome(d).loadTest.None? && RestoreOutcome(d).history == c.db.history
      && (StateMatches(net, RestoreOutcome(d)) <==>
            d.lastIngested > c.db.lastIngested || Redundant(c.db.tables, fixtures))
  {
    var c1 := LoadFixtures(Exec(c, Saves(saver, newId)), fixtures);
    OwnerExtends(c1, acts, newId, c1.db);
    RestoreOfExtension(c1.db, Play(c1, acts).db);
    RedundantChangesNothing(c.db.tables, fixtures);
  }

  /** One such fixture: a row of a new key survives the restore, and the database still passes for valid. */
  lemma FixtureSurvivesRestore(net: Chain, c: Cluster, saver: nat, newId: string, key: string, row: string)
    requires Enabled(net, c, Saves(saver, newId)) && StateOf(c.db) == Valid && StateMatches(net, c.db)
    requires key !in c.db.tables
    ensures var r := RestoreOutcome(LoadFixtures(Exec(c, Saves(saver, newId)), map[key := Some(row)]).db);
      StateOf(r) == Valid && !StateMatches(net, r)
  {
    FixturesEscapeRestore(net, c, saver, newId, map[key := Some(row)], []);
  }
}
