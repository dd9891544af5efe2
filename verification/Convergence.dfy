/** A lone process without errors: when, and how fast, the state machine reaches `resume`. */
module Convergence {
  import opened Network
  import opened Database
  import opened Ingestion
  import Cluster

  datatype Lone = Lone(db: Db, node: Node)

  /** What the archive and the backend hand to a node when the latest checkpoint stays `cp`. */
  function TrueEnv(net: Chain, node: Node, cp: nat): Env {
    Env(
      cp,
      if node.Build? then Spec(net, node.checkpoint) else map[],
      if node.Resume? then net.closed(node.latestProcessed + 1) else map[],
      None)
  }

  function Next(net: Chain, flush: nat, cp: nat, s: Lone): Lone {
    var o := RunOutcome(s.db, "", flush, s.node, TrueEnv(net, s.node, cp));
    Lone(o.db, o.next)
  }

  function Iterate(f: Lone -> Lone, s: Lone, k: nat): Lone
    decreases k
  {
    if k == 0 then s else Iterate(f, f(s), k - 1)
  }

  function Steps(net: Chain, flush: nat, cp: nat, s: Lone, k: nat): Lone {
    Iterate(NextOf(net, flush, cp), s, k)
  }

  function NextOf(net: Chain, flush: nat, cp: nat): Lone -> Lone {
    (s: Lone) => Next(net, flush, cp, s)
  }

  lemma StepsUnfold(net: Chain, flush: nat, cp: nat, s: Lone, s1: Lone, k: nat)
    requires k > 0 && s1 == Next(net, flush, cp, s)
    ensures Steps(net, flush, cp, s, k) == Steps(net, flush, cp, s1, k - 1)
  {
  }

  /** History already past the latest checkpoint although the state must be rebuilt: the node can only wait. */
  predicate MustWait(d: Db, cp: nat) {
    StateOf(d) != Valid && Latest(d.history) > cp && !(StateOf(d) == Inconsistent && Latest(d.history) < d.lastIngested)
  }

  /** The number of transitions from `start` to `resume`. */
  function Distance(d: Db, cp: nat): (k: nat)
    ensures 1 <= k <= 5
  {
    var latest := Latest(d.history);
    var rebuild := if latest == 0 || latest == cp then 2 else 4;
    match StateOf(d)
    case Valid => 1
    case Inconsistent => if latest < d.lastIngested then 3 else 1 + rebuild
    case _ => rebuild
  }

  ghost predicate Ready(d: Db, cp: nat) {
    d.loadTest.None? && d.version <= CURRENT_VERSION && cp >= 1
  }

  lemma RangeReaches(h: seq<nat>, hi: nat)
    requires Latest(h) < hi
    ensures Latest(Extended(h, Latest(h) + 1, hi + 1)) == hi
  {
    LatestAppend(h, Interval(Latest(h) + 1, hi + 1));
    LatestInterval(Latest(h) + 1, hi + 1);
  }

  /** The machine resumes on a database that is valid at the ledger it resumes from. */
  ghost predicate Resuming(s: Lone) {
    s.node == Resume(s.db.lastIngested) && StateOf(s.db) == Valid && s.db.loadTest.None?
  }

  /** The transitions of a catch-up: the missing history is ingested and the machine starts again. */
  lemma CatchUp(net: Chain, flush: nat, cp: nat, d: Db, hi: nat)
    requires flush >= 1 && Latest(d.history) < hi
    ensures var d' := d.(history := Extended(d.history, Latest(d.history) + 1, hi + 1));
      && Next(net, flush, cp, Lone(d, HistoryRange(Latest(d.history) + 1, hi))) == Lone(d', Start(0))
      && Latest(d'.history) == hi
  {
    RangeReaches(d.history, hi);
  }

  lemma BuildConverges(net: Chain, flush: nat, cp: nat, d: Db)
    requires Ready(d, cp) && (Latest(d.history) == 0 || Latest(d.history) == cp)
    requires StateOf(d) == Empty || StateOf(d) == NeedsRebuild
    ensures var s := Steps(net, flush, cp, Lone(d, Start(0)), 2);
      Resuming(s) && s.db.tables == Spec(net, s.db.lastIngested)
  {
    var s1 := Next(net, flush, cp, Lone(d, Start(0)));
    assert s1 == Lone(d, Build(cp, false, false));
    var s2 := Next(net, flush, cp, s1);
    assert Resuming(s2);
    assert Steps(net, flush, cp, s1, 1) == Steps(net, flush, cp, s2, 0) == s2;
  }

  /** From a state that needs a rebuild, with history not past the checkpoint. */
  lemma RebuildConverges(net: Chain, flush: nat, cp: nat, d: Db)
    requires Ready(d, cp) && flush >= 1 && Latest(d.history) <= cp
    requires StateOf(d) == Empty || StateOf(d) == NeedsRebuild
    ensures var s := Steps(net, flush, cp, Lone(d, Start(0)), Distance(d, cp));
      Resuming(s) && s.db.tables == Spec(net, s.db.lastIngested)
  {
    var latest := Latest(d.history);
    if latest == 0 || latest == cp {
      BuildConverges(net, flush, cp, d);
    } else {
      var s, s1 := Lone(d, Start(0)), Lone(d, HistoryRange(latest + 1, cp));
      assert Next(net, flush, cp, s) == s1;
      StepsUnfold(net, flush, cp, s, s1, 4);
      var d' := CatchUpToCheckpoint(net, flush, cp, d);
      StepsUnfold(net, flush, cp, s1, Lone(d', Start(0)), 3);
      BuildConverges(net, flush, cp, d');
    }
  }

  /** The catch-up half of a rebuild: history ends at the checkpoint, and the state still needs the rebuild. */
  lemma CatchUpToCheckpoint(net: Chain, flush: nat, cp: nat, d: Db) returns (d': Db)
    requires Ready(d, cp) && flush >= 1 && Latest(d.history) < cp
    ensures Next(net, flush, cp, Lone(d, HistoryRange(Latest(d.history) + 1, cp))) == Lone(d', Start(0))
    ensures Ready(d', cp) && Latest(d'.history) == cp
    ensures StateOf(d) == Empty || StateOf(d) == NeedsRebuild ==> StateOf(d') == StateOf(d)
  {
    d' := d.(history := Extended(d.history, Latest(d.history) + 1, cp + 1));
    CatchUp(net, flush, cp, d, cp);
  }

  lemma CatchUpConverges(net: Chain, flush: nat, cp: nat, d: Db)
    requires Ready(d, cp) && flush >= 1 && StateOf(d) == Inconsistent && Latest(d.history) < d.lastIngested
    ensures var s := Steps(net, flush, cp, Lone(d, Start(0)), 3);
      Resuming(s) && s.db.tables == d.tables && s.db.lastIngested == d.lastIngested
  {
    var s1 := Next(net, flush, cp, Lone(d, Start(0)));
    assert s1 == Lone(d, HistoryRange(Latest(d.history) + 1, d.lastIngested));
    CatchUp(net, flush, cp, d, d.lastIngested);
    var s2 := Next(net, flush, cp, s1);
    var s3 := Next(net, flush, cp, s2);
    assert Steps(net, flush, cp, s1, 2) == Steps(net, flush, cp, s2, 1) == Steps(net, flush, cp, s3, 0) == s3;
  }

  /**
   * A lone process without errors, with a database of at most the current version and a fixed latest checkpoint,
   * reaches `resume` on a valid database within five transitions, from any contents, unless it must wait.
   */
  lemma Converges(net: Chain, flush: nat, cp: nat, d: Db)
    requires Ready(d, cp) && flush >= 1 && !MustWait(d, cp)
    ensures Resuming(Steps(net, flush, cp, Lone(d, Start(0)), Distance(d, cp)))
  {
    var s1 := Next(net, flush, cp, Lone(d, Start(0)));
    match StateOf(d)
    case Valid =>
      assert Steps(net, flush, cp, s1, 0) == s1 == Lone(d, Resume(d.lastIngested));
    case Inconsistent =>
      if Latest(d.history) < d.lastIngested {
        CatchUpConverges(net, flush, cp, d);
      } else {
        assert s1 == Lone(d.(lastIngested := 0), Start(0));
        RebuildConverges(net, flush, cp, s1.db);
        assert Distance(d, cp) == 1 + Distance(s1.db, cp);
      }
    case _ => RebuildConverges(net, flush, cp, d);
  }

  /** And when it must wait, it never gets past `start` and `waitForCheckpoint` until a newer checkpoint appears. */
  lemma {:induction false} WaitsForever(net: Chain, flush: nat, cp: nat, s: Lone, k: nat)
    requires Ready(s.db, cp) && MustWait(s.db, cp) && (s.node == Start(0) || s.node == WaitForCheckpoint)
    ensures var s' := Steps(net, flush, cp, s, k); s'.node == Start(0) || s'.node == WaitForCheckpoint
    decreases k
  {
    if k > 0 {
      WaitsForever(net, flush, cp, Next(net, flush, cp, s), k - 1);
    }
  }

  /** `d'` is `d` after ingesting exactly the next `k` ledgers; if `d` held the true state, so does `d'`. */
  ghost predicate Ingested(net: Chain, d: Db, d': Db, k: nat) {
    var n := d.lastIngested;
    && d'.lastIngested == n + k && d'.history == Extended(d.history, n + 1, n + k + 1)
    && (d.tables == Spec(net, n) ==> d'.tables == Spec(net, n + k))
  }

  ghost predicate Advanced(net: Chain, s: Lone, s': Lone, k: nat) {
    Resuming(s') && Ingested(net, s.db, s'.db, k)
  }

  lemma ExtendedAfterOne(h: seq<nat>, h1: seq<nat>, n: nat, k: nat)
    requires k > 0 && h1 == Extended(h, n + 1, n + 2)
    ensures Extended(h1, n + 2, n + k + 1) == Extended(h, n + 1, n + k + 1)
  {
    ExtendedTwice(h, n + 1, n + 2, n + k + 1);
  }

  lemma IngestedAfterOne(net: Chain, d: Db, d1: Db, d': Db, k: nat)
    requires k > 0 && Ingested(net, d, d1, 1) && Ingested(net, d1, d', k - 1)
    ensures Ingested(net, d, d', k)
  {
    ExtendedAfterOne(d.history, d1.history, d.lastIngested, k);
  }

  /** One transition of a resuming machine. */
  lemma ResumeStep(net: Chain, flush: nat, cp: nat, s: Lone)
    requires Resuming(s)
    ensures Advanced(net, s, Next(net, flush, cp, s), 1)
  {
    var n, s' := s.db.lastIngested, Next(net, flush, cp, s);
    assert s'.db.lastIngested == n + 1;
    assert s'.db.history == s.db.history + [n + 1];
    LatestPush(s.db.history, n + 1);
    assert Interval(n + 1, n + 2) == [n + 1];
  }

  lemma NoneIngested(net: Chain, d: Db)
    ensures Ingested(net, d, d, 0)
  {
    ExtendedByNone(d.history, d.lastIngested + 1);
  }

  /** If it resumes, `f` ingests one ledger. */
  ghost predicate Ingests(net: Chain, f: Lone -> Lone, s: Lone) {
    Resuming(s) ==> Advanced(net, s, f(s), 1)
  }

  /** Iterating any transition that ingests one ledger whenever it resumes ingests the next `k`. */
  lemma {:induction false} IterateAdvances(net: Chain, f: Lone -> Lone, s: Lone, k: nat)
    requires Resuming(s) && forall x {:trigger Ingests(net, f, x)} :: Ingests(net, f, x)
    ensures Advanced(net, s, Iterate(f, s, k), k)
    decreases k
  {
    if k == 0 {
      NoneIngested(net, s.db);
    } else {
      var s1 := f(s);
      assert Ingests(net, f, s);
      IterateAdvances(net, f, s1, k - 1);
      IngestedAfterOne(net, s.db, s1.db, Iterate(f, s1, k - 1).db, k);
    }
  }

  /** Once resuming on a valid database, k further transitions ingest exactly the next k ledgers. */
  lemma ResumeAdvances(net: Chain, flush: nat, cp: nat, s: Lone, k: nat)
    requires Resuming(s)
    ensures Advanced(net, s, Steps(net, flush, cp, s, k), k)
  {
    var f := NextOf(net, flush, cp);
    forall x {:trigger Ingests(net, f, x)} ensures Ingests(net, f, x) {
      if Resuming(x) {
        ResumeStep(net, flush, cp, x);
      }
    }
    IterateAdvances(net, f, s, k);
  }

  lemma {:induction false} IterateTwice(f: Lone -> Lone, s: Lone, j: nat, k: nat)
    ensures Iterate(f, s, j + k) == Iterate(f, Iterate(f, s, j), k)
    decreases j
  {
    if j > 0 {
      IterateTwice(f, f(s), j - 1, k);
    }
  }

  /** The machine resumes on the true state. */
  ghost predicate OnTrack(net: Chain, s: Lone) {
    Resuming(s) && s.db.tables == Spec(net, s.db.lastIngested)
  }

  /** From a database that holds the true state if it claims to be current, `resume` is reached on the true state. */
  lemma ConvergesOnTrack(net: Chain, flush: nat, cp: nat, d: Db)
    requires Ready(d, cp) && flush >= 1 && !MustWait(d, cp) && Cluster.StateMatches(net, d)
    ensures OnTrack(net, Steps(net, flush, cp, Lone(d, Start(0)), Distance(d, cp)))
  {
    var s, s1 := Lone(d, Start(0)), Next(net, flush, cp, Lone(d, Start(0)));
    match StateOf(d)
    case Valid =>
      StepsUnfold(net, flush, cp, s, s1, 1);
      assert s1 == Lone(d, Resume(d.lastIngested));
    case Inconsistent =>
      if Latest(d.history) < d.lastIngested {
        CatchUpConverges(net, flush, cp, d);
      } else {
        assert s1 == Lone(d.(lastIngested := 0), Start(0));
        StepsUnfold(net, flush, cp, s, s1, Distance(d, cp));
        RebuildConverges(net, flush, cp, s1.db);
      }
    case _ => RebuildConverges(net, flush, cp, d);
  }

  lemma AdvancesFrom(net: Chain, flush: nat, cp: nat, s: Lone, n: nat, k: nat)
    requires Resuming(Steps(net, flush, cp, s, n))
    ensures Advanced(net, Steps(net, flush, cp, s, n), Steps(net, flush, cp, s, n + k), k)
  {
    ResumeAdvances(net, flush, cp, Steps(net, flush, cp, s, n), k);
    IterateTwice(NextOf(net, flush, cp), s, n, k);
  }

  lemma StaysOnTrack(net: Chain, s: Lone, s': Lone, k: nat)
    requires OnTrack(net, s) && Advanced(net, s, s', k)
    ensures OnTrack(net, s')
  {
  }

  /**
   * From any contents, unless it must wait: after the distance to `resume`, every further transition ingests exactly
   * the next ledger on a valid database, which holds the true state if it did so wherever it claimed to be current.
   */
  lemma ConvergesAndAdvances(net: Chain, flush: nat, cp: nat, d: Db, n: nat, k: nat)
    requires Ready(d, cp) && flush >= 1 && !MustWait(d, cp) && n == Distance(d, cp)
    ensures var s := Lone(d, Start(0));
      var reached, later := Steps(net, flush, cp, s, n), Steps(net, flush, cp, s, n + k);
      Advanced(net, reached, later, k) && (Cluster.StateMatches(net, d) ==> OnTrack(net, later))
  {
    var s := Lone(d, Start(0));
    Converges(net, flush, cp, d);
    AdvancesFrom(net, flush, cp, s, n, k);
    if Cluster.StateMatches(net, d) {
      ConvergesOnTrack(net, flush, cp, d);
      StaysOnTrack(net, Steps(net, flush, cp, s, n), Steps(net, flush, cp, s, n + k), k);
    }
  }

  // ---------------------------------------------------------------------------------------------------------------
  // From any node.

  /**
   * A process that finds itself behind, because another one ingested meanwhile, takes one more transition to follow,
   * and then ingests the next ledger like any other.
   */
  lemma OvertakenCatchesUp(net: Chain, flush: nat, cp: nat, d: Db, l: nat)
    requires StateOf(d) == Valid && d.loadTest.None? && 0 < l <= d.lastIngested
    ensures var s := Steps(net, flush, cp, Lone(d, Resume(l)), if l < d.lastIngested then 2 else 1);
      Resuming(s) && Ingested(net, d, s.db, 1)
  {
    var s, s1 := Lone(d, Resume(l)), Lone(d, Resume(d.lastIngested));
    ResumeStep(net, flush, cp, s1);
    if l < d.lastIngested {
      FollowsFirst(net, flush, cp, d, l);
      TwoSteps(net, flush, cp, s, s1);
    } else {
      OneStep(net, flush, cp, s);
    }
  }

  lemma FollowsFirst(net: Chain, flush: nat, cp: nat, d: Db, l: nat)
    requires 0 < l < d.lastIngested
    ensures Next(net, flush, cp, Lone(d, Resume(l))) == Lone(d, Resume(d.lastIngested))
  {
  }

  lemma OneStep(net: Chain, flush: nat, cp: nat, s: Lone)
    ensures Steps(net, flush, cp, s, 1) == Next(net, flush, cp, s)
  {
    StepsUnfold(net, flush, cp, s, Next(net, flush, cp, s), 1);
  }

  lemma TwoSteps(net: Chain, flush: nat, cp: nat, s: Lone, s1: Lone)
    requires Next(net, flush, cp, s) == s1
    ensures Steps(net, flush, cp, s, 2) == Next(net, flush, cp, s1)
  {
    StepsUnfold(net, flush, cp, s, s1, 2);
    OneStep(net, flush, cp, s1);
  }

  /** The nodes a process can be at while it is in the state machine for good. */
  predicate Ongoing(n: Node) {
    !n.Stop? && !(n.Build? && n.stop)
  }

  /** At `start`, or resuming on a valid database. */
  ghost predicate Settled(s: Lone) {
    s.node == Start(0) || Resuming(s)
  }

  lemma ResumeSettles(net: Chain, flush: nat, cp: nat, d: Db, l: nat)
    requires d.loadTest.None?
    ensures var s1 := Next(net, flush, cp, Lone(d, Resume(l)));
      && Ready(s1.db, cp) == Ready(d, cp)
      && (Settled(s1) || (s1 == Lone(d, Resume(d.lastIngested)) && Settled(Next(net, flush, cp, s1))))
  {
    var s1 := Next(net, flush, cp, Lone(d, Resume(l)));
    if s1.db != d {
      ResumeStep(net, flush, cp, Lone(d, Resume(l)));
    } else if s1.node == Resume(d.lastIngested) {
      var s2 := Next(net, flush, cp, s1);
      if s2.db != d {
        ResumeStep(net, flush, cp, s1);
      }
    }
  }

  lemma BuildSettles(net: Chain, flush: nat, cp: nat, d: Db, checkpoint: nat, skip: bool)
    requires d.loadTest.None?
    ensures var s1 := Next(net, flush, cp, Lone(d, Build(checkpoint, skip, false)));
      && (s1.node == Start(0) || s1.node == Resume(s1.db.lastIngested)) && s1.db.loadTest.None?
      && (Ready(d, cp) ==> Ready(s1.db, cp))
      && (Settled(s1) || Settled(Next(net, flush, cp, s1)))
  {
    var s1 := Next(net, flush, cp, Lone(d, Build(checkpoint, skip, false)));
    if s1.node != Start(0) && !Resuming(s1) {
      assert Next(net, flush, cp, s1) == Lone(s1.db, Start(0));
    }
  }

  /** Within two transitions a process at any node but `start` is at `start` or resumes on a valid database. */
  lemma SettlesWithinTwo(net: Chain, flush: nat, cp: nat, s: Lone) returns (s1: Lone, s2: Lone)
    requires Ready(s.db, cp) && Ongoing(s.node) && !s.node.Start?
    ensures s1 == Next(net, flush, cp, s) && s2 == Next(net, flush, cp, s1)
    ensures Ready(s1.db, cp) && (Settled(s1) || (Settled(s2) && Ready(s2.db, cp)))
  {
    s1 := Next(net, flush, cp, s);
    s2 := Next(net, flush, cp, s1);
    match s.node {
      case Resume(l) => ResumeSettles(net, flush, cp, s.db, l);
      case Build(checkpoint, skip, _) => BuildSettles(net, flush, cp, s.db, checkpoint, skip);
      case _ =>
    }
    if s1.node.Resume? && !Settled(s1) {
      ResumeSettles(net, flush, cp, s1.db, s1.db.lastIngested);
    }
  }

  /** Resuming on a valid database, or at a `start` that must wait for a newer checkpoint. */
  ghost predicate Arrived(s: Lone, cp: nat) {
    Resuming(s) || (s.node == Start(0) && MustWait(s.db, cp))
  }

  /** The machine has arrived after `k` transitions. */
  ghost predicate ArrivesAfter(net: Chain, flush: nat, cp: nat, s: Lone, k: nat) {
    Arrived(Steps(net, flush, cp, s, k), cp)
  }

  lemma SettledArrives(net: Chain, flush: nat, cp: nat, s: Lone) returns (k: nat)
    requires Ready(s.db, cp) && flush >= 1 && Settled(s)
    ensures k <= 5 && ArrivesAfter(net, flush, cp, s, k)
  {
    k := 0;
    if !Arrived(s, cp) {
      assert s == Lone(s.db, Start(0));
      Converges(net, flush, cp, s.db);
      k := Distance(s.db, cp);
    }
  }

  lemma ArrivesOneLater(net: Chain, flush: nat, cp: nat, s: Lone, s1: Lone, k: nat)
    requires s1 == Next(net, flush, cp, s) && ArrivesAfter(net, flush, cp, s1, k)
    ensures ArrivesAfter(net, flush, cp, s, k + 1)
  {
    StepsUnfold(net, flush, cp, s, s1, k + 1);
  }

  /** From any node and any contents a process without errors arrives within seven transitions. */
  lemma ConvergesFromAnyNode(net: Chain, flush: nat, cp: nat, s: Lone) returns (k: nat)
    requires Ready(s.db, cp) && flush >= 1 && Ongoing(s.node) && (s.node.Start? ==> s.node == Start(0))
    ensures k <= 7 && ArrivesAfter(net, flush, cp, s, k)
  {
    if s.node.Start? {
      k := SettledArrives(net, flush, cp, s);
    } else {
      var s1, s2 := SettlesWithinTwo(net, flush, cp, s);
      if Settled(s1) {
        k := SettledArrives(net, flush, cp, s1);
      } else {
        k := SettledArrives(net, flush, cp, s2);
        ArrivesOneLater(net, flush, cp, s1, s2, k);
        k := k + 1;
      }
      ArrivesOneLater(net, flush, cp, s, s1, k);
      k := k + 1;
    }
  }

  /** A suggested checkpoint is the one an empty database is built at, whatever the archive's latest is. */
  lemma SuggestedCheckpointIsBuilt(net: Chain, flush: nat, cp: nat, d: Db, suggested: nat)
    requires Ready(d, cp) && suggested > 0 && Latest(d.history) == 0 && StateOf(d) == Empty
    ensures var s := Steps(net, flush, cp, Lone(d, Start(suggested)), 2);
      OnTrack(net, s) && s.db.lastIngested == suggested
  {
    var s, s1 := Lone(d, Start(suggested)), Lone(d, Build(suggested, false, false));
    assert Next(net, flush, cp, s) == s1;
    StepsUnfold(net, flush, cp, s, s1, 2);
    StepsUnfold(net, flush, cp, s1, Next(net, flush, cp, s1), 1);
  }
}
