/**
 * Parallel reingestion as a protocol: the queueing loop and the workers share an unbuffered job channel, a stop
 * channel closed once, and a mutex-guarded record of the failed range with the lowest start.
 */
module ParallelProtocol {
  import opened Network
  import opened LedgerRanges
  import ParallelJobs

  /** A worker waits in its select, runs a job, or winds down after a failure: record it, close stop, exit. */
  datatype Worker = Idle | Busy(job: nat) | Failing(job: nat) | Closing(job: nat) | Exited

  /** ReingestRange itself: queueing jobs, about to close stop, waiting for the workers, returned. */
  datatype Phase = Queueing | Stopping | Waiting | Returned

  datatype State = State(
    phase: Phase, next: nat, stopped: bool, workers: seq<Worker>,
    lowest: Option<nat>, succeeded: set<nat>, failed: set<nat>)

  datatype Step =
    | Take(w: nat) | Succeed(w: nat) | Fail(w: nat) | Record(w: nat) | CloseStop(w: nat) | Quit(w: nat)
    | SeeStop | QueueDone | MainCloseStop | Return

  predicate Init(s: State) {
    && s.phase == Queueing && s.next == 0 && !s.stopped && s.lowest == None && s.succeeded == {} && s.failed == {}
    && |s.workers| >= 1 && forall w :: 0 <= w < |s.workers| ==> s.workers[w] == Idle
  }

  predicate Enabled(jobs: seq<LedgerRange>, s: State, step: Step) {
    match step
    case Take(w) => w < |s.workers| && s.workers[w].Idle? && s.phase == Queueing && s.next < |jobs|
    case Succeed(w) => w < |s.workers| && s.workers[w].Busy?
    case Fail(w) => w < |s.workers| && s.workers[w].Busy?
    case Record(w) => w < |s.workers| && s.workers[w].Failing?
    case CloseStop(w) => w < |s.workers| && s.workers[w].Closing?
    case Quit(w) => w < |s.workers| && s.workers[w].Idle? && s.stopped
    case SeeStop => s.phase == Queueing && s.next < |jobs| && s.stopped
    case QueueDone => s.phase == Queueing && s.next == |jobs|
    case MainCloseStop => s.phase == Stopping
    case Return => s.phase == Waiting && forall w :: 0 <= w < |s.workers| ==> s.workers[w].Exited?
  }

  function StartOf(jobs: seq<LedgerRange>, j: nat): nat {
    if j < |jobs| then jobs[j].first else 0
  }

  function Lower(jobs: seq<LedgerRange>, lowest: Option<nat>, j: nat): Option<nat> {
    if lowest.None? || StartOf(jobs, lowest.value) > StartOf(jobs, j) then Some(j) else lowest
  }

  function After(jobs: seq<LedgerRange>, s: State, step: Step): State
    requires Enabled(jobs, s, step)
  {
    match step
    case Take(w) => s.(next := s.next + 1, workers := s.workers[w := Busy(s.next)])
    case Succeed(w) => s.(succeeded := s.succeeded + {s.workers[w].job}, workers := s.workers[w := Idle])
    case Fail(w) => s.(failed := s.failed + {s.workers[w].job}, workers := s.workers[w := Failing(s.workers[w].job)])
    case Record(w) =>
      s.(lowest := Lower(jobs, s.lowest, s.workers[w].job), workers := s.workers[w := Closing(s.workers[w].job)])
    case CloseStop(w) => s.(stopped := true, workers := s.workers[w := Exited])
    case Quit(w) => s.(workers := s.workers[w := Exited])
    case SeeStop => s.(phase := Stopping)
    case QueueDone => s.(phase := Stopping)
    case MainCloseStop => s.(phase := Waiting, stopped := true)
    case Return => s.(phase := Returned)
  }

  /** Job `j` is in the hands of some worker. */
  ghost predicate Held(s: State, j: nat) {
    exists w :: 0 <= w < |s.workers| && s.workers[w] == Busy(j)
  }

  ghost predicate Unrecorded(s: State, j: nat) {
    exists w :: 0 <= w < |s.workers| && s.workers[w] == Failing(j)
  }

  /** Every queued job has succeeded, failed, or is being run. */
  ghost predicate Accounted(jobs: seq<LedgerRange>, s: State) {
    && s.next <= |jobs|
    && (forall j :: j in s.succeeded || j in s.failed ==> j < s.next)
    && (forall j :: 0 <= j < s.next ==> j in s.succeeded || j in s.failed || Held(s, j))
    && (forall w :: 0 <= w < |s.workers| && s.workers[w].Busy? ==> s.workers[w].job < s.next)
    && (forall w :: 0 <= w < |s.workers| && s.workers[w].Failing? ==> s.workers[w].job in s.failed)
    && (s.lowest.Some? ==> s.lowest.value in s.failed)
  }

  /** The recorded range is the lowest failed one, up to failures still to be recorded. */
  ghost predicate LowestRecorded(jobs: seq<LedgerRange>, s: State)
    requires Accounted(jobs, s)
  {
    forall j :: j in s.failed ==>
      Unrecorded(s, j) || (s.lowest.Some? && jobs[s.lowest.value].first <= jobs[j].first)
  }

  /** Stop is only closed early by a worker that has recorded its failure, and no worker leaves before. */
  ghost predicate StopDiscipline(jobs: seq<LedgerRange>, s: State) {
    && |s.workers| >= 1
    && (forall w :: 0 <= w < |s.workers| && s.workers[w].Closing? ==> s.lowest.Some?)
    && (forall w :: 0 <= w < |s.workers| && s.workers[w].Exited? ==> s.stopped)
    && (s.stopped && (s.phase == Queueing || s.phase == Stopping) ==> s.lowest.Some?)
    && (s.phase != Queueing && s.next < |jobs| ==> s.lowest.Some?)
    && (s.phase == Waiting || s.phase == Returned ==> s.stopped)
    && (s.phase == Returned ==> forall w :: 0 <= w < |s.workers| ==> s.workers[w].Exited?)
  }

  ghost predicate Inv(jobs: seq<LedgerRange>, s: State) {
    Accounted(jobs, s) && LowestRecorded(jobs, s) && StopDiscipline(jobs, s)
  }

  lemma StepKeepsAccount(jobs: seq<LedgerRange>, s: State, step: Step)
    requires Inv(jobs, s) && Enabled(jobs, s, step)
    ensures Accounted(jobs, After(jobs, s, step))
  {
    var s' := After(jobs, s, step);
    forall j | 0 <= j < s'.next ensures j in s'.succeeded || j in s'.failed || Held(s', j) {
      if step.Take? && j == s.next {
        assert s'.workers[step.w] == Busy(j);
      } else if Held(s, j) {
        var w :| 0 <= w < |s.workers| && s.workers[w] == Busy(j);
        assert s'.workers[w] == Busy(j) || j in s'.succeeded || j in s'.failed;
      }
    }
  }

  lemma StepKeepsLowest(jobs: seq<LedgerRange>, s: State, step: Step)
    requires Inv(jobs, s) && Enabled(jobs, s, step) && Accounted(jobs, After(jobs, s, step))
    ensures LowestRecorded(jobs, After(jobs, s, step))
  {
    var s' := After(jobs, s, step);
    forall j | j in s'.failed
      ensures Unrecorded(s', j) || (s'.lowest.Some? && jobs[s'.lowest.value].first <= jobs[j].first)
    {
      if step.Fail? && j == s.workers[step.w].job {
        assert s'.workers[step.w] == Failing(j);
      } else if Unrecorded(s, j) {
        var w :| 0 <= w < |s.workers| && s.workers[w] == Failing(j);
        assert s'.workers[w] == Failing(j) || (step.Record? && step.w == w);
      }
    }
  }

  lemma StepKeepsDiscipline(jobs: seq<LedgerRange>, s: State, step: Step)
    requires Inv(jobs, s) && Enabled(jobs, s, step)
    ensures StopDiscipline(jobs, After(jobs, s, step))
  {
  }

  lemma StepKeepsInv(jobs: seq<LedgerRange>, s: State, step: Step)
    requires Inv(jobs, s) && Enabled(jobs, s, step)
    ensures Inv(jobs, After(jobs, s, step))
  {
    StepKeepsAccount(jobs, s, step);
    StepKeepsLowest(jobs, s, step);
    StepKeepsDiscipline(jobs, s, step);
  }

  /** `states` is a run of the protocol taking `steps`. */
  ghost predicate IsRun(jobs: seq<LedgerRange>, states: seq<State>, steps: seq<Step>) {
    && |states| == |steps| + 1 && Init(states[0])
    && (forall i :: 0 <= i < |steps| ==>
          Enabled(jobs, states[i], steps[i]) && states[i + 1] == After(jobs, states[i], steps[i]))
  }

  lemma {:induction false} RunKeepsInv(jobs: seq<LedgerRange>, states: seq<State>, steps: seq<Step>, n: nat)
    requires IsRun(jobs, states, steps) && n <= |steps|
    ensures Inv(jobs, states[n])
  {
    if n > 0 {
      RunKeepsInv(jobs, states, steps, n - 1);
      StepKeepsInv(jobs, states[n - 1], steps[n - 1]);
    }
  }

  /**
   * In every interleaving: if no worker recorded an error when ReingestRange returns, every job succeeded; and if it
   * recommends restarting at X, every job starting below X was queued and succeeded.
   */
  lemma ReturnIsHonest(jobs: seq<LedgerRange>, states: seq<State>, steps: seq<Step>, n: nat)
    requires ValidRanges(jobs) && IsRun(jobs, states, steps) && n <= |steps| && states[n].phase == Returned
    ensures states[n].lowest.None? ==> forall j :: 0 <= j < |jobs| ==> j in states[n].succeeded
    ensures states[n].lowest.Some? ==>
      && states[n].lowest.value < |jobs| && states[n].lowest.value in states[n].failed
      && forall j :: 0 <= j < |jobs| && jobs[j].first < jobs[states[n].lowest.value].first ==> j in states[n].succeeded
  {
    RunKeepsInv(jobs, states, steps, n);
    var s := states[n];
    assert forall j :: !Held(s, j) && !Unrecorded(s, j);
    RangesIncrease(jobs);
    if s.lowest.Some? {
      forall j | 0 <= j < |jobs| && jobs[j].first < jobs[s.lowest.value].first ensures j in s.succeeded {
        assert j < s.lowest.value;
      }
    }
  }

  // ---------------------------------------------------------------------------------------------------------------
  // Termination.

  function Weight(w: Worker): nat {
    match w
    case Idle => 1
    case Busy(_) => 5
    case Failing(_) => 4
    case Closing(_) => 3
    case Exited => 0
  }

  function Weights(ws: seq<Worker>): nat {
    if ws == [] then 0 else Weight(ws[0]) + Weights(ws[1..])
  }

  lemma {:induction false} WeightsUpdate(ws: seq<Worker>, w: nat, v: Worker)
    requires w < |ws|
    ensures Weights(ws[w := v]) == Weights(ws) - Weight(ws[w]) + Weight(v)
  {
    if w == 0 {
      assert ws[w := v][1..] == ws[1..];
    } else {
      assert ws[w := v][1..] == ws[1..][w - 1 := v];
      WeightsUpdate(ws[1..], w - 1, v);
    }
  }

  function PhaseRank(p: Phase): nat {
    match p
    case Queueing => 3
    case Stopping => 2
    case Waiting => 1
    case Returned => 0
  }

  function Measure(jobs: seq<LedgerRange>, s: State): nat
    requires s.next <= |jobs|
  {
    5 * (|jobs| - s.next) + Weights(s.workers) + PhaseRank(s.phase)
  }

  lemma StepDecreases(jobs: seq<LedgerRange>, s: State, step: Step)
    requires Inv(jobs, s) && Enabled(jobs, s, step)
    ensures Accounted(jobs, After(jobs, s, step)) && Measure(jobs, After(jobs, s, step)) < Measure(jobs, s)
  {
    StepKeepsAccount(jobs, s, step);
    match step
    case Take(w) => WeightsUpdate(s.workers, w, Busy(s.next));
    case Succeed(w) => WeightsUpdate(s.workers, w, Idle);
    case Fail(w) => WeightsUpdate(s.workers, w, Failing(s.workers[w].job));
    case Record(w) => WeightsUpdate(s.workers, w, Closing(s.workers[w].job));
    case CloseStop(w) => WeightsUpdate(s.workers, w, Exited);
    case Quit(w) => WeightsUpdate(s.workers, w, Exited);
    case _ =>
  }

  /** Until ReingestRange has returned, some goroutine can take a step. */
  lemma NoDeadlock(jobs: seq<LedgerRange>, s: State) returns (step: Step)
    requires Inv(jobs, s) && s.phase != Returned
    ensures Enabled(jobs, s, step)
  {
    if s.phase == Stopping {
      return MainCloseStop;
    }
    if s.phase == Queueing && s.next == |jobs| {
      return QueueDone;
    }
    if w :| 0 <= w < |s.workers| && !s.workers[w].Exited? {
      match s.workers[w]
      case Idle => step := if s.phase == Queueing then Take(w) else Quit(w);
      case Busy(_) => step := Succeed(w);
      case Failing(_) => step := Record(w);
      case Closing(_) => step := CloseStop(w);
    } else {
      assert s.workers[0].Exited?;
      step := if s.phase == Queueing then SeeStop else Return;
    }
  }

  /** No run is longer than its initial measure, so queueing and the final wait always end. */
  lemma {:induction false} RunsAreBounded(jobs: seq<LedgerRange>, states: seq<State>, steps: seq<Step>, n: nat)
    requires IsRun(jobs, states, steps) && n <= |steps|
    ensures states[n].next <= |jobs| && n + Measure(jobs, states[n]) <= Measure(jobs, states[0])
  {
    RunKeepsInv(jobs, states, steps, n);
    if n > 0 {
      RunKeepsInv(jobs, states, steps, n - 1);
      RunsAreBounded(jobs, states, steps, n - 1);
      StepDecreases(jobs, states[n - 1], steps[n - 1]);
    }
  }

  /** Some succeeded job contains ledger `x`. */
  ghost predicate Reingested(jobs: seq<LedgerRange>, s: State, x: nat) {
    exists j :: 0 <= j < |jobs| && j in s.succeeded && jobs[j].Contains(x)
  }

  /**
   * With the jobs that queueing splits validated ranges into, a return without error means that exactly the requested
   * ledgers were reingested, but for the last ledger of each range whose length is one more than a multiple of `b`.
   */
  lemma CleanReturnReingests(
    rs: seq<LedgerRange>, b: nat, states: seq<State>, steps: seq<Step>, n: nat, x: nat)
    requires ValidRanges(rs) && b >= 1 && n <= |steps|
    requires IsRun(ParallelJobs.Jobs(rs, b), states, steps) && states[n].phase == Returned && states[n].lowest.None?
    ensures Reingested(ParallelJobs.Jobs(rs, b), states[n], x) <==>
      exists i :: 0 <= i < |rs| && rs[i].Contains(x) && !ParallelJobs.LeftOut(rs[i].first, rs[i].last, b, x)
  {
    var jobs := ParallelJobs.Jobs(rs, b);
    ParallelJobs.JobsAreValid(rs, b);
    ReturnIsHonest(jobs, states, steps, n);
    ParallelJobs.JobsCover(rs, b, x);
    assert Reingested(jobs, states[n], x) <==> Covered(jobs, x);
  }

  /** The same for the batch size the command computes from the ranges, its workers and its limits. */
  lemma RequestReingests(
    rs: seq<LedgerRange>, workerCount: nat, minBatch: nat, maxBatch: nat, states: seq<State>, steps: seq<Step>, n: nat,
    x: nat)
    requires ValidRanges(rs) && NextFree(rs) <= ParallelJobs.TWO_32 && 1 <= workerCount < ParallelJobs.TWO_32
    requires n <= |steps|
    requires var b := ParallelJobs.RequestBatch(rs, workerCount, minBatch, maxBatch);
      IsRun(ParallelJobs.Jobs(rs, b), states, steps) && states[n].phase == Returned && states[n].lowest.None?
    ensures var b := ParallelJobs.RequestBatch(rs, workerCount, minBatch, maxBatch);
      Reingested(ParallelJobs.Jobs(rs, b), states[n], x) <==>
      exists i :: 0 <= i < |rs| && rs[i].Contains(x) && !ParallelJobs.LeftOut(rs[i].first, rs[i].last, b, x)
  {
    var b := ParallelJobs.RequestBatch(rs, workerCount, minBatch, maxBatch);
    CleanReturnReingests(rs, b, states, steps, n, x);
  }

  /** A request for one ledger always returns without error, and reingests nothing. */
  lemma SingleLedgerIsNotReingested(
    l: nat, workerCount: nat, minBatch: nat, maxBatch: nat, states: seq<State>, steps: seq<Step>, n: nat)
    requires 1 <= l < ParallelJobs.TWO_32 && 1 <= workerCount < ParallelJobs.TWO_32 && n <= |steps|
    requires var rs := [LedgerRange(l, l)];
      IsRun(ParallelJobs.Jobs(rs, ParallelJobs.RequestBatch(rs, workerCount, minBatch, maxBatch)), states, steps)
    requires states[n].phase == Returned
    ensures states[n].lowest.None? && states[n].succeeded == {}
  {
    ParallelJobs.SingleLedgerHasNoJob(l, workerCount, minBatch, maxBatch);
    RunKeepsInv([], states, steps, n);
  }

  /** The step is the end of job `j`. */
  ghost predicate Ends(s: State, step: Step, j: nat, success: bool) {
    && (if success then step.Succeed? else step.Fail?)
    && step.w < |s.workers| && s.workers[step.w] == Busy(j)
  }

  /** Job `j` ended in success, or in failure, at some step before `n`. */
  ghost predicate Ended(states: seq<State>, steps: seq<Step>, n: nat, j: nat, success: bool)
    requires n <= |steps| && |states| == |steps| + 1
  {
    exists i :: 0 <= i < n && Ends(states[i], steps[i], j, success)
  }

  lemma StepCounts(jobs: seq<LedgerRange>, s: State, step: Step, j: nat)
    requires Enabled(jobs, s, step)
    ensures j in After(jobs, s, step).succeeded <==> j in s.succeeded || Ends(s, step, j, true)
    ensures j in After(jobs, s, step).failed <==> j in s.failed || Ends(s, step, j, false)
  {
  }

  lemma EndedNext(states: seq<State>, steps: seq<Step>, n: nat, j: nat, success: bool)
    requires n < |steps| && |states| == |steps| + 1
    ensures Ended(states, steps, n + 1, j, success) <==>
      Ended(states, steps, n, j, success) || Ends(states[n], steps[n], j, success)
  {
  }

  /** In every run the jobs counted as succeeded and as failed are exactly those whose worker ended so. */
  lemma {:induction false} CountedAsEnded(jobs: seq<LedgerRange>, states: seq<State>, steps: seq<Step>, n: nat, j: nat)
    requires IsRun(jobs, states, steps) && n <= |steps|
    ensures j in states[n].succeeded <==> Ended(states, steps, n, j, true)
    ensures j in states[n].failed <==> Ended(states, steps, n, j, false)
  {
    if n > 0 {
      CountedAsEnded(jobs, states, steps, n - 1, j);
      var s, step := states[n - 1], steps[n - 1];
      assert Enabled(jobs, s, step) && states[n] == After(jobs, s, step);
      StepCounts(jobs, s, step, j);
      EndedNext(states, steps, n - 1, j, true);
      EndedNext(states, steps, n - 1, j, false);
    }
  }

  /** When the command has returned, an error is reported exactly when some job failed. */
  lemma ErrorIsReported(jobs: seq<LedgerRange>, states: seq<State>, steps: seq<Step>, n: nat)
    requires IsRun(jobs, states, steps) && n <= |steps| && states[n].phase == Returned
    ensures states[n].lowest.Some? <==> exists j: nat :: Ended(states, steps, n, j, false)
  {
    RunKeepsInv(jobs, states, steps, n);
    var s := states[n];
    if s.lowest.Some? {
      CountedAsEnded(jobs, states, steps, n, s.lowest.value);
    }
    if j: nat :| Ended(states, steps, n, j, false) {
      CountedAsEnded(jobs, states, steps, n, j);
    }
  }
}
