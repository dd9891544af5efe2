/** Every interleaving of submissions, ticks and readers: each channel gets exactly one result. */
module SubmissionProtocol {
  import opened Network
  import opened Submissions

  /** Where the one tick that may run has got to. */
  datatype TickPhase =
    | Idle
    | Started(pending: seq<Hash>)
    | Handling(pending: seq<Hash>, found: map<Hash, Tx>, next: nat)

  /** `flying` are the channels whose Submit has not decided yet. */
  datatype State = State(world: World, flying: set<nat>, tick: TickPhase)

  datatype Step =
    | Opens(hash: Hash)
    | Responds(id: nat, result: Result)
    | Adds(id: nat, now: int)
    | TickBegins(pending: seq<Hash>)
    | TickAborts
    | TickLoads(txs: seq<Tx>)
    | TickHandles
    | TickCleans(order: seq<Hash>, now: int, maxAge: int)
    | Receives(id: nat)

  const INIT := State(World([], map[], false), {}, Idle)

  ghost predicate Enabled(s: State, step: Step) {
    match step
    case Opens(_) => true
    case Responds(id, _) => id in s.flying
    case Adds(id, _) => id in s.flying && id < |s.world.chans|
    case TickBegins(pending) => s.tick.Idle? && Enumerates(pending, s.world.open)
    case TickAborts => s.tick.Started?
    case TickLoads(_) => s.tick.Started?
    case TickHandles => s.tick.Handling? && s.tick.next < |s.tick.pending|
    case TickCleans(order, _, _) =>
      && Enumerates(order, s.world.open)
      && ((s.tick.Started? && s.tick.pending == []) || (s.tick.Handling? && s.tick.next == |s.tick.pending|))
    case Receives(id) => id < |s.world.chans|
  }

  function Received(c: Chan): Chan {
    if c.received < |c.sent| then c.(received := c.received + 1) else c
  }

  ghost function After(s: State, step: Step): State
    requires Enabled(s, step)
  {
    match step
    case Opens(h) =>
      s.(world := s.world.(chans := s.world.chans + [Chan(h, [], 0, 0)]), flying := s.flying + {|s.world.chans|})
    case Responds(id, r) => s.(world := Send(s.world, id, Delivery(Submitter, r)), flying := s.flying - {id})
    case Adds(id, now) => s.(world := Added(s.world, s.world.chans[id].hash, id, now), flying := s.flying - {id})
    case TickBegins(pending) => s.(tick := Started(pending))
    case TickAborts => s.(tick := Idle)
    case TickLoads(txs) => s.(tick := Handling(s.tick.pending, TxMap(txs, |txs|), 0))
    case TickHandles => s.(world := HandledOne(s.world, s.tick.pending[s.tick.next], s.tick.found),
                           tick := s.tick.(next := s.tick.next + 1))
    case TickCleans(order, now, maxAge) => s.(world := Cleaned(s.world, order, |order|, now, maxAge), tick := Idle)
    case Receives(id) => s.(world := s.world.(chans := s.world.chans[id := Received(s.world.chans[id])]))
  }

  /** Nothing was sent, and the channel is open. */
  predicate Waiting(c: Chan) {
    c.sent == [] && c.closed == 0 && c.received == 0
  }

  /** One result was sent and the channel was closed once; what tick or its clean-up sent is the right one. */
  predicate Done(c: Chan) {
    |c.sent| == 1 && c.closed == 1 && c.received <= 1 && Fits(c.sent[0], c.hash)
  }

  /** The answer to a stored transaction: the transaction, with an error exactly when it failed. */
  predicate IsAnswer(r: Result, tx: Tx) {
    r.tx == Some(tx) && r.err == if tx.successful then None else Some(FailedTransaction)
  }

  /** Tick sends a readable transaction that carries the awaited hash, and its clean-up sends timeouts. */
  predicate Fits(d: Delivery, h: Hash) {
    match d.sender
    case Submitter => true
    case Ticker =>
      var tx := d.result.tx;
      tx.Some? && Matches(tx.value, h) && tx.value.readable && IsAnswer(d.result, tx.value)
    case Cleaner => d.result.tx.None? && d.result.err == Some(Timeout)
  }

  ghost predicate At(w: World, h: Hash, k: nat, id: nat) {
    h in w.open && k < |w.open[h].listeners| && w.open[h].listeners[k] == id
  }

  ghost predicate Listed(w: World, id: nat) {
    exists h, k :: At(w, h, k, id)
  }

  /** A channel sits on the list at most once. */
  ghost predicate Once(w: World) {
    forall id: nat, h, k, h', k' :: At(w, h, k, id) && At(w, h', k', id) ==> h == h' && k == k'
  }

  /** A listed channel is waiting, and is listed under the hash it was made for. */
  ghost predicate ListedWaits(w: World) {
    forall id: nat, h, k :: At(w, h, k, id) ==> id < |w.chans| && Waiting(w.chans[id]) && w.chans[id].hash == h
  }

  ghost predicate Settled(w: World, flying: set<nat>, id: nat)
    requires id < |w.chans|
  {
    if id in flying then Waiting(w.chans[id]) && !Listed(w, id)
    else Listed(w, id) || Done(w.chans[id])
  }

  ghost predicate WorldInv(w: World, flying: set<nat>) {
    && !w.stuck && Once(w) && ListedWaits(w)
    && (forall id :: id in flying ==> id < |w.chans|)
    && (forall id :: 0 <= id < |w.chans| ==> Settled(w, flying, id))
  }

  ghost predicate Inv(s: State) {
    && WorldInv(s.world, s.flying)
    && (s.tick.Handling? ==>
          s.tick.next <= |s.tick.pending| && forall h :: h in s.tick.found ==> Matches(s.tick.found[h], h))
  }

  /** What a send loop over waiting, distinct listeners does: it delivers to each and gets stuck on none. */
  lemma {:induction false} SendFirstDelivers(w: World, listeners: seq<nat>, n: nat, d: Delivery)
    requires n <= |listeners| && !w.stuck
    requires forall k :: 0 <= k < |listeners| ==> listeners[k] < |w.chans| && Waiting(w.chans[listeners[k]])
    requires forall k, k' :: 0 <= k < k' < |listeners| ==> listeners[k] != listeners[k']
    ensures var r := SendFirst(w, listeners, n, d);
            && r.open == w.open && !r.stuck && |r.chans| == |w.chans|
            && (forall k :: 0 <= k < n ==> r.chans[listeners[k]] == Delivered(w.chans[listeners[k]], d))
            && (forall id :: 0 <= id < |w.chans| && (forall k :: 0 <= k < n ==> listeners[k] != id) ==>
                  r.chans[id] == w.chans[id])
  {
    if n > 0 {
      SendFirstDelivers(w, listeners, n - 1, d);
      assert listeners[n - 1] < |w.chans|;
    }
  }

  function Delivered(c: Chan, d: Delivery): Chan {
    c.(sent := c.sent + [d], closed := c.closed + 1)
  }

  lemma FinishedWorld(w: World, flying: set<nat>, h: Hash, d: Delivery)
    requires WorldInv(w, flying) && h in w.open
    ensures var r := Finished(w, h, d);
            && r.open == w.open - {h} && !r.stuck && |r.chans| == |w.chans|
            && forall id :: 0 <= id < |w.chans| ==>
                 r.chans[id] == if id in w.open[h].listeners then Delivered(w.chans[id], d) else w.chans[id]
  {
    var ls := w.open[h].listeners;
    forall k | 0 <= k < |ls| ensures ls[k] < |w.chans| && Waiting(w.chans[ls[k]]) {
      assert At(w, h, k, ls[k]);
    }
    forall k, k' | 0 <= k < k' < |ls| ensures ls[k] != ls[k'] {
      assert At(w, h, k, ls[k]) && At(w, h, k', ls[k']);
    }
    SendFirstDelivers(w, ls, |ls|, d);
  }

  lemma FinishKeepsInv(w: World, flying: set<nat>, h: Hash, d: Delivery)
    requires WorldInv(w, flying) && Fits(d, h)
    ensures WorldInv(Finished(w, h, d), flying)
  {
    if h in w.open {
      FinishedWorld(w, flying, h, d);
      var r := Finished(w, h, d);
      var ls := w.open[h].listeners;
      forall id: nat, h', k | At(r, h', k, id)
        ensures At(w, h', k, id) && id < |w.chans| && r.chans[id] == w.chans[id]
      {
        assert At(w, h', k, id);
        if j :| 0 <= j < |ls| && ls[j] == id {
          assert At(w, h, j, id);
        }
      }
      forall id | 0 <= id < |r.chans| ensures Settled(r, flying, id) {
        FinishSettles(w, r, flying, h, d, id);
      }
    }
  }

  lemma FinishSettles(w: World, r: World, flying: set<nat>, h: Hash, d: Delivery, id: nat)
    requires WorldInv(w, flying) && Fits(d, h) && h in w.open && id < |w.chans| == |r.chans|
    requires r.open == w.open - {h}
    requires r.chans[id] == if id in w.open[h].listeners then Delivered(w.chans[id], d) else w.chans[id]
    ensures Settled(r, flying, id)
  {
    assert Settled(w, flying, id);
    var ls := w.open[h].listeners;
    if id in ls {
      var k :| 0 <= k < |ls| && ls[k] == id;
      assert At(w, h, k, id) && Listed(w, id);
      assert r.chans[id].sent == [d];
    } else if Listed(w, id) {
      var h', k :| At(w, h', k, id);
      assert At(r, h', k, id);
    } else {
      assert forall h', k :: At(r, h', k, id) ==> At(w, h', k, id);
    }
  }

  lemma OpenKeepsInv(w: World, flying: set<nat>, h: Hash)
    requires WorldInv(w, flying)
    ensures WorldInv(w.(chans := w.chans + [Chan(h, [], 0, 0)]), flying + {|w.chans|})
  {
    var r := w.(chans := w.chans + [Chan(h, [], 0, 0)]);
    assert forall id: nat, h', k :: At(r, h', k, id) <==> At(w, h', k, id);
    forall id | 0 <= id < |r.chans| ensures Settled(r, flying + {|w.chans|}, id) {
      if id < |w.chans| {
        assert Settled(w, flying, id);
        assert r.chans[id] == w.chans[id];
        if Listed(w, id) {
          var h', k :| At(w, h', k, id);
          assert At(r, h', k, id);
        }
      }
    }
  }

  lemma RespondKeepsInv(w: World, flying: set<nat>, id: nat, result: Result)
    requires WorldInv(w, flying) && id in flying
    ensures WorldInv(Send(w, id, Delivery(Submitter, result)), flying - {id})
  {
    assert id < |w.chans| && Settled(w, flying, id);
    var r := Send(w, id, Delivery(Submitter, result));
    assert forall i: nat, h, k :: At(r, h, k, i) <==> At(w, h, k, i);
    assert forall h, k :: !At(w, h, k, id);
    forall i | 0 <= i < |r.chans| ensures Settled(r, flying - {id}, i) {
      assert Settled(w, flying, i);
      if i != id {
        assert r.chans[i] == w.chans[i];
        if Listed(w, i) {
          var h, k :| At(w, h, k, i);
          assert At(r, h, k, i);
        }
      }
    }
  }

  lemma AddedAt(w: World, h: Hash, id: nat, now: int, h': Hash, k: nat, i: nat)
    ensures At(Added(w, h, id, now), h', k, i) <==>
            At(w, h', k, i) || (h' == h && i == id && k == if h in w.open then |w.open[h].listeners| else 0)
  {
  }

  lemma AddKeepsInv(w: World, flying: set<nat>, id: nat, now: int)
    requires WorldInv(w, flying) && id in flying && id < |w.chans|
    ensures WorldInv(Added(w, w.chans[id].hash, id, now), flying - {id})
  {
    var h := w.chans[id].hash;
    var r := Added(w, h, id, now);
    assert Settled(w, flying, id);
    assert forall h', k :: !At(w, h', k, id);
    forall i: nat, h', k
      ensures At(r, h', k, i) <==>
              At(w, h', k, i) || (h' == h && i == id && k == if h in w.open then |w.open[h].listeners| else 0)
    {
      AddedAt(w, h, id, now, h', k, i);
    }
    forall i | 0 <= i < |r.chans| ensures Settled(r, flying - {id}, i) {
      assert Settled(w, flying, i);
      if i == id {
        assert At(r, h, if h in w.open then |w.open[h].listeners| else 0, id);
      } else if Listed(w, i) {
        var h', k :| At(w, h', k, i);
        assert At(r, h', k, i);
      }
    }
  }

  lemma ReceiveKeepsInv(w: World, flying: set<nat>, id: nat)
    requires WorldInv(w, flying) && id < |w.chans|
    ensures WorldInv(w.(chans := w.chans[id := Received(w.chans[id])]), flying)
  {
    var r := w.(chans := w.chans[id := Received(w.chans[id])]);
    assert forall i: nat, h, k :: At(r, h, k, i) <==> At(w, h, k, i);
    forall i | 0 <= i < |r.chans| ensures Settled(r, flying, i) {
      assert Settled(w, flying, i);
      if Listed(w, i) {
        var h, k :| At(w, h, k, i);
        assert At(r, h, k, i);
      }
    }
  }

  lemma {:induction false} CleanKeepsInv(w: World, flying: set<nat>, order: seq<Hash>, n: nat, now: int, maxAge: int)
    requires WorldInv(w, flying) && n <= |order|
    ensures WorldInv(Cleaned(w, order, n, now, maxAge), flying)
  {
    if n > 0 {
      CleanKeepsInv(w, flying, order, n - 1, now, maxAge);
      FinishKeepsInv(Cleaned(w, order, n - 1, now, maxAge), flying, order[n - 1], TIMED_OUT);
    }
  }

  lemma HandleKeepsInv(w: World, flying: set<nat>, h: Hash, found: map<Hash, Tx>)
    requires WorldInv(w, flying) && (h in found ==> Matches(found[h], h))
    ensures WorldInv(HandledOne(w, h, found), flying)
  {
    if Answered(found, h) {
      FinishKeepsInv(w, flying, h, Delivery(Ticker, TickResult(found[h]).value));
    }
  }

  lemma StepKeepsInv(s: State, step: Step)
    requires Inv(s) && Enabled(s, step)
    ensures Inv(After(s, step))
  {
    match step {
      case Opens(h) => OpenKeepsInv(s.world, s.flying, h);
      case Responds(id, r) => RespondKeepsInv(s.world, s.flying, id, r);
      case Adds(id, now) => AddKeepsInv(s.world, s.flying, id, now);
      case TickBegins(_) =>
      case TickAborts =>
      case TickLoads(txs) =>
        forall h | h in TxMap(txs, |txs|) ensures Matches(TxMap(txs, |txs|)[h], h) {
          TxMapFinds(txs, |txs|, h);
        }
      case TickHandles => HandleKeepsInv(s.world, s.flying, s.tick.pending[s.tick.next], s.tick.found);
      case TickCleans(order, now, maxAge) => CleanKeepsInv(s.world, s.flying, order, |order|, now, maxAge);
      case Receives(id) => ReceiveKeepsInv(s.world, s.flying, id);
    }
  }

  ghost predicate Possible(s: State, steps: seq<Step>)
    decreases |steps|
  {
    steps == [] || (Enabled(s, steps[0]) && Possible(After(s, steps[0]), steps[1..]))
  }

  ghost function Play(s: State, steps: seq<Step>): State
    requires Possible(s, steps)
    decreases |steps|
  {
    if steps == [] then s else Play(After(s, steps[0]), steps[1..])
  }

  lemma {:induction false} RunKeepsInv(s: State, steps: seq<Step>)
    requires Inv(s) && Possible(s, steps)
    ensures Inv(Play(s, steps))
    decreases |steps|
  {
    if steps != [] {
      StepKeepsInv(s, steps[0]);
      RunKeepsInv(After(s, steps[0]), steps[1..]);
    }
  }

  /**
   * Over every interleaving: no send blocks and no closed channel is used; and each channel is undecided, waits on the
   * list exactly once under the hash it was made for, or got exactly one result and was closed exactly once.
   */
  lemma DeliveredExactlyOnce(steps: seq<Step>, id: nat)
    requires Possible(INIT, steps) && id < |Play(INIT, steps).world.chans|
    ensures !Play(INIT, steps).world.stuck
    ensures var s := Play(INIT, steps);
            var c := s.world.chans[id];
            || (id in s.flying && Waiting(c) && !Listed(s.world, id))
            || (id !in s.flying && Waiting(c) && exists k ::
                  At(s.world, c.hash, k, id) && forall h', k' :: At(s.world, h', k', id) ==> h' == c.hash && k' == k)
            || (id !in s.flying && !Listed(s.world, id) && Done(c))
  {
    assert Inv(INIT);
    RunKeepsInv(INIT, steps);
    var s := Play(INIT, steps);
    assert Settled(s.world, s.flying, id);
    if Listed(s.world, id) {
      var h, k :| At(s.world, h, k, id);
      assert At(s.world, s.world.chans[id].hash, k, id);
    }
  }

  /** No step touches what an earlier one delivered. */
  ghost predicate Preserves(w: World, r: World) {
    |w.chans| <= |r.chans| && forall id :: 0 <= id < |w.chans| ==>
      r.chans[id].hash == w.chans[id].hash && (Done(w.chans[id]) ==> r.chans[id].sent == w.chans[id].sent)
  }

  lemma FinishPreserves(w: World, flying: set<nat>, h: Hash, d: Delivery)
    requires WorldInv(w, flying)
    ensures Preserves(w, Finished(w, h, d))
  {
    if h in w.open {
      FinishedWorld(w, flying, h, d);
      var ls := w.open[h].listeners;
      forall id | 0 <= id < |w.chans| && id in ls ensures !Done(w.chans[id]) {
        var k :| 0 <= k < |ls| && ls[k] == id;
        assert At(w, h, k, id);
      }
    }
  }

  lemma {:induction false} CleanPreserves(w: World, flying: set<nat>, order: seq<Hash>, n: nat, now: int, maxAge: int)
    requires WorldInv(w, flying) && n <= |order|
    ensures Preserves(w, Cleaned(w, order, n, now, maxAge))
  {
    if n > 0 {
      CleanPreserves(w, flying, order, n - 1, now, maxAge);
      CleanKeepsInv(w, flying, order, n - 1, now, maxAge);
      var before := Cleaned(w, order, n - 1, now, maxAge);
      FinishPreserves(before, flying, order[n - 1], TIMED_OUT);
      assert forall id :: 0 <= id < |w.chans| && Done(w.chans[id]) ==> Done(before.chans[id]) by {
        CleanKeepsDone(w, flying, before);
      }
    }
  }

  lemma CleanKeepsDone(w: World, flying: set<nat>, r: World)
    requires WorldInv(w, flying) && WorldInv(r, flying) && Preserves(w, r)
    ensures forall id :: 0 <= id < |w.chans| && Done(w.chans[id]) ==> Done(r.chans[id])
  {
    forall id | 0 <= id < |w.chans| && Done(w.chans[id]) ensures Done(r.chans[id]) {
      assert Settled(r, flying, id) && r.chans[id].sent == w.chans[id].sent;
    }
  }

  lemma StepPreserves(s: State, step: Step)
    requires Inv(s) && Enabled(s, step)
    ensures Preserves(s.world, After(s, step).world)
  {
    match step {
      case Responds(id, r) => assert Settled(s.world, s.flying, id);
      case TickHandles =>
        var h := s.tick.pending[s.tick.next];
        if Answered(s.tick.found, h) {
          FinishPreserves(s.world, s.flying, h, Delivery(Ticker, TickResult(s.tick.found[h]).value));
        }
      case TickCleans(order, now, maxAge) => CleanPreserves(s.world, s.flying, order, |order|, now, maxAge);
      case _ =>
    }
  }

  /** A delivered result never changes, whatever happens afterwards. */
  lemma {:induction false} ResultsAreFinal(s: State, steps: seq<Step>, id: nat)
    requires Inv(s) && Possible(s, steps) && id < |s.world.chans| && Done(s.world.chans[id])
    ensures id < |Play(s, steps).world.chans| && Play(s, steps).world.chans[id].sent == s.world.chans[id].sent
    decreases |steps|
  {
    if steps != [] {
      StepKeepsInv(s, steps[0]);
      StepPreserves(s, steps[0]);
      var next := After(s, steps[0]);
      assert Settled(next.world, next.flying, id);
      ResultsAreFinal(next, steps[1..], id);
    }
  }

  lemma {:induction false} CleanDelivers(
    w: World, flying: set<nat>, order: seq<Hash>, n: nat, now: int, maxAge: int, id: nat)
    requires WorldInv(w, flying) && n <= |order| && id < |w.chans|
    ensures var r := Cleaned(w, order, n, now, maxAge);
            id < |r.chans| && (r.chans[id] == w.chans[id] || r.chans[id] == Delivered(w.chans[id], TIMED_OUT))
  {
    if n > 0 {
      CleanDelivers(w, flying, order, n - 1, now, maxAge, id);
      CleanKeepsInv(w, flying, order, n - 1, now, maxAge);
      var before := Cleaned(w, order, n - 1, now, maxAge);
      var h := order[n - 1];
      if h in before.open {
        FinishedWorld(before, flying, h, TIMED_OUT);
        var ls := before.open[h].listeners;
        if k :| 0 <= k < |ls| && ls[k] == id {
          assert At(before, h, k, id);
        }
      }
    }
  }

  /** The clean-up of a tick answers every listener of an expired submission, with a timeout. */
  lemma ExpiredAreAnswered(s: State, order: seq<Hash>, now: int, maxAge: int, h: Hash, k: nat, id: nat)
    requires Inv(s) && Enabled(s, TickCleans(order, now, maxAge))
    requires At(s.world, h, k, id) && now - s.world.open[h].at > maxAge
    ensures var r := After(s, TickCleans(order, now, maxAge)).world;
            && id < |r.chans| && !Listed(r, id) && r.chans[id].closed == 1
            && r.chans[id].sent == [Delivery(Cleaner, Result(None, Some(Timeout)))]
  {
    var w := s.world;
    var r := Cleaned(w, order, |order|, now, maxAge);
    assert Settled(w, s.flying, id);
    CleanKeepsInv(w, s.flying, order, |order|, now, maxAge);
    CleanDelivers(w, s.flying, order, |order|, now, maxAge, id);
    CleanedOpen(w, order, |order|, now, maxAge);
    assert order[..|order|] == order;
    assert h !in r.open;
    assert forall h', k' :: At(r, h', k', id) ==> At(w, h', k', id);
    assert Settled(r, s.flying, id);
  }

  /**
   * Tick answers every listener of the hash it handles with the transaction it found, exactly once: without error when
   * the transaction was successful, as failed when it was not.
   */
  lemma FoundAreAnswered(s: State, k: nat, id: nat)
    requires Inv(s) && Enabled(s, TickHandles)
    requires var h := s.tick.pending[s.tick.next];
             At(s.world, h, k, id) && h in s.tick.found && s.tick.found[h].readable
    ensures var r := After(s, TickHandles).world;
            var tx := s.tick.found[s.tick.pending[s.tick.next]];
            && id < |r.chans| && |r.chans[id].sent| == 1 && r.chans[id].closed == 1 && !Listed(r, id)
            && Matches(tx, r.chans[id].hash)
            && r.chans[id].sent[0].result.tx == Some(tx)
            && r.chans[id].sent[0].result.err == if tx.successful then None else Some(FailedTransaction)
  {
    var h := s.tick.pending[s.tick.next];
    FinishedWorld(s.world, s.flying, h, Delivery(Ticker, TickResult(s.tick.found[h]).value));
    assert Waiting(s.world.chans[id]);
    var r := After(s, TickHandles).world;
    assert forall h', k' :: At(r, h', k', id) ==> At(s.world, h', k', id);
  }

  /** A hash without a stored transaction, or with an unreadable one, is left alone: nobody is answered. */
  lemma OthersStayPending(s: State)
    requires Enabled(s, TickHandles)
    requires var h := s.tick.pending[s.tick.next]; h in s.tick.found ==> !s.tick.found[h].readable
    ensures After(s, TickHandles).world == s.world
  {
  }
}
