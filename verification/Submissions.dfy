/**
 * Transaction submission: the list of open submissions, the channels their results are sent on,
 * and the tick that answers them.
 */
module Submissions {
  import opened Network

  type Hash = string

  /** A stored transaction; `readable` and `successful` describe its result XDR. */
  datatype Tx = Tx(hash: Hash, inner: Option<Hash>, readable: bool, successful: bool)

  datatype Error = NoResults | BadSequence | Timeout | FailedTransaction | Other(code: nat)

  datatype Result = Result(tx: Option<Tx>, err: Option<Error>)

  datatype Sender = Submitter | Ticker | Cleaner

  datatype Delivery = Delivery(sender: Sender, result: Result)

  /** A channel of capacity one, made by a submission of transaction `hash`. */
  datatype Chan = Chan(hash: Hash, sent: seq<Delivery>, received: nat, closed: nat)

  datatype Open = Open(at: int, listeners: seq<nat>)

  /** All channels ever made and the open submissions; `stuck` once a send blocked or a closed channel was used. */
  datatype World = World(chans: seq<Chan>, open: map<Hash, Open>, stuck: bool)

  predicate Matches(tx: Tx, h: Hash) {
    tx.hash == h || tx.inner == Some(h)
  }

  /** Send `d` on channel `id`, then close it. */
  function Send(w: World, id: nat, d: Delivery): World {
    if id >= |w.chans| || w.chans[id].closed > 0 || |w.chans[id].sent| > w.chans[id].received
    then w.(stuck := true)
    else var c := w.chans[id];
         w.(chans := w.chans[id := c.(sent := c.sent + [d], closed := c.closed + 1)])
  }

  /** Send `d` to the first `n` listeners. */
  function SendFirst(w: World, listeners: seq<nat>, n: nat, d: Delivery): World
    requires n <= |listeners|
  {
    if n == 0 then w else Send(SendFirst(w, listeners, n - 1, d), listeners[n - 1], d)
  }

  function Added(w: World, h: Hash, id: nat, now: int): World {
    var submission :=
      if h in w.open then w.open[h].(listeners := w.open[h].listeners + [id]) else Open(now, [id]);
    w.(open := w.open[h := submission])
  }

  function Finished(w: World, h: Hash, d: Delivery): World {
    if h !in w.open then w
    else var sent := SendFirst(w, w.open[h].listeners, |w.open[h].listeners|, d);
         sent.(open := w.open - {h})
  }

  const TIMED_OUT := Delivery(Cleaner, Result(None, Some(Timeout)))

  /** Clean after visiting the first `n` hashes of the iteration order. */
  function Cleaned(w: World, order: seq<Hash>, n: nat, now: int, maxAge: int): World
    requires n <= |order|
  {
    if n == 0 then w
    else var before := Cleaned(w, order, n - 1, now, maxAge);
         var h := order[n - 1];
         if h in before.open && now - before.open[h].at > maxAge then Finished(before, h, TIMED_OUT) else before
  }

  /** `order` lists the keys of `open`, each once. */
  ghost predicate Enumerates(order: seq<Hash>, open: map<Hash, Open>) {
    && (forall i, j :: 0 <= i < j < |order| ==> order[i] != order[j])
    && (forall i :: 0 <= i < |order| ==> order[i] in open)
    && forall h :: h in open ==> h in order
  }

  /** submissionList, with the channels its listeners refer to. */
  class SubmissionList {
    var chans: seq<Chan>
    var submissions: map<Hash, Open>
    var stuck: bool

    function Contents(): World
      reads this
    {
      World(chans, submissions, stuck)
    }

    constructor ()
      ensures Contents() == World([], map[], false)
    {
      chans, submissions, stuck := [], map[], false;
    }

    method MakeChannel(hash: Hash) returns (id: nat)
      modifies this`chans
      ensures id == old(|chans|) && chans == old(chans) + [Chan(hash, [], 0, 0)]
    {
      id := |chans|;
      chans := chans + [Chan(hash, [], 0, 0)];
    }

    method SendAndClose(id: nat, d: Delivery)
      modifies this`chans, this`stuck
      ensures Contents() == Send(old(Contents()), id, d)
    {
      if id >= |chans| || chans[id].closed > 0 || |chans[id].sent| > chans[id].received {
        stuck := true;
        return;
      }
      var c := chans[id];
      chans := chans[id := c.(sent := c.sent + [d])];
      chans := chans[id := chans[id].(closed := chans[id].closed + 1)];
    }

    /** A submission keeps the time of its first listener, however many join it. */
    method Add(hash: Hash, l: nat, now: int)
      modifies this`submissions
      ensures Contents() == Added(old(Contents()), hash, l, now)
      ensures hash in submissions && submissions - {hash} == old(submissions) - {hash}
      ensures hash in old(submissions) ==>
        submissions[hash] == Open(old(submissions)[hash].at, old(submissions)[hash].listeners + [l])
      ensures hash !in old(submissions) ==> submissions[hash] == Open(now, [l])
    {
      if hash !in submissions {
        submissions := submissions[hash := Open(now, [])];
      }
      var os := submissions[hash];
      submissions := submissions[hash := os.(listeners := os.listeners + [l])];
      assert submissions == Added(old(Contents()), hash, l, now).open by {
        assert [] + [l] == [l];
      }
    }

    method SendAll(listeners: seq<nat>, d: Delivery)
      modifies this`chans, this`stuck
      ensures Contents() == SendFirst(old(Contents()), listeners, |listeners|, d)
    {
      for i := 0 to |listeners|
        invariant Contents() == SendFirst(old(Contents()), listeners, i, d)
      {
        SendAndClose(listeners[i], d);
      }
    }

    method Finish(hash: Hash, d: Delivery)
      modifies this
      ensures Contents() == Finished(old(Contents()), hash, d)
    {
      if hash !in submissions {
        return;
      }
      SendAll(submissions[hash].listeners, d);
      submissions := submissions - {hash};
    }

    /** Clean; `order` is the order in which the map is ranged over. */
    method Clean(order: seq<Hash>, now: int, maxAge: int) returns (remaining: nat)
      requires Enumerates(order, submissions)
      modifies this
      ensures Contents() == Cleaned(old(Contents()), order, |order|, now, maxAge)
      ensures remaining == |submissions|
    {
      for i := 0 to |order|
        invariant Contents() == Cleaned(old(Contents()), order, i, now, maxAge)
      {
        var h := order[i];
        if h in submissions && now - submissions[h].at > maxAge {
          var listeners := submissions[h].listeners;
          SendFirstIgnoresOpen(Contents(), listeners, |listeners|, TIMED_OUT, submissions - {h});
          submissions := submissions - {h};
          SendAll(listeners, TIMED_OUT);
        }
      }
      remaining := |submissions|;
    }

    method Pending() returns (results: seq<Hash>)
      ensures Enumerates(results, submissions)
    {
      results := [];
      var rest := submissions.Keys;
      while rest != {}
        invariant rest <= submissions.Keys
        invariant forall i, j :: 0 <= i < j < |results| ==> results[i] != results[j]
        invariant forall i :: 0 <= i < |results| ==> results[i] in submissions && results[i] !in rest
        invariant forall h :: h in submissions && h !in rest ==> h in results
        decreases rest
      {
        var h :| h in rest;
        results := results + [h];
        rest := rest - {h};
      }
    }
  }

  lemma {:induction false} SendFirstIgnoresOpen(
    w: World, listeners: seq<nat>, n: nat, d: Delivery, open: map<Hash, Open>)
    requires n <= |listeners|
    ensures SendFirst(w.(open := open), listeners, n, d) == SendFirst(w, listeners, n, d).(open := open)
    ensures SendFirst(w, listeners, n, d).open == w.open
  {
    if n > 0 {
      SendFirstIgnoresOpen(w, listeners, n - 1, d, open);
    }
  }

  /** Tick's index of the loaded transactions by outer and inner hash, after the first `n`. */
  function TxMap(txs: seq<Tx>, n: nat): map<Hash, Tx>
    requires n <= |txs|
  {
    if n == 0 then map[]
    else var outer := TxMap(txs, n - 1)[txs[n - 1].hash := txs[n - 1]];
         if txs[n - 1].inner.Some? then outer[txs[n - 1].inner.value := txs[n - 1]] else outer
  }

  /** The index answers a hash exactly when a loaded transaction carries it, with the last such transaction. */
  lemma {:induction false} TxMapFinds(txs: seq<Tx>, n: nat, h: Hash)
    requires n <= |txs|
    ensures h in TxMap(txs, n) <==> exists i :: 0 <= i < n && Matches(txs[i], h)
    ensures h in TxMap(txs, n) ==>
      exists i :: 0 <= i < n && Matches(txs[i], h) && TxMap(txs, n)[h] == txs[i]
                  && forall j :: i < j < n ==> !Matches(txs[j], h)
  {
    if n > 0 {
      TxMapFinds(txs, n - 1, h);
      if Matches(txs[n - 1], h) {
        assert TxMap(txs, n)[h] == txs[n - 1];
      }
    }
  }

  /** What tick sends for a stored transaction, if anything. */
  function TickResult(tx: Tx): Option<Result> {
    if !tx.readable then None
    else Some(Result(Some(tx), if tx.successful then None else Some(FailedTransaction)))
  }

  predicate Answered(found: map<Hash, Tx>, h: Hash) {
    h in found && found[h].readable
  }

  function HandledOne(w: World, h: Hash, found: map<Hash, Tx>): World {
    if Answered(found, h) then Finished(w, h, Delivery(Ticker, TickResult(found[h]).value)) else w
  }

  function Handled(w: World, pending: seq<Hash>, n: nat, found: map<Hash, Tx>): World
    requires n <= |pending|
  {
    if n == 0 then w else HandledOne(Handled(w, pending, n - 1, found), pending[n - 1], found)
  }

  lemma FinishedOpen(w: World, h: Hash, d: Delivery)
    ensures Finished(w, h, d).open == w.open - {h}
  {
    if h in w.open {
      SendFirstIgnoresOpen(w, w.open[h].listeners, |w.open[h].listeners|, d, w.open);
    }
  }

  lemma {:induction false} HandledOpen(w: World, pending: seq<Hash>, n: nat, found: map<Hash, Tx>)
    requires n <= |pending|
    ensures Handled(w, pending, n, found).open ==
            map h | h in w.open && !(Answered(found, h) && h in pending[..n]) :: w.open[h]
  {
    if n > 0 {
      HandledOpen(w, pending, n - 1, found);
      assert pending[..n] == pending[..n - 1] + [pending[n - 1]];
      var before := Handled(w, pending, n - 1, found);
      if Answered(found, pending[n - 1]) {
        FinishedOpen(before, pending[n - 1], Delivery(Ticker, TickResult(found[pending[n - 1]]).value));
      }
    }
  }

  lemma {:induction false} CleanedOpen(w: World, order: seq<Hash>, n: nat, now: int, maxAge: int)
    requires n <= |order|
    ensures Cleaned(w, order, n, now, maxAge).open ==
            map h | h in w.open && !(now - w.open[h].at > maxAge && h in order[..n]) :: w.open[h]
  {
    if n > 0 {
      CleanedOpen(w, order, n - 1, now, maxAge);
      assert order[..n] == order[..n - 1] + [order[n - 1]];
      FinishedOpen(Cleaned(w, order, n - 1, now, maxAge), order[n - 1], TIMED_OUT);
    }
  }

  datatype Lookup = Lookup(tx: Option<Tx>, err: Option<Error>)

  datatype CoreResponse = Accepted | Rejected(err: Error, isBadSeq: bool, decodeErr: Option<Error>)

  /** The result Submit sends itself; None when it leaves the channel on the open list. */
  function Decision(seqNum: int, minSeqNum: Option<int>, first: Lookup, core: CoreResponse, waitErr: Option<Error>,
                    second: Lookup): Option<Result>
  {
    if seqNum < 0 || (minSeqNum.Some? && (minSeqNum.value < 0 || minSeqNum.value >= seqNum))
    then Some(Result(None, Some(BadSequence)))
    else if first.err != Some(NoResults) then Some(Result(first.tx, first.err))
    else if core.Accepted? then None
    else if core.decodeErr.Some? then Some(Result(None, core.decodeErr))
    else if !core.isBadSeq then Some(Result(None, Some(core.err)))
    else if waitErr.Some? then Some(Result(None, waitErr))
    else if second.err.Some? then Some(Result(None, Some(core.err)))
    else Some(Result(second.tx, None))
  }

  lemma SendOnNewest(w: World, hash: Hash)
    ensures forall d :: Send(w.(chans := w.chans + [Chan(hash, [], 0, 0)]), |w.chans|, d)
                        == w.(chans := w.chans + [Chan(hash, [d], 0, 1)])
  {
    forall d: Delivery
      ensures Send(w.(chans := w.chans + [Chan(hash, [], 0, 0)]), |w.chans|, d)
              == w.(chans := w.chans + [Chan(hash, [d], 0, 1)])
    {
      assert [] + [d] == [d];
      assert (w.chans + [Chan(hash, [], 0, 0)])[|w.chans| := Chan(hash, [d], 0, 1)]
             == w.chans + [Chan(hash, [d], 0, 1)];
    }
  }

  /** Tick looks at the last 60 ledgers, or at all of them. */
  function Since(latest: nat): (since: nat)
    ensures since <= latest <= since + 60 && (since > 0 ==> latest == since + 60)
  {
    if latest < 60 then 0 else latest - 60
  }

  function Unanswered(open: map<Hash, Open>, found: map<Hash, Tx>): map<Hash, Open> {
    map h | h in open && !Answered(found, h) :: open[h]
  }

  function Young(open: map<Hash, Open>, now: int, maxAge: int): map<Hash, Open> {
    map h | h in open && now - open[h].at <= maxAge :: open[h]
  }

  /** The sequence numbers make sense. */
  predicate ValidSequence(seqNum: int, minSeqNum: Option<int>) {
    0 <= seqNum && (minSeqNum.Some? ==> 0 <= minSeqNum.value < seqNum)
  }

  /** The transaction is not stored yet, so Submit hands it to core. */
  predicate Unknown(first: Lookup) {
    first.err == Some(NoResults)
  }

  /** Core rejects the transaction with a readable bad-sequence error, and the account's sequence catches up. */
  predicate CaughtUp(core: CoreResponse, waitErr: Option<Error>) {
    core.Rejected? && core.decodeErr.None? && core.isBadSeq && waitErr.None?
  }

  /** Submit answers without error exactly when a lookup finds the transaction, and then with what it found. */
  lemma AnsweredWithoutError(seqNum: int, minSeqNum: Option<int>, first: Lookup, core: CoreResponse,
                             waitErr: Option<Error>, second: Lookup)
    ensures var d := Decision(seqNum, minSeqNum, first, core, waitErr, second);
            var found, later := first.err.None?, Unknown(first) && CaughtUp(core, waitErr) && second.err.None?;
            && (d.Some? && d.value.err.None? <==> ValidSequence(seqNum, minSeqNum) && (found || later))
            && (d.Some? && d.value.err.None? ==> d.value.tx == if found then first.tx else second.tx)
  {
  }

  /** Otherwise the result carries the error of the call that stopped the submission. */
  lemma AnsweredWithError(seqNum: int, minSeqNum: Option<int>, first: Lookup, core: CoreResponse,
                          waitErr: Option<Error>, second: Lookup)
    ensures var d := Decision(seqNum, minSeqNum, first, core, waitErr, second);
            var submitted := ValidSequence(seqNum, minSeqNum) && Unknown(first) && core.Rejected?;
            && (!ValidSequence(seqNum, minSeqNum) ==> d == Some(Result(None, Some(BadSequence))))
            && (ValidSequence(seqNum, minSeqNum) && first.err.Some? && !Unknown(first) ==>
                  d == Some(Result(first.tx, first.err)))
            && (submitted && core.decodeErr.Some? ==> d == Some(Result(None, core.decodeErr)))
            && (submitted && core.decodeErr.None? && !core.isBadSeq ==> d == Some(Result(None, Some(core.err))))
            && (submitted && core.decodeErr.None? && core.isBadSeq && waitErr.Some? ==>
                  d == Some(Result(None, waitErr)))
            && (submitted && CaughtUp(core, waitErr) && second.err.Some? ==> d == Some(Result(None, Some(core.err))))
  {
  }

  class System {
    const list: SubmissionList
    const timeout: int
    var tickInProgress: bool

    constructor (timeout: int)
      ensures fresh(list) && list.Contents() == World([], map[], false) && !tickInProgress && this.timeout == timeout
    {
      list := new SubmissionList();
      this.timeout := timeout;
      tickInProgress := false;
    }

    method Respond(id: nat, r: Result)
      modifies list`chans, list`stuck
      ensures list.Contents() == Send(old(list.Contents()), id, Delivery(Submitter, r))
    {
      list.SendAndClose(id, Delivery(Submitter, r));
    }

    /** The new channel gets one result and is closed, or waits on the open list under its hash, and never both. */
    method Submit(hash: Hash, seqNum: int, minSeqNum: Option<int>, first: Lookup, core: CoreResponse,
                  waitErr: Option<Error>, second: Lookup, now: int) returns (id: nat)
      modifies list
      ensures id == old(|list.chans|) && list.stuck == old(list.stuck)
      ensures |list.chans| == id + 1 && list.chans[..id] == old(list.chans) && list.chans[id].hash == hash
      // The channel waits on the list exactly when core accepted a well-formed transaction that is not stored yet.
      ensures var waits := ValidSequence(seqNum, minSeqNum) && Unknown(first) && core.Accepted?;
              && (waits <==> list.chans[id] == Chan(hash, [], 0, 0))
              && (!waits ==> |list.chans[id].sent| == 1 && list.chans[id].closed == 1)
              && list.submissions == if waits then Added(old(list.Contents()), hash, id, now).open
                                     else old(list.submissions)
      // A result without error is what one of the two lookups found.
      ensures list.chans[id].sent != [] && list.chans[id].sent[0].result.err.None? <==>
        ValidSequence(seqNum, minSeqNum)
        && (first.err.None? || (Unknown(first) && CaughtUp(core, waitErr) && second.err.None?))
      ensures list.chans[id].sent != [] && list.chans[id].sent[0].result.err.None? ==>
        list.chans[id].sent[0].result.tx == if first.err.None? then first.tx else second.tx
      // Every result is the one decided by the call that stopped the submission.
      ensures list.chans[id].sent != [] ==>
        Decision(seqNum, minSeqNum, first, core, waitErr, second) == Some(list.chans[id].sent[0].result)
    {
      AnsweredWithoutError(seqNum, minSeqNum, first, core, waitErr, second);
      id := Process(hash, seqNum, minSeqNum, first, core, waitErr, second, now);
    }

    method Process(hash: Hash, seqNum: int, minSeqNum: Option<int>, first: Lookup, core: CoreResponse,
                   waitErr: Option<Error>, second: Lookup, now: int) returns (id: nat)
      modifies list
      ensures id == old(|list.chans|) && list.stuck == old(list.stuck)
      ensures var d := Decision(seqNum, minSeqNum, first, core, waitErr, second);
              && list.chans == old(list.chans) +
                 [if d.Some? then Chan(hash, [Delivery(Submitter, d.value)], 0, 1) else Chan(hash, [], 0, 0)]
              && list.submissions == if d.Some? then old(list.submissions)
                                     else Added(old(list.Contents()), hash, id, now).open
    {
      SendOnNewest(list.Contents(), hash);
      id := list.MakeChannel(hash);
      if seqNum < 0 || (minSeqNum.Some? && (minSeqNum.value < 0 || minSeqNum.value >= seqNum)) {
        Respond(id, Result(None, Some(BadSequence)));
        return;
      }
      if first.err.None? {
        Respond(id, Result(first.tx, None));
        return;
      }
      if first.err.value != NoResults {
        Respond(id, Result(first.tx, first.err));
        return;
      }
      if core.Rejected? {
        if core.decodeErr.Some? {
          Respond(id, Result(None, core.decodeErr));
          return;
        }
        if !core.isBadSeq {
          Respond(id, Result(None, Some(core.err)));
          return;
        }
        if waitErr.Some? {
          Respond(id, Result(None, waitErr));
          return;
        }
        if second.err.Some? {
          Respond(id, Result(None, Some(core.err)));
          return;
        }
        Respond(id, Result(second.tx, None));
        return;
      }
      list.Add(hash, id, now);
    }

    method IndexByHash(txs: seq<Tx>) returns (found: map<Hash, Tx>)
      ensures found == TxMap(txs, |txs|)
    {
      found := map[];
      for i := 0 to |txs|
        invariant found == TxMap(txs, i)
      {
        found := found[txs[i].hash := txs[i]];
        if txs[i].inner.Some? {
          found := found[txs[i].inner.value := txs[i]];
        }
      }
    }

    method FinishFound(pending: seq<Hash>, found: map<Hash, Tx>)
      modifies list
      ensures list.Contents() == Handled(old(list.Contents()), pending, |pending|, found)
    {
      for i := 0 to |pending|
        invariant list.Contents() == Handled(old(list.Contents()), pending, i, found)
      {
        var hash := pending[i];
        if hash !in found {
          continue;
        }
        var tx := found[hash];
        if tx.readable && tx.successful {
          list.Finish(hash, Delivery(Ticker, Result(Some(tx), None)));
          continue;
        }
        if tx.readable {
          list.Finish(hash, Delivery(Ticker, Result(Some(tx), Some(FailedTransaction))));
          continue;
        }
      }
    }

    /** The tail of Tick: time out what is too old. */
    method CleanExpired(now: int) returns (order: seq<Hash>, stillOpen: nat)
      modifies list
      ensures Enumerates(order, old(list.submissions))
      ensures list.Contents() == Cleaned(old(list.Contents()), order, |order|, now, timeout)
      ensures list.submissions == Young(old(list.submissions), now, timeout)
      ensures stillOpen == |list.submissions|
    {
      order := list.Pending();
      CleanedOpen(list.Contents(), order, |order|, now, timeout);
      assert order[..|order|] == order;
      stillOpen := list.Clean(order, now, timeout);
    }

    /** The middle of Tick: look the pending hashes up and answer those found. */
    method AnswerPending(latest: Option<nat>, load: (seq<Hash>, nat) -> Option<seq<Tx>>)
      returns (pending: seq<Hash>, found: map<Hash, Tx>, ok: bool)
      modifies list
      ensures Enumerates(pending, old(list.submissions))
      ensures !ok ==> list.Contents() == old(list.Contents())
      ensures ok <==> pending == [] || (latest.Some? && load(pending, Since(latest.value)).Some?)
      ensures ok && pending != [] ==>
        var txs := load(pending, Since(latest.value)).value; found == TxMap(txs, |txs|)
      ensures ok ==> list.Contents() == Handled(old(list.Contents()), pending, |pending|, found)
      ensures ok ==> list.submissions == Unanswered(old(list.submissions), found)
    {
      pending := list.Pending();
      found, ok := map[], true;
      HandledOpen(list.Contents(), pending, |pending|, found);
      if |pending| > 0 {
        if latest.None? {
          ok := false;
          return;
        }
        var since := latest.value - 60;
        if since < 0 {
          since := 0;
        }
        var txs := load(pending, since);
        if txs.None? {
          ok := false;
          return;
        }
        found := IndexByHash(txs.value);
        HandledOpen(list.Contents(), pending, |pending|, found);
        assert pending[..|pending|] == pending;
        FinishFound(pending, found);
      }
    }

    /**
     * One uninterrupted tick; `load` is the transactions query, None when it fails. Exactly the submissions with a
     * readable stored transaction or past their timeout leave the list.
     */
    method Tick(begun: bool, latest: Option<nat>, load: (seq<Hash>, nat) -> Option<seq<Tx>>, now: int)
      returns (pending: seq<Hash>, found: map<Hash, Tx>, order: seq<Hash>, ran: bool)
      modifies this, list
      ensures tickInProgress == old(tickInProgress)
      ensures !ran ==> list.Contents() == old(list.Contents())
      ensures ran ==> Enumerates(pending, old(list.submissions))
      ensures ran ==> !old(tickInProgress) && begun
      ensures ran && pending != [] ==>
        && latest.Some? && load(pending, Since(latest.value)).Some?
        && var txs := load(pending, Since(latest.value)).value; found == TxMap(txs, |txs|)
      ensures ran ==>
        list.Contents() ==
        Cleaned(Handled(old(list.Contents()), pending, |pending|, found), order, |order|, now, timeout)
      ensures ran ==> list.submissions == Young(Unanswered(old(list.submissions), found), now, timeout)
      ensures !old(tickInProgress) && begun && latest.Some? && (forall hs, l :: load(hs, l).Some?) ==> ran
    {
      pending, found, order, ran := [], map[], [], false;
      if tickInProgress {
        return;
      }
      tickInProgress := true;
      if !begun {
        tickInProgress := false;
        return;
      }
      pending, found, ran := AnswerPending(latest, load);
      if ran {
        var stillOpen;
        order, stillOpen := CleanExpired(now);
      }
      tickInProgress := false;
    }
  }
}
