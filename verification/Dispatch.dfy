/** Delivery to one destination: one chunk is sent with retries, its deterministic rejections go to the
    dead-letter table, and a batch is sent chunk by chunk. What the sink, the breaker, the clock and the
    database do at each attempt is an arbitrary function of the attempt. */
module Dispatch {
  import opened Options
  import opened Chunking
  import opened DeadLetters

  datatype DeliveryResult = DeliveryResult(accepted: nat, rejected: seq<Rejected>, retryable: bool)

  /** `took` is what the sink really kept, by position in the chunk; the sender sees only the result. */
  datatype Reply = Timeout | Raised | Answer(result: DeliveryResult, took: set<nat>)

  /** The elapsed time and the breaker as found before an attempt, the reply, and the fate of the
      dead-letter write that may follow. */
  datatype Attempt = Attempt(elapsedMs: nat, breakerOpen: bool, reply: Reply, dlq: Fault)

  datatype Retry = Retry(enabled: bool, maxRetries: nat, maxElapsedMs: nat)

  datatype Verdict = Delivered | Transient | Denied | Crashed

  /** How a chunk ended: after how many sends, with how many failures told to the breaker, and whether
      it was told of a success. */
  datatype Outcome = Outcome(verdict: Verdict, sends: nat, failures: nat, healed: bool)

  /** Sending from attempt `k` on. */
  function SendFrom(cfg: Retry, sink: nat -> Attempt, k: nat, failures: nat): Outcome
    decreases (if cfg.enabled then cfg.maxRetries else 0) + 1 - k
  {
    var a := sink(k);
    var last := if cfg.enabled then cfg.maxRetries else 0;
    if k > last || (k > 0 && cfg.maxElapsedMs > 0 && a.elapsedMs >= cfg.maxElapsedMs)
    then Outcome(Transient, k, failures, false)
    else if a.breakerOpen then Outcome(Denied, k, failures, false)
    else
      match a.reply
      case Raised => Outcome(Crashed, k + 1, failures, false)
      case Timeout =>
        if k >= last then Outcome(Transient, k + 1, failures + 1, false)
        else SendFrom(cfg, sink, k + 1, failures + 1)
      case Answer(result, _) =>
        if result.rejected != [] && !result.retryable && !a.dlq.NoFault? then Outcome(Transient, k + 1, failures, false)
        else if !result.retryable then Outcome(Delivered, k + 1, failures, result.accepted > 0)
        else if result.accepted > 0 || result.rejected != [] || k >= last
        then Outcome(Transient, k + 1, failures + 1, false)
        else SendFrom(cfg, sink, k + 1, failures + 1)
  }

  function Sent(cfg: Retry, sink: nat -> Attempt): Outcome {
    SendFrom(cfg, sink, 0, 0)
  }

  /** Only the last answer can have been written to the dead-letter table. */
  function RowsAfter(rows: map<Key, Row>, dest: Destination, chunk: seq<Event>, sink: nat -> Attempt,
      o: Outcome): map<Key, Row>
  {
    if o.sends > 0 && Rejects(sink(o.sends - 1).reply)
    then Written(rows, RejectedEntries(dest, sink(o.sends - 1).reply.result.rejected, chunk), sink(o.sends - 1).dlq)
    else rows
  }

  // ---- What attempts and replies are ----

  function MaxRetries(cfg: Retry): nat {
    if cfg.enabled then cfg.maxRetries else 0
  }

  /** The time for retries is used up before this attempt. */
  predicate OverBudget(cfg: Retry, attempt: nat, elapsedMs: nat) {
    attempt > 0 && cfg.maxElapsedMs > 0 && elapsedMs >= cfg.maxElapsedMs
  }

  /** A definite answer that rejects something. */
  predicate Rejects(reply: Reply) {
    reply.Answer? && reply.result.rejected != [] && !reply.result.retryable
  }

  /** A whole-chunk resend cannot duplicate anything the reply reported. */
  predicate MayResend(reply: Reply) {
    reply.Timeout?
    || (reply.Answer? && reply.result.retryable && reply.result.accepted == 0 && reply.result.rejected == [])
  }

  method SendChunkWithRetry(table: Table, dest: Destination, chunk: seq<Event>, cfg: Retry, sink: nat -> Attempt)
    returns (o: Outcome, result: Option<DeliveryResult>)
    modifies table
    ensures o == Sent(cfg, sink)
    ensures o.verdict.Delivered? <==> result.Some?
    ensures result.Some? ==>
              o.sends > 0 && sink(o.sends - 1).reply.Answer? && result.value == sink(o.sends - 1).reply.result
    ensures table.rows == RowsAfter(old(table.rows), dest, chunk, sink, o)
    ensures if o.sends > 0 && Rejects(sink(o.sends - 1).reply) && !sink(o.sends - 1).dlq.RaisedAt?
            then RejectedWritten(old(table.rows), table.rows, dest, sink(o.sends - 1).reply.result.rejected, chunk)
            else table.rows == old(table.rows)
  {
    hide RejectedWritten;
    hide RejectedEntries;
    DeliveredMeans(cfg, sink, 0, 0);
    var maxRetries := if cfg.enabled then cfg.maxRetries else 0;
    var failures := 0;
    result := None;
    for attempt := 0 to maxRetries + 1
      invariant Sent(cfg, sink) == SendFrom(cfg, sink, attempt, failures)
      invariant table.rows == old(table.rows)
      invariant attempt > 0 ==> !Rejects(sink(attempt - 1).reply)
      invariant result.None?
    {
      var a := sink(attempt);
      if attempt > 0 && cfg.maxElapsedMs > 0 && a.elapsedMs >= cfg.maxElapsedMs {
        return Outcome(Transient, attempt, failures, false), None;
      }
      if a.breakerOpen {
        return Outcome(Denied, attempt, failures, false), None;
      }
      match a.reply {
        case Raised =>
          return Outcome(Crashed, attempt + 1, failures, false), None;
        case Timeout =>
          failures := failures + 1;
          if attempt >= maxRetries {
            return Outcome(Transient, attempt + 1, failures, false), None;
          }
        case Answer(r, _) =>
          if r.rejected != [] && !r.retryable {
            var persisted := table.PersistRejected(dest, r.rejected, chunk, a.dlq);
            if !persisted {
              return Outcome(Transient, attempt + 1, failures, false), None;
            }
            return Outcome(Delivered, attempt + 1, failures, r.accepted > 0), Some(r);
          }
          if !r.retryable {
            return Outcome(Delivered, attempt + 1, failures, r.accepted > 0), Some(r);
          }
          failures := failures + 1;
          if r.accepted > 0 || r.rejected != [] || attempt >= maxRetries {
            return Outcome(Transient, attempt + 1, failures, false), None;
          }
      }
    }
    return Outcome(Transient, maxRetries + 1, failures, false), None;
  }

  // ---- One chunk ----

  /** At most `max_retries + 1` sends, one if retrying is disabled; the breaker hears of at most one
      failure per send. */
  lemma {:induction false} SendsBounded(cfg: Retry, sink: nat -> Attempt, k: nat, failures: nat)
    requires k <= (if cfg.enabled then cfg.maxRetries else 0) + 1 && failures == k
    ensures var o := SendFrom(cfg, sink, k, failures);
            && k <= o.sends <= (if cfg.enabled then cfg.maxRetries else 0) + 1
            && o.failures <= o.sends && (!cfg.enabled ==> o.sends <= 1)
    decreases MaxRetries(cfg) + 1 - k
  {
    if k <= MaxRetries(cfg) {
      SendsBounded(cfg, sink, k + 1, failures + 1);
    }
  }

  /** A chunk is sent again only after a timeout or a retryable answer that took and rejected nothing. */
  lemma {:induction false} ResendsOnlyWhenSafe(cfg: Retry, sink: nat -> Attempt, k: nat, failures: nat, i: nat)
    requires k <= i && i + 1 < SendFrom(cfg, sink, k, failures).sends
    ensures MayResend(sink(i).reply)
    decreases MaxRetries(cfg) + 1 - k
  {
    if k < i {
      ResendsOnlyWhenSafe(cfg, sink, k + 1, failures + 1, i);
    }
  }

  /** A delivered chunk ended in a definite answer, with its rejections on record. */
  lemma {:induction false} DeliveredMeans(cfg: Retry, sink: nat -> Attempt, k: nat, failures: nat)
    ensures var o := SendFrom(cfg, sink, k, failures);
            o.verdict.Delivered? ==>
              && o.sends > k && sink(o.sends - 1).reply.Answer? && !sink(o.sends - 1).reply.result.retryable
              && (sink(o.sends - 1).reply.result.rejected != [] ==> sink(o.sends - 1).dlq.NoFault?)
              && o.failures - failures == o.sends - 1 - k
              && (o.healed <==> sink(o.sends - 1).reply.result.accepted > 0)
    decreases MaxRetries(cfg) + 1 - k
  {
    if k <= MaxRetries(cfg) {
      DeliveredMeans(cfg, sink, k + 1, failures + 1);
    }
  }

  /** A reply that counts as a failure of the destination. */
  predicate Fails(reply: Reply) {
    reply.Timeout? || (reply.Answer? && reply.result.retryable)
  }

  /** The attempt is made: neither the time budget nor the breaker stops it. */
  predicate Proceeds(cfg: Retry, sink: nat -> Attempt, i: nat) {
    !(i > 0 && cfg.maxElapsedMs > 0 && sink(i).elapsedMs >= cfg.maxElapsedMs) && !sink(i).breakerOpen
  }

  /** Every attempt made was allowed by the breaker and the time budget. */
  lemma {:induction false} SendsProceed(cfg: Retry, sink: nat -> Attempt, k: nat, failures: nat, i: nat)
    requires k <= i < SendFrom(cfg, sink, k, failures).sends
    ensures Proceeds(cfg, sink, i)
    decreases MaxRetries(cfg) + 1 - k
  {
    if k < i {
      SendsProceed(cfg, sink, k + 1, failures + 1, i);
    }
  }

  /** A sink that never answers is sent the chunk exactly `max_retries + 1` times, once if retrying is
      disabled, as long as neither the breaker nor the time budget stops it. */
  lemma {:induction false} TimeoutsUseEveryRetry(cfg: Retry, sink: nat -> Attempt, k: nat, failures: nat)
    requires k <= (if cfg.enabled then cfg.maxRetries else 0)
    requires forall i: nat :: sink(i).reply.Timeout? && Proceeds(cfg, sink, i)
    ensures var sends := (if cfg.enabled then cfg.maxRetries else 0) + 1;
            SendFrom(cfg, sink, k, failures) == Outcome(Transient, sends, failures + sends - k, false)
    decreases MaxRetries(cfg) + 1 - k
  {
    assert Proceeds(cfg, sink, k);
    if k < MaxRetries(cfg) {
      TimeoutsUseEveryRetry(cfg, sink, k + 1, failures + 1);
    }
  }

  /** Why a chunk was not delivered: after replies that all allowed another send, the breaker or the time
      budget stopped the next attempt; or the last reply ended it, because the sink raised, or its
      rejections could not be recorded, or it asked for a retry after taking or rejecting something, or it
      was the last attempt. Every failed reply was told to the breaker, and no success. */
  lemma {:induction false} UndeliveredMeans(cfg: Retry, sink: nat -> Attempt, k: nat, failures: nat)
    requires k <= MaxRetries(cfg) + 1 && failures == k
    requires k > 0 ==> if k > MaxRetries(cfg) then Fails(sink(k - 1).reply) else MayResend(sink(k - 1).reply)
    ensures var o := SendFrom(cfg, sink, k, failures);
            !o.verdict.Delivered? ==>
              && !o.healed
              && o.failures == (if o.sends > 0 && !Fails(sink(o.sends - 1).reply) then o.sends - 1 else o.sends)
              && (o.verdict.Denied? ==>
                    && o.sends <= MaxRetries(cfg) && sink(o.sends).breakerOpen
                    && !OverBudget(cfg, o.sends, sink(o.sends).elapsedMs)
                    && (o.sends > 0 ==> MayResend(sink(o.sends - 1).reply)))
              && (o.verdict.Crashed? ==> o.sends > 0 && sink(o.sends - 1).reply.Raised?)
              && (o.verdict.Transient? ==>
                    || (o.sends <= MaxRetries(cfg) && OverBudget(cfg, o.sends, sink(o.sends).elapsedMs)
                        && MayResend(sink(o.sends - 1).reply))
                    || (o.sends > 0 && Rejects(sink(o.sends - 1).reply) && !sink(o.sends - 1).dlq.NoFault?)
                    || (o.sends > 0 && Fails(sink(o.sends - 1).reply)
                        && (!MayResend(sink(o.sends - 1).reply) || o.sends == MaxRetries(cfg) + 1)))
    decreases MaxRetries(cfg) + 1 - k
  {
    if k < MaxRetries(cfg) && MayResend(sink(k).reply) {
      UndeliveredMeans(cfg, sink, k + 1, failures + 1);
    }
  }

  /** The answer settles the chunk. */
  predicate Settles(a: Attempt) {
    a.reply.Answer? && !a.reply.result.retryable && (a.reply.result.rejected != [] ==> a.dlq.NoFault?)
  }

  /** A chunk is delivered by attempt `j` if and only if the attempts before it may be repeated, all
      of them are made, and it settles the chunk. */
  lemma {:induction false} DeliveredIff(cfg: Retry, sink: nat -> Attempt, k: nat, failures: nat, j: nat)
    requires k <= j
    ensures SendFrom(cfg, sink, k, failures).verdict.Delivered? && SendFrom(cfg, sink, k, failures).sends == j + 1
            <==> && j <= MaxRetries(cfg) && Settles(sink(j))
                 && (forall i :: k <= i <= j ==> Proceeds(cfg, sink, i))
                 && (forall i :: k <= i < j ==> MayResend(sink(i).reply))
    decreases MaxRetries(cfg) + 1 - k
  {
    DeliveredMeans(cfg, sink, k, failures);
    if k <= MaxRetries(cfg) {
      if k < j {
        DeliveredIff(cfg, sink, k + 1, failures + 1, j);
        assert (forall i :: k <= i <= j ==> Proceeds(cfg, sink, i))
          <==> Proceeds(cfg, sink, k) && forall i :: k + 1 <= i <= j ==> Proceeds(cfg, sink, i);
        assert (forall i :: k <= i < j ==> MayResend(sink(i).reply))
          <==> MayResend(sink(k).reply) && forall i :: k + 1 <= i < j ==> MayResend(sink(i).reply);
      } else {
        DeliveredMeans(cfg, sink, k + 1, failures + 1);
        assert (forall i :: k <= i <= j ==> Proceeds(cfg, sink, i)) <==> Proceeds(cfg, sink, k);
      }
    }
  }

  // ---- A batch ----

  datatype Totals = Totals(rows: map<Key, Row>, accepted: nat, rejected: nat, completed: bool)

  /** The dispatch after its first `c` chunks; it stops at the first chunk not delivered. */
  function After(rows: map<Key, Row>, dest: Destination, chunks: seq<seq<Event>>, cfg: Retry,
                 sinks: nat -> (nat -> Attempt), c: nat): Totals
    requires c <= |chunks|
  {
    if c == 0 then Totals(rows, 0, 0, true)
    else
      var before := After(rows, dest, chunks, cfg, sinks, c - 1);
      if !before.completed then before else Chunked(before, dest, chunks[c - 1], cfg, sinks(c - 1))
  }

  function Chunked(before: Totals, dest: Destination, chunk: seq<Event>, cfg: Retry, sink: nat -> Attempt): Totals {
    var o := Sent(cfg, sink);
    var rows := RowsAfter(before.rows, dest, chunk, sink, o);
    DeliveredMeans(cfg, sink, 0, 0);
    if o.verdict.Delivered? then
      var result := sink(o.sends - 1).reply.result;
      Totals(rows, before.accepted + result.accepted, before.rejected + |result.rejected|, true)
    else Totals(rows, before.accepted, before.rejected, false)
  }

  /** The dispatch goes through the first `c` chunks if and only if each of them is delivered. */
  lemma {:induction false} CompletedIff(rows: map<Key, Row>, dest: Destination, chunks: seq<seq<Event>>, cfg: Retry,
                                        sinks: nat -> (nat -> Attempt), c: nat)
    requires c <= |chunks|
    ensures After(rows, dest, chunks, cfg, sinks, c).completed
            <==> forall d: nat :: d < c ==> Sent(cfg, sinks(d)).verdict.Delivered?
  {
    hide RowsAfter;
    hide SendFrom;
    if c > 0 {
      CompletedIff(rows, dest, chunks, cfg, sinks, c - 1);
    }
  }

  lemma StaysStopped(rows: map<Key, Row>, dest: Destination, chunks: seq<seq<Event>>, cfg: Retry,
                     sinks: nat -> (nat -> Attempt), c: nat, d: nat)
    requires c <= d <= |chunks| && !After(rows, dest, chunks, cfg, sinks, c).completed
    ensures After(rows, dest, chunks, cfg, sinks, d) == After(rows, dest, chunks, cfg, sinks, c)
    decreases d
  {
    if c < d {
      StaysStopped(rows, dest, chunks, cfg, sinks, c, d - 1);
    }
  }

  lemma GoesOn(rows: map<Key, Row>, dest: Destination, chunks: seq<seq<Event>>, cfg: Retry,
      sinks: nat -> (nat -> Attempt), c: nat)
    requires c < |chunks| && After(rows, dest, chunks, cfg, sinks, c).completed
        && Sent(cfg, sinks(c)).verdict.Delivered?
    ensures var before, o := After(rows, dest, chunks, cfg, sinks, c), Sent(cfg, sinks(c));
            && o.sends > 0 && sinks(c)(o.sends - 1).reply.Answer?
            && var result := sinks(c)(o.sends - 1).reply.result;
            After(rows, dest, chunks, cfg, sinks, c + 1)
            == Totals(RowsAfter(before.rows, dest, chunks[c], sinks(c), o), before.accepted + result.accepted,
                      before.rejected + |result.rejected|, true)
  {
    hide RowsAfter;
    hide SendFrom;
    DeliveredMeans(cfg, sinks(c), 0, 0);
  }

  lemma StopsAt(rows: map<Key, Row>, dest: Destination, chunks: seq<seq<Event>>, cfg: Retry,
      sinks: nat -> (nat -> Attempt), c: nat)
    requires c < |chunks| && After(rows, dest, chunks, cfg, sinks, c).completed
        && !Sent(cfg, sinks(c)).verdict.Delivered?
    ensures var before := After(rows, dest, chunks, cfg, sinks, c);
            After(rows, dest, chunks, cfg, sinks, |chunks|)
            == Totals(RowsAfter(before.rows, dest, chunks[c], sinks(c), Sent(cfg, sinks(c))), before.accepted,
                before.rejected, false)
  {
    hide RowsAfter;
    hide SendFrom;
    StaysStopped(rows, dest, chunks, cfg, sinks, c + 1, |chunks|);
  }

  lemma WholeBatch(batch: seq<Event>, chunks: seq<seq<Event>>, limits: Limits, size: Event -> nat)
    requires if batch == [] then chunks == [[]] else GreedySplit(chunks, batch, limits, size)
    ensures |Flatten(chunks)| == |batch|
  {
    if batch == [] {
      FlattenSnoc<Event>([], []);
      assert [] + [[]] == chunks;
    }
  }

  /** Split the batch, send the chunks in order, add up what they report. */
  method DispatchBatch(table: Table, dest: Destination, batch: seq<Event>, limits: Limits, size: Event -> nat,
                       cfg: Retry, sinks: nat -> (nat -> Attempt))
    returns (completed: bool, accepted: nat, rejected: nat, ghost chunks: seq<seq<Event>>)
    modifies table
    ensures batch == [] ==> chunks == [[]]
    ensures batch != [] ==> GreedySplit(chunks, batch, limits, size)
    ensures Totals(table.rows, accepted, rejected, completed)
        == After(old(table.rows), dest, chunks, cfg, sinks, |chunks|)
    ensures completed <==> forall c: nat :: c < |chunks| ==> Sent(cfg, sinks(c)).verdict.Delivered?
    ensures completed && AccountingSink(chunks, sinks) ==>
              accepted + rejected == |batch| && AllAccounted(table.rows, dest, chunks, cfg, sinks, |chunks|)
  {
    var parts := ChunkBatch(batch, limits, size);
    chunks := parts;
    hide RowsAfter;
    hide SendFrom;
    hide AllAccounted;
    hide AccountingSink;
    hide Chunked;
    hide GreedySplit;
    accepted, rejected := 0, 0;
    for c := 0 to |parts|
      invariant Totals(table.rows, accepted, rejected, true) == After(old(table.rows), dest, chunks, cfg, sinks, c)
    {
      var o, result := SendChunkWithRetry(table, dest, parts[c], cfg, sinks(c));
      if result.None? {
        StopsAt(old(table.rows), dest, chunks, cfg, sinks, c);
        CompletedIff(old(table.rows), dest, chunks, cfg, sinks, |chunks|);
        return false, accepted, rejected, chunks;
      }
      GoesOn(old(table.rows), dest, chunks, cfg, sinks, c);
      accepted := accepted + result.value.accepted;
      rejected := rejected + |result.value.rejected|;
    }
    WholeBatch(batch, chunks, limits, size);
    CompletedIff(old(table.rows), dest, chunks, cfg, sinks, |chunks|);
    if AccountingSink(chunks, sinks) {
      EveryEventAccounted(old(table.rows), dest, chunks, cfg, sinks, |chunks|);
      assert chunks[..|chunks|] == chunks;
    }
    return true, accepted, rejected, chunks;
  }

  /** The answer accounts for the chunk: it counts what the sink took, and reports every other event. */
  ghost predicate Accounts(chunk: seq<Event>, reply: Reply) {
    reply.Answer? ==>
      && (forall p | p in reply.took :: p < |chunk|)
      && reply.result.accepted == |reply.took| && reply.result.accepted + |reply.result.rejected| == |chunk|
      && forall p | 0 <= p < |chunk| && p !in reply.took ::
           exists i :: 0 <= i < |reply.result.rejected| && reply.result.rejected[i].id == Reported(chunk[p])
  }

  /** Every definite answer accounts for its chunk. */
  ghost predicate AccountingSink(chunks: seq<seq<Event>>, sinks: nat -> (nat -> Attempt)) {
    forall c, k | 0 <= c < |chunks| && 0 <= k ::
      sinks(c)(k).reply.Answer? && !sinks(c)(k).reply.result.retryable ==> Accounts(chunks[c], sinks(c)(k).reply)
  }

  /** The answer that ended the sending of a chunk. */
  function LastReply(cfg: Retry, sink: nat -> Attempt): Reply {
    var o := Sent(cfg, sink);
    if o.sends > 0 then sink(o.sends - 1).reply else Timeout
  }

  predicate Took(reply: Reply, p: nat) {
    reply.Answer? && p in reply.took
  }

  /** The row is there and shows the kind and the reason of a rejection this answer reported for it. */
  ghost predicate RecordedBy(rows: map<Key, Row>, k: Key, reply: Reply) {
    k in rows && reply.Answer? && Rejected(k.event, rows[k].kind, rows[k].detail) in reply.result.rejected
  }

  /** One delivered chunk: each of its events was taken, or has a row that shows a rejection this answer
      reported for it; and no row is lost. */
  lemma ChunkAccounted(before: Totals, dest: Destination, chunk: seq<Event>, cfg: Retry, sink: nat -> Attempt)
    requires Chunked(before, dest, chunk, cfg, sink).completed
    requires forall k: nat :: sink(k).reply.Answer? && !sink(k).reply.result.retryable ==>
        Accounts(chunk, sink(k).reply)
    ensures var t := Chunked(before, dest, chunk, cfg, sink);
            && t.accepted + t.rejected == before.accepted + before.rejected + |chunk|
            && before.rows.Keys <= t.rows.Keys
            && forall p: nat | p < |chunk| ::
                 || Took(LastReply(cfg, sink), p)
                 || RecordedBy(t.rows, Key(dest.id, Reported(chunk[p])), LastReply(cfg, sink))
  {
    hide SendFrom;
    DeliveredMeans(cfg, sink, 0, 0);
    var t, reply := Chunked(before, dest, chunk, cfg, sink), LastReply(cfg, sink);
    assert Accounts(chunk, reply);
    var entries := RejectedEntries(dest, reply.result.rejected, chunk);
    if Rejects(reply) {
      assert t.rows == UpsertAll(before.rows, entries);
      hide RejectedEntries;
      forall k | k in before.rows ensures k in t.rows {
        UpsertKeys(before.rows, entries, k);
      }
      forall p: nat | p < |chunk| && !Took(reply, p)
        ensures RecordedBy(t.rows, Key(dest.id, Reported(chunk[p])), reply)
      {
        var i :| 0 <= i < |reply.result.rejected| && reply.result.rejected[i].id == Reported(chunk[p]);
        WrittenIsRecorded(before.rows, dest, reply, chunk, i);
      }
    }
  }

  /** After a write the row of a rejection shows what the answer reported under its id. */
  lemma WrittenIsRecorded(rows: map<Key, Row>, dest: Destination, reply: Reply, chunk: seq<Event>, i: nat)
    requires reply.Answer? && i < |reply.result.rejected|
    ensures RecordedBy(UpsertAll(rows, RejectedEntries(dest, reply.result.rejected, chunk)),
                       Key(dest.id, reply.result.rejected[i].id), reply)
  {
    var rejected := reply.result.rejected;
    var entries, k := RejectedEntries(dest, rejected, chunk), Key(dest.id, rejected[i].id);
    assert entries[i].key == k;
    var last := FindLast(entries, k, i);
    LatestReason(rows, entries, last);
    assert entries[last] == RejectedEntry(dest, rejected[last], EventMap(chunk));
    assert rejected[last] == Rejected(k.event, rejected[last].kind, rejected[last].reason);
  }

  /** A row on record stays on record, under the same answer or, if the same id was rejected again, under
      the later one. */
  lemma ChunkKeepsRecords(before: Totals, dest: Destination, chunk: seq<Event>, cfg: Retry, sink: nat -> Attempt,
      k: Key, reply: Reply)
    requires Chunked(before, dest, chunk, cfg, sink).completed && RecordedBy(before.rows, k, reply) && k.dest == dest.id
    ensures var t := Chunked(before, dest, chunk, cfg, sink);
            RecordedBy(t.rows, k, reply) || RecordedBy(t.rows, k, LastReply(cfg, sink))
  {
    hide SendFrom;
    DeliveredMeans(cfg, sink, 0, 0);
    var last := LastReply(cfg, sink);
    if Rejects(last) {
      var entries := RejectedEntries(dest, last.result.rejected, chunk);
      if i :| 0 <= i < |entries| && entries[i].key == k {
        WrittenIsRecorded(before.rows, dest, last, chunk, i);
      } else {
        UpsertKeys(before.rows, entries, k);
      }
    }
    hide RejectedEntries;
  }

  /** Among the first `c` chunks: the event was taken by the sink in the answer that settled its chunk, or
      its row shows a rejection reported for it by that answer or by a later one of this dispatch. */
  ghost predicate Accounted(rows: map<Key, Row>, dest: Destination, chunks: seq<seq<Event>>, cfg: Retry,
                            sinks: nat -> (nat -> Attempt), c: nat, d: nat, p: nat)
    requires d < c <= |chunks| && p < |chunks[d]|
  {
    || Took(LastReply(cfg, sinks(d)), p)
    || exists e: nat :: d <= e < c && RecordedBy(rows, Key(dest.id, Reported(chunks[d][p])), LastReply(cfg, sinks(e)))
  }

  lemma FlattenNone(chunks: seq<seq<Event>>)
    ensures Flatten(chunks[..0]) == []
  {
  }

  lemma StaysAccounted(before: Totals, dest: Destination, chunks: seq<seq<Event>>, cfg: Retry,
                       sinks: nat -> (nat -> Attempt), c: nat, d: nat, p: nat)
    requires d < c < |chunks| && p < |chunks[d]| && Chunked(before, dest, chunks[c], cfg, sinks(c)).completed
    requires Accounted(before.rows, dest, chunks, cfg, sinks, c, d, p)
    ensures Accounted(Chunked(before, dest, chunks[c], cfg, sinks(c)).rows, dest, chunks, cfg, sinks, c + 1, d, p)
  {
    hide Chunked;
    hide RecordedBy;
    hide LastReply;
    if !Took(LastReply(cfg, sinks(d)), p) {
      var k := Key(dest.id, Reported(chunks[d][p]));
      var e: nat :| d <= e < c && RecordedBy(before.rows, k, LastReply(cfg, sinks(e)));
      ChunkKeepsRecords(before, dest, chunks[c], cfg, sinks(c), k, LastReply(cfg, sinks(e)));
    }
  }

  lemma NowAccounted(before: Totals, dest: Destination, chunks: seq<seq<Event>>, cfg: Retry,
                     sinks: nat -> (nat -> Attempt), c: nat, p: nat)
    requires c < |chunks| && p < |chunks[c]| && AccountingSink(chunks, sinks)
    requires Chunked(before, dest, chunks[c], cfg, sinks(c)).completed
    ensures Accounted(Chunked(before, dest, chunks[c], cfg, sinks(c)).rows, dest, chunks, cfg, sinks, c + 1, c, p)
  {
    ChunkAccounted(before, dest, chunks[c], cfg, sinks(c));
    hide Chunked;
    hide RecordedBy;
    hide LastReply;
  }

  ghost predicate AllAccounted(rows: map<Key, Row>, dest: Destination, chunks: seq<seq<Event>>, cfg: Retry,
                               sinks: nat -> (nat -> Attempt), c: nat)
    requires c <= |chunks|
  {
    forall d: nat, p: nat :: d < c && p < |chunks[d]| ==> Accounted(rows, dest, chunks, cfg, sinks, c, d, p)
  }

  lemma NextAllAccounted(before: Totals, dest: Destination, chunks: seq<seq<Event>>, cfg: Retry,
                         sinks: nat -> (nat -> Attempt), c: nat)
    requires c < |chunks| && AccountingSink(chunks, sinks) && Chunked(before, dest, chunks[c], cfg, sinks(c)).completed
    requires AllAccounted(before.rows, dest, chunks, cfg, sinks, c)
    ensures AllAccounted(Chunked(before, dest, chunks[c], cfg, sinks(c)).rows, dest, chunks, cfg, sinks, c + 1)
  {
    hide Accounted;
    hide Chunked;
    hide AccountingSink;
    var rows, next := Chunked(before, dest, chunks[c], cfg, sinks(c)).rows, c + 1;
    forall d: nat, p: nat | d < next && p < |chunks[d]| ensures Accounted(rows, dest, chunks, cfg, sinks, next, d, p) {
      if d < c {
        StaysAccounted(before, dest, chunks, cfg, sinks, c, d, p);
      } else {
        NowAccounted(before, dest, chunks, cfg, sinks, c, p);
      }
    }
  }

  lemma ChunkTotals(before: Totals, dest: Destination, chunks: seq<seq<Event>>, cfg: Retry,
                    sinks: nat -> (nat -> Attempt), c: nat)
    requires c < |chunks| && AccountingSink(chunks, sinks) && Chunked(before, dest, chunks[c], cfg, sinks(c)).completed
    ensures var t := Chunked(before, dest, chunks[c], cfg, sinks(c));
            && t.accepted + t.rejected == before.accepted + before.rejected + |chunks[c]|
            && before.rows.Keys <= t.rows.Keys
    ensures |Flatten(chunks[..c + 1])| == |Flatten(chunks[..c])| + |chunks[c]|
  {
    ChunkAccounted(before, dest, chunks[c], cfg, sinks(c));
    FlattenSnoc(chunks[..c], chunks[c]);
    assert chunks[..c + 1] == chunks[..c] + [chunks[c]];
    hide Chunked;
    hide Flatten;
  }

  /** When the chunk loop completes, for a sink that accounts for its chunks, every event of the batch was
      taken by the sink or has a dead-letter row that shows its rejection in this dispatch, no row is lost,
      and the two totals add up to the batch. */
  lemma {:induction false} EveryEventAccounted(rows: map<Key, Row>, dest: Destination, chunks: seq<seq<Event>>,
                                               cfg: Retry, sinks: nat -> (nat -> Attempt), c: nat)
    requires c <= |chunks| && After(rows, dest, chunks, cfg, sinks, c).completed && AccountingSink(chunks, sinks)
    ensures var t := After(rows, dest, chunks, cfg, sinks, c);
            && t.accepted + t.rejected == |Flatten(chunks[..c])|
            && rows.Keys <= t.rows.Keys
            && AllAccounted(t.rows, dest, chunks, cfg, sinks, c)
  {
    hide Chunked;
    hide Flatten;
    hide AllAccounted;
    hide AccountingSink;
    if c > 0 {
      EveryEventAccounted(rows, dest, chunks, cfg, sinks, c - 1);
      var before := After(rows, dest, chunks, cfg, sinks, c - 1);
      ChunkTotals(before, dest, chunks, cfg, sinks, c - 1);
      NextAllAccounted(before, dest, chunks, cfg, sinks, c - 1);
    } else {
      FlattenNone(chunks);
      NoneToAccount(rows, dest, chunks, cfg, sinks);
    }
  }

  lemma NoneToAccount(rows: map<Key, Row>, dest: Destination, chunks: seq<seq<Event>>, cfg: Retry,
                      sinks: nat -> (nat -> Attempt))
    ensures AllAccounted(rows, dest, chunks, cfg, sinks, 0)
  {
  }
}
