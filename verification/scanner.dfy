/** The scan loop: `process_email_batch` (emailcleanup.py lines 193-276)
    and the counter bookkeeping of `analyze_emails_fast` (lines 344-392).
    The IMAP server and the Ctrl+C handler are replaced by oracle inputs:
    `server(id)` lists what each fetch attempt for `id` returns, and `stop`
    says from which position in the id list on the stop flag reads true. */
module Scanner {
  import opened Wrappers
  import opened Decision
  import opened Batching

  /** What one fetch attempt yields: the decoded header, a non-OK status,
      or an exception (including a failed reconnect before a retry). */
  datatype Attempt = Fetched(header: Header) | BadStatus | Failed

  /** `max_retries = 2` for fetching one message. */
  const MaxFetchAttempts: nat := 2

  /** `batch_size = 100` in `analyze_emails_fast`. */
  const ScanBatchSize: nat := 100

  /** The retry loop for one id from attempt `attempt` on. */
  function FetchFrom(attempts: seq<Attempt>, attempt: nat): Option<Header>
    decreases MaxFetchAttempts - attempt
  {
    if attempt >= MaxFetchAttempts || attempt >= |attempts| then None
    else if attempts[attempt].Fetched? then Some(attempts[attempt].header)
    else FetchFrom(attempts, attempt + 1)
  }

  /** The first attempt that fetches wins; every other outcome moves on to
      the next attempt, and after the last allowed one the message yields
      nothing. */
  lemma {:induction false} FetchFromFindsFirstFetched(attempts: seq<Attempt>, attempt: nat)
    ensures var r := FetchFrom(attempts, attempt);
      && (r.Some? <==> exists k :: attempt <= k < Min(|attempts|, MaxFetchAttempts) && attempts[k].Fetched?)
      && (r.Some? ==> exists k :: (&& attempt <= k < Min(|attempts|, MaxFetchAttempts)
                                   && attempts[k] == Fetched(r.value)
                                   && forall k' :: attempt <= k' < k ==> !attempts[k'].Fetched?))
    decreases MaxFetchAttempts - attempt
  {
    if attempt < MaxFetchAttempts && attempt < |attempts| && !attempts[attempt].Fetched? {
      FetchFromFindsFirstFetched(attempts, attempt + 1);
    }
  }

  function FetchWithRetry(attempts: seq<Attempt>): Option<Header> {
    FetchFrom(attempts, 0)
  }

  /** The stop flag, once set, stays set; it reads true at every check at
      position `position` or later when it was requested at `stop`. */
  predicate StopSeen(stop: Option<nat>, position: nat) {
    stop.Some? && position >= stop.value
  }

  /** How many of the `n` ids are looked at before the stop flag is seen. */
  function Cut(stop: Option<nat>, n: nat): (c: nat)
    ensures c <= n
    ensures stop.None? ==> c == n
    ensures stop.Some? ==> c <= stop.value
  {
    if stop.None? then n else Min(stop.value, n)
  }

  /** What one id contributes to `batch_results`: one record if a fetch
      attempt succeeded, nothing otherwise. */
  function Emit(id: MessageId, server: MessageId -> seq<Attempt>, decide: Decider): (rs: seq<MessageResult>)
    ensures |rs| <= 1
  {
    match FetchWithRetry(server(id))
    case Some(h) => [decide(id, h)]
    case None => []
  }

  /** The results for a run of ids with no stop in between, in id order. */
  function Collect(ids: seq<MessageId>, server: MessageId -> seq<Attempt>, decide: Decider): (rs: seq<MessageResult>)
  {
    if |ids| == 0 then []
    else Collect(ids[..|ids| - 1], server, decide) + Emit(ids[|ids| - 1], server, decide)
  }

  function IdsOf(rs: seq<MessageResult>): (ids: seq<MessageId>)
    ensures |ids| == |rs|
    ensures forall k :: 0 <= k < |rs| ==> ids[k] == rs[k].id
  {
    seq(|rs|, k requires 0 <= k < |rs| => rs[k].id)
  }

  /** The ids whose fetch succeeded, in order. */
  function Fetchable(ids: seq<MessageId>, server: MessageId -> seq<Attempt>): seq<MessageId> {
    if |ids| == 0 then []
    else
      var last := ids[|ids| - 1];
      Fetchable(ids[..|ids| - 1], server) + (if FetchWithRetry(server(last)).Some? then [last] else [])
  }

  lemma AppendAssoc<T>(x: seq<T>, y: seq<T>, z: seq<T>)
    ensures (x + y) + z == x + (y + z)
  {
  }

  lemma {:induction false} CollectAppend(a: seq<MessageId>, b: seq<MessageId>, server: MessageId -> seq<Attempt>, decide: Decider)
    ensures Collect(a + b, server, decide) == Collect(a, server, decide) + Collect(b, server, decide)
    decreases |b|
  {
    if |b| == 0 {
      assert a + b == a;
    } else {
      var init, last := b[..|b| - 1], b[|b| - 1];
      assert b == init + [last];
      assert a + b == (a + init) + [last];
      CollectAppend(a, init, server, decide);
      CollectSnoc(a + init, last, server, decide);
      CollectSnoc(init, last, server, decide);
      AppendAssoc(Collect(a, server, decide), Collect(init, server, decide), Emit(last, server, decide));
    }
  }

  /** At most one result per id, in id order: the results are exactly one
      per id whose fetch succeeded, and each is that id's decision. */
  lemma {:induction false} CollectOnePerFetchedId(ids: seq<MessageId>, server: MessageId -> seq<Attempt>, decide: Decider)
    ensures IdsOf(Collect(ids, server, decide)) == Fetchable(ids, server)
    ensures |Collect(ids, server, decide)| <= |ids|
    ensures forall r :: (r in Collect(ids, server, decide)
                         ==> r.id in ids && FetchWithRetry(server(r.id)).Some?
                             && r == decide(r.id, FetchWithRetry(server(r.id)).value))
  {
    if |ids| > 0 {
      var init := ids[..|ids| - 1];
      CollectOnePerFetchedId(init, server, decide);
      var rs := Collect(ids, server, decide);
      assert IdsOf(rs) == IdsOf(Collect(init, server, decide)) + IdsOf(Emit(ids[|ids| - 1], server, decide));
      forall r | r in rs
        ensures r.id in ids
      {
        if r in Collect(init, server, decide) {
          assert r.id in init;
        }
      }
    }
  }

  lemma IdsOfAppend(a: seq<MessageResult>, b: seq<MessageResult>)
    ensures IdsOf(a + b) == IdsOf(a) + IdsOf(b)
  {
  }

  lemma CollectSnoc(init: seq<MessageId>, last: MessageId, server: MessageId -> seq<Attempt>, decide: Decider)
    ensures Collect(init + [last], server, decide) == Collect(init, server, decide) + Emit(last, server, decide)
  {
    assert (init + [last])[..|init|] == init;
  }

  /** Every id whose fetch succeeds yields a result, so with no failed fetch
      every id is accounted for. */
  lemma {:induction false} AllFetchedMeansAllCollected(ids: seq<MessageId>, server: MessageId -> seq<Attempt>, decide: Decider)
    requires forall id :: id in ids ==> FetchWithRetry(server(id)).Some?
    ensures IdsOf(Collect(ids, server, decide)) == ids
  {
    if |ids| > 0 {
      var init := ids[..|ids| - 1];
      var last := ids[|ids| - 1];
      assert ids == init + [last];
      assert forall id :: id in init ==> id in ids;
      AllFetchedMeansAllCollected(init, server, decide);
      assert last in ids;
      var r := decide(last, FetchWithRetry(server(last)).value);
      assert Emit(last, server, decide) == [r];
      CollectSnoc(init, last, server, decide);
      IdsOfAppend(Collect(init, server, decide), [r]);
    }
  }

  /** How many ids of a batch of `n` ids starting at position `offset` are
      looked at before the stop flag is seen. */
  function Reach(stop: Option<nat>, offset: nat, n: nat): (reach: nat)
    ensures reach <= n
    ensures forall p :: offset <= p < offset + reach ==> !StopSeen(stop, p)
    ensures reach < n ==> StopSeen(stop, offset + reach)
  {
    if stop.None? || stop.value >= offset + n then n
    else if stop.value <= offset then 0
    else stop.value - offset
  }

  /** `process_email_batch(batch)`, where the batch starts at position
      `offset` of the whole id list: the stop flag is checked before each
      id; each id gets the bounded retry loop and at most one record. */
  method ProcessBatch(batch: seq<MessageId>, offset: nat, stop: Option<nat>,
                      server: MessageId -> seq<Attempt>, decide: Decider)
    returns (results: seq<MessageResult>)
    ensures results == Collect(batch[..Reach(stop, offset, |batch|)], server, decide)
  {
    results := [];
    var i := 0;
    while i < |batch|
      invariant i <= Reach(stop, offset, |batch|)
      invariant results == Collect(batch[..i], server, decide)
    {
      if StopSeen(stop, offset + i) {
        break;
      }
      var fetched := FetchWithRetry(server(batch[i]));
      if fetched.Some? {
        results := results + [decide(batch[i], fetched.value)];
      }
      assert batch[..i + 1][..i] == batch[..i];
      i := i + 1;
    }
  }

  // ---------------------------------------------------------------------
  // Counters

  /** The run state `analyze_emails_fast` keeps: processed, deleted and
      kept counts and the list `emails_to_delete`. */
  datatype Tally = Tally(processed: nat, deletedCount: nat, keptCount: nat, toDelete: seq<MessageResult>)

  /** The counters right after the reset of lines 353-356. */
  const Reset: Tally := Tally(0, 0, 0, [])

  /** Lines 380-392: one result is processed, then counted as a deletion
      (and remembered) or as a keep. */
  function Record(t: Tally, r: MessageResult): Tally {
    if r.DeleteResult? then
      Tally(t.processed + 1, t.deletedCount + 1, t.keptCount, t.toDelete + [r])
    else
      Tally(t.processed + 1, t.deletedCount, t.keptCount + 1, t.toDelete)
  }

  /** The counters after recording `rs` one by one from the reset. */
  function TallyOf(rs: seq<MessageResult>): Tally {
    if |rs| == 0 then Reset
    else Record(TallyOf(rs[..|rs| - 1]), rs[|rs| - 1])
  }

  /** The delete records of `rs`, in order. */
  function Deletions(rs: seq<MessageResult>): seq<MessageResult> {
    if |rs| == 0 then []
    else Deletions(rs[..|rs| - 1]) + (if rs[|rs| - 1].DeleteResult? then [rs[|rs| - 1]] else [])
  }

  /** The bookkeeping identities the summary relies on. */
  ghost predicate Consistent(t: Tally, total: nat) {
    && t.processed == t.deletedCount + t.keptCount
    && t.deletedCount == |t.toDelete|
    && t.processed <= total
    && forall r :: r in t.toDelete ==> r.DeleteResult?
  }

  /** Recording keeps `processed == deleted + kept` and
      `deleted == len(emails_to_delete)`, and the list holds exactly the
      delete records, in the order they were produced. */
  lemma {:induction false} TallyOfCounts(rs: seq<MessageResult>)
    ensures TallyOf(rs).processed == |rs|
    ensures TallyOf(rs).toDelete == Deletions(rs)
    ensures Consistent(TallyOf(rs), |rs|)
  {
    if |rs| > 0 {
      TallyOfCounts(rs[..|rs| - 1]);
    }
  }

  /** Lines 380-392 for one batch: each result of the batch is recorded in
      order. */
  method RecordBatch(ghost before: seq<MessageResult>, t0: Tally, results: seq<MessageResult>)
    returns (t: Tally)
    requires t0 == TallyOf(before)
    ensures t == TallyOf(before + results)
  {
    t := t0;
    var i := 0;
    assert before + results[..0] == before;
    while i < |results|
      invariant i <= |results|
      invariant t == TallyOf(before + results[..i])
    {
      assert (before + results[..i + 1])[..|before| + i] == before + results[..i];
      t := Record(t, results[i]);
      i := i + 1;
    }
    assert results[..i] == results;
  }

  /** The part of a batch reached before the stop point continues the
      part of the id list before the batch. */
  lemma BatchSlices(ids: seq<MessageId>, offset: nat, batch: seq<MessageId>, stop: Option<nat>)
    requires offset + |batch| <= |ids| && ids[offset..offset + |batch|] == batch
    requires !StopSeen(stop, offset)
    ensures var reach := Reach(stop, offset, |batch|);
      && ids[..Min(offset, Cut(stop, |ids|))] == ids[..offset]
      && ids[..Min(offset + |batch|, Cut(stop, |ids|))] == ids[..offset] + batch[..reach]
  {
    var reach := Reach(stop, offset, |batch|);
    assert Min(offset + |batch|, Cut(stop, |ids|)) == offset + reach;
    assert ids[offset..offset + reach] == batch[..reach];
  }

  /** A batch processed before the stop point extends the covered prefix of
      the id list by the ids the batch reached. */
  lemma BatchExtendsCovered(ids: seq<MessageId>, offset: nat, batch: seq<MessageId>, stop: Option<nat>,
                            server: MessageId -> seq<Attempt>, decide: Decider)
    requires offset + |batch| <= |ids| && ids[offset..offset + |batch|] == batch
    requires !StopSeen(stop, offset)
    ensures var reach := Reach(stop, offset, |batch|);
      Collect(ids[..Min(offset + |batch|, Cut(stop, |ids|))], server, decide)
      == Collect(ids[..Min(offset, Cut(stop, |ids|))], server, decide) + Collect(batch[..reach], server, decide)
  {
    var reach := Reach(stop, offset, |batch|);
    BatchSlices(ids, offset, batch, stop);
    CollectAppend(ids[..offset], batch[..reach], server, decide);
  }

  /** The results for the ids of `ids` before position `offset` that are
      also before the stop point. */
  function Covered(ids: seq<MessageId>, offset: nat, stop: Option<nat>,
                   server: MessageId -> seq<Attempt>, decide: Decider): seq<MessageResult>
    requires offset <= |ids|
  {
    Collect(ids[..Min(offset, Cut(stop, |ids|))], server, decide)
  }

  /** One iteration of the batch loop: process the batch that starts at
      `offset` and record its results. */
  method ScanBatch(ids: seq<MessageId>, offset: nat, batch: seq<MessageId>, stop: Option<nat>,
                   server: MessageId -> seq<Attempt>, decide: Decider, t0: Tally)
    returns (t: Tally)
    requires offset + |batch| <= |ids| && ids[offset..offset + |batch|] == batch
    requires !StopSeen(stop, offset)
    requires t0 == TallyOf(Covered(ids, offset, stop, server, decide))
    ensures t == TallyOf(Covered(ids, offset + |batch|, stop, server, decide))
  {
    var results := ProcessBatch(batch, offset, stop, server, decide);
    BatchExtendsCovered(ids, offset, batch, stop, server, decide);
    t := RecordBatch(Covered(ids, offset, stop, server, decide), t0, results);
  }

  /** Before the first batch nothing is covered and the counters are reset. */
  lemma NothingCoveredYet(ids: seq<MessageId>, stop: Option<nat>, server: MessageId -> seq<Attempt>, decide: Decider)
    ensures TallyOf(Covered(ids, 0, stop, server, decide)) == Reset
  {
    assert ids[..Min(0, Cut(stop, |ids|))] == [];
  }

  /** The loop ends either at the end of the ids or at a batch boundary at
      or after the stop point; either way it has covered every id before
      the stop point. */
  lemma ScanEndCoversCut(ids: seq<MessageId>, offset: nat, stop: Option<nat>,
                         server: MessageId -> seq<Attempt>, decide: Decider)
    requires offset <= |ids|
    requires offset == |ids| || StopSeen(stop, offset)
    ensures Covered(ids, offset, stop, server, decide) == Collect(ids[..Cut(stop, |ids|)], server, decide)
  {
  }

  /** The batch loop of `analyze_emails_fast`: the `k`-th batch is the
      `k`-th slice `fetch_email_headers_batch` cuts (`IsBatchOf`, as
      `Partition` promises), taken in order; the stop flag is checked
      before each batch, each batch goes through `process_email_batch`, and
      every result updates the counters. */
  method ScanLoop(ids: seq<MessageId>, stop: Option<nat>, server: MessageId -> seq<Attempt>, decide: Decider)
    returns (t: Tally)
    ensures t == TallyOf(Collect(ids[..Cut(stop, |ids|)], server, decide))
  {
    t := Reset;
    var offset := 0;
    ghost var k: nat := 0;
    NothingCoveredYet(ids, stop, server, decide);
    while offset < |ids|
      invariant offset <= |ids|
      invariant StartsBatch(ids, ScanBatchSize, k, offset)
      invariant t == TallyOf(Covered(ids, offset, stop, server, decide))
      decreases |ids| - offset
    {
      if StopSeen(stop, offset) {
        break;
      }
      var next := Min(offset + ScanBatchSize, |ids|);
      var batch := ids[offset..next];
      SliceIsBatch(ids, ScanBatchSize, k, offset);
      t := ScanBatch(ids, offset, batch, stop, server, decide, t);
      offset := next;
      k := k + 1;
    }
    ScanEndCoversCut(ids, offset, stop, server, decide);
  }

  /** The scan of `analyze_emails_fast` over a non-empty id list. The whole
      scan equals recording the results for the ids before the stop point,
      so batching changes nothing, and its counters agree with each other. */
  method Scan(ids: seq<MessageId>, stop: Option<nat>, server: MessageId -> seq<Attempt>, decide: Decider)
    returns (t: Tally)
    ensures t == TallyOf(Collect(ids[..Cut(stop, |ids|)], server, decide))
    ensures Consistent(t, |ids|)
    ensures stop.Some? ==> t.processed <= stop.value
  {
    t := ScanLoop(ids, stop, server, decide);
    ScannedTallyConsistent(ids, stop, server, decide);
  }

  /** The counters of a scan agree with each other and never exceed the
      number of ids, nor the stop position. */
  lemma ScannedTallyConsistent(ids: seq<MessageId>, stop: Option<nat>, server: MessageId -> seq<Attempt>, decide: Decider)
    ensures var t := TallyOf(Collect(ids[..Cut(stop, |ids|)], server, decide));
      Consistent(t, |ids|) && (stop.Some? ==> t.processed <= stop.value)
  {
    var covered := Collect(ids[..Cut(stop, |ids|)], server, decide);
    CollectOnePerFetchedId(ids[..Cut(stop, |ids|)], server, decide);
    TallyOfCounts(covered);
  }
}
