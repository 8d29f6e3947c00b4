/** `delete_emails_fast` (emailcleanup.py lines 449-486): a best-effort
    pass over the delete candidates in sub-batches of 50, then one expunge.
    `store(id)` says whether flagging `id` as deleted raised nothing;
    `expungeOk` whether the final expunge did. */
module Deletion {
  import opened Decision
  import opened Scanner
  import opened Batching

  /** `batch_size = 50` in `delete_emails_fast`. */
  const DeleteBatchSize: nat := 50

  /** The outcome of the pass: the two counters the source prints, the ids
      flagged in the order they were tried, and whether the expunge went
      through. */
  datatype DeletionReport = DeletionReport(successful: nat, failed: nat, attempted: seq<MessageId>, expunged: bool)

  /** How many of `ids` the store oracle accepts. */
  function CountStored(ids: seq<MessageId>, store: MessageId -> bool): (n: nat)
    ensures n <= |ids|
  {
    if |ids| == 0 then 0
    else CountStored(ids[..|ids| - 1], store) + (if store(ids[|ids| - 1]) then 1 else 0)
  }

  /** When every store call succeeds every candidate counts as deleted. */
  lemma {:induction false} AllStoredCount(ids: seq<MessageId>, store: MessageId -> bool)
    requires forall id :: id in ids ==> store(id)
    ensures CountStored(ids, store) == |ids|
  {
    if |ids| > 0 {
      assert forall id :: id in ids[..|ids| - 1] ==> id in ids;
      AllStoredCount(ids[..|ids| - 1], store);
    }
  }

  /** One sub-batch: each candidate is flagged once, a raised exception
      counting as a failure and not stopping the rest. */
  method FlagBatch(batch: seq<MessageResult>, store: MessageId -> bool, ok0: nat, bad0: nat, tried0: seq<MessageId>)
    returns (ok: nat, bad: nat, tried: seq<MessageId>)
    ensures tried == tried0 + IdsOf(batch)
    ensures ok == ok0 + CountStored(IdsOf(batch), store)
    ensures ok + bad == ok0 + bad0 + |batch|
  {
    ok, bad, tried := ok0, bad0, tried0;
    var i := 0;
    while i < |batch|
      invariant i <= |batch|
      invariant tried == tried0 + IdsOf(batch[..i])
      invariant ok == ok0 + CountStored(IdsOf(batch[..i]), store)
      invariant ok + bad == ok0 + bad0 + i
    {
      assert IdsOf(batch[..i + 1])[..i] == IdsOf(batch[..i]);
      if store(batch[i].id) {
        ok := ok + 1;
      } else {
        bad := bad + 1;
      }
      tried := tried + [batch[i].id];
      i := i + 1;
    }
    assert batch[..i] == batch;
  }

  /** The `k`-th batch is the `k`-th slice of `DeleteBatchSize` candidates
      (`IsBatchOf`, as `Partition` promises). Every candidate is tried exactly once,
      in order; the counters add up to the number of candidates whatever
      the expunge does. */
  method DeleteAll(candidates: seq<MessageResult>, store: MessageId -> bool, expungeOk: bool)
    returns (report: DeletionReport)
    ensures report.attempted == IdsOf(candidates)
    ensures report.successful == CountStored(IdsOf(candidates), store)
    ensures report.successful + report.failed == |candidates|
    ensures report.expunged == expungeOk
  {
    var ok, bad := 0, 0;
    var tried: seq<MessageId> := [];
    var i := 0;
    ghost var k: nat := 0;
    while i < |candidates|
      invariant i <= |candidates|
      invariant StartsBatch(candidates, DeleteBatchSize, k, i)
      invariant tried == IdsOf(candidates[..i])
      invariant ok == CountStored(tried, store)
      invariant ok + bad == i
      decreases |candidates| - i
    {
      var next := Min(i + DeleteBatchSize, |candidates|);
      var batch := candidates[i..next];
      SliceIsBatch(candidates, DeleteBatchSize, k, i);
      DeleteStep(candidates, i, batch, tried, store);
      ok, bad, tried := FlagBatch(batch, store, ok, bad, tried);
      i := next;
      k := k + 1;
    }
    assert candidates[..i] == candidates;
    report := DeletionReport(ok, bad, tried, expungeOk);
  }

  /** After a batch taken at offset `i`, the ids tried are the ids of the
      candidates up to the batch's end, and the success count splits. */
  lemma DeleteStep(candidates: seq<MessageResult>, i: nat, batch: seq<MessageResult>,
                   tried: seq<MessageId>, store: MessageId -> bool)
    requires i + |batch| <= |candidates| && candidates[i..i + |batch|] == batch
    requires tried == IdsOf(candidates[..i])
    ensures IdsOf(candidates[..i + |batch|]) == tried + IdsOf(batch)
    ensures CountStored(tried + IdsOf(batch), store) == CountStored(tried, store) + CountStored(IdsOf(batch), store)
  {
    assert candidates[..i + |batch|] == candidates[..i] + batch;
    IdsOfAppend(candidates[..i], batch);
    CountStoredAppend(tried, IdsOf(batch), store);
  }

  lemma {:induction false} CountStoredAppend(a: seq<MessageId>, b: seq<MessageId>, store: MessageId -> bool)
    ensures CountStored(a + b, store) == CountStored(a, store) + CountStored(b, store)
    decreases |b|
  {
    if |b| == 0 {
      assert a + b == a;
    } else {
      assert (a + b)[..|a + b| - 1] == a + b[..|b| - 1];
      CountStoredAppend(a, b[..|b| - 1], store);
    }
  }
}
