/** The run as `main` and `analyze_emails_fast` drive it (emailcleanup.py
    lines 344-448, 498-530): connect, search, scan, summarize, and delete
    only behind the confirmation gate. Connecting and searching are oracle
    inputs: `connected` is what `connect_to_gmail` returned, `ids` what
    `get_unread_emails_fast` returned (the empty list after a failed search). */
module Cleanup {
  import opened Wrappers
  import opened Text
  import opened Decision
  import opened Scanner
  import opened Deletion

  /** The answer to the confirmation prompt, lower-cased, is exactly "yes". */
  predicate Confirmed(confirm: string) {
    Lower(confirm) == "yes"
  }

  /** The answer is accepted exactly when it is the three letters y, e, s
      in any mix of upper and lower case, with nothing around them. */
  lemma ConfirmedIff(confirm: string)
    ensures Confirmed(confirm)
        <==> |confirm| == 3
             && confirm[0] in {'y', 'Y'} && confirm[1] in {'e', 'E'} && confirm[2] in {'s', 'S'}
  {
    if |confirm| == 3 {
      assert Lower(confirm)[0] == LowerChar(confirm[0]);
      assert Lower(confirm)[1] == LowerChar(confirm[1]);
      assert Lower(confirm)[2] == LowerChar(confirm[2]);
      if Confirmed(confirm) {
        assert "yes"[0] == 'y' && "yes"[1] == 'e' && "yes"[2] == 's';
      }
    }
  }

  /** The tail of `show_analysis_results`: in a dry run nothing is deleted;
      otherwise, with something to delete, deletion runs only when the
      typed answer is "yes". */
  method ShowAnalysisResults(t: Tally, dryRun: bool, confirm: string,
                             store: MessageId -> bool, expungeOk: bool)
    returns (report: Option<DeletionReport>)
    ensures report.Some? <==> !dryRun && t.deletedCount > 0 && Confirmed(confirm)
    ensures report.Some? ==> report.value.attempted == IdsOf(t.toDelete)
    ensures report.Some? ==> report.value.successful + report.value.failed == |t.toDelete|
  {
    if dryRun {
      report := None;
    } else if t.deletedCount > 0 {
      if Lower(confirm) == "yes" {
        var r := DeleteAll(t.toDelete, store, expungeOk);
        report := Some(r);
      } else {
        report := None;
      }
    } else {
      report := None;
    }
  }

  /** How a run ends. */
  datatype RunOutcome =
    | ConnectFailed
    | NoUnreadEmails
    | Finished(tally: Tally, deletion: Option<DeletionReport>)

  /** One run of the tool. Nothing is deleted without a non-dry run, a
      non-empty candidate list and a typed "yes"; every message deleted was
      dated before the cutoff and flagged by the classifier; the counters
      agree with each other and cover exactly the ids before the stop. */
  method Run(connected: bool, ids: seq<MessageId>, stop: Option<nat>,
             server: MessageId -> seq<Attempt>, cutoff: int,
             dryRun: bool, confirm: string, store: MessageId -> bool, expungeOk: bool)
    returns (outcome: RunOutcome)
    ensures outcome.ConnectFailed? <==> !connected
    ensures outcome.NoUnreadEmails? <==> connected && |ids| == 0
    ensures outcome.Finished? ==> outcome.tally == TallyOf(Collect(ids[..Cut(stop, |ids|)], server, DecideAt(cutoff)))
    ensures outcome.Finished? ==> Consistent(outcome.tally, |ids|)
    ensures outcome.Finished? ==>
      (outcome.deletion.Some? <==> !dryRun && outcome.tally.deletedCount > 0 && Confirmed(confirm))
    ensures outcome.Finished? && outcome.deletion.Some? ==>
      outcome.deletion.value.attempted == IdsOf(outcome.tally.toDelete)
    ensures outcome.Finished? ==> forall r :: r in outcome.tally.toDelete ==>
      r.DeleteResult? && r.date < cutoff
  {
    if !connected {
      return ConnectFailed;
    }
    if |ids| == 0 {
      return NoUnreadEmails;
    }
    var t := Scan(ids, stop, server, DecideAt(cutoff));
    var covered := Collect(ids[..Cut(stop, |ids|)], server, DecideAt(cutoff));
    TallyOfCounts(covered);
    DeletionsAreDeleteRecords(covered);
    CollectedDeletionsAreOld(ids[..Cut(stop, |ids|)], server, cutoff);
    var report := ShowAnalysisResults(t, dryRun, confirm, store, expungeOk);
    outcome := Finished(t, report);
  }

  /** With the decision of `process_email_batch`, only old-enough messages
      that the classifier flags are ever delete records. */
  lemma CollectedDeletionsAreOld(ids: seq<MessageId>, server: MessageId -> seq<Attempt>, cutoff: int)
    ensures forall r :: (r in Collect(ids, server, DecideAt(cutoff)) && r.DeleteResult?
                         ==> && r.date < cutoff
                             && FetchWithRetry(server(r.id)).Some?
                             && OldEnough(FetchWithRetry(server(r.id)).value.date, cutoff)
                             && ClassifyHeader(FetchWithRetry(server(r.id)).value).unnecessary)
  {
    CollectOnePerFetchedId(ids, server, DecideAt(cutoff));
  }

  lemma {:induction false} DeletionsAreDeleteRecords(rs: seq<MessageResult>)
    ensures forall r :: r in Deletions(rs) ==> r in rs && r.DeleteResult?
  {
    if |rs| > 0 {
      DeletionsAreDeleteRecords(rs[..|rs| - 1]);
    }
  }
}
