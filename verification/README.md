# Gmail cleanup tool: decision and bookkeeping core in Dafny

`emailcleanup.py` is a command-line tool that works over IMAP. It scans a
Gmail inbox for unread messages older than a cutoff date. It classifies each
message with fixed rule lists as "unnecessary" or not. It counts and lists
the candidates, and after a typed confirmation it flags them as deleted and
expunges them.

This project models the part of that tool that decides and counts, with the
IMAP client replaced by oracle inputs:

- **`Text`**: Python's `str.lower` (on ASCII), `needle in hay`, and the two
  `split('@')` idioms: the domain after the last `@` and the local part
  before the first `@`.
- **`Rules`**: the four rule lists, entry for entry.
- **`Classifier`**: `is_unnecessary_email_fast`. Four ordered rule groups,
  where the first hit wins. The reason is a structured value that renders to
  the source's reason strings.
- **`SenderAddress`**: `re.search(r'<([^>]+)>', sender_full)` as a
  hand-written scanner, specified against a declarative leftmost match.
- **`Decision`**: the per-message result of `process_email_batch`. The date
  filter comes first, then the classifier.
- **`Batching`**: `fetch_email_headers_batch`, which cuts a list into slices.
- **`Scanner`**: `process_email_batch` with its bounded retry loop, and the
  batch loop and counters of `analyze_emails_fast`. Inputs:
  - `server(id)` is the sequence of outcomes of successive fetch attempts
    for `id`;
  - `stop` is the position in the id list from which the Ctrl+C flag reads
    true.
- **`Deletion`**: `delete_emails_fast`. Inputs:
  - `store(id)` says whether flagging `id` raised nothing;
  - `expungeOk` says whether the expunge did.
- **`Cleanup`**: the confirmation gate of `show_analysis_results` and the
  run as `main` drives it. Inputs:
  - `connected` is what `connect_to_gmail` returned;
  - `ids` is what `get_unread_emails_fast` returned.
- **`Scenarios`, `ScenarioNewsletter`**: concrete inputs worked through the
  model.

The scan in `Scanner` is generic over a `Decider`, a per-message decision
that keeps the message id. `Cleanup.Run` instantiates it with
`Decision.Decide` with the run's cutoff date.

Details of the code the model keeps:

- the keep reasons are the identifiers `too_recent_or_no_date` and
  `not_unnecessary`;
- in `process_email_batch`, `reconnect_if_needed` runs only before a retry of a failed fetch (the search in `get_unread_emails_fast` calls it before every attempt, the first included);
- message dates are naive local datetimes from `fromtimestamp`, compared
  with the naive cutoff `datetime(2025, 6, 1)`.

## Model

| member | source | states |
|---|---|---|
| Text.Lower | emailcleanup.py:280-282 | the lowered string has the same length and each character is lowered on its own |
| Text.LowerNormalizes | emailcleanup.py:280-282 | lowering leaves no upper-case letter, is idempotent, keeps every other character, and keeps or removes no `@` |
| Text.IndexOf | emailcleanup.py:286 | the result is the leftmost position at or after `from` where the needle occurs, and None exactly when it occurs nowhere there |
| Text.Contains | emailcleanup.py:286 | Python's `in` on strings: true exactly when the needle occurs at some position as a literal substring (the empty needle always does) |
| Text.LastAt | emailcleanup.py:290 | the position of the last `@` in a prefix, or None when the prefix holds none |
| Text.Domain | emailcleanup.py:290 | the domain is the text after some `@` and itself holds no `@` (so it follows the last `@`), and is empty when there is no `@` |
| Text.LocalPart | emailcleanup.py:296 | the local part is a prefix with no `@`, followed by an `@` in the input, and is the whole input when there is no `@` |
| Classifier.FirstHit | emailcleanup.py:285-287 | returns the first fragment index from `from` on that is a substring of one of the fields, and None when no fragment hits |
| Classifier.Classify | emailcleanup.py:278-307 | the verdict is True exactly when the reason is not "Not identified as unnecessary" |
| Classifier.ClassifyIsCascade | emailcleanup.py:278-307 | the classifier equals trying the declarative rule table (patterns on the three lowered fields, domains on the domain, sender keywords on the local part, promo keywords on the subject) group by group |
| Classifier.CascadeFindsFirstHit | emailcleanup.py:284-307 | the cascade answers True with the first hit in group order and then fragment order, and answers False exactly when no fragment of any group hits |
| Classifier.ClassifyFirstMatchWins | emailcleanup.py:278-307 | when fragment i of group g is the first hit in priority order, the result is True with that group's reason naming that fragment |
| Classifier.ClassifyFalseIffNoHit | emailcleanup.py:278-307 | the result is False, with "Not identified as unnecessary", exactly when no fragment is a literal substring of its field |
| Classifier.NoAtMeansNoDomainRule | emailcleanup.py:290-293 | a sender without `@` has an empty domain, so no domain rule can ever fire for it |
| Classifier.StarPatternNeedsLiteralStar | emailcleanup.py:28-37 | a pattern holding `*` (such as `social.*notification`) cannot occur in a field without a literal `*`: the pattern entries are literal substrings, not regexes |
| Classifier.PatternForPromo | emailcleanup.py:28-37 | each of `sale`, `discount`, `offer`, `deal`, `coupon` is also an entry of the pattern list |
| Classifier.SharedPromoKeywordIsPattern | emailcleanup.py:285-287 | a subject hit by one of the first five promo keywords already makes the pattern group fire |
| Classifier.OnlyTwoPromoKeywordsFire | emailcleanup.py:301-305 | a promotional reason can only name `% off` or `free shipping` |
| SenderAddress.FirstClose | emailcleanup.py:229 | the first `>` at or after a position, or None when there is none |
| SenderAddress.ScanFrom | emailcleanup.py:229 | the scanner returns a match of `<([^>]+)>` with no match starting further left, and None exactly when no match exists |
| SenderAddress.ExtractSender | emailcleanup.py:229-230 | the sender is the capture of the leftmost match, and the whole value when nothing matches; a capture never holds `>` |
| SenderAddress.ExtractSenderIsLeftmostCapture | emailcleanup.py:229-230 | whenever some match exists, a leftmost one exists and the sender is its capture |
| SenderAddress.NoOpenBracketKeepsWhole | emailcleanup.py:229-230 | a value without `<` is its own sender |
| Scenarios.ExtractSenderDisplayName | emailcleanup.py:229-230 | `Ann <a@b.io>` yields `a@b.io` |
| Scenarios.ExtractSenderEmptyBrackets | emailcleanup.py:229-230 | `<>` does not match `[^>]+`, so the whole value is kept |
| Scenarios.ExtractSenderSkipsEmpty | emailcleanup.py:229-230 | in `x <> <a> <b>` the empty pair is skipped and `a` is taken, not `b` |
| Scenarios.ExtractSenderNestedOpen | emailcleanup.py:229-230 | in `x <<a>` the leftmost match starts at the first `<`, so the capture is `<a` |
| Decision.Decide | emailcleanup.py:236-261 | without a date, or with one at or after the cutoff, the result is keep with `too_recent_or_no_date`; it is a delete record exactly when the date is before the cutoff and the classifier says True; a delete record carries the message's own date, the full sender, the subject and the classifier's reason; an old message the classifier does not flag is kept as `not_unnecessary` |
| Decision.DateFilterDominates | emailcleanup.py:236-242 | two headers with the same missing or too-recent date get the same keep record, whatever their sender and subject |
| Decision.OldMessageDeletedIffRuleHits | emailcleanup.py:244-261 | an old message is deleted exactly when some rule fragment hits, its reason renders the first hit in priority order, and otherwise it is kept as `not_unnecessary` |
| ScenarioNewsletter.NewsletterDigestIsDeleted | emailcleanup.py:244-255 | an old message from `newsletter@updates.com` with subject `Weekly Digest` becomes a delete record with reason `Contains pattern: newsletter` |
| Batching.Partition | emailcleanup.py:184-191 | for a positive batch size: the batches concatenate back to the list; batch k is the slice from k·size; every batch is non-empty and at most size long; all but the last are full; the batch count is the ceiling of n / size |
| Batching.BatchSizes | emailcleanup.py:187-188 | the slice description alone fixes the batch sizes and the bounds on the batch count |
| Batching.SliceIsBatch | emailcleanup.py:187-188 | a loop that starts each slice where the previous one ended, from offset 0, cuts batch number k as its k-th slice |
| Batching.BatchCountIsCeiling | emailcleanup.py:187 | the bounds on the batch count pin it down as the ceiling of n / size |
| Scanner.FetchFromFindsFirstFetched | emailcleanup.py:201-217 | the retry loop yields a header exactly when one of the first `max_retries = 2` attempts fetches, and then it is the header of the first such attempt |
| Scanner.Cut | emailcleanup.py:197-199 | the number of ids looked at is at most the list length and at most the stop position, and is the whole list when stop is never requested |
| Scanner.Emit | emailcleanup.py:236-263 | one id contributes at most one record |
| Scanner.Reach | emailcleanup.py:197-199 | the ids of a batch looked at are exactly those before the first position where the stop flag reads true |
| Scanner.ProcessBatch | emailcleanup.py:193-276 | the batch results are exactly the records of the ids reached before the stop flag, in id order, one per id whose fetch succeeded |
| Scanner.CollectOnePerFetchedId | emailcleanup.py:197-263 | the results carry exactly the ids whose fetch succeeded, in order, at most one per id, and each result is the decision on that id's fetched header |
| Scanner.AllFetchedMeansAllCollected | emailcleanup.py:197-263 | when every fetch succeeds, every id is accounted for in order |
| Scanner.CollectAppend | emailcleanup.py:197-263 | the results for two runs of ids in a row are the results of each run, concatenated |
| Scanner.TallyOfCounts | emailcleanup.py:379-392 | after the reset and recording, processed is the number of results, `processed == deleted + kept`, `deleted == len(emails_to_delete)`, and the list holds exactly the delete records in order |
| Scanner.RecordBatch | emailcleanup.py:379-392 | recording a batch's results one by one gives the tally of all results so far |
| Scanner.BatchExtendsCovered | emailcleanup.py:371-378 | a batch started before the stop extends the ids covered by exactly the batch's reached ids |
| Scanner.ScanBatch | emailcleanup.py:371-392 | one batch iteration moves the tally from the ids before the batch to the ids up to its end, stop respected |
| Scanner.ScanEndCoversCut | emailcleanup.py:371-373 | when the loop ends at the end of the list or at a stop, it has covered exactly the ids before the stop |
| Scanner.ScanLoop | emailcleanup.py:367-392 | the k-th batch the loop takes is batch k of the partition into slices of 100; the loop's tally is the tally of the results for the ids before the stop point, so batching changes nothing |
| Scanner.Scan | emailcleanup.py:352-392 | the scan's tally is that of the ids before the stop; the counters agree (`processed == deleted + kept`, `deleted == len(emails_to_delete)`), processed is at most the number of ids and at most the stop position, and every listed entry is a delete record |
| Scanner.ScannedTallyConsistent | emailcleanup.py:352-392 | the counter identities and bounds hold for the tally of any scan |
| Deletion.CountStored | emailcleanup.py:462-473 | the number of successful flags is at most the number of ids |
| Deletion.AllStoredCount | emailcleanup.py:462-473 | when every store call succeeds, every candidate counts as deleted |
| Deletion.DeleteStep | emailcleanup.py:455-473 | after the batch at offset i, the ids tried are those of the candidates up to the batch's end, and the success count splits into the earlier count plus the batch's |
| Deletion.CountStoredAppend | emailcleanup.py:459-473 | the success count over two runs of ids is the sum of the two counts |
| Deletion.FlagBatch | emailcleanup.py:462-473 | each candidate of a sub-batch is tried once, in order; successes are those the store accepts, and successes plus failures grow by the batch size |
| Deletion.DeleteAll | emailcleanup.py:449-486 | the k-th batch is batch k of the partition into slices of 50; every candidate is tried exactly once, in order; `successful` counts the accepted ones; `successful + failed` equals the number of candidates; the expunge outcome changes neither count |
| Cleanup.ConfirmedIff | emailcleanup.py:443 | `confirm.lower() == 'yes'` holds exactly for the three letters y, e, s in any case, with nothing around them |
| Cleanup.ShowAnalysisResults | emailcleanup.py:422-446 | deletion runs exactly when the run is not a dry run, something is to be deleted, and the answer is "yes"; it then tries exactly the listed candidates |
| Cleanup.CollectedDeletionsAreOld | emailcleanup.py:236-255 | every delete record of a scan is for a message whose fetched header has a date before the cutoff and is flagged by the classifier, and the record's date is below the cutoff |
| Cleanup.DeletionsAreDeleteRecords | emailcleanup.py:384-387 | the list of candidates holds only delete records from the results |
| Cleanup.Run | emailcleanup.py:498-530 | a failed connect ends the run; an empty search ends it; otherwise the tally is that of the ids before the stop; the counters agree; deletion happens only behind the gate and for exactly the listed ids; every listed message is a delete record dated before the cutoff |

## Left out

- Connecting, reconnecting, searching and closing (`connect_to_gmail`, `reconnect_if_needed`, `get_unread_emails_fast`, `close_connection`, lines 70-182 and 488-496): IMAP network I/O. Their outcomes are the inputs `connected` and `ids`. A failed reconnect before a retry is folded into a `Failed` fetch attempt.
- `decode_header_value` (lines 309-327) and `parse_email_date` (lines 329-342): thin wrappers over library code. Headers arrive decoded, and the date is an `Option<int>` on the same scale as the cutoff.
- The fixed cutoff `datetime(2025, 6, 1)` (line 55): it is a parameter.
- The throughput and ETA figures (lines 395-402): floating point and wall-clock time.
- The signal handler (lines 63-68): asynchronous delivery. It becomes the stop position; once set, the flag stays set.
- All printing: the progress lines, the sample listing of five candidates, and the echo of the first twenty deletions and of every fiftieth one after them. `input` and `getpass` are left out too; the typed answer is a parameter of the gate.
- The unused `ThreadPoolExecutor` import (line 22) and the SSL override (line 25): neither affects behaviour.
- Text.Lower: lowers ASCII letters only, whereas Python's `str.lower` also lowers non-ASCII letters. The model has no Unicode tables.
- Deletion.DeleteAll: the store oracle says only whether the call raised. An IMAP `NO` answer that raises nothing counts as a success, as it does in the source.
- Scanner.Scan: oracles are looked up per id, so a duplicated id in the search result gets the same fetch outcomes both times.
- `fetch_email_headers_batch` defaults to a batch size of 50, but the scan calls it with 100. The model states `Partition` for any positive size. The scan walks the same 100-id slices by offset, and the deletion pass walks 50-id slices.
