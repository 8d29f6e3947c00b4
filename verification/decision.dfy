/** The per-message decision of `process_email_batch` (emailcleanup.py
    lines 229-261): the date filter first, then the classifier. */
module Decision {
  import opened Wrappers
  import opened Classifier
  import opened SenderAddress

  /** An IMAP message id, kept as an opaque token. */
  type MessageId = string

  /** The decoded header fields of one message. `date` is the parsed Date
      header on the same time scale as the cutoff, or None when it is missing
      or cannot be parsed. */
  datatype Header = Header(senderFull: string, subject: string, date: Option<int>)

  const TooRecentOrNoDate: string := "too_recent_or_no_date"
  const NotUnnecessary: string := "not_unnecessary"

  /** One entry of `batch_results`: a keep record carries only the id and
      the reason; a delete record also carries date, full sender and subject. */
  datatype MessageResult =
    | KeepResult(id: MessageId, reason: string)
    | DeleteResult(id: MessageId, date: int, sender: string, subject: string, reason: string)

  /** Only a message with a known date strictly before the cutoff is looked
      at by the classifier. */
  predicate OldEnough(date: Option<int>, cutoff: int) {
    date.Some? && date.value < cutoff
  }

  /** The classifier's verdict on a header, with the sender extracted from
      the full From value first. */
  function ClassifyHeader(h: Header): Classification {
    Classify(ExtractSender(h.senderFull), h.subject, h.senderFull)
  }

  function Decide(id: MessageId, h: Header, cutoff: int): (r: MessageResult)
    ensures r.id == id
    ensures !OldEnough(h.date, cutoff) ==> r == KeepResult(id, TooRecentOrNoDate)
    ensures r.DeleteResult? <==> OldEnough(h.date, cutoff) && ClassifyHeader(h).unnecessary
    ensures r.DeleteResult? ==> h.date == Some(r.date) && r.date < cutoff && r.sender == h.senderFull && r.subject == h.subject
    ensures OldEnough(h.date, cutoff) && !ClassifyHeader(h).unnecessary ==> r == KeepResult(id, NotUnnecessary)
    ensures r.DeleteResult? ==> r.reason == ReasonText(ClassifyHeader(h).reason)
  {
    if !OldEnough(h.date, cutoff) then KeepResult(id, TooRecentOrNoDate)
    else
      var c := ClassifyHeader(h);
      if c.unnecessary then DeleteResult(id, h.date.value, h.senderFull, h.subject, ReasonText(c.reason))
      else KeepResult(id, NotUnnecessary)
  }

  /** A per-message decision, as the scan loop sees it: it records a
      result for the message it was given. */
  type Decider = d: (MessageId, Header) -> MessageResult | forall id, h :: d(id, h).id == id
    witness (id: MessageId, h: Header) => KeepResult(id, NotUnnecessary)

  /** The decision `process_email_batch` applies with a given cutoff date. */
  function DecideAt(cutoff: int): (d: Decider)
    ensures forall id, h :: d(id, h) == Decide(id, h, cutoff)
  {
    (id: MessageId, h: Header) => Decide(id, h, cutoff)
  }

  /** The date filter dominates: a message with no date, or one at or after
      the cutoff, gets the same keep record whatever its sender and subject. */
  lemma DateFilterDominates(id: MessageId, h1: Header, h2: Header, cutoff: int)
    requires h1.date == h2.date && !OldEnough(h1.date, cutoff)
    ensures Decide(id, h1, cutoff) == Decide(id, h2, cutoff) == KeepResult(id, TooRecentOrNoDate)
  {
  }

  /** A message older than the cutoff is marked for deletion exactly when
      some rule fragment hits, and the recorded reason names the first hit
      in priority order; otherwise it is kept as "not_unnecessary". */
  lemma OldMessageDeletedIffRuleHits(id: MessageId, h: Header, cutoff: int)
    requires OldEnough(h.date, cutoff)
    ensures var gs := Groups(ExtractSender(h.senderFull), h.subject, h.senderFull);
      && (Decide(id, h, cutoff).DeleteResult? <==> exists g: nat, i: nat :: Hits(gs, g, i))
      && (forall g: nat, i: nat :: IsFirstHit(gs, g, i)
            ==> Decide(id, h, cutoff).reason == ReasonText(Tag(g, gs[g].fragments[i])))
      && (Decide(id, h, cutoff).KeepResult? ==> Decide(id, h, cutoff).reason == NotUnnecessary)
  {
    var sender := ExtractSender(h.senderFull);
    ClassifyFalseIffNoHit(sender, h.subject, h.senderFull);
    forall g: nat, i: nat | IsFirstHit(Groups(sender, h.subject, h.senderFull), g, i)
      ensures Decide(id, h, cutoff).reason
           == ReasonText(Tag(g, Groups(sender, h.subject, h.senderFull)[g].fragments[i]))
    {
      ClassifyFirstMatchWins(sender, h.subject, h.senderFull, g, i);
    }
  }
}
