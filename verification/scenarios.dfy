/** Concrete messages run through the model. */
module Scenarios {
  import opened SenderAddress

  /** A display name followed by an address in angle brackets. */
  lemma ExtractSenderDisplayName()
    ensures ExtractSender("Ann <a@b.io>") == "a@b.io"
  {
    var s := "Ann <a@b.io>";
    assert MatchAt(s, 4, 11);
    forall i': nat, j': nat | i' < 4
      ensures !MatchAt(s, i', j')
    {
      assert s[i'] != '<';
    }
    assert s[5..11] == "a@b.io";
  }

  /** An empty `<>` never matches, so the whole value is kept. */
  lemma ExtractSenderEmptyBrackets()
    ensures ExtractSender("a <> b") == "a <> b"
  {
  }

  /** An empty `<>` is skipped and the next bracketed text is taken. */
  lemma ExtractSenderSkipsEmpty()
    ensures ExtractSender("x <> <a> <b>") == "a"
  {
    var s := "x <> <a> <b>";
    assert MatchAt(s, 5, 7);
    forall i': nat, j': nat | i' < 5
      ensures !MatchAt(s, i', j')
    {
      if i' == 2 && 4 <= j' < |s| {
        assert s[3] == '>';
      }
    }
  }

  /** A `<` inside the brackets belongs to the capture. */
  lemma ExtractSenderNestedOpen()
    ensures ExtractSender("x <<a>") == "<a"
  {
    assert LeftmostMatch("x <<a>", 2, 5);
  }
}

module ScenarioNewsletter {
  import opened Wrappers
  import opened Text
  import opened Rules
  import opened Classifier
  import opened SenderAddress
  import opened Decision

  /** A needle whose first two characters never appear side by side in
      `hay` does not occur in it. */
  lemma AbsentPair(hay: string, needle: string)
    requires |needle| > 1
    requires forall i :: 0 <= i < |hay| - 1 ==> hay[i] != needle[0] || hay[i + 1] != needle[1]
    ensures !Contains(hay, needle)
  {
    forall i: nat ensures !OccursAt(hay, needle, i) {
      if i + |needle| <= |hay| {
        assert hay[i..i + |needle|][0] == hay[i] && hay[i..i + |needle|][1] == hay[i + 1];
      }
    }
  }

  /** A sender address whose fragments are all lower case is unchanged by
      lower-casing. */
  lemma LowerOfLowercase(s: string)
    requires forall i :: 0 <= i < |s| ==> !IsUpper(s[i])
    ensures Lower(s) == s
  {
  }

  /** No `<` in the address, so the whole value is the sender. */
  lemma NewsletterSender(s: string)
    requires s == "newsletter@updates.com"
    ensures ExtractSender(s) == s
  {
    assert '<' !in s;
    NoOpenBracketKeepsWhole(s);
  }

  /** Neither "no" nor "do" appears in the address or the subject. */
  lemma NewsletterPairs()
    ensures forall i :: 0 <= i < |"newsletter@updates.com"| - 1 ==>
      "newsletter@updates.com"[i] !in {'n', 'd'} || "newsletter@updates.com"[i + 1] != 'o'
    ensures forall i :: 0 <= i < |"weekly digest"| - 1 ==>
      "weekly digest"[i] !in {'n', 'd'} || "weekly digest"[i + 1] != 'o'
  {
  }

  /** The four patterns ahead of "newsletter" start with "no" or "do". */
  lemma EarlyPatternStart(i: nat)
    requires i < 4
    ensures |Patterns[i]| > 1 && Patterns[i][0] in {'n', 'd'} && Patterns[i][1] == 'o'
  {
    if i == 0 { assert Patterns[i] == "noreply"; }
    else if i == 1 { assert Patterns[i] == "no-reply"; }
    else if i == 2 { assert Patterns[i] == "donotreply"; }
    else { assert Patterns[i] == "notification"; }
  }

  /** So none of them occurs in the address or the subject. */
  lemma EarlyPatternsMiss(p: string)
    requires |p| > 1 && p[0] in {'n', 'd'} && p[1] == 'o'
    ensures !Contains("newsletter@updates.com", p) && !Contains("weekly digest", p)
  {
    NewsletterPairs();
    AbsentPair("newsletter@updates.com", p);
    AbsentPair("weekly digest", p);
  }

  const NewsletterFields: seq<string> := ["newsletter@updates.com", "weekly digest", "newsletter@updates.com"]

  lemma EarlyPatternsMissAll()
    ensures forall i :: 0 <= i < 4 ==> !HitsAny(Patterns[i], NewsletterFields)
  {
    forall i | 0 <= i < 4
      ensures !HitsAny(Patterns[i], NewsletterFields)
    {
      EarlyPatternStart(i);
      EarlyPatternsMiss(Patterns[i]);
    }
  }

  lemma NewsletterPatternHits()
    ensures Patterns[4] == "newsletter"
    ensures HitsAny(Patterns[4], NewsletterFields)
  {
    var s := "newsletter@updates.com";
    assert Patterns[4] == "newsletter";
    assert OccursAt(s, Patterns[4], 0);
    assert Contains(NewsletterFields[0], Patterns[4]);
  }

  /** Lower-casing the message's fields. */
  lemma NewsletterLower(s: string, subject: string)
    requires s == "newsletter@updates.com" && subject == "Weekly Digest"
    ensures Groups(s, subject, s)[0] == RuleGroup(Patterns, NewsletterFields)
  {
    LowerOfLowercase(s);
    assert Lower(subject) == "weekly digest";
  }

  /** A hit in the first group with no earlier hit in it is the first hit. */
  lemma FirstGroupFirstHit(gs: seq<RuleGroup>, i: nat)
    requires |gs| > 0 && i < |gs[0].fragments| && HitsAny(gs[0].fragments[i], gs[0].fields)
    requires forall j :: 0 <= j < i ==> !HitsAny(gs[0].fragments[j], gs[0].fields)
    ensures IsFirstHit(gs, 0, i)
  {
  }

  /** The classifier on that message: the first four patterns do not
      occur, the fifth ("newsletter") does. */
  lemma NewsletterClassified(s: string, subject: string)
    requires s == "newsletter@updates.com" && subject == "Weekly Digest"
    ensures Classify(s, subject, s) == Classification(true, Pattern("newsletter"))
  {
    var gs := Groups(s, subject, s);
    NewsletterLower(s, subject);
    EarlyPatternsMissAll();
    NewsletterPatternHits();
    FirstGroupFirstHit(gs, 4);
    ClassifyFirstMatchWins(s, subject, s, 0, 4);
  }

  /** `newsletter@updates.com` writing "Weekly Digest" before the cutoff is
      marked for deletion with the pattern "newsletter" as reason. */
  lemma NewsletterDigestIsDeleted(id: MessageId, s: string, subject: string, date: int, cutoff: int)
    requires s == "newsletter@updates.com" && subject == "Weekly Digest"
    requires date < cutoff
    ensures Decide(id, Header(s, subject, Some(date)), cutoff)
         == DeleteResult(id, date, s, subject, "Contains pattern: newsletter")
  {
    NewsletterSender(s);
    NewsletterClassified(s, subject);
    var h := Header(s, subject, Some(date));
    assert ClassifyHeader(h) == Classification(true, Pattern("newsletter"));
    DeleteFromClassification(id, h, cutoff, Pattern("newsletter"));
    NewsletterReasonText();
  }

  lemma DeleteFromClassification(id: MessageId, h: Header, cutoff: int, r: Reason)
    requires OldEnough(h.date, cutoff) && ClassifyHeader(h) == Classification(true, r)
    ensures Decide(id, h, cutoff) == DeleteResult(id, h.date.value, h.senderFull, h.subject, ReasonText(r))
  {
  }

  lemma NewsletterReasonText()
    ensures ReasonText(Pattern("newsletter")) == "Contains pattern: newsletter"
  {
  }
}
