/** The fast "unnecessary email" classifier (emailcleanup.py lines 278-307):
    four rule groups tried in a fixed order, each a list of literal fragments
    matched against some lower-cased fields; the first fragment found wins. */
module Classifier {
  import opened Wrappers
  import opened Text
  import opened Rules

  /** Which rule fired, and on which fragment; `ReasonText` renders it as
      the source's f-strings do. */
  datatype Reason =
    | Pattern(fragment: string)
    | SenderDomain(fragment: string)
    | SenderName(fragment: string)
    | Promotional(fragment: string)
    | NotIdentified

  function ReasonText(r: Reason): string {
    match r
    case Pattern(f) => "Contains pattern: " + f
    case SenderDomain(f) => "Sender domain: " + f
    case SenderName(f) => "Sender name contains: " + f
    case Promotional(f) => "Promotional keyword: " + f
    case NotIdentified => "Not identified as unnecessary"
  }

  /** The pair `(is_unnecessary, reason)` the source returns. */
  datatype Classification = Classification(unnecessary: bool, reason: Reason)

  /** `fragment` is a literal substring of at least one of `fields`. */
  predicate HitsAny(fragment: string, fields: seq<string>) {
    exists k :: 0 <= k < |fields| && Contains(fields[k], fragment)
  }

  /** Index of the first fragment at or after `from` that hits one of the
      fields, scanning the list in order as the source's `for` loops do. */
  function FirstHit(fragments: seq<string>, fields: seq<string>, from: nat): (r: Option<nat>)
    ensures r.Some? ==> from <= r.value < |fragments| && HitsAny(fragments[r.value], fields)
    ensures r.Some? ==> forall j :: from <= j < r.value ==> !HitsAny(fragments[j], fields)
    ensures r.None? ==> forall j :: from <= j < |fragments| ==> !HitsAny(fragments[j], fields)
    decreases |fragments| - from
  {
    if from >= |fragments| then None
    else if HitsAny(fragments[from], fields) then Some(from)
    else FirstHit(fragments, fields, from + 1)
  }

  /** The source's `is_unnecessary_email_fast(sender, subject, sender_full)`. */
  function Classify(sender: string, subject: string, senderFull: string): (c: Classification)
    ensures c.unnecessary <==> !c.reason.NotIdentified?
  {
    var senderLower := Lower(sender);
    var subjectLower := Lower(subject);
    var senderFullLower := Lower(senderFull);
    match FirstHit(Patterns, [senderLower, subjectLower, senderFullLower], 0)
    case Some(i) => Classification(true, Pattern(Patterns[i]))
    case None =>
      match FirstHit(Domains, [Domain(senderLower)], 0)
      case Some(i) => Classification(true, SenderDomain(Domains[i]))
      case None =>
        match FirstHit(SenderKeywords, [LocalPart(senderLower)], 0)
        case Some(i) => Classification(true, SenderName(SenderKeywords[i]))
        case None =>
          match FirstHit(PromoKeywords, [subjectLower], 0)
          case Some(i) => Classification(true, Promotional(PromoKeywords[i]))
          case None => Classification(false, NotIdentified)
  }

  // ---------------------------------------------------------------------
  // A declarative statement of the rule order, independent of Classify.

  /** A rule group: its fragments and the fields each fragment is tried on. */
  datatype RuleGroup = RuleGroup(fragments: seq<string>, fields: seq<string>)

  /** The four groups in priority order: patterns on all three lower-cased
      fields, domains on the text after the last `@`, sender keywords on the
      text before the first `@`, promotional keywords on the subject. */
  function Groups(sender: string, subject: string, senderFull: string): seq<RuleGroup> {
    var s := Lower(sender);
    [ RuleGroup(Patterns, [s, Lower(subject), Lower(senderFull)]),
      RuleGroup(Domains, [Domain(s)]),
      RuleGroup(SenderKeywords, [LocalPart(s)]),
      RuleGroup(PromoKeywords, [Lower(subject)]) ]
  }

  /** The reason the source reports for fragment `f` of group number `g`. */
  function Tag(g: nat, f: string): Reason {
    if g == 0 then Pattern(f)
    else if g == 1 then SenderDomain(f)
    else if g == 2 then SenderName(f)
    else Promotional(f)
  }

  ghost predicate Hits(groups: seq<RuleGroup>, g: nat, i: nat) {
    g < |groups| && i < |groups[g].fragments| && HitsAny(groups[g].fragments[i], groups[g].fields)
  }

  /** Fragment `i` of group `g` hits, and nothing earlier in the order does:
      no fragment of an earlier group, no earlier fragment of group `g`. */
  ghost predicate IsFirstHit(groups: seq<RuleGroup>, g: nat, i: nat) {
    && Hits(groups, g, i)
    && (forall g': nat, i': nat :: g' < g ==> !Hits(groups, g', i'))
    && (forall i': nat :: i' < i ==> !Hits(groups, g, i'))
  }

  /** The groups tried in order from group `g` on, stopping at the first
      group that has a hit. */
  function Cascade(groups: seq<RuleGroup>, g: nat): (c: Classification)
    decreases |groups| - g
  {
    if g >= |groups| then Classification(false, NotIdentified)
    else match FirstHit(groups[g].fragments, groups[g].fields, 0)
      case Some(i) => Classification(true, Tag(g, groups[g].fragments[i]))
      case None => Cascade(groups, g + 1)
  }

  /** Classify is the cascade over the declarative rule table. */
  lemma ClassifyIsCascade(sender: string, subject: string, senderFull: string)
    ensures Classify(sender, subject, senderFull) == Cascade(Groups(sender, subject, senderFull), 0)
  {
    var s := Lower(sender);
    var gs := Groups(sender, subject, senderFull);
    assert gs[0].fields == [s, Lower(subject), Lower(senderFull)];
    assert gs[1].fields == [Domain(s)];
    assert gs[2].fields == [LocalPart(s)];
    assert gs[3].fields == [Lower(subject)];
    assert Cascade(gs, 4) == Classification(false, NotIdentified);
    assert Cascade(gs, 3) == Classify(sender, subject, senderFull) || FirstHit(gs[2].fragments, gs[2].fields, 0).Some?
      || FirstHit(gs[1].fragments, gs[1].fields, 0).Some? || FirstHit(gs[0].fragments, gs[0].fields, 0).Some?;
    assert Cascade(gs, 2) == Classify(sender, subject, senderFull)
      || FirstHit(gs[1].fragments, gs[1].fields, 0).Some? || FirstHit(gs[0].fragments, gs[0].fields, 0).Some?;
    assert Cascade(gs, 1) == Classify(sender, subject, senderFull) || FirstHit(gs[0].fragments, gs[0].fields, 0).Some?;
  }

  /** From group `g` on, the cascade answers with the first hit in priority
      order, or with NotIdentified when there is none. */
  lemma {:induction false} CascadeFindsFirstHit(groups: seq<RuleGroup>, g: nat)
    requires g <= |groups|
    requires forall g': nat, i': nat :: g' < g ==> !Hits(groups, g', i')
    ensures Cascade(groups, g).unnecessary
        ==> exists h: nat, i: nat :: IsFirstHit(groups, h, i)
                && Cascade(groups, g).reason == Tag(h, groups[h].fragments[i])
    ensures !Cascade(groups, g).unnecessary
        <==> forall h: nat, i: nat :: !Hits(groups, h, i)
    ensures !Cascade(groups, g).unnecessary ==> Cascade(groups, g).reason == NotIdentified
    decreases |groups| - g
  {
    if g == |groups| {
      forall h: nat, i: nat ensures !Hits(groups, h, i) {
        if h < g {
        }
      }
    } else {
      var r := FirstHit(groups[g].fragments, groups[g].fields, 0);
      if r.Some? {
        assert IsFirstHit(groups, g, r.value);
        assert Hits(groups, g, r.value);
      } else {
        forall g': nat, i': nat | g' < g + 1 ensures !Hits(groups, g', i') {
          if g' == g && i' < |groups[g].fragments| {
            assert !HitsAny(groups[g].fragments[i'], groups[g].fields);
          }
        }
        CascadeFindsFirstHit(groups, g + 1);
      }
    }
  }

  /** First match wins: when fragment `i` of group `g` is the first hit in
      priority order, the classifier answers True with exactly that group's
      reason and that fragment. */
  lemma ClassifyFirstMatchWins(sender: string, subject: string, senderFull: string, g: nat, i: nat)
    requires IsFirstHit(Groups(sender, subject, senderFull), g, i)
    ensures Classify(sender, subject, senderFull)
         == Classification(true, Tag(g, Groups(sender, subject, senderFull)[g].fragments[i]))
  {
    var gs := Groups(sender, subject, senderFull);
    ClassifyIsCascade(sender, subject, senderFull);
    CascadeFindsFirstHit(gs, 0);
    assert Hits(gs, g, i);
    var h: nat, j: nat :| IsFirstHit(gs, h, j) && Cascade(gs, 0).reason == Tag(h, gs[h].fragments[j]);
  }

  /** The classifier answers False, with "Not identified as unnecessary",
      exactly when no fragment of any group is a substring of its fields. */
  lemma ClassifyFalseIffNoHit(sender: string, subject: string, senderFull: string)
    ensures !Classify(sender, subject, senderFull).unnecessary
        <==> forall g: nat, i: nat :: !Hits(Groups(sender, subject, senderFull), g, i)
    ensures !Classify(sender, subject, senderFull).unnecessary
        ==> Classify(sender, subject, senderFull).reason == NotIdentified
  {
    ClassifyIsCascade(sender, subject, senderFull);
    CascadeFindsFirstHit(Groups(sender, subject, senderFull), 0);
  }

  /** When the sender holds no `@` the domain group can never fire: its
      field is the empty string and every domain fragment is non-empty. */
  lemma NoAtMeansNoDomainRule(sender: string, subject: string, senderFull: string)
    requires '@' !in sender
    ensures !Classify(sender, subject, senderFull).reason.SenderDomain?
    ensures forall i: nat :: !Hits(Groups(sender, subject, senderFull), 1, i)
  {
    LowerNormalizes(sender);
    assert Domain(Lower(sender)) == "";
    forall i: nat | i < |Domains|
      ensures !HitsAny(Domains[i], [""])
    {
      assert |Domains[i]| > 0;
      assert !Occurs("", Domains[i]);
      assert !HitsAny(Domains[i], [""]);
    }
  }

  /** The patterns that look like regexes (`social.*notification`, ...) are
      matched literally: one that holds a `*` can only occur in a field that
      holds a `*` too. */
  lemma StarPatternNeedsLiteralStar(field: string, fragment: string)
    requires '*' in fragment && '*' !in field
    ensures !Contains(field, fragment)
  {
    var k :| 0 <= k < |fragment| && fragment[k] == '*';
    forall i: nat ensures !OccursAt(field, fragment, i) {
      if i + |fragment| <= |field| {
        assert field[i..i + |fragment|][k] == field[i + k];
        assert field[i + k] in field;
      }
    }
  }

  /** A fragment found in the subject is a pattern-group hit as well. */
  lemma SubjectHitIsPatternHit(f: string, sender: string, subjectLower: string, senderFull: string)
    requires HitsAny(f, [subjectLower])
    ensures HitsAny(f, [sender, subjectLower, senderFull])
  {
    assert Contains([sender, subjectLower, senderFull][1], f);
  }

  /** A pattern that hits its fields makes the pattern group fire. */
  lemma PatternHitFires(j: nat, fields: seq<string>)
    requires j < |Patterns| && HitsAny(Patterns[j], fields)
    ensures FirstHit(Patterns, fields, 0).Some?
  {
  }

  /** Where each of the first five promotional keywords sits in the
      pattern list. */
  function PatternForPromo(k: nat): (j: nat)
    requires k < 5
    ensures j < |Patterns| && Patterns[j] == PromoKeywords[k]
  {
    if k == 0 then 8 else if k == 1 then 11 else if k == 2 then 9 else if k == 3 then 10 else 12
  }

  /** A promotional keyword among the first five is also a pattern, so it
      can only hit the subject when the pattern group has a hit too. */
  lemma SharedPromoKeywordIsPattern(k: nat, sender: string, subjectLower: string, senderFull: string)
    requires k < 5
    requires HitsAny(PromoKeywords[k], [subjectLower])
    ensures FirstHit(Patterns, [sender, subjectLower, senderFull], 0).Some?
  {
    var j := PatternForPromo(k);
    SubjectHitIsPatternHit(PromoKeywords[k], sender, subjectLower, senderFull);
    PatternHitFires(j, [sender, subjectLower, senderFull]);
  }

  /** The first five promotional keywords are also patterns, and the subject
      is one of the fields patterns are tried on, so only "% off" and
      "free shipping" can ever produce a promotional reason. */
  lemma OnlyTwoPromoKeywordsFire(sender: string, subject: string, senderFull: string)
    ensures Classify(sender, subject, senderFull).reason.Promotional?
        ==> Classify(sender, subject, senderFull).reason.fragment in {"% off", "free shipping"}
  {
    var subjectLower := Lower(subject);
    var fields := [Lower(sender), subjectLower, Lower(senderFull)];
    var p := FirstHit(Patterns, fields, 0);
    var q := FirstHit(PromoKeywords, [subjectLower], 0);
    if p.None? && q.Some? {
      if q.value < 5 {
        SharedPromoKeywordIsPattern(q.value, Lower(sender), subjectLower, Lower(senderFull));
      }
      assert PromoKeywords[q.value] in {"% off", "free shipping"};
    }
  }
}
