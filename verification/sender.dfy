/** Sender-address extraction (emailcleanup.py lines 229-230): the source
    searches the From value for the pattern `<([^>]+)>` and takes the text
    inside the brackets, or the whole value when nothing matches. Here the search is a small
    hand-written scanner, specified against a declarative leftmost match. */
module SenderAddress {
  import opened Wrappers

  /** The pattern `<([^>]+)>` matches `s[i..j + 1]`: a `<` at `i`, a `>` at
      `j`, at least one character between them, and no `>` in between.
      Because `[^>]` cannot consume a `>`, `j` is the first `>` after `i`. */
  predicate MatchAt(s: string, i: nat, j: nat) {
    && i + 2 <= j < |s|
    && s[i] == '<'
    && s[j] == '>'
    && forall k :: i < k < j ==> s[k] != '>'
  }

  /** A match starts at `i` and no match starts further left. */
  ghost predicate LeftmostMatch(s: string, i: nat, j: nat) {
    MatchAt(s, i, j) && forall i': nat, j': nat :: i' < i ==> !MatchAt(s, i', j')
  }

  /** The first `>` at or after `from`. */
  function FirstClose(s: string, from: nat): (r: Option<nat>)
    ensures r.Some? ==> from <= r.value < |s| && s[r.value] == '>'
    ensures r.Some? ==> forall k :: from <= k < r.value ==> s[k] != '>'
    ensures r.None? ==> forall k :: from <= k < |s| ==> s[k] != '>'
    decreases |s| - from
  {
    if from >= |s| then None
    else if s[from] == '>' then Some(from)
    else FirstClose(s, from + 1)
  }

  /** The leftmost match starting at or after `from`, as (start, end). */
  function ScanFrom(s: string, from: nat): (r: Option<(nat, nat)>)
    ensures r.Some? ==> from <= r.value.0 && MatchAt(s, r.value.0, r.value.1)
    ensures r.Some? ==> forall i: nat, j: nat :: from <= i < r.value.0 ==> !MatchAt(s, i, j)
    ensures r.None? ==> forall i: nat, j: nat :: from <= i ==> !MatchAt(s, i, j)
    decreases |s| - from
  {
    if from >= |s| then None
    else if s[from] != '<' then ScanFrom(s, from + 1)
    else match FirstClose(s, from + 1)
      case None => None
      case Some(j) => if j >= from + 2 then Some((from, j)) else ScanFrom(s, from + 1)
  }

  /** The sender address: the text inside the leftmost pair of angle
      brackets that encloses at least one character and no `>`, or the whole
      From value when there is no such pair. */
  function ExtractSender(senderFull: string): (sender: string)
    ensures forall i: nat, j: nat :: LeftmostMatch(senderFull, i, j) ==> sender == senderFull[i + 1..j]
    ensures (forall i: nat, j: nat :: !MatchAt(senderFull, i, j)) ==> sender == senderFull
    ensures '>' !in sender || sender == senderFull
  {
    match ScanFrom(senderFull, 0)
    case None => senderFull
    case Some((i, j)) =>
      senderFull[i + 1..j]
  }

  /** Some match exists exactly when the scanner finds one, and then it is
      the leftmost; so the extracted sender is the capture of the leftmost
      match, or `sender_full` unchanged when there is none. */
  lemma ExtractSenderIsLeftmostCapture(senderFull: string)
    ensures (exists i: nat, j: nat :: MatchAt(senderFull, i, j))
        ==> exists i: nat, j: nat :: LeftmostMatch(senderFull, i, j)
                && ExtractSender(senderFull) == senderFull[i + 1..j]
  {
    var r := ScanFrom(senderFull, 0);
    if r.Some? {
      assert LeftmostMatch(senderFull, r.value.0, r.value.1);
    }
  }

  /** Without a `<` there is nothing to match, and the whole value is the
      sender. */
  lemma NoOpenBracketKeepsWhole(senderFull: string)
    requires '<' !in senderFull
    ensures ExtractSender(senderFull) == senderFull
  {
    forall i: nat, j: nat ensures !MatchAt(senderFull, i, j) {
      if i < |senderFull| {
        assert senderFull[i] in senderFull;
      }
    }
  }
}
