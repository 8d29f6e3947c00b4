/** String primitives the classifier relies on: ASCII lower-casing, literal
    substring search (Python's `needle in hay`) and the two ways the source
    splits an address at `@`. */
module Text {
  import opened Wrappers

  predicate IsUpper(c: char) {
    'A' <= c <= 'Z'
  }

  /** Lower-cases one ASCII letter and leaves every other character alone.
      Python's `str.lower` also folds non-ASCII letters; this model does not. */
  function LowerChar(c: char): char {
    if IsUpper(c) then (c as int + 32) as char else c
  }

  function Lower(s: string): (r: string)
    ensures |r| == |s|
    ensures forall i :: 0 <= i < |s| ==> r[i] == LowerChar(s[i])
  {
    seq(|s|, i requires 0 <= i < |s| => LowerChar(s[i]))
  }

  /** Lower-casing leaves no upper-case letter behind, is idempotent, and
      keeps every character that is not an upper-case letter where it was. */
  lemma LowerNormalizes(s: string)
    ensures forall i :: 0 <= i < |s| ==> !IsUpper(Lower(s)[i])
    ensures Lower(Lower(s)) == Lower(s)
    ensures forall i :: 0 <= i < |s| && !IsUpper(s[i]) ==> Lower(s)[i] == s[i]
    ensures '@' in Lower(s) <==> '@' in s
  {
    var l := Lower(s);
    assert forall i :: 0 <= i < |s| ==> !IsUpper(l[i]);
    if '@' in l {
      var k :| 0 <= k < |l| && l[k] == '@';
      assert s[k] == '@';
    }
    if '@' in s {
      var k :| 0 <= k < |s| && s[k] == '@';
      assert l[k] == '@';
    }
  }

  /** `needle` appears in `hay` starting at position `i`. */
  predicate OccursAt(hay: string, needle: string, i: nat) {
    i + |needle| <= |hay| && hay[i..i + |needle|] == needle
  }

  /** The declarative meaning of Python's `needle in hay` on strings. */
  ghost predicate Occurs(hay: string, needle: string) {
    exists i: nat :: OccursAt(hay, needle, i)
  }

  /** The leftmost occurrence of `needle` in `hay` at or after `from`. */
  function IndexOf(hay: string, needle: string, from: nat): (r: Option<nat>)
    ensures r.Some? ==> from <= r.value && OccursAt(hay, needle, r.value)
    ensures r.Some? ==> forall j: nat :: from <= j < r.value ==> !OccursAt(hay, needle, j)
    ensures r.None? ==> forall j: nat :: from <= j ==> !OccursAt(hay, needle, j)
    decreases |hay| - from
  {
    if from + |needle| > |hay| then None
    else if hay[from..from + |needle|] == needle then Some(from)
    else IndexOf(hay, needle, from + 1)
  }

  /** Python's `needle in hay` for strings: a literal substring test, in
      which the empty string occurs in every string. */
  function Contains(hay: string, needle: string): (r: bool)
    ensures r <==> Occurs(hay, needle)
  {
    var i := IndexOf(hay, needle, 0);
    if i.Some? then assert OccursAt(hay, needle, i.value); true
    else false
  }

  /** The position of the last `@` among the first `n` characters of `s`. */
  function LastAt(s: string, n: nat): (r: Option<nat>)
    requires n <= |s|
    ensures r.Some? ==> r.value < n && s[r.value] == '@'
    ensures r.Some? ==> forall j :: r.value < j < n ==> s[j] != '@'
    ensures r.None? ==> forall j :: 0 <= j < n ==> s[j] != '@'
  {
    if n == 0 then None
    else if s[n - 1] == '@' then Some(n - 1)
    else LastAt(s, n - 1)
  }

  /** The domain of an address as line 290 computes it: the text after the
      last `@`, or the empty string when there is none. */
  function Domain(s: string): (r: string)
    ensures '@' !in s ==> r == ""
    ensures '@' in s ==> exists k :: 0 <= k < |s| && s[k] == '@' && r == s[k + 1..]
    ensures '@' !in r
  {
    match LastAt(s, |s|)
    case Some(k) => s[k + 1..]
    case None => ""
  }

  /** The local part of an address as line 296 computes it: the text
      before the first `@`, or all of `s` when there is none. */
  function LocalPart(s: string): (r: string)
    ensures |r| <= |s| && r == s[..|r|]
    ensures '@' !in r
    ensures '@' in s ==> s[|r|] == '@'
    ensures '@' !in s ==> r == s
  {
    if |s| == 0 then ""
    else if s[0] == '@' then ""
    else [s[0]] + LocalPart(s[1..])
  }
}
