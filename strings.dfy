/**
 * `String.prototype.includes` and `String.prototype.replace` with a string
 * pattern, on `seq<char>`: search and replacement of the FIRST occurrence.
 */
module Strings {
  import opened Wrappers

  /** `pat` occurs in `s` starting at index `i`. */
  predicate OccursAt(s: string, pat: string, i: nat) {
    i + |pat| <= |s| && s[i..i + |pat|] == pat
  }

  /** The first occurrence of `pat` in `s` at or after `from`. */
  function IndexFrom(s: string, pat: string, from: nat): (r: Option<nat>)
    requires from <= |s|
    ensures r.Some? ==> from <= r.value && OccursAt(s, pat, r.value)
    ensures r.Some? ==> forall j :: from <= j < r.value ==> !OccursAt(s, pat, j)
    ensures r.None? ==> forall j :: from <= j <= |s| ==> !OccursAt(s, pat, j)
    decreases |s| - from
  {
    if OccursAt(s, pat, from) then Some(from)
    else if from == |s| then None
    else IndexFrom(s, pat, from + 1)
  }

  /** `s.indexOf(pat)`, with `None` for -1. */
  function IndexOf(s: string, pat: string): (r: Option<nat>)
    ensures r.Some? ==> OccursAt(s, pat, r.value) && forall j :: 0 <= j < r.value ==> !OccursAt(s, pat, j)
    ensures r.None? ==> forall j :: 0 <= j <= |s| ==> !OccursAt(s, pat, j)
  {
    IndexFrom(s, pat, 0)
  }

  /** `s.includes(pat)`. */
  predicate Contains(s: string, pat: string) {
    IndexOf(s, pat).Some?
  }

  /**
   * The replacement text `replace` inserts for `rep` (the GetSubstitution
   * operation of ECMA-262, for a string pattern, so with no captures): `$$`
   * gives `$`, `$&` the matched text, `` $` `` the text before the match and
   * `$'` the text after it; any other `$` is kept as it is.
   */
  function Expand(rep: string, matched: string, before: string, after: string): (r: string)
    ensures '$' !in rep ==> r == rep
  {
    if rep == [] then []
    else if rep[0] == '$' && |rep| >= 2 && rep[1] == '$' then "$" + Expand(rep[2..], matched, before, after)
    else if rep[0] == '$' && |rep| >= 2 && rep[1] == '&' then matched + Expand(rep[2..], matched, before, after)
    else if rep[0] == '$' && |rep| >= 2 && rep[1] == '`' then before + Expand(rep[2..], matched, before, after)
    else if rep[0] == '$' && |rep| >= 2 && rep[1] == '\'' then after + Expand(rep[2..], matched, before, after)
    else [rep[0]] + Expand(rep[1..], matched, before, after)
  }

  /** `s.replace(pat, rep)` for a string pattern: only the first occurrence is replaced, by the expanded `rep`. */
  function ReplaceFirst(s: string, pat: string, rep: string): (r: string)
    ensures !Contains(s, pat) ==> r == s
    ensures Contains(s, pat) ==>
      var i := IndexOf(s, pat).value;
      r == s[..i] + Expand(rep, pat, s[..i], s[i + |pat|..]) + s[i + |pat|..]
  {
    match IndexOf(s, pat)
    case None => s
    case Some(i) => s[..i] + Expand(rep, s[i..i + |pat|], s[..i], s[i + |pat|..]) + s[i + |pat|..]
  }

  /** Any occurrence of `pat` means `includes` holds, and the first one is no later. */
  lemma OccurrenceIsContained(s: string, pat: string, i: nat)
    requires OccursAt(s, pat, i)
    ensures Contains(s, pat) && IndexOf(s, pat).value <= i
  {
  }

  /** Replacing a pattern that occurs nowhere else leaves the text around it in place. */
  lemma {:induction false} ReplaceAtUniqueOccurrence(pre: string, pat: string, post: string, rep: string)
    requires |pat| > 0
    requires forall j :: 0 <= j < |pre| ==> !OccursAt(pre + pat + post, pat, j)
    ensures ReplaceFirst(pre + pat + post, pat, rep) == pre + Expand(rep, pat, pre, post) + post
    ensures '$' !in rep ==> ReplaceFirst(pre + pat + post, pat, rep) == pre + rep + post
  {
    var s := pre + pat + post;
    assert s[|pre|..|pre| + |pat|] == pat;
    assert OccursAt(s, pat, |pre|);
    var i := IndexOf(s, pat).value;
    assert i == |pre|;
    assert s[..i] == pre;
    assert s[i + |pat|..] == post;
  }

  /** `$&` stands for the match itself, so replacing by `"$&"` changes nothing. */
  lemma ReplaceByMatchIsIdentity(s: string, pat: string)
    ensures ReplaceFirst(s, pat, "$&") == s
  {
    if Contains(s, pat) {
      var i := IndexOf(s, pat).value;
      assert "$&"[2..] == [];
      assert Expand("$&", pat, s[..i], s[i + |pat|..]) == pat;
      assert s == s[..i] + s[i..i + |pat|] + s[i + |pat|..];
    }
  }

  /** `$$` is one dollar sign, and `` $` `` followed by `$'` rebuilds the text around the match. */
  lemma ExpandSpecials(matched: string, before: string, after: string)
    ensures Expand("$$", matched, before, after) == "$"
    ensures Expand("$`$'", matched, before, after) == before + after
    ensures Expand("$1", matched, before, after) == "$1"
  {
    assert "$$"[2..] == [];
    assert "$`$'"[2..] == "$'";
    assert "$'"[2..] == [];
    assert "$1"[1..] == "1";
    assert "1"[1..] == [];
  }
}
