/** The semantics of a regular-expression search for a pattern of the form
    `P(.+?)T`, where P is a literal prefix and T a single literal
    terminator character, as a backtracking engine runs it: the earliest
    start position at which the pattern matches, and at that position the
    shortest non-empty group. The group is made of characters `.` matches,
    that is, anything but a newline. The first character of the group may
    itself be the terminator; later ones may not, since a shorter group
    would then have matched. */
module LazySearch {
  import opened Wrappers

  const Newline: char := '\n'

  /** s[start..start+k] is a possible group: non-empty, without a newline,
      and followed by the terminator t. */
  predicate GroupEndsAt(t: char, s: string, start: nat, k: nat) {
    && 1 <= k
    && start + k < |s|
    && (forall j :: start <= j < start + k ==> s[j] != Newline)
    && s[start + k] == t
  }

  /** The pattern P(.+?)T matches s at position i with a group of length k. */
  predicate MatchAt(p: string, t: char, s: string, i: nat, k: nat) {
    && i + |p| <= |s|
    && s[i..i + |p|] == p
    && GroupEndsAt(t, s, i + |p|, k)
  }

  /** (i, k) is the match a search reports: no match starts earlier, and no
      shorter group matches at i. */
  ghost predicate IsFirstMatch(p: string, t: char, s: string, i: nat, k: nat) {
    && MatchAt(p, t, s, i, k)
    && (forall i': nat, k': nat :: i' < i ==> !MatchAt(p, t, s, i', k'))
    && (forall k': nat :: k' < k ==> !MatchAt(p, t, s, i, k'))
  }

  /** Extends the group one character at a time from length k, as the
      lazy quantifier does, until the terminator follows it. */
  function ShortestGroup(t: char, s: string, start: nat, k: nat): (r: Option<nat>)
    requires 1 <= k
    requires forall j :: start <= j < start + k - 1 && j < |s| ==> s[j] != Newline
    ensures r.Some? ==> k <= r.value && GroupEndsAt(t, s, start, r.value)
    ensures r.Some? ==> forall k': nat :: k <= k' < r.value ==> !GroupEndsAt(t, s, start, k')
    ensures r.None? ==> forall k': nat :: k <= k' ==> !GroupEndsAt(t, s, start, k')
    decreases |s| - start - k
  {
    if start + k >= |s| then None
    else if s[start + k - 1] == Newline then None
    else if s[start + k] == t then Some(k)
    else ShortestGroup(t, s, start, k + 1)
  }

  /** Tries the start positions i, i+1, ... in order. */
  function SearchFrom(p: string, t: char, s: string, i: nat): (r: Option<(nat, nat)>)
    ensures r.Some? ==> i <= r.value.0 && MatchAt(p, t, s, r.value.0, r.value.1)
    ensures r.Some? ==> forall i': nat, k': nat :: i <= i' < r.value.0 ==> !MatchAt(p, t, s, i', k')
    ensures r.Some? ==> forall k': nat :: k' < r.value.1 ==> !MatchAt(p, t, s, r.value.0, k')
    ensures r.None? ==> forall i': nat, k': nat :: i <= i' ==> !MatchAt(p, t, s, i', k')
    decreases |s| - i
  {
    if i + |p| + 1 >= |s| then None
    else if s[i..i + |p|] == p then
      match ShortestGroup(t, s, i + |p|, 1)
      case Some(k) => Some((i, k))
      case None => SearchFrom(p, t, s, i + 1)
    else SearchFrom(p, t, s, i + 1)
  }

  /** The position and group length of the first match, if any. */
  function FirstMatch(p: string, t: char, s: string): (r: Option<(nat, nat)>)
    ensures r.Some? ==> IsFirstMatch(p, t, s, r.value.0, r.value.1)
    ensures r.None? <==> forall i: nat, k: nat :: !MatchAt(p, t, s, i, k)
  {
    SearchFrom(p, t, s, 0)
  }

  /** The group of the first match of P(.+?)T in s: what
      `re.search(P + "(.+?)" + T, s).group(1)` returns, or None when the
      search finds nothing. */
  function Search(p: string, t: char, s: string): (r: Option<string>)
    ensures r.None? <==> forall i: nat, k: nat :: !MatchAt(p, t, s, i, k)
    ensures r.Some? ==> exists i: nat, k: nat :: IsFirstMatch(p, t, s, i, k) && r.value == s[i + |p|..i + |p| + k]
  {
    match FirstMatch(p, t, s)
    case None => None
    case Some((i, k)) => Some(s[i + |p|..i + |p| + k])
  }

  /** Two first matches are the same match: the search result is
      determined by the string. */
  lemma FirstMatchUnique(p: string, t: char, s: string, i: nat, k: nat, i': nat, k': nat)
    requires IsFirstMatch(p, t, s, i, k) && IsFirstMatch(p, t, s, i', k')
    ensures i == i' && k == k'
  {
  }

  /** Conversely, the search reports the group of the first match. */
  lemma SearchReportsFirstMatch(p: string, t: char, s: string, i: nat, k: nat)
    requires IsFirstMatch(p, t, s, i, k)
    ensures Search(p, t, s) == Some(s[i + |p|..i + |p| + k])
  {
    var i': nat, k': nat :| IsFirstMatch(p, t, s, i', k') && Search(p, t, s).value == s[i' + |p|..i' + |p| + k'];
    FirstMatchUnique(p, t, s, i, k, i', k');
  }

  /** What a found group looks like: non-empty, newline-free, preceded by
      the prefix and followed by the terminator, and with no terminator
      after its first character. */
  lemma SearchGroupShape(p: string, t: char, s: string)
    requires Search(p, t, s).Some?
    ensures var g := Search(p, t, s).value;
      && |g| >= 1
      && (forall j :: 0 <= j < |g| ==> g[j] != Newline)
      && (forall j :: 1 <= j < |g| ==> g[j] != t)
      && exists i: nat :: MatchAt(p, t, s, i, |g|) && s[i + |p|..i + |p| + |g|] == g
  {
    var g := Search(p, t, s).value;
    var i: nat, k: nat :| IsFirstMatch(p, t, s, i, k) && g == s[i + |p|..i + |p| + k];
    assert |g| == k;
    forall j | 1 <= j < |g|
      ensures g[j] != t
    {
      assert !MatchAt(p, t, s, i, j);
      assert g[j] == s[i + |p| + j];
    }
  }
}
