/**
 * The two search orders a backtracking regular-expression engine uses: the
 * leftmost position at which a pattern matches, and, for a greedy
 * repetition, the longest extent after which the rest of the pattern still
 * matches.  Also the maximal run a greedy character-class repetition takes.
 */
module Search {
  import opened Wrappers

  /** The least j in [i, n) with p(j), if any. */
  function FirstFrom(i: nat, n: nat, p: nat -> bool): (r: Option<nat>)
    decreases n - i
    ensures r.Some? ==> i <= r.value < n && p(r.value)
    ensures r.Some? ==> forall j :: i <= j < r.value ==> !p(j)
    ensures r.None? ==> forall j :: i <= j < n ==> !p(j)
  {
    if i >= n then None
    else if p(i) then Some(i)
    else FirstFrom(i + 1, n, p)
  }

  /** The greatest j in [lo, hi) with p(j), if any. */
  function LastBelow(lo: nat, hi: nat, p: nat -> bool): (r: Option<nat>)
    decreases hi
    ensures r.Some? ==> lo <= r.value < hi && p(r.value)
    ensures r.Some? ==> forall j :: r.value < j < hi ==> !p(j)
    ensures r.None? ==> forall j :: lo <= j < hi ==> !p(j)
  {
    if hi <= lo then None
    else if p(hi - 1) then Some(hi - 1)
    else LastBelow(lo, hi - 1, p)
  }

  /** The end of the longest run of characters satisfying p that starts at i. */
  function RunEnd(s: string, i: nat, p: char -> bool): (r: nat)
    requires i <= |s|
    decreases |s| - i
    ensures i <= r <= |s|
    ensures forall k :: i <= k < r ==> p(s[k])
    ensures r == |s| || !p(s[r])
  {
    if i == |s| || !p(s[i]) then i else RunEnd(s, i + 1, p)
  }

  /** A run can end only where the character class stops matching, so a run
      boundary that a pattern reaches by any route is the maximal one. */
  lemma RunEndUnique(s: string, i: nat, k: nat, p: char -> bool)
    requires i <= k <= |s|
    requires forall j :: i <= j < k ==> p(s[j])
    requires k == |s| || !p(s[k])
    ensures RunEnd(s, i, p) == k
  {
  }

  /** No newline occurs in s[i..j]. */
  predicate NoNewline(s: string, i: nat, j: nat)
    requires i <= j <= |s|
  {
    forall k :: i <= k < j ==> s[k] != '\n'
  }

  predicate NotNewline(c: char) {
    c != '\n'
  }

  /** For a pattern `.*X`, where X can only start at positions satisfying q
      and never at a newline: LastBelow up to the end of the line picks the
      greatest position that `.*` can reach and X accepts. */
  lemma LastOnLine(s: string, start: nat, q: nat -> bool)
    requires start <= |s|
    requires forall e: nat :: q(e) ==> e < |s| && s[e] != '\n'
    ensures var r := LastBelow(start, RunEnd(s, start, NotNewline), q);
      && (r.None? ==> forall e: nat :: start <= e < |s| && NoNewline(s, start, e) ==> !q(e))
      && (r.Some? ==> start <= r.value < |s| && NoNewline(s, start, r.value) && q(r.value))
      && (r.Some? ==> forall e: nat :: start <= e < |s| && NoNewline(s, start, e) && q(e) ==> e <= r.value)
  {
    var lim := RunEnd(s, start, NotNewline);
    forall e: nat | start <= e < |s| && NoNewline(s, start, e) && q(e)
      ensures e < lim
    {
    }
  }

  /** When e0 is reachable on the line and no later position satisfies q,
      LastBelow up to the end of the line picks e0. */
  lemma LastOnLineIs(s: string, start: nat, q: nat -> bool, e0: nat)
    requires start <= e0 < |s| && NoNewline(s, start, e0) && s[e0] != '\n' && q(e0)
    requires forall e: nat :: q(e) ==> e <= e0
    ensures LastBelow(start, RunEnd(s, start, NotNewline), q) == Some(e0)
  {
    assert forall k :: start <= k <= e0 ==> NotNewline(s[k]);
  }

  /** s holds t at position k. */
  predicate OccursAt(s: string, t: string, k: nat) {
    k + |t| <= |s| && s[k..k + |t|] == t
  }

  /** re.search with a pattern free of metacharacters: a substring test. */
  function Contains(s: string, t: string): (r: bool)
    ensures r <==> exists k :: 0 <= k <= |s| && OccursAt(s, t, k)
  {
    var at := (k: nat) => OccursAt(s, t, k);
    var hit := FirstFrom(0, |s| + 1, at);
    assert forall k: nat :: at(k) == OccursAt(s, t, k);
    hit.Some?
  }

  /** re.match with a metacharacter-free pattern: a prefix test. */
  predicate StartsWith(s: string, t: string) {
    OccursAt(s, t, 0)
  }
}
