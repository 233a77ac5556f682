/**
 * The regular expressions the scripts use on a key line, characterised by
 * the match a backtracking engine reports: the leftmost start, greedy
 * repetitions taken as far as the rest of the pattern allows.
 *
 *   key pattern      PREFIX .* " \s+ MARKER \s+ ([A-Za-z0-9+/=]+)
 *   comment pattern  MARKER \s+ [A-Za-z0-9+/=]+ \s+ ([A-Za-z0-9+/=.@-]+)
 *   public key       MARKER \s+ ([A-Za-z0-9+/=]+)
 *
 * MARKER is "sk-ssh-ed25519@openssh.com" written without escaping its dot,
 * so that position matches any character but a newline.
 */
module Patterns {
  import opened Wrappers
  import opened Chars
  import opened Search

  const Marker: string := "sk-ssh-ed25519@openssh.com"

  /** The position of the unescaped dot in the marker. */
  const Wildcard: nat := 22

  /** Character k of the marker read as a pattern. */
  predicate MarkerCharMatches(c: char, k: nat)
    requires k < |Marker|
  {
    if k == Wildcard then c != '\n' else c == Marker[k]
  }

  /** The marker pattern matches s at p. */
  predicate MarkerAt(s: string, p: nat) {
    p + |Marker| <= |s| && forall k :: p <= k < p + |Marker| ==> MarkerCharMatches(s[k], k - p)
  }

  /** The marker itself, wherever it occurs, matches the marker pattern. */
  lemma LiteralMarkerMatches(s: string, p: nat)
    requires OccursAt(s, Marker, p)
    ensures MarkerAt(s, p)
  {
    forall k | p <= k < p + |Marker|
      ensures MarkerCharMatches(s[k], k - p)
    {
      assert s[k] == s[p..p + |Marker|][k - p];
    }
  }

  /** A match of the marker pattern begins with 's', never with whitespace. */
  lemma MarkerStart(s: string, p: nat)
    requires MarkerAt(s, p)
    ensures s[p] == 's' && !IsSpace(s[p])
  {
    assert MarkerCharMatches(s[p], 0);
  }

  /** The unescaped dot: a text that is not the marker matches the pattern. */
  lemma DotIsWildcard()
    ensures MarkerAt("sk-ssh-ed25519@opensshXcom", 0)
    ensures "sk-ssh-ed25519@opensshXcom" != Marker
  {
    var s := "sk-ssh-ed25519@opensshXcom";
    assert s[22] != Marker[22];
  }

  /** re.search for the marker pattern: the text of the leftmost match. */
  function FindMarker(u: string): (r: Option<string>)
    ensures r.None? <==> forall p: nat :: !MarkerAt(u, p)
    ensures r.Some? ==> exists p: nat ::
      && MarkerAt(u, p) && r.value == u[p..p + |Marker|]
      && forall q: nat :: q < p ==> !MarkerAt(u, q)
  {
    var at := (p: nat) => MarkerAt(u, p);
    assert forall p: nat :: at(p) == MarkerAt(u, p);
    match FirstFrom(0, |u| + 1, at)
    case None => None
    case Some(p) => Some(u[p..p + |Marker|])
  }

  /** Searching the marker itself finds all of it. */
  lemma FindMarkerItself()
    ensures FindMarker(Marker) == Some(Marker)
  {
    LiteralMarkerMatches(Marker, 0);
    assert Marker[0..|Marker|] == Marker;
  }

  // ---------------------------------------------------------------- key

  /** What follows the closing quote of from="…": whitespace, the marker,
      whitespace and the captured token, as positions in s. */
  predicate KeyTailShape(s: string, a: nat, w1: nat, w2: nat, t: nat) {
    && a < w1 && w1 + |Marker| < w2 < t <= |s|
    && (forall k :: a <= k < w1 ==> IsSpace(s[k]))
    && MarkerAt(s, w1)
    && (forall k :: w1 + |Marker| <= k < w2 ==> IsSpace(s[k]))
    && (forall k :: w2 <= k < t ==> IsBase64Char(s[k]))
    && (t == |s| || !IsBase64Char(s[t]))
  }

  /** The token the key pattern captures when the closing quote is just before
      a, or None if the rest of the pattern does not match there. */
  function KeyTail(s: string, a: nat): Option<string>
    requires a <= |s|
  {
    var w1 := RunEnd(s, a, IsSpace);
    if w1 == a || !MarkerAt(s, w1) then None
    else
      var w2 := RunEnd(s, w1 + |Marker|, IsSpace);
      var t := RunEnd(s, w2, IsBase64Char);
      if w2 == w1 + |Marker| || t == w2 then None else Some(s[w2..t])
  }

  /** The tail has exactly one way to match: each whitespace run must be
      maximal, because neither the marker nor a token starts with
      whitespace. */
  lemma KeyTailComplete(s: string, a: nat, w1: nat, w2: nat, t: nat)
    requires KeyTailShape(s, a, w1, w2, t)
    ensures KeyTail(s, a) == Some(s[w2..t])
  {
    MarkerStart(s, w1);
    RunEndUnique(s, a, w1, IsSpace);
    TokenCharsAreNotSpace(s[w2]);
    RunEndUnique(s, w1 + |Marker|, w2, IsSpace);
    RunEndUnique(s, w2, t, IsBase64Char);
  }

  /** With single spaces around the marker, the tail captures the token
      that runs up to the next non-token character. */
  lemma SingleSpacedTail(s: string, a: nat, t: nat)
    requires a + |Marker| + 2 < t < |s|
    requires s[a] == ' ' && MarkerAt(s, a + 1) && s[a + 1 + |Marker|] == ' '
    requires forall k :: a + |Marker| + 2 <= k < t ==> IsBase64Char(s[k])
    requires !IsBase64Char(s[t])
    ensures KeyTail(s, a) == Some(s[a + |Marker| + 2..t])
  {
    assert KeyTailShape(s, a, a + 1, a + |Marker| + 2, t);
    KeyTailComplete(s, a, a + 1, a + |Marker| + 2, t);
  }

  lemma KeyTailSound(s: string, a: nat)
    requires a <= |s| && KeyTail(s, a).Some?
    ensures exists w1: nat, w2: nat, t: nat :: KeyTailShape(s, a, w1, w2, t) && KeyTail(s, a).value == s[w2..t]
  {
    var w1 := RunEnd(s, a, IsSpace);
    var w2 := RunEnd(s, w1 + |Marker|, IsSpace);
    var t := RunEnd(s, w2, IsBase64Char);
    assert KeyTailShape(s, a, w1, w2, t);
  }

  /** The key pattern can close its from="…" with the quote at e. */
  predicate QuoteAt(s: string, e: nat) {
    e < |s| && s[e] == '"' && KeyTail(s, e + 1).Some?
  }

  function Quotes(s: string): nat -> bool {
    (e: nat) => QuoteAt(s, e)
  }

  /** The key pattern matches from i with its closing quote at e. */
  predicate KeyMatch(prefix: string, s: string, i: nat, e: nat) {
    && OccursAt(s, prefix, i)
    && i + |prefix| <= e < |s|
    && NoNewline(s, i + |prefix|, e)
    && QuoteAt(s, e)
  }

  /** The closing quote the match from i uses: `.*` is greedy, so the last
      quote on the line after which the rest of the pattern matches. */
  function KeyQuote(prefix: string, s: string, i: nat): Option<nat> {
    if !OccursAt(s, prefix, i) then None
    else
      var start := i + |prefix|;
      LastBelow(start, RunEnd(s, start, NotNewline), Quotes(s))
  }

  /** The token the match from i captures. */
  function KeyAt(prefix: string, s: string, i: nat): Option<string> {
    match KeyQuote(prefix, s, i)
    case None => None
    case Some(e) => if e < |s| then KeyTail(s, e + 1) else None
  }

  function Starts(prefix: string, s: string): nat -> bool {
    (i: nat) => KeyQuote(prefix, s, i).Some?
  }

  /** The leftmost start from which the key pattern matches. */
  function KeyStart(prefix: string, s: string): Option<nat> {
    FirstFrom(0, |s| + 1, Starts(prefix, s))
  }

  /** A text of the class [A-Za-z0-9+/=]+: what the key pattern captures. */
  predicate IsToken(t: string) {
    |t| > 0 && forall k :: 0 <= k < |t| ==> IsBase64Char(t[k])
  }

  /** The capture after a quote is a run of the token class. */
  lemma KeyTailToken(s: string, a: nat)
    requires a <= |s| && KeyTail(s, a).Some?
    ensures IsToken(KeyTail(s, a).value)
  {
    var w1 := RunEnd(s, a, IsSpace);
    var w2 := RunEnd(s, w1 + |Marker|, IsSpace);
    var t := RunEnd(s, w2, IsBase64Char);
    var v := KeyTail(s, a).value;
    assert v == s[w2..t];
    forall k | 0 <= k < |v|
      ensures IsBase64Char(v[k])
    {
      assert v[k] == s[w2 + k];
    }
  }

  /** re.findall(key pattern, line)[0], or None when the list is empty:
      the `+` of the group makes the capture non-empty. */
  function ExtractKey(prefix: string, s: string): (r: Option<string>)
    ensures r.Some? ==> |r.value| > 0
  {
    match KeyStart(prefix, s)
    case None => None
    case Some(i) => KeyAtToken(prefix, s, i); KeyAt(prefix, s, i)
  }

  /** The capture is a run of the token class [A-Za-z0-9+/=]. */
  lemma ExtractKeyToken(prefix: string, s: string)
    requires ExtractKey(prefix, s).Some?
    ensures IsToken(ExtractKey(prefix, s).value)
  {
    KeyAtToken(prefix, s, KeyStart(prefix, s).value);
  }

  lemma KeyAtToken(prefix: string, s: string, i: nat)
    ensures KeyAt(prefix, s, i).Some? ==> IsToken(KeyAt(prefix, s, i).value)
  {
    if KeyAt(prefix, s, i).Some? {
      KeyTailToken(s, KeyQuote(prefix, s, i).value + 1);
    }
  }

  /** The closing quote chosen from a start is the greatest one with which
      the pattern matches. */
  lemma KeyQuoteSpec(prefix: string, s: string, i: nat)
    ensures KeyQuote(prefix, s, i).None? ==> forall e: nat :: !KeyMatch(prefix, s, i, e)
    ensures KeyQuote(prefix, s, i).Some? ==>
      var e := KeyQuote(prefix, s, i).value;
      KeyMatch(prefix, s, i, e) && forall e': nat :: KeyMatch(prefix, s, i, e') ==> e' <= e
  {
    if OccursAt(s, prefix, i) {
      LastOnLine(s, i + |prefix|, Quotes(s));
      forall e: nat
        ensures KeyMatch(prefix, s, i, e) <==> i + |prefix| <= e < |s| && NoNewline(s, i + |prefix|, e) && Quotes(s)(e)
      {
      }
    }
  }

  /** The start chosen is the least one from which the pattern matches. */
  lemma KeyStartSpec(prefix: string, s: string)
    ensures KeyStart(prefix, s).None? ==> forall i: nat, e: nat :: !KeyMatch(prefix, s, i, e)
    ensures KeyStart(prefix, s).Some? ==>
      var i := KeyStart(prefix, s).value;
      KeyQuote(prefix, s, i).Some? && forall i': nat, e: nat :: KeyMatch(prefix, s, i', e) ==> i <= i'
  {
    forall i: nat, e: nat | KeyMatch(prefix, s, i, e)
      ensures i <= |s| && Starts(prefix, s)(i)
    {
      KeyQuoteSpec(prefix, s, i);
    }
  }

  /** The match the engine reports: the leftmost start, then the last
      closing quote from that start. */
  ghost predicate Chosen(prefix: string, s: string, i: nat, e: nat) {
    && KeyMatch(prefix, s, i, e)
    && forall i': nat, e': nat :: KeyMatch(prefix, s, i', e') ==> i <= i' && (i' == i ==> e' <= e)
  }

  /** The key pattern yields None iff it matches nowhere, and otherwise the
      token of the chosen match. */
  lemma ExtractKeySpec(prefix: string, s: string)
    ensures ExtractKey(prefix, s).None? <==> forall i: nat, e: nat :: !KeyMatch(prefix, s, i, e)
    ensures ExtractKey(prefix, s).Some? ==>
      exists i: nat, e: nat :: Chosen(prefix, s, i, e) && ExtractKey(prefix, s) == KeyTail(s, e + 1)
  {
    KeyStartSpec(prefix, s);
    match KeyStart(prefix, s)
    case None =>
    case Some(i) =>
      KeyQuoteSpec(prefix, s, i);
      var e := KeyQuote(prefix, s, i).value;
      assert QuoteAt(s, e);
      assert ExtractKey(prefix, s) == KeyTail(s, e + 1);
      forall i': nat, e': nat | KeyMatch(prefix, s, i', e')
        ensures i <= i' && (i' == i ==> e' <= e)
      {
      }
      assert Chosen(prefix, s, i, e);
  }

  /** A match from the start of the line whose closing quote is the last
      quote on the line is the one the engine reports. */
  lemma LastQuoteKey(prefix: string, s: string, e0: nat)
    requires KeyMatch(prefix, s, 0, e0)
    requires forall e :: e0 < e < |s| ==> s[e] != '"'
    ensures ExtractKey(prefix, s) == KeyTail(s, e0 + 1)
  {
    StartOfLine(prefix, s, e0);
    LastQuote(prefix, s, e0);
    QuoteCloses(prefix, s, e0);
  }

  /** The token of the match from the start of the line is the tail after
      its chosen quote. */
  lemma QuoteCloses(prefix: string, s: string, e0: nat)
    requires e0 < |s| && KeyQuote(prefix, s, 0) == Some(e0)
    ensures KeyAt(prefix, s, 0) == KeyTail(s, e0 + 1)
  {
  }

  /** A match from the start of the line makes 0 the leftmost start. */
  lemma StartOfLine(prefix: string, s: string, e0: nat)
    requires KeyMatch(prefix, s, 0, e0)
    ensures KeyStart(prefix, s) == Some(0)
    ensures ExtractKey(prefix, s) == KeyAt(prefix, s, 0)
  {
    KeyStartSpec(prefix, s);
  }

  /** With no quote after e0, the greedy `.*` closes at e0. */
  lemma LastQuote(prefix: string, s: string, e0: nat)
    requires KeyMatch(prefix, s, 0, e0)
    requires forall e :: e0 < e < |s| ==> s[e] != '"'
    ensures KeyQuote(prefix, s, 0) == Some(e0)
  {
    forall e: nat | Quotes(s)(e)
      ensures e <= e0
    {
      assert s[e] == '"';
    }
    LastOnLineIs(s, |prefix|, Quotes(s), e0);
  }

  // ------------------------------------------------------------ comment

  /** The comment pattern at marker position p, as positions in s. */
  predicate CommentShape(s: string, p: nat, w1: nat, k: nat, w2: nat, c: nat) {
    && MarkerAt(s, p)
    && p + |Marker| < w1 < k < w2 < c <= |s|
    && (forall j :: p + |Marker| <= j < w1 ==> IsSpace(s[j]))
    && (forall j :: w1 <= j < k ==> IsBase64Char(s[j]))
    && (forall j :: k <= j < w2 ==> IsSpace(s[j]))
    && (forall j :: w2 <= j < c ==> IsCommentChar(s[j]))
    && (c == |s| || !IsCommentChar(s[c]))
  }

  /** The comment the comment pattern captures from p, or None. */
  function CommentAt(s: string, p: nat): Option<string> {
    if !MarkerAt(s, p) then None
    else
      var b := p + |Marker|;
      var w1 := RunEnd(s, b, IsSpace);
      var k := RunEnd(s, w1, IsBase64Char);
      var w2 := RunEnd(s, k, IsSpace);
      var c := RunEnd(s, w2, IsCommentChar);
      if w1 == b || k == w1 || w2 == k || c == w2 then None else Some(s[w2..c])
  }

  /** The comment pattern has one way to match at p: the token before the
      comment must be maximal, since whitespace has to follow it. */
  lemma CommentComplete(s: string, p: nat, w1: nat, k: nat, w2: nat, c: nat)
    requires CommentShape(s, p, w1, k, w2, c)
    ensures CommentAt(s, p) == Some(s[w2..c])
  {
    CommentRuns(s, p, w1, k, w2, c);
  }

  /** The four runs of the comment pattern end where the shape says. */
  lemma CommentRuns(s: string, p: nat, w1: nat, k: nat, w2: nat, c: nat)
    requires CommentShape(s, p, w1, k, w2, c)
    ensures RunEnd(s, p + |Marker|, IsSpace) == w1 && RunEnd(s, w1, IsBase64Char) == k
    ensures RunEnd(s, k, IsSpace) == w2 && RunEnd(s, w2, IsCommentChar) == c
  {
    TokenCharsAreNotSpace(s[w1]);
    RunEndUnique(s, p + |Marker|, w1, IsSpace);
    TokenCharsAreNotSpace(s[k]);
    RunEndUnique(s, w1, k, IsBase64Char);
    TokenCharsAreNotSpace(s[w2]);
    RunEndUnique(s, k, w2, IsSpace);
    RunEndUnique(s, w2, c, IsCommentChar);
  }

  lemma CommentSound(s: string, p: nat)
    requires CommentAt(s, p).Some?
    ensures exists w1: nat, k: nat, w2: nat, c: nat ::
      CommentShape(s, p, w1, k, w2, c) && CommentAt(s, p).value == s[w2..c]
  {
    var w1 := RunEnd(s, p + |Marker|, IsSpace);
    var k := RunEnd(s, w1, IsBase64Char);
    var w2 := RunEnd(s, k, IsSpace);
    var c := RunEnd(s, w2, IsCommentChar);
    assert CommentShape(s, p, w1, k, w2, c);
  }

  /** re.findall(comment pattern, line)[0], or None when the list is empty. */
  function ExtractComment(s: string): (r: Option<string>)
    ensures r.None? <==> forall p: nat :: CommentAt(s, p).None?
    ensures r.Some? ==> exists p: nat :: r == CommentAt(s, p) && forall q: nat :: q < p ==> CommentAt(s, q).None?
  {
    var at := (p: nat) => CommentAt(s, p).Some?;
    assert forall p: nat :: at(p) == CommentAt(s, p).Some?;
    match FirstFrom(0, |s| + 1, at)
    case None => None
    case Some(p) => CommentAt(s, p)
  }

  /** The first position where the comment pattern matches decides. */
  lemma FirstCommentAt(s: string, w: nat)
    requires CommentAt(s, w).Some? && forall q: nat :: q < w ==> CommentAt(s, q).None?
    ensures ExtractComment(s) == CommentAt(s, w)
  {
    var r := ExtractComment(s);
    var p: nat :| r == CommentAt(s, p) && forall q: nat :: q < p ==> CommentAt(s, q).None?;
    assert !(p < w);
    assert !(w < p);
  }

  // --------------------------------------------------------- public key

  /** The token the public-key pattern captures from p, or None. */
  function PublicKeyAt(s: string, p: nat): Option<string> {
    if !MarkerAt(s, p) then None
    else
      var b := p + |Marker|;
      var w := RunEnd(s, b, IsSpace);
      var t := RunEnd(s, w, IsBase64Char);
      if w == b || t == w then None else Some(s[w..t])
  }

  /** re.findall(public-key pattern, content)[0], or None: the first maximal
      base64-alphabet run that follows the marker and whitespace. */
  function ExtractPublicKey(s: string): (r: Option<string>)
    ensures r.None? <==> forall p: nat :: PublicKeyAt(s, p).None?
    ensures r.Some? ==> exists p: nat :: r == PublicKeyAt(s, p) && forall q: nat :: q < p ==> PublicKeyAt(s, q).None?
  {
    var at := (p: nat) => PublicKeyAt(s, p).Some?;
    assert forall p: nat :: at(p) == PublicKeyAt(s, p).Some?;
    match FirstFrom(0, |s| + 1, at)
    case None => None
    case Some(p) => PublicKeyAt(s, p)
  }

  /** The public-key pattern at p captures a non-empty maximal base64 run. */
  lemma PublicKeyAtShape(s: string, p: nat)
    requires PublicKeyAt(s, p).Some?
    ensures var t := PublicKeyAt(s, p).value;
      && |t| > 0 && (forall k :: 0 <= k < |t| ==> IsBase64Char(t[k]))
      && exists w: nat :: OccursAt(s, t, w) && (w + |t| == |s| || !IsBase64Char(s[w + |t|]))
  {
    var w := RunEnd(s, p + |Marker|, IsSpace);
    var t := RunEnd(s, w, IsBase64Char);
    var tok := PublicKeyAt(s, p).value;
    assert tok == s[w..t] && OccursAt(s, tok, w);
  }
}
