/**
 * str.splitlines() without keepends, which turns the body of a raw key
 * listing into the lines the scripts loop over, and the newline
 * translation of files opened in text mode.
 */
module Lines {
  import opened Chars
  import opened Search

  predicate NotLineBreak(c: char) {
    !IsLineBreak(c)
  }

  predicate NoLineBreak(line: string) {
    forall k :: 0 <= k < |line| ==> !IsLineBreak(line[k])
  }

  /** Lines are cut at every line boundary, "\r\n" counts as one boundary,
      and a boundary at the very end does not start another, empty line. */
  function SplitLines(s: string): (lines: seq<string>)
    decreases |s|
    ensures forall i :: 0 <= i < |lines| ==> NoLineBreak(lines[i])
  {
    if s == [] then []
    else
      var k := RunEnd(s, 0, NotLineBreak);
      if k == |s| then [s]
      else
        var next := if s[k] == '\r' && k + 1 < |s| && s[k + 1] == '\n' then k + 2 else k + 1;
        [s[..k]] + SplitLines(s[next..])
  }

  /** The text that printing each line in turn produces. */
  function Terminated(lines: seq<string>): string {
    if lines == [] then [] else lines[0] + "\n" + Terminated(lines[1..])
  }

  /** Lines printed one per print() call split back into the same lines. */
  lemma {:induction false} SplitTerminated(lines: seq<string>)
    requires forall i :: 0 <= i < |lines| ==> NoLineBreak(lines[i])
    ensures SplitLines(Terminated(lines)) == lines
  {
    if lines != [] {
      var s := Terminated(lines);
      var l := lines[0];
      assert s == l + "\n" + Terminated(lines[1..]);
      assert s[|l|] == '\n';
      RunEndUnique(s, 0, |l|, NotLineBreak);
      assert s[..|l|] == l;
      assert s[|l| + 1..] == Terminated(lines[1..]);
      SplitTerminated(lines[1..]);
    }
  }

  /** Text without a line boundary is one line (or none, if empty). */
  lemma SingleLine(s: string)
    requires NoLineBreak(s)
    ensures SplitLines(s) == if s == [] then [] else [s]
  {
    if s != [] {
      RunEndUnique(s, 0, |s|, NotLineBreak);
    }
  }

  predicate NoCarriageReturn(s: string) {
    forall k :: 0 <= k < |s| ==> s[k] != '\r'
  }

  /** What file.read() gives in text mode with universal newlines: "\r\n"
      and a lone "\r" both read as "\n". */
  function TranslateNewlines(s: string): (t: string)
    decreases |s|
    ensures NoCarriageReturn(t)
    ensures |t| <= |s|
  {
    if s == [] then []
    else if s[0] == '\r' then
      "\n" + TranslateNewlines(if |s| > 1 && s[1] == '\n' then s[2..] else s[1..])
    else [s[0]] + TranslateNewlines(s[1..])
  }

  /** A file without carriage returns reads back exactly. */
  lemma {:induction false} TranslateWithoutCarriageReturn(s: string)
    requires NoCarriageReturn(s)
    ensures TranslateNewlines(s) == s
  {
    if s != [] {
      TranslateWithoutCarriageReturn(s[1..]);
    }
  }

  /** Reading is idempotent: translated text is translated to itself. */
  lemma TranslateIdempotent(s: string)
    ensures TranslateNewlines(TranslateNewlines(s)) == TranslateNewlines(s)
  {
    TranslateWithoutCarriageReturn(TranslateNewlines(s));
  }
}
