/**
 * The loop body of the scripts that list keys one per line: print each
 * line as it is (bwidm-rest-ssh2.py), or first try to unwrap it as a FIDO2
 * command key (bwidm_rest_ssh.py, bwidm-rest-ssh.py).
 */
module KeyLines {
  import opened Wrappers
  import opened Bytes
  import opened Search
  import opened Outcomes
  import opened Listing
  import opened Patterns
  import opened Fido2
  import opened Lines
  import Base64

  /** How a line of the listing is printed. */
  datatype LineRule = Verbatim | Fido2Unwrap(prefix: string)

  /** The loop body for one line: an unwrapped key is printed as its three
      parts separated by spaces, any other line as it is; an exception from
      the unwrapping ends the loop.  No line is ever skipped, and only the
      unwrapping can raise. */
  function DecideLine(rule: LineRule, line: string): (r: Decision)
    ensures !r.Skip?
    ensures r.Fail? ==> rule.Fido2Unwrap? && DecodeFido2PublicKey(rule.prefix, line).Raised?
    ensures r.Emit? && r.line != line ==> rule.Fido2Unwrap? && DecodeFido2PublicKey(rule.prefix, line).Unwrapped?
  {
    match rule
    case Verbatim => Emit(line)
    case Fido2Unwrap(prefix) =>
      match DecodeFido2PublicKey(prefix, line)
      case Unwrapped(keyType, token, comment) => Emit(keyType + " " + token + " " + comment)
      case NotFido2 => Emit(line)
      case Raised(e) => Fail(e)
  }

  function LineDecider(rule: LineRule): string -> Decision {
    line => DecideLine(rule, line)
  }

  /** A command-key line is printed as the marker, the token exactly as the
      service listed it, and the comment. */
  lemma CommandLinePrinted(prefix: string, from: string, header: seq<byte>, tail: seq<byte>, comment: string)
    requires NoMarker(prefix + from) && NoNewline(from, 0, |from|) && IsComment(comment)
    requires |header| == 4
    ensures var token := Base64.Encode(header + MarkerBytes() + [0] + tail);
      DecideLine(Fido2Unwrap(prefix), CommandKeyLine(prefix, from, token, comment)) == Emit(Marker + " " + token + " " + comment)
  {
    LineRoundTrip(prefix, from, header, tail, comment);
  }

  /** A line the key pattern does not match is printed unchanged. */
  lemma UnmatchedLinePrinted(prefix: string, line: string)
    requires forall i: nat, e: nat :: !KeyMatch(prefix, line, i, e)
    ensures DecideLine(Fido2Unwrap(prefix), line) == Emit(line)
  {
  }

  /** A matched key whose blob is not canonical base64 is not caught: the
      loop, and the run, end with the exception. */
  lemma BadBase64Raises(prefix: string, line: string)
    requires GetFido2PublicKey(prefix, line).Found?
    requires Base64.Decode(GetFido2PublicKey(prefix, line).token) == None
    ensures DecideLine(Fido2Unwrap(prefix), line) == Fail(Base64Error)
  {
  }

  /** A matched key whose key-type octets are not valid UTF-8 is not
      caught either: the run ends with UnicodeDecodeError. */
  lemma InvalidUtf8Raises(prefix: string, line: string)
    requires GetFido2PublicKey(prefix, line).Found?
    requires Base64.Decode(GetFido2PublicKey(prefix, line).token).Some?
    requires Utf8.Decode(KeyTypeBytes(Base64.Decode(GetFido2PublicKey(prefix, line).token).value)) == None
    ensures DecideLine(Fido2Unwrap(prefix), line) == Fail(UnicodeError)
  {
    var x := GetFido2PublicKey(prefix, line);
    assert KeyTypeText(x.token) == Failed(UnicodeError);
    var d := DecodeFido2PublicKey(prefix, line);
    assert d == Raised(UnicodeError);
    RaisedFails(prefix, line);
  }

  /** Whatever decode_fido2_public_key raises ends the loop. */
  lemma RaisedFails(prefix: string, line: string)
    requires DecodeFido2PublicKey(prefix, line).Raised?
    ensures DecideLine(Fido2Unwrap(prefix), line) == Fail(DecodeFido2PublicKey(prefix, line).error)
  {
  }

  /** A matched key with no comment token after it makes key_comment[0]
      raise IndexError. */
  lemma MissingCommentRaises(prefix: string, line: string)
    requires ExtractKey(prefix, line).Some? && forall p: nat :: CommentAt(line, p).None?
    ensures DecideLine(Fido2Unwrap(prefix), line) == Fail(IndexError)
  {
    assert GetFido2PublicKey(prefix, line) == NoComment;
    assert DecodeFido2PublicKey(prefix, line) == Raised(IndexError);
  }

  /** The literal placeholder: with the prefix `command="{FIDO2_KEY_NAME}"`
      no line the service lists (and none without a '{') is ever unwrapped,
      so every such line is printed unchanged. */
  lemma PlaceholderLinePrinted(prefix: string, line: string, j: nat)
    requires j < |prefix| && prefix[j] == '{'
    requires forall k :: 0 <= k < |line| ==> line[k] != '{'
    ensures DecideLine(Fido2Unwrap(prefix), line) == Emit(line)
  {
    PlaceholderNeverMatches(prefix, line, j);
  }

  /** Lines of a listing, none of which holds a '{'. */
  predicate Braceless(lines: seq<string>) {
    forall i :: 0 <= i < |lines| ==> NoLineBreak(lines[i]) && forall k :: 0 <= k < |lines[i]| ==> lines[i][k] != '{'
  }

  /** With a placeholder prefix, lines without a '{' are printed unchanged. */
  lemma PlaceholderLines(prefix: string, lines: seq<string>, j: nat)
    requires j < |prefix| && prefix[j] == '{' && Braceless(lines)
    ensures Emitted(LineDecider(Fido2Unwrap(prefix)), SplitLines(Terminated(lines))) == Listing(lines, None)
  {
    var d := LineDecider(Fido2Unwrap(prefix));
    SplitTerminated(lines);
    forall i | 0 <= i < |lines|
      ensures d(lines[i]) == Emit(lines[i])
    {
      PlaceholderLinePrinted(prefix, lines[i], j);
    }
    AllPrinted(d, lines);
    assert Emitted(d, lines).lines == lines;
  }

  /** Printing verbatim: the listing is the lines themselves. */
  lemma VerbatimListing(lines: seq<string>)
    ensures Emitted(LineDecider(Verbatim), lines) == Listing(lines, None)
  {
    AllPrinted(LineDecider(Verbatim), lines);
  }

  /** Lines that splitlines() keeps apart. */
  predicate Unbroken(lines: seq<string>) {
    forall i :: 0 <= i < |lines| ==> NoLineBreak(lines[i])
  }

  /** The same for a response body that lists the lines one per line. */
  lemma VerbatimText(lines: seq<string>)
    requires Unbroken(lines)
    ensures Emitted(LineDecider(Verbatim), SplitLines(Terminated(lines))) == Listing(lines, None)
  {
    SplitTerminated(lines);
    VerbatimListing(lines);
  }

  /** What the loop prints for a line that does not raise. */
  function Shown(prefix: string, line: string): string {
    match DecodeFido2PublicKey(prefix, line)
    case Unwrapped(k, t, c) => k + " " + t + " " + c
    case _ => line
  }

  /** The lines printed for a listing in which no line raises. */
  function ShownAll(prefix: string, lines: seq<string>): (r: seq<string>)
    ensures |r| == |lines|
    ensures forall i :: 0 <= i < |lines| ==> r[i] == Shown(prefix, lines[i])
  {
    seq(|lines|, i requires 0 <= i < |lines| => Shown(prefix, lines[i]))
  }

  /** When no line raises, one line is printed per listed line, in order:
      the unwrapped key where the line holds one, the line itself
      otherwise, and the loop ends normally. */
  lemma UnwrapListing(prefix: string, lines: seq<string>)
    requires forall i :: 0 <= i < |lines| ==> !DecodeFido2PublicKey(prefix, lines[i]).Raised?
    ensures Emitted(LineDecider(Fido2Unwrap(prefix)), lines) == Listing(ShownAll(prefix, lines), None)
  {
    var d := LineDecider(Fido2Unwrap(prefix));
    forall i | 0 <= i < |lines|
      ensures d(lines[i]) == Emit(Shown(prefix, lines[i]))
    {
      LineShown(prefix, lines[i]);
    }
    AllPrinted(d, lines);
    assert Emitted(d, lines).lines == ShownAll(prefix, lines);
  }

  lemma LineShown(prefix: string, line: string)
    requires !DecodeFido2PublicKey(prefix, line).Raised?
    ensures DecideLine(Fido2Unwrap(prefix), line) == Emit(Shown(prefix, line))
  {
  }

  /** Lines that splitlines() keeps apart and that the unwrapping does not
      raise on. */
  predicate Printable(prefix: string, lines: seq<string>) {
    && (forall i :: 0 <= i < |lines| ==> NoLineBreak(lines[i]))
    && (forall i :: 0 <= i < |lines| ==> !DecodeFido2PublicKey(prefix, lines[i]).Raised?)
  }

  /** The same for a response body that lists the lines one per line. */
  lemma UnwrapText(prefix: string, lines: seq<string>)
    requires Printable(prefix, lines)
    ensures Emitted(LineDecider(Fido2Unwrap(prefix)), SplitLines(Terminated(lines))) == Listing(ShownAll(prefix, lines), None)
  {
    SplitTerminated(lines);
    UnwrapListing(prefix, lines);
  }
}
