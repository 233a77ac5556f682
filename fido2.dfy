/**
 * FIDO2 command keys.  The registration service only stores keys with an
 * SSH command, so a FIDO2 key is submitted wrapped as
 *
 *   command="FIDO2",from="…" sk-ssh-ed25519@openssh.com <base64 blob> <comment>
 *
 * and the scripts unwrap it: they capture the blob and the comment, decode
 * the blob, skip the four-octet length of its first SSH string (section 5
 * of RFC 4251), keep the octets before the first NUL, decode them as UTF-8
 * and look for the key type there.  The same decoding serves the stand-alone
 * public key check.
 */
module Fido2 {
  import opened Wrappers
  import opened Bytes
  import opened Chars
  import opened Search
  import opened Patterns
  import opened Outcomes
  import Base64
  import Utf8

  /** bytes.find(b"\x00"): the index of the first zero octet, or -1. */
  function FindZero(b: seq<byte>): (r: int)
    decreases |b|
    ensures -1 <= r < |b|
    ensures r >= 0 ==> b[r] == 0 && forall k :: 0 <= k < r ==> b[k] != 0
    ensures r == -1 ==> forall k :: 0 <= k < |b| ==> b[k] != 0
  {
    if b == [] then -1
    else if b[0] == 0 then 0
    else
      var r := FindZero(b[1..]);
      if r < 0 then -1 else r + 1
  }

  /** The octets the scripts decode as the key type: the blob without its
      first four octets (decoded_key[4:] is empty for a shorter blob), cut
      before the first zero octet when there is one. */
  function KeyTypeBytes(blob: seq<byte>): (r: seq<byte>)
    ensures |blob| <= 4 ==> r == []
    ensures |blob| > 4 ==> && 4 + |r| <= |blob| && r == blob[4..4 + |r|]
                           && (forall k :: 0 <= k < |r| ==> r[k] != 0)
                           && (4 + |r| == |blob| || blob[4 + |r|] == 0)
  {
    var rest := if |blob| >= 4 then blob[4..] else [];
    var z := FindZero(rest);
    if z >= 0 then rest[..z] else rest
  }

  /** The characterisation above fixes the octets: the length prefix is
      skipped and the text ends at the first zero octet. */
  lemma KeyTypeBytesOf(header: seq<byte>, text: seq<byte>, tail: seq<byte>)
    requires |header| == 4 && forall k :: 0 <= k < |text| ==> text[k] != 0
    ensures KeyTypeBytes(header + text + [0] + tail) == text
  {
    var blob := header + text + [0] + tail;
    var r := KeyTypeBytes(blob);
    assert blob[4..4 + |text|] == text;
    assert blob[4 + |text|] == 0;
    assert r == blob[4..4 + |text|];
  }

  /** With no zero octet after the length prefix, the whole remainder is
      kept. */
  lemma KeyTypeBytesWithoutZero(blob: seq<byte>)
    requires |blob| >= 4 && forall k :: 4 <= k < |blob| ==> blob[k] != 0
    ensures KeyTypeBytes(blob) == blob[4..]
  {
  }

  datatype Decoded = Text(value: string) | Failed(error: PyError)

  /** The key-type text of a captured token; neither decoding failure is
      caught.  The text is the one whose UTF-8 octets are those the blob
      holds between its length prefix and its first zero octet. */
  function KeyTypeText(token: string): (r: Decoded)
    ensures r.Text? ==> Base64.Decode(token).Some? && Utf8.Encode(r.value) == KeyTypeBytes(Base64.Decode(token).value)
    ensures r == Failed(Base64Error) <==> Base64.Decode(token).None?
    ensures r == Failed(UnicodeError) <==>
      Base64.Decode(token).Some? && Utf8.Decode(KeyTypeBytes(Base64.Decode(token).value)).None?
  {
    match Base64.Decode(token)
    case None => Failed(Base64Error)
    case Some(blob) =>
      match Utf8.Decode(KeyTypeBytes(blob))
      case None => Failed(UnicodeError)
      case Some(u) => Utf8.EncodeDecode(KeyTypeBytes(blob), u); Text(u)
  }

  /** A text free of NUL characters. */
  predicate NoNul(m: string) {
    forall k :: 0 <= k < |m| ==> m[k] != '\0'
  }

  /** A blob made of four octets, an ASCII key type, a zero octet and
      anything after it yields that key type as its text. */
  lemma BlobRoundTrip(header: seq<byte>, m: string, tail: seq<byte>)
    requires |header| == 4 && Utf8.IsAscii(m) && NoNul(m)
    ensures KeyTypeText(Base64.Encode(header + Utf8.AsciiBytes(m) + [0] + tail)) == Text(m)
  {
    var blob := header + Utf8.AsciiBytes(m) + [0] + tail;
    Base64.DecodeEncode(blob);
    KeyTypeBytesOf(header, Utf8.AsciiBytes(m), tail);
    Utf8.DecodeAscii(m);
  }

  /** Every character of the marker is printable ASCII and not a quote. */
  lemma MarkerChars()
    ensures forall k :: 0 <= k < |Marker| ==> 0x20 < Marker[k] as int < 0x7F && Marker[k] != '"'
  {
    forall k | 0 <= k < |Marker|
      ensures 0x20 < Marker[k] as int < 0x7F && Marker[k] != '"'
    {
      if k < 7 {
      } else if k < 14 {
      } else if k < 20 {
      } else {
      }
    }
  }

  /** The marker in ASCII, as the key type field of a FIDO2 blob holds it. */
  function MarkerBytes(): seq<byte> {
    MarkerChars();
    Utf8.AsciiBytes(Marker)
  }

  lemma MarkerBlob(header: seq<byte>, tail: seq<byte>)
    requires |header| == 4
    ensures KeyTypeText(Base64.Encode(header + MarkerBytes() + [0] + tail)) == Text(Marker)
  {
    MarkerChars();
    BlobRoundTrip(header, Marker, tail);
  }

  /** The base64 of a FIDO2 blob is a non-empty token. */
  lemma BlobToken(header: seq<byte>, tail: seq<byte>)
    requires |header| == 4
    ensures IsToken(Base64.Encode(header + MarkerBytes() + [0] + tail))
  {
    var b := header + MarkerBytes() + [0] + tail;
    assert |b| >= 1;
    assert (|b| + 2) / 3 >= 1;
  }

  /** What get_fido2_public_key gives for a line. */
  datatype Extraction = NoKey | Found(token: string, comment: string) | NoComment

  /** get_fido2_public_key: both patterns are searched independently; a key
      without a comment makes key_comment[0] raise. */
  function GetFido2PublicKey(prefix: string, line: string): (r: Extraction)
    ensures r.NoKey? <==> forall i: nat, e: nat :: !KeyMatch(prefix, line, i, e)
    ensures r.NoComment? <==> ExtractKey(prefix, line).Some? && forall p: nat :: CommentAt(line, p).None?
    ensures r.Found? ==> ExtractKey(prefix, line) == Some(r.token) && ExtractComment(line) == Some(r.comment)
  {
    ExtractKeySpec(prefix, line);
    match ExtractKey(prefix, line)
    case None => NoKey
    case Some(token) =>
      match ExtractComment(line)
      case None => NoComment
      case Some(comment) => Found(token, comment)
  }

  /** What decode_fido2_public_key gives for a line. */
  datatype Unwrap = Unwrapped(keyType: string, token: string, comment: string) | NotFido2 | Raised(error: PyError)

  /** decode_fido2_public_key: an unwrapped key keeps the captured token and
      comment, and its key type is the leftmost match of the marker pattern
      in the token's key-type text. */
  function DecodeFido2PublicKey(prefix: string, line: string): (r: Unwrap)
    ensures r.Unwrapped? ==> GetFido2PublicKey(prefix, line) == Found(r.token, r.comment)
    ensures r.Unwrapped? ==> MarkerAt(r.keyType, 0) && |r.keyType| == |Marker|
    ensures r.Unwrapped? ==> KeyTypeText(r.token).Text? && FindMarker(KeyTypeText(r.token).value) == Some(r.keyType)
    ensures r == NotFido2 <==>
      || GetFido2PublicKey(prefix, line).NoKey?
      || (&& GetFido2PublicKey(prefix, line).Found?
          && KeyTypeText(GetFido2PublicKey(prefix, line).token).Text?
          && FindMarker(KeyTypeText(GetFido2PublicKey(prefix, line).token).value).None?)
    ensures var x := GetFido2PublicKey(prefix, line);
      x.Found? && KeyTypeText(x.token).Text? && FindMarker(KeyTypeText(x.token).value).Some? ==>
        r == Unwrapped(FindMarker(KeyTypeText(x.token).value).value, x.token, x.comment)
    ensures r == Raised(IndexError) <==> GetFido2PublicKey(prefix, line).NoComment?
    ensures var x := GetFido2PublicKey(prefix, line);
      r.Raised? && r.error != IndexError <==>
        x.Found? && KeyTypeText(x.token).Failed? && r.error == KeyTypeText(x.token).error
  {
    match GetFido2PublicKey(prefix, line)
    case NoKey => NotFido2
    case NoComment => Raised(IndexError)
    case Found(token, comment) =>
      match KeyTypeText(token)
      case Failed(e) => Raised(e)
      case Text(u) =>
        match FindMarker(u)
        case None => NotFido2
        case Some(m) => MatchedMarker(u); Unwrapped(m, token, comment)
  }

  /** The text re.search finds matches the marker pattern on its own. */
  lemma MatchedMarker(u: string)
    requires FindMarker(u).Some?
    ensures MarkerAt(FindMarker(u).value, 0) && |FindMarker(u).value| == |Marker|
  {
    var p: nat :| MarkerAt(u, p) && FindMarker(u).value == u[p..p + |Marker|];
    MarkerShift(u, p);
  }

  lemma MarkerShift(u: string, p: nat)
    requires MarkerAt(u, p)
    ensures MarkerAt(u[p..p + |Marker|], 0)
  {
    var m := u[p..p + |Marker|];
    forall k | 0 <= k < |Marker|
      ensures MarkerCharMatches(m[k], k)
    {
      assert m[k] == u[p + k];
      assert MarkerCharMatches(u[p + k], k);
    }
  }

  /** When the blob spells the marker, the unwrapped key is the marker, the
      captured token unchanged and the captured comment. */
  lemma DecodeRoundTrip(prefix: string, line: string, header: seq<byte>, tail: seq<byte>)
    requires |header| == 4
    requires GetFido2PublicKey(prefix, line).Found?
    requires Base64.Decode(GetFido2PublicKey(prefix, line).token) == Some(header + MarkerBytes() + [0] + tail)
    ensures var x := GetFido2PublicKey(prefix, line);
      DecodeFido2PublicKey(prefix, line) == Unwrapped(Marker, x.token, x.comment)
  {
    var x := GetFido2PublicKey(prefix, line);
    var blob := header + MarkerBytes() + [0] + tail;
    Base64.EncodeDecode(x.token, blob);
    MarkerBlob(header, tail);
    assert KeyTypeText(x.token) == Text(Marker);
    FindMarkerItself();
  }

  /** The literal placeholder: a line with no '{' never matches a prefix
      that contains one, so it is never unwrapped. */
  lemma PlaceholderNeverMatches(prefix: string, line: string, j: nat)
    requires j < |prefix| && prefix[j] == '{'
    requires forall k :: 0 <= k < |line| ==> line[k] != '{'
    ensures DecodeFido2PublicKey(prefix, line) == NotFido2
  {
    forall i: nat, e: nat
      ensures !KeyMatch(prefix, line, i, e)
    {
      PrefixAbsent(prefix, line, i, j);
    }
  }

  /** A prefix holding a '{' occurs nowhere in a line without one. */
  lemma PrefixAbsent(prefix: string, line: string, i: nat, j: nat)
    requires j < |prefix| && prefix[j] == '{'
    requires forall k :: 0 <= k < |line| ==> line[k] != '{'
    ensures !OccursAt(line, prefix, i)
  {
    if i + |prefix| <= |line| {
      assert line[i..i + |prefix|][j] == line[i + j];
    }
  }

  // ------------------------------------------------- whole-line round trip

  /** A command-key line as the registration service lists it. */
  function CommandKeyLine(prefix: string, from: string, token: string, comment: string): string {
    prefix + from + "\" " + Marker + " " + token + " " + comment
  }

  predicate NoLetterS(t: string) {
    forall k :: 0 <= k < |t| ==> t[k] != 's'
  }

  /** The marker pattern matches nowhere in t. */
  predicate NoMarker(t: string) {
    forall p: nat :: p < |t| ==> !MarkerAt(t, p)
  }

  /** A marker match in a + b starts in b unless a holds an 's', so joining
      a text with no 's' in front of b adds no match. */
  lemma JoinNoMarker(a: string, b: string)
    requires NoLetterS(a) && NoMarker(b)
    ensures NoMarker(a + b)
  {
    var s := a + b;
    forall p: nat | p < |s|
      ensures !MarkerAt(s, p)
    {
      if p < |a| {
        assert s[p] == a[p] != 's';
        assert MarkerAt(s, p) ==> MarkerCharMatches(s[p], 0);
      } else {
        var r: nat := p - |a|;
        if MarkerAt(s, p) {
          forall j | r <= j < r + |Marker|
            ensures MarkerCharMatches(b[j], j - r)
          {
            assert s[j + |a|] == b[j];
            assert MarkerCharMatches(s[j + |a|], j + |a| - p);
          }
          assert MarkerAt(b, r);
        }
      }
    }
  }

  predicate IsComment(t: string) {
    |t| > 0 && forall k :: 0 <= k < |t| ==> IsCommentChar(t[k])
  }

  /** Where the parts of a command-key line s sit, the closing quote of
      from="…" being at e0. */
  predicate Layout(s: string, prefix: string, e0: nat, token: string, comment: string) {
    var w1 := e0 + 2;
    var w2 := w1 + |Marker| + 1;
    var t := w2 + |token|;
    && |prefix| <= e0 && |s| == t + 1 + |comment|
    && OccursAt(s, prefix, 0)
    && (forall q: nat :: q < e0 ==> !MarkerAt(s, q))
    && NoNewline(s, |prefix|, e0)
    && s[e0] == '"' && s[e0 + 1] == ' '
    && OccursAt(s, Marker, w1)
    && s[w1 + |Marker|] == ' '
    && s[w2..t] == token
    && s[t] == ' '
    && s[t + 1..] == comment
  }

  lemma LineLayout(prefix: string, from: string, token: string, comment: string)
    requires NoMarker(prefix + from) && NoNewline(from, 0, |from|)
    ensures Layout(CommandKeyLine(prefix, from, token, comment), prefix, |prefix| + |from|, token, comment)
  {
    var a := prefix + from;
    var s := CommandKeyLine(prefix, from, token, comment);
    var rest := Marker + " " + token + " " + comment;
    assert s == a + "\" " + rest;
    var e0 := |a|;
    assert s[..e0] == a;
    assert s[..|prefix|] == prefix;
    assert forall k :: |prefix| <= k < e0 ==> s[k] == from[k - |prefix|];
    TailParts(s, e0 + 2, Marker, token, comment);
    NoMarkerBeforeQuote(s, e0);
  }

  /** No marker match starts before a closing quote followed by a space
      unless one lies wholly before the quote: the quote itself fits only
      the unescaped dot, and the space after it is not the 'c' that
      follows the dot. */
  lemma NoMarkerBeforeQuote(s: string, e0: nat)
    requires e0 + 2 <= |s| && s[e0] == '"' && s[e0 + 1] == ' ' && NoMarker(s[..e0])
    ensures forall q: nat :: q < e0 ==> !MarkerAt(s, q)
  {
    forall q: nat | q < e0
      ensures !MarkerAt(s, q)
    {
      if q + |Marker| <= e0 {
        assert !MarkerAt(s[..e0], q);
      } else {
        MarkerChars();
      }
    }
  }

  /** Where the parts of a text m + " " + token + " " + comment sit inside a
      line that holds it from position w on. */
  lemma TailParts(s: string, w: nat, m: string, token: string, comment: string)
    requires w <= |s| && s[w..] == m + " " + token + " " + comment
    ensures var t := w + |m| + 1 + |token|;
      && |s| == t + 1 + |comment|
      && OccursAt(s, m, w) && s[w + |m|] == ' '
      && s[w + |m| + 1..t] == token && s[t] == ' ' && s[t + 1..] == comment
  {
    var r := s[w..];
    var t := w + |m| + 1 + |token|;
    assert r[..|m|] == m && r[|m|] == ' ';
    assert r[|m| + 1..|m| + 1 + |token|] == token && r[|m| + 1 + |token|] == ' ';
    assert r[|m| + 2 + |token|..] == comment;
    assert s[w..w + |m|] == r[..|m|];
    assert s[w + |m|] == r[|m|] == ' ';
    assert s[w + |m| + 1..t] == r[|m| + 1..|m| + 1 + |token|];
    assert s[t] == r[|m| + 1 + |token|] == ' ';
    assert s[t + 1..] == r[|m| + 2 + |token|..];
  }

  /** After the closing quote of from="…" the line has no further quote, so
      the greedy `.*` stops exactly there. */
  lemma LayoutOneQuote(s: string, prefix: string, e0: nat, token: string, comment: string)
    requires Layout(s, prefix, e0, token, comment) && IsToken(token) && IsComment(comment)
    ensures forall e :: e0 < e < |s| ==> s[e] != '"'
  {
    var w1 := e0 + 2;
    var w2 := w1 + |Marker| + 1;
    var t := w2 + |token|;
    MarkerChars();
    forall e | e0 < e < |s|
      ensures s[e] != '"'
    {
      if e == e0 + 1 {
      } else if e < w1 + |Marker| {
        assert s[e] == s[w1..w1 + |Marker|][e - w1];
      } else if e < w2 {
      } else if e < t {
        assert s[e] == s[w2..t][e - w2];
      } else if e == t {
      } else {
        assert s[e] == s[t + 1..][e - t - 1];
      }
    }
  }

  lemma LayoutToken(s: string, prefix: string, e0: nat, token: string, comment: string)
    requires Layout(s, prefix, e0, token, comment) && IsToken(token)
    ensures var w2 := e0 + 2 + |Marker| + 1;
      forall k :: w2 <= k < w2 + |token| ==> IsBase64Char(s[k])
  {
    var w2 := e0 + 2 + |Marker| + 1;
    forall k | w2 <= k < w2 + |token|
      ensures IsBase64Char(s[k])
    {
      assert s[k] == s[w2..w2 + |token|][k - w2];
    }
  }

  /** From the closing quote on, the rest of the key pattern matches and
      captures the token. */
  lemma LayoutTail(s: string, prefix: string, e0: nat, token: string, comment: string)
    requires Layout(s, prefix, e0, token, comment) && IsToken(token)
    ensures KeyTail(s, e0 + 1) == Some(token)
  {
    var w1 := e0 + 2;
    var w2 := w1 + |Marker| + 1;
    var t := w2 + |token|;
    LiteralMarkerMatches(s, w1);
    LayoutToken(s, prefix, e0, token, comment);
    SingleSpacedTail(s, e0 + 1, t);
  }

  /** The key pattern captures the token. */
  lemma LayoutKey(s: string, prefix: string, e0: nat, token: string, comment: string)
    requires Layout(s, prefix, e0, token, comment) && IsToken(token) && IsComment(comment)
    ensures ExtractKey(prefix, s) == Some(token)
  {
    LayoutTail(s, prefix, e0, token, comment);
    assert KeyMatch(prefix, s, 0, e0);
    LayoutOneQuote(s, prefix, e0, token, comment);
    LastQuoteKey(prefix, s, e0);
  }

  /** From the marker on, the comment pattern matches and captures the
      comment. */
  lemma LayoutCommentAt(s: string, prefix: string, e0: nat, token: string, comment: string)
    requires Layout(s, prefix, e0, token, comment) && IsToken(token) && IsComment(comment)
    ensures CommentAt(s, e0 + 2) == Some(comment)
  {
    var w1 := e0 + 2;
    var w2 := w1 + |Marker| + 1;
    var t := w2 + |token|;
    LayoutCommentShape(s, prefix, e0, token, comment);
    CommentComplete(s, w1, w2, t, t + 1, |s|);
    assert s[t + 1..|s|] == comment;
  }

  /** The parts of the layout from the marker on fit the comment pattern. */
  lemma LayoutCommentShape(s: string, prefix: string, e0: nat, token: string, comment: string)
    requires Layout(s, prefix, e0, token, comment) && IsToken(token) && IsComment(comment)
    ensures var w2 := e0 + 2 + |Marker| + 1;
      CommentShape(s, e0 + 2, w2, w2 + |token|, w2 + |token| + 1, |s|)
  {
    var w1 := e0 + 2;
    var w2 := w1 + |Marker| + 1;
    var t := w2 + |token|;
    LiteralMarkerMatches(s, w1);
    LayoutToken(s, prefix, e0, token, comment);
    forall k | t + 1 <= k < |s|
      ensures IsCommentChar(s[k])
    {
      assert s[k] == s[t + 1..][k - t - 1];
    }
  }

  /** The comment pattern captures the comment: no match can start before
      the marker, since none starts before the closing quote and neither
      the quote nor the space after it is an 's'. */
  lemma LayoutComment(s: string, prefix: string, e0: nat, token: string, comment: string)
    requires Layout(s, prefix, e0, token, comment) && IsToken(token) && IsComment(comment)
    ensures ExtractComment(s) == Some(comment)
  {
    var w1 := e0 + 2;
    LayoutCommentAt(s, prefix, e0, token, comment);
    forall q: nat | q < w1
      ensures CommentAt(s, q).None?
    {
      if MarkerAt(s, q) && q >= e0 {
        MarkerStart(s, q);
      }
    }
    FirstCommentAt(s, w1);
  }

  /** The round trip on any text laid out as a command-key line. */
  lemma LayoutRoundTrip(s: string, prefix: string, e0: nat, token: string, comment: string, header: seq<byte>, tail: seq<byte>)
    requires |header| == 4 && IsToken(token) && IsComment(comment)
    requires Layout(s, prefix, e0, token, comment)
    requires Base64.Decode(token) == Some(header + MarkerBytes() + [0] + tail)
    ensures DecodeFido2PublicKey(prefix, s) == Unwrapped(Marker, token, comment)
  {
    LayoutKey(s, prefix, e0, token, comment);
    LayoutComment(s, prefix, e0, token, comment);
    assert GetFido2PublicKey(prefix, s) == Found(token, comment);
    DecodeRoundTrip(prefix, s, header, tail);
  }

  /** Round trip over a whole line: a command-key line whose blob holds the
      marker as its key type unwraps to the marker, the token exactly as
      listed and the comment. */
  lemma LineRoundTrip(prefix: string, from: string, header: seq<byte>, tail: seq<byte>, comment: string)
    requires NoMarker(prefix + from) && NoNewline(from, 0, |from|) && IsComment(comment)
    requires |header| == 4
    ensures var token := Base64.Encode(header + MarkerBytes() + [0] + tail);
      DecodeFido2PublicKey(prefix, CommandKeyLine(prefix, from, token, comment)) == Unwrapped(Marker, token, comment)
  {
    var token := Base64.Encode(header + MarkerBytes() + [0] + tail);
    BlobToken(header, tail);
    Base64.DecodeEncode(header + MarkerBytes() + [0] + tail);
    LineLayout(prefix, from, token, comment);
    LayoutRoundTrip(CommandKeyLine(prefix, from, token, comment), prefix, |prefix| + |from|, token, comment, header, tail);
  }
}
