/**
 * usr/local/bin/ssh-checkpublickey.py: given the name of a public key file,
 * find the first `sk-ssh-ed25519@openssh.com <base64>` in it, decode the
 * token the way the FIDO2 unwrapping does, and say whether the key type in
 * the decoded blob matches the marker pattern.
 */
module SshCheckPublicKey {
  import opened Wrappers
  import opened Bytes
  import opened Chars
  import opened Search
  import opened Outcomes
  import opened Lines
  import opened Patterns
  import opened Fido2
  import opened Files
  import Base64
  import Utf8

  const UsageLine := "Please provide the filename of a 'sk-ssh-ed25519@openssh.com' SSH Public Key as an argument."
  const FoundLine := "The string 'sk-ssh-ed25519@openssh.com' was found in the key."
  const NotFoundLine := "The string 'sk-ssh-ed25519@openssh.com' was not found in the key."
  const NoKeyLine := "No 'sk-ssh-ed25519@openssh.com' SSH Public Key found."

  function UnreadableLine(path: string): string {
    "Invalid or unreadable file: " + path
  }

  /** os.path.isfile(path) and os.access(path, os.R_OK). */
  predicate ReadableFile(files: FileSystem, path: string) {
    path in files && files[path].Regular? && files[path].readable
  }

  /** The message for the key-type text of the decoded token. */
  function Verdict(u: string): string {
    if FindMarker(u).Some? then FoundLine else NotFoundLine
  }

  /** The three messages differ from each other. */
  lemma DistinctMessages()
    ensures NoKeyLine != FoundLine && NoKeyLine != NotFoundLine && FoundLine != NotFoundLine
  {
    assert |NoKeyLine| == 53 && |FoundLine| == 61 && |NotFoundLine| == 65;
  }

  /** The whole run for the arguments after the program name.  The file is
      probed once; its reading is not an effect of its own. */
  function Check(args: seq<string>, files: FileSystem): (r: Outcome)
    ensures r.effects == if args == [] then [] else [ProbeFile(args[0])]
    ensures |r.stdout| <= 1
    ensures r.status.Exit? ==> |r.stdout| == 1 && (r.status.code == 0 || r.status.code == 1)
    ensures r.status.Exit? && r.status.code == 0 ==> r.stdout[0] in {NoKeyLine, FoundLine, NotFoundLine}
  {
    if |args| == 0 then Outcome([UsageLine], Exit(1, Usage), [])
    else
      var path := args[0];
      var probe := [ProbeFile(path)];
      if !ReadableFile(files, path) then Outcome([UnreadableLine(path)], Exit(1, UnreadableFile), probe)
      else
        match ReadText(files[path])
        case Stop(st) => Outcome([], st, probe)
        case Next(content) =>
          match ExtractPublicKey(content)
          case None => Outcome([NoKeyLine], Exit(0, Checked), probe)
          case Some(token) =>
            match KeyTypeText(token)
            case Failed(e) => Outcome([], Crash(e), probe)
            case Text(u) => Outcome([Verdict(u)], Exit(0, Checked), probe)
  }

  /** The script as it runs: the argument checks, then decoded_key rebound
      step by step (decoded, length prefix dropped, cut at the first NUL)
      before the UTF-8 decode and the search. */
  method CheckKey(args: seq<string>, files: FileSystem) returns (o: Outcome)
    ensures o == Check(args, files)
  {
    if |args| < 1 {
      return Outcome([UsageLine], Exit(1, Usage), []);
    }
    var path := args[0];
    var probe := [ProbeFile(path)];
    if !(path in files && files[path].Regular?) || !files[path].readable {
      return Outcome([UnreadableLine(path)], Exit(1, UnreadableFile), probe);
    }
    var read := ReadText(files[path]);
    if read.Stop? {
      return Outcome([], read.status, probe);
    }
    var key := ExtractPublicKey(read.value);
    if key.None? {
      return Outcome([NoKeyLine], Exit(0, Checked), probe);
    }
    var blob := Base64.Decode(key.value);
    if blob.None? {
      return Outcome([], Crash(Base64Error), probe);
    }
    var decoded := blob.value;
    decoded := if |decoded| >= 4 then decoded[4..] else [];
    var nullIndex := FindZero(decoded);
    if nullIndex >= 0 {
      decoded := decoded[..nullIndex];
    }
    assert decoded == KeyTypeBytes(blob.value);
    var text := Utf8.Decode(decoded);
    if text.None? {
      return Outcome([], Crash(UnicodeError), probe);
    }
    var line;
    if FindMarker(text.value).Some? {
      line := FoundLine;
    } else {
      line := NotFoundLine;
    }
    o := Outcome([line], Exit(0, Checked), probe);
  }

  /** The usage line and exit 1 exactly when no file name is given; nothing
      is probed then. */
  lemma UsageExit(args: seq<string>, files: FileSystem)
    ensures Check(args, files).status == Exit(1, Usage) <==> args == []
    ensures args == [] ==> Check(args, files) == Outcome([UsageLine], Exit(1, Usage), [])
  {
  }

  /** "Invalid or unreadable file" and exit 1 exactly when the first
      argument names no readable regular file; arguments after it are never
      looked at. */
  lemma UnreadableExit(args: seq<string>, files: FileSystem, more: seq<string>)
    requires args != []
    ensures Check(args, files).status == Exit(1, UnreadableFile) <==> !ReadableFile(files, args[0])
    ensures !ReadableFile(files, args[0]) ==>
      Check(args, files) == Outcome([UnreadableLine(args[0])], Exit(1, UnreadableFile), [ProbeFile(args[0])])
    ensures Check(args[..1] + more, files) == Check(args, files)
  {
    assert (args[..1] + more)[0] == args[0];
  }

  /** A readable file without a marker followed by whitespace and a base64
      run gives exactly the "No … found" line and exit 0; every other read
      file gives another output. */
  lemma NoKeyReport(path: string, files: FileSystem, content: string)
    requires ReadableFile(files, path) && ReadText(files[path]) == Next(content)
    ensures Check([path], files).stdout == [NoKeyLine] <==> forall p: nat :: PublicKeyAt(content, p).None?
    ensures ExtractPublicKey(content).None? ==> Check([path], files) == Outcome([NoKeyLine], Exit(0, Checked), [ProbeFile(path)])
  {
    DistinctMessages();
  }

  /** With a key found, the message depends on the decoded key type alone:
      found exactly when the marker pattern matches somewhere in it. */
  lemma VerdictOfKey(path: string, files: FileSystem, content: string, token: string, u: string)
    requires ReadableFile(files, path) && ReadText(files[path]) == Next(content)
    requires ExtractPublicKey(content) == Some(token) && KeyTypeText(token) == Text(u)
    ensures Check([path], files) == Outcome([Verdict(u)], Exit(0, Checked), [ProbeFile(path)])
    ensures Verdict(u) == FoundLine <==> exists p: nat :: MarkerAt(u, p)
  {
    DistinctMessages();
  }

  /** A key file that starts with the marker, one space and a token is read
      as that token: the first match is at the start and takes the whole
      base64 run. */
  lemma LeadingKey(token: string, rest: string)
    requires IsToken(token) && (rest == [] || !IsBase64Char(rest[0]))
    ensures ExtractPublicKey(Marker + " " + token + rest) == Some(token)
  {
    var s := Marker + " " + token + rest;
    var m := |Marker|;
    assert s[..m] == Marker;
    assert OccursAt(s, Marker, 0);
    LiteralMarkerMatches(s, 0);
    assert s[m] == ' ';
    TokenCharsAreNotSpace(token[0]);
    assert s[m + 1] == token[0];
    RunEndUnique(s, m, m + 1, IsSpace);
    assert forall k :: m + 1 <= k < m + 1 + |token| ==> s[k] == token[k - m - 1];
    assert m + 1 + |token| < |s| ==> s[m + 1 + |token|] == rest[0];
    RunEndUnique(s, m + 1, m + 1 + |token|, IsBase64Char);
    assert s[m + 1..m + 1 + |token|] == token;
    assert PublicKeyAt(s, 0) == Some(token);
  }

  /** A text made of the marker, a space, a token and a rest without
      carriage returns reads back from its UTF-8 encoding unchanged. */
  lemma KeyTextRead(token: string, rest: string)
    requires IsToken(token) && NoCarriageReturn(rest)
    ensures ReadText(Regular(Utf8.Encode(Marker + " " + token + rest), true)) == Next(Marker + " " + token + rest)
  {
    var head := Marker + " ";
    assert NoCarriageReturn(head) by {
      assert forall k :: 0 <= k < |Marker| ==> Marker[k] != '\r';
    }
    var content := head + token + rest;
    forall k | 0 <= k < |content|
      ensures content[k] != '\r'
    {
      if k < |head| {
        assert content[k] == head[k];
      } else if k < |head| + |token| {
        assert content[k] == token[k - |head|];
      } else {
        assert content[k] == rest[k - |head| - |token|];
      }
    }
    ReadWritten(content);
  }

  /** The content of such a key file reads back, yields the token, and the
      token's blob yields the marker as its key type. */
  lemma KeyFileContent(header: seq<byte>, tail: seq<byte>, rest: string)
    requires |header| == 4 && NoCarriageReturn(rest) && (rest == [] || !IsBase64Char(rest[0]))
    ensures var token := Base64.Encode(header + MarkerBytes() + [0] + tail);
      var content := Marker + " " + token + rest;
      && ReadText(Regular(Utf8.Encode(content), true)) == Next(content)
      && ExtractPublicKey(content) == Some(token)
      && KeyTypeText(token) == Text(Marker)
  {
    var token := Base64.Encode(header + MarkerBytes() + [0] + tail);
    BlobToken(header, tail);
    KeyTextRead(token, rest);
    LeadingKey(token, rest);
    MarkerBlob(header, tail);
  }

  /** A FIDO2 public key file as ssh-keygen writes it: the marker, the
      base64 of a blob whose first SSH string is the key type, and what
      follows it; the check reports the marker as found. */
  lemma KeyFileFound(path: string, files: FileSystem, header: seq<byte>, tail: seq<byte>, rest: string)
    requires |header| == 4 && NoCarriageReturn(rest) && (rest == [] || !IsBase64Char(rest[0]))
    requires var token := Base64.Encode(header + MarkerBytes() + [0] + tail);
      path in files && files[path] == Regular(Utf8.Encode(Marker + " " + token + rest), true)
    ensures Check([path], files) == Outcome([FoundLine], Exit(0, Checked), [ProbeFile(path)])
  {
    var token := Base64.Encode(header + MarkerBytes() + [0] + tail);
    KeyFileContent(header, tail, rest);
    VerdictOfKey(path, files, Marker + " " + token + rest, token, Marker);
    FindMarkerItself();
  }
}
