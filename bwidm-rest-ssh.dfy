/**
 * usr/local/bin/bwidm-rest-ssh.py: keys by user ID, with a name check of
 * up to 20 word characters, a six-digit ID check, a config read under a
 * bare except, the full chain of status exits, and FIDO2 unwrapping of
 * command keys with the prefix `command="FIDO2",from="`.
 */
module BwidmRestSsh {
  import opened Bytes
  import opened Search
  import opened Outcomes
  import opened Validate
  import opened Config
  import opened Request
  import opened Lines
  import opened Listing
  import opened Patterns
  import opened Fido2
  import opened KeyLines
  import opened Pipeline
  import Base64

  const Prefix := "command=\"FIDO2\",from=\""

  const Script := Preset(
    WordName(20, 8),
    ConfigRule(true, 12, [14, 15, 16, 17]),
    CallRule(18, FullChain(19)),
    AuthAll(SixDigits(9), Fido2Unwrap(Prefix)))

  /** check_user_name: exit 8 exactly for a name that is not 1 to 20 word
      characters, before anything else happens. */
  lemma NameCheck(inp: Input)
    ensures Run(Script, inp).status == Exit(8, InvalidUserName) <==> !NameMatches(inp.user, 20)
    ensures !NameMatches(inp.user, 20) ==> Run(Script, inp).effects == []
  {
    NameGate(Script, inp);
  }

  /** check_user_id: for a valid name, exit 9 exactly when the ID is not
      six digits with a value above 900000. */
  lemma IdCheck(inp: Input)
    requires NameMatches(inp.user, 20)
    ensures Run(Script, inp).status == Exit(9, InvalidUserId) <==> SixDigitId(inp.uid).None?
    ensures SixDigitId(inp.uid).None? ==> Run(Script, inp).effects == []
  {
    SixDigitGate(Script, inp);
  }

  /** The config stage under a bare except: every failure of the read
      exits 12, and the first empty setting exits with its code, 14 to 17 in
      the order reg_host, rest_user, rest_pw, ssn. */
  lemma ConfigCodes(inp: Input, i: nat)
    requires Arguments(Script, inp.user, inp.uid).Next? && OverridePath(inp.user) !in inp.files
    ensures var trace := [ProbeFile(OverridePath(inp.user)), ReadConfig];
      && (inp.config.OsError? ==> Run(Script, inp) == Outcome([], Exit(12, ConfigUnreadable), trace))
      && (inp.config.OtherError? ==> Run(Script, inp) == Outcome([], Exit(12, ConfigUnreadable), trace))
      && (FirstEmpty(inp.config, i) ==> Run(Script, inp) == Outcome([], Exit([14, 15, 16, 17][i], EmptyReasons[i]), trace))
  {
    ConfigExits(Script, inp, i);
  }

  /** The request: no response or an error status exits 18, a status the
      chain names among them; only a status the chain cannot name and
      raise_for_status lets through exits 19. */
  lemma RequestCodes(inp: Input, s: Settings)
    requires Configured(Script, inp, s)
    ensures var trace := [ProbeFile(OverridePath(inp.user)), ReadConfig, HttpGet(AuthAllUrl(s, inp.uid))];
      && (inp.keysReply.TransportError? || RaisesForStatus(inp.keysReply.code) ==>
            Run(Script, inp) == Outcome([], Exit(18, RequestFailed), trace))
      && (inp.keysReply.Response? && inp.keysReply.code in ChainCodes ==>
            Run(Script, inp) == Outcome([], Exit(18, RequestFailed), trace))
      && (inp.keysReply.Response? && inp.keysReply.code != 200 && !RaisesForStatus(inp.keysReply.code) ==>
            Run(Script, inp) == Outcome([], Exit(19, StatusNotGranted), trace))
  {
    AuthAllRun(Script, inp, s);
    UrlUserId(Script, inp);
    ChainUnreachable(Script.keys, inp.keysReply);
    if inp.keysReply.Response? && inp.keysReply.code != 200 && !RaisesForStatus(inp.keysReply.code) {
      StatusReachesChain(Script.keys, inp.keysReply.code, inp.keysReply.text);
    }
  }

  /** A listing in which no line raises: the lines come back one per print,
      each unwrapped where it is a FIDO2 command key and unchanged
      otherwise, and the script exits 0. */
  lemma UnwrappedListing(inp: Input, s: Settings, lines: seq<string>)
    requires Configured(Script, inp, s) && inp.keysReply == Response(200, Terminated(lines))
    requires Printable(Prefix, lines)
    ensures Run(Script, inp) == Outcome(ShownAll(Prefix, lines), Exit(0, KeysServed),
      [ProbeFile(OverridePath(inp.user)), ReadConfig, HttpGet(AuthAllUrl(s, inp.uid))])
  {
    UnwrapServed(Script, inp, s, lines);
  }

  /** The prefix holds no 's', so the part before the marker holds a
      marker match only if from="…" does. */
  lemma PrefixHasNoMarker(from: string)
    requires NoMarker(from)
    ensures NoMarker(Prefix + from)
  {
    assert forall k :: 0 <= k < |Prefix| ==> Prefix[k] != 's';
    JoinNoMarker(Prefix, from);
  }

  /** A FIDO2 key the service lists as a command key is served as a plain
      key line: the marker, the token exactly as listed, and its comment. */
  lemma CommandKeyServed(from: string, header: seq<byte>, tail: seq<byte>, comment: string)
    requires NoMarker(from) && NoNewline(from, 0, |from|) && IsComment(comment) && |header| == 4
    ensures var token := Base64.Encode(header + MarkerBytes() + [0] + tail);
      Shown(Prefix, CommandKeyLine(Prefix, from, token, comment)) == Marker + " " + token + " " + comment
  {
    PrefixHasNoMarker(from);
    LineRoundTrip(Prefix, from, header, tail, comment);
  }
}
