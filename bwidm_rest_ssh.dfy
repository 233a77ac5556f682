/**
 * usr/local/bin/bwidm_rest_ssh.py: keys by user ID, with a name check of
 * up to 12 word characters, a six-digit ID check, a config read that
 * catches OSError only, one code for every non-200 status, and FIDO2
 * unwrapping with the literal prefix `command="{FIDO2_KEY_NAME}",from="`
 * (the pattern is a plain string, not an f-string, so the braces stay).
 */
module Bwidm_rest_ssh {
  import opened Outcomes
  import opened Validate
  import opened Config
  import opened Request
  import opened Files
  import opened Lines
  import opened Listing
  import opened KeyLines
  import opened Pipeline

  const Prefix := "command=\"{FIDO2_KEY_NAME}\",from=\""

  /** The tenth character of the prefix opens the placeholder. */
  lemma PrefixPlaceholder()
    ensures |Prefix| > 9 && Prefix[9] == '{'
  {
  }

  const Script := Preset(
    WordName(12, 41),
    ConfigRule(false, 21, [22, 23, 24, 25]),
    CallRule(11, SingleCode(12)),
    AuthAll(SixDigits(31), Fido2Unwrap(Prefix)))

  /** check_user_name: exit 41 exactly for a name that is not 1 to 12 word
      characters, before anything else happens. */
  lemma NameCheck(inp: Input)
    ensures Run(Script, inp).status == Exit(41, InvalidUserName) <==> !NameMatches(inp.user, 12)
    ensures !NameMatches(inp.user, 12) ==> Run(Script, inp).effects == []
  {
    NameGate(Script, inp);
  }

  /** check_user_id: for a valid name, exit 31 exactly when the ID is not
      six digits with a value above 900000. */
  lemma IdCheck(inp: Input)
    requires NameMatches(inp.user, 12)
    ensures Run(Script, inp).status == Exit(31, InvalidUserId) <==> SixDigitId(inp.uid).None?
    ensures SixDigitId(inp.uid).None? ==> Run(Script, inp).effects == []
  {
    SixDigitGate(Script, inp);
  }

  /** The config stage: an OSError exits 21, any other failure of the read
      is not caught, and the first empty setting exits with its code, 22 to
      25 in the order reg_host, rest_user, rest_pw, ssn. */
  lemma ConfigCodes(inp: Input, i: nat)
    requires Arguments(Script, inp.user, inp.uid).Next? && OverridePath(inp.user) !in inp.files
    ensures var trace := [ProbeFile(OverridePath(inp.user)), ReadConfig];
      && (inp.config.OsError? ==> Run(Script, inp) == Outcome([], Exit(21, ConfigUnreadable), trace))
      && (inp.config.OtherError? ==> Run(Script, inp) == Outcome([], Crash(ConfigError), trace))
      && (FirstEmpty(inp.config, i) ==> Run(Script, inp) == Outcome([], Exit([22, 23, 24, 25][i], EmptyReasons[i]), trace))
  {
    ConfigExits(Script, inp, i);
  }

  /** The request: no response or an error status exits 11, any other
      status but 200 exits 12, after exactly one request. */
  lemma RequestCodes(inp: Input, s: Settings)
    requires Configured(Script, inp, s)
    ensures var trace := [ProbeFile(OverridePath(inp.user)), ReadConfig, HttpGet(AuthAllUrl(s, inp.uid))];
      && (inp.keysReply.TransportError? || RaisesForStatus(inp.keysReply.code) ==>
            Run(Script, inp) == Outcome([], Exit(11, RequestFailed), trace))
      && (inp.keysReply.Response? && inp.keysReply.code != 200 && !RaisesForStatus(inp.keysReply.code) ==>
            Run(Script, inp) == Outcome([], Exit(12, StatusNotGranted), trace))
  {
    AuthAllRun(Script, inp, s);
    UrlUserId(Script, inp);
  }

  /** The literal placeholder in the prefix: listed lines without a '{'
      are printed unchanged, FIDO2 command keys included, and the script
      exits 0. */
  lemma PlaceholderListing(inp: Input, s: Settings, lines: seq<string>)
    requires Listed(Script, inp, s, Terminated(lines)) && Braceless(lines)
    ensures Run(Script, inp) == Outcome(lines, Exit(0, KeysServed),
      [ProbeFile(OverridePath(inp.user)), ReadConfig, HttpGet(AuthAllUrl(s, inp.uid))])
  {
    PrefixPlaceholder();
    PlaceholderServed(Script, inp, s, lines, 31, Prefix, 9);
  }
}
