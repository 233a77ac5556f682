/**
 * usr/local/bin/bwidm-rest-ssh2.py: keys by user ID with no name check, an
 * ID check by int() with 900000 as the least valid ID, and the listing
 * printed line by line as it is.
 */
module BwidmRestSsh2 {
  import opened Wrappers
  import opened Outcomes
  import opened Numbers
  import opened Validate
  import opened Config
  import opened Request
  import opened Lines
  import opened KeyLines
  import opened Pipeline

  const Script := Preset(
    AnyName,
    ConfigRule(true, 12, [14, 15, 16, 17]),
    CallRule(18, FullChain(19)),
    AuthAll(AtLeast(9), Verbatim))

  /** check_user_id by int(): an argument int() does not accept is an
      argparse error, exit 2; a value below 900000 exits 9; every other
      value passes, with leading zeros or not, as long as int() can read
      it: a numeral of more than 4300 digits is an argparse error too. */
  lemma IdCheck(inp: Input)
    ensures Run(Script, inp).status == Exit(2, BadArgument) <==> PyInt(inp.uid).None?
    ensures Run(Script, inp).status == Exit(9, InvalidUserId) <==> PyInt(inp.uid).Some? && PyInt(inp.uid).value < MinUserId
    ensures Run(Script, inp).effects == [] <==> PyInt(inp.uid).None? || PyInt(inp.uid).value < MinUserId
  {
    AtLeastGate(Script, inp);
  }

  /** A user ID of more digits than int() reads ends the run at argparse,
      before any file or the network is touched. */
  lemma LongIdRefused(inp: Input)
    requires |inp.uid| > MaxStrDigits && AllDigits(inp.uid)
    ensures Run(Script, inp).status == Exit(2, BadArgument) && Run(Script, inp).effects == []
  {
    PyIntOfDigits(inp.uid);
    AtLeastGate(Script, inp);
  }

  /** The ID goes into the URL as str() of the parsed value, not as typed;
      that str() stays within the digit limit, so it does not raise. */
  lemma IdInUrl(inp: Input)
    requires Arguments(Script, inp.user, inp.uid).Next?
    ensures PyInt(inp.uid).Some? && PyInt(inp.uid).value >= MinUserId
    ensures Arguments(Script, inp.user, inp.uid).value == DecimalString(PyInt(inp.uid).value as nat)
    ensures |Arguments(Script, inp.user, inp.uid).value| <= MaxStrDigits
  {
    UrlUserId(Script, inp);
  }

  /** The config stage under a bare except: every failure of the read exits
      12, and the first empty setting exits with its code, 14 to 17. */
  lemma ConfigCodes(inp: Input, i: nat)
    requires Arguments(Script, inp.user, inp.uid).Next? && OverridePath(inp.user) !in inp.files
    ensures var trace := [ProbeFile(OverridePath(inp.user)), ReadConfig];
      && (!inp.config.Loaded? ==> Run(Script, inp) == Outcome([], Exit(12, ConfigUnreadable), trace))
      && (FirstEmpty(inp.config, i) ==> Run(Script, inp) == Outcome([], Exit([14, 15, 16, 17][i], EmptyReasons[i]), trace))
  {
    ConfigExits(Script, inp, i);
  }

  /** The request: no response or an error status exits 18, a status the
      chain names among them; another status but 200 exits 19. */
  lemma RequestCodes(inp: Input, s: Settings)
    requires Configured(Script, inp, s)
    ensures var trace := [ProbeFile(OverridePath(inp.user)), ReadConfig,
                          HttpGet(AuthAllUrl(s, Arguments(Script, inp.user, inp.uid).value))];
      && (inp.keysReply.TransportError? || RaisesForStatus(inp.keysReply.code) ==>
            Run(Script, inp) == Outcome([], Exit(18, RequestFailed), trace))
      && (inp.keysReply.Response? && inp.keysReply.code != 200 && !RaisesForStatus(inp.keysReply.code) ==>
            Run(Script, inp) == Outcome([], Exit(19, StatusNotGranted), trace))
  {
    AuthAllRun(Script, inp, s);
    if inp.keysReply.Response? && inp.keysReply.code != 200 && !RaisesForStatus(inp.keysReply.code) {
      StatusReachesChain(Script.keys, inp.keysReply.code, inp.keysReply.text);
    }
  }

  /** On status 200 every listed line is printed as it is, in order, and
      the script exits 0. */
  lemma Served(inp: Input, s: Settings, lines: seq<string>)
    requires Listed(Script, inp, s, Terminated(lines))
    requires Unbroken(lines)
    ensures Run(Script, inp) == Outcome(lines, Exit(0, KeysServed),
      [ProbeFile(OverridePath(inp.user)), ReadConfig, HttpGet(AuthAllUrl(s, Arguments(Script, inp.user, inp.uid).value))])
  {
    VerbatimServed(Script, inp, s, lines);
  }
}
