/**
 * usr/local/bin/bwidm_rest_ssh_jumphost.py: keys by user name, with a name
 * check of up to 12 word characters, a user lookup by eppn with its own
 * two codes, a config read that catches OSError only, the list of the
 * active keys, and the filter on the key name alone.
 */
module Bwidm_rest_ssh_jumphost {
  import opened Wrappers
  import opened Search
  import opened Outcomes
  import opened Validate
  import opened Config
  import opened Request
  import opened Keys
  import opened Pipeline

  const Script := Preset(
    WordName(12, 41),
    ConfigRule(false, 21, [22, 23, 24, 25]),
    CallRule(11, FullChain(19)),
    KeyList(CallRule(31, SingleCode(32)), "/key-status/ACTIVE", NameOnly))

  /** check_user_name: exit 41 exactly for a name that is not 1 to 12 word
      characters, before anything else happens. */
  lemma NameCheck(inp: Input)
    ensures Run(Script, inp).status == Exit(41, InvalidUserName) <==> !NameMatches(inp.user, 12)
    ensures !NameMatches(inp.user, 12) ==> Run(Script, inp).effects == []
  {
    NameGate(Script, inp);
  }

  /** Exit 41 serves both the name check and status 401 of the chain, but
      the chain's branch is never taken: exit 41 always means the name was
      refused. */
  lemma Exit41IsName(inp: Input)
    ensures Run(Script, inp).status.Exit? && Run(Script, inp).status.code == 41 <==> !NameMatches(inp.user, 12)
    ensures Run(Script, inp).status.Exit? && Run(Script, inp).status.code == 41 ==> Run(Script, inp).status.reason == InvalidUserName
  {
    NameGate(Script, inp);
    if NameMatches(inp.user, 12) {
      LaterReasons(Script, inp);
      if Reached(Script, inp).Some? {
        var s := Reached(Script, inp).value;
        IdentityStage(Script, inp, s);
        ChainUnreachable(Script.keys, inp.keysReply);
      }
    }
  }

  /** The config stage: an OSError exits 21, any other failure of the read
      is not caught, and the first empty setting exits with its code, 22 to
      25. */
  lemma ConfigCodes(inp: Input, i: nat)
    requires NameMatches(inp.user, 12) && OverridePath(inp.user) !in inp.files
    ensures var trace := [ProbeFile(OverridePath(inp.user)), ReadConfig];
      && (inp.config.OsError? ==> Run(Script, inp) == Outcome([], Exit(21, ConfigUnreadable), trace))
      && (inp.config.OtherError? ==> Run(Script, inp) == Outcome([], Crash(ConfigError), trace))
      && (FirstEmpty(inp.config, i) ==> Run(Script, inp) == Outcome([], Exit([22, 23, 24, 25][i], EmptyReasons[i]), trace))
  {
    ConfigExits(Script, inp, i);
  }

  /** get_user_id: no response or an error status exits 31, any other
      status but 200 exits 32. */
  lemma IdentityCodes(inp: Input, s: Settings)
    requires Configured(Script, inp, s)
    ensures var trace := [ProbeFile(OverridePath(inp.user)), ReadConfig, HttpGet(IdentityUrl(s, inp.user))];
      && (inp.identityReply.TransportError? || RaisesForStatus(inp.identityReply.code) ==>
            Run(Script, inp) == Outcome([], Exit(31, RequestFailed), trace))
      && (inp.identityReply.Response? && inp.identityReply.code != 200 && !RaisesForStatus(inp.identityReply.code) ==>
            Run(Script, inp) == Outcome([], Exit(32, StatusNotGranted), trace))
  {
    IdentityStage(Script, inp, s);
  }

  /** The list of active keys: no response or an error status exits 11,
      another status but 200 exits 19. */
  lemma KeysCodes(inp: Input, s: Settings, body: string, uidNumber: string)
    requires Configured(Script, inp, s)
    requires inp.identityReply == Response(200, body) && inp.identityOf(body) == Some(uidNumber)
    ensures var trace := [ProbeFile(OverridePath(inp.user)), ReadConfig, HttpGet(IdentityUrl(s, inp.user)),
                          HttpGet(KeyListUrl(s, uidNumber, "/key-status/ACTIVE"))];
      && (inp.keysReply.TransportError? || RaisesForStatus(inp.keysReply.code) ==>
            Run(Script, inp) == Outcome([], Exit(11, RequestFailed), trace))
      && (inp.keysReply.Response? && inp.keysReply.code != 200 && !RaisesForStatus(inp.keysReply.code) ==>
            Run(Script, inp) == Outcome([], Exit(19, StatusNotGranted), trace))
  {
    KeysStage(Script, inp, s, body, uidNumber);
  }

  /** The served keys: the lines of the listed keys whose name contains
      UNIFR-JUMPHOST, in list order. */
  lemma Served(inp: Input, s: Settings, body: string, uidNumber: string, text: string, keys: seq<KeyObject>)
    requires Configured(Script, inp, s)
    requires inp.identityReply == Response(200, body) && inp.identityOf(body) == Some(uidNumber)
    requires inp.keysReply == Response(200, text) && inp.keysOf(text) == Some(keys)
    requires forall i :: 0 <= i < |keys| ==> Complete(keys[i])
    ensures Run(Script, inp) == Outcome(Selected(NameOnly, inp.user, inp.parseDate, inp.now, keys), Exit(0, KeysServed),
      [ProbeFile(OverridePath(inp.user)), ReadConfig, HttpGet(IdentityUrl(s, inp.user)),
       HttpGet(KeyListUrl(s, uidNumber, "/key-status/ACTIVE"))])
  {
    KeyListServed(Script, inp, s, body, uidNumber, text, keys);
  }
}
