/**
 * usr/local/bin/bwidm-rest-ssh-jumphost.py: keys by user name, with a name
 * check of up to 12 word characters, a user lookup by eppn, the list of
 * the active keys of the uidNumber, and the filter on the key name alone.
 */
module BwidmRestSshJumphost {
  import opened Wrappers
  import opened Search
  import opened Outcomes
  import opened Validate
  import opened Config
  import opened Request
  import opened Keys
  import opened Pipeline

  const Script := Preset(
    WordName(12, 9),
    ConfigRule(true, 12, [14, 15, 16, 17]),
    CallRule(18, FullChain(19)),
    KeyList(CallRule(21, FullChain(19)), "/key-status/ACTIVE", NameOnly))

  /** check_user_name: exit 9 exactly for a name that is not 1 to 12 word
      characters, before anything else happens. */
  lemma NameCheck(inp: Input)
    ensures Run(Script, inp).status == Exit(9, InvalidUserName) <==> !NameMatches(inp.user, 12)
    ensures !NameMatches(inp.user, 12) ==> Run(Script, inp).effects == []
  {
    NameGate(Script, inp);
  }

  /** The config stage under a bare except: every failure of the read exits
      12, and the first empty setting exits with its code, 14 to 17. */
  lemma ConfigCodes(inp: Input, i: nat)
    requires NameMatches(inp.user, 12) && OverridePath(inp.user) !in inp.files
    ensures var trace := [ProbeFile(OverridePath(inp.user)), ReadConfig];
      && (!inp.config.Loaded? ==> Run(Script, inp) == Outcome([], Exit(12, ConfigUnreadable), trace))
      && (FirstEmpty(inp.config, i) ==> Run(Script, inp) == Outcome([], Exit([14, 15, 16, 17][i], EmptyReasons[i]), trace))
  {
    ConfigExits(Script, inp, i);
  }

  /** get_user_id: no response or an error status exits 21, another status
      but 200 exits 19. */
  lemma IdentityCodes(inp: Input, s: Settings)
    requires Configured(Script, inp, s)
    ensures var trace := [ProbeFile(OverridePath(inp.user)), ReadConfig, HttpGet(IdentityUrl(s, inp.user))];
      && (inp.identityReply.TransportError? || RaisesForStatus(inp.identityReply.code) ==>
            Run(Script, inp) == Outcome([], Exit(21, RequestFailed), trace))
      && (inp.identityReply.Response? && inp.identityReply.code != 200 && !RaisesForStatus(inp.identityReply.code) ==>
            Run(Script, inp) == Outcome([], Exit(19, StatusNotGranted), trace))
  {
    IdentityStage(Script, inp, s);
  }

  /** The list of active keys: no response or an error status exits 18,
      another status but 200 exits 19. */
  lemma KeysCodes(inp: Input, s: Settings, body: string, uidNumber: string)
    requires Configured(Script, inp, s)
    requires inp.identityReply == Response(200, body) && inp.identityOf(body) == Some(uidNumber)
    ensures var trace := [ProbeFile(OverridePath(inp.user)), ReadConfig, HttpGet(IdentityUrl(s, inp.user)),
                          HttpGet(KeyListUrl(s, uidNumber, "/key-status/ACTIVE"))];
      && (inp.keysReply.TransportError? || RaisesForStatus(inp.keysReply.code) ==>
            Run(Script, inp) == Outcome([], Exit(18, RequestFailed), trace))
      && (inp.keysReply.Response? && inp.keysReply.code != 200 && !RaisesForStatus(inp.keysReply.code) ==>
            Run(Script, inp) == Outcome([], Exit(19, StatusNotGranted), trace))
  {
    KeysStage(Script, inp, s, body, uidNumber);
  }

  /** The served keys: the lines of the listed keys whose name contains
      UNIFR-JUMPHOST, in list order; status and age are not looked at. */
  lemma Served(inp: Input, s: Settings, body: string, uidNumber: string, text: string, keys: seq<KeyObject>)
    requires Configured(Script, inp, s)
    requires inp.identityReply == Response(200, body) && inp.identityOf(body) == Some(uidNumber)
    requires inp.keysReply == Response(200, text) && inp.keysOf(text) == Some(keys)
    requires forall i :: 0 <= i < |keys| ==> Complete(keys[i])
    ensures Run(Script, inp) == Outcome(Selected(NameOnly, inp.user, inp.parseDate, inp.now, keys), Exit(0, KeysServed),
      [ProbeFile(OverridePath(inp.user)), ReadConfig, HttpGet(IdentityUrl(s, inp.user)),
       HttpGet(KeyListUrl(s, uidNumber, "/key-status/ACTIVE"))])
    ensures Run(Script, inp).stdout == [] <==> forall i :: 0 <= i < |keys| ==> !Contains(keys[i]["name"], KeyName)
  {
    KeyListServed(Script, inp, s, body, uidNumber, text, keys);
    SelectedEmpty(NameOnly, inp.user, inp.parseDate, inp.now, keys);
  }
}
