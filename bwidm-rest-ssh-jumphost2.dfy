/**
 * usr/local/bin/bwidm-rest-ssh-jumphost2.py: keys by user name with no
 * name check, a user lookup by eppn, the list of all keys of the uidNumber,
 * and the filter on the key name, the status and the key's age.
 */
module BwidmRestSshJumphost2 {
  import opened Wrappers
  import opened Outcomes
  import opened Config
  import opened Request
  import opened Files
  import opened Keys
  import opened Pipeline

  const Script := Preset(
    AnyName,
    ConfigRule(true, 12, [14, 15, 16, 17]),
    CallRule(18, FullChain(19)),
    KeyList(CallRule(21, FullChain(19)), "/all", NameStatusAge(ValidDays)))

  /** There is no check_user_name: every argument, '/' and ".." included,
      goes into the override path, and an existing file there is printed
      without reading the config or sending a request. */
  lemma AnyNameProbed(inp: Input)
    ensures Run(Script, inp).effects != [] && Run(Script, inp).effects[0] == ProbeFile(OverridePath(inp.user))
    ensures OverridePath(inp.user) in inp.files ==> Run(Script, inp).effects == [ProbeFile(OverridePath(inp.user))]
    ensures OverridePath(inp.user) in inp.files && ReadText(inp.files[OverridePath(inp.user)]).Next? ==>
      Run(Script, inp).status == Exit(0, OverrideServed)
  {
    EffectOrder(Script, inp);
    if OverridePath(inp.user) in inp.files {
      OverrideShortCircuit(Script, inp);
    }
  }

  /** The config stage under a bare except: every failure of the read exits
      12, and the first empty setting exits with its code, 14 to 17. */
  lemma ConfigCodes(inp: Input, i: nat)
    requires OverridePath(inp.user) !in inp.files
    ensures var trace := [ProbeFile(OverridePath(inp.user)), ReadConfig];
      && (!inp.config.Loaded? ==> Run(Script, inp) == Outcome([], Exit(12, ConfigUnreadable), trace))
      && (FirstEmpty(inp.config, i) ==> Run(Script, inp) == Outcome([], Exit([14, 15, 16, 17][i], EmptyReasons[i]), trace))
  {
    ConfigExits(Script, inp, i);
  }

  /** get_user_id: no response or an error status exits 21, a status the
      chain names among them; another status but 200 exits 19; a body
      without a uidNumber crashes. */
  lemma IdentityCodes(inp: Input, s: Settings)
    requires Configured(Script, inp, s)
    ensures var trace := [ProbeFile(OverridePath(inp.user)), ReadConfig, HttpGet(IdentityUrl(s, inp.user))];
      && (inp.identityReply.TransportError? || RaisesForStatus(inp.identityReply.code) ==>
            Run(Script, inp) == Outcome([], Exit(21, RequestFailed), trace))
      && (inp.identityReply.Response? && inp.identityReply.code != 200 && !RaisesForStatus(inp.identityReply.code) ==>
            Run(Script, inp) == Outcome([], Exit(19, StatusNotGranted), trace))
      && (inp.identityReply.Response? && inp.identityReply.code == 200 && inp.identityOf(inp.identityReply.text).None? ==>
            Run(Script, inp) == Outcome([], Crash(JsonError), trace))
  {
    IdentityStage(Script, inp, s);
  }

  /** The key list of all keys: no response or an error status exits 18,
      another status but 200 exits 19. */
  lemma KeysCodes(inp: Input, s: Settings, body: string, uidNumber: string)
    requires Configured(Script, inp, s)
    requires inp.identityReply == Response(200, body) && inp.identityOf(body) == Some(uidNumber)
    ensures var trace := [ProbeFile(OverridePath(inp.user)), ReadConfig, HttpGet(IdentityUrl(s, inp.user)),
                          HttpGet(KeyListUrl(s, uidNumber, "/all"))];
      && (inp.keysReply.TransportError? || RaisesForStatus(inp.keysReply.code) ==>
            Run(Script, inp) == Outcome([], Exit(18, RequestFailed), trace))
      && (inp.keysReply.Response? && inp.keysReply.code != 200 && !RaisesForStatus(inp.keysReply.code) ==>
            Run(Script, inp) == Outcome([], Exit(19, StatusNotGranted), trace))
  {
    KeysStage(Script, inp, s, body, uidNumber);
  }

  /** The served keys: the lines of the keys whose name contains
      UNIFR-JUMPHOST, whose status starts with ACTIVE or EXPIRED and that
      were created less than 365 days before now, in list order; nothing is
      printed exactly when no key is kept. */
  lemma Served(inp: Input, s: Settings, body: string, uidNumber: string, text: string, keys: seq<KeyObject>)
    requires Configured(Script, inp, s)
    requires inp.identityReply == Response(200, body) && inp.identityOf(body) == Some(uidNumber)
    requires inp.keysReply == Response(200, text) && inp.keysOf(text) == Some(keys)
    requires forall i :: 0 <= i < |keys| ==> Complete(keys[i])
    requires NoOverflow(NameStatusAge(ValidDays), inp.parseDate, inp.now, keys)
    ensures Run(Script, inp) == Outcome(Selected(NameStatusAge(ValidDays), inp.user, inp.parseDate, inp.now, keys), Exit(0, KeysServed),
      [ProbeFile(OverridePath(inp.user)), ReadConfig, HttpGet(IdentityUrl(s, inp.user)), HttpGet(KeyListUrl(s, uidNumber, "/all"))])
    ensures Run(Script, inp).stdout == [] <==> forall i :: 0 <= i < |keys| ==> !Kept(NameStatusAge(ValidDays), inp.parseDate, inp.now, keys[i])
  {
    KeyListServed(Script, inp, s, body, uidNumber, text, keys);
    SelectedEmpty(NameStatusAge(ValidDays), inp.user, inp.parseDate, inp.now, keys);
  }

  /** A key created 365 days or more before now is never kept, whatever
      its name and status. */
  lemma OldKeyDropped(key: KeyObject, parseDate: string -> Option<int>, now: int, created: int)
    requires Complete(key) && parseDate(key["createdAt"]) == Some(created)
    requires created + ValidDays * MicrosPerDay <= now
    ensures !Kept(NameStatusAge(ValidDays), parseDate, now, key)
  {
  }
}
