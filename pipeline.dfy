/**
 * The key-resolution pipeline that sshd runs as AuthorizedKeysCommand, as
 * the six REST scripts share it:
 *
 *   1. argparse runs the type functions on the arguments (user name, then
 *      user ID where the script takes one);
 *   2. a local file /etc/ssh/authorized_keys.d/<user name> short-circuits
 *      everything: it is printed and the script exits 0;
 *   3. the config file is read and its settings checked for emptiness;
 *   4. one request lists the keys by user ID, or a first request looks the
 *      user up by name (eppn) and a second lists the keys by the uidNumber
 *      it returns;
 *   5. on status 200 the loop prints the keys and the script exits 0.
 *
 * A script is a Preset: its name rule, config rule, request rules and key
 * source.  Run is the whole run as a function of the inputs; Execute runs
 * it stage by stage as the script does.
 */
module Pipeline {
  import opened Wrappers
  import opened Outcomes
  import opened Numbers
  import opened Validate
  import opened Config
  import opened Request
  import opened Listing
  import opened Keys
  import opened KeyLines
  import opened Files
  import opened Lines

  /** Where local users' keys live (authorized_keys_path). */
  const OverrideDir := "/etc/ssh/authorized_keys.d/"

  /** check_user_name with its length bound and exit code, or no check. */
  datatype NameRule = AnyName | WordName(max: nat, code: int)

  /** The two forms of check_user_id, with their exit codes. */
  datatype IdRule = SixDigits(code: int) | AtLeast(code: int)

  /** Where the keys come from.  AuthAll: the script takes a user ID and
      one request returns the keys one per line.  KeyList: the script takes
      only the user name, looks it up, and a second request returns a JSON
      list of key objects; listSuffix is what follows the uidNumber in its
      URL. */
  datatype Source =
    | AuthAll(id: IdRule, lines: LineRule)
    | KeyList(identity: CallRule, listSuffix: string, filter: KeyFilter)

  datatype Preset = Preset(name: NameRule, config: ConfigRule, keys: CallRule, source: Source)

  /** Everything a run depends on: the arguments, the file system, the
      config file, the replies of the service, what json.loads makes of the
      two bodies (None where it raises or the uidNumber is missing), the
      date parser and the clock. */
  datatype Input = Input(
    user: string,
    uid: string,
    files: FileSystem,
    config: ConfigSource,
    identityReply: Reply,
    keysReply: Reply,
    identityOf: string -> Option<string>,
    keysOf: string -> Option<seq<KeyObject>>,
    parseDate: string -> Option<int>,
    now: int)

  /** parse_args with the type functions, which run in argument order and
      exit themselves: the user ID as str() will put it into the request
      URL, or "" for a script that takes none. */
  function Arguments(p: Preset, user: string, uid: string): (r: Step<string>)
    ensures r.Stop? ==> r.status.Exit? && (r.status.reason == InvalidUserName || r.status.reason == InvalidUserId || r.status.reason == BadArgument)
    ensures p.name.WordName? ==> (r == Stop(Exit(p.name.code, InvalidUserName)) <==> !NameMatches(user, p.name.max))
    ensures r.Next? && p.source.KeyList? ==> r.value == ""
    ensures r.Next? && p.source.AuthAll? ==> PyInt(r.value).Some? && PyInt(r.value).value >= MinUserId
  {
    if p.name.WordName? && !NameMatches(user, p.name.max) then Stop(Exit(p.name.code, InvalidUserName))
    else
      match p.source
      case KeyList(_, _, _) => Next("")
      case AuthAll(SixDigits(code), _) =>
        (match SixDigitId(uid)
         case None => Stop(Exit(code, InvalidUserId))
         case Some(v) => SixDigitReadBack(v); Next(DecimalString(v)))
      case AuthAll(AtLeast(code), _) =>
        match AtLeastId(uid)
        case NotAnInt => Stop(Exit(2, BadArgument))
        case TooSmall => Stop(Exit(code, InvalidUserId))
        case Accepted(v) => AtLeastReadBack(uid); Next(DecimalString(v as nat))
  }

  /** str() of a six-digit ID reads back through int() as itself. */
  lemma SixDigitReadBack(v: nat)
    requires MinUserId < v <= 999999
    ensures PyInt(DecimalString(v)) == Some(v)
  {
    SixDigitLength(v);
    PyIntDecimalString(v);
  }

  /** str() of a value int() accepted reads back through int() as itself. */
  lemma AtLeastReadBack(uid: string)
    requires AtLeastId(uid).Accepted?
    ensures PyInt(DecimalString(AtLeastId(uid).value as nat)) == Some(AtLeastId(uid).value)
  {
    PyIntDecimalString(AtLeastId(uid).value as nat);
  }

  function OverridePath(user: string): string {
    OverrideDir + user
  }

  function AuthAllUrl(s: Settings, uid: string): string {
    "https://" + s.regHost + "/rest/ssh-key/auth/all/" + s.ssn + "/uidnumber/" + uid
  }

  function IdentityUrl(s: Settings, user: string): string {
    "https://" + s.regHost + "/rest/attrq/eppn/" + s.ssn + "/" + user + "@uni-freiburg.de"
  }

  function KeyListUrl(s: Settings, uidNumber: string, suffix: string): string {
    "https://" + s.regHost + "/rest/ssh-key/list/uidnumber/" + uidNumber + suffix
  }

  /** The end of a run that reached the loop: exit 0, or the exception that
      ended the loop, with what was printed until then. */
  function Finish(l: Listing, trace: seq<Effect>): Outcome {
    Outcome(l.lines, if l.error.Some? then Crash(l.error.value) else Exit(0, KeysServed), trace)
  }

  /** The requests and the loop, once the config has been accepted. */
  function Fetch(p: Preset, inp: Input, s: Settings, uid: string, trace: seq<Effect>): (r: Outcome)
    ensures |trace| < |r.effects| <= |trace| + 2 && r.effects[..|trace|] == trace
    ensures forall i :: |trace| <= i < |r.effects| ==> r.effects[i].HttpGet?
    ensures r.status.Exit? ==> r.status.reason != OverrideServed
    ensures r.stdout != [] ==> r.status.Crash? || r.status.code == 0
  {
    match p.source
    case AuthAll(_, rule) =>
      var t := trace + [HttpGet(AuthAllUrl(s, uid))];
      (match Call(p.keys, inp.keysReply)
       case Stop(st) => Outcome([], st, t)
       case Next(text) => Finish(Emitted(LineDecider(rule), SplitLines(text)), t))
    case KeyList(identity, suffix, filter) =>
      var t1 := trace + [HttpGet(IdentityUrl(s, inp.user))];
      match Call(identity, inp.identityReply)
      case Stop(st) => Outcome([], st, t1)
      case Next(body) =>
        match inp.identityOf(body)
        case None => Outcome([], Crash(JsonError), t1)
        case Some(uidNumber) =>
          var t2 := t1 + [HttpGet(KeyListUrl(s, uidNumber, suffix))];
          match Call(p.keys, inp.keysReply)
          case Stop(st) => Outcome([], st, t2)
          case Next(text) =>
            match inp.keysOf(text)
            case None => Outcome([], Crash(JsonError), t2)
            case Some(keys) => Finish(Emitted(KeyDecider(filter, inp.user, inp.parseDate, inp.now), keys), t2)
  }

  /** One run of a script. */
  function Run(p: Preset, inp: Input): (r: Outcome)
    requires WellFormed(p.config)
    ensures r.effects == [] <==> Arguments(p, inp.user, inp.uid).Stop?
    ensures r.effects != [] ==> r.effects[0] == ProbeFile(OverridePath(inp.user))
    ensures r.stdout != [] ==> r.status.Crash? || r.status.code == 0
    ensures r.status == Exit(0, OverrideServed) <==> |r.effects| == 1 && r.status.Exit?
  {
    match Arguments(p, inp.user, inp.uid)
    case Stop(st) => Outcome([], st, [])
    case Next(uid) =>
      var path := OverridePath(inp.user);
      if path in inp.files then
        match ReadText(inp.files[path])
        case Stop(st) => Outcome([], st, [ProbeFile(path)])
        case Next(text) => Outcome([text], Exit(0, OverrideServed), [ProbeFile(path)])
      else
        match LoadConfig(p.config, inp.config)
        case Stop(st) => Outcome([], st, [ProbeFile(path), ReadConfig])
        case Next(s) => Fetch(p, inp, s, uid, [ProbeFile(path), ReadConfig])
  }

  /** The script's top level: sequential stages with early exits, and the
      printing loop. */
  method Execute(p: Preset, inp: Input) returns (o: Outcome)
    requires WellFormed(p.config)
    ensures o == Run(p, inp)
  {
    var args := Arguments(p, inp.user, inp.uid);
    if args.Stop? {
      return Outcome([], args.status, []);
    }
    var path := OverridePath(inp.user);
    var effects := [ProbeFile(path)];
    if path in inp.files {
      var read := ReadText(inp.files[path]);
      if read.Stop? {
        return Outcome([], read.status, effects);
      }
      return Outcome([read.value], Exit(0, OverrideServed), effects);
    }
    effects := effects + [ReadConfig];
    var cfg := LoadConfig(p.config, inp.config);
    if cfg.Stop? {
      return Outcome([], cfg.status, effects);
    }
    var s := cfg.value;
    var listing: Listing;
    match p.source {
      case AuthAll(_, rule) =>
        effects := effects + [HttpGet(AuthAllUrl(s, args.value))];
        var reply := Call(p.keys, inp.keysReply);
        if reply.Stop? {
          return Outcome([], reply.status, effects);
        }
        listing := EmitAll(LineDecider(rule), SplitLines(reply.value));
      case KeyList(identity, suffix, filter) =>
        effects := effects + [HttpGet(IdentityUrl(s, inp.user))];
        var found := Call(identity, inp.identityReply);
        if found.Stop? {
          return Outcome([], found.status, effects);
        }
        var uidNumber := inp.identityOf(found.value);
        if uidNumber.None? {
          return Outcome([], Crash(JsonError), effects);
        }
        effects := effects + [HttpGet(KeyListUrl(s, uidNumber.value, suffix))];
        var reply := Call(p.keys, inp.keysReply);
        if reply.Stop? {
          return Outcome([], reply.status, effects);
        }
        var keys := inp.keysOf(reply.value);
        if keys.None? {
          return Outcome([], Crash(JsonError), effects);
        }
        listing := EmitAll(KeyDecider(filter, inp.user, inp.parseDate, inp.now), keys.value);
    }
    o := Finish(listing, effects);
  }

  // ------------------------------------------------------------ laws

  /** The exits of the status chain, which raise_for_status pre-empts. */
  predicate ChainReason(r: Reason) {
    r == LoginFailed || r == ServiceIdInvalid || r == NoAssertion || r == NotRegistered || r == Misconfigured
  }

  /** The reasons a run can end with once the arguments are accepted. */
  predicate LaterReason(r: Reason) {
    !(r == InvalidUserName || r == InvalidUserId || r == BadArgument) && !ChainReason(r)
  }

  /** Past the arguments, no stage ends the run with an argument exit or
      with an exit of the status chain. */
  lemma LaterReasons(p: Preset, inp: Input)
    requires WellFormed(p.config) && Arguments(p, inp.user, inp.uid).Next?
    ensures Run(p, inp).status.Exit? ==> LaterReason(Run(p, inp).status.reason)
  {
    if Reached(p, inp).Some? {
      FetchReasons(p, inp, Reached(p, inp).value, Arguments(p, inp.user, inp.uid).value,
        [ProbeFile(OverridePath(inp.user)), ReadConfig]);
    }
  }

  /** The requests and the loop end the run with a call's exit, exit 0 or
      an exception. */
  lemma FetchReasons(p: Preset, inp: Input, s: Settings, uid: string, trace: seq<Effect>)
    ensures var st := Fetch(p, inp, s, uid, trace).status;
      st.Exit? ==> CallReason(st.reason) || st.reason == KeysServed
  {
    ChainUnreachable(p.keys, inp.keysReply);
    if p.source.KeyList? {
      ChainUnreachable(p.source.identity, inp.identityReply);
    }
  }

  /** The name rule: the run exits with the name code and the name message
      exactly when check_user_name rejects the name, and then it has
      printed nothing and touched nothing. */
  lemma NameGate(p: Preset, inp: Input)
    requires WellFormed(p.config) && p.name.WordName?
    ensures Run(p, inp).status == Exit(p.name.code, InvalidUserName) <==> !NameMatches(inp.user, p.name.max)
    ensures !NameMatches(inp.user, p.name.max) ==> Run(p, inp) == Outcome([], Exit(p.name.code, InvalidUserName), [])
  {
    if NameMatches(inp.user, p.name.max) && Arguments(p, inp.user, inp.uid).Next? {
      LaterReasons(p, inp);
    }
  }

  /** The six-digit ID rule, for a name that passes: the run exits with the
      ID code exactly when the ID is not six digits above 900000. */
  lemma SixDigitGate(p: Preset, inp: Input)
    requires WellFormed(p.config) && p.source.AuthAll? && p.source.id.SixDigits?
    requires p.name.WordName? ==> NameMatches(inp.user, p.name.max)
    ensures Run(p, inp).status == Exit(p.source.id.code, InvalidUserId) <==> SixDigitId(inp.uid).None?
    ensures SixDigitId(inp.uid).None? ==> Run(p, inp) == Outcome([], Exit(p.source.id.code, InvalidUserId), [])
  {
    if SixDigitId(inp.uid).Some? {
      LaterReasons(p, inp);
    }
  }

  /** The int() ID rule: an argument int() rejects is an argparse error
      (exit 2), a value below 900000 exits with the ID code, and every
      other value passes. */
  lemma AtLeastGate(p: Preset, inp: Input)
    requires WellFormed(p.config) && p.source.AuthAll? && p.source.id.AtLeast? && p.name.AnyName?
    ensures Run(p, inp).status == Exit(2, BadArgument) <==> PyInt(inp.uid).None?
    ensures Run(p, inp).status == Exit(p.source.id.code, InvalidUserId) <==> PyInt(inp.uid).Some? && PyInt(inp.uid).value < MinUserId
    ensures Run(p, inp).effects == [] <==> PyInt(inp.uid).None? || PyInt(inp.uid).value < MinUserId
  {
    if AtLeastId(inp.uid).Accepted? {
      LaterReasons(p, inp);
    }
  }

  /** The value of an accepted ID goes into the URL as str() writes it:
      under the six-digit rule that is the argument itself. */
  lemma UrlUserId(p: Preset, inp: Input)
    requires p.source.AuthAll? && Arguments(p, inp.user, inp.uid).Next?
    ensures p.source.id.SixDigits? ==> Arguments(p, inp.user, inp.uid).value == inp.uid
    ensures p.source.id.AtLeast? ==> Arguments(p, inp.user, inp.uid).value == DecimalString(PyInt(inp.uid).value as nat)
  {
  }

  /** The override file short-circuits the run: once the arguments pass
      and the path exists, the only effect is probing it, so neither the
      config file nor the network is touched, and the run either prints the
      file or fails to read it. */
  lemma OverrideShortCircuit(p: Preset, inp: Input)
    requires WellFormed(p.config) && Arguments(p, inp.user, inp.uid).Next?
    requires OverridePath(inp.user) in inp.files
    ensures Run(p, inp).effects == [ProbeFile(OverridePath(inp.user))]
    ensures ReadText(inp.files[OverridePath(inp.user)]).Next? ==>
      Run(p, inp).stdout == [ReadText(inp.files[OverridePath(inp.user)]).value] && Run(p, inp).status == Exit(0, OverrideServed)
    ensures ReadText(inp.files[OverridePath(inp.user)]).Stop? ==> Run(p, inp).stdout == [] && Run(p, inp).status.Crash?
  {
    ReadFailures(inp.files[OverridePath(inp.user)]);
  }

  /** A readable override file holding a text without carriage returns is
      printed as it is (print adds the one newline), with exit 0. */
  lemma OverridePrinted(p: Preset, inp: Input, content: string)
    requires WellFormed(p.config) && Arguments(p, inp.user, inp.uid).Next?
    requires OverridePath(inp.user) in inp.files
    requires inp.files[OverridePath(inp.user)] == Regular(Utf8.Encode(content), true) && NoCarriageReturn(content)
    ensures Run(p, inp) == Outcome([content], Exit(0, OverrideServed), [ProbeFile(OverridePath(inp.user))])
  {
    ReadWritten(content);
  }

  /** Without an override file the config decides next: a config failure
      ends the run after reading it, before any request, with the script's
      unreadable code (or an uncaught exception) or the code of the first
      empty setting. */
  lemma ConfigExits(p: Preset, inp: Input, i: nat)
    requires WellFormed(p.config) && Arguments(p, inp.user, inp.uid).Next?
    requires OverridePath(inp.user) !in inp.files
    ensures var trace := [ProbeFile(OverridePath(inp.user)), ReadConfig];
      && (inp.config.OsError? ==> Run(p, inp) == Outcome([], Exit(p.config.unreadable, ConfigUnreadable), trace))
      && (inp.config.OtherError? ==>
            Run(p, inp) == Outcome([], if p.config.catchAll then Exit(p.config.unreadable, ConfigUnreadable) else Crash(ConfigError), trace))
      && (FirstEmpty(inp.config, i) ==> Run(p, inp) == Outcome([], Exit(p.config.emptyCodes[i], EmptyReasons[i]), trace))
  {
    FailureCodes(p.config);
    if FirstEmpty(inp.config, i) {
      FirstEmptyDecides(p.config, inp.config.settings, i);
    }
  }

  /** The order of effects: the override path is probed first, the config
      file read second, and requests come only after both. */
  lemma EffectOrder(p: Preset, inp: Input)
    requires WellFormed(p.config)
    ensures var e := Run(p, inp).effects;
      && |e| <= 4
      && (|e| > 0 ==> e[0] == ProbeFile(OverridePath(inp.user)))
      && (forall i :: 0 <= i < |e| ==> (e[i].ReadConfig? <==> i == 1))
      && (forall i :: 0 <= i < |e| ==> (e[i].HttpGet? <==> i >= 2))
  {
  }

  /** A request is sent only when the arguments passed, there is no
      override file, and the config was read with every setting non-empty. */
  lemma RequestsNeedConfig(p: Preset, inp: Input)
    requires WellFormed(p.config) && |Run(p, inp).effects| > 2
    ensures Arguments(p, inp.user, inp.uid).Next?
    ensures OverridePath(inp.user) !in inp.files
    ensures inp.config.Loaded? && forall i :: 0 <= i < 4 ==> Fields(inp.config.settings)[i] != ""
  {
  }

  /** No run ever ends with an exit of the status chain (41, 42, 43, 44 or
      50 with their messages): every status the chain names is diverted to
      the request failure code first. */
  lemma ChainNeverExits(p: Preset, inp: Input)
    requires WellFormed(p.config)
    ensures Run(p, inp).status.Exit? ==> !ChainReason(Run(p, inp).status.reason)
  {
    if Arguments(p, inp.user, inp.uid).Next? {
      LaterReasons(p, inp);
    }
  }

  /** The state a run reaches when it gets to its requests. */
  function Reached(p: Preset, inp: Input): (r: Option<Settings>)
    ensures r.Some? <==> (WellFormed(p.config) && Arguments(p, inp.user, inp.uid).Next?
                          && OverridePath(inp.user) !in inp.files && LoadConfig(p.config, inp.config).Next?)
    ensures r.Some? ==> LoadConfig(p.config, inp.config) == Next(r.value)
  {
    if !WellFormed(p.config) || Arguments(p, inp.user, inp.uid).Stop? || OverridePath(inp.user) in inp.files then None
    else
      match LoadConfig(p.config, inp.config)
      case Next(s) => Some(s)
      case Stop(_) => None
  }

  predicate Configured(p: Preset, inp: Input, s: Settings) {
    Reached(p, inp) == Some(s)
  }

  /** A listing by user ID: one request, and on status 200 the loop over
      the lines of the response. */
  lemma AuthAllRun(p: Preset, inp: Input, s: Settings)
    requires p.source.AuthAll? && Configured(p, inp, s)
    ensures var uid := Arguments(p, inp.user, inp.uid).value;
      var trace := [ProbeFile(OverridePath(inp.user)), ReadConfig, HttpGet(AuthAllUrl(s, uid))];
      && (Call(p.keys, inp.keysReply).Stop? ==> Run(p, inp) == Outcome([], Call(p.keys, inp.keysReply).status, trace))
      && (Call(p.keys, inp.keysReply).Next? ==>
            Run(p, inp) == Finish(Emitted(LineDecider(p.source.lines), SplitLines(inp.keysReply.text)), trace))
  {
  }

  /** A run that reaches its listing request and gets the text back. */
  predicate Listed(p: Preset, inp: Input, s: Settings, text: string) {
    Configured(p, inp, s) && inp.keysReply == Response(200, text)
  }

  /** A listing by user ID that prints every line it decides on and ends
      normally. */
  lemma AuthAllServed(p: Preset, inp: Input, s: Settings, text: string, lines: seq<string>)
    requires p.source.AuthAll? && Configured(p, inp, s) && inp.keysReply == Response(200, text)
    requires Emitted(LineDecider(p.source.lines), SplitLines(text)) == Listing(lines, None)
    ensures Run(p, inp) == Outcome(lines, Exit(0, KeysServed),
      [ProbeFile(OverridePath(inp.user)), ReadConfig, HttpGet(AuthAllUrl(s, Arguments(p, inp.user, inp.uid).value))])
  {
    AuthAllRun(p, inp, s);
  }

  /** A six-digit listing with FIDO2 unwrapping in which no line raises:
      one printed line per listed line, and exit 0. */
  lemma UnwrapServed(p: Preset, inp: Input, s: Settings, lines: seq<string>)
    requires p.source.AuthAll? && p.source.id.SixDigits? && p.source.lines.Fido2Unwrap?
    requires Configured(p, inp, s) && inp.keysReply == Response(200, Terminated(lines))
    requires Printable(p.source.lines.prefix, lines)
    ensures Run(p, inp) == Outcome(ShownAll(p.source.lines.prefix, lines), Exit(0, KeysServed),
      [ProbeFile(OverridePath(inp.user)), ReadConfig, HttpGet(AuthAllUrl(s, inp.uid))])
  {
    UnwrapText(p.source.lines.prefix, lines);
    AuthAllServed(p, inp, s, Terminated(lines), ShownAll(p.source.lines.prefix, lines));
    UrlUserId(p, inp);
  }

  /** A six-digit listing whose unwrapping prefix holds a '{': lines
      without one are printed unchanged, one per print, and exit 0. */
  lemma PlaceholderServed(p: Preset, inp: Input, s: Settings, lines: seq<string>, code: int, prefix: string, j: nat)
    requires p.source == AuthAll(SixDigits(code), Fido2Unwrap(prefix)) && j < |prefix| && prefix[j] == '{'
    requires Listed(p, inp, s, Terminated(lines)) && Braceless(lines)
    ensures Run(p, inp) == Outcome(lines, Exit(0, KeysServed),
      [ProbeFile(OverridePath(inp.user)), ReadConfig, HttpGet(AuthAllUrl(s, inp.uid))])
  {
    PlaceholderLines(prefix, lines, j);
    AuthAllServed(p, inp, s, Terminated(lines), lines);
    UrlUserId(p, inp);
  }

  /** A listing printed as it is: every line, in order, and exit 0. */
  lemma VerbatimServed(p: Preset, inp: Input, s: Settings, lines: seq<string>)
    requires p.source.AuthAll? && p.source.lines == Verbatim
    requires Listed(p, inp, s, Terminated(lines)) && Unbroken(lines)
    ensures Run(p, inp) == Outcome(lines, Exit(0, KeysServed),
      [ProbeFile(OverridePath(inp.user)), ReadConfig, HttpGet(AuthAllUrl(s, Arguments(p, inp.user, inp.uid).value))])
  {
    VerbatimText(lines);
    AuthAllServed(p, inp, s, Terminated(lines), lines);
  }

  /** A listing by user name: the identity lookup, then the key list by the
      uidNumber it returned, then the loop over the key objects. */
  lemma KeyListRun(p: Preset, inp: Input, s: Settings, body: string, uidNumber: string, text: string, keys: seq<KeyObject>)
    requires p.source.KeyList? && Configured(p, inp, s)
    requires inp.identityReply == Response(200, body) && inp.identityOf(body) == Some(uidNumber)
    requires inp.keysReply == Response(200, text) && inp.keysOf(text) == Some(keys)
    ensures Run(p, inp) == Finish(
      Emitted(KeyDecider(p.source.filter, inp.user, inp.parseDate, inp.now), keys),
      [ProbeFile(OverridePath(inp.user)), ReadConfig, HttpGet(IdentityUrl(s, inp.user)),
       HttpGet(KeyListUrl(s, uidNumber, p.source.listSuffix))])
  {
  }

  /** A listing by user name in which every key object has the fields the
      filter reads and no expiry overflows: the lines of the kept keys, in
      list order, and exit 0. */
  lemma KeyListServed(p: Preset, inp: Input, s: Settings, body: string, uidNumber: string, text: string, keys: seq<KeyObject>)
    requires p.source.KeyList? && Configured(p, inp, s)
    requires inp.identityReply == Response(200, body) && inp.identityOf(body) == Some(uidNumber)
    requires inp.keysReply == Response(200, text) && inp.keysOf(text) == Some(keys)
    requires forall i :: 0 <= i < |keys| ==> Complete(keys[i])
    requires NoOverflow(p.source.filter, inp.parseDate, inp.now, keys)
    ensures Run(p, inp) == Outcome(Selected(p.source.filter, inp.user, inp.parseDate, inp.now, keys), Exit(0, KeysServed),
      [ProbeFile(OverridePath(inp.user)), ReadConfig, HttpGet(IdentityUrl(s, inp.user)),
       HttpGet(KeyListUrl(s, uidNumber, p.source.listSuffix))])
  {
    KeyListRun(p, inp, s, body, uidNumber, text, keys);
    FilterListing(p.source.filter, inp.user, inp.parseDate, inp.now, keys);
  }

  /** The identity lookup decides first: a failed lookup ends the run after
      one request, and a body without a uidNumber crashes in json.loads or
      at the field access. */
  lemma IdentityStage(p: Preset, inp: Input, s: Settings)
    requires p.source.KeyList? && Configured(p, inp, s)
    ensures var trace := [ProbeFile(OverridePath(inp.user)), ReadConfig, HttpGet(IdentityUrl(s, inp.user))];
      var id := Call(p.source.identity, inp.identityReply);
      && (id.Stop? ==> Run(p, inp) == Outcome([], id.status, trace))
      && (id.Next? && inp.identityOf(id.value).None? ==> Run(p, inp) == Outcome([], Crash(JsonError), trace))
  {
  }

  /** Once the lookup has given a uidNumber, the key list request decides:
      a failed call ends the run after both requests, and a body keysOf
      rejects crashes. */
  lemma KeysStage(p: Preset, inp: Input, s: Settings, body: string, uidNumber: string)
    requires p.source.KeyList? && Configured(p, inp, s)
    requires inp.identityReply == Response(200, body) && inp.identityOf(body) == Some(uidNumber)
    ensures var trace := [ProbeFile(OverridePath(inp.user)), ReadConfig, HttpGet(IdentityUrl(s, inp.user)),
                          HttpGet(KeyListUrl(s, uidNumber, p.source.listSuffix))];
      var keys := Call(p.keys, inp.keysReply);
      && (keys.Stop? ==> Run(p, inp) == Outcome([], keys.status, trace))
      && (keys.Next? && inp.keysOf(keys.value).None? ==> Run(p, inp) == Outcome([], Crash(JsonError), trace))
  {
  }

  /** What the user name contributes to the identity lookup: the eppn is
      the name followed by "@uni-freiburg.de", as the last path segment. */
  lemma IdentityEppn(s: Settings, user: string)
    ensures var url := IdentityUrl(s, user);
      var eppn := user + "@uni-freiburg.de";
      |url| >= |eppn| && url[|url| - |eppn|..] == eppn
  {
    var url := IdentityUrl(s, user);
    assert url == ("https://" + s.regHost + "/rest/attrq/eppn/" + s.ssn + "/") + (user + "@uni-freiburg.de");
  }
}
