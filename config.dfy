/**
 * Reading the REST settings: the config file either yields the four
 * settings or fails, and the settings are then checked for emptiness in a
 * fixed order.  Which failures a script catches, and the exit codes it
 * uses, differ between the scripts and form a ConfigRule.
 */
module Config {
  import opened Outcomes

  /** reg_host, rest_user and rest_pw from [REST], ssn from [SSN]. */
  datatype Settings = Settings(regHost: string, restUser: string, restPw: string, ssn: string)

  /** What opening and parsing the config file gives: the settings, an
      OSError (the file cannot be opened or read), or any other exception
      (a parse error, a missing section or option, a max_time that is not an
      integer, undecodable text). */
  datatype ConfigSource = Loaded(settings: Settings) | OsError | OtherError

  /** catchAll: the script wraps the read in a bare `except:`; otherwise
      it catches OSError only.  Then the exit code for an unreadable file
      and the codes for an empty reg_host, rest_user, rest_pw and ssn. */
  datatype ConfigRule = ConfigRule(catchAll: bool, unreadable: int, emptyCodes: seq<int>)

  predicate WellFormed(rule: ConfigRule) {
    |rule.emptyCodes| == 4
  }

  /** The settings in the order the script checks them. */
  function Fields(s: Settings): (f: seq<string>)
    ensures |f| == 4
  {
    [s.regHost, s.restUser, s.restPw, s.ssn]
  }

  const EmptyReasons: seq<Reason> := [EmptyRegHost, EmptyRestUser, EmptyRestPw, EmptySsn]

  /** The config stage: on success the settings are handed on. */
  function LoadConfig(rule: ConfigRule, src: ConfigSource): (r: Step<Settings>)
    requires WellFormed(rule)
    ensures r.Next? <==> src.Loaded? && forall i :: 0 <= i < 4 ==> Fields(src.settings)[i] != ""
    ensures r.Next? ==> r.value == src.settings
  {
    match src
    case OsError => Stop(Exit(rule.unreadable, ConfigUnreadable))
    case OtherError => if rule.catchAll then Stop(Exit(rule.unreadable, ConfigUnreadable)) else Stop(Crash(ConfigError))
    case Loaded(s) =>
      assert Fields(s)[0] == s.regHost && Fields(s)[1] == s.restUser;
      assert Fields(s)[2] == s.restPw && Fields(s)[3] == s.ssn;
      if s.regHost == "" then Stop(Exit(rule.emptyCodes[0], EmptyRegHost))
      else if s.restUser == "" then Stop(Exit(rule.emptyCodes[1], EmptyRestUser))
      else if s.restPw == "" then Stop(Exit(rule.emptyCodes[2], EmptyRestPw))
      else if s.ssn == "" then Stop(Exit(rule.emptyCodes[3], EmptySsn))
      else Next(s)
  }

  /** The first empty setting decides: whatever the later ones hold, the
      exit code is the one of the first empty field in the order reg_host,
      rest_user, rest_pw, ssn. */
  lemma FirstEmptyDecides(rule: ConfigRule, s: Settings, i: nat)
    requires WellFormed(rule) && i < 4
    requires Fields(s)[i] == "" && forall j :: 0 <= j < i ==> Fields(s)[j] != ""
    ensures LoadConfig(rule, Loaded(s)) == Stop(Exit(rule.emptyCodes[i], EmptyReasons[i]))
  {
    assert Fields(s)[0] == s.regHost && Fields(s)[1] == s.restUser && Fields(s)[2] == s.restPw;
  }

  /** The settings were read and field i is the first empty one. */
  predicate FirstEmpty(src: ConfigSource, i: nat) {
    src.Loaded? && i < 4 && Fields(src.settings)[i] == "" && forall j :: 0 <= j < i ==> Fields(src.settings)[j] != ""
  }

  /** An OSError always ends the run with the unreadable code; any other
      failure does so only under a bare except, and crashes otherwise. */
  lemma FailureCodes(rule: ConfigRule)
    requires WellFormed(rule)
    ensures LoadConfig(rule, OsError) == Stop(Exit(rule.unreadable, ConfigUnreadable))
    ensures rule.catchAll <==> LoadConfig(rule, OtherError) == Stop(Exit(rule.unreadable, ConfigUnreadable))
    ensures !rule.catchAll <==> LoadConfig(rule, OtherError) == Stop(Crash(ConfigError))
  {
  }
}
