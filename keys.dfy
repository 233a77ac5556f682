/**
 * The key filter of the jumphost scripts.  The service answers with a JSON
 * array of key objects; a key is printed as `keyType encodedKey <login
 * name>` when its name contains the key name and, in
 * bwidm-rest-ssh-jumphost2.py, when its status starts with ACTIVE or
 * EXPIRED and it was created less than a year ago (ssh_key_valid).
 *
 * Times are microseconds since datetime.min (0001-01-01 00:00:00); the
 * parse of createdAt is an input of the model, and so is the clock.
 */
module Keys {
  import opened Wrappers
  import opened Search
  import opened Outcomes
  import opened Listing

  /** The name every jumphost key carries (ssh_key_name / SSH_KEY_NAME). */
  const KeyName := "UNIFR-JUMPHOST"

  /** ssh_valid_days of bwidm-rest-ssh-jumphost2.py. */
  const ValidDays := 365

  const MicrosPerDay := 86_400_000_000

  /** datetime.max, 9999-12-31 23:59:59.999999, in microseconds since
      datetime.min. */
  const MaxMoment := 3_652_058 * MicrosPerDay + MicrosPerDay - 1

  /** A key object: the string fields of one JSON object of the list. */
  type KeyObject = map<string, string>

  datatype Validity = Valid | Invalid | Overflow

  /** ssh_key_valid: created is the parsed createdAt (None where strptime
      raises ValueError); the key is valid while created plus the validity
      period lies strictly after now.  An expiry outside the datetime range
      raises OverflowError, which the function does not catch. */
  function SshKeyValid(created: Option<int>, days: int, now: int): (r: Validity)
    ensures r == Valid ==> created.Some? && now < created.value + days * MicrosPerDay <= MaxMoment
    ensures r == Overflow ==> created.Some?
  {
    match created
    case None => Invalid
    case Some(d) =>
      var expiry := d + days * MicrosPerDay;
      if expiry < 0 || expiry > MaxMoment then Overflow
      else if expiry > now then Valid
      else Invalid
  }

  /** An expiry in range: the key is valid exactly while now is before it,
      and expired from the very moment it is reached. */
  lemma ValidUntilExpiry(d: int, days: int, now: int)
    requires 0 <= d + days * MicrosPerDay <= MaxMoment
    ensures SshKeyValid(Some(d), days, now) == Valid <==> d + days * MicrosPerDay > now
    ensures SshKeyValid(Some(d), days, now) != Overflow
    ensures SshKeyValid(Some(d), days, d + days * MicrosPerDay) == Invalid
  {
  }

  /** An unparsable date makes the key invalid, whatever the clock says. */
  lemma UnparsableIsInvalid(days: int, now: int)
    ensures SshKeyValid(None, days, now) == Invalid
  {
  }

  /** A key valid at some moment was valid at every earlier moment. */
  lemma ValidEarlier(created: Option<int>, days: int, now: int, earlier: int)
    requires earlier <= now && SshKeyValid(created, days, now) == Valid
    ensures SshKeyValid(created, days, earlier) == Valid
  {
  }

  /** With a one-year period, a date parsed in range never overflows unless
      it lies in the last year of the datetime range. */
  lemma OneYearOverflow(d: int, now: int)
    requires 0 <= d
    ensures SshKeyValid(Some(d), ValidDays, now) == Overflow <==> d > MaxMoment - ValidDays * MicrosPerDay
  {
  }

  /** re.match(r"ACTIVE|EXPIRED", status): a prefix test. */
  predicate StatusAdmitted(status: string) {
    StartsWith(status, "ACTIVE") || StartsWith(status, "EXPIRED")
  }

  /** re.match anchors only at the start: anything may follow. */
  lemma StatusPrefixOnly(t: string)
    ensures StatusAdmitted("ACTIVE" + t) && StatusAdmitted("EXPIRED" + t)
  {
    assert ("ACTIVE" + t)[..6] == "ACTIVE";
    assert ("EXPIRED" + t)[..7] == "EXPIRED";
  }

  /** What the filter looks at. */
  datatype KeyFilter = NameOnly | NameStatusAge(days: int)

  /** print(key["keyType"], key["encodedKey"], ssh_user). */
  function KeyLine(key: KeyObject, user: string): Decision {
    if "keyType" !in key || "encodedKey" !in key then Fail(KeyError)
    else Emit(key["keyType"] + " " + key["encodedKey"] + " " + user)
  }

  /** The loop body over one key object.  Fields are read in the order of
      the condition, and `and` stops at the first false operand, so a field
      is only missed (KeyError) when it is reached. */
  function DecideKey(filter: KeyFilter, user: string, parseDate: string -> Option<int>, now: int, key: KeyObject): (r: Decision)
    ensures r.Emit? ==> "name" in key && Contains(key["name"], KeyName)
    ensures r.Emit? ==> "keyType" in key && "encodedKey" in key && r.line == key["keyType"] + " " + key["encodedKey"] + " " + user
    ensures r.Emit? && filter.NameStatusAge? ==> && "keyStatus" in key && StatusAdmitted(key["keyStatus"]) && "createdAt" in key
                                                 && SshKeyValid(parseDate(key["createdAt"]), filter.days, now) == Valid
    ensures r.Fail? ==> r.error == KeyError || (r.error == OverflowError && filter.NameStatusAge?)
  {
    if "name" !in key then Fail(KeyError)
    else if !Contains(key["name"], KeyName) then Skip
    else
      match filter
      case NameOnly => KeyLine(key, user)
      case NameStatusAge(days) =>
        if "keyStatus" !in key then Fail(KeyError)
        else if !StatusAdmitted(key["keyStatus"]) then Skip
        else if "createdAt" !in key then Fail(KeyError)
        else
          match SshKeyValid(parseDate(key["createdAt"]), days, now)
          case Overflow => Fail(OverflowError)
          case Invalid => Skip
          case Valid => KeyLine(key, user)
  }

  /** The loop body as a value that the loop can be run with. */
  function KeyDecider(filter: KeyFilter, user: string, parseDate: string -> Option<int>, now: int): KeyObject -> Decision {
    key => DecideKey(filter, user, parseDate, now, key)
  }

  /** A key object with all the fields the scripts read. */
  predicate Complete(key: KeyObject) {
    "name" in key && "keyStatus" in key && "createdAt" in key && "keyType" in key && "encodedKey" in key
  }

  /** The line printed for a key: its type, its encoded key and the login
      name (not the key's own name). */
  function Printout(key: KeyObject, user: string): string
    requires Complete(key)
  {
    key["keyType"] + " " + key["encodedKey"] + " " + user
  }

  /** The jumphost2 filter: a complete key is printed iff its name contains
      the key name, its status starts with ACTIVE or EXPIRED and it is
      still valid; otherwise it is skipped, unless its expiry overflows. */
  lemma StatusAgeSelection(user: string, parseDate: string -> Option<int>, now: int, days: int, key: KeyObject)
    requires Complete(key)
    ensures var d := DecideKey(NameStatusAge(days), user, parseDate, now, key);
      var selected := Contains(key["name"], KeyName) && StatusAdmitted(key["keyStatus"]);
      var v := SshKeyValid(parseDate(key["createdAt"]), days, now);
      && (d.Emit? <==> selected && v == Valid)
      && (d.Fail? <==> selected && v == Overflow)
      && (d.Emit? ==> d.line == Printout(key, user))
      && (d.Fail? ==> d.error == OverflowError)
  {
  }

  /** The name-only filter: a complete key is printed iff its name contains
      the key name; its status and its age play no part. */
  lemma NameOnlySelection(user: string, parseDate: string -> Option<int>, now: int, key: KeyObject, other: KeyObject)
    requires Complete(key) && Complete(other)
    requires other["name"] == key["name"] && other["keyType"] == key["keyType"] && other["encodedKey"] == key["encodedKey"]
    ensures var d := DecideKey(NameOnly, user, parseDate, now, key);
      && (d.Emit? <==> Contains(key["name"], KeyName))
      && !d.Fail?
      && (d.Emit? ==> d.line == Printout(key, user))
      && DecideKey(NameOnly, user, parseDate, now, other) == d
  {
  }

  /** Whether the filter keeps a complete key, stated as one condition
      rather than in the order the script reads the fields. */
  predicate Kept(filter: KeyFilter, parseDate: string -> Option<int>, now: int, key: KeyObject)
    requires Complete(key)
  {
    && Contains(key["name"], KeyName)
    && match filter
       case NameOnly => true
       case NameStatusAge(days) =>
         StatusAdmitted(key["keyStatus"]) && SshKeyValid(parseDate(key["createdAt"]), days, now) == Valid
  }

  /** No key's expiry leaves the datetime range (always so for NameOnly). */
  predicate NoOverflow(filter: KeyFilter, parseDate: string -> Option<int>, now: int, keys: seq<KeyObject>) {
    filter.NameStatusAge? ==>
      forall i :: 0 <= i < |keys| && "createdAt" in keys[i] ==> SshKeyValid(parseDate(keys[i]["createdAt"]), filter.days, now) != Overflow
  }

  /** The lines of the kept keys, in list order. */
  function Selected(filter: KeyFilter, user: string, parseDate: string -> Option<int>, now: int, keys: seq<KeyObject>): seq<string>
    requires forall i :: 0 <= i < |keys| ==> Complete(keys[i])
    decreases |keys|
  {
    if keys == [] then []
    else
      var k := keys[|keys| - 1];
      assert Complete(keys[|keys| - 1]);
      Selected(filter, user, parseDate, now, keys[..|keys| - 1])
        + if Kept(filter, parseDate, now, k) then [Printout(k, user)] else []
  }

  /** The loop over complete keys prints exactly the lines of the kept keys,
      in list order, and ends normally. */
  lemma {:induction false} FilterListing(filter: KeyFilter, user: string, parseDate: string -> Option<int>, now: int, keys: seq<KeyObject>)
    requires forall i :: 0 <= i < |keys| ==> Complete(keys[i])
    requires NoOverflow(filter, parseDate, now, keys)
    ensures Emitted(KeyDecider(filter, user, parseDate, now), keys) == Listing(Selected(filter, user, parseDate, now, keys), None)
    decreases |keys|
  {
    if keys != [] {
      var init := keys[..|keys| - 1];
      assert forall i :: 0 <= i < |init| ==> init[i] == keys[i];
      FilterListing(filter, user, parseDate, now, init);
      var k := keys[|keys| - 1];
      assert Complete(k);
      assert KeyDecider(filter, user, parseDate, now)(k) == DecideKey(filter, user, parseDate, now, k);
      if filter.NameStatusAge? {
        StatusAgeSelection(user, parseDate, now, filter.days, k);
      } else {
        NameOnlySelection(user, parseDate, now, k, k);
      }
    }
  }

  /** Nothing is printed iff no key is kept. */
  lemma {:induction false} SelectedEmpty(filter: KeyFilter, user: string, parseDate: string -> Option<int>, now: int, keys: seq<KeyObject>)
    requires forall i :: 0 <= i < |keys| ==> Complete(keys[i])
    ensures Selected(filter, user, parseDate, now, keys) == [] <==> forall i :: 0 <= i < |keys| ==> !Kept(filter, parseDate, now, keys[i])
    decreases |keys|
  {
    if keys != [] {
      var init := keys[..|keys| - 1];
      assert forall i :: 0 <= i < |init| ==> init[i] == keys[i];
      SelectedEmpty(filter, user, parseDate, now, init);
    }
  }
}
