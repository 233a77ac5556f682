# bwIDM REST SSH key scripts — a Dafny model

The repository ships small Python programs under `usr/local/bin/`. sshd runs
six of them as `AuthorizedKeysCommand`. Each one looks up the SSH keys of a
bwIDM user in the registration service's REST interface and prints them one
per line. The seventh, `ssh-checkpublickey.py`, checks a single FIDO2 public
key file by hand.

The six key scripts share one pipeline, modelled once in `Pipeline`:

1. argparse runs the argument checks: check_user_name (`\w{1,12}` or
   `\w{1,20}`, or no check at all), then check_user_id where the script
   takes a user ID (six digits above 900000, or `int()` of at least 900000).
2. A local file `/etc/ssh/authorized_keys.d/<user>` short-circuits
   everything: it is printed and the script exits 0.
3. The config file is read. Its four settings are checked for emptiness in
   a fixed order: reg_host, rest_user, rest_pw, ssn.
4. Then the requests. Either one request lists every key of the user ID
   (`/rest/ssh-key/auth/all/...`), or a lookup by eppn
   (`<user>@uni-freiburg.de`) returns a uidNumber and a second request lists
   that uidNumber's keys as JSON.
5. On status 200 a loop prints the keys. In the line-listing scripts a
   FIDO2 "command key" may first be unwrapped:
   `command="FIDO2",from="…" sk-ssh-ed25519@openssh.com <blob> <comment>`
   becomes `sk-ssh-ed25519@openssh.com <blob> <comment>`. In the jumphost
   scripts the loop filters the key objects by name (`UNIFR-JUMPHOST`), and
   in one of them also by status and age.

Each script is a `Preset` value in the module named after it. The preset
holds the script's name rule, config rule, exit codes, URL and line rule.
The script's lemmas instantiate the generic laws with its own constants.

A run is `Pipeline.Run(p, inp)`. It returns an `Outcome`:
- the text of each `print` call;
- the end of the run: `Exit(code, reason)` for `sys.exit`, or `Crash(error)`
  for an uncaught exception;
- the outside effects in order: the override path probed, the config file
  read, each request sent.

`Pipeline.Execute` runs the same stages imperatively, including the printing
loop (`Listing.EmitAll`), and is proved equal to `Run`. `ssh-checkpublickey.py`
gets the same treatment: the function `SshCheckPublicKey.Check` and the
method `SshCheckPublicKey.CheckKey`.

The model keeps the behaviours the code has as written:
- In every script that has it, the if/elif chain on 401, 402, 403, 404 and
  500 is never reached. raise_for_status has already diverted those statuses to the
  request failure code.
- Exit 41 of bwidm_rest_ssh_jumphost.py therefore always means a refused
  user name.
- bwidm_rest_ssh.py writes its prefix `command="{FIDO2_KEY_NAME}",from="`
  as a plain string, so no listed line without a `{` is ever unwrapped.
- The marker pattern leaves its `.` unescaped, so it matches any character
  there except a newline.
- `bwidm-rest-ssh2.py` accepts 900000 and any ID above 999999 of at most
  4300 digits. The six-digit rule accepts neither.
- Keys are read in list order. A key error, a non-canonical base64 token, key
  type octets that are not UTF-8, a missing comment, or an expiry that
  overflows the datetime range in `ssh_key_valid` raises, and ends the run
  with the lines printed so far.

## Model

| member | source | states |
|---|---|---|
| Validate.NameMatches | usr/local/bin/bwidm_rest_ssh.py:29-33 | the name passes exactly when it is 1 to max word characters |
| Validate.AcceptedNameIsEntry | usr/local/bin/bwidm_rest_ssh.py:29-33 | an accepted name has no '/' and is not "." or "..", so the override path stays inside the override directory |
| Validate.SixDigitId | usr/local/bin/bwidm_rest_ssh.py:36-42 | an ID passes exactly when it is six digits worth more than 900000; the value is in 900001..999999 and str() gives the argument back |
| Validate.SixDigitIdExactly | usr/local/bin/bwidm-rest-ssh.py:28-33 | the six-digit rule accepts exactly the numerals of 900001..999999 |
| Validate.AtLeastId | usr/local/bin/bwidm-rest-ssh2.py:20-24 | an accepted ID is at least 900000 |
| Validate.AtLeastIdAccepts | usr/local/bin/bwidm-rest-ssh2.py:20-24 | every numeral of 900000 or more with at most 4300 digits is accepted with its value; a longer one is refused as not an int |
| Validate.TooManyDigits | usr/local/bin/bwidm-rest-ssh2.py:20-21 | a digit string of more than 4300 digits is refused as not an int, because int() raises ValueError on it |
| Validate.AtLeastIdRefuses | usr/local/bin/bwidm-rest-ssh2.py:20-24 | every numeral below 900000 is refused as too small |
| Validate.RulesDiffer | usr/local/bin/bwidm-rest-ssh2.py:20-24 | 900000, and every ID above 999999 of at most 4300 digits, passes the int() rule; all of them fail the six-digit rule |
| Validate.SixDigitImpliesAtLeast | usr/local/bin/bwidm-rest-ssh.py:28-33 | every ID the six-digit rule accepts passes the int() rule with the same value |
| Numbers.DecimalStringValue | usr/local/bin/bwidm-rest-ssh.py:133-138 | the digits str() writes into the URL read back as the same number |
| Numbers.ValueDecimalString | usr/local/bin/bwidm-rest-ssh.py:28-33 | a digit string without a leading zero is str() of its value |
| Numbers.PyInt | usr/local/bin/bwidm-rest-ssh2.py:20-21 | int() of a str: a value it returns always has a str() within the 4300-digit limit; PyIntOfDigits and PyIntDecimalString give its values |
| Numbers.PyIntOfDigits | usr/local/bin/bwidm-rest-ssh.py:29-30 | int() of a plain digit string is its value when it has at most 4300 digits, and raises ValueError otherwise |
| Numbers.PyIntDecimalString | usr/local/bin/bwidm-rest-ssh2.py:20-21 | int(str(n)) == n whenever str(n) has at most 4300 digits; for a longer str(n), int() raises |
| Numbers.DecimalString | usr/local/bin/bwidm-rest-ssh.py:135 | str() of a number is a non-empty digit string with no leading zero; DecimalStringValue and ValueDecimalString make it the inverse of the digit value |
| Numbers.LeadingDigitBounds | usr/local/bin/bwidm-rest-ssh.py:29-31 | a leading non-zero digit puts the value at or above 10^(length-1), and a leading zero puts it below |
| Lines.SplitLines | usr/local/bin/bwidm-rest-ssh2.py:88 | no line that splitlines() returns holds a line boundary |
| Lines.SplitTerminated | usr/local/bin/bwidm-rest-ssh2.py:88-90 | lines joined with a newline after each split back into the same lines |
| Lines.SingleLine | usr/local/bin/bwidm-rest-ssh2.py:88 | text without a line boundary is one line, or none when it is empty |
| Lines.TranslateNewlines | usr/local/bin/bwidm-rest-ssh2.py:39-40 | text read in text mode holds no carriage return and is no longer than the file |
| Lines.TranslateWithoutCarriageReturn | usr/local/bin/bwidm-rest-ssh2.py:39-40 | a text without carriage returns reads back unchanged |
| Lines.TranslateIdempotent | usr/local/bin/bwidm-rest-ssh2.py:39-40 | translating newlines twice gives the same text as translating once |
| Files.ReadText | usr/local/bin/bwidm-rest-ssh2.py:38-40 | a read succeeds exactly for a readable regular file whose octets are UTF-8; the text holds no carriage return |
| Files.ReadWritten | usr/local/bin/bwidm_rest_ssh.py:108-110 | a file holding the UTF-8 encoding of a text without carriage returns reads back as that text |
| Files.ReadFailures | usr/local/bin/bwidm_rest_ssh.py:108-110 | a failed read is an uncaught exception, and a UnicodeDecodeError when the file is readable |
| Base64.Decode | usr/local/bin/bwidm-rest-ssh.py:65 | a token that decodes has a multiple of 4 characters, 4 per started group of three octets; DecodeEncode and EncodeDecode make it the inverse of Encode |
| Base64.Encode | usr/local/bin/ssh-checkpublickey.py:33 | the encoding has 4 characters per started group of three octets, all in the token class |
| Base64.DecodeEncode | usr/local/bin/ssh-checkpublickey.py:33 | decoding undoes encoding: Decode(Encode(b)) == Some(b) |
| Base64.EncodeDecode | usr/local/bin/ssh-checkpublickey.py:33 | whatever decodes is the canonical encoding of its octets |
| Utf8.Decode | usr/local/bin/bwidm-rest-ssh.py:74 | decode("utf-8") gives a text of one to four octets per character; DecodeEncode and EncodeDecode make it the inverse of Encode |
| Utf8.DecodeEncode | usr/local/bin/ssh-checkpublickey.py:38 | decode("utf-8") undoes the UTF-8 encoding of any text |
| Utf8.EncodeDecode | usr/local/bin/ssh-checkpublickey.py:38 | whatever decodes is the encoding of its text |
| Utf8.EncodeHasNoZero | usr/local/bin/ssh-checkpublickey.py:34-37 | only NUL encodes to a zero octet, so the cut at the first NUL keeps the whole key type |
| Utf8.DecodeAscii | usr/local/bin/ssh-checkpublickey.py:38 | ASCII octets decode to the text they spell |
| Patterns.FindMarker | usr/local/bin/bwidm-rest-ssh.py:76 | re.search for the marker is None exactly when the pattern matches nowhere; otherwise it gives the text of the leftmost match |
| Patterns.DotIsWildcard | usr/local/bin/bwidm-rest-ssh.py:76 | the unescaped dot makes the pattern match "sk-ssh-ed25519@opensshXcom", which is not the marker |
| Patterns.FindMarkerItself | usr/local/bin/bwidm-rest-ssh.py:76 | searching the marker itself finds all of it |
| Patterns.LiteralMarkerMatches | usr/local/bin/bwidm-rest-ssh.py:76 | the literal marker matches the pattern wherever it occurs |
| Patterns.MarkerStart | usr/local/bin/bwidm-rest-ssh.py:42-45 | a marker match begins with 's', never with whitespace |
| Patterns.KeyTailComplete | usr/local/bin/bwidm-rest-ssh.py:42-45 | after the closing quote, the whitespace, marker, whitespace and token have one way to match, and the token is the maximal base64 run |
| Patterns.KeyTailSound | usr/local/bin/bwidm-rest-ssh.py:42-45 | every token captured after a quote comes from such a match |
| Patterns.KeyQuoteSpec | usr/local/bin/bwidm-rest-ssh.py:42-45 | greedy `.*`: from a start, the chosen quote is the last one on the line after which the pattern matches |
| Patterns.KeyStartSpec | usr/local/bin/bwidm-rest-ssh.py:42-45 | the chosen start is the leftmost one from which the pattern matches |
| Patterns.ExtractKey | usr/local/bin/bwidm-rest-ssh.py:42-45 | findall(key pattern)[0] is a non-empty capture; ExtractKeySpec states which one |
| Patterns.ExtractKeySpec | usr/local/bin/bwidm-rest-ssh.py:42-45 | findall(key pattern)[0] is None exactly when the pattern matches nowhere, and otherwise is the token of the leftmost, greediest match |
| Patterns.CommentComplete | usr/local/bin/bwidm-rest-ssh.py:46-49 | at a marker, the comment pattern has one way to match, and it captures the maximal comment run |
| Patterns.CommentSound | usr/local/bin/bwidm-rest-ssh.py:46-49 | every captured comment comes from such a match |
| Patterns.ExtractComment | usr/local/bin/bwidm-rest-ssh.py:46-49 | findall(comment pattern)[0] is None exactly when the pattern matches nowhere, and otherwise is the capture at the leftmost match |
| Patterns.FirstCommentAt | usr/local/bin/bwidm-rest-ssh.py:46-49 | the first position where the comment pattern matches decides the comment |
| Patterns.ExtractPublicKey | usr/local/bin/ssh-checkpublickey.py:9-16 | get_ssh_public_key is None exactly when the pattern matches nowhere, and otherwise is the capture at the leftmost match |
| Patterns.PublicKeyAtShape | usr/local/bin/ssh-checkpublickey.py:12 | the captured key is a non-empty, maximal base64-class run of the content |
| Fido2.FindZero | usr/local/bin/bwidm-rest-ssh.py:69 | bytes.find(b"\x00") gives the first zero octet, or -1 when there is none |
| Fido2.KeyTypeBytes | usr/local/bin/bwidm-rest-ssh.py:65-72 | the kept octets follow the first four, contain no zero octet, and end at the blob's end or at its first zero octet after the four |
| Fido2.KeyTypeBytesOf | usr/local/bin/bwidm-rest-ssh.py:65-72 | four octets, a NUL-free text, a zero octet and a tail give back that text |
| Fido2.KeyTypeBytesWithoutZero | usr/local/bin/bwidm-rest-ssh.py:65-72 | with no zero octet after the first four, the whole remainder is kept |
| Fido2.KeyTypeText | usr/local/bin/bwidm-rest-ssh.py:65-74 | a token that is not base64 raises binascii.Error; a base64 token whose key-type octets are not UTF-8 raises UnicodeDecodeError, and only such a token; a text result is the one whose UTF-8 is the blob cut after four octets and at the first NUL |
| Fido2.BlobRoundTrip | usr/local/bin/bwidm-rest-ssh.py:65-74 | the base64 of header, ASCII key type, NUL and tail decodes to that key type |
| Fido2.MarkerBlob | usr/local/bin/bwidm-rest-ssh.py:65-74 | a FIDO2 blob decodes to the marker as its key type |
| Fido2.GetFido2PublicKey | usr/local/bin/bwidm-rest-ssh.py:38-54 | NoKey exactly when the key pattern matches nowhere; NoComment (key_comment[0] raises) exactly when a key is found but no comment is; a found pair is key[0] and key_comment[0], the first capture of each findall (ExtractKey, ExtractComment) |
| Fido2.DecodeFido2PublicKey | usr/local/bin/bwidm-rest-ssh.py:58-81 | an unwrapped key keeps the token and comment get_fido2_public_key found, and its key type is the leftmost match of the marker pattern in the decoded key-type text; None exactly when no key is found or the decoded text lacks the marker; a found key whose decoded text holds a marker match is always unwrapped; IndexError exactly when the comment is missing; binascii.Error or UnicodeDecodeError exactly when decoding the found token raises it |
| Fido2.DecodeRoundTrip | usr/local/bin/bwidm-rest-ssh.py:58-81 | a found token whose blob spells the marker unwraps to the marker, the token as captured, and the comment |
| Fido2.PlaceholderNeverMatches | usr/local/bin/bwidm_rest_ssh.py:53-56 | with a '{' in the prefix, a line without one is never unwrapped |
| Fido2.NoMarkerBeforeQuote | usr/local/bin/bwidm-rest-ssh.py:46-49 | no match of the marker pattern starts before the closing quote and space of from="…" unless one lies wholly inside the text before the quote, so the comment findall starts at the real marker |
| Fido2.LineRoundTrip | usr/local/bin/bwidm-rest-ssh.py:38-81 | a command-key line built from a prefix, from="…", the base64 of a FIDO2 blob and a comment unwraps to the marker, that token and that comment, whenever the marker pattern matches nowhere in the prefix and from="…" together and from="…" has no newline |
| KeyLines.DecideLine | usr/local/bin/bwidm-rest-ssh.py:146-153 | the loop body never skips a line; it prints a changed line only for an unwrapped FIDO2 key, and raises only where the unwrapping raises |
| KeyLines.CommandLinePrinted | usr/local/bin/bwidm-rest-ssh.py:149-151 | such a line (no marker in the prefix and from="…", no newline in from="…") is printed as "marker token comment" |
| KeyLines.UnmatchedLinePrinted | usr/local/bin/bwidm-rest-ssh.py:152-153 | a line the key pattern does not match is printed unchanged |
| KeyLines.BadBase64Raises | usr/local/bin/bwidm-rest-ssh.py:65 | a found token that is not canonical base64 ends the loop with the exception |
| KeyLines.InvalidUtf8Raises | usr/local/bin/bwidm-rest-ssh.py:74 | a found base64 token whose key-type octets are not UTF-8 ends the loop with UnicodeDecodeError |
| KeyLines.MissingCommentRaises | usr/local/bin/bwidm-rest-ssh.py:51-52 | a found key with no comment ends the loop with IndexError |
| KeyLines.PlaceholderLinePrinted | usr/local/bin/bwidm_rest_ssh.py:165-172 | under a placeholder prefix, a line without '{' is printed unchanged |
| KeyLines.PlaceholderLines | usr/local/bin/bwidm_rest_ssh.py:164-172 | under a placeholder prefix, a listing of brace-free lines prints exactly those lines and ends normally |
| KeyLines.VerbatimListing | usr/local/bin/bwidm-rest-ssh2.py:89-90 | printing verbatim gives the lines themselves, in order |
| KeyLines.VerbatimText | usr/local/bin/bwidm-rest-ssh2.py:88-90 | a body with one line per line prints exactly those lines |
| KeyLines.UnwrapListing | usr/local/bin/bwidm-rest-ssh.py:146-153 | when no line raises, one line is printed per listed line, in order: unwrapped where it is a FIDO2 key, unchanged otherwise |
| KeyLines.UnwrapText | usr/local/bin/bwidm-rest-ssh.py:145-153 | the same for a response body with one line per line |
| Listing.EmitAll | usr/local/bin/bwidm-rest-ssh.py:146-154 | the loop, run item by item until one raises, leaves the state the spec function gives |
| Listing.RaiseSticks | usr/local/bin/bwidm-rest-ssh.py:146-153 | once the loop has raised, later items change nothing |
| Listing.EmittedCons | usr/local/bin/bwidm-rest-ssh.py:146-153 | the first item's decision comes first in the output |
| Listing.EmittedIsPrinted | usr/local/bin/bwidm-rest-ssh.py:146-153 | the step-by-step loop and the front-first reading agree |
| Listing.AllPrinted | usr/local/bin/bwidm-rest-ssh.py:146-153 | when every item prints, there is exactly one line per item, in order, and no exception |
| Listing.NonePrinted | usr/local/bin/bwidm-rest-ssh-jumphost.py:132-135 | when every item is skipped, nothing is printed |
| Listing.EmittedAppend | usr/local/bin/bwidm-rest-ssh.py:146-153 | the output over a then b is a's lines then b's, unless a raised |
| Listing.FirstRaise | usr/local/bin/bwidm-rest-ssh.py:146-153 | the first item that raises gives the run's exception, and the lines before it stay printed |
| Listing.NoRaiseBefore | usr/local/bin/bwidm-rest-ssh.py:146-153 | items that never raise leave a loop that ends normally |
| Keys.SshKeyValid | usr/local/bin/bwidm-rest-ssh-jumphost2.py:62-77 | valid only for a parsed date whose expiry lies after now and inside the datetime range; an overflow needs a parsed date |
| Keys.ValidUntilExpiry | usr/local/bin/bwidm-rest-ssh-jumphost2.py:62-77 | with an expiry in range, a key is valid exactly while now is before the expiry, and already invalid at the expiry |
| Keys.UnparsableIsInvalid | usr/local/bin/bwidm-rest-ssh-jumphost2.py:76-77 | an unparsable date makes the key invalid |
| Keys.ValidEarlier | usr/local/bin/bwidm-rest-ssh-jumphost2.py:62-77 | a key valid now was valid at every earlier moment |
| Keys.OneYearOverflow | usr/local/bin/bwidm-rest-ssh-jumphost2.py:67 | with 365 days, the expiry overflows exactly for dates in the last year of the datetime range |
| Keys.StatusPrefixOnly | usr/local/bin/bwidm-rest-ssh-jumphost2.py:148-150 | re.match anchors only at the start: any status beginning with ACTIVE or EXPIRED is admitted |
| Keys.DecideKey | usr/local/bin/bwidm-rest-ssh-jumphost2.py:146-153 | a printed key has a name containing UNIFR-JUMPHOST and the line keyType encodedKey user; under the age filter also an admitted status and a valid age; only a missing field or an overflow raises |
| Keys.StatusAgeSelection | usr/local/bin/bwidm-rest-ssh-jumphost2.py:146-153 | a complete key prints its line exactly when its name contains UNIFR-JUMPHOST, its status is admitted and its age is valid; it raises OverflowError exactly when such a key's expiry overflows |
| Keys.NameOnlySelection | usr/local/bin/bwidm-rest-ssh-jumphost.py:132-135 | a complete key prints exactly when its name contains UNIFR-JUMPHOST; status and age play no part |
| Keys.FilterListing | usr/local/bin/bwidm-rest-ssh-jumphost2.py:144-154 | over complete keys without overflow, the loop prints the lines of the kept keys, in list order, and ends normally |
| Keys.SelectedEmpty | usr/local/bin/bwidm-rest-ssh-jumphost2.py:144-154 | nothing is printed exactly when no key is kept |
| Config.LoadConfig | usr/local/bin/bwidm-rest-ssh.py:113-131 | the settings are handed on exactly when they were read and none is empty |
| Config.FirstEmptyDecides | usr/local/bin/bwidm-rest-ssh.py:124-131 | the first empty setting decides the exit, whatever the later ones hold |
| Config.FailureCodes | usr/local/bin/bwidm_rest_ssh.py:125-141 | an OSError always exits with the unreadable code; another failure does so exactly under a bare except, and crashes otherwise |
| Request.NonOkStatus | usr/local/bin/bwidm-rest-ssh.py:155-168 | a named status exits with its own code, any other with the catch-all code; a single-code script uses its one code |
| Request.Call | usr/local/bin/bwidm-rest-ssh.py:133-144 | the body is handed on exactly for status 200; no response, or 400..599, exits with the failure code |
| Request.ChainUnreachable | usr/local/bin/bwidm-rest-ssh.py:139-164 | every status the chain names exits with the failure code; a call only ends with the failure or catch-all reason |
| Request.StatusReachesChain | usr/local/bin/bwidm-rest-ssh.py:165-168 | a status other than 200 that raise_for_status lets through exits with the script's catch-all code |
| Pipeline.Arguments | usr/local/bin/bwidm-rest-ssh.py:22-33 | the argument checks end the run only with an argument exit; the name code exactly when the name is refused; the ID handed on reads back through int() as 900000 or more |
| Pipeline.Run | usr/local/bin/bwidm-rest-ssh.py:84-168 | a run has no effect exactly when an argument is refused, probes the override path first, prints only when it exits 0 or crashes, and serves the override file exactly when it has one effect and exits |
| Pipeline.Fetch | usr/local/bin/bwidm-rest-ssh.py:133-168 | the request stage adds one or two requests after the effects so far and nothing else, never serves the override, and prints only when it exits 0 or crashes |
| Pipeline.Execute | usr/local/bin/bwidm-rest-ssh.py:84-168 | the stage-by-stage top level with its printing loop gives the outcome of Run |
| Pipeline.LaterReasons | usr/local/bin/bwidm-rest-ssh.py:93-168 | past the arguments, no exit has an argument reason or a reason of the status chain |
| Pipeline.FetchReasons | usr/local/bin/bwidm-rest-ssh.py:133-168 | the requests and the loop end with a call's reason, exit 0, or an exception |
| Pipeline.NameGate | usr/local/bin/bwidm-rest-ssh.py:22-25 | the run exits with the name code exactly when the name is refused, and has then printed nothing and touched nothing |
| Pipeline.SixDigitGate | usr/local/bin/bwidm-rest-ssh.py:28-33 | for a passing name, the run exits with the ID code exactly when the ID fails the six-digit rule, and has then touched nothing |
| Pipeline.AtLeastGate | usr/local/bin/bwidm-rest-ssh2.py:20-31 | exit 2 exactly when int() raises (outside its grammar, or over 4300 digits), the ID code exactly for values below 900000, and no effect exactly in those two cases |
| Pipeline.UrlUserId | usr/local/bin/bwidm-rest-ssh2.py:78 | the URL takes str() of the parsed ID; under the six-digit rule that is the argument itself |
| Pipeline.OverrideShortCircuit | usr/local/bin/bwidm-rest-ssh.py:93-98 | with an override file, probing it is the only effect; the run prints the file and exits 0, or crashes reading it |
| Pipeline.OverridePrinted | usr/local/bin/bwidm-rest-ssh.py:93-98 | a readable UTF-8 override file without carriage returns is printed as it is, with exit 0 |
| Pipeline.ConfigExits | usr/local/bin/bwidm-rest-ssh.py:112-131 | without an override file, a config failure, or the first empty setting i, ends the run after reading the config, with that exit and no request |
| Pipeline.EffectOrder | usr/local/bin/bwidm-rest-ssh.py:93-141 | the override path is probed first and the config read second; requests come only after both, at most two of them |
| Pipeline.RequestsNeedConfig | usr/local/bin/bwidm-rest-ssh.py:84-141 | a request is sent only when the arguments passed, no override file exists, and every setting is non-empty |
| Pipeline.ChainNeverExits | usr/local/bin/bwidm-rest-ssh.py:139-164 | no run ever ends with an exit of the status chain |
| Pipeline.AuthAllRun | usr/local/bin/bwidm-rest-ssh.py:133-154 | a configured user-ID run sends one request; it then either ends with the call's exit, or runs the loop over the lines of the body |
| Pipeline.AuthAllServed | usr/local/bin/bwidm-rest-ssh.py:143-154 | a listing whose loop prints without raising gives exactly those lines, exit 0, and the three effects |
| Pipeline.UnwrapServed | usr/local/bin/bwidm-rest-ssh.py:143-154 | a listing in which no line raises prints one line per listed line, unwrapped where it is a FIDO2 key, and exits 0 |
| Pipeline.PlaceholderServed | usr/local/bin/bwidm_rest_ssh.py:162-173 | under a placeholder prefix, brace-free lines are printed unchanged, and the run exits 0 |
| Pipeline.VerbatimServed | usr/local/bin/bwidm-rest-ssh2.py:86-91 | a verbatim listing prints every line, in order, and exits 0 |
| Pipeline.KeyListRun | usr/local/bin/bwidm-rest-ssh-jumphost2.py:127-154 | a user-name run looks up the uidNumber, lists its keys, and runs the filter loop over them |
| Pipeline.KeyListServed | usr/local/bin/bwidm-rest-ssh-jumphost2.py:127-154 | over complete keys without overflow, the run prints the kept keys in list order, exits 0, and has the four effects |
| Pipeline.IdentityStage | usr/local/bin/bwidm-rest-ssh-jumphost2.py:127-130 | a failed lookup ends the run after one request; a body without a uidNumber crashes |
| Pipeline.KeysStage | usr/local/bin/bwidm-rest-ssh-jumphost2.py:132-145 | a failed key list call ends the run after both requests; a body keysOf rejects crashes |
| Pipeline.IdentityEppn | usr/local/bin/bwidm-rest-ssh-jumphost2.py:30 | the lookup URL ends with the user name followed by "@uni-freiburg.de" |
| Bwidm_rest_ssh.PrefixPlaceholder | usr/local/bin/bwidm_rest_ssh.py:54 | the prefix holds the literal "{" of the unformatted placeholder |
| Bwidm_rest_ssh.NameCheck | usr/local/bin/bwidm_rest_ssh.py:29-33 | exit 41 exactly for a name that is not 1 to 12 word characters, with no effect |
| Bwidm_rest_ssh.IdCheck | usr/local/bin/bwidm_rest_ssh.py:36-42 | for a valid name, exit 31 exactly when the ID fails the six-digit rule |
| Bwidm_rest_ssh.ConfigCodes | usr/local/bin/bwidm_rest_ssh.py:125-150 | OSError exits 21; another config error is not caught; the first empty setting exits 22 to 25 |
| Bwidm_rest_ssh.RequestCodes | usr/local/bin/bwidm_rest_ssh.py:152-175 | no response or an error status exits 11; any other status but 200 exits 12 |
| Bwidm_rest_ssh.PlaceholderListing | usr/local/bin/bwidm_rest_ssh.py:162-173 | a brace-free listing is printed unchanged, FIDO2 command keys included, and the run exits 0 |
| BwidmRestSsh.NameCheck | usr/local/bin/bwidm-rest-ssh.py:22-25 | exit 8 exactly for a name that is not 1 to 20 word characters, with no effect |
| BwidmRestSsh.IdCheck | usr/local/bin/bwidm-rest-ssh.py:28-33 | for a valid name, exit 9 exactly when the ID fails the six-digit rule |
| BwidmRestSsh.ConfigCodes | usr/local/bin/bwidm-rest-ssh.py:113-131 | every config failure exits 12; the first empty setting exits 14 to 17 |
| BwidmRestSsh.RequestCodes | usr/local/bin/bwidm-rest-ssh.py:133-168 | no response, an error status or a status the chain names exits 18; other non-200 statuses exit 19 |
| BwidmRestSsh.UnwrappedListing | usr/local/bin/bwidm-rest-ssh.py:143-154 | a listing in which no line raises prints one shown line per listed line, and the run exits 0 |
| BwidmRestSsh.PrefixHasNoMarker | usr/local/bin/bwidm-rest-ssh.py:43 | the prefix holds no 's', so prefix and from="…" together hold a marker match only if from="…" does |
| BwidmRestSsh.CommandKeyServed | usr/local/bin/bwidm-rest-ssh.py:143-153 | a FIDO2 command key the service lists is served as marker, token and comment, for any from="…" without a newline in which the marker pattern matches nowhere (from="localhost" is one) |
| BwidmRestSshJumphost2.AnyNameProbed | usr/local/bin/bwidm-rest-ssh-jumphost2.py:82-92 | any argument goes straight into the override path; an existing file there is the only effect, and a readable one exits 0 |
| BwidmRestSshJumphost2.ConfigCodes | usr/local/bin/bwidm-rest-ssh-jumphost2.py:107-125 | every config failure exits 12; the first empty setting exits 14 to 17 |
| BwidmRestSshJumphost2.IdentityCodes | usr/local/bin/bwidm-rest-ssh-jumphost2.py:27-59 | a lookup with no response or an error status exits 21; other non-200 statuses exit 19; a body without a uidNumber crashes |
| BwidmRestSshJumphost2.KeysCodes | usr/local/bin/bwidm-rest-ssh-jumphost2.py:132-168 | the `/all` key list with no response or an error status exits 18; other non-200 statuses exit 19 |
| BwidmRestSshJumphost2.Served | usr/local/bin/bwidm-rest-ssh-jumphost2.py:143-154 | the run prints the lines of the keys the name, status and age filter keeps, and prints nothing exactly when none is kept |
| BwidmRestSshJumphost2.OldKeyDropped | usr/local/bin/bwidm-rest-ssh-jumphost2.py:62-77 | a key created 365 days or more before now is never printed |
| BwidmRestSshJumphost.NameCheck | usr/local/bin/bwidm-rest-ssh-jumphost.py:25-28 | exit 9 exactly for a name that is not 1 to 12 word characters, with no effect |
| BwidmRestSshJumphost.ConfigCodes | usr/local/bin/bwidm-rest-ssh-jumphost.py:94-112 | every config failure exits 12; the first empty setting exits 14 to 17 |
| BwidmRestSshJumphost.IdentityCodes | usr/local/bin/bwidm-rest-ssh-jumphost.py:32-64 | a lookup with no response or an error status exits 21; other non-200 statuses exit 19 |
| BwidmRestSshJumphost.KeysCodes | usr/local/bin/bwidm-rest-ssh-jumphost.py:119-150 | the active key list with no response or an error status exits 18; other non-200 statuses exit 19 |
| BwidmRestSshJumphost.Served | usr/local/bin/bwidm-rest-ssh-jumphost.py:129-136 | the run prints the lines of the listed keys named UNIFR-JUMPHOST, and prints nothing exactly when none is |
| Bwidm_rest_ssh_jumphost.NameCheck | usr/local/bin/bwidm_rest_ssh_jumphost.py:25-29 | exit 41 exactly for a name that is not 1 to 12 word characters, with no effect |
| Bwidm_rest_ssh_jumphost.Exit41IsName | usr/local/bin/bwidm_rest_ssh_jumphost.py:130-131 | exit 41 happens exactly when the name is refused, and always with the name reason |
| Bwidm_rest_ssh_jumphost.ConfigCodes | usr/local/bin/bwidm_rest_ssh_jumphost.py:80-105 | OSError exits 21; another config error is not caught; the first empty setting exits 22 to 25 |
| Bwidm_rest_ssh_jumphost.IdentityCodes | usr/local/bin/bwidm_rest_ssh_jumphost.py:33-51 | a lookup with no response or an error status exits 31; any other status but 200 exits 32 |
| Bwidm_rest_ssh_jumphost.KeysCodes | usr/local/bin/bwidm_rest_ssh_jumphost.py:112-143 | the active key list with no response or an error status exits 11; other non-200 statuses exit 19 |
| Bwidm_rest_ssh_jumphost.Served | usr/local/bin/bwidm_rest_ssh_jumphost.py:122-129 | the run prints the lines of the listed keys named UNIFR-JUMPHOST, in list order, and exits 0 |
| BwidmRestSsh2.IdCheck | usr/local/bin/bwidm-rest-ssh2.py:20-31 | exit 2 exactly when int() raises on the ID, over 4300 digits included; exit 9 exactly for values below 900000; no effect exactly in those cases |
| BwidmRestSsh2.LongIdRefused | usr/local/bin/bwidm-rest-ssh2.py:20-31 | a numeral of more than 4300 digits ends the run with exit 2 and no effect |
| BwidmRestSsh2.IdInUrl | usr/local/bin/bwidm-rest-ssh2.py:76-81 | a run past the arguments has an ID that int() reads as 900000 or more, and the URL gets str() of that value rather than the ID as typed, within the 4300-digit limit of str() |
| BwidmRestSsh2.ConfigCodes | usr/local/bin/bwidm-rest-ssh2.py:55-74 | every config failure exits 12; the first empty setting exits 14 to 17 |
| BwidmRestSsh2.RequestCodes | usr/local/bin/bwidm-rest-ssh2.py:76-105 | no response or an error status exits 18; other non-200 statuses exit 19 |
| BwidmRestSsh2.Served | usr/local/bin/bwidm-rest-ssh2.py:86-91 | on status 200 every listed line is printed as it is, in order, and the run exits 0 |
| SshCheckPublicKey.DistinctMessages | usr/local/bin/ssh-checkpublickey.py:42-47 | the found, not-found and no-key messages are three different lines |
| SshCheckPublicKey.Check | usr/local/bin/ssh-checkpublickey.py:19-47 | the script probes the named file only, prints at most one line, exits 0 or 1 with one line, and exit 0 prints one of the three result messages |
| SshCheckPublicKey.CheckKey | usr/local/bin/ssh-checkpublickey.py:19-47 | the script's steps, decoded_key rebound as the source does, give the outcome of Check |
| SshCheckPublicKey.UsageExit | usr/local/bin/ssh-checkpublickey.py:20-24 | the usage line and exit 1 exactly when no file name is given |
| SshCheckPublicKey.UnreadableExit | usr/local/bin/ssh-checkpublickey.py:26-29 | "Invalid or unreadable file" and exit 1 exactly when the path is not a readable regular file; further arguments are ignored |
| SshCheckPublicKey.NoKeyReport | usr/local/bin/ssh-checkpublickey.py:46-47 | a read file gives the "No … found" line exactly when the key pattern matches nowhere in it |
| SshCheckPublicKey.VerdictOfKey | usr/local/bin/ssh-checkpublickey.py:31-45 | for a found key, the message depends only on the decoded key type: found exactly when the marker pattern matches in it |
| SshCheckPublicKey.LeadingKey | usr/local/bin/ssh-checkpublickey.py:9-16 | a file starting with the marker, a space and a token yields that whole token |
| SshCheckPublicKey.KeyFileFound | usr/local/bin/ssh-checkpublickey.py:9-45 | a FIDO2 public key file as ssh-keygen writes it is reported as found, with exit 0 |

## Left out

- I/O itself is not modelled. Printing, the file system, the clock and the network are inputs and outputs of `Run`. A read of the override file or the key file is not an effect of its own.
- Standard error is not modelled. Each `sys.exit` carries a reason tag instead of its message text.
- The `requests` library is not modelled. A call is a `Reply` value (no response, or a status and a text). Timeouts, max_time, redirects and basic auth are left out.
- Request.RaisesForStatus: this is an assumption about `requests`: raise_for_status raises exactly for the statuses 400 to 599.
- configparser syntax is not modelled. The config file is a `ConfigSource`: the four settings, an OSError, or any other exception. max_time is not kept.
- JSON is not parsed. `json.loads` is the input functions `identityOf` and `keysOf`, with None where it raises or the uidNumber is missing. A key object is a map of string fields, so non-string JSON values are left out. keysOf also stands for the iteration over the parsed value: a JSON value that iterates as no items (`{}`, `""`) is the empty list, and one whose items are not key objects is None, which the model reports as a crash.
- `datetime.strptime` and `utcnow` are not modelled. They are the input `parseDate` and one value `now`, in microseconds since datetime.min. The clock does not advance between keys.
- `\w` and `\d` are modelled by their ASCII subsets. `int()` accepts ASCII digits only, with its sign, whitespace and underscore rules, and raises ValueError for more than 4300 digits as CPython 3.11 and later do by default; an interpreter without that limit, or one with a changed limit, is not modelled.
- Base64.Decode: only canonical padded input decodes. binascii's non-strict leniency is modelled as the exception instead: it discards what follows the first complete padding ("AA==AAAA" decodes to one zero octet), skips an '=' where no padding can stand, and accepts nonzero trailing bits. Missing padding raises in binascii as in the model.
- Files.ReadText: text-mode reads are assumed to decode UTF-8, including the scripts whose `open` takes the locale's encoding. Universal newlines are applied.
- Paths are compared as written. Symbolic links and "." or ".." components are not resolved.
- argparse mechanics are reduced to the type functions. Missing or extra arguments, options, and arguments starting with '-' are not modelled; a rejected `int()` is modelled as exit 2.
- Fido2.LineRoundTrip: a from="…" in which the marker pattern matches is not covered. There the comment findall starts inside from="…" and can capture a different comment.
- KeyLines.CommandLinePrinted: covers the same lines as Fido2.LineRoundTrip, for the same reason.
- BwidmRestSsh.CommandKeyServed: covers the same lines as Fido2.LineRoundTrip, for the same reason.
- ssh-checkpublickey.py: `sys.argv` is the list of arguments after the program name. A file that disappears between the access check and the open is not modelled.
