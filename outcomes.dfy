/**
 * What one run of a script amounts to: the text of each print() call on
 * standard output, how the process ends, and the outside effects it had on
 * the way (files probed, the config file read, requests sent).
 */
module Outcomes {

  /** Exceptions that escape a script; Python then prints a traceback to
      standard error and the process exits with status 1. */
  datatype PyError =
    | IndexError     // key_comment[0] on an empty list
    | Base64Error    // binascii.Error from base64.b64decode
    | UnicodeError   // UnicodeDecodeError from decode("utf-8")
    | KeyError       // a key object lacks a field the script reads
    | JsonError      // json.loads rejects a body, or it has no uidNumber
    | OverflowError  // createdAt plus the validity period passes datetime.max
    | ConfigError    // a config failure the script does not catch
    | FileError      // open() fails on an override path that exists

  /** Why a script called sys.exit (the message it writes to standard
      error, as a tag). */
  datatype Reason =
    | InvalidUserName    // "Not a valid user name"
    | InvalidUserId      // "Not a bwIDM User ID"
    | BadArgument        // argparse rejects an argument
    | OverrideServed     // local authorized_keys file printed
    | KeysServed         // key listing printed
    | ConfigUnreadable   // "Can not read config file"
    | EmptyRegHost
    | EmptyRestUser
    | EmptyRestPw
    | EmptySsn
    | RequestFailed      // a RequestException, raise_for_status included
    | LoginFailed        // 401
    | ServiceIdInvalid   // 402
    | NoAssertion        // 403
    | NotRegistered      // 404
    | Misconfigured      // 500
    | StatusNotGranted   // any other status that is not 200
    | Usage              // no file name given
    | UnreadableFile     // "Invalid or unreadable file"
    | Checked            // the public key check ran to its end

  datatype Status = Exit(code: int, reason: Reason) | Crash(error: PyError)

  datatype Effect = ProbeFile(path: string) | ReadConfig | HttpGet(url: string)

  datatype Outcome = Outcome(stdout: seq<string>, status: Status, effects: seq<Effect>)

  /** A stage of a script either hands a value on or ends the run. */
  datatype Step<T> = Next(value: T) | Stop(status: Status)

  /** The exit status the invoking process observes. */
  function ExitCode(st: Status): int {
    match st
    case Exit(code, _) => code
    case Crash(_) => 1
  }
}
