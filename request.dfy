/**
 * One call to the registration service's REST interface and what the
 * script makes of it.  The call is made inside a try block that also calls
 * response.raise_for_status(); a RequestException ends the run with the
 * script's failure code.  Only after that is the status code compared with
 * 200 and, in most scripts, with 401, 402, 403, 404 and 500.
 *
 * Assumption about the `requests` library: raise_for_status() raises
 * exactly for the status codes 400 to 599.
 */
module Request {
  import opened Outcomes

  /** The result of requests.get: no response at all (connection error,
      timeout, too many redirects, ...) or a final response. */
  datatype Reply = TransportError | Response(code: int, text: string)

  /** raise_for_status() raises for the client and server error classes. */
  predicate RaisesForStatus(code: int) {
    400 <= code < 600
  }

  /** The statuses the explicit if/elif chain names, with their exit codes. */
  const ChainCodes: map<int, (int, Reason)> := map[
    401 := (41, LoginFailed),
    402 := (42, ServiceIdInvalid),
    403 := (43, NoAssertion),
    404 := (44, NotRegistered),
    500 := (50, Misconfigured)]

  /** What a script does with a status other than 200: the full chain of
      named statuses with a catch-all code, or one code for every status. */
  datatype NonOk = FullChain(other: int) | SingleCode(code: int)

  /** failCode: the exit code of the except branch. */
  datatype CallRule = CallRule(failCode: int, nonOk: NonOk)

  /** The exit for a status other than 200 that got past raise_for_status. */
  function NonOkStatus(rule: NonOk, code: int): (st: Status)
    ensures st.Exit?
    ensures rule.FullChain? && code in ChainCodes ==> st == Exit(ChainCodes[code].0, ChainCodes[code].1)
    ensures rule.FullChain? && code !in ChainCodes ==> st == Exit(rule.other, StatusNotGranted)
    ensures rule.SingleCode? ==> st == Exit(rule.code, StatusNotGranted)
  {
    match rule
    case SingleCode(c) => Exit(c, StatusNotGranted)
    case FullChain(other) =>
      if code == 401 then Exit(41, LoginFailed)
      else if code == 402 then Exit(42, ServiceIdInvalid)
      else if code == 403 then Exit(43, NoAssertion)
      else if code == 404 then Exit(44, NotRegistered)
      else if code == 500 then Exit(50, Misconfigured)
      else Exit(other, StatusNotGranted)
  }

  /** The response text of a 200, or the end of the run. */
  function Call(rule: CallRule, reply: Reply): (r: Step<string>)
    ensures r.Next? <==> reply.Response? && reply.code == 200
    ensures r.Next? ==> r.value == reply.text
    ensures reply.TransportError? ==> r == Stop(Exit(rule.failCode, RequestFailed))
    ensures reply.Response? && RaisesForStatus(reply.code) ==> r == Stop(Exit(rule.failCode, RequestFailed))
  {
    match reply
    case TransportError => Stop(Exit(rule.failCode, RequestFailed))
    case Response(code, text) =>
      if RaisesForStatus(code) then Stop(Exit(rule.failCode, RequestFailed))
      else if code == 200 then Next(text)
      else Stop(NonOkStatus(rule.nonOk, code))
  }

  /** The reasons a call can end the run with. */
  predicate CallReason(r: Reason) {
    r == RequestFailed || r == StatusNotGranted
  }

  /** The chain is dead code: every status it names is an error status, so
      raise_for_status has already diverted it to the failure code, and a
      call never ends with one of the chain's exits. */
  lemma ChainUnreachable(rule: CallRule, reply: Reply)
    ensures Call(rule, reply).Stop? ==> Call(rule, reply).status.Exit? && CallReason(Call(rule, reply).status.reason)
    ensures reply.Response? && reply.code in ChainCodes ==> Call(rule, reply) == Stop(Exit(rule.failCode, RequestFailed))
  {
    assert forall c :: c in ChainCodes ==> RaisesForStatus(c);
  }

  /** What does reach the status comparison: only informational, success
      and redirect statuses other than 200, and codes outside 100..599. */
  lemma StatusReachesChain(rule: CallRule, code: int, text: string)
    requires code != 200 && !RaisesForStatus(code)
    ensures Call(rule, Response(code, text)) == Stop(Exit(
      match rule.nonOk case FullChain(other) => other case SingleCode(c) => c, StatusNotGranted))
  {
    assert code !in ChainCodes;
  }
}
