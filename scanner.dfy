/**
 * One health probe: a GET of the status endpoint, timed with a
 * monotonic clock and bounded by an abort signal. The request itself is
 * not modelled; what matters is how its outcome becomes a result or an
 * exception.
 */
module Scanner {
  import opened Wrappers
  import opened Dates
  import opened Records

  /** The abort signal's delay in milliseconds. */
  const TimeoutMs := 5000

  /** Why the awaited fetch rejected. */
  datatype FetchError = NetworkError | TimeoutAbort

  /**
   * What the server did with the request: it answered with an HTTP
   * status (None for an answer that is not a response object), or the
   * transport failed.
   */
  datatype Answer = Answered(response: Option<int>) | TransportFailed

  /** How the awaited `fetch` settled. */
  datatype FetchOutcome = Resolved(response: Option<int>) | Rejected(error: FetchError)

  /**
   * The fetch with its abort signal: an answer that has not come within
   * `TimeoutMs` of the start is abandoned with the abort reason, and a
   * transport failure before that rejects with the network error.
   */
  function Settle(answer: Answer, answeredAfterMs: real): (o: FetchOutcome)
    ensures answeredAfterMs >= TimeoutMs as real ==> o == Rejected(TimeoutAbort)
    ensures o.Resolved? <==> answer.Answered? && answeredAfterMs < TimeoutMs as real
    ensures o.Resolved? ==> o.response == answer.response
  {
    if answeredAfterMs >= TimeoutMs as real then Rejected(TimeoutAbort)
    else match answer
      case Answered(response) => Resolved(response)
      case TransportFailed => Rejected(NetworkError)
  }

  /** `Math.round`: the nearest integer, halves rounded up. */
  function Round(x: real): (n: int)
    ensures x - 0.5 < n as real <= x + 0.5
  {
    (x + 0.5).Floor
  }

  /**
   * `checkStatus`: the elapsed time between the two clock readings,
   * rounded, and a status that is true only for HTTP 200. A rejected
   * fetch is rethrown, here as the error value.
   */
  function CheckStatus(outcome: FetchOutcome, startMs: real, endMs: real, now: Time): (r: Result<Data, FetchError>)
    ensures r.Err? <==> outcome.Rejected?
    ensures r.Err? ==> r.error == outcome.error
    ensures r.Ok? ==> (IsUp(r.value.status) <==> outcome.response == Some(200))
    ensures r.Ok? ==> r.value.status.Flag?
    ensures r.Ok? ==> r.value.timestamp == Some(now) && r.value.statusCode.None?
    ensures r.Ok? ==> endMs - startMs - 0.5 < r.value.responseTimeMs as real <= endMs - startMs + 0.5
  {
    match outcome
    case Rejected(e) => Err(e)
    case Resolved(response) =>
      var responseTimeMs := Round(endMs - startMs);
      if response.None? || response.value != 200 then
        Ok(Data(Flag(false), Some(now), responseTimeMs, None))
      else
        Ok(Data(Flag(true), Some(now), responseTimeMs, None))
  }

  /**
   * The latency is taken before the status is looked at: two probes
   * that resolve with the same timings report the same latency, whatever
   * their HTTP statuses.
   */
  lemma LatencyIndependentOfStatus(a: Option<int>, b: Option<int>, startMs: real, endMs: real, now: Time)
    ensures CheckStatus(Resolved(a), startMs, endMs, now).value.responseTimeMs
         == CheckStatus(Resolved(b), startMs, endMs, now).value.responseTimeMs
  {
  }

  /**
   * Every status other than exactly 200, the other 2xx codes included,
   * is reported as down rather than thrown.
   */
  lemma NonOkIsDown(code: int, startMs: real, endMs: real, now: Time)
    requires code != 200
    ensures CheckStatus(Resolved(Some(code)), startMs, endMs, now).Ok?
    ensures IsDown(CheckStatus(Resolved(Some(code)), startMs, endMs, now).value.status)
  {
  }

  /**
   * A probe answered before the deadline, with the second clock reading
   * taken when the answer settles, records a latency between 0 and the
   * timeout.
   */
  lemma AnsweredLatencyBounded(response: Option<int>, answeredAfterMs: real, startMs: real, now: Time)
    requires 0.0 <= answeredAfterMs < TimeoutMs as real
    ensures CheckStatus(Settle(Answered(response), answeredAfterMs), startMs, startMs + answeredAfterMs, now).Ok?
    ensures var d := CheckStatus(Settle(Answered(response), answeredAfterMs), startMs, startMs + answeredAfterMs, now).value;
      0 <= d.responseTimeMs <= TimeoutMs
  {
  }

  /** A timed-out request is thrown, never reported as down. */
  lemma TimeoutIsThrown(answer: Answer, answeredAfterMs: real, startMs: real, endMs: real, now: Time)
    requires answeredAfterMs >= TimeoutMs as real
    ensures CheckStatus(Settle(answer, answeredAfterMs), startMs, endMs, now) == Err(TimeoutAbort)
  {
  }
}
