/**
 * The outcome classification of `run_earnings_cron` (earnings_cron.py):
 * the response of one GET to the earnings endpoint, or the exception it
 * raised, decides whether the run succeeded. The request itself is not
 * modelled; the HTTP call and `json.loads` are inputs.
 */
module Earnings {
  import opened Text
  import opened Json

  /** The notice of the hosting provider's cookie check page. */
  const CookieMarker := "Cookies are not enabled"
  /** The script the hosting provider's anti-bot page loads. */
  const ChallengeMarker := "aes.js"
  const SuccessWord := "success"
  /** A non-JSON body must be shorter than this to be read as a success notice. */
  const NoticeLimit: nat := 1000

  /** What `requests.get` gives back: a response or the kind of exception raised. */
  datatype Fetch = Response(status: int, text: string) | Timeout | ConnectionError | OtherError(reason: string)

  /** `result.get('success')` is truthy; a parsed value that is not an object has no `.get`, which fails the run. */
  predicate ReportsSuccess(v: Json) {
    v.Object? && "success" in v.fields && Truthy(v.fields["success"])
  }

  /** The if/elif chain over a response. */
  function Classify(status: int, text: string, parsed: Parsed): (ok: bool)
    ensures Contains(text, CookieMarker) ==> !ok
    ensures Contains(text, ChallengeMarker) ==> !ok
    ensures status != 200 ==> !ok
    ensures status == 200 && !Contains(text, CookieMarker) && !Contains(text, ChallengeMarker) ==>
      && (parsed.Value? ==> (ok <==> ReportsSuccess(parsed.json)))
      && (parsed.DecodeError? ==> (ok <==> |text| < NoticeLimit && Contains(Lower(text), SuccessWord)))
  {
    if Contains(text, CookieMarker) then false
    else if Contains(text, ChallengeMarker) then false
    else if status == 200 then
      match parsed
      case Value(v) => ReportsSuccess(v)
      case DecodeError(_) => |text| < NoticeLimit && Contains(Lower(text), SuccessWord)
    else false
  }

  /** `run_earnings_cron`: only a response can succeed; a timeout, a connection error or any other exception fails. */
  function RunEarningsCron(fetch: Fetch, parse: string -> Parsed): (ok: bool)
    ensures ok ==> fetch.Response? && fetch.status == 200
    ensures ok ==> !Contains(fetch.text, CookieMarker) && !Contains(fetch.text, ChallengeMarker)
    ensures fetch.Response? ==> ok == Classify(fetch.status, fetch.text, parse(fetch.text))
  {
    match fetch
    case Response(status, text) => Classify(status, text, parse(text))
    case _ => false
  }

  /** A page that carries either marker fails the run, whatever its status and body say otherwise. */
  lemma MarkersTakePrecedence(status: int, text: string, parsed: Parsed, i: nat)
    requires OccursAt(text, CookieMarker, i) || OccursAt(text, ChallengeMarker, i)
    ensures !Classify(status, text, parsed)
  {
    ContainsIff(text, CookieMarker);
    ContainsIff(text, ChallengeMarker);
  }
}
