/**
 * The error side of `makeRequest`: the exception it throws, the status-code
 * message table of `getErrorMessage`, the 2xx branch, and the wrapping of
 * transport and URI failures.
 */
module Responses {
  import opened Wrappers

  /**
   * NewsAPIException: an HTTP status code and a message. `getStatusCode()`
   * is the `statusCode` field, the status the exception was built with.
   */
  datatype NewsAPIException = NewsAPIException(statusCode: int, message: string)

  /** What one GET yields: a status and the two bodies, or an I/O failure. */
  datatype Exchange =
    | Reply(status: int, body: string, errorBody: string)
    | TransportError(detail: Option<string>)

  const UnknownError: string := "Unknown error occurred"

  const ErrorTable: map<int, string> := map[
    400 := "Bad Request - Your request is invalid",
    401 := "Unauthorized - Invalid API Key or Account status is inactive",
    403 := "Forbidden - Your account is not authorized to make that request",
    429 := "Too Many Requests - You have reached your daily request limit. The next reset is at 00:00 UTC",
    500 := "Internal Server Error - We had a problem with our server. Please try again later",
    503 := "Service Unavailable - We're temporarily offline for maintenance. Please try again later"
  ]

  /**
   * `getErrorMessage`: the table text for the six known codes, and the
   * generic text, which no known code uses, for every other code.
   */
  function ErrorMessage(statusCode: int): (m: string)
    ensures m != ""
    ensures statusCode in {400, 401, 403, 429, 500, 503} <==> m != UnknownError
    ensures statusCode in ErrorTable ==> m == ErrorTable[statusCode]
  {
    if statusCode in ErrorTable then ErrorTable[statusCode] else UnknownError
  }

  predicate IsSuccessStatus(status: int) {
    200 <= status < 300
  }

  /**
   * The status branch of `makeRequest`: a 2xx status returns the body as it
   * is; any other status fails with that status and a message that is the
   * error body when there is one and the table text otherwise, so never empty.
   */
  function Classify(status: int, body: string, errorBody: string): (r: Result<string, NewsAPIException>)
    ensures r.Success? <==> IsSuccessStatus(status)
    ensures r.Success? ==> r.value == body
    ensures r.Failure? ==> r.error.statusCode == status && r.error.message != ""
    ensures r.Failure? && errorBody != "" ==> r.error.message == errorBody
    ensures r.Failure? && errorBody == "" ==> r.error.message == ErrorMessage(status)
  {
    if IsSuccessStatus(status) then Success(body)
    else Failure(NewsAPIException(status, if errorBody == "" then ErrorMessage(status) else errorBody))
  }

  const RequestFailedPrefix: string := "Request failed: "

  /** Java's string concatenation of a possibly-null message. */
  function NullableText(s: Option<string>): string {
    if s.Some? then s.value else "null"
  }

  /**
   * The `catch` of `makeRequest`: an IOException or URISyntaxException
   * becomes status 500 with "Request failed: " and the exception's message.
   */
  function RequestFailed(detail: Option<string>): (e: NewsAPIException)
    ensures e.statusCode == 500
    ensures |e.message| >= |RequestFailedPrefix|
    ensures e.message[..|RequestFailedPrefix|] == RequestFailedPrefix
    ensures e.message[|RequestFailedPrefix|..] == NullableText(detail)
  {
    NewsAPIException(500, RequestFailedPrefix + NullableText(detail))
  }

  /** The reply the API gives for a known code with an empty error body carries the table text. */
  lemma EmptyErrorBodyExample()
    ensures Classify(429, "", "") == Failure(NewsAPIException(429,
      "Too Many Requests - You have reached your daily request limit. The next reset is at 00:00 UTC"))
    ensures Classify(200, "{\"ok\":true}", "") == Success("{\"ok\":true}")
    ensures Classify(418, "", "") == Failure(NewsAPIException(418, UnknownError))
  {
  }
}
