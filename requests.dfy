/**
 * The request flow the two clients share: API-key validation in the
 * constructor, the date rewriting `search` and `headlines` apply to a copy of
 * the options, and `makeRequest`, which builds the URL, performs the GET and
 * turns the reply or the failure into a result.
 */
module Requests {
  import opened Wrappers
  import opened JavaText
  import opened Values
  import opened QueryString
  import opened Responses
  import opened Platform

  const KeyRequired: string := "API key is required"

  /**
   * The constructor's check: a null key, or one that `trim` reduces to
   * nothing, is refused; any other key is kept exactly as given.
   */
  function ValidateApiKey(apiKey: Option<string>): (r: Result<string, string>)
    ensures r.Success? <==> apiKey.Some? && exists i :: 0 <= i < |apiKey.value| && apiKey.value[i] > ' '
    ensures r.Success? ==> r.value == apiKey.value
    ensures r.Failure? ==> r.error == KeyRequired
  {
    if apiKey.None? then Failure(KeyRequired)
    else
      TrimEmptyIff(apiKey.value);
      if Trim(apiKey.value) == [] then Failure(KeyRequired) else Success(apiKey.value)
  }

  const StartDate: string := "startDate"
  const EndDate: string := "endDate"

  predicate HoldsDate(v: Value) {
    v.Prim? && v.scalar.Timestamp?
  }

  /** The value an option has after the date rewriting. */
  function NormalizedValue(key: string, v: Value, isoDate: Date -> string): Value {
    if (key == StartDate || key == EndDate) && HoldsDate(v) then Prim(Text(isoDate(v.scalar.date))) else v
  }

  /**
   * The options `search` and `headlines` send: the same keys, `startDate` and
   * `endDate` formatted when they hold a Date, every other entry unchanged.
   */
  function Normalized(options: map<string, Value>, isoDate: Date -> string): (p: map<string, Value>)
    ensures p.Keys == options.Keys
    ensures forall k :: k in options && k != StartDate && k != EndDate ==> p[k] == options[k]
    ensures forall k :: k in options && !HoldsDate(options[k]) ==> p[k] == options[k]
    ensures forall k :: k in options && (k == StartDate || k == EndDate) && HoldsDate(options[k]) ==>
              p[k] == Prim(Text(isoDate(options[k].scalar.date)))
    ensures forall k :: k in p ==> !((k == StartDate || k == EndDate) && HoldsDate(p[k]))
  {
    map k | k in options :: NormalizedValue(k, options[k], isoDate)
  }

  /** Rewriting twice changes nothing more. */
  lemma NormalizedIdempotent(options: map<string, Value>, isoDate: Date -> string)
    ensures Normalized(Normalized(options, isoDate), isoDate) == Normalized(options, isoDate)
  {
  }

  /**
   * The copy-and-put of `search` / `headlines`: a fresh map holding the
   * caller's entries, with `startDate` and then `endDate` replaced by their
   * formatted text when they hold a Date. The caller's map is a value and is
   * left as it was.
   */
  method Normalize(options: map<string, Value>, isoDate: Date -> string) returns (processed: map<string, Value>)
    ensures processed == Normalized(options, isoDate)
  {
    processed := options;
    if StartDate in options && HoldsDate(options[StartDate]) {
      processed := processed[StartDate := Prim(Text(isoDate(options[StartDate].scalar.date)))];
    }
    if EndDate in options && HoldsDate(options[EndDate]) {
      processed := processed[EndDate := Prim(Text(isoDate(options[EndDate].scalar.date)))];
    }
    assert forall k :: k in processed ==> processed[k] == NormalizedValue(k, options[k], isoDate);
  }

  /**
   * The outcome of `makeRequest(endpoint, params)`: the body of a 2xx reply;
   * otherwise a failure with a non-empty message, whose status is the
   * server's own unless the URI was rejected or the transport failed, in
   * which case it is 500 with the "Request failed: " text.
   */
  function Outcome(endpoint: string, apiKey: string, params: map<string, Value>,
                   order: seq<string>, host: Host): (r: Result<string, NewsAPIException>)
    requires forall k :: k in order ==> k in params
    ensures var url := QueryUrl(endpoint, apiKey, params, order, host.dateToString);
            var reply := host.send(url);
            && (r.Success? <==> host.parseUri(url).Valid? && reply.Reply? && IsSuccessStatus(reply.status))
            && (r.Success? ==> r.value == reply.body)
            && (r.Failure? ==> r.error.message != "")
            && (host.parseUri(url).Invalid? ==> r == Failure(RequestFailed(Some(host.parseUri(url).message))))
            && (host.parseUri(url).Valid? && reply.TransportError? ==> r == Failure(RequestFailed(reply.detail)))
            && (host.parseUri(url).Valid? && reply.Reply? && !IsSuccessStatus(reply.status) ==>
                  r == Classify(reply.status, reply.body, reply.errorBody) && r.error.statusCode == reply.status)
  {
    var url := QueryUrl(endpoint, apiKey, params, order, host.dateToString);
    match host.parseUri(url)
    case Invalid(message) => Failure(RequestFailed(Some(message)))
    case Valid =>
      match host.send(url)
      case TransportError(detail) => Failure(RequestFailed(detail))
      case Reply(status, body, errorBody) => Classify(status, body, errorBody)
  }

  /**
   * `makeRequest`: builds the URL, performs one GET, and maps the reply or
   * the failure to a result.
   */
  method MakeRequest(endpoint: string, apiKey: string, params: map<string, Value>,
                     order: seq<string>, host: Host)
    returns (r: Result<string, NewsAPIException>)
    requires IsEnumeration(order, params.Keys)
    ensures r == Outcome(endpoint, apiKey, params, order, host)
  {
    var built := BuildUrl(endpoint, apiKey, params, order, host.dateToString, host.parseUri);
    match built
    case Failure(message) =>
      r := Failure(RequestFailed(Some(message)));
    case Success(url) =>
      match host.send(url)
      case TransportError(detail) =>
        r := Failure(RequestFailed(detail));
      case Reply(status, body, errorBody) =>
        r := Classify(status, body, errorBody);
  }
}
