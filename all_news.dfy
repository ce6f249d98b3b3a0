/**
 * com.allnewsapi.NewsAPI: a client holding an API key and the search and
 * headlines endpoints derived from a configurable base URL.
 */
module AllNews {
  import opened Wrappers
  import opened Values
  import opened Responses
  import opened Platform
  import QueryString
  import Requests

  const DefaultBaseUrl: string := "https://api.allnewsapi.com"
  const SearchPath: string := "/v1/search"
  const HeadlinesPath: string := "/v1/headlines"

  /** NewsAPI.NewsAPIConfig: a mutable holder of the base URL. */
  class NewsAPIConfig {
    var baseUrl: string

    constructor ()
      ensures baseUrl == DefaultBaseUrl
    {
      baseUrl := DefaultBaseUrl;
    }

    /** Sets the base URL and returns the same config, for chaining. */
    method SetBaseUrl(url: string) returns (self: NewsAPIConfig)
      modifies this
      ensures baseUrl == url && self == this
    {
      baseUrl := url;
      self := this;
    }
  }

  class NewsAPI {
    const apiKey: string
    const baseUrl: string
    const searchEndpoint: string
    const headlinesEndpoint: string

    /** What construction establishes; the fields are never reassigned. */
    predicate Valid()
    {
      && Requests.ValidateApiKey(Some(apiKey)) == Success(apiKey)
      && searchEndpoint == baseUrl + SearchPath
      && headlinesEndpoint == baseUrl + HeadlinesPath
    }

    /** The field assignments, once the key has been accepted. */
    constructor (apiKey: string, baseUrl: string)
      requires Requests.ValidateApiKey(Some(apiKey)).Success?
      ensures Valid() && this.apiKey == apiKey && this.baseUrl == baseUrl
    {
      this.apiKey := apiKey;
      this.baseUrl := baseUrl;
      this.searchEndpoint := baseUrl + SearchPath;
      this.headlinesEndpoint := baseUrl + HeadlinesPath;
    }

    /**
     * `new NewsAPI(apiKey, config)`: refuses a null or blank key with
     * "API key is required"; otherwise keeps the key as given and derives both
     * endpoints from the config's base URL.
     */
    static method Create(apiKey: Option<string>, config: NewsAPIConfig) returns (r: Result<NewsAPI, string>)
      ensures r.Failure? <==> Requests.ValidateApiKey(apiKey).Failure?
      ensures r.Failure? ==> r.error == Requests.KeyRequired
      ensures r.Success? ==>
        && fresh(r.value) && r.value.Valid()
        && r.value.apiKey == apiKey.value
        && r.value.baseUrl == config.baseUrl
        && r.value.searchEndpoint == config.baseUrl + "/v1/search"
        && r.value.headlinesEndpoint == config.baseUrl + "/v1/headlines"
    {
      match Requests.ValidateApiKey(apiKey)
      case Failure(message) =>
        r := Failure(message);
      case Success(key) =>
        var client := new NewsAPI(key, config.baseUrl);
        r := Success(client);
    }

    /** `new NewsAPI(apiKey)`: the same, with the default base URL. */
    static method CreateDefault(apiKey: Option<string>) returns (r: Result<NewsAPI, string>)
      ensures r.Failure? <==> Requests.ValidateApiKey(apiKey).Failure?
      ensures r.Failure? ==> r.error == Requests.KeyRequired
      ensures r.Success? ==>
        && fresh(r.value) && r.value.Valid()
        && r.value.apiKey == apiKey.value
        && r.value.baseUrl == DefaultBaseUrl
        && r.value.searchEndpoint == DefaultBaseUrl + SearchPath
        && r.value.headlinesEndpoint == DefaultBaseUrl + HeadlinesPath
    {
      var config := new NewsAPIConfig();
      r := Create(apiKey, config);
    }

    /**
     * `search(options)`: the request to the search endpoint with the options
     * after date rewriting, iterated in `order`.
     */
    method Search(options: map<string, Value>, order: seq<string>, host: Host)
      returns (r: Result<string, NewsAPIException>)
      requires QueryString.IsEnumeration(order, options.Keys)
      ensures r == Requests.Outcome(searchEndpoint, apiKey, Requests.Normalized(options, host.isoDate), order, host)
    {
      var processed := Requests.Normalize(options, host.isoDate);
      r := Requests.MakeRequest(searchEndpoint, apiKey, processed, order, host);
    }

    /** `headlines(options)`: the same flow against the headlines endpoint. */
    method Headlines(options: map<string, Value>, order: seq<string>, host: Host)
      returns (r: Result<string, NewsAPIException>)
      requires QueryString.IsEnumeration(order, options.Keys)
      ensures r == Requests.Outcome(headlinesEndpoint, apiKey, Requests.Normalized(options, host.isoDate), order, host)
    {
      var processed := Requests.Normalize(options, host.isoDate);
      r := Requests.MakeRequest(headlinesEndpoint, apiKey, processed, order, host);
    }
  }
}
