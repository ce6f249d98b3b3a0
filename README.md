# News API Java SDK — a verified model of its request logic

The SDK is a thin HTTP client with two variants: `com.allnewsapi.NewsAPI`,
which has search and headlines, and `com.freenewsapi.NewsAPI`, which has
search only. A client holds an API key and endpoints derived from a base URL.
For each call it does four things:

1. It copies the caller's options and formats `startDate`/`endDate` when they
   hold a `java.util.Date`.
2. It builds a URL: the endpoint, `?apikey=` and the encoded key, then one
   `&key=value` segment for each option that is not null.
3. It performs one GET.
4. It returns the body of a 2xx reply. Otherwise, for an `http` or `https`
   base URL, it throws a `NewsAPIException` that carries a status code and a
   message.

The two variants are near copies, so the shared logic is modelled once.
Each variant's class is a thin layer over it:

| module | file | what it holds |
|---|---|---|
| `UrlEncoding` | url_encoding.dfy | `URLEncoder.encode(s, UTF_8)` as a function over Unicode scalar values, a reference decoder, and the round trip |
| `JavaText` | java_text.dfy | `String.trim`, `Integer.toString`, `Boolean.toString`, and `StringJoiner` with a one-character delimiter, each with the reference it is proved against (a blank test, a numeral parser, a splitter) |
| `Values` | values.dfy | the option values (string, integer, boolean, date, list of nullable scalars, null), their `toString`, and the `StringJoiner` loop over list items |
| `QueryString` | query_string.dfy | the `StringBuilder` loop of `buildUrl`, the `new URI` check, and a reference parser of the query string |
| `Responses` | responses.dfy | `NewsAPIException`, the `getErrorMessage` table, the 2xx branch, and the "Request failed: " wrapping |
| `Platform` | platform.dfy | the host functions a request uses: `Date.toString`, `SimpleDateFormat`, `new URI`, and one GET |
| `Requests` | requests.dfy | API-key validation, the date rewriting of the options, and `makeRequest` |
| `AllNews`, `FreeNews` | all_news.dfy, free_news.dfy | `NewsAPIConfig` and the `NewsAPI` class of each variant |

The options map is a `map<string, Value>`. `search` copies it into a
`HashMap`, whose iteration order Java does not specify. So every request
also takes `order`, a sequence that lists each key once in the order the
entry set happens to be iterated. The results are proved for every such
order. Only the API key's place is fixed: it always comes first.

A Java constructor that throws becomes a static `Create` method that returns
a `Result`: its `IllegalArgumentException` becomes a `Failure` holding the
exception's message. A request's `NewsAPIException` becomes a `Failure`
holding that exception. The class's
anonymous Dafny constructor only assigns the fields, after `Create` has
checked the key. `getStatusCode()` is the `statusCode` field of the
`NewsAPIException` datatype.

Notes on the code's behaviour:
- Segments follow the HashMap's iteration order, not the order in which the
  caller inserted the options.
- An invalid URI does not surface as a separate error kind. The
  `URISyntaxException` is caught and becomes status 500 with
  "Request failed: ".
- A key is refused when `trim` leaves nothing. So a key made only of control
  characters is refused, not only an empty or space-only one.
- Only `java.util.Date` values under `startDate`/`endDate` are formatted. A
  date given as a string is sent as it is.
- A `Date` under any other key, or inside a list, is sent as its
  `Date.toString`.
- The API key is the first query parameter, but not necessarily the only
  `apikey` one. An option named `apikey` with a non-null value is appended
  as a second `apikey=...` pair. Without such an option the key appears
  exactly once.

## Model

| member | source | states |
|---|---|---|
| `UrlEncoding.Encode` | src/main/java/com/allnewsapi/NewsAPI.java:69 | every character of an encoded value is an ASCII letter or digit, one of `.-*_`, `+` or `%`, and the output is at least as long as the input |
| `UrlEncoding.EncodeChar` | src/main/java/com/allnewsapi/NewsAPI.java:88 | each character is written as one or more characters of that same alphabet |
| `UrlEncoding.EncodeHasNoDelimiters` | src/main/java/com/allnewsapi/NewsAPI.java:86 | an encoded value never contains `&`, `=`, `,` or `?`, so it cannot break up the query string |
| `UrlEncoding.DecodeEncode` | src/main/java/com/allnewsapi/NewsAPI.java:88 | decoding the encoder's output (`+` to space, `%XX` triples to UTF-8 bytes to a character) gives back exactly the input |
| `UrlEncoding.EncodeInjective` | src/main/java/com/allnewsapi/NewsAPI.java:69 | two different strings, such as two API keys, never encode to the same text |
| `UrlEncoding.Utf8RoundTrip` | src/main/java/com/allnewsapi/NewsAPI.java:86 | the UTF-8 bytes of a scalar value start with a lead byte announcing their count, continue with continuation bytes, and decode back to that value |
| `UrlEncoding.AllUnreservedEncodesToItself` | src/main/java/com/allnewsapi/NewsAPI.java:88 | text made only of letters, digits and `.-*_` is sent unchanged |
| `UrlEncoding.CommaEncoding` | src/main/java/com/allnewsapi/NewsAPI.java:86 | the comma that joins list items is sent as `%2C` |
| `UrlEncoding.CommaJoinEncoding` | src/main/java/com/allnewsapi/NewsAPI.java:80-86 | two plain words joined by a comma are sent as the first word, `%2C`, then the second |
| `JavaText.TrimStart` | src/main/java/com/allnewsapi/NewsAPI.java:50 | the result is a suffix of the input that starts with a character above U+0020, and everything removed is at or below U+0020 |
| `JavaText.TrimEnd` | src/main/java/com/allnewsapi/NewsAPI.java:50 | the result is a prefix of the input that ends with a character above U+0020, and everything removed is at or below U+0020 |
| `JavaText.Trim` | src/main/java/com/allnewsapi/NewsAPI.java:50 | `trim()` returns a contiguous slice of the key that starts and ends with a character above U+0020, and every character outside that slice is at or below U+0020 |
| `JavaText.TrimEmptyIff` | src/main/java/com/allnewsapi/NewsAPI.java:50 | `trim()` gives the empty string exactly when every character of the key is at or below U+0020 |
| `JavaText.NatToString` | src/main/java/com/freenewsapi/NewsAPI.java:85 | the decimal text of a natural number is a non-empty run of digits that starts with `0` only for zero, and zero is exactly `0` |
| `JavaText.IntToString` | src/main/java/com/allnewsapi/NewsAPI.java:83-88 | the text of an integer is a minus sign exactly for a negative value, followed by a non-empty run of digits without a leading zero unless the value is zero, which is exactly `0` |
| `JavaText.BoolToString` | src/main/java/com/allnewsapi/NewsAPI.java:83-88 | the text of a boolean reads back as that boolean |
| `JavaText.IntToStringRoundTrip` | src/main/java/com/freenewsapi/NewsAPI.java:85 | the text sent for an integer option reads back as that integer, including negative ones |
| `JavaText.SplitOmitsSep` | src/main/java/com/allnewsapi/NewsAPI.java:80 | no piece the reference splitter returns contains the delimiter |
| `JavaText.SplitJoin` | src/main/java/com/allnewsapi/NewsAPI.java:80-85 | the joined text splits back into its parts when at least one part was added and none contains the delimiter |
| `JavaText.JoinSplit` | src/main/java/com/allnewsapi/NewsAPI.java:80-85 | the joined pieces of any text give that text back, so `StringJoiner` and the splitter are inverse |
| `Values.PresentTexts` | src/main/java/com/allnewsapi/NewsAPI.java:81-85 | at most one text per list item, and no texts exactly when every item is null |
| `Values.ScalarText` | src/main/java/com/allnewsapi/NewsAPI.java:83-88 | a string is sent as itself, an integer as text that reads back as that integer, a boolean as text that reads back as that boolean, and a date as its `Date.toString` |
| `Values.ValueText` | src/main/java/com/allnewsapi/NewsAPI.java:78-88 | a scalar is sent as its `toString`; a list as the texts of its non-null items joined by commas, which split back into exactly those texts when one is present and none contains a comma |
| `Values.JoinItems` | src/main/java/com/allnewsapi/NewsAPI.java:79-86 | the `StringJoiner` loop yields the `toString`s of the non-null items, in list order, separated by single commas |
| `Values.JoinedSplits` | src/main/java/com/freenewsapi/NewsAPI.java:75-83 | a list value with at least one non-null item and no comma in any item splits back into exactly those items' texts |
| `Values.TextExamples` | src/main/java/com/freenewsapi/NewsAPI.java:78-85 | the integer 10 is sent as `10`, -7 as `-7`, `true` as `true`, and the list [a, null, 3] as `a,3` |
| `Values.TwoItemJoin` | src/main/java/com/freenewsapi/NewsAPI.java:77-82 | two present items are joined with exactly one comma between them |
| `QueryString.BuildUrl` | src/main/java/com/allnewsapi/NewsAPI.java:67-94 | the `StringBuilder` loop assembles the endpoint, `?apikey=` and the encoded key, then one segment per non-null option in iteration order; it returns that text when `new URI` accepts it and the `URISyntaxException`'s message otherwise; a returned URL always begins with the endpoint, `?apikey=` and the encoded key |
| `QueryString.QueryRoundTrip` | src/main/java/com/allnewsapi/NewsAPI.java:68-91 | the URL is the endpoint and `?`, followed by a query string that reads back as the API key under `apikey`, then exactly the non-null options in iteration order, each with the text that was encoded for it |
| `QueryString.SegmentCount` | src/main/java/com/allnewsapi/NewsAPI.java:71-76 | after the API key, the query string carries exactly as many pairs as the map has non-null values, whatever the iteration order |
| `QueryString.PairsKeysListed` | src/main/java/com/allnewsapi/NewsAPI.java:71-76 | every pair after the API key belongs to a listed option whose value is not null |
| `QueryString.ApiKeyOnce` | src/main/java/com/allnewsapi/NewsAPI.java:68-76 | when no option named `apikey` holds a value, the parsed query has the API key first and no other `apikey` pair |
| `QueryString.TwoItemListValue` | src/main/java/com/allnewsapi/NewsAPI.java:78-86 | the list [environment, science] (any two plain words) is sent as one value, `environment%2Cscience` |
| `QueryString.Segments` | src/main/java/com/allnewsapi/NewsAPI.java:71-91 | the text appended after the API key is empty exactly when every value is null, and otherwise starts with `&` |
| `QueryString.QueryUrl` | src/main/java/com/allnewsapi/NewsAPI.java:68-91 | the assembled URL starts with the endpoint, `?apikey=` and the encoded key; it ends there exactly when every option value is null, and otherwise the next character is `&` |
| `Responses.ErrorMessage` | src/main/java/com/allnewsapi/NewsAPI.java:151-161 | the six known codes get their fixed texts, and every other code gets "Unknown error occurred", which none of the six uses; the message is never empty |
| `Responses.Classify` | src/main/java/com/allnewsapi/NewsAPI.java:115-119 | success exactly for a status in [200, 300), with the body unchanged; otherwise a failure with that same status, whose message is the error body when it is non-empty and the table text otherwise |
| `Responses.RequestFailed` | src/main/java/com/allnewsapi/NewsAPI.java:121-122 | an I/O or URI failure becomes status 500 with "Request failed: " followed by the exception's message, or `null` when it has none |
| `Responses.EmptyErrorBodyExample` | src/main/java/com/freenewsapi/NewsAPI.java:111-115 | a 429 with an empty error body fails with status 429 and the "Too Many Requests …" text; a 200 returns its body `{"ok":true}` unchanged; an unknown code gets the generic text |
| `Requests.ValidateApiKey` | src/main/java/com/allnewsapi/NewsAPI.java:50-54 | a key is accepted exactly when it is non-null and has a character above U+0020; it is then kept exactly as given; otherwise the error is "API key is required" |
| `Requests.Normalized` | src/main/java/com/allnewsapi/NewsAPI.java:171-181 | the same keys as the caller's options; `startDate`/`endDate` holding a Date become its formatted text; every other entry keeps its value; no date key holds a Date afterwards |
| `Requests.NormalizedIdempotent` | src/main/java/com/allnewsapi/NewsAPI.java:194-204 | applying the date rewriting a second time changes nothing |
| `Requests.Normalize` | src/main/java/com/freenewsapi/NewsAPI.java:167-177 | the copy followed by the two conditional `put`s yields exactly the rewritten options; the caller's map is a value and is untouched |
| `Requests.Outcome` | src/main/java/com/allnewsapi/NewsAPI.java:103-128 | a request succeeds exactly when the URI is valid and the reply has a 2xx status, and it then returns the body; every failure has a non-empty message; URI and transport failures are status 500 "Request failed: " errors; any other status is classified by the `getErrorMessage` table (`Classify`) and carries the server's own status |
| `Requests.MakeRequest` | src/main/java/com/freenewsapi/NewsAPI.java:99-124 | builds the URL, performs the exchange, and yields exactly `Outcome` for the same inputs |
| `AllNews.NewsAPIConfig.constructor` | src/main/java/com/allnewsapi/NewsAPI.java:218-220 | the default base URL is `https://api.allnewsapi.com` |
| `AllNews.NewsAPIConfig.SetBaseUrl` | src/main/java/com/allnewsapi/NewsAPI.java:227-230 | sets the base URL and returns the same config object |
| `AllNews.NewsAPI.constructor` | src/main/java/com/allnewsapi/NewsAPI.java:54-57 | stores the key and base URL and derives `baseUrl + "/v1/search"` and `baseUrl + "/v1/headlines"` |
| `AllNews.NewsAPI.Create` | src/main/java/com/allnewsapi/NewsAPI.java:49-58 | fails with "API key is required" exactly when the key is null or trim-empty; otherwise a new client with the key unchanged and both endpoints derived from the config's base URL |
| `AllNews.NewsAPI.CreateDefault` | src/main/java/com/allnewsapi/NewsAPI.java:40-42 | fails with "API key is required" exactly when the key is null or trim-empty; otherwise a new client with endpoints under `https://api.allnewsapi.com` |
| `AllNews.NewsAPI.Search` | src/main/java/com/allnewsapi/NewsAPI.java:169-184 | the outcome of a request to the search endpoint with the date-rewritten options |
| `AllNews.NewsAPI.Headlines` | src/main/java/com/allnewsapi/NewsAPI.java:192-207 | the outcome of a request to the headlines endpoint with the date-rewritten options |
| `FreeNews.NewsAPIConfig.constructor` | src/main/java/com/freenewsapi/NewsAPI.java:191-193 | the default base URL is `https://api.freenewsapi.com` |
| `FreeNews.NewsAPIConfig.SetBaseUrl` | src/main/java/com/freenewsapi/NewsAPI.java:200-203 | sets the base URL and returns the same config object |
| `FreeNews.NewsAPI.constructor` | src/main/java/com/freenewsapi/NewsAPI.java:53-55 | stores the key and base URL and derives `baseUrl + "/v1/search"` |
| `FreeNews.NewsAPI.Create` | src/main/java/com/freenewsapi/NewsAPI.java:48-56 | fails with "API key is required" exactly when the key is null or trim-empty; otherwise a new client with the key unchanged and the search endpoint derived from the config's base URL |
| `FreeNews.NewsAPI.CreateDefault` | src/main/java/com/freenewsapi/NewsAPI.java:39-41 | fails with "API key is required" exactly when the key is null or trim-empty; otherwise a new client with the search endpoint under `https://api.freenewsapi.com` |
| `FreeNews.NewsAPI.Search` | src/main/java/com/freenewsapi/NewsAPI.java:165-180 | the outcome of `buildUrl(params)` and `makeRequest` on the search endpoint with the date-rewritten options |

## Left out

- The network and stream I/O are not modelled: `HttpURLConnection`, the 5000 ms timeouts, `disconnect` in `finally`, and `readResponse` over a `Scanner`. The reply is an input, `Host.send(url)`. It gives the status, the body and the error body (`""` for a null stream), or an I/O failure with its possibly-null message. A `MalformedURLException` from `new URL` is one of those I/O failures.
- A base URL whose scheme is not `http` or `https` is not modelled. `setBaseUrl` accepts any string, but `new URL(url).openConnection()` for, say, `file:` or `ftp:` is not an `HttpURLConnection`. The cast then throws a `ClassCastException`, which the `catch` of `IOException | URISyntaxException` does not handle, so it escapes `search` and `headlines`. `Host.send` and `Requests.Outcome` assume an HTTP connection and cannot express this outcome.
- `new URI(text)` is a foreign parser. It is the input `Host.parseUri`, and when it rejects the text the request fails with status 500 and "Request failed: ".
- `SimpleDateFormat("yyyy-MM-dd").format` depends on the default time zone, so it is the input `Host.isoDate`. The model makes no claim about which day it prints. `Date.toString` is likewise the input `Host.dateToString`.
- HashMap iteration order is the `order` input. Nothing beyond "API key first" is claimed about the order of the segments.
- Float and double values, nested lists and arbitrary objects as option values are not modelled. Integers are unbounded; the Java width does not change their decimal text.
- `UrlEncoding.Encode` covers only well-formed strings. A Dafny `char` is a Unicode scalar value, so a Java string holding an unpaired surrogate, which `URLEncoder` writes as `%3F`, cannot be expressed.
- A null `config` and a null base URL are not modelled. Java would throw a `NullPointerException` for the first and build endpoints starting with `null` for the second.
- A null `options` map is not modelled. `new HashMap<>(options)` throws a `NullPointerException` there, which `search` and `headlines` do not catch; a Dafny map cannot be null.
- A null key in the options map is not modelled. `HashMap` allows one, and `buildUrl` would append it as `&null=...`; keys here are strings, which cannot be null.
- `QueryString.QueryRoundTrip` reads the query string back only when no option key contains `&` or `=`. Keys are appended unencoded, so such a key would change how the query string splits.
- The example programs `example/HeadlinesExample.java` and `example/FreeNewsAPIExample.java` are console demos that call the network. They are not part of this model.
