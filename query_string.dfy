/**
 * `buildUrl`: the endpoint, then `?apikey=` and the encoded API key, then one
 * `&key=value` segment per non-null option, the value form-encoded and the
 * key appended as it is. The options come from a HashMap, so the order of the
 * segments is whatever order its entry set is iterated in: `order` lists the
 * keys in that order, and nothing here depends on which order it is.
 *
 * The partner of the builder is a reference parser of the query string; the
 * round trip below says the URL carries the API key first and then exactly
 * the non-null options, each with its own text.
 */
module QueryString {
  import opened Wrappers
  import opened JavaText
  import opened UrlEncoding
  import opened Values

  /**
   * What `new URI(url)` makes of the assembled text: accepted, or rejected
   * with the URISyntaxException's `getMessage()` (its reason, the index and
   * the input).
   */
  datatype UriVerdict = Valid | Invalid(message: string)

  /** `order` lists every key of the map exactly once. */
  predicate IsEnumeration(order: seq<string>, keys: set<string>) {
    && (forall i, j :: 0 <= i < j < |order| ==> order[i] != order[j])
    && (forall k :: k in order ==> k in keys)
    && (forall k :: k in keys ==> k in order)
  }

  /** The keys whose value is not null. */
  function NonNullKeys(params: map<string, Value>): set<string> {
    set k | k in params && !params[k].Null?
  }

  function EncodedValue(v: Value, dateText: Date -> string): string
    requires !v.Null?
  {
    Encode(ValueText(v, dateText))
  }

  /** What one entry adds to the URL: nothing when its value is null. */
  function Segment(key: string, v: Value, dateText: Date -> string): string {
    if v.Null? then "" else "&" + key + "=" + EncodedValue(v, dateText)
  }

  /** The segments of the entries listed by `order`, in that order. */
  function Segments(params: map<string, Value>, order: seq<string>, dateText: Date -> string): (r: string)
    requires forall k :: k in order ==> k in params
    ensures r == "" <==> forall k :: k in order ==> params[k].Null?
    ensures r != "" ==> r[0] == '&'
  {
    if order == [] then ""
    else
      var init, key := order[..|order| - 1], order[|order| - 1];
      assert forall k :: k in order <==> k in init || k == key by {
        assert order == init + [key];
      }
      Segments(params, init, dateText) + Segment(key, params[key], dateText)
  }

  function KeyPrefix(endpoint: string, apiKey: string): string {
    endpoint + "?apikey=" + Encode(apiKey)
  }

  /** The text `buildUrl` assembles before handing it to `new URI`. */
  function QueryUrl(endpoint: string, apiKey: string, params: map<string, Value>,
                    order: seq<string>, dateText: Date -> string): (url: string)
    requires forall k :: k in order ==> k in params
    ensures var n := |KeyPrefix(endpoint, apiKey)|;
            && n <= |url| && url[..n] == KeyPrefix(endpoint, apiKey)
            && (n == |url| <==> forall k :: k in order ==> params[k].Null?)
            && (n < |url| ==> url[n] == '&')
  {
    KeyPrefix(endpoint, apiKey) + Segments(params, order, dateText)
  }

  /**
   * The StringBuilder loop of `buildUrl`, followed by the `new URI` check:
   * the URL on success, the exception's message when the text is rejected.
   */
  method BuildUrl(endpoint: string, apiKey: string, params: map<string, Value>,
                  order: seq<string>, dateText: Date -> string,
                  parseUri: string -> UriVerdict)
    returns (r: Result<string, string>)
    requires IsEnumeration(order, params.Keys)
    ensures var url := QueryUrl(endpoint, apiKey, params, order, dateText);
            r == if parseUri(url).Valid? then Success(url) else Failure(parseUri(url).message)
    ensures r.Success? ==> r.value[..|KeyPrefix(endpoint, apiKey)|] == KeyPrefix(endpoint, apiKey)
  {
    var url := endpoint + "?apikey=" + Encode(apiKey);
    var i := 0;
    SegmentsStep(KeyPrefix(endpoint, apiKey), params, order, 0, dateText);
    while i < |order|
      invariant 0 <= i <= |order|
      invariant url == KeyPrefix(endpoint, apiKey) + Segments(params, order[..i], dateText)
    {
      var key := order[i];
      var value := params[key];
      SegmentsStep(KeyPrefix(endpoint, apiKey), params, order, i + 1, dateText);
      assert order[..i + 1][..i] == order[..i];
      if value != Null {
        url := url + "&" + key + "=";
        var text;
        if value.List? {
          text := JoinItems(value.items, dateText);
        } else {
          text := ScalarText(value.scalar, dateText);
        }
        assert text == ValueText(value, dateText);
        url := url + Encode(text);
      }
      i := i + 1;
    }
    assert order[..i] == order;
    PrefixOfConcat(KeyPrefix(endpoint, apiKey), Segments(params, order, dateText));
    match parseUri(url)
    case Valid => r := Success(url);
    case Invalid(message) => r := Failure(message);
  }

  /** What one turn of the loop in BuildUrl appends. */
  lemma SegmentsStep(prefix: string, params: map<string, Value>, order: seq<string>, n: nat,
                     dateText: Date -> string)
    requires forall k :: k in order ==> k in params
    requires n <= |order|
    ensures n == 0 ==> prefix + Segments(params, order[..n], dateText) == prefix
    ensures n > 0 ==>
      var key, value := order[n - 1], params[order[n - 1]];
      var done := prefix + Segments(params, order[..n - 1], dateText);
      && (value.Null? ==> prefix + Segments(params, order[..n], dateText) == done)
      && (!value.Null? ==> prefix + Segments(params, order[..n], dateText)
                           == done + "&" + key + "=" + Encode(ValueText(value, dateText)))
  {
    if n == 0 {
      assert order[..n] == [];
      assert prefix + "" == prefix;
    } else {
      var key, value := order[n - 1], params[order[n - 1]];
      var before := Segments(params, order[..n - 1], dateText);
      var seg := Segment(key, value, dateText);
      SegmentsSnoc(params, order, n, dateText);
      StringAssoc(prefix, before, seg);
      if value.Null? {
        assert seg == "";
        assert (prefix + before) + "" == prefix + before;
      } else {
        var e := Encode(ValueText(value, dateText));
        assert seg == "&" + key + "=" + e;
        Append4(prefix + before, "&", key, "=", e);
      }
    }
  }

  lemma SegmentsSnoc(params: map<string, Value>, order: seq<string>, n: nat, dateText: Date -> string)
    requires forall k :: k in order ==> k in params
    requires 0 < n <= |order|
    ensures Segments(params, order[..n], dateText)
         == Segments(params, order[..n - 1], dateText) + Segment(order[n - 1], params[order[n - 1]], dateText)
  {
    assert order[..n][..n - 1] == order[..n - 1];
  }

  lemma PrefixOfConcat(a: string, b: string)
    ensures (a + b)[..|a|] == a
  {
  }

  lemma Append4(a: string, b: string, c: string, d: string, e: string)
    ensures a + b + c + d + e == a + (b + c + d + e)
  {
  }

  /**
   * A list value travels as one value whose commas are encoded: the list
   * [environment, science] is sent as `environment%2Cscience`.
   */
  lemma TwoItemListValue(a: string, b: string, dateText: Date -> string)
    requires AllUnreserved(a) && AllUnreserved(b)
    ensures EncodedValue(List([Some(Text(a)), Some(Text(b))]), dateText) == a + "%2C" + b
  {
    TwoItemJoin(a, b, dateText);
    CommaJoinEncoding(a, b);
  }

  // ---------------------------------------------------------------------
  // Reference parser of the query string

  /** The keys and texts the query string is meant to carry after the API key. */
  function Pairs(params: map<string, Value>, order: seq<string>, dateText: Date -> string): seq<(string, string)>
    requires forall k :: k in order ==> k in params
  {
    if order == [] then []
    else
      var key := order[|order| - 1];
      var v := params[key];
      Pairs(params, order[..|order| - 1], dateText) + (if v.Null? then [] else [(key, ValueText(v, dateText))])
  }

  /** Reads one `key=value` piece, decoding the value. */
  function ParsePair(piece: string): Option<(string, string)> {
    var kv := Split('=', piece);
    if |kv| != 2 then None
    else match Decode(kv[1])
      case None => None
      case Some(v) => Some((kv[0], v))
  }

  function ParsePairs(pieces: seq<string>): Option<seq<(string, string)>> {
    if pieces == [] then Some([])
    else match ParsePairs(pieces[..|pieces| - 1])
      case None => None
      case Some(init) =>
        match ParsePair(pieces[|pieces| - 1])
        case None => None
        case Some(p) => Some(init + [p])
  }

  /** Reads the part of a URL after `?` as `&`-separated `key=value` pairs. */
  function ParseQuery(query: string): Option<seq<(string, string)>> {
    ParsePairs(Split('&', query))
  }

  /** A key that does not itself contain a query-string delimiter. */
  predicate IsPlainKey(key: string) {
    '&' !in key && '=' !in key
  }

  function RawPair(key: string, text: string): string {
    key + "=" + Encode(text)
  }

  function RawPairs(params: map<string, Value>, order: seq<string>, dateText: Date -> string): seq<string>
    requires forall k :: k in order ==> k in params
  {
    if order == [] then []
    else
      var key := order[|order| - 1];
      var v := params[key];
      RawPairs(params, order[..|order| - 1], dateText) + (if v.Null? then [] else [RawPair(key, ValueText(v, dateText))])
  }

  lemma {:induction false} SegmentsAreJoinedPairs(head: string, params: map<string, Value>,
                                                  order: seq<string>, dateText: Date -> string)
    requires forall k :: k in order ==> k in params
    ensures head + Segments(params, order, dateText)
         == JoinWith('&', [head] + RawPairs(params, order, dateText))
  {
    if order == [] {
      assert head + "" == head;
      assert [head] + [] == [head];
    } else {
      SegmentsAreJoinedPairs(head, params, order[..|order| - 1], dateText);
      SegmentsAreJoinedPairsStep(head, params, order, dateText);
    }
  }

  lemma SegmentsAreJoinedPairsStep(head: string, params: map<string, Value>,
                                   order: seq<string>, dateText: Date -> string)
    requires order != []
    requires forall k :: k in order ==> k in params
    requires head + Segments(params, order[..|order| - 1], dateText)
          == JoinWith('&', [head] + RawPairs(params, order[..|order| - 1], dateText))
    ensures head + Segments(params, order, dateText)
         == JoinWith('&', [head] + RawPairs(params, order, dateText))
  {
    var init := order[..|order| - 1];
    var key, v := order[|order| - 1], params[order[|order| - 1]];
    var seg := Segments(params, init, dateText);
    var raw := RawPairs(params, init, dateText);
    var last := Segment(key, v, dateText);
    assert Segments(params, order, dateText) == seg + last;
    StringAssoc(head, seg, last);
    if v.Null? {
      assert last == "";
      assert (head + seg) + "" == head + seg;
      assert RawPairs(params, order, dateText) == raw + [];
      assert raw + [] == raw;
    } else {
      var e := Encode(ValueText(v, dateText));
      var x := RawPair(key, ValueText(v, dateText));
      assert last == "&" + key + "=" + e;
      assert RawPairs(params, order, dateText) == raw + [x];
      ConsAssoc(head, raw, [x]);
      JoinWithSnoc('&', [head] + raw, x);
      Append3("&", key, "=", e);
    }
  }

  lemma JoinWithSnoc(sep: char, xs: seq<string>, x: string)
    requires |xs| >= 1
    ensures JoinWith(sep, xs + [x]) == JoinWith(sep, xs) + ([sep] + x)
  {
    assert (xs + [x])[..|xs|] == xs;
    StringAssoc(JoinWith(sep, xs), [sep], x);
  }

  lemma Append3(a: string, b: string, c: string, d: string)
    ensures a + b + c + d == a + (b + c + d)
  {
  }

  lemma SuffixOfConcat(a: string, b: string)
    ensures (a + b)[|a|..] == b
  {
  }

  lemma RawPairHasNoAmpersand(key: string, text: string)
    requires IsPlainKey(key)
    ensures '&' !in RawPair(key, text)
  {
    EncodeHasNoDelimiters(text);
  }

  lemma ParseRawPair(key: string, text: string)
    requires IsPlainKey(key)
    ensures ParsePair(RawPair(key, text)) == Some((key, text))
  {
    EncodeHasNoDelimiters(text);
    SplitAfter('=', key, Encode(text));
    SplitWithout('=', key);
    DecodeEncode(text);
  }

  lemma {:induction false} RawPairsHaveNoAmpersand(params: map<string, Value>, order: seq<string>,
                                                   dateText: Date -> string)
    requires forall k :: k in order ==> k in params && IsPlainKey(k)
    ensures NoneContains('&', RawPairs(params, order, dateText))
  {
    if order != [] {
      var key := order[|order| - 1];
      RawPairsHaveNoAmpersand(params, order[..|order| - 1], dateText);
      if !params[key].Null? {
        RawPairHasNoAmpersand(key, ValueText(params[key], dateText));
      }
    }
  }

  lemma {:induction false} ParseRawPairs(first: (string, string), params: map<string, Value>,
                                         order: seq<string>, dateText: Date -> string)
    requires IsPlainKey(first.0)
    requires forall k :: k in order ==> k in params && IsPlainKey(k)
    ensures ParsePairs([RawPair(first.0, first.1)] + RawPairs(params, order, dateText))
         == Some([first] + Pairs(params, order, dateText))
  {
    if order == [] {
      var head := RawPair(first.0, first.1);
      ParseRawPair(first.0, first.1);
      ParsePairsSnoc([], head, [], first);
      assert [] + [head] == [head] + RawPairs(params, order, dateText);
      assert [] + [first] == [first] + Pairs(params, order, dateText);
    } else {
      ParseRawPairs(first, params, order[..|order| - 1], dateText);
      ParseRawPairsStep(first, params, order, dateText);
    }
  }

  lemma ParseRawPairsStep(first: (string, string), params: map<string, Value>,
                          order: seq<string>, dateText: Date -> string)
    requires order != []
    requires forall k :: k in order ==> k in params && IsPlainKey(k)
    requires ParsePairs([RawPair(first.0, first.1)] + RawPairs(params, order[..|order| - 1], dateText))
          == Some([first] + Pairs(params, order[..|order| - 1], dateText))
    ensures ParsePairs([RawPair(first.0, first.1)] + RawPairs(params, order, dateText))
         == Some([first] + Pairs(params, order, dateText))
  {
    var init := order[..|order| - 1];
    var key := order[|order| - 1];
    var head := RawPair(first.0, first.1);
    var raw := RawPairs(params, init, dateText);
    var pairs := Pairs(params, init, dateText);
    if params[key].Null? {
      assert RawPairs(params, order, dateText) == raw + [];
      assert raw + [] == raw;
      assert Pairs(params, order, dateText) == pairs + [];
      assert pairs + [] == pairs;
    } else {
      var text := ValueText(params[key], dateText);
      assert RawPairs(params, order, dateText) == raw + [RawPair(key, text)];
      assert Pairs(params, order, dateText) == pairs + [(key, text)];
      ParseRawPair(key, text);
      ConsAssoc(head, raw, [RawPair(key, text)]);
      ConsAssoc(first, pairs, [(key, text)]);
      ParsePairsSnoc([head] + raw, RawPair(key, text), [first] + pairs, (key, text));
    }
  }

  lemma ConsAssoc<T>(x: T, xs: seq<T>, ys: seq<T>)
    ensures [x] + (xs + ys) == ([x] + xs) + ys
  {
  }

  lemma ParsePairsSnoc(xs: seq<string>, x: string, parsed: seq<(string, string)>, p: (string, string))
    requires ParsePairs(xs) == Some(parsed) && ParsePair(x) == Some(p)
    ensures ParsePairs(xs + [x]) == Some(parsed + [p])
  {
    assert (xs + [x])[..|xs|] == xs;
  }

  /**
   * The URL is the endpoint, `?`, and a query string that reads back as the
   * API key under `apikey` followed by exactly the non-null options, in
   * iteration order, each with the text `buildUrl` encoded for it. Encoded
   * values never contain `&` or `=`, so only the keys need to be free of them.
   */
  lemma QueryRoundTrip(endpoint: string, apiKey: string, params: map<string, Value>,
                       order: seq<string>, dateText: Date -> string)
    requires forall k :: k in order ==> k in params && IsPlainKey(k)
    ensures var url := QueryUrl(endpoint, apiKey, params, order, dateText);
            && url[..|endpoint| + 1] == endpoint + "?"
            && ParseQuery(url[|endpoint| + 1..]) == Some([("apikey", apiKey)] + Pairs(params, order, dateText))
  {
    var all := [RawPair("apikey", apiKey)] + RawPairs(params, order, dateText);
    QueryIsJoinedPairs(endpoint, apiKey, params, order, dateText);
    RawPairsHaveNoAmpersand(params, order, dateText);
    RawPairHasNoAmpersand("apikey", apiKey);
    SplitJoin('&', all);
    ParseRawPairs(("apikey", apiKey), params, order, dateText);
  }

  /** After `endpoint?`, the URL is the raw `key=value` pieces joined by `&`. */
  lemma QueryIsJoinedPairs(endpoint: string, apiKey: string, params: map<string, Value>,
                           order: seq<string>, dateText: Date -> string)
    requires forall k :: k in order ==> k in params
    ensures var url := QueryUrl(endpoint, apiKey, params, order, dateText);
            && url[..|endpoint| + 1] == endpoint + "?"
            && url[|endpoint| + 1..] == JoinWith('&', [RawPair("apikey", apiKey)] + RawPairs(params, order, dateText))
  {
    var head := RawPair("apikey", apiKey);
    var segs := Segments(params, order, dateText);
    assert QueryUrl(endpoint, apiKey, params, order, dateText) == KeyPrefix(endpoint, apiKey) + segs;
    assert KeyPrefix(endpoint, apiKey) == (endpoint + "?") + head;
    StringAssoc(endpoint + "?", head, segs);
    SuffixOfConcat(endpoint + "?", head + segs);
    PrefixOfConcat(endpoint + "?", head + segs);
    SegmentsAreJoinedPairs(head, params, order, dateText);
  }

  /** Every pair after the API key belongs to a listed option whose value is not null. */
  lemma {:induction false} PairsKeysListed(params: map<string, Value>, order: seq<string>, dateText: Date -> string)
    requires forall k :: k in order ==> k in params
    ensures forall i :: 0 <= i < |Pairs(params, order, dateText)| ==>
              Pairs(params, order, dateText)[i].0 in order && !params[Pairs(params, order, dateText)[i].0].Null?
  {
    if order != [] {
      var init, key := order[..|order| - 1], order[|order| - 1];
      PairsKeysListed(params, init, dateText);
      var p := Pairs(params, init, dateText);
      var q := Pairs(params, order, dateText);
      assert forall k :: k in init ==> k in order;
      if params[key].Null? {
        assert q == p + [];
      } else {
        assert q == p + [(key, ValueText(params[key], dateText))];
      }
      forall i | 0 <= i < |q|
        ensures q[i].0 in order && !params[q[i].0].Null?
      {
        if i < |p| {
          assert q[i] == p[i];
        }
      }
    }
  }

  /**
   * The API key travels exactly once when no option named `apikey` holds a
   * value: the parsed query has it first and nowhere else. An `apikey` option
   * that is not null would be appended as a second `apikey` pair.
   */
  lemma ApiKeyOnce(endpoint: string, apiKey: string, params: map<string, Value>,
                   order: seq<string>, dateText: Date -> string)
    requires forall k :: k in order ==> k in params && IsPlainKey(k)
    requires "apikey" !in NonNullKeys(params)
    ensures var url := QueryUrl(endpoint, apiKey, params, order, dateText);
            var q := [("apikey", apiKey)] + Pairs(params, order, dateText);
            && ParseQuery(url[|endpoint| + 1..]) == Some(q)
            && q[0] == ("apikey", apiKey)
            && forall i :: 1 <= i < |q| ==> q[i].0 != "apikey"
  {
    QueryRoundTrip(endpoint, apiKey, params, order, dateText);
    PairsKeysListed(params, order, dateText);
    KeyOnlyFirst("apikey", apiKey, params, order, Pairs(params, order, dateText));
  }

  lemma KeyOnlyFirst(key: string, value: string, params: map<string, Value>, order: seq<string>,
                     p: seq<(string, string)>)
    requires forall k :: k in order ==> k in params
    requires forall i :: 0 <= i < |p| ==> p[i].0 in order && !params[p[i].0].Null?
    requires key !in NonNullKeys(params)
    ensures forall i :: 1 <= i < |[(key, value)] + p| ==> ([(key, value)] + p)[i].0 != key
  {
    var q := [(key, value)] + p;
    forall i | 1 <= i < |q|
      ensures q[i].0 != key
    {
      assert q[i] == p[i - 1];
      assert p[i - 1].0 in NonNullKeys(params);
    }
  }

  lemma {:induction false} PairsCountKeys(params: map<string, Value>, order: seq<string>, dateText: Date -> string)
    requires forall k :: k in order ==> k in params
    requires forall i, j :: 0 <= i < j < |order| ==> order[i] != order[j]
    ensures |Pairs(params, order, dateText)| == |ListedNonNull(params, order)|
  {
    if order != [] {
      var init := order[..|order| - 1];
      var key := order[|order| - 1];
      PairsCountKeys(params, init, dateText);
      ListedNonNullSnoc(params, order);
      var p := Pairs(params, init, dateText);
      if params[key].Null? {
        assert Pairs(params, order, dateText) == p + [];
      } else {
        assert Pairs(params, order, dateText) == p + [(key, ValueText(params[key], dateText))];
      }
    }
  }

  /** The listed keys whose value is not null. */
  function ListedNonNull(params: map<string, Value>, order: seq<string>): set<string> {
    set k | k in order && k in params && !params[k].Null?
  }

  lemma ListedNonNullSnoc(params: map<string, Value>, order: seq<string>)
    requires order != [] && order[|order| - 1] in params
    requires forall i, j :: 0 <= i < j < |order| ==> order[i] != order[j]
    ensures var init, key := order[..|order| - 1], order[|order| - 1];
            |ListedNonNull(params, order)|
            == |ListedNonNull(params, init)| + (if params[key].Null? then 0 else 1)
  {
    var init, key := order[..|order| - 1], order[|order| - 1];
    var before := ListedNonNull(params, init);
    assert order == init + [key];
    assert key !in init by {
      forall i | 0 <= i < |init|
        ensures init[i] != key
      {
        assert init[i] == order[i];
      }
    }
    if params[key].Null? {
      assert ListedNonNull(params, order) == before;
    } else {
      assert ListedNonNull(params, order) == before + {key};
    }
  }

  /** The query string carries one pair per non-null option, after the API key. */
  lemma SegmentCount(params: map<string, Value>, order: seq<string>, dateText: Date -> string)
    requires IsEnumeration(order, params.Keys)
    ensures |Pairs(params, order, dateText)| == |NonNullKeys(params)|
  {
    PairsCountKeys(params, order, dateText);
    assert ListedNonNull(params, order) == NonNullKeys(params);
  }
}
