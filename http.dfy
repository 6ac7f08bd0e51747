/**
 * `mc\http`: a small HTTP client over cURL. It keeps a target URL, a
 * persistent map of cURL options and the name of the encoder used for
 * request bodies. Every verb merges the caller's options into the map,
 * then its own options, and hands the whole map to cURL.
 */
module McHttp {
  import opened Wrappers
  import opened PhpValues
  import Assoc

  /** The cURL option keys the client sets; any other key is `Other`. */
  datatype OptKey =
    | HttpGet        // CURLOPT_HTTPGET
    | Post           // CURLOPT_POST
    | Url            // CURLOPT_URL
    | PostFields     // CURLOPT_POSTFIELDS
    | CustomRequest  // CURLOPT_CUSTOMREQUEST
    | WriteFunction  // CURLOPT_WRITEFUNCTION
    | HttpHeader     // CURLOPT_HTTPHEADER
    | Other(code: int)

  /**
   * Option values. The only write function ever installed is the LLM
   * client's response callback, identified by its mode (raw or streaming).
   */
  datatype OptVal =
    | Flag(on: bool)
    | Text(text: string)
    | Lines(lines: seq<string>)
    | Number(n: int)
    | WriteCallback(stream: bool)

  /** The object's `$options`: the value each option holds; the order of the PHP array is not kept. */
  type Options = map<OptKey, OptVal>

  /** A PHP array of cURL options, in the order `foreach` visits it. */
  type Entries = seq<(OptKey, OptVal)>

  /** The closed set of body encoders, `http::ENCODERS`. */
  datatype Encoder = HttpBuildQuery | JsonEncode

  /** The encoder a name selects: `array_search($name, ENCODERS) !== false`. */
  function EncoderNamed(name: string): (e: Option<Encoder>)
    ensures e == Some(HttpBuildQuery) <==> name == "http_build_query"
    ensures e == Some(JsonEncode) <==> name == "json_encode"
    ensures e.None? <==> name !in ["http_build_query", "json_encode"]
  {
    if name == "http_build_query" then Some(HttpBuildQuery)
    else if name == "json_encode" then Some(JsonEncode)
    else None
  }

  /** `($this->encoder)($data)`. */
  function Encode(encoder: Encoder, lib: Codecs, data: Payload): string
  {
    match encoder
    case HttpBuildQuery => lib.buildQuery(data)
    case JsonEncode => lib.jsonEncode(data)
  }

  /**
   * What `curl_exec` returns: false on a transport failure, true when a
   * write function consumed the body, or the body itself.
   */
  datatype CurlResult = CurlFailed | CurlDone | CurlBody(body: string)

  /** PHP truthiness of a `curl_exec` result. */
  predicate Succeeded(r: CurlResult)
  {
    match r
    case CurlFailed => false
    case CurlDone => true
    case CurlBody(b) => b != "" && b != "0"
  }

  /**
   * One request as the network answers it: what `curl_exec` returns and
   * the chunks of the response body handed, in order, to the installed
   * write function.
   */
  datatype Exchange = Exchange(result: CurlResult, written: seq<string>)

  /** cURL and the server behind it, as a function of the option map (`http::request`). */
  type Network = Options -> Exchange

  /** The GET/DELETE URL: a `?` is added only when the URL has none. */
  function QueryUrl(url: string, query: string): string
  {
    url + (if '?' in url then "" else "?") + query
  }

  /**
   * The URL is kept as a prefix and the query as a suffix; a `?` is put
   * between them only when the URL has none, and otherwise nothing at all
   * (neither `?` nor `&`) is inserted; the result always holds a `?`.
   */
  lemma QueryUrlShape(url: string, query: string)
    ensures var r := QueryUrl(url, query);
      && r[..|url|] == url
      && r[|r| - |query|..] == query
      && '?' in r
      && |r| == |url| + |query| + (if '?' in url then 0 else 1)
    ensures '?' !in url ==> QueryUrl(url, query) == url + "?" + query
    ensures '?' in url ==> QueryUrl(url, query) == url + query
  {
    var r := QueryUrl(url, query);
    if '?' !in url {
      assert r[|url|] == '?';
    } else {
      var i :| 0 <= i < |url| && url[i] == '?';
      assert r[i] == '?';
    }
  }

  /** The separator is added even when the query is empty. */
  lemma QueryUrlEmptyQuery()
    ensures QueryUrl("http://127.0.0.1:11434/api/tags", "") == "http://127.0.0.1:11434/api/tags?"
  {
  }

  /** With a `?` already present the query is appended directly: no `&` is inserted. */
  lemma QueryUrlNoAmpersand()
    ensures QueryUrl("http://h/p?x=1", "y=2") == "http://h/p?x=1y=2"
  {
    assert "http://h/p?x=1"[10] == '?';
  }

  /** The option map holds `value` under `key`. */
  predicate Sets(m: Options, key: OptKey, value: OptVal)
  {
    key in m && m[key] == value
  }

  /** The options each verb sets after the caller's. */
  function GetEntries(url: string, query: string): Entries
  {
    [(HttpGet, Flag(true)), (Url, Text(QueryUrl(url, query)))]
  }

  function PostEntries(url: string, body: string): Entries
  {
    [(Post, Flag(true)), (Url, Text(url)), (PostFields, Text(body))]
  }

  function PutEntries(url: string, body: string): Entries
  {
    [(CustomRequest, Text("PUT")), (Url, Text(url)), (PostFields, Text(body))]
  }

  function DeleteEntries(url: string, query: string): Entries
  {
    [(CustomRequest, Text("DELETE")), (Url, Text(QueryUrl(url, query))), (PostFields, Text(""))]
  }

  /** The option map a verb sends: the caller's options over the old map, then the verb's own over that. */
  function CallOptions(before: Options, extra: Entries, own: Entries): Options
  {
    Assoc.Apply(Assoc.Apply(before, extra), own)
  }

  /**
   * The relation between the option map before and after a call: the
   * verb's own keys win, then the caller's, then the old values; no key
   * is ever removed.
   */
  ghost predicate Layered(before: Options, extra: Entries, own: Entries, after: Options)
  {
    && (forall k :: k in after <==> k in before || Assoc.Latest(extra, k).Some? || Assoc.Latest(own, k).Some?)
    && (forall k :: Assoc.Latest(own, k).Some? ==> after[k] == Assoc.Latest(own, k).value)
    && (forall k :: Assoc.Latest(own, k).None? && Assoc.Latest(extra, k).Some? ==>
          after[k] == Assoc.Latest(extra, k).value)
    && (forall k :: Assoc.Latest(own, k).None? && Assoc.Latest(extra, k).None? && k in before ==>
          after[k] == before[k])
  }

  lemma CallOptionsLayered(before: Options, extra: Entries, own: Entries)
    ensures Layered(before, extra, own, CallOptions(before, extra, own))
    ensures before.Keys <= CallOptions(before, extra, own).Keys
  {
    var mid := Assoc.Apply(before, extra);
    forall k
      ensures k in mid <==> k in before || Assoc.Latest(extra, k).Some?
      ensures Assoc.Latest(extra, k).Some? ==> mid[k] == Assoc.Latest(extra, k).value
      ensures Assoc.Latest(extra, k).None? && k in before ==> mid[k] == before[k]
      ensures k in CallOptions(before, extra, own) <==> k in mid || Assoc.Latest(own, k).Some?
      ensures Assoc.Latest(own, k).Some? ==> CallOptions(before, extra, own)[k] == Assoc.Latest(own, k).value
      ensures Assoc.Latest(own, k).None? && k in mid ==> CallOptions(before, extra, own)[k] == mid[k]
    {
      Assoc.ApplyLookup(before, extra, k);
      Assoc.ApplyLookup(mid, own, k);
    }
  }

  /** A verb's own options are set whatever the caller passed. */
  lemma VerbKeysWin(before: Options, extra: Entries, url: string, query: string, body: string)
    ensures Sets(CallOptions(before, extra, GetEntries(url, query)), HttpGet, Flag(true))
    ensures Sets(CallOptions(before, extra, GetEntries(url, query)), Url, Text(QueryUrl(url, query)))
    ensures Sets(CallOptions(before, extra, PostEntries(url, body)), Post, Flag(true))
    ensures Sets(CallOptions(before, extra, PostEntries(url, body)), Url, Text(url))
    ensures Sets(CallOptions(before, extra, PostEntries(url, body)), PostFields, Text(body))
    ensures Sets(CallOptions(before, extra, PutEntries(url, body)), CustomRequest, Text("PUT"))
    ensures Sets(CallOptions(before, extra, PutEntries(url, body)), Url, Text(url))
    ensures Sets(CallOptions(before, extra, PutEntries(url, body)), PostFields, Text(body))
    ensures Sets(CallOptions(before, extra, DeleteEntries(url, query)), CustomRequest, Text("DELETE"))
    ensures Sets(CallOptions(before, extra, DeleteEntries(url, query)), Url, Text(QueryUrl(url, query)))
    ensures Sets(CallOptions(before, extra, DeleteEntries(url, query)), PostFields, Text(""))
  {
    var get, post := GetEntries(url, query), PostEntries(url, body);
    var put, delete := PutEntries(url, body), DeleteEntries(url, query);
    OwnKeysWin(before, extra, get);
    assert get[0].0 == HttpGet && get[1].0 == Url;
    OwnKeysWin(before, extra, post);
    assert post[0].0 == Post && post[1].0 == Url && post[2].0 == PostFields;
    OwnKeysWin(before, extra, put);
    assert put[0].0 == CustomRequest && put[1].0 == Url && put[2].0 == PostFields;
    OwnKeysWin(before, extra, delete);
    assert delete[0].0 == CustomRequest && delete[1].0 == Url && delete[2].0 == PostFields;
  }

  /** When a verb's own entries have distinct keys, each of them is set. */
  lemma OwnKeysWin(before: Options, extra: Entries, own: Entries)
    requires Assoc.UniqueKeys(own)
    ensures forall i :: 0 <= i < |own| ==> Sets(CallOptions(before, extra, own), own[i].0, own[i].1)
  {
    CallOptionsLayered(before, extra, own);
    forall i | 0 <= i < |own| ensures Sets(CallOptions(before, extra, own), own[i].0, own[i].1) {
      Assoc.LatestFound(own, i);
    }
  }

  /**
   * Options persist across calls: after a POST, a GET on the same object
   * still sends the POST flag and the old body.
   */
  lemma PostThenGetKeepsBody(before: Options, url: string, body: string, query: string)
    ensures var afterGet := CallOptions(CallOptions(before, [], PostEntries(url, body)), [], GetEntries(url, query));
      Sets(afterGet, Post, Flag(true)) && Sets(afterGet, PostFields, Text(body)) && Sets(afterGet, HttpGet, Flag(true))
  {
    var afterPost := CallOptions(before, [], PostEntries(url, body));
    VerbKeysWin(before, [], url, query, body);
    VerbKeysWin(afterPost, [], url, query, body);
    CallOptionsLayered(afterPost, [], GetEntries(url, query));
    var get := GetEntries(url, query);
    Assoc.LatestAbsent(get, Post);
    Assoc.LatestAbsent(get, PostFields);
  }

  class Http {
    /** Target URL, fixed at construction. */
    const url: string
    /** The persistent cURL option map. */
    var options: Options
    /** The body encoder in use. */
    var encoder: Encoder

    /** `new http($url, $options)`: stores the URL, applies the initial options, default encoder `http_build_query`. */
    constructor (url: string, initial: Entries := [])
      ensures this.url == url
      ensures options == Assoc.Apply(map[], initial)
      ensures encoder == HttpBuildQuery
    {
      this.url := url;
      options := map[];
      encoder := HttpBuildQuery;
      new;
      SetOptions(initial);
    }

    /** `set_option($key, $value)`. */
    method SetOption(key: OptKey, value: OptVal)
      modifies this
      ensures options == old(options)[key := value]
      ensures encoder == old(encoder)
    {
      options := options[key := value];
    }

    /** `set_encoder($name)`: only the two supported names change the encoder. */
    method SetEncoder(name: string)
      modifies this
      ensures encoder == if EncoderNamed(name).Some? then EncoderNamed(name).value else old(encoder)
      ensures options == old(options)
    {
      var found := EncoderNamed(name);
      if found.Some? {
        encoder := found.value;
      }
    }

    /** `set_write_function($f)`: installs the response callback as an option. */
    method SetWriteFunction(stream: bool)
      modifies this
      ensures options == old(options)[WriteFunction := WriteCallback(stream)]
      ensures encoder == old(encoder)
    {
      SetOption(WriteFunction, WriteCallback(stream));
    }

    /** `set_options($entries)`: each entry in turn, so a later entry for a key wins. */
    method SetOptions(entries: Entries)
      modifies this
      ensures options == Assoc.Apply(old(options), entries)
      ensures encoder == old(encoder)
    {
      var i := 0;
      while i < |entries|
        invariant 0 <= i <= |entries|
        invariant options == Assoc.Apply(old(options), entries[..i])
        invariant encoder == old(encoder)
      {
        assert entries[..i + 1][..i] == entries[..i];
        SetOption(entries[i].0, entries[i].1);
        i := i + 1;
      }
      assert entries[..i] == entries;
    }

    /** `get($data, $extra)`: the query always goes through `http_build_query`. */
    method Get(data: Payload, extra: Entries, lib: Codecs, net: Network) returns (reply: Exchange)
      modifies this
      ensures options == CallOptions(old(options), extra, GetEntries(url, lib.buildQuery(data)))
      ensures Layered(old(options), extra, GetEntries(url, lib.buildQuery(data)), options)
      ensures Sets(options, HttpGet, Flag(true)) && Sets(options, Url, Text(QueryUrl(url, lib.buildQuery(data))))
      ensures encoder == old(encoder)
      ensures reply == net(options)
    {
      var own := GetEntries(url, lib.buildQuery(data));
      SetOptions(extra);
      SetOptions(own);
      CallOptionsLayered(old(options), extra, own);
      VerbKeysWin(old(options), extra, url, lib.buildQuery(data), "");
      reply := net(options);
    }

    /** `post($data, $extra)`: the body is the data under the current encoder. */
    method Post(data: Payload, extra: Entries, lib: Codecs, net: Network) returns (reply: Exchange)
      modifies this
      ensures options == CallOptions(old(options), extra, PostEntries(url, Encode(encoder, lib, data)))
      ensures Layered(old(options), extra, PostEntries(url, Encode(encoder, lib, data)), options)
      ensures Sets(options, OptKey.Post, Flag(true)) && Sets(options, Url, Text(url))
      ensures Sets(options, PostFields, Text(Encode(encoder, lib, data)))
      ensures encoder == old(encoder)
      ensures reply == net(options)
    {
      var own := PostEntries(url, Encode(encoder, lib, data));
      SetOptions(extra);
      SetOptions(own);
      CallOptionsLayered(old(options), extra, own);
      VerbKeysWin(old(options), extra, url, "", Encode(encoder, lib, data));
      reply := net(options);
    }

    /** `put($data, $extra)`. */
    method Put(data: Payload, extra: Entries, lib: Codecs, net: Network) returns (reply: Exchange)
      modifies this
      ensures options == CallOptions(old(options), extra, PutEntries(url, Encode(encoder, lib, data)))
      ensures Layered(old(options), extra, PutEntries(url, Encode(encoder, lib, data)), options)
      ensures Sets(options, CustomRequest, Text("PUT")) && Sets(options, Url, Text(url))
      ensures Sets(options, PostFields, Text(Encode(encoder, lib, data)))
      ensures encoder == old(encoder)
      ensures reply == net(options)
    {
      var own := PutEntries(url, Encode(encoder, lib, data));
      SetOptions(extra);
      SetOptions(own);
      CallOptionsLayered(old(options), extra, own);
      VerbKeysWin(old(options), extra, url, "", Encode(encoder, lib, data));
      reply := net(options);
    }

    /** `delete($data, $extra)`: the GET URL rule, method DELETE, empty body. */
    method Delete(data: Payload, extra: Entries, lib: Codecs, net: Network) returns (reply: Exchange)
      modifies this
      ensures options == CallOptions(old(options), extra, DeleteEntries(url, lib.buildQuery(data)))
      ensures Layered(old(options), extra, DeleteEntries(url, lib.buildQuery(data)), options)
      ensures Sets(options, CustomRequest, Text("DELETE"))
      ensures Sets(options, Url, Text(QueryUrl(url, lib.buildQuery(data))))
      ensures Sets(options, PostFields, Text(""))
      ensures encoder == old(encoder)
      ensures reply == net(options)
    {
      var own := DeleteEntries(url, lib.buildQuery(data));
      SetOptions(extra);
      SetOptions(own);
      CallOptionsLayered(old(options), extra, own);
      VerbKeysWin(old(options), extra, url, lib.buildQuery(data), "");
      reply := net(options);
    }
  }
}
