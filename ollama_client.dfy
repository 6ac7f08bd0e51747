/**
 * `mc\alpaca\OllamaClient`: binds the HTTP client to the Ollama API
 * (`<base>/api/tags`, `<base>/api/show`, `<base>/<endpoint>`), keeps the
 * selected model, and collects the response body through a write
 * callback that either keeps the raw text or, in stream mode, keeps the
 * `response` text of each streamed JSON object.
 */
module AlpacaClient {
  import opened Wrappers
  import opened PhpValues
  import opened McHttp
  import Assoc

  const DEFAULT_MODEL := "llama3.2:latest"

  /**
   * The text a streamed chunk contributes: the `response` member of the
   * decoded object when it is truthy, nothing otherwise (a chunk that is
   * not JSON decodes to null and has no member).
   */
  function StreamText(decoded: JValue): string
  {
    match Member(decoded, "response")
    case Some(r) => if Truthy(r) then ToPhpString(r) else ""
    case None => ""
  }

  /**
   * The write callback installed by `getHttpClient`: given the buffer
   * before a chunk, the buffer after it and the count it returns to cURL.
   */
  function OnChunk(stream: bool, decode: string -> JValue, buffer: string, chunk: string): (r: (string, nat))
    ensures r.1 == |chunk|
    ensures |r.0| >= |buffer| && r.0[..|buffer|] == buffer
    ensures !stream ==> r.0 == buffer + chunk
    ensures stream ==> r.0 == buffer + StreamText(decode(chunk))
  {
    if stream then (buffer + StreamText(decode(chunk)), |chunk|)
    else (buffer + chunk, |chunk|)
  }

  /** The buffer after cURL has handed every chunk, in order, to the callback. */
  function Collect(stream: bool, decode: string -> JValue, buffer: string, chunks: seq<string>): string
    decreases |chunks|
  {
    if chunks == [] then buffer
    else Collect(stream, decode, OnChunk(stream, decode, buffer, chunks[0]).0, chunks[1..])
  }

  /** In raw mode the buffer receives every chunk verbatim, in order. */
  lemma {:induction false} CollectRaw(decode: string -> JValue, buffer: string, chunks: seq<string>)
    ensures Collect(false, decode, buffer, chunks) == buffer + Strings.Concat(chunks)
    decreases |chunks|
  {
    if chunks != [] {
      CollectRaw(decode, buffer + chunks[0], chunks[1..]);
    }
  }

  /** The texts that the streamed chunks contribute, one per chunk. */
  function StreamTexts(decode: string -> JValue, chunks: seq<string>): (texts: seq<string>)
    ensures |texts| == |chunks|
  {
    if chunks == [] then [] else [StreamText(decode(chunks[0]))] + StreamTexts(decode, chunks[1..])
  }

  /** In stream mode the buffer receives the `response` text of each chunk, in order. */
  lemma {:induction false} CollectStream(decode: string -> JValue, buffer: string, chunks: seq<string>)
    ensures Collect(true, decode, buffer, chunks) == buffer + Strings.Concat(StreamTexts(decode, chunks))
    decreases |chunks|
  {
    if chunks != [] {
      CollectStream(decode, buffer + StreamText(decode(chunks[0])), chunks[1..]);
    }
  }

  /**
   * In stream mode a chunk that is not JSON, has no `response`, or whose
   * `response` is "" or "0" leaves the buffer unchanged.
   */
  lemma StreamChunkIgnored(decode: string -> JValue, buffer: string, chunk: string)
    requires decode(chunk) == JNull
      || Member(decode(chunk), "response").None?
      || Member(decode(chunk), "response") == Some(JStr(""))
      || Member(decode(chunk), "response") == Some(JStr("0"))
    ensures OnChunk(true, decode, buffer, chunk).0 == buffer
  {
  }

  /** Two streamed chunks `{"response":"Hel"}` and `{"response":"lo"}` give "Hello". */
  lemma StreamHello(decode: string -> JValue)
    requires decode("{\"response\":\"Hel\"}") == JObj(map["response" := JStr("Hel")])
    requires decode("{\"response\":\"lo\"}") == JObj(map["response" := JStr("lo")])
    ensures Collect(true, decode, "", ["{\"response\":\"Hel\"}", "{\"response\":\"lo\"}"]) == "Hello"
  {
    var chunks := ["{\"response\":\"Hel\"}", "{\"response\":\"lo\"}"];
    CollectStream(decode, "", chunks);
    assert StreamTexts(decode, chunks) == ["Hel", "lo"];
  }

  /** `$data['stream'] ?? false`, passed on as a bool. */
  function StreamFlag(data: Payload): bool
  {
    match Assoc.Lookup(data, "stream")
    case Some(v) => Truthy(v)
    case None => false
  }

  /** The options of a client request: the callback, then the caller's options, then the verb's. */
  function ClientOptions(stream: bool, extra: Entries, own: Entries): Options
  {
    CallOptions(map[WriteFunction := WriteCallback(stream)], extra, own)
  }

  /** What `prompt($endpoint, $data)` returns: the buffer collected from the POST to `<base>/<endpoint>`. */
  function PromptOutput(apiUrl: string, endpoint: string, data: Payload, lib: Codecs, net: Network): string
  {
    var stream := StreamFlag(data);
    var sent := ClientOptions(stream, [], PostEntries(apiUrl + "/" + endpoint, lib.jsonEncode(data)));
    Collect(stream, lib.jsonDecode, "", net(sent).written)
  }

  /**
   * The request `prompt` sends: POST to `<base>/<endpoint>`, the data as
   * JSON, and a callback in stream mode exactly when `data['stream']` is
   * truthy.
   */
  lemma PromptRequest(apiUrl: string, endpoint: string, data: Payload, lib: Codecs)
    ensures var sent := ClientOptions(StreamFlag(data), [], PostEntries(apiUrl + "/" + endpoint, lib.jsonEncode(data)));
      && Sets(sent, OptKey.Post, Flag(true))
      && Sets(sent, Url, Text(apiUrl + "/" + endpoint))
      && Sets(sent, PostFields, Text(lib.jsonEncode(data)))
      && Sets(sent, WriteFunction, WriteCallback(StreamFlag(data)))
    ensures StreamFlag(data) <==> Assoc.Lookup(data, "stream").Some? && Truthy(Assoc.Lookup(data, "stream").value)
  {
    var own := PostEntries(apiUrl + "/" + endpoint, lib.jsonEncode(data));
    VerbKeysWin(map[WriteFunction := WriteCallback(StreamFlag(data))], [], apiUrl + "/" + endpoint, "", lib.jsonEncode(data));
    CallOptionsLayered(map[WriteFunction := WriteCallback(StreamFlag(data))], [], own);
    Assoc.LatestAbsent(own, WriteFunction);
  }

  /** The body `generate` starts from. */
  function GenerateDefaults(model: string, prompt: string): Payload
  {
    [("model", JStr(model)), ("prompt", JStr(prompt)), ("stream", JBool(false))]
  }

  /** The body `generate` sends: the defaults, overlaid by the caller's options. */
  function GenerateData(model: string, prompt: string, options: Payload): Payload
  {
    Assoc.Overlay(GenerateDefaults(model, prompt), options)
  }

  /**
   * Every key the caller passes, `model` and `stream` included, overrides
   * the default; without options the body is `{model, prompt, stream:
   * false}`; `model`, `prompt`, `stream` stay the first three keys; and
   * no key appears twice in the body.
   */
  lemma GenerateDataSpec(model: string, prompt: string, options: Payload, k: string)
    ensures Assoc.Latest(options, k).Some? ==> Assoc.Lookup(GenerateData(model, prompt, options), k) == Assoc.Latest(options, k)
    ensures Assoc.Latest(options, k).None? ==>
      Assoc.Lookup(GenerateData(model, prompt, options), k) == Assoc.Lookup(GenerateDefaults(model, prompt), k)
    ensures Assoc.Latest(options, "model").None? ==> Assoc.Lookup(GenerateData(model, prompt, options), "model") == Some(JStr(model))
    ensures Assoc.Latest(options, "prompt").None? ==> Assoc.Lookup(GenerateData(model, prompt, options), "prompt") == Some(JStr(prompt))
    ensures Assoc.Latest(options, "stream").None? ==> !StreamFlag(GenerateData(model, prompt, options))
    ensures |GenerateData(model, prompt, options)| >= 3
      && Assoc.Keys(GenerateData(model, prompt, options))[..3] == ["model", "prompt", "stream"]
    ensures Assoc.UniqueKeys(GenerateData(model, prompt, options))
  {
    var d := GenerateDefaults(model, prompt);
    assert "model"[0] != "prompt"[0];
    Assoc.OverlayUnique(d, options);
    Assoc.OverlayLookup(d, options, k);
    Assoc.OverlayLookup(d, options, "model");
    Assoc.OverlayLookup(d, options, "prompt");
    Assoc.OverlayLookup(d, options, "stream");
    Assoc.OverlayKeepsOrder(d, options);
    assert "model"[0] != "stream"[0] && "prompt"[0] != "stream"[0];
    assert d[0].0 != "stream" && d[1].0 != "stream";
    assert d[1..][1..] == [("stream", JBool(false))];
    assert Assoc.Lookup(d[1..][1..], "stream") == Some(JBool(false));
    assert Assoc.Lookup(d[1..], "stream") == Some(JBool(false));
    assert Assoc.Lookup(d, "stream") == Some(JBool(false));
  }

  /** `getModelsList` iterates `$data['models']`; anything but a list gives no entries. */
  function ModelEntries(data: JValue): seq<JValue>
  {
    ListOr(data, "models")
  }

  /** `$model['name']` of one entry. */
  function NameOf(entry: JValue): string
  {
    StringOr(entry, "name", "")
  }

  /** The tags response `{"models":[{"name":"a"},{"name":"b"}]}` lists "a" then "b". */
  lemma ModelsFixture()
    ensures var data := JObj(map["models" := JArr([JObj(map["name" := JStr("a")]), JObj(map["name" := JStr("b")])])]);
      |ModelEntries(data)| == 2 && NameOf(ModelEntries(data)[0]) == "a" && NameOf(ModelEntries(data)[1]) == "b"
  {
  }

  /** The loop of `getModelsList`: the `name` of each entry of `models`, in array order. */
  method ModelNames(data: JValue) returns (names: seq<string>)
    ensures |names| == |ModelEntries(data)|
    ensures forall i :: 0 <= i < |names| ==> names[i] == NameOf(ModelEntries(data)[i])
  {
    var entries := ModelEntries(data);
    names := [];
    var i := 0;
    while i < |entries|
      invariant 0 <= i <= |entries|
      invariant |names| == i
      invariant forall j :: 0 <= j < i ==> names[j] == NameOf(entries[j])
    {
      names := names + [NameOf(entries[i])];
      i := i + 1;
    }
  }

  /** The raw body that `getModelsList` decodes: GET `<base>/api/tags` with an empty query. */
  function TagsBody(apiUrl: string, lib: Codecs, net: Network): string
  {
    var sent := ClientOptions(false, [], GetEntries(apiUrl + "/api/tags", lib.buildQuery([])));
    Collect(false, lib.jsonDecode, "", net(sent).written)
  }

  /** The header `getModelInfo` adds. */
  const JSON_HEADER: Entries := [(HttpHeader, Lines(["Content-Type:application/json"]))]

  /** What `getModelInfo($name)` sends: POST `{"model": name}` to `<base>/api/show` as JSON with a JSON header. */
  function InfoOptions(apiUrl: string, name: string, lib: Codecs): Options
  {
    ClientOptions(false, JSON_HEADER, PostEntries(apiUrl + "/api/show", lib.jsonEncode([("model", JStr(name))])))
  }

  class OllamaClient {
    const apiKey: string
    const apiUrl: string
    var modelName: string

    /** `new OllamaClient($apiUrl, $modelName = "llama3.2:latest", $apiKey = "")`. */
    constructor (apiUrl: string, modelName: string := DEFAULT_MODEL, apiKey: string := "")
      ensures GetApiUrl() == apiUrl && GetModelName() == modelName && GetApiKey() == apiKey
    {
      this.apiKey := apiKey;
      this.apiUrl := apiUrl;
      this.modelName := modelName;
    }

    function GetApiKey(): string
    {
      apiKey
    }

    function GetApiUrl(): string
    {
      apiUrl
    }

    function GetModelName(): string
      reads this
    {
      modelName
    }

    /** `setModelName($name)`: only the model changes (URL and key are fixed). */
    method SetModelName(name: string)
      modifies this
      ensures GetModelName() == name
    {
      modelName := name;
    }

    /**
     * `getHttpClient($uri, $buffer, $stream)`: a fresh HTTP client for the
     * URI, with the JSON encoder and the response callback installed.
     */
    static method HttpClient(uri: string, stream: bool) returns (http: Http)
      ensures fresh(http)
      ensures http.url == uri && http.encoder == JsonEncode
      ensures http.options == map[WriteFunction := WriteCallback(stream)]
    {
      http := new Http(uri);
      http.SetEncoder("json_encode");
      http.SetWriteFunction(stream);
    }

    /** `getModelsList()`: the names listed by `<base>/api/tags`, in order. */
    method GetModelsList(lib: Codecs, net: Network) returns (models: seq<string>)
      ensures var data := lib.jsonDecode(TagsBody(apiUrl, lib, net));
        |models| == |ModelEntries(data)| && forall i :: 0 <= i < |models| ==> models[i] == NameOf(ModelEntries(data)[i])
    {
      var buffer := "";
      var http := HttpClient(apiUrl + "/api/tags", false);
      var reply := http.Get([], [], lib, net);
      buffer := Collect(false, lib.jsonDecode, buffer, reply.written);
      models := ModelNames(lib.jsonDecode(buffer));
    }

    /**
     * `getModelInfo($name)`: the decoded body when cURL reports success,
     * the empty array otherwise.
     */
    method GetModelInfo(name: string, lib: Codecs, net: Network) returns (info: JValue)
      ensures var reply := net(InfoOptions(apiUrl, name, lib));
        info == if Succeeded(reply.result) then lib.jsonDecode(Collect(false, lib.jsonDecode, "", reply.written)) else JArr([])
    {
      var buffer := "";
      var http := HttpClient(apiUrl + "/api/show", false);
      var reply := http.Post([("model", JStr(name))], JSON_HEADER, lib, net);
      buffer := Collect(false, lib.jsonDecode, buffer, reply.written);
      if Succeeded(reply.result) {
        info := lib.jsonDecode(buffer);
      } else {
        info := JArr([]);
      }
    }

    /** `prompt($endpoint, $data)`: the buffer collected from POSTing the data to `<base>/<endpoint>`. */
    method Prompt(endpoint: string, data: Payload, lib: Codecs, net: Network) returns (buffer: string)
      ensures buffer == PromptOutput(apiUrl, endpoint, data, lib, net)
    {
      buffer := "";
      var stream := StreamFlag(data);
      var http := HttpClient(apiUrl + "/" + endpoint, stream);
      var reply := http.Post(data, [], lib, net);
      buffer := Collect(stream, lib.jsonDecode, buffer, reply.written);
    }

    /**
     * `generate($prompt, $options)`: `{model, prompt, stream: false}`
     * overlaid by the options, sent to `api/generate`.
     */
    method Generate(prompt: string, options: Payload, lib: Codecs, net: Network) returns (raw: string)
      ensures raw == PromptOutput(apiUrl, "api/generate", GenerateData(modelName, prompt, options), lib, net)
    {
      var data := GenerateDefaults(modelName, prompt);
      var i := 0;
      while i < |options|
        invariant 0 <= i <= |options|
        invariant data == Assoc.Overlay(GenerateDefaults(modelName, prompt), options[..i])
      {
        assert options[..i + 1][..i] == options[..i];
        data := Assoc.Put(data, options[i].0, options[i].1);
        i := i + 1;
      }
      assert options[..i] == options;
      raw := Prompt("api/generate", data, lib, net);
    }
  }
}
