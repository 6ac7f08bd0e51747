/**
 * `mc\essay\Assessor`: builds the prompt of a task for an essay, sends it
 * to the language-model server through the client's `generate`, and
 * returns the `response` text of the parsed reply.
 */
module EssayAssessor {
  import opened Wrappers
  import opened PhpValues
  import opened McHttp
  import Strings
  import Assoc
  import AlpacaClient
  import AlpacaResponse
  import EssayTask

  /** The options of the request `assessEssay` makes through a client with this base URL and model. */
  function AssessmentRequest(apiUrl: string, model: string, task: EssayTask.Task, essay: string, lib: Codecs): Options
  {
    var data := AlpacaClient.GenerateData(model, EssayTask.BuildPrompt(task, essay), []);
    AlpacaClient.ClientOptions(false, [], PostEntries(apiUrl + "/api/generate", lib.jsonEncode(data)))
  }

  /** What `assessEssay` returns through a client with this base URL and model. */
  function Assessment(apiUrl: string, model: string, task: EssayTask.Task, essay: string, lib: Codecs, net: Network): string
  {
    var raw := AlpacaClient.PromptOutput(apiUrl, "api/generate",
      AlpacaClient.GenerateData(model, EssayTask.BuildPrompt(task, essay), []), lib, net);
    AlpacaResponse.FromJson(raw, lib.jsonDecode).response
  }

  /**
   * The assessment is one non-streaming POST of `{model, prompt, stream:
   * false}` to `<base>/api/generate`, the prompt being `buildPrompt` of
   * the essay; the result is the `response` string of the JSON the
   * server wrote, and "" when that text is not a JSON object or has no
   * string `response`.
   */
  lemma AssessmentSpec(apiUrl: string, model: string, task: EssayTask.Task, essay: string, lib: Codecs, net: Network)
    ensures var data := AlpacaClient.GenerateData(model, EssayTask.BuildPrompt(task, essay), []);
      && Assoc.Lookup(data, "model") == Some(JStr(model))
      && Assoc.Lookup(data, "prompt") == Some(JStr(EssayTask.BuildPrompt(task, essay)))
      && !AlpacaClient.StreamFlag(data)
    ensures var sent := AssessmentRequest(apiUrl, model, task, essay, lib);
      && Sets(sent, OptKey.Post, Flag(true))
      && Sets(sent, Url, Text(apiUrl + "/api/generate"))
      && Sets(sent, WriteFunction, WriteCallback(false))
    ensures var body := lib.jsonDecode(Strings.Concat(net(AssessmentRequest(apiUrl, model, task, essay, lib)).written));
      Assessment(apiUrl, model, task, essay, lib, net) == StringOr(body, "response", "")
  {
    var prompt := EssayTask.BuildPrompt(task, essay);
    var data := AlpacaClient.GenerateData(model, prompt, []);
    AlpacaClient.GenerateDataSpec(model, prompt, [], "model");
    assert apiUrl + "/" + "api/generate" == apiUrl + "/api/generate";
    AlpacaClient.PromptRequest(apiUrl, "api/generate", data, lib);
    assert Assoc.Latest<string, JValue>([], "model").None? && Assoc.Latest<string, JValue>([], "prompt").None?;
    assert Assoc.Latest<string, JValue>([], "stream").None?;
    assert !AlpacaClient.StreamFlag(data);
    var written := net(AssessmentRequest(apiUrl, model, task, essay, lib)).written;
    AlpacaClient.CollectRaw(lib.jsonDecode, "", written);
    assert "" + Strings.Concat(written) == Strings.Concat(written);
  }

  class Assessor {
    const llmClient: AlpacaClient.OllamaClient

    /** `new Assessor($llmClient)`. */
    constructor (llmClient: AlpacaClient.OllamaClient)
      ensures this.llmClient == llmClient
    {
      this.llmClient := llmClient;
    }

    /** `assessEssay($task, $studentEssay)`: the response text for the essay's prompt, from the client's current model. */
    method AssessEssay(task: EssayTask.Task, essay: string, lib: Codecs, net: Network) returns (assessment: string)
      ensures assessment == Assessment(llmClient.apiUrl, llmClient.modelName, task, essay, lib, net)
    {
      var prompt := EssayTask.BuildPrompt(task, essay);
      var raw := llmClient.Generate(prompt, [], lib, net);
      var parsed := AlpacaResponse.FromJson(raw, lib.jsonDecode);
      assessment := parsed.response;
    }
  }
}
