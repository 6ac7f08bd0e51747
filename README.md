# alpaca: a Dafny model

alpaca is a small PHP library for talking to an Ollama server. This project models four parts of it:

- **`mc\http`**: a thin cURL wrapper. It keeps an array of cURL options, keyed by option, picks a data encoder, and layers per-call options over its own before each GET, POST, PUT or DELETE.
- **`mc\alpaca\OllamaClient`**: builds those HTTP objects. It installs a write callback that either appends raw chunks or decodes streamed JSON lines into a buffer. On top of that it offers `prompt`, `generate`, `getModelsList` and `getModelInfo`.
- **`mc\alpaca\OllamaResponse`**: reads the JSON answer of `/api/generate` into an eleven-field record. A missing field gets a default.
- **The essay sample**:
  - `mc\essay\Task` fills a prompt template with a Task's fields and the student's essay.
  - `mc\essay\Assessor` sends that prompt to the model and keeps the `response` field.
  - From the `eval_essay.php` script, the model covers these parts:
    - the command-line flags;
    - the merge of the configuration file with them;
    - the server URL;
    - model selection;
    - output and input directory resolution;
    - the model-name sanitiser.

## How the model is built

**Modules.**
- `Strings` holds the text operations PHP provides: `str_replace`, `implode`, `explode`, `trim`, and `(string)` on integers, with `ParseInt`, which reads back what `(string)` writes.
- `PhpValues` holds decoded JSON values (`JValue`) and PHP's `??`, `empty` and truthiness.
- `Assoc` holds PHP's ordered arrays, as sequences of key/value pairs:
  - `Lookup` is `$a[$k]` (keys are unique).
  - `Put` is `$a[$k] = $v`.
  - `Overlay` is `array_merge` with string keys.
  - `Latest` gives the value a key ends up with after a sequence of assignments.

**Parameters standing in for the outside world.**
- `Codecs` stands for the foreign encoders: `http_build_query`, `json_encode` and `json_decode`.
- `Network` stands for cURL executing a set of options. It yields the transfer's result and the chunks handed to the write callback.
- Neither is modelled further.

**State.** The `mc\http` object and the `OllamaClient` object are classes whose fields the methods update:
- the cURL options are a `map` from option to value, so the order of the PHP array is not kept (see "## Left out");
- the encoder and the model name are fields.

`Task`, `OllamaResponse` and the eval script's configuration are values.

**Templates** are modelled as a sequence of pieces: literal text, or a `{{name}}` placeholder.
- `Render` gives a template's text.
- `Instantiate` is a single substitution pass.
- `BuildPrompt` is what `buildPrompt` actually does: six `str_replace` passes in source order, each over the whole text.

The model proves the following about them:
- The six passes equal one pass whenever the template is well formed (its literal text holds no `{` and its placeholder names are non-empty and brace-free) and the inserted values contain no `{`.
- Otherwise the passes can differ from one pass: a placeholder typed into the essay is expanded by a later pass.

**The model follows the code where a reader might expect otherwise:**
- Substitution in `buildPrompt` is sequential `str_replace`, not a single pass. `EssayTask.EssayTokenExpanded` shows the difference.
- A task configuration without `rubric` gets the built-in `RUBRIC` table, not the empty string.
- `get` and `delete` always build their query string with `http_build_query`, whatever encoder was chosen.

## Model

| member | source | states |
|---|---|---|
| McHttp.EncoderNamed | lib/mc/http.php:34-37 | only `http_build_query` and `json_encode` are accepted encoders; every other name is refused |
| McHttp.Encode | lib/mc/http.php:195 | the request body is the data passed through the object's current encoder, `http_build_query` or `json_encode` |
| McHttp.QueryUrl | lib/mc/http.php:170-174 | the URL `get` and `delete` build: base URL, a `?` when it has none, then the query string |
| McHttp.QueryUrlShape | lib/mc/http.php:168-177 | a GET/DELETE URL is the base URL, then `?` only when the base URL has none, then the query string; when the base URL already has a `?`, the query follows it directly |
| McHttp.QueryUrlEmptyQuery | lib/mc/http.php:170 | an empty query still leaves a trailing `?` on the URL |
| McHttp.QueryUrlNoAmpersand | lib/mc/http.php:170 | a URL that already holds a `?` gets the new query appended directly, with neither `?` nor `&` in between |
| McHttp.CallOptionsLayered | lib/mc/http.php:151-156 | a call's options are the object's options, overridden by the caller's extras, overridden by the verb's own keys |
| McHttp.VerbKeysWin | lib/mc/http.php:189-198 | the URL, method and body keys set by the verb override any caller-supplied values |
| McHttp.PostThenGetKeepsBody | lib/mc/http.php:168-198 | the options persist across calls: after a POST, a GET still carries the POST body option |
| McHttp.Http.constructor | lib/mc/http.php:66-70 | the new object holds the URL, `http_build_query` as its encoder, and the initial options applied in order |
| McHttp.Http.SetOption | lib/mc/http.php:105-108 | one option key is set or replaced; the other options and the encoder stay |
| McHttp.Http.SetEncoder | lib/mc/http.php:123-127 | the encoder changes exactly when the name is an accepted encoder; the options stay |
| McHttp.Http.SetWriteFunction | lib/mc/http.php:140-142 | the write-callback option is set and nothing else changes |
| McHttp.Http.SetOptions | lib/mc/http.php:151-156 | the options become the old ones with each entry assigned in order, so a later duplicate wins |
| McHttp.Http.Get | lib/mc/http.php:168-177 | the options sent include the query URL and GET; the reply is the network's result for exactly the options kept on the object |
| McHttp.Http.Post | lib/mc/http.php:189-198 | the options sent include the URL, POST and the encoded body; the reply is the network's result for those options |
| McHttp.Http.Put | lib/mc/http.php:210-219 | the options sent include the URL, the PUT method and the encoded body; the reply is the network's result for those options |
| McHttp.Http.Delete | lib/mc/http.php:231-241 | the options sent include the query URL and DELETE; the reply is the network's result for those options |
| AlpacaClient.StreamText | lib/mc/alpaca/OllamaClient.php:130-135 | the text a streamed chunk adds: the decoded `response` member when it is truthy, converted to a string; nothing otherwise |
| AlpacaClient.Collect | lib/mc/alpaca/OllamaClient.php:128-140 | the buffer after cURL hands every chunk, in order, to the write callback |
| AlpacaClient.OnChunk | lib/mc/alpaca/OllamaClient.php:128-140 | the callback reports the chunk's full length; without streaming the buffer grows by the chunk, with streaming by the chunk's decoded `response` text |
| AlpacaClient.CollectRaw | lib/mc/alpaca/OllamaClient.php:128-140 | without streaming the buffer ends up as the concatenation of all chunks |
| AlpacaClient.CollectStream | lib/mc/alpaca/OllamaClient.php:128-140 | with streaming the buffer ends up as the concatenation of each chunk's decoded `response` text |
| AlpacaClient.StreamChunkIgnored | lib/mc/alpaca/OllamaClient.php:131-136 | a streamed chunk that is not JSON, has no `response`, or whose `response` is falsy ("" or "0") adds nothing to the buffer |
| AlpacaClient.StreamHello | lib/mc/alpaca/OllamaClient.php:128-140 | streamed chunks "Hel" and "lo" give the buffer "Hello" |
| AlpacaClient.StreamFlag | lib/mc/alpaca/OllamaClient.php:217 | `$data['stream'] ?? false` passed on as a bool: false when absent or null, else the value's truthiness |
| AlpacaClient.PromptRequest | lib/mc/alpaca/OllamaClient.php:213-224 | `prompt` POSTs to `apiUrl/endpoint` with the JSON-encoded data; it streams exactly when the data's `stream` is truthy |
| AlpacaClient.GenerateData | lib/mc/alpaca/OllamaClient.php:249-258 | the `generate` body: the defaults `model`, `prompt`, `stream: false`, then each caller option assigned in order |
| AlpacaClient.GenerateDataSpec | lib/mc/alpaca/OllamaClient.php:249-260 | each key takes the caller's last value for it, else the default (model, prompt, `stream` false); `model`, `prompt`, `stream` stay the first three keys; no key appears twice |
| AlpacaClient.ModelsFixture | lib/mc/alpaca/OllamaClient.php:154-169 | a two-model tags answer yields both model names in order |
| AlpacaClient.ModelNames | lib/mc/alpaca/OllamaClient.php:165-167 | the loop collects the `name` of every entry of `models`, in order and with the same count |
| AlpacaClient.OllamaClient.constructor | lib/mc/alpaca/OllamaClient.php:62-67 | the client holds the URL, the model name (default `llama3.2:latest`) and the API key |
| AlpacaClient.OllamaClient.SetModelName | lib/mc/alpaca/OllamaClient.php:108-111 | only the model name changes |
| AlpacaClient.OllamaClient.HttpClient | lib/mc/alpaca/OllamaClient.php:124-142 | a fresh HTTP object for the URI, with the JSON encoder and only the write callback for the stream flag as its option |
| AlpacaClient.OllamaClient.GetModelsList | lib/mc/alpaca/OllamaClient.php:154-169 | the names listed in the decoded answer of GET `apiUrl/api/tags` |
| AlpacaClient.OllamaClient.GetModelInfo | lib/mc/alpaca/OllamaClient.php:184-198 | after POSTing `{"model": …}` with a JSON content-type header to `apiUrl/api/show`, the decoded body if cURL succeeded, else the empty array |
| AlpacaClient.OllamaClient.Prompt | lib/mc/alpaca/OllamaClient.php:213-224 | the buffer collected from the network's chunks for the prompt request |
| AlpacaClient.OllamaClient.Generate | lib/mc/alpaca/OllamaClient.php:249-260 | the raw answer of `api/generate` for the defaults overlaid with the caller's options |
| AlpacaResponse.FromValue | lib/mc/alpaca/OllamaResponse.php:133-143 | the eleven `??` reads of the decoded document, each falling back to its default |
| AlpacaResponse.FromJson | lib/mc/alpaca/OllamaResponse.php:130-145 | `fromJson`: the decoded text read by `FromValue` |
| AlpacaResponse.FromValueToValue | lib/mc/alpaca/OllamaResponse.php:130-145 | reading a response back from its JSON object gives the same record |
| AlpacaResponse.FromValuePresent | lib/mc/alpaca/OllamaResponse.php:133-143 | each field present with the expected type is taken as it is |
| AlpacaResponse.FromValueMissing | lib/mc/alpaca/OllamaResponse.php:133-143 | each missing field takes its default: empty string, false, empty list or 0 |
| AlpacaResponse.FromJsonNotObject | lib/mc/alpaca/OllamaResponse.php:130-145 | text that does not decode to an object gives the all-defaults response |
| AlpacaResponse.FromValueOnlyKeys | lib/mc/alpaca/OllamaResponse.php:130-145 | the result depends only on the eleven known keys |
| EssayTask.NewTask | samples/essay/mc/essay/Task.php:144-151 | each field is the configured value or its default ("A task", RUBRIC, "", 100); an empty template selects the built-in one |
| EssayTask.ReplaceEach | samples/essay/mc/essay/Task.php:240 | `str_replace` with two arrays: each (placeholder, value) pair in turn, over the whole text produced by the previous pairs |
| EssayTask.BuildPrompt | samples/essay/mc/essay/Task.php:220-243 | `buildPrompt`: the six replacement passes, in the source's order, over the Task's own template |
| EssayTask.ReplaceAllFill | samples/essay/mc/essay/Task.php:240 | one `str_replace` of a placeholder token over a well-formed template fills exactly that placeholder's slots |
| EssayTask.ReplaceEachInstantiate | samples/essay/mc/essay/Task.php:240 | when no value brings in a `{`, the sequential passes equal one substitution pass |
| EssayTask.BuildPromptSinglePass | samples/essay/mc/essay/Task.php:220-243 | with brace-free task fields and essay, the prompt is the one-pass fill of the template |
| EssayTask.BuildPromptNoPlaceholder | samples/essay/mc/essay/Task.php:220-243 | a template without any of the six tokens is returned unchanged |
| EssayTask.DefaultPrompt | samples/essay/mc/essay/Task.php:49-75 | the default template (CRLF line breaks, no break after the essay) yields heading, name, instructions, score format, limit, maximum score, description, rubric and essay, in that order |
| EssayTask.NoPlaceholderLeft | samples/essay/mc/essay/Task.php:220-243 | a template using only the six placeholders, with brace-free values, leaves no `{` in the prompt |
| EssayTask.EssayTokenExpanded | samples/essay/mc/essay/Task.php:240 | an essay consisting of `{{rubric}}` is replaced by the rubric, where one pass would keep it |
| EssayTask.RubricTokenKept | samples/essay/mc/essay/Task.php:240 | a `{{task_name}}` inside the rubric survives, because the `task_name` pass ran earlier |
| EssayTask.ExamplePrompt | samples/essay/mc/essay/Task.php:220-243 | a worked example: the template `{{task_name}}:{{task_description}}:{{rubric}}:{{student_response}}:{{max_score}}` gives "T:D:R:S:50" |
| EssayAssessor.AssessmentSpec | samples/essay/mc/essay/Assessor.php:86-93 | the request POSTs model, prompt and no streaming to `apiUrl/api/generate`; the result is the `response` member of the decoded raw answer |
| EssayAssessor.Assessor.constructor | samples/essay/mc/essay/Assessor.php:48-51 | the assessor keeps the client it is given |
| EssayAssessor.Assessor.AssessEssay | samples/essay/mc/essay/Assessor.php:86-93 | the assessment for the client's current URL and model |
| EvalEssay.IsAbsolutePath | samples/essay/eval_essay.php:35-39 | `is_absolute_path`: on Windows a drive letter and colon or two leading backslashes, elsewhere a leading `/` |
| EvalEssay.IsAbsolutePathExamples | samples/essay/eval_essay.php:35-39 | a leading `/` is absolute on POSIX; a drive letter or `\\` is absolute on Windows, and each is not absolute on the other system |
| EvalEssay.AbsoluteExtend | samples/essay/eval_essay.php:35-39 | appending to an absolute path keeps it absolute, since only its first one or two characters decide |
| EvalEssay.ResolveDirectory | samples/essay/eval_essay.php:160-162 | a configured absolute directory as it is, a relative one under the script's directory, the default under it when none is set |
| EvalEssay.OutputDirectory | samples/essay/eval_essay.php:160-162 | the output folder: `output_directory` resolved, default `data/output` |
| EvalEssay.InputDirectory | samples/essay/eval_essay.php:199-201 | the input folder: `input_directory` resolved, default `data/input` |
| EvalEssay.ResolveDirectoryAbsolute | samples/essay/eval_essay.php:160-162 | a resolved directory is absolute whenever the script's directory is |
| EvalEssay.OutputDirectorySpec | samples/essay/eval_essay.php:160-162 | an absolute `--output`/`-o` is used as it is, a relative one goes under the script's directory, and without the flag the file's setting decides |
| EvalEssay.DefaultDirectories | samples/essay/eval_essay.php:160-162 | without configured directories, output goes to `data/output` and input to `data/input` under the script's directory |
| EvalEssay.CliValue | samples/essay/eval_essay.php:93-94 | one flag's value: the long form if given, else the short form, else none |
| EvalEssay.ModelList | samples/essay/eval_essay.php:112-113 | the `--models` argument split on `,`, each item trimmed |
| EvalEssay.CliConfig | samples/essay/eval_essay.php:92-114 | `$cliConfig`: one setting per given flag, in the script's order, `models` last |
| EvalEssay.ModelListSpec | samples/essay/eval_essay.php:111-114 | the `--models` list has one trimmed item per comma-separated piece, and no item holds a comma |
| EvalEssay.CliConfigSpec | samples/essay/eval_essay.php:93-114 | each setting takes the long flag's value if given, else the short flag's, else it is absent; models are split and trimmed |
| EvalEssay.MergeConfig | samples/essay/eval_essay.php:134 | `array_merge($config, $cliConfig)` |
| EvalEssay.MergeConfigSpec | samples/essay/eval_essay.php:134 | a command-line setting overrides the file's; keys only in the file keep their value and their order at the front; no key is repeated |
| EvalEssay.ServerUrl | samples/essay/eval_essay.php:137 | the configured `ollama_server`, else `http://127.0.0.1:11434` |
| EvalEssay.ServerUrlSpec | samples/essay/eval_essay.php:137 | the server is `--server`/`-s`, else the file's `ollama_server`, else `http://127.0.0.1:11434` |
| EvalEssay.SanitizeModelName | samples/essay/eval_essay.php:219 | the three `str_replace` passes turning `:`, `.` and `/` into `_` |
| EvalEssay.SanitizeModelNameSpec | samples/essay/eval_essay.php:219 | the folder name has the model's length, `:`, `.` and `/` become `_`, and every other character is kept |
| EvalEssay.Intersect | samples/essay/eval_essay.php:150 | `array_intersect`: the requested models the server lists, in the requested order, repeats kept |
| EvalEssay.IntersectCount | samples/essay/eval_essay.php:150 | each requested model is kept exactly as often as it was requested if the server has it, and never otherwise |
| EvalEssay.IntersectAppend | samples/essay/eval_essay.php:150 | the intersection of a concatenation is the concatenation of the intersections |
| EvalEssay.IntersectSelf | samples/essay/eval_essay.php:149-150 | with no models configured, every available model is used, in order |
| EvalEssay.SelectModels | samples/essay/eval_essay.php:149-155 | the requested models (all available ones when none are requested) the server offers; none left is a failure carrying the available list |
| EvalEssay.SelectModelsSpec | samples/essay/eval_essay.php:149-155 | the selection fails, carrying the available list, exactly when the intersection is empty; otherwise it is that intersection |
| Assoc.OverlayLookup | samples/essay/eval_essay.php:134 | after `array_merge`, a key takes the second array's value if there is one, else the first array's |
| Assoc.LatestAppend | samples/essay/eval_essay.php:93-114 | after two runs of assignments, a key holds its last value from the second run if it got one there |
| Assoc.OverlayUnique | samples/essay/eval_essay.php:134 | `array_merge` into an array without repeated keys gives an array without repeated keys |
| Assoc.PutLookup | lib/mc/http.php:105-108 | after assigning a key, that key reads the new value and every other key reads as before |
| Strings.ReplaceAll | samples/essay/mc/essay/Task.php:240 | one `str_replace` pass: left to right, each non-overlapping occurrence replaced, the scan resuming after it |
| Strings.ReplaceAllAbsent | samples/essay/mc/essay/Task.php:240 | `str_replace` of a pattern that does not occur leaves the text unchanged |
| Strings.IntToString | samples/essay/mc/essay/Task.php:237 | `(string)$maxScore`: decimal digits, `-` before a negative number |
| Strings.IntToStringRoundTrip | samples/essay/mc/essay/Task.php:237 | `(string)$maxScore` parses back to the same integer |
| Strings.Split | samples/essay/eval_essay.php:113 | `explode`: the pieces between separators, empty ones kept |
| Strings.SplitJoin | samples/essay/eval_essay.php:113 | `implode` undoes `explode` on the same separator |
| Strings.Trim | samples/essay/eval_essay.php:113 | `trim`: leading and trailing whitespace removed |
| Strings.TrimSpec | samples/essay/eval_essay.php:113 | `trim` gives a contiguous part of the text that neither starts nor ends with whitespace, and only whitespace was removed |

## Left out

- The private `request` helper of `mc\http` (lib/mc/http.php:85-95) is the `Network` parameter: the calls to `curl_init`/`curl_setopt_array`/`curl_exec`, and the `E_USER_NOTICE` that `trigger_error` raises on a failed transfer, are not modelled.
- McHttp.Http.Get: the options are a `map`, so their order is not modelled. `set_option` overwrites a key where it already stands and appends a new key at the end, and `curl_setopt_array` applies the array in that order. So the position of the method flags depends on the call history: after `post` then `get`, `CURLOPT_HTTPGET` is appended after the stale `CURLOPT_POST` and is applied last; but after `get`, `post`, `get`, the flag `CURLOPT_HTTPGET` keeps its early position and the stale `CURLOPT_POST` and `CURLOPT_POSTFIELDS` are applied after it. libcurl's last-set method decides what goes out. The model shows that the stale keys stay (`PostThenGetKeepsBody`), but not which method wins.
- McHttp.Http.Post: likewise, after a GET on the same object the stale `CURLOPT_HTTPGET` may be applied after `CURLOPT_POST`. The option order that decides which method curl uses is not modelled.
- `http_build_query`, `json_encode` and `json_decode` are the opaque `Codecs` functions. Their byte-level formats are not modelled.
- The `echo`/`flush` the streaming callback performs to print each token is output and is left out. Only the buffer is modelled.
- PHP strings are modelled as sequences of characters standing for bytes. Multibyte text and encodings are not modelled.
- JSON floats are not values of `JValue`, so caller options such as `'temperature' => 0.7` in a `generate` call (lib/mc/alpaca/OllamaClient.php:244) cannot be expressed. The durations and counts of an Ollama answer are integers and are modelled.
- McHttp.Http.SetEncoder: `set_encoder` declares its parameter `callable`, so PHP raises a `TypeError` for a name that is not a function (for example "base64") before the encoder list is searched. The model treats every name that is not an accepted encoder alike: the old encoder stays.
- EssayTask.NewTask: a configured field of the wrong type takes its default. PHP coerces scalars into the typed properties instead (a `max_score` of "80" becomes 80, a `task_name` of 5 becomes "5") and raises a `TypeError` for an array or a non-numeric `max_score` string.
- AlpacaClient.StreamText: a `response` that is a JSON object (always truthy) adds "" here, where PHP throws on converting the object to a string; an array adds "Array", as in PHP after its warning.
- AlpacaClient.StreamFlag: a `stream` value that is an array or object is read by its truthiness, where PHP raises a `TypeError` at the `bool $stream` parameter of `getHttpClient`. Scalars are coerced to bool as PHP does.
- AlpacaResponse.FromValue: a field present with the wrong type takes its default. PHP instead coerces a scalar into a typed property (a number into `model`, a numeric string into `eval_count`), raises a `TypeError` for an array in a string, bool or int property, for a non-numeric string in an int property and for a scalar `context`, and keeps a JSON-object `context` as it is, since decoding with `assoc` makes it an array.
- AlpacaClient.OllamaClient.GetModelInfo: a decoded answer that is not an array would raise a `TypeError` in PHP. The model returns the decoded value as it is.
- AlpacaClient.ModelNames: an entry without a string `name` gives the empty name. PHP instead appends null for an entry that is null, a number, a boolean, a list or an object without `name` (with a warning); for a string entry `$model['name']` is a string-offset read, which PHP 7.4 answers with a warning and the string's first character and PHP 8 with a thrown error; a `name` that is not a string also gives the empty name, where PHP appends the value itself. A missing `models` gives no names, as in PHP after its warning; a `models` that is a JSON object also gives no names here, while PHP iterates its values.
- McHttp.OptKey: an `Other(n)` key whose code equals the constant of a named option is a separate key here; in PHP both are the same integer key, so one would override the other. `OllamaClient` and `Assessor` set only named options, so this arises only for a caller that passes such a raw code to `mc\http`.
- Numeric keys in `array_merge` are renumbered by PHP. All keys used here are strings, so `Overlay` does not renumber.
- The rest of `eval_essay.php` is not part of this model. That covers:
  - reading the configuration, task and template files, globbing the `.essay` files, `mkdir`, and writing the evaluations;
  - the `loadTask` helper;
  - the help text and the process exits;
  - the logger messages, including the list of available models in the failure message (`SelectModels` hands that list back instead).
- EvalEssay.ConfigString: a directory or server setting that is not a string counts as absent. PHP coerces a number or boolean to a string and uses it, and raises a `TypeError` for an array, at `is_absolute_path` or at the `string $apiUrl` parameter of the client's constructor.
- EvalEssay.RequestedModels: a `models` setting that is not a JSON list counts as absent, so every available model is tried. PHP raises a `TypeError` in `array_intersect` for a scalar (a string, number or boolean), and intersects a JSON object by its values. An item of the list that is a JSON object is compared as "" here, where PHP's `array_intersect` casts it to "Array" with an "Array to string conversion" warning.
- `getopt` parsing is abstracted to a map from option name to value. Repeated options and optional values are not modelled.
- The essay-set-up section of `eval_essay.php` reads `$config['task_config']`, which no flag sets. It also builds the assessor with two arguments, which the constructor does not take. These file and object set-up steps are outside the model.
- The getters of `mc\essay\Task` (samples/essay/mc/essay/Task.php:158-197) are the fields of the `Task` datatype.
- The chat and tools samples, `LLMClient`, the autoloader and the logger are not part of this model.
