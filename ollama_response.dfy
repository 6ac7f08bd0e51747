/**
 * `mc\alpaca\OllamaResponse`: the eleven fields of a response of the
 * generation endpoint, read from its JSON text. A field whose key is
 * missing or null, or whose document is not a JSON object, takes its
 * zero value; the parser never fails.
 */
module AlpacaResponse {
  import opened Wrappers
  import opened PhpValues

  datatype OllamaResponse = OllamaResponse(
    model: string,
    createdAt: string,
    response: string,
    done: bool,
    context: seq<JValue>,
    totalDuration: int,
    loadDuration: int,
    promptEvalCount: int,
    promptEvalDuration: int,
    evalCount: int,
    evalDuration: int)

  /** The response in which every field has its zero value. */
  const EMPTY := OllamaResponse("", "", "", false, [], 0, 0, 0, 0, 0, 0)

  /** The eleven keys the parser reads. */
  const KEYS := ["model", "created_at", "response", "done", "context", "total_duration",
    "load_duration", "prompt_eval_count", "prompt_eval_duration", "eval_count", "eval_duration"]

  /** The `??` lookups of `fromJson`, applied to the decoded document. */
  function FromValue(data: JValue): OllamaResponse
  {
    OllamaResponse(
      StringOr(data, "model", ""),
      StringOr(data, "created_at", ""),
      StringOr(data, "response", ""),
      BoolOr(data, "done", false),
      ListOr(data, "context"),
      IntOr(data, "total_duration", 0),
      IntOr(data, "load_duration", 0),
      IntOr(data, "prompt_eval_count", 0),
      IntOr(data, "prompt_eval_duration", 0),
      IntOr(data, "eval_count", 0),
      IntOr(data, "eval_duration", 0))
  }

  /** `OllamaResponse::fromJson($json)`: decode, then read the fields. */
  function FromJson(json: string, decode: string -> JValue): OllamaResponse
  {
    FromValue(decode(json))
  }

  /** The JSON object a server sends for a response: each field under its key. */
  function ToValue(r: OllamaResponse): JValue
  {
    JObj(map[
      "model" := JStr(r.model),
      "created_at" := JStr(r.createdAt),
      "response" := JStr(r.response),
      "done" := JBool(r.done),
      "context" := JArr(r.context),
      "total_duration" := JInt(r.totalDuration),
      "load_duration" := JInt(r.loadDuration),
      "prompt_eval_count" := JInt(r.promptEvalCount),
      "prompt_eval_duration" := JInt(r.promptEvalDuration),
      "eval_count" := JInt(r.evalCount),
      "eval_duration" := JInt(r.evalDuration)])
  }

  // Each field read back from `ToValue`, a few keys per lemma.
  lemma ToValueStrings(r: OllamaResponse)
    ensures StringOr(ToValue(r), "model", "") == r.model
    ensures StringOr(ToValue(r), "created_at", "") == r.createdAt
    ensures StringOr(ToValue(r), "response", "") == r.response
  {
    var m := ToValue(r).fields;
    assert m["model"] == JStr(r.model) && m["created_at"] == JStr(r.createdAt) && m["response"] == JStr(r.response);
  }

  lemma ToValueFlags(r: OllamaResponse)
    ensures BoolOr(ToValue(r), "done", false) == r.done
    ensures ListOr(ToValue(r), "context") == r.context
  {
    var m := ToValue(r).fields;
    assert m["done"] == JBool(r.done) && m["context"] == JArr(r.context);
  }

  lemma ToValueDurations(r: OllamaResponse)
    ensures IntOr(ToValue(r), "total_duration", 0) == r.totalDuration
    ensures IntOr(ToValue(r), "load_duration", 0) == r.loadDuration
    ensures IntOr(ToValue(r), "eval_duration", 0) == r.evalDuration
  {
    var m := ToValue(r).fields;
    assert m["total_duration"] == JInt(r.totalDuration) && m["load_duration"] == JInt(r.loadDuration);
    assert m["eval_duration"] == JInt(r.evalDuration);
  }

  lemma ToValueCounts(r: OllamaResponse)
    ensures IntOr(ToValue(r), "prompt_eval_count", 0) == r.promptEvalCount
    ensures IntOr(ToValue(r), "prompt_eval_duration", 0) == r.promptEvalDuration
    ensures IntOr(ToValue(r), "eval_count", 0) == r.evalCount
  {
    var m := ToValue(r).fields;
    assert m["prompt_eval_count"] == JInt(r.promptEvalCount) && m["prompt_eval_duration"] == JInt(r.promptEvalDuration);
    assert m["eval_count"] == JInt(r.evalCount);
  }

  /** Every field of a response survives being sent as JSON and parsed back. */
  lemma FromValueToValue(r: OllamaResponse)
    ensures FromValue(ToValue(r)) == r
  {
    ToValueStrings(r);
    ToValueFlags(r);
    ToValueDurations(r);
    ToValueCounts(r);
  }

  /** Each field equals the value stored under its key when that value is present, non-null and of the field's type. */
  lemma FromValuePresent(data: JValue)
    ensures forall s :: Member(data, "model") == Some(JStr(s)) ==> FromValue(data).model == s
    ensures forall s :: Member(data, "created_at") == Some(JStr(s)) ==> FromValue(data).createdAt == s
    ensures forall s :: Member(data, "response") == Some(JStr(s)) ==> FromValue(data).response == s
    ensures forall b :: Member(data, "done") == Some(JBool(b)) ==> FromValue(data).done == b
    ensures forall c :: Member(data, "context") == Some(JArr(c)) ==> FromValue(data).context == c
    ensures forall n :: Member(data, "total_duration") == Some(JInt(n)) ==> FromValue(data).totalDuration == n
    ensures forall n :: Member(data, "load_duration") == Some(JInt(n)) ==> FromValue(data).loadDuration == n
    ensures forall n :: Member(data, "prompt_eval_count") == Some(JInt(n)) ==> FromValue(data).promptEvalCount == n
    ensures forall n :: Member(data, "prompt_eval_duration") == Some(JInt(n)) ==> FromValue(data).promptEvalDuration == n
    ensures forall n :: Member(data, "eval_count") == Some(JInt(n)) ==> FromValue(data).evalCount == n
    ensures forall n :: Member(data, "eval_duration") == Some(JInt(n)) ==> FromValue(data).evalDuration == n
  {
  }

  /** A missing or null key gives the field's zero value. */
  lemma FromValueMissing(data: JValue)
    ensures Member(data, "model").None? ==> FromValue(data).model == ""
    ensures Member(data, "created_at").None? ==> FromValue(data).createdAt == ""
    ensures Member(data, "response").None? ==> FromValue(data).response == ""
    ensures Member(data, "done").None? ==> !FromValue(data).done
    ensures Member(data, "context").None? ==> FromValue(data).context == []
    ensures Member(data, "total_duration").None? ==> FromValue(data).totalDuration == 0
    ensures Member(data, "load_duration").None? ==> FromValue(data).loadDuration == 0
    ensures Member(data, "prompt_eval_count").None? ==> FromValue(data).promptEvalCount == 0
    ensures Member(data, "prompt_eval_duration").None? ==> FromValue(data).promptEvalDuration == 0
    ensures Member(data, "eval_count").None? ==> FromValue(data).evalCount == 0
    ensures Member(data, "eval_duration").None? ==> FromValue(data).evalDuration == 0
  {
  }

  /** Text that is not JSON (decoded to null), or any document that is not an object, gives the all-zero response. */
  lemma FromJsonNotObject(json: string, decode: string -> JValue)
    requires !decode(json).JObj?
    ensures FromJson(json, decode) == EMPTY
  {
  }

  /** Keys other than the eleven named ones do not affect the result. */
  lemma FromValueOnlyKeys(a: JValue, b: JValue)
    requires forall i :: 0 <= i < |KEYS| ==> Member(a, KEYS[i]) == Member(b, KEYS[i])
    ensures FromValue(a) == FromValue(b)
  {
    assert KEYS[0] == "model";
    assert KEYS[1] == "created_at";
    assert KEYS[2] == "response";
    assert KEYS[3] == "done";
    assert KEYS[4] == "context";
    assert KEYS[5] == "total_duration";
    assert KEYS[6] == "load_duration";
    assert KEYS[7] == "prompt_eval_count";
    assert KEYS[8] == "prompt_eval_duration";
    assert KEYS[9] == "eval_count";
    assert KEYS[10] == "eval_duration";
  }
}
