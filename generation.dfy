/**
 The generation step shared by both scripts (`chat_complete`): the prompt
 template around the retrieved context and the query, the request sent to
 the inference server, and the lookup of the `"response"` field in its reply.
 The HTTP exchange itself is outside the model: the reply is an input.
 */
module Generation {
  import opened Wrappers

  const ServerUrl: string := "http://localhost:11434/api/generate"
  const ModelName: string := "gemma3:4b"
  const TimeoutSeconds: nat := 180
  const JsonHeaders: map<string, string> := map["Content-Type" := "application/json"]

  /** The literal text of the template before the context, between context and query, and after the query. */
  const Opening: string := "Based on the following information:\n    \n    "
  const Middle: string := "\n\n    provide an answer to the following question:\n\n    "
  const Closing: string := "\n    "

  /** `s` occurs in `t` as a contiguous block. */
  predicate IsSubstring(s: string, t: string)
  {
    exists i :: 0 <= i <= |t| && s <= t[i..]
  }

  /**
   The augmented prompt: the context and the query, each verbatim, at fixed
   places between the template's literal parts.
   */
  function AugmentedPrompt(context: string, query: string): (p: string)
    ensures |p| == |Opening| + |context| + |Middle| + |query| + |Closing|
    ensures p[..|Opening|] == Opening
    ensures p[|Opening|..|Opening| + |context|] == context
    ensures p[|Opening| + |context|..|Opening| + |context| + |Middle|] == Middle
    ensures p[|Opening| + |context| + |Middle|..|p| - |Closing|] == query
    ensures p[|p| - |Closing|..] == Closing
  {
    Opening + context + Middle + query + Closing
  }

  /** The prompt holds the context and the query as contiguous substrings. */
  lemma PromptContainsContextAndQuery(context: string, query: string)
    ensures IsSubstring(context, AugmentedPrompt(context, query))
    ensures IsSubstring(query, AugmentedPrompt(context, query))
  {
    var p := AugmentedPrompt(context, query);
    var i := |Opening|;
    assert p[i..][..|context|] == p[i..i + |context|] == context;
    assert context <= p[i..];
    var j := |Opening| + |context| + |Middle|;
    assert p[j..][..|query|] == p[j..j + |query|] == query;
    assert query <= p[j..];
  }

  /**
   Knowing the length of the query, the prompt determines both the context and
   the query: nothing of either is lost or merged into the template.
   */
  lemma PromptDeterminesParts(c1: string, q1: string, c2: string, q2: string)
    requires AugmentedPrompt(c1, q1) == AugmentedPrompt(c2, q2)
    requires |q1| == |q2|
    ensures c1 == c2 && q1 == q2
  {
    var p := AugmentedPrompt(c1, q1);
    assert |c1| == |c2|;
    assert c1 == p[|Opening|..|Opening| + |c1|];
    assert q1 == p[|Opening| + |c1| + |Middle|..|p| - |Closing|];
  }

  /** The JSON body of the request. */
  datatype Payload = Payload(model: string, prompt: string, system: string, stream: bool)

  /** The HTTP request `chat_complete` sends. */
  datatype Request = Request(
    verb: string, url: string, headers: map<string, string>, body: Payload, timeout: nat)

  /** The request for a retrieved context, a query and a system prompt. */
  function MakeRequest(context: string, query: string, systemPrompt: string): (r: Request)
    ensures r.verb == "POST" && r.url == ServerUrl && r.timeout == 180
    ensures r.headers == map["Content-Type" := "application/json"]
    ensures r.body.model == "gemma3:4b"
    ensures r.body.prompt == AugmentedPrompt(context, query)
    ensures r.body.system == systemPrompt
    ensures !r.body.stream
  {
    Request("POST", ServerUrl, JsonHeaders,
      Payload(ModelName, AugmentedPrompt(context, query), systemPrompt, false), TimeoutSeconds)
  }

  /** `response.get("response", None)` on the decoded reply. */
  function ResponseText<V>(reply: map<string, V>): (r: Option<V>)
    ensures r.Some? <==> "response" in reply
    ensures r.Some? ==> r.value == reply["response"]
  {
    if "response" in reply then Some(reply["response"]) else None
  }

  /** A reply carrying `"response": v` yields `v`, whatever else it holds. */
  lemma ResponsePresent<V>(reply: map<string, V>, v: V)
    ensures ResponseText(reply["response" := v]) == Some(v)
  {
  }

  /** A reply without the field yields no answer, and no failure. */
  lemma ResponseAbsent<V>(reply: map<string, V>)
    requires "response" !in reply
    ensures ResponseText(reply) == None
  {
  }

  /** One round of `chat_complete`: the request sent and the answer read from the reply. */
  datatype Exchange<V> = Exchange(request: Request, answer: Option<V>)
}
