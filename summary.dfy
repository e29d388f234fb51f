/**
 * `get_ai_summary_sync(text)`: ask the AI client for a summary when an API
 * key is configured, and fall back to the word-frequency summary whenever
 * there is no key, the client raises, or the reply carries no non-blank
 * content. The environment lookup and the client are inputs: the key is the
 * value of `SARVAM_API_KEY` (absent or a string), and the client is a
 * function from the key and the request to what the call produced.
 */
module Summary {
  import opened Wrappers
  import opened PyStr
  import TopWords

  /** How many leading characters of the document the request carries. */
  const PromptLimit: nat := 3000

  /** The `top_n` the fallback is called with. */
  const FallbackTopN: nat := 5

  const SystemPrompt: string :=
    "You are an expert document analyzer. Provide a concise, professional summary of the document content in 2-3 sentences, focusing on key qualifications, experience, and skills if it's a resume."

  const UserPromptHead: string := "Please provide a concise summary of this document:\n\n"

  /** The chat-completion request: the two messages and the sampling settings. */
  datatype AiRequest = AiRequest(system: string, user: string, maxTokens: nat, temperatureTenths: nat)

  /**
   * What the client call produced: it raised, or it answered with a list of
   * choices, each carrying message content (`Some`) or not (`None`, which
   * covers a missing message, a missing `content` attribute and `None`
   * content, all of which end in the fallback).
   */
  datatype AiReply =
    | ClientRaised(msg: string)
    | Replied(choices: seq<Option<string>>)

  /** The user message: the fixed head followed by the text, cut after its first 3000 characters. */
  function UserPrompt(text: string): (p: string)
    ensures UserPromptHead <= p
    ensures p[|UserPromptHead|..] <= text
    ensures |p| == |UserPromptHead| + if |text| < PromptLimit then |text| else PromptLimit
  {
    UserPromptHead + text[..if |text| < PromptLimit then |text| else PromptLimit]
  }

  /**
   * The request: the fixed system message, the user message carrying at most
   * the first 3000 characters of the text, at most 200 tokens, temperature 0.3.
   */
  function Request(text: string): (q: AiRequest)
    ensures q.system == SystemPrompt && q.maxTokens == 200 && q.temperatureTenths == 3
    ensures UserPromptHead <= q.user && q.user[|UserPromptHead|..] <= text
    ensures |q.user| <= |UserPromptHead| + PromptLimit
    ensures q.user == UserPrompt(text)
  {
    AiRequest(SystemPrompt, UserPrompt(text), 200, 3)
  }

  /** `if not api_key`: an absent variable and an empty string both mean no key. */
  predicate HasKey(apiKey: Option<string>) {
    apiKey.Some? && apiKey.value != []
  }

  /** The stripped content of the first choice, when the reply has one. */
  function FirstContent(reply: AiReply): (c: Option<string>)
    ensures c.Some? <==> reply.Replied? && |reply.choices| > 0 && reply.choices[0].Some?
    ensures c.Some? ==> c.value == Strip(reply.choices[0].value)
  {
    if reply.Replied? && |reply.choices| > 0 && reply.choices[0].Some? then
      Some(Strip(reply.choices[0].value))
    else None
  }

  /** The reply is used exactly when its first choice has content that is not all whitespace. */
  predicate UsableReply(reply: AiReply) {
    FirstContent(reply).Some? && FirstContent(reply).value != []
  }

  /**
   * `get_ai_summary_sync(text)`: the pair (summary, is_ai_generated). The flag
   * is set exactly when a key is configured and the reply is usable, and then
   * the summary is the reply's stripped content; otherwise the summary is
   * `get_top_words(text)`.
   */
  function AiSummarySync(text: string, apiKey: Option<string>, client: (string, AiRequest) -> AiReply): (r: (string, bool))
    ensures r.1 <==> HasKey(apiKey) && UsableReply(client(apiKey.value, Request(text)))
    ensures r.1 ==> r.0 == FirstContent(client(apiKey.value, Request(text))).value
    ensures !r.1 ==> r.0 == TopWords.GetTopWords(text, FallbackTopN)
  {
    if !HasKey(apiKey) then (TopWords.GetTopWords(text, FallbackTopN), false)
    else
      var reply := client(apiKey.value, Request(text));
      match reply
      case ClientRaised(_) => (TopWords.GetTopWords(text, FallbackTopN), false)
      case Replied(choices) =>
        if |choices| > 0 && choices[0].Some? then
          var summary := Strip(choices[0].value);
          if summary != [] then (summary, true) else (TopWords.GetTopWords(text, FallbackTopN), false)
        else (TopWords.GetTopWords(text, FallbackTopN), false)
  }

  /** Whatever path is taken, the summary is never empty, and an AI summary has no surrounding whitespace. */
  lemma SummaryNeverEmpty(text: string, apiKey: Option<string>, client: (string, AiRequest) -> AiReply)
    ensures var r := AiSummarySync(text, apiKey, client);
      && r.0 != []
      && (r.1 ==> !IsSpace(r.0[0]) && !IsSpace(r.0[|r.0| - 1]))
  {
    var r := AiSummarySync(text, apiKey, client);
    if r.1 {
      var reply := client(apiKey.value, Request(text));
      assert r.0 == Strip(reply.choices[0].value) && r.0 != [];
    } else {
      var h := TopWords.ReportHeader(FallbackTopN);
      assert h <= r.0 && h != [];
    }
  }

  /** Without a key the client is never consulted: any two clients give the same fallback. */
  lemma NoKeyIgnoresClient(text: string, apiKey: Option<string>, c1: (string, AiRequest) -> AiReply, c2: (string, AiRequest) -> AiReply)
    requires !HasKey(apiKey)
    ensures AiSummarySync(text, apiKey, c1) == AiSummarySync(text, apiKey, c2) == (TopWords.GetTopWords(text, FallbackTopN), false)
  {
  }

  /**
   * Texts that agree on their first 3000 characters send the same request, so
   * they get the AI summary together and then the same one; only the fallback
   * looks at the whole text.
   */
  lemma OnlyPrefixSent(t1: string, t2: string, apiKey: Option<string>, client: (string, AiRequest) -> AiReply)
    requires |t1| >= PromptLimit && |t2| >= PromptLimit
    requires t1[..PromptLimit] == t2[..PromptLimit]
    ensures Request(t1) == Request(t2)
    ensures var r1 := AiSummarySync(t1, apiKey, client); var r2 := AiSummarySync(t2, apiKey, client);
      (r1.1 <==> r2.1) && (r1.1 ==> r1.0 == r2.0)
  {
    assert Request(t1) == Request(t2);
  }

  /** A text longer than 3000 characters is sent cut: what follows the first 3000 characters never reaches the client. */
  lemma LongTextTruncated(text: string, tail: string)
    requires |text| == PromptLimit
    ensures Request(text + tail) == Request(text)
  {
    assert (text + tail)[..PromptLimit] == text;
  }
}
