/**
 * The chat backend of chatbot.py: chat_with_huggingface's retry loop and response parsing
 * (chatbot.py:35-143), the cloud/local fallback table of get_ai_response (chatbot.py:224-260)
 * and the verdict and context of generate_ai_explanation (chatbot.py:267-289). The network is
 * a parameter: what each POST attempt returns, and the outcome of chat_with_ollama as a whole.
 */
module Chat {
  import opened Wrappers
  import opened Strings

  /** A reply as the two backends return it: success with the text, or failure with a message. */
  datatype Reply = Answered(response: string) | Failed(error: string)

  /** A parsed JSON body. */
  datatype Json = JString(s: string) | JList(items: seq<Json>) | JObject(fields: map<string, Json>) | JOther

  /** What one requests.post to the inference API ends in. */
  datatype Attempt =
    | Response(status: int, body: Option<Json>)  // body None: response.json() fails
    | Timeout
    | ConnectionFailure                           // any other exception of requests

  /** How chat_with_huggingface fails. */
  datatype ChatError = NoToken | LoadingTimeout | TimedOut | HttpError(status: nat) | BadFormat | Crashed

  /** The error texts; an uncaught exception's str(e) is not modelled and reads as "". */
  function Message(e: ChatError): string {
    match e
    case NoToken => "Hugging Face token not configured."
    case LoadingTimeout => "Model loading timeout."
    case TimedOut => "Request timed out."
    case HttpError(status) => "HTTP Error " + Decimal(status)
    case BadFormat => "Unexpected API response format."
    case Crashed => ""
  }

  const Attempts := 3
  const Loading := 503

  /** response.raise_for_status() raises for client and server errors. */
  predicate IsError(status: int) {
    400 <= status < 600
  }

  /** `d.get("generated_text", "").strip()` on a JSON value; the strip fails on a non-string. */
  function GeneratedText(v: Json): Result<string, ChatError> {
    if !v.JObject? then Failure(Crashed)
    else if "generated_text" !in v.fields then Success("")
    else match v.fields["generated_text"]
      case JString(s) => Success(Strip(s))
      case _ => Failure(Crashed)
  }

  /** The response body: a non-empty list gives its first element's text, an object its own. */
  function Parse(body: Json): (r: Result<string, ChatError>)
    ensures body.JList? && body.items != [] ==> r == GeneratedText(body.items[0])
    ensures body.JObject? ==> r == GeneratedText(body)
    ensures (body.JString? || body.JOther? || body == JList([])) ==> r == Failure(BadFormat)
  {
    match body
    case JList(items) => if |items| > 0 then GeneratedText(items[0]) else Failure(BadFormat)
    case JObject(_) => GeneratedText(body)
    case _ => Failure(BadFormat)
  }

  /** The outcome of attempt k: None means the loop goes on (a 503, or a timeout before the last attempt). */
  function Step(a: Attempt, k: nat): Option<Result<string, ChatError>> {
    match a
    case Response(status, body) =>
      if status == Loading then None
      else if IsError(status) then Some(Failure(HttpError(status)))
      else if body.None? then Some(Failure(Crashed))
      else Some(Parse(body.value))
    case Timeout => if k < Attempts - 1 then None else Some(Failure(TimedOut))
    case ConnectionFailure => Some(Failure(Crashed))
  }

  /** The attempts from k on. */
  function From(net: nat -> Attempt, k: nat): Result<string, ChatError>
    requires k <= Attempts
    decreases Attempts - k
  {
    if k == Attempts then Failure(LoadingTimeout)
    else match Step(net(k), k)
      case Some(r) => r
      case None => From(net, k + 1)
  }

  /** What chat_with_huggingface returns for a token (None or "" when not configured). */
  function HuggingFace(token: Option<string>, net: nat -> Attempt): Result<string, ChatError> {
    if token.None? || token.value == "" then Failure(NoToken) else From(net, 0)
  }

  function AsReply(r: Result<string, ChatError>): Reply {
    match r
    case Success(text) => Answered(text)
    case Failure(e) => Failed(Message(e))
  }

  /**
   * chat_with_huggingface: the token check, then at most three POST attempts; tries counts
   * the requests made.
   */
  method ChatWithHuggingface(token: Option<string>, net: nat -> Attempt) returns (r: Result<string, ChatError>, tries: nat)
    ensures r == HuggingFace(token, net)
    ensures tries <= Attempts
    ensures token.None? || token.value == "" ==> tries == 0
    ensures forall k :: 0 <= k < tries - 1 ==> Step(net(k), k).None?
    ensures tries > 0 && tries < Attempts ==> Step(net(tries - 1), tries - 1).Some?
  {
    tries := 0;
    if token.None? || token.value == "" {
      return Failure(NoToken), 0;
    }
    for attempt := 0 to Attempts
      invariant tries == attempt
      invariant forall k :: 0 <= k < attempt ==> Step(net(k), k).None?
      invariant From(net, 0) == From(net, attempt)
    {
      var a := net(attempt);
      tries := tries + 1;
      match a {
        case Response(status, body) =>
          if status == Loading {
            continue;
          }
          if IsError(status) {
            return Failure(HttpError(status)), tries;
          }
          if body.None? {
            return Failure(Crashed), tries;
          }
          var v := body.value;
          if v.JList? && |v.items| > 0 {
            return GeneratedText(v.items[0]), tries;
          } else if v.JObject? {
            return GeneratedText(v), tries;
          } else {
            return Failure(BadFormat), tries;
          }
        case Timeout =>
          if attempt < 2 {
            continue;
          }
          return Failure(TimedOut), tries;
        case ConnectionFailure =>
          return Failure(Crashed), tries;
      }
    }
    return Failure(LoadingTimeout), tries;
  }

  /** Without a token no request is made and the error is the configuration message. */
  lemma NoTokenNoRequest(net: nat -> Attempt)
    ensures HuggingFace(None, net) == Failure(NoToken) && HuggingFace(Some(""), net) == Failure(NoToken)
    ensures Message(NoToken) == "Hugging Face token not configured."
  {
  }

  /** Three 503 answers in a row end in the loading timeout. */
  lemma ThreeLoading(token: string, net: nat -> Attempt)
    requires token != ""
    requires forall k: nat :: k < Attempts ==> net(k).Response? && net(k).status == Loading
    ensures HuggingFace(Some(token), net) == Failure(LoadingTimeout)
  {
    assert Step(net(0), 0).None? && Step(net(1), 1).None? && Step(net(2), 2).None?;
  }

  /** A timeout is retried on the first two attempts only: three of them end in "Request timed out.". */
  lemma TimeoutRetried(token: string, net: nat -> Attempt)
    requires token != ""
    requires net(0).Timeout? && net(1).Timeout?
    ensures HuggingFace(Some(token), net) == From(net, 2)
    ensures net(2).Timeout? ==> HuggingFace(Some(token), net) == Failure(TimedOut)
  {
  }

  /** An HTTP error other than 503 ends the loop at once with its status code. */
  lemma HttpErrorImmediate(token: string, net: nat -> Attempt, k: nat)
    requires token != "" && k < Attempts
    requires forall j: nat :: j < k ==> Step(net(j), j).None?
    requires net(k).Response? && net(k).status != Loading && IsError(net(k).status)
    ensures HuggingFace(Some(token), net) == Failure(HttpError(net(k).status))
  {
    SkipRetries(net, k);
  }

  /** Attempts that retry are skipped. */
  lemma {:induction false} SkipRetries(net: nat -> Attempt, k: nat)
    requires k <= Attempts
    requires forall j: nat :: j < k ==> Step(net(j), j).None?
    ensures From(net, 0) == From(net, k)
    decreases k
  {
    if k > 0 {
      SkipRetries(net, k - 1);
    }
  }

  // ---- get_ai_response ----

  /** The source labels of get_ai_response. */
  const Cloud := "cloud"
  const LocalFallback := "local (fallback)"
  const CloudFailed := "cloud (failed)"
  const Local := "local"
  const CloudFallback := "cloud (fallback)"
  const CloudFallbackFailed := "cloud (fallback failed)"

  /**
   * get_ai_response: the preferred backend first, the other one on failure; when both fail the
   * cloud error is returned.
   */
  function AiResponse(preferLocal: bool, cloud: Reply, local: Reply): (string, string) {
    if preferLocal then
      if local.Answered? then (local.response, Local)
      else if cloud.Answered? then (cloud.response, CloudFallback)
      else (cloud.error, CloudFallbackFailed)
    else
      if cloud.Answered? then (cloud.response, Cloud)
      else if local.Answered? then (local.response, LocalFallback)
      else (cloud.error, CloudFailed)
  }

  /**
   * The decision table: the text comes from the backend the label names, the fallback is
   * reached only when the preferred one failed, and the rejected backend's reply is never
   * used (local error messages never reach the caller).
   */
  lemma AiResponseSpec(preferLocal: bool, cloud: Reply, local: Reply)
    ensures var (text, source) := AiResponse(preferLocal, cloud, local);
      && (source == Cloud <==> !preferLocal && cloud.Answered?)
      && (source == LocalFallback <==> !preferLocal && cloud.Failed? && local.Answered?)
      && (source == CloudFailed <==> !preferLocal && cloud.Failed? && local.Failed?)
      && (source == Local <==> preferLocal && local.Answered?)
      && (source == CloudFallback <==> preferLocal && local.Failed? && cloud.Answered?)
      && (source == CloudFallbackFailed <==> preferLocal && local.Failed? && cloud.Failed?)
      && (source in {Cloud, CloudFallback} ==> text == cloud.response)
      && (source in {Local, LocalFallback} ==> text == local.response)
      && (source in {CloudFailed, CloudFallbackFailed} ==> text == cloud.error)
  {
  }

  /** Once the preferred backend answers, the other one's reply makes no difference. */
  lemma PreferredDecides(preferLocal: bool, cloud: Reply, local: Reply, other: Reply)
    ensures !preferLocal && cloud.Answered? ==> AiResponse(false, cloud, local) == AiResponse(false, cloud, other)
    ensures preferLocal && local.Answered? ==> AiResponse(true, cloud, local) == AiResponse(true, other, local)
  {
  }

  /** Without a token and with Ollama down, the user sees the token message, labelled cloud (failed). */
  lemma NoBackend(net: nat -> Attempt, localError: string)
    ensures AiResponse(false, AsReply(HuggingFace(None, net)), Failed(localError)) == ("Hugging Face token not configured.", CloudFailed)
  {
  }

  // ---- generate_ai_explanation ----

  const RealVerdict := "likely real news"
  const FakeVerdict := "likely fake news"
  const ExcerptLength := 200

  function Verdict(prediction: int): (v: string)
    ensures v == RealVerdict <==> prediction == 1
    ensures v == FakeVerdict <==> prediction != 1
  {
    if prediction == 1 then RealVerdict else FakeVerdict
  }

  /** text[:200]. */
  function Excerpt(text: string): (e: string)
    ensures |e| <= ExcerptLength && StartsWith(text, e)
    ensures |text| <= ExcerptLength ==> e == text
    ensures |e| == if |text| <= ExcerptLength then |text| else ExcerptLength
  {
    if |text| <= ExcerptLength then text else text[..ExcerptLength]
  }

  /**
   * The context handed to the model; the credibility score arrives already formatted with one
   * decimal, and the red flags are joined with ", " or read "none".
   */
  function ExplanationContext(text: string, prediction: int, credibility: string, flags: seq<string>): string {
    ContextHead(text) + Verdict(prediction) + ContextTail(credibility, flags)
  }

  function ContextHead(text: string): string {
    "\nAnalyzed text (excerpt):\n\"" + Excerpt(text) + "...\"\n\nClassification: "
  }

  function ContextTail(credibility: string, flags: seq<string>): string {
    "\nCredibility score: " + credibility + "%\nRed flags detected: "
    + (if flags != [] then Join(flags, ", ") else "none") + "\n"
  }

  const QuestionHead := "\nBased on the analysis results, " + "why was this content classified as "
  const QuestionTail := "?\nExplain in simple terms what patterns were detected." + "\nKeep it brief (2-3 sentences).\n"

  function ExplanationQuestion(prediction: int): string {
    QuestionHead + Verdict(prediction) + QuestionTail
  }

  /** Only the first 200 characters of the text reach the model. */
  lemma ContextUsesExcerpt(a: string, b: string, prediction: int, credibility: string, flags: seq<string>)
    requires |a| >= ExcerptLength && |b| >= ExcerptLength && a[..ExcerptLength] == b[..ExcerptLength]
    ensures ExplanationContext(a, prediction, credibility, flags) == ExplanationContext(b, prediction, credibility, flags)
  {
  }

  lemma ContainsMiddle(a: string, v: string, b: string)
    ensures Contains(a + v + b, v)
  {
    assert (a + v + b)[|a|..|a| + |v|] == v;
    assert OccursAt(a + v + b, v, |a|);
    ContainsAt(a + v + b, v);
  }

  /** The explanation asks about, and states, the verdict of the prediction. */
  lemma ExplanationNamesVerdict(text: string, prediction: int, credibility: string, flags: seq<string>)
    ensures Contains(ExplanationQuestion(prediction), Verdict(prediction))
    ensures Contains(ExplanationContext(text, prediction, credibility, flags), Verdict(prediction))
  {
    ContainsMiddle(QuestionHead, Verdict(prediction), QuestionTail);
    ContainsMiddle(ContextHead(text), Verdict(prediction), ContextTail(credibility, flags));
  }
}
