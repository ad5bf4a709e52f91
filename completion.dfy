/**
 * The request `getAIResponse` sends to the chat-completion service and how
 * it turns the reply into an answer or an error. The HTTP exchange itself
 * is a parameter `post`, and the JSON extraction of
 * `choices[0].message.content` is a parameter `parse`.
 */
module Completion {
  import opened Wrappers
  import opened History

  const ChatApiUrl: string := "https://openrouter.ai/api/v1/chat/completions"

  const Model: string := "gpt-4o-mini"

  /** The `max_tokens` of every request. */
  const MaxTokens: nat := 1000

  /** The persona the system turn gives the assistant. */
  const SystemPrompt: string :=
    "You are Mohini, a caring, emotionally intelligent virtual best friend. " +
    "You talk to the user like a close friend, not like an AI or assistant. " +
    "Your tone is warm, calm, supportive, and friendly. " +
    "You remember past conversations and naturally refer to them when helpful. " +
    "If the user feels sad, anxious, lonely, or frustrated, you comfort them gently. " +
    "If the user is happy or excited, you celebrate with them. " +
    "You never judge, argue aggressively, or sound robotic. " +
    "You use simple, human language and short emotional responses when appropriate. " +
    "You may use light emojis occasionally but not excessively. " +
    "You encourage the user, respect their feelings, and act like someone who truly cares. "

  /** The first turn of every request. */
  const SystemTurn: Turn := Turn("system", SystemPrompt)

  /** A POST to the service: its URL, `Authorization` header and JSON body fields. */
  datatype Request = Request(url: string, authorization: string, model: string, messages: seq<Turn>, maxTokens: nat)

  /**
   * What the connection gives back: nothing at all; a status code and the
   * body read from the input stream (status 200-299) or the error stream
   * (any other status); or a status outside 200-299 for which the server
   * sent no error data, so the error stream is null.
   */
  datatype Reply = Unreachable | Answered(status: int, body: string) | NoErrorStream(status: int)

  /** Why no answer came back; each one reaches the user as an error message. */
  datatype ChatError =
    | MissingApiKey
    | NetworkFailure
    | HttpStatus(code: int, body: string)
    | MalformedReply
    /** Reading a null error stream fails; the message shown carries neither the code nor a body. */
    | NoErrorBody

  /** The key is unset or empty. */
  predicate KeyMissing(apiKey: Option<string>) {
    apiKey.None? || apiKey.value == []
  }

  /** The `messages` array: the system turn, then every turn of the history in order. */
  method BuildMessages(history: seq<Turn>) returns (messages: seq<Turn>)
    ensures |messages| == |history| + 1
    ensures messages[0] == SystemTurn
    ensures forall i :: 0 <= i < |history| ==> messages[i + 1] == history[i]
  {
    messages := [SystemTurn];
    for i := 0 to |history|
      invariant |messages| == i + 1
      invariant messages[0] == SystemTurn
      invariant forall j :: 0 <= j < i ==> messages[j + 1] == history[j]
    {
      messages := messages + [history[i]];
    }
  }

  /**
   * How `getAIResponse` turns the connection's reply into its outcome: no
   * connection is a network failure, a null error stream fails without code
   * or body, any status but 200 is an HTTP error with the body read, and 200
   * answers with the extracted content, or fails when there is none.
   */
  function Outcome(reply: Reply, parse: string -> Option<string>): (r: Result<string, ChatError>)
    ensures reply.Unreachable? ==> r == Failure(NetworkFailure)
    ensures reply.NoErrorStream? ==> r == Failure(NoErrorBody)
    ensures reply.Answered? && reply.status != 200 ==> r == Failure(HttpStatus(reply.status, reply.body))
    ensures reply.Answered? && reply.status == 200 && parse(reply.body).None? ==> r == Failure(MalformedReply)
    ensures r.Success? <==> reply.Answered? && reply.status == 200 && parse(reply.body).Some?
    ensures r.Success? ==> r.value == parse(reply.body).value
  {
    match reply
    case Unreachable => Failure(NetworkFailure)
    case NoErrorStream(_) => Failure(NoErrorBody)
    case Answered(status, body) =>
      if status != 200 then Failure(HttpStatus(status, body))
      else if parse(body).None? then Failure(MalformedReply)
      else Success(parse(body).value)
  }

  /**
   * `getAIResponse`: without a key it fails before sending anything;
   * otherwise it sends exactly one request, carrying the system turn and the
   * history, and answers only when the status is 200 and the body holds a
   * content string.
   */
  method GetAIResponse(apiKey: Option<string>, history: seq<Turn>,
                       post: Request -> Reply, parse: string -> Option<string>)
    returns (result: Result<string, ChatError>, sent: Option<Request>)
    ensures KeyMissing(apiKey) ==> result == Failure(MissingApiKey) && sent == None
    ensures !KeyMissing(apiKey) ==> sent.Some?
    ensures sent.Some? ==> && sent.value.url == ChatApiUrl
                           && sent.value.authorization == "Bearer " + apiKey.value
                           && sent.value.model == Model
                           && sent.value.maxTokens == MaxTokens
                           && sent.value.messages == [SystemTurn] + history
    ensures sent.Some? && post(sent.value).Unreachable? ==> result == Failure(NetworkFailure)
    ensures sent.Some? && post(sent.value).Answered? && post(sent.value).status != 200 ==>
              result == Failure(HttpStatus(post(sent.value).status, post(sent.value).body))
    ensures sent.Some? && post(sent.value).NoErrorStream? ==> result == Failure(NoErrorBody)
    ensures (&& sent.Some? && post(sent.value).Answered? && post(sent.value).status == 200
             && parse(post(sent.value).body).None?) ==>
              result == Failure(MalformedReply)
    ensures result.Success? <==>
              && sent.Some?
              && post(sent.value).Answered? && post(sent.value).status == 200
              && parse(post(sent.value).body).Some?
    ensures result.Success? ==> result.value == parse(post(sent.value).body).value
    ensures sent.Some? ==> result == Outcome(post(sent.value), parse)
  {
    if KeyMissing(apiKey) {
      return Failure(MissingApiKey), None;
    }
    var messages := BuildMessages(history);
    assert messages == [SystemTurn] + history;
    var request := Request(ChatApiUrl, "Bearer " + apiKey.value, Model, messages, MaxTokens);
    sent := Some(request);
    var reply := post(request);
    if reply.Unreachable? {
      result := Failure(NetworkFailure);
    } else if reply.NoErrorStream? {
      result := Failure(NoErrorBody);
    } else if reply.status != 200 {
      result := Failure(HttpStatus(reply.status, reply.body));
    } else {
      var content := parse(reply.body);
      if content.None? {
        result := Failure(MalformedReply);
      } else {
        result := Success(content.value);
      }
    }
  }
}
