/**
 * The chat window's state outside the GUI: the conversation history and
 * the narration queue with its two flags, and the methods of the window
 * that change them. Each method is one atomic step; the threads that run
 * `getAIResponse` and `runTTS` in the background are not modelled.
 */
module ChatBot {
  import opened Wrappers
  import opened History
  import opened SpeechText
  import opened Narration
  import opened Completion

  class ChatSession {
    /** `conversationHistory`, oldest turn first. */
    var history: seq<Turn>
    /** `ttsQueue`, head first. */
    var ttsQueue: seq<string>
    var ttsRunning: bool
    var ttsStopped: bool
    /** The regex engine's `[\p{So}\p{Cn}]` class, used when cleaning text. */
    const symbolic: char -> bool

    /** The narration part of the state. */
    ghost function TtsState(): NarrationState
      reads this
    {
      NarrationState(ttsQueue, ttsRunning, ttsStopped)
    }

    /** The history stays within its bound, and only non-empty speakable texts wait to be spoken. */
    ghost predicate Valid()
      reads this
    {
      && |history| <= MaxHistory
      && forall i :: 0 <= i < |ttsQueue| ==> ttsQueue[i] != [] && IsSpeakable(ttsQueue[i])
    }

    /**
     * A new window: the field initialisers (no history, nothing queued, no
     * consumer, not stopped), then `loadConversationHistory` on the saved
     * history file.
     */
    constructor (symbolic: char -> bool, file: Option<seq<Option<Turn>>>)
      ensures Valid()
      ensures history == Replay([], LoadedTurns(file))
      ensures TtsState() == Idle
      ensures this.symbolic == symbolic
    {
      history := [];
      ttsQueue := [];
      ttsRunning := false;
      ttsStopped := false;
      this.symbolic := symbolic;
      new;
      LoadConversationHistory(file);
    }

    /** `addMessage`: drop the oldest turn when there are more than fifteen, then append the new one. */
    method AddMessage(role: string, content: string)
      requires Valid()
      modifies this
      ensures Valid()
      ensures history == AddTurn(old(history), Turn(role, content))
      ensures TtsState() == old(TtsState())
    {
      ghost var before := history;
      if |history| > DropThreshold {
        history := history[1..];
      }
      history := history + [Turn(role, content)];
      AddTurnKeepsNewest(before, Turn(role, content));
    }

    /**
     * `loadConversationHistory`: every record of the file, in order, goes
     * through `addMessage`, until the first malformed one, which ends the
     * loading; a missing or unreadable file adds nothing.
     */
    method LoadConversationHistory(file: Option<seq<Option<Turn>>>)
      requires Valid()
      modifies this
      ensures Valid()
      ensures history == Replay(old(history), LoadedTurns(file))
      ensures TtsState() == old(TtsState())
    {
      if file.None? {
        return;
      }
      var records := file.value;
      ghost var before := history;
      var i := 0;
      while i < |records| && records[i].Some?
        invariant i <= FirstMalformed(records)
        invariant Valid()
        invariant history == Replay(before, Turns(records[..i]))
        invariant TtsState() == old(TtsState())
      {
        var turn := records[i].value;
        ghost var done := Turns(records[..i]);
        AddMessage(turn.role, turn.content);
        assert records[..i + 1][..i] == records[..i];
        assert Turns(records[..i + 1]) == done + [turn];
        assert (done + [turn])[..|done|] == done;
        assert history == Replay(before, done + [turn]);
        i := i + 1;
      }
      assert i == FirstMalformed(records);
    }

    /**
     * The guard and the first step of `sendMessage`: input that is empty
     * once trimmed is ignored; otherwise the trimmed text is added as a
     * user turn and becomes the message sent.
     */
    method SendMessage(input: string) returns (accepted: Option<string>)
      requires Valid()
      modifies this
      ensures Valid()
      ensures Trim(input) == [] ==> accepted == None && history == old(history)
      ensures Trim(input) != [] ==> accepted == Some(Trim(input))
      ensures Trim(input) != [] ==> history == AddTurn(old(history), Turn("user", Trim(input)))
      ensures TtsState() == old(TtsState())
    {
      var userMessage := Trim(input);
      if userMessage == [] {
        return None;
      }
      AddMessage("user", userMessage);
      accepted := Some(userMessage);
    }

    /**
     * `speak`: the cleaned text is queued unless it is empty, and a consumer
     * is started when none runs and narration is not stopped.
     */
    method Speak(text: string) returns (spawned: bool)
      requires Valid()
      modifies this
      ensures Valid()
      ensures TtsState() == Enqueue(old(TtsState()), CleanForSpeech(Some(text), symbolic))
      ensures spawned == (CleanForSpeech(Some(text), symbolic) != [] && SpawnsOnSpeak(old(TtsState())))
      ensures history == old(history)
    {
      var cleanText := CleanForSpeech(Some(text), symbolic);
      if cleanText == [] {
        return false;
      }
      ttsQueue := ttsQueue + [cleanText];
      spawned := !ttsRunning && !ttsStopped;
      if spawned {
        ttsRunning := true;
      }
    }

    /** One turn of the `runTTS` loop, up to speaking: take the head, and end when there is none or narration is stopped. */
    method PollNext() returns (polled: Polled)
      requires Valid()
      modifies this
      ensures Valid()
      ensures (polled, TtsState()) == Poll(old(TtsState()))
      ensures history == old(history)
    {
      var next: Option<string> := None;
      if ttsQueue != [] {
        next := Some(ttsQueue[0]);
        ttsQueue := ttsQueue[1..];
      }
      if next.None? || ttsStopped {
        ttsRunning := false;
        return Ends(next);
      }
      return Speaks(next.value);
    }

    /**
     * `runTTS`: clear the stop flag, then poll until the loop ends, writing
     * each text taken, its double quotes escaped, into a synthesis script.
     * Run alone it speaks everything that was queued, in order, and reading
     * each script's text back gives the queued text.
     */
    method RunTTS() returns (scripts: seq<string>)
      requires Valid()
      modifies this
      ensures Valid()
      ensures TtsState() == RunConsumer(old(TtsState())).final
      ensures |scripts| == |RunConsumer(old(TtsState())).spoken|
      ensures forall i :: 0 <= i < |scripts| ==> scripts[i] == EscapeQuotes(RunConsumer(old(TtsState())).spoken[i])
      ensures TtsState() == Idle && |scripts| == |old(ttsQueue)|
      ensures forall i :: 0 <= i < |scripts| ==> ReadEscapedQuotes(scripts[i]) == old(ttsQueue)[i]
      ensures history == old(history)
    {
      ttsStopped := false;
      scripts := [];
      ghost var spoken: seq<string> := [];
      while true
        invariant Valid()
        invariant history == old(history)
        invariant RunConsumer(old(TtsState())) == Narrated(spoken + Drain(TtsState()).spoken, Drain(TtsState()).final)
        invariant |scripts| == |spoken|
        invariant forall i :: 0 <= i < |scripts| ==> scripts[i] == EscapeQuotes(spoken[i])
        decreases |ttsQueue|
      {
        ghost var rest := Drain(TtsState());
        var polled := PollNext();
        if polled.Ends? {
          assert rest == Narrated([], TtsState());
          assert spoken + [] == spoken;
          break;
        }
        assert rest.spoken == [polled.text] + Drain(TtsState()).spoken;
        assert spoken + rest.spoken == (spoken + [polled.text]) + Drain(TtsState()).spoken;
        scripts := scripts + [EscapeQuotes(polled.text)];
        spoken := spoken + [polled.text];
      }
      ConsumerSpeaksQueueInOrder(old(TtsState()));
      forall i | 0 <= i < |scripts| ensures ReadEscapedQuotes(scripts[i]) == old(ttsQueue)[i] {
        EscapeQuotesRoundTrip(spoken[i]);
      }
    }

    /** `stopSpeaking`: set the stop flag and empty the queue (ending the synthesis process is not modelled). */
    method StopSpeaking()
      requires Valid()
      modifies this
      ensures Valid()
      ensures TtsState() == Stop(old(TtsState()))
      ensures history == old(history)
    {
      ttsStopped := true;
      ttsQueue := [];
    }

    /** `resumeSpeaking`: start a consumer, clearing the stop flag, when none runs and something is queued. */
    method ResumeSpeaking() returns (spawned: bool)
      requires Valid()
      modifies this
      ensures Valid()
      ensures TtsState() == Resume(old(TtsState()))
      ensures spawned == SpawnsOnResume(old(TtsState()))
      ensures history == old(history)
    {
      spawned := !ttsRunning && ttsQueue != [];
      if spawned {
        ttsStopped := false;
        ttsRunning := true;
      }
    }

    /**
     * What `sendMessage` does when the background request finishes: an
     * answer is spoken and then added as an assistant turn; an error is
     * only shown, and changes nothing here.
     */
    method ReceiveResponse(result: Result<string, ChatError>) returns (spawned: bool)
      requires Valid()
      modifies this
      ensures Valid()
      ensures result.Failure? ==> history == old(history) && TtsState() == old(TtsState()) && !spawned
      ensures result.Success? ==> history == AddTurn(old(history), Turn("assistant", result.value))
      ensures result.Success? ==> TtsState() == Enqueue(old(TtsState()), CleanForSpeech(Some(result.value), symbolic))
      ensures result.Success? ==>
                spawned == (CleanForSpeech(Some(result.value), symbolic) != [] && SpawnsOnSpeak(old(TtsState())))
    {
      if result.Failure? {
        return false;
      }
      spawned := Speak(result.value);
      AddMessage("assistant", result.value);
    }

    /**
     * `sendMessage` as one step: the guard, the user turn, the request
     * (which already carries that turn) and the handling of its outcome.
     */
    method Converse(input: string, apiKey: Option<string>, post: Request -> Reply, parse: string -> Option<string>)
      returns (result: Option<Result<string, ChatError>>, sent: Option<Request>)
      requires Valid()
      modifies this
      ensures Valid()
      ensures Trim(input) == [] ==>
                result == None && sent == None && history == old(history) && TtsState() == old(TtsState())
      ensures Trim(input) != [] ==> result.Some? && (sent.None? <==> KeyMissing(apiKey))
      ensures sent.Some? ==>
                && sent.value.url == ChatApiUrl
                && sent.value.authorization == "Bearer " + apiKey.value
                && sent.value.model == Model
                && sent.value.maxTokens == MaxTokens
                && sent.value.messages == [SystemTurn] + AddTurn(old(history), Turn("user", Trim(input)))
      ensures sent.Some? ==> result == Some(Outcome(post(sent.value), parse))
      ensures result.Some? && result.value.Failure? ==>
                history == AddTurn(old(history), Turn("user", Trim(input))) && TtsState() == old(TtsState())
      ensures Trim(input) != [] && KeyMissing(apiKey) ==> result == Some(Failure(MissingApiKey))
      ensures sent.Some? ==>
                result.Some? &&
                (result.value.Success? <==>
                   && post(sent.value).Answered? && post(sent.value).status == 200
                   && parse(post(sent.value).body).Some?)
      ensures result.Some? && result.value.Success? ==>
                && result.value.value == parse(post(sent.value).body).value
                && history == AddTurn(AddTurn(old(history), Turn("user", Trim(input))), Turn("assistant", result.value.value))
                && TtsState() == Enqueue(old(TtsState()), CleanForSpeech(Some(result.value.value), symbolic))
    {
      var accepted := SendMessage(input);
      if accepted.None? {
        return None, None;
      }
      var answer;
      answer, sent := GetAIResponse(apiKey, history, post, parse);
      var _ := ReceiveResponse(answer);
      result := Some(answer);
    }
  }
}
