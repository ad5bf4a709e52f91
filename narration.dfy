/**
 * The narration queue: the texts waiting to be spoken, whether a consumer
 * thread is running (`ttsRunning`) and whether narration has been stopped
 * (`ttsStopped`). Each of `speak`, `stopSpeaking`, `resumeSpeaking` and
 * each turn of the `runTTS` loop is one atomic transition on this state;
 * speaking a text is an action with no effect on it.
 */
module Narration {
  import opened Wrappers

  /** The queue and the two flags. */
  datatype NarrationState = NarrationState(queue: seq<string>, running: bool, stopped: bool)

  /** Nothing queued, no consumer, not stopped: the state at start-up. */
  const Idle: NarrationState := NarrationState([], false, false)

  /** Whether `speak` starts a consumer: only when none runs and narration is not stopped. */
  predicate SpawnsOnSpeak(n: NarrationState) {
    !n.running && !n.stopped
  }

  /**
   * `speak` once its text has been cleaned: an empty text changes nothing;
   * any other is queued at the tail, and a consumer is started when
   * `SpawnsOnSpeak` holds.
   */
  function Enqueue(n: NarrationState, text: string): (r: NarrationState)
    ensures text == [] ==> r == n
    ensures text != [] ==> r.queue == n.queue + [text] && r.stopped == n.stopped
    ensures r.running == (n.running || (text != [] && SpawnsOnSpeak(n)))
  {
    if text == [] then n
    else if SpawnsOnSpeak(n) then NarrationState(n.queue + [text], true, n.stopped)
    else n.(queue := n.queue + [text])
  }

  /** What a consumer does first: clear the stop flag. */
  function Begin(n: NarrationState): NarrationState {
    n.(stopped := false)
  }

  /** The outcome of one turn of the consumer loop. */
  datatype Polled =
    | Speaks(text: string)
    /** The loop ends; `dropped` is the text taken from the queue and never spoken, if any. */
    | Ends(dropped: Option<string>)

  /**
   * One turn of the consumer loop: take the head of the queue; end, clearing
   * `running`, when there was none or narration is stopped (the head taken
   * is then discarded); otherwise speak it.
   */
  function Poll(n: NarrationState): (r: (Polled, NarrationState))
    ensures r.1.stopped == n.stopped
    ensures n.queue == [] ==> r == (Ends(None), n.(running := false))
    ensures n.queue != [] ==> r.1.queue == n.queue[1..]
    ensures n.queue != [] && !n.stopped ==> r == (Speaks(n.queue[0]), n.(queue := n.queue[1..]))
    ensures n.queue != [] && n.stopped ==> r.0 == Ends(Some(n.queue[0])) && !r.1.running
  {
    if n.queue == [] then (Ends(None), n.(running := false))
    else
      var rest := n.(queue := n.queue[1..]);
      if n.stopped then (Ends(Some(n.queue[0])), rest.(running := false))
      else (Speaks(n.queue[0]), rest)
  }

  /** `stopSpeaking`: set the stop flag and empty the queue; a running consumer is left to notice. */
  function Stop(n: NarrationState): NarrationState {
    n.(queue := [], stopped := true)
  }

  /** Whether `resumeSpeaking` starts a consumer: only when none runs and something is queued. */
  predicate SpawnsOnResume(n: NarrationState) {
    !n.running && n.queue != []
  }

  /** `resumeSpeaking`: start a consumer, clearing the stop flag, when `SpawnsOnResume` holds; otherwise nothing. */
  function Resume(n: NarrationState): NarrationState {
    if SpawnsOnResume(n) then n.(stopped := false, running := true) else n
  }

  /** What a run of the consumer loop spoke, and the state it left. */
  datatype Narrated = Narrated(spoken: seq<string>, final: NarrationState)

  /** The consumer loop from `n` to its end, with no other transition in between. */
  function Drain(n: NarrationState): Narrated
    decreases |n.queue|
  {
    var (polled, next) := Poll(n);
    match polled
    case Ends(_) => Narrated([], next)
    case Speaks(text) =>
      var rest := Drain(next);
      Narrated([text] + rest.spoken, rest.final)
  }

  /** A whole run of `runTTS` started in state `n`. */
  function RunConsumer(n: NarrationState): Narrated {
    Drain(Begin(n))
  }

  /** A consumer that is not stopped speaks the whole queue, in order, each text once, and leaves the state idle. */
  lemma {:induction false} DrainSpeaksQueue(n: NarrationState)
    requires !n.stopped
    ensures Drain(n) == Narrated(n.queue, Idle)
    decreases |n.queue|
  {
    if n.queue != [] {
      var next := Poll(n).1;
      DrainSpeaksQueue(next);
      assert [n.queue[0]] + n.queue[1..] == n.queue;
    }
  }

  /**
   * Left alone, `runTTS` speaks everything queued when it starts, first in
   * first out, and ends with nothing queued, no consumer and the stop flag clear.
   */
  lemma ConsumerSpeaksQueueInOrder(n: NarrationState)
    ensures RunConsumer(n).spoken == n.queue
    ensures RunConsumer(n).final == Idle
  {
    DrainSpeaksQueue(Begin(n));
  }

  /**
   * `stopSpeaking` empties the queue and sets the flag; stopping twice is
   * stopping once; and `resumeSpeaking` right after it does nothing,
   * because the queue is empty.
   */
  lemma StopThenResume(n: NarrationState)
    ensures Stop(n).queue == [] && Stop(n).stopped && Stop(n).running == n.running
    ensures Stop(Stop(n)) == Stop(n)
    ensures !SpawnsOnResume(Stop(n)) && Resume(Stop(n)) == Stop(n)
  {
  }

  /**
   * With no consumer running, a text spoken after `stopSpeaking` waits:
   * it is queued but starts nothing, and `resumeSpeaking` then starts a
   * consumer that speaks it.
   */
  lemma SpeakAfterStopWaitsForResume(n: NarrationState, text: string)
    requires !n.running && text != []
    ensures var waiting := Enqueue(Stop(n), text);
            && waiting.queue == [text] && !waiting.running
            && SpawnsOnResume(waiting)
            && RunConsumer(Resume(waiting)).spoken == [text]
  {
    ConsumerSpeaksQueueInOrder(Resume(Enqueue(Stop(n), text)));
  }

  /**
   * With a consumer still running, a text spoken after `stopSpeaking` is
   * lost: it is queued without a new consumer, the running one takes it
   * and ends without speaking it, and `resumeSpeaking` finds nothing to play.
   */
  lemma SpeakAfterStopWhileRunningIsLost(n: NarrationState, text: string)
    requires n.running && text != []
    ensures var waiting := Enqueue(Stop(n), text);
            && waiting.queue == [text] && waiting.running
            && Poll(waiting) == (Ends(Some(text)), NarrationState([], false, true))
            && Resume(Poll(waiting).1) == Poll(waiting).1
  {
  }

  // ---------------------------------------------------------------------
  // Interleavings: at most one consumer thread
  // ---------------------------------------------------------------------

  /** What can happen next: one of the three user-facing calls, or a step of a running consumer. */
  datatype Event =
    | SpeakCleaned(text: string)
    | StopPressed
    | PlayPressed
    | ConsumerBegins
    | ConsumerPolls

  /** The narration state together with the number of consumer threads alive. */
  datatype System = System(narration: NarrationState, consumers: nat)

  /**
   * One event. A call that starts a consumer adds a thread; a poll that
   * ends the loop removes one; consumer steps happen only while a consumer
   * is alive, and `ConsumerBegins` may happen at any time then (more
   * interleavings than the threads allow, which only strengthens the result).
   */
  function Step(s: System, e: Event): System {
    match e
    case SpeakCleaned(text) =>
      var spawn := text != [] && SpawnsOnSpeak(s.narration);
      System(Enqueue(s.narration, text), if spawn then s.consumers + 1 else s.consumers)
    case StopPressed =>
      System(Stop(s.narration), s.consumers)
    case PlayPressed =>
      var spawn := SpawnsOnResume(s.narration);
      System(Resume(s.narration), if spawn then s.consumers + 1 else s.consumers)
    case ConsumerBegins =>
      if s.consumers == 0 then s else System(Begin(s.narration), s.consumers)
    case ConsumerPolls =>
      if s.consumers == 0 then s
      else
        var (polled, next) := Poll(s.narration);
        System(next, if polled.Ends? then s.consumers - 1 else s.consumers)
  }

  /** The events in order. */
  function Run(s: System, events: seq<Event>): System
    decreases |events|
  {
    if events == [] then s else Run(Step(s, events[0]), events[1..])
  }

  /** The running flag is set exactly when one consumer is alive. */
  predicate OneConsumerWhileRunning(s: System) {
    s.consumers == if s.narration.running then 1 else 0
  }

  /** Every event keeps the running flag in step with the consumers alive. */
  lemma StepKeepsOneConsumer(s: System, e: Event)
    requires OneConsumerWhileRunning(s)
    ensures OneConsumerWhileRunning(Step(s, e))
  {
  }

  /**
   * From start-up, or any state where the flag matches the threads, no
   * interleaving of calls and consumer steps ever has two consumers alive.
   */
  lemma {:induction false} AtMostOneConsumer(s: System, events: seq<Event>)
    requires OneConsumerWhileRunning(s)
    ensures OneConsumerWhileRunning(Run(s, events))
    ensures Run(s, events).consumers <= 1
    decreases |events|
  {
    if events != [] {
      StepKeepsOneConsumer(s, events[0]);
      AtMostOneConsumer(Step(s, events[0]), events[1..]);
    }
  }
}
