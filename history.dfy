/**
 * The conversation history: the list of turns that `addMessage` keeps,
 * dropping the oldest once it holds more than fifteen, and the replay of a
 * saved history file that `loadConversationHistory` performs at start-up.
 */
module History {
  import opened Wrappers

  /** One turn of the conversation: who spoke and what was said. */
  datatype Turn = Turn(role: string, content: string)

  /** `addMessage` drops the oldest turn first when the history holds more turns than this. */
  const DropThreshold: nat := 15

  /** The most turns a history built by `addMessage` from a short one can hold. */
  const MaxHistory: nat := DropThreshold + 1

  function Min(a: int, b: int): int {
    if a <= b then a else b
  }

  function Max(a: int, b: int): int {
    if a >= b then a else b
  }

  /** The last `n` elements of `s`. */
  function Newest<T>(s: seq<T>, n: nat): seq<T>
    requires n <= |s|
  {
    s[|s| - n..]
  }

  /** `addMessage(role, content)` applied to the list `h`. */
  function AddTurn(h: seq<Turn>, t: Turn): seq<Turn> {
    (if |h| > DropThreshold then h[1..] else h) + [t]
  }

  /**
   * How many turns a history of `size` turns holds after `added` more:
   * it grows by one per turn until it reaches `MaxHistory`, and never shrinks.
   */
  function SizeAfter(size: nat, added: nat): nat {
    Max(size, Min(size + added, MaxHistory))
  }

  /**
   * `addMessage` appends the new turn as the newest and keeps the others in
   * their order, dropping only the oldest, and only when the history has
   * already reached its bound.
   */
  lemma AddTurnKeepsNewest(h: seq<Turn>, t: Turn)
    ensures |AddTurn(h, t)| == SizeAfter(|h|, 1)
    ensures AddTurn(h, t) == Newest(h + [t], |AddTurn(h, t)|)
    ensures AddTurn(h, t)[|AddTurn(h, t)| - 1] == t
  {
    if |h| > DropThreshold {
      assert (h + [t])[1..] == h[1..] + [t];
    } else {
      assert (h + [t])[0..] == h + [t];
    }
  }

  /** The turns `ts` added one after the other, oldest first, as `loadConversationHistory` does. */
  function Replay(h: seq<Turn>, ts: seq<Turn>): seq<Turn>
    decreases |ts|
  {
    if ts == [] then h else AddTurn(Replay(h, ts[..|ts| - 1]), ts[|ts| - 1])
  }

  /** Adding turns in two batches gives the size of adding them in one. */
  lemma SizeAfterOneMore(size: nat, added: nat)
    ensures SizeAfter(SizeAfter(size, added), 1) == SizeAfter(size, added + 1)
  {
  }

  /** The newest elements of the newest elements, with one more at the end. */
  lemma NewestAppend<T>(s: seq<T>, x: T, p: seq<T>, m: nat)
    requires |p| <= |s| && p == Newest(s, |p|)
    requires m <= |p| + 1
    ensures Newest(p + [x], m) == Newest(s + [x], m)
  {
    assert p + [x] == (s + [x])[|s| - |p|..];
  }

  /**
   * Adding turns one by one keeps exactly the newest of them all: as many
   * as `SizeAfter` says, so a history that starts with at most sixteen
   * turns never holds more than sixteen.
   */
  lemma {:induction false} ReplayKeepsNewest(h: seq<Turn>, ts: seq<Turn>)
    ensures |Replay(h, ts)| == SizeAfter(|h|, |ts|)
    ensures Replay(h, ts) == Newest(h + ts, |Replay(h, ts)|)
    ensures |h| <= MaxHistory ==> |Replay(h, ts)| <= MaxHistory
    decreases |ts|
  {
    if ts == [] {
      assert h + ts == h;
      assert h[0..] == h;
    } else {
      var init := ts[..|ts| - 1];
      var t := ts[|ts| - 1];
      var p := Replay(h, init);
      ReplayKeepsNewest(h, init);
      AddTurnKeepsNewest(p, t);
      SizeAfterOneMore(|h|, |init|);
      assert h + ts == (h + init) + [t];
      NewestAppend(h + init, t, p, |AddTurn(p, t)|);
    }
  }

  /** A history with fewer than sixteen turns gains one; with sixteen it stays at sixteen. */
  lemma HistoryBoundIsSixteen(h: seq<Turn>, t: Turn)
    requires |h| <= MaxHistory
    ensures |h| < MaxHistory ==> |AddTurn(h, t)| == |h| + 1
    ensures |h| == MaxHistory ==> |AddTurn(h, t)| == MaxHistory && AddTurn(h, t) == h[1..] + [t]
  {
    AddTurnKeepsNewest(h, t);
  }

  /** Sixteen turns added to an empty history are all kept: the first one is not evicted. */
  lemma SixteenTurnsAreAllKept(ts: seq<Turn>)
    requires |ts| == MaxHistory
    ensures Replay([], ts) == ts
  {
    ReplayKeepsNewest([], ts);
    assert [] + ts == ts;
    assert ts[0..] == ts;
  }

  /**
   * Where the first malformed record of a history file is (one that is not
   * an object with string `role` and `content`), or the number of records
   * when all are well formed.
   */
  function FirstMalformed(records: seq<Option<Turn>>): (k: nat)
    ensures k <= |records|
    ensures forall j :: 0 <= j < k ==> records[j].Some?
    ensures k < |records| ==> records[k].None?
  {
    if records == [] || records[0].None? then 0 else 1 + FirstMalformed(records[1..])
  }

  /** The turns of well-formed records, in file order. */
  function Turns(records: seq<Option<Turn>>): (ts: seq<Turn>)
    requires forall j :: 0 <= j < |records| ==> records[j].Some?
    ensures |ts| == |records|
    ensures forall j :: 0 <= j < |ts| ==> records[j] == Some(ts[j])
  {
    if records == [] then []
    else Turns(records[..|records| - 1]) + [records[|records| - 1].value]
  }

  /**
   * The turns `loadConversationHistory` adds from a history file: none when
   * the file is missing or is not a JSON array; otherwise the records before
   * the first malformed one, whose exception ends the loading.
   */
  function LoadedTurns(file: Option<seq<Option<Turn>>>): (ts: seq<Turn>)
    ensures file.None? ==> ts == []
    ensures file.Some? ==> |ts| == FirstMalformed(file.value)
    ensures file.Some? ==> forall j :: 0 <= j < |ts| ==> file.value[j] == Some(ts[j])
  {
    match file
    case None => []
    case Some(records) => Turns(records[..FirstMalformed(records)])
  }
}
