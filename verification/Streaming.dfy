/** One streamed channel turn: chunks and one dispatch outcome on one side, a
    consumer that pulls and may stop at any yield on the other. */
module Streaming {
  import opened Wrappers
  import opened Text

  const NO_TEXT: string := "Agent returned no text response"

  datatype Item = TextDelta(delta: string) | DoneItem | ErrorItem(message: string)

  /** What the dispatch sends before it settles: chunks, or an error reported
      through its callback while the dispatch itself goes on. */
  datatype Signal = Chunk(text: string) | CallbackError(message: string)

  datatype Outcome = Resolved | Failure(message: string)

  datatype Persisted = PersistReply(text: string) | PersistFailure(reason: string) | PersistCancelled

  datatype Consumer = Waiting | AtYield | Finished

  datatype Turn = Turn(
    queue: seq<Item>, aborted: bool, replyText: string, dispatchTerminal: Option<Outcome>,
    consumer: Consumer, deferred: bool, persisted: seq<Persisted>)

  datatype Event = Produce | Pull | Stop

  const FRESH: Turn := Turn([], false, [], None, Waiting, false, [])

  function Push(t: Turn, item: Item): Turn {
    if t.aborted then t else t.(queue := t.queue + [item])
  }

  function Deliver(t: Turn, text: string): Turn {
    if text == [] then t else Push(t.(replyText := t.replyText + text), TextDelta(text))
  }

  predicate IsBlank(s: string) { Trim(s) == [] }

  /** The last 'done' or 'error' still waiting in the queue. */
  function QueuedTerminal(queue: seq<Item>): Option<Item> {
    if queue == [] then None
    else if queue[|queue| - 1].TextDelta? then QueuedTerminal(queue[..|queue| - 1])
    else Some(queue[|queue| - 1])
  }

  function FinalReply(replyText: string): Persisted {
    if IsBlank(replyText) then PersistFailure(NO_TEXT) else PersistReply(replyText)
  }

  /** What a cancelled turn is persisted as, from the queue and the dispatch. */
  function ResolveCancelled(t: Turn): Persisted {
    var queued := QueuedTerminal(t.queue);
    if queued == Some(DoneItem) || t.dispatchTerminal == Some(Resolved) then FinalReply(t.replyText)
    else if queued.Some? && queued.value.ErrorItem? then PersistFailure(queued.value.message)
    else if t.dispatchTerminal.Some? then PersistFailure(t.dispatchTerminal.value.message)
    else PersistCancelled
  }

  function Finish(t: Turn, p: Persisted): Turn {
    t.(aborted := true, consumer := Finished, persisted := t.persisted + [p])
  }

  function Settle(t: Turn, outcome: Outcome): Turn {
    var item := match outcome case Resolved => DoneItem case Failure(m) => ErrorItem(m);
    var t1 := Push(t.(dispatchTerminal := Some(outcome)), item);
    if t1.deferred then t1.(deferred := false, persisted := t1.persisted + [ResolveCancelled(t1)]) else t1
  }

  /** The consumer asks for the next event. */
  function OnPull(t: Turn): Turn {
    if t.consumer == Finished || t.queue == [] then t
    else
      var t1 := t.(queue := t.queue[1..]);
      match t.queue[0]
      case TextDelta(_) => t1.(consumer := AtYield)
      case DoneItem => Finish(t1, FinalReply(t.replyText))
      case ErrorItem(m) => Finish(t1, PersistFailure(m))
  }

  /** The consumer goes away at a yield; without a settled dispatch the decision waits for it. */
  function OnStop(t: Turn): Turn {
    if t.consumer != AtYield then t
    else if t.dispatchTerminal.None? then t.(aborted := true, consumer := Finished, deferred := true)
    else Finish(t, ResolveCancelled(t))
  }

  /** A run over a dispatch script: the number of its signals sent (one more once
      it has settled) and the turn. */
  datatype Run = Run(produced: nat, turn: Turn)

  function OnProduce(script: seq<Signal>, outcome: Outcome, r: Run): Run {
    if r.produced > |script| then r
    else if r.produced == |script| then Run(r.produced + 1, Settle(r.turn, outcome))
    else
      Run(r.produced + 1,
          match script[r.produced]
          case Chunk(text) => Deliver(r.turn, text)
          case CallbackError(m) => Push(r.turn, ErrorItem(m)))
  }

  function Step(script: seq<Signal>, outcome: Outcome, r: Run, e: Event): Run {
    match e
    case Produce => OnProduce(script, outcome, r)
    case Pull => r.(turn := OnPull(r.turn))
    case Stop => r.(turn := OnStop(r.turn))
  }

  function Execute(script: seq<Signal>, outcome: Outcome, events: seq<Event>): Run {
    if events == [] then Run(0, FRESH)
    else Step(script, outcome, Execute(script, outcome, events[..|events| - 1]), events[|events| - 1])
  }

  // ----- The stream object ------------------------------------------------------------------

  /** The state shared by the callbacks of one dispatch and the generator. */
  class Stream {
    var queue: seq<Item>
    var aborted: bool
    var replyText: string
    var dispatchTerminal: Option<Outcome>
    var consumer: Consumer
    var deferred: bool
    var persisted: seq<Persisted>

    ghost function View(): Turn
      reads this
    {
      Turn(queue, aborted, replyText, dispatchTerminal, consumer, deferred, persisted)
    }

    constructor ()
      ensures View() == FRESH
    {
      queue, aborted, replyText, dispatchTerminal := [], false, [], None;
      consumer, deferred, persisted := Waiting, false, [];
    }

    method PushItem(item: Item)
      modifies this`queue
      ensures View() == Push(old(View()), item)
    {
      if !aborted { queue := queue + [item]; }
    }

    method OnChunk(text: string)
      modifies this`queue, this`replyText
      ensures View() == Deliver(old(View()), text)
    {
      if text != [] {
        replyText := replyText + text;
        PushItem(TextDelta(text));
      }
    }

    method FindQueuedTerminal() returns (item: Option<Item>)
      ensures item == QueuedTerminal(queue)
    {
      var i := |queue|;
      assert queue[..i] == queue;
      while i > 0
        invariant 0 <= i <= |queue|
        invariant QueuedTerminal(queue) == QueuedTerminal(queue[..i])
      {
        assert queue[..i][..i - 1] == queue[..i - 1];
        i := i - 1;
        if !queue[i].TextDelta? { return Some(queue[i]); }
      }
      item := None;
    }

    /** Decides what a cancelled turn is persisted as and queues it. */
    method PersistCancelledTurn()
      modifies this`persisted
      ensures View() == old(View()).(persisted := old(persisted) + [ResolveCancelled(old(View()))])
    {
      var queued := FindQueuedTerminal();
      var p := PersistCancelled;
      if queued == Some(DoneItem) || dispatchTerminal == Some(Resolved) {
        p := if IsBlank(replyText) then PersistFailure(NO_TEXT) else PersistReply(replyText);
      } else if queued.Some? && queued.value.ErrorItem? {
        p := PersistFailure(queued.value.message);
      } else if dispatchTerminal.Some? {
        p := PersistFailure(dispatchTerminal.value.message);
      }
      persisted := persisted + [p];
    }

    method OnSettled(outcome: Outcome)
      modifies this`queue, this`dispatchTerminal, this`deferred, this`persisted
      ensures View() == Settle(old(View()), outcome)
    {
      dispatchTerminal := Some(outcome);
      match outcome {
        case Resolved => PushItem(DoneItem);
        case Failure(m) => PushItem(ErrorItem(m));
      }
      if deferred {
        PersistCancelledTurn();
        deferred := false;
      }
    }

    method Next()
      modifies this
      ensures View() == OnPull(old(View()))
    {
      if consumer == Finished || queue == [] { return; }
      var item := queue[0];
      queue := queue[1..];
      match item {
        case TextDelta(_) => consumer := AtYield;
        case DoneItem =>
          aborted, consumer := true, Finished;
          persisted := persisted + [if IsBlank(replyText) then PersistFailure(NO_TEXT) else PersistReply(replyText)];
        case ErrorItem(m) =>
          aborted, consumer := true, Finished;
          persisted := persisted + [PersistFailure(m)];
      }
    }

    method Return()
      modifies this
      ensures View() == OnStop(old(View()))
    {
      if consumer != AtYield { return; }
      if dispatchTerminal.None? {
        aborted, consumer, deferred := true, Finished, true;
      } else {
        PersistCancelledTurn();
        aborted, consumer := true, Finished;
      }
    }
  }

  // ----- What a script amounts to -------------------------------------------------------------

  function ReplyOf(script: seq<Signal>): string {
    if script == [] then []
    else ReplyOf(script[..|script| - 1]) + match script[|script| - 1] case Chunk(t) => t case CallbackError(_) => []
  }

  /** The reply is the text of the chunks, in order. */
  lemma {:induction false} ReplyMeans(a: seq<Signal>, b: seq<Signal>, text: string, message: string)
    ensures ReplyOf([]) == [] && ReplyOf([Chunk(text)]) == text && ReplyOf([CallbackError(message)]) == []
    ensures ReplyOf(a + b) == ReplyOf(a) + ReplyOf(b)
  {
    assert [Chunk(text)][..0] == [] && [CallbackError(message)][..0] == [];
    if b == [] {
      assert a + b == a;
    } else {
      assert (a + b)[..|a + b| - 1] == a + b[..|b| - 1];
      ReplyMeans(a, b[..|b| - 1], text, message);
    }
  }

  /** A reply is stored as it is, unless there is nothing but blanks in it. */
  lemma FinalReplyMeans(text: string)
    ensures FinalReply(text) ==
            if exists i :: 0 <= i < |text| && !IsSpace(text[i]) then PersistReply(text)
            else PersistFailure("Agent returned no text response")
  {
    BlankMeans(text);
  }

  lemma BlankMeans(text: string)
    ensures IsBlank(text) <==> forall i :: 0 <= i < |text| ==> IsSpace(text[i])
  {
    StartBlank(text);
    EndBlank(TrimStart(text));
    TrimStartTight(text);
  }

  lemma {:induction false} StartBlank(s: string)
    ensures TrimStart(s) == [] <==> forall i :: 0 <= i < |s| ==> IsSpace(s[i])
  {
    hide IsSpace;
    if s != [] && IsSpace(s[0]) {
      StartBlank(s[1..]);
      assert forall i :: 0 < i < |s| ==> s[i] == s[1..][i - 1];
    }
  }

  lemma {:induction false} EndBlank(s: string)
    ensures TrimEnd(s) == [] <==> forall i :: 0 <= i < |s| ==> IsSpace(s[i])
  {
    hide IsSpace;
    if s != [] && IsSpace(s[|s| - 1]) { EndBlank(s[..|s| - 1]); }
  }

  /** The one thing a turn may be persisted as: it depends on the dispatch alone. */
  function Expected(script: seq<Signal>, outcome: Outcome): Persisted {
    match outcome
    case Resolved => FinalReply(ReplyOf(script))
    case Failure(m) => PersistFailure(m)
  }

  ghost predicate OnlyChunks(script: seq<Signal>) {
    forall i :: 0 <= i < |script| ==> script[i].Chunk?
  }

  ghost predicate OnlyDeltas(queue: seq<Item>) {
    forall i :: 0 <= i < |queue| ==> queue[i].TextDelta?
  }

  function TerminalItem(outcome: Outcome): Item {
    match outcome case Resolved => DoneItem case Failure(m) => ErrorItem(m)
  }
}
