/** Streamed turns whose dispatch may also report errors through its callback:
    exactly what such a turn can be stored as, however it ends and is read. */
module StreamErrors {
  import opened Wrappers
  import opened Streaming

  function ItemOf(s: Signal): seq<Item> {
    match s
    case Chunk(text) => if text == [] then [] else [TextDelta(text)]
    case CallbackError(m) => [ErrorItem(m)]
  }

  function ItemsOf(script: seq<Signal>): seq<Item> {
    if script == [] then [] else ItemsOf(script[..|script| - 1]) + ItemOf(script[|script| - 1])
  }

  /** Everything the reader would be sent. */
  function Full(script: seq<Signal>, outcome: Outcome): (items: seq<Item>)
    ensures items != [] && !items[|items| - 1].TextDelta?
  {
    ItemsOf(script) + [TerminalItem(outcome)]
  }

  function Sofar(script: seq<Signal>, outcome: Outcome, n: nat): seq<Item> {
    if n > |script| then Full(script, outcome) else ItemsOf(script[..n])
  }

  function SentReply(script: seq<Signal>, n: nat): string {
    if n > |script| then ReplyOf(script) else ReplyOf(script[..n])
  }

  /** Where a reader who stays comes to an end. */
  function EndIndex(items: seq<Item>): (k: nat)
    requires items != [] && !items[|items| - 1].TextDelta?
    ensures k < |items| && !items[k].TextDelta? && OnlyDeltas(items[..k])
  {
    if !items[0].TextDelta? then 0
    else
      var k := EndIndex(items[1..]);
      assert items[..k + 1] == [items[0]] + items[1..][..k];
      k + 1
  }

  function EndItem(script: seq<Signal>, outcome: Outcome): Item {
    Full(script, outcome)[EndIndex(Full(script, outcome))]
  }

  /** What a reader who stays to the end has stored. */
  function ReadResult(script: seq<Signal>, outcome: Outcome): Persisted {
    match EndItem(script, outcome)
    case ErrorItem(m) => PersistFailure(m)
    case _ => FinalReply(ReplyOf(script))
  }

  /** The reader is given some text before any error, so that it can leave at a yield. */
  predicate TextFirst(script: seq<Signal>) {
    ItemsOf(script) != [] && ItemsOf(script)[0].TextDelta?
  }

  /** What a reader who leaves at a yield may have stored. */
  ghost predicate LeaveResult(script: seq<Signal>, outcome: Outcome, p: Persisted) {
    match outcome
    case Resolved => p == FinalReply(ReplyOf(script))
    case Failure(m) => p == PersistFailure(m) || (p.PersistFailure? && CallbackError(p.reason) in script)
  }

  // ----- Every run -----------------------------------------------------------------------------

  lemma SofarStep(script: seq<Signal>, outcome: Outcome, n: nat)
    requires n <= |script|
    ensures Sofar(script, outcome, n + 1) ==
            Sofar(script, outcome, n) + if n == |script| then [TerminalItem(outcome)] else ItemOf(script[n])
    ensures SentReply(script, n + 1) ==
            SentReply(script, n) + if n < |script| && script[n].Chunk? then script[n].text else []
  {
    if n < |script| {
      assert script[..n + 1][..n] == script[..n];
    } else {
      assert script[..n] == script;
    }
  }

  lemma {:induction false} SofarIsPrefix(script: seq<Signal>, outcome: Outcome, n: nat)
    requires n <= |script| + 1
    ensures Sofar(script, outcome, n) <= Full(script, outcome)
    decreases |script| + 1 - n
  {
    if n <= |script| {
      SofarStep(script, outcome, n);
      SofarIsPrefix(script, outcome, n + 1);
    }
  }

  /** Text, or an error the callback reported. */
  ghost predicate FromScript(script: seq<Signal>, items: seq<Item>) {
    forall i :: 0 <= i < |items| ==>
      items[i].TextDelta? || (items[i].ErrorItem? && CallbackError(items[i].message) in script)
  }

  lemma {:induction false} ItemsAreFromScript(script: seq<Signal>)
    ensures FromScript(script, ItemsOf(script))
  {
    if script != [] {
      var init := script[..|script| - 1];
      ItemsAreFromScript(init);
      assert forall e :: e in init ==> e in script;
    }
  }

  lemma SentIsFromScript(script: seq<Signal>, outcome: Outcome, n: nat)
    requires n <= |script|
    ensures FromScript(script, Sofar(script, outcome, n))
  {
    ItemsAreFromScript(script[..n]);
    assert forall e :: e in script[..n] ==> e in script;
  }

  /** The reader has taken `k` pieces of text and nothing else. */
  ghost predicate Reading(script: seq<Signal>, outcome: Outcome, r: Run, k: nat) {
    var sofar := Sofar(script, outcome, r.produced);
    k <= |sofar| && r.turn.queue == sofar[k..] && OnlyDeltas(sofar[..k]) && (r.turn.consumer == AtYield ==> k > 0)
  }

  ghost predicate Result(script: seq<Signal>, outcome: Outcome, p: Persisted) {
    p == ReadResult(script, outcome) || (TextFirst(script) && LeaveResult(script, outcome, p))
  }

  ghost predicate EndedOk(script: seq<Signal>, outcome: Outcome, r: Run) {
    var t := r.turn;
    && t.aborted
    && if t.deferred then
         r.produced <= |script| && t.persisted == [] && TextFirst(script) && FromScript(script, t.queue)
       else |t.persisted| == 1 && Result(script, outcome, t.persisted[0])
  }

  ghost predicate RunOk(script: seq<Signal>, outcome: Outcome, r: Run) {
    var t := r.turn;
    && r.produced <= |script| + 1
    && t.replyText == SentReply(script, r.produced)
    && t.dispatchTerminal == (if r.produced > |script| then Some(outcome) else None)
    && (t.consumer != Finished ==>
          !t.aborted && !t.deferred && t.persisted == [] && exists k :: Reading(script, outcome, r, k))
    && (t.consumer == Finished ==> EndedOk(script, outcome, r))
  }

  lemma {:induction false} LastOfQueue(queue: seq<Item>)
    ensures QueuedTerminal(queue).Some? ==>
              QueuedTerminal(queue).value in queue && !QueuedTerminal(queue).value.TextDelta?
  {
    if queue != [] && queue[|queue| - 1].TextDelta? { LastOfQueue(queue[..|queue| - 1]); }
  }

  /** A cancellation that waited for the dispatch is resolved to one of the results. */
  lemma SettlingResolves(script: seq<Signal>, outcome: Outcome, t: Turn)
    requires FromScript(script, t.queue) && t.dispatchTerminal == Some(outcome) && t.replyText == ReplyOf(script)
    ensures LeaveResult(script, outcome, ResolveCancelled(t))
  {
    hide FinalReply, ReplyOf;
    LastOfQueue(t.queue);
  }

  /** What the dispatch sends joins the queue of a reader who is still there. */
  lemma ReadingGoesOn(script: seq<Signal>, outcome: Outcome, r: Run, k: nat)
    requires r.produced <= |script| && Reading(script, outcome, r, k) && !r.turn.aborted && !r.turn.deferred
    ensures var r' := OnProduce(script, outcome, r);
            && Reading(script, outcome, r', k)
            && r'.turn.(queue := [], replyText := [], dispatchTerminal := None) ==
               r.turn.(queue := [], replyText := [], dispatchTerminal := None)
  {
    hide Sofar, SentReply, ReplyOf;
    SofarStep(script, outcome, r.produced);
    var before, after := Sofar(script, outcome, r.produced), Sofar(script, outcome, r.produced + 1);
    assert after[..k] == before[..k] && after[k..] == before[k..] + after[|before|..];
  }

  lemma ProducedSoFar(script: seq<Signal>, outcome: Outcome, r: Run)
    requires r.produced <= |script| && r.turn.replyText == SentReply(script, r.produced)
    ensures var r' := OnProduce(script, outcome, r);
            && r'.produced == r.produced + 1 && r'.turn.replyText == SentReply(script, r'.produced)
            && (r.produced < |script| ==> r'.turn.dispatchTerminal == r.turn.dispatchTerminal)
            && (r.produced == |script| ==> r'.turn.dispatchTerminal == Some(outcome))
            && r'.turn.consumer == r.turn.consumer && r'.turn.aborted == r.turn.aborted
  {
    hide Sofar, SentReply, ReplyOf, ResolveCancelled;
    SofarStep(script, outcome, r.produced);
    if r.produced < |script| && script[r.produced] == Chunk([]) {
      assert SentReply(script, r.produced + 1) == SentReply(script, r.produced);
    }
  }

  /** A reader who has left sees nothing more; a cancellation that waits is settled
      with the dispatch. */
  lemma EndedGoesOn(script: seq<Signal>, outcome: Outcome, r: Run)
    requires r.produced <= |script| && EndedOk(script, outcome, r) && r.turn.replyText == SentReply(script, r.produced)
    ensures EndedOk(script, outcome, OnProduce(script, outcome, r))
  {
    hide ReadResult, TextFirst, LeaveResult, Sofar, SentReply, ReplyOf, ResolveCancelled, FromScript;
    if r.produced == |script| {
      AllSent(script);
      if r.turn.deferred {
        SettlingResolves(script, outcome, r.turn.(dispatchTerminal := Some(outcome)));
      }
    }
  }

  lemma ProduceKeeps(script: seq<Signal>, outcome: Outcome, r: Run)
    requires RunOk(script, outcome, r)
    ensures RunOk(script, outcome, OnProduce(script, outcome, r))
  {
    hide Reading, EndedOk, OnProduce, SentReply;
    if r.produced <= |script| {
      ProducedSoFar(script, outcome, r);
      if r.turn.consumer == Finished {
        EndedGoesOn(script, outcome, r);
      } else {
        var k: nat :| Reading(script, outcome, r, k);
        ReadingGoesOn(script, outcome, r, k);
      }
    } else {
      NothingMoreToSend(script, outcome, r);
    }
  }

  lemma NothingMoreToSend(script: seq<Signal>, outcome: Outcome, r: Run)
    requires r.produced > |script|
    ensures OnProduce(script, outcome, r) == r
  {
  }

  lemma AllSent(script: seq<Signal>)
    ensures SentReply(script, |script|) == SentReply(script, |script| + 1) == ReplyOf(script)
  {
    assert script[..|script|] == script;
  }

  /** Reading something other than text ends the turn at the reader's last item. */
  lemma EndReached(script: seq<Signal>, outcome: Outcome, n: nat, k: nat)
    requires n <= |script| + 1 && k < |Sofar(script, outcome, n)| && OnlyDeltas(Sofar(script, outcome, n)[..k])
    requires !Sofar(script, outcome, n)[k].TextDelta?
    ensures Sofar(script, outcome, n)[k] == EndItem(script, outcome)
  {
    SofarIsPrefix(script, outcome, n);
    var full := Full(script, outcome);
    var e := EndIndex(full);
    var head := Sofar(script, outcome, n)[..k];
    assert forall i :: 0 <= i < k ==> head[i] == full[i];
    assert forall i :: 0 <= i < e ==> full[..e][i] == full[i];
  }

  lemma DoneMeansSettled(script: seq<Signal>, outcome: Outcome, n: nat, k: nat)
    requires n <= |script| + 1 && k < |Sofar(script, outcome, n)| && Sofar(script, outcome, n)[k] == DoneItem
    ensures n == |script| + 1 && SentReply(script, n) == ReplyOf(script)
  {
    if n <= |script| { SentIsFromScript(script, outcome, n); }
  }

  lemma PullKeeps(script: seq<Signal>, outcome: Outcome, r: Run)
    requires RunOk(script, outcome, r)
    ensures RunOk(script, outcome, r.(turn := OnPull(r.turn)))
  {
    hide FinalReply, SentReply, EndItem, ReplyOf, Sofar, LeaveResult;
    var t, r' := r.turn, r.(turn := OnPull(r.turn));
    if t.consumer != Finished && t.queue != [] {
      var k: nat :| Reading(script, outcome, r, k);
      var sofar := Sofar(script, outcome, r.produced);
      assert t.queue[0] == sofar[k];
      if sofar[k].TextDelta? {
        assert sofar[..k + 1] == sofar[..k] + [sofar[k]];
        assert t.queue[1..] == sofar[k + 1..];
        assert Reading(script, outcome, r', k + 1);
      } else {
        EndReached(script, outcome, r.produced, k);
        if sofar[k] == DoneItem { DoneMeansSettled(script, outcome, r.produced, k); }
      }
    }
  }

  /** A reader at a yield has been given text first. */
  lemma YieldNeedsText(script: seq<Signal>, outcome: Outcome, r: Run, k: nat)
    requires r.produced <= |script| + 1 && Reading(script, outcome, r, k) && k > 0
    ensures TextFirst(script)
  {
    var sofar := Sofar(script, outcome, r.produced);
    SofarIsPrefix(script, outcome, r.produced);
    assert sofar[..k][0] == sofar[0] == Full(script, outcome)[0];
  }

  /** A settled queue ends in the dispatch's own item. */
  lemma SettledQueueEnds(script: seq<Signal>, outcome: Outcome, t: Turn, k: nat)
    requires k <= |Full(script, outcome)| && OnlyDeltas(Full(script, outcome)[..k])
             && t.queue == Full(script, outcome)[k..]
    requires t.dispatchTerminal == Some(outcome) && t.replyText == ReplyOf(script)
    ensures ResolveCancelled(t) == if outcome.Resolved? then FinalReply(ReplyOf(script))
            else PersistFailure(outcome.message)
  {
    hide FinalReply, ReplyOf;
    var full := Full(script, outcome);
    assert k < |full|;
    assert t.queue[|t.queue| - 1] == full[|full| - 1] == TerminalItem(outcome);
  }

  lemma StopKeeps(script: seq<Signal>, outcome: Outcome, r: Run)
    requires RunOk(script, outcome, r)
    ensures RunOk(script, outcome, r.(turn := OnStop(r.turn)))
  {
    hide FinalReply, ReplyOf, ResolveCancelled, ReadResult, TextFirst;
    var t := r.turn;
    if t.consumer == AtYield {
      var k: nat :| Reading(script, outcome, r, k);
      YieldNeedsText(script, outcome, r, k);
      if r.produced > |script| {
        SettledQueueEnds(script, outcome, t, k);
      } else {
        SentIsFromScript(script, outcome, r.produced);
      }
    }
  }

  lemma {:induction false} ExecuteKeeps(script: seq<Signal>, outcome: Outcome, events: seq<Event>)
    ensures RunOk(script, outcome, Execute(script, outcome, events))
  {
    if events == [] {
      assert Reading(script, outcome, Run(0, FRESH), 0);
    } else {
      hide RunOk, OnProduce, OnPull, OnStop;
      var before := Execute(script, outcome, events[..|events| - 1]);
      ExecuteKeeps(script, outcome, events[..|events| - 1]);
      ProduceKeeps(script, outcome, before);
      PullKeeps(script, outcome, before);
      StopKeeps(script, outcome, before);
    }
  }

  /** For every script, outcome and interleaving: never more than one persistence,
      and exactly one once the dispatch has settled and the reader is done. */
  lemma ExactlyOnePersistence(script: seq<Signal>, outcome: Outcome, events: seq<Event>)
    ensures var r := Execute(script, outcome, events);
            && |r.turn.persisted| <= 1
            && (r.produced > |script| && r.turn.consumer == Finished ==> |r.turn.persisted| == 1)
            && (r.turn.persisted != [] ==> Result(script, outcome, r.turn.persisted[0]))
  {
    ExecuteKeeps(script, outcome, events);
  }

  // ----- Runs that reach each result -------------------------------------------------------------

  function Repeat(e: Event, n: nat): seq<Event> {
    seq(n, _ => e)
  }

  lemma Unfolds(script: seq<Signal>, outcome: Outcome, events: seq<Event>, e: Event)
    ensures Execute(script, outcome, events + [e]) == Step(script, outcome, Execute(script, outcome, events), e)
  {
    assert (events + [e])[..|events|] == events;
  }

  lemma RepeatMore(events: seq<Event>, e: Event, n: nat)
    ensures events + Repeat(e, 0) == events
    ensures events + Repeat(e, n) + [e] == events + Repeat(e, n + 1)
  {
  }

  /** The turn after `n` steps of the dispatch and `k` pulls of text. */
  function ReadSofar(script: seq<Signal>, outcome: Outcome, n: nat, k: nat): Run
    requires k <= |Sofar(script, outcome, n)|
  {
    Run(n, Turn(Sofar(script, outcome, n)[k..], false, SentReply(script, n),
                if n > |script| then Some(outcome) else None, if k == 0 then Waiting else AtYield, false, []))
  }

  lemma ProduceUnread(script: seq<Signal>, outcome: Outcome, n: nat)
    requires n <= |script|
    ensures OnProduce(script, outcome, ReadSofar(script, outcome, n, 0)) == ReadSofar(script, outcome, n + 1, 0)
  {
    hide Sofar, SentReply;
    SofarStep(script, outcome, n);
    if n < |script| && script[n] == Chunk([]) {
      assert Sofar(script, outcome, n + 1) == Sofar(script, outcome, n);
      assert SentReply(script, n + 1) == SentReply(script, n);
    }
  }

  lemma {:induction false} ProduceRun(script: seq<Signal>, outcome: Outcome, n: nat)
    requires n <= |script| + 1
    ensures Execute(script, outcome, Repeat(Produce, n)) == ReadSofar(script, outcome, n, 0)
  {
    if n == 0 {
      assert Repeat(Produce, 0) == [];
    } else {
      hide Execute, ReadSofar, OnProduce;
      ProduceRun(script, outcome, n - 1);
      ProduceUnread(script, outcome, n - 1);
      Unfolds(script, outcome, Repeat(Produce, n - 1), Produce);
      assert Repeat(Produce, n - 1) + [Produce] == Repeat(Produce, n);
    }
  }

  function ReadEvents(n: nat, k: nat): seq<Event> {
    Repeat(Produce, n) + Repeat(Pull, k)
  }

  /** First the dispatch takes `n` steps, then the reader takes text. */
  lemma {:induction false} PullRun(script: seq<Signal>, outcome: Outcome, n: nat, k: nat)
    requires n <= |script| + 1 && k <= |Sofar(script, outcome, n)| && OnlyDeltas(Sofar(script, outcome, n)[..k])
    ensures Execute(script, outcome, ReadEvents(n, k)) == ReadSofar(script, outcome, n, k)
  {
    hide Execute, Sofar, SentReply;
    if k == 0 {
      ProduceRun(script, outcome, n);
      RepeatMore(Repeat(Produce, n), Pull, 0);
    } else {
      var sofar := Sofar(script, outcome, n);
      assert sofar[..k][..k - 1] == sofar[..k - 1];
      PullRun(script, outcome, n, k - 1);
      Unfolds(script, outcome, ReadEvents(n, k - 1), Pull);
      RepeatMore(Repeat(Produce, n), Pull, k - 1);
      assert sofar[..k][k - 1] == sofar[k - 1..][0];
      assert sofar[k - 1..][1..] == sofar[k..];
    }
  }

  ghost predicate Stores(script: seq<Signal>, outcome: Outcome, events: seq<Event>, p: Persisted) {
    var r := Execute(script, outcome, events);
    r.produced > |script| && r.turn.consumer == Finished && r.turn.persisted == [p]
  }

  ghost predicate CanStore(script: seq<Signal>, outcome: Outcome, p: Persisted) {
    exists events :: Stores(script, outcome, events, p)
  }

  lemma StayingStores(script: seq<Signal>, outcome: Outcome)
    ensures CanStore(script, outcome, ReadResult(script, outcome))
  {
    hide Execute, SentReply;
    var full, n := Full(script, outcome), |script| + 1;
    var e := EndIndex(full);
    PullRun(script, outcome, n, e);
    AllSent(script);
    Unfolds(script, outcome, ReadEvents(n, e), Pull);
    assert full[e..][0] == full[e];
    assert Stores(script, outcome, ReadEvents(n, e) + [Pull], ReadResult(script, outcome));
  }

  /** Leaving once everything has been sent. */
  lemma LeavingLateStores(script: seq<Signal>, outcome: Outcome)
    requires TextFirst(script)
    ensures CanStore(script, outcome,
            if outcome.Resolved? then FinalReply(ReplyOf(script)) else PersistFailure(outcome.message))
  {
    hide Execute, FinalReply, SentReply, ResolveCancelled;
    var n := |script| + 1;
    PullRun(script, outcome, n, 1);
    AllSent(script);
    Unfolds(script, outcome, ReadEvents(n, 1), Stop);
    var r := ReadSofar(script, outcome, n, 1);
    SettledQueueEnds(script, outcome, r.turn, 1);
    assert Stores(script, outcome, ReadEvents(n, 1) + [Stop], ResolveCancelled(r.turn));
  }

  /** The turn of a reader who left before the dispatch settled. */
  function Left(script: seq<Signal>, n: nat, queue: seq<Item>): Run {
    Run(n, Turn(queue, true, SentReply(script, n), None, Finished, true, []))
  }

  lemma {:induction false} ProduceAfterLeaving(script: seq<Signal>, outcome: Outcome, events: seq<Event>,
                                               n: nat, queue: seq<Item>, j: nat)
    requires Execute(script, outcome, events) == Left(script, n, queue) && n + j <= |script|
    ensures Execute(script, outcome, events + Repeat(Produce, j)) == Left(script, n + j, queue)
  {
    hide Execute, SentReply;
    if j == 0 {
      RepeatMore(events, Produce, 0);
    } else {
      ProduceAfterLeaving(script, outcome, events, n, queue, j - 1);
      SofarStep(script, outcome, n + j - 1);
      Unfolds(script, outcome, events + Repeat(Produce, j - 1), Produce);
      RepeatMore(events, Produce, j - 1);
      if script[n + j - 1] == Chunk([]) { assert SentReply(script, n + j) == SentReply(script, n + j - 1); }
    }
  }

  /** Leaving right after the callback reported its error at position `i`. */
  lemma LeavingEarlyStores(script: seq<Signal>, m: string, i: nat)
    requires TextFirst(script) && i < |script| && script[i].CallbackError?
    ensures CanStore(script, Failure(m), PersistFailure(script[i].message))
  {
    hide Execute, SentReply;
    var outcome, x := Failure(m), script[i].message;
    var sofar := Sofar(script, outcome, i + 1);
    ErrorAfterText(script, outcome, i);
    PullRun(script, outcome, i + 1, 1);
    Unfolds(script, outcome, ReadEvents(i + 1, 1), Stop);
    var left := ReadEvents(i + 1, 1) + [Stop];
    ProduceAfterLeaving(script, outcome, left, i + 1, sofar[1..], |script| - i - 1);
    var events := left + Repeat(Produce, |script| - i - 1);
    Unfolds(script, outcome, events, Produce);
    assert Stores(script, outcome, events + [Produce], PersistFailure(x));
  }

  lemma ErrorAfterText(script: seq<Signal>, outcome: Outcome, i: nat)
    requires TextFirst(script) && i < |script| && script[i].CallbackError?
    ensures var sofar := Sofar(script, outcome, i + 1);
            |sofar| > 1 && sofar[0].TextDelta? && sofar[|sofar| - 1] == ErrorItem(script[i].message)
  {
    SofarStep(script, outcome, i);
    SofarIsPrefix(script, outcome, i + 1);
  }

  /** Exactly what a turn can be stored as: the staying reader's result; and, once
      text came first, the reply of a dispatch that resolves, or for one that
      fails its own reason and any reason the callback reported. */
  lemma StoredIff(script: seq<Signal>, outcome: Outcome, p: Persisted)
    ensures CanStore(script, outcome, p) <==> Result(script, outcome, p)
  {
    hide Execute, ReadResult, FinalReply, TextFirst, ReplyOf;
    StayingStores(script, outcome);
    if TextFirst(script) && LeaveResult(script, outcome, p) {
      LeavingLateStores(script, outcome);
      if outcome.Failure? && p != PersistFailure(outcome.message) {
        var i :| 0 <= i < |script| && script[i] == CallbackError(p.reason);
        LeavingEarlyStores(script, outcome.message, i);
      }
    }
    forall events | Stores(script, outcome, events, p) ensures Result(script, outcome, p) {
      ExactlyOnePersistence(script, outcome, events);
    }
  }

  // ----- When leaving early changes nothing --------------------------------------------------------

  function FirstError(script: seq<Signal>): Option<string> {
    if script == [] then None
    else
      var earlier, last := FirstError(script[..|script| - 1]), script[|script| - 1];
      if earlier.Some? then earlier else if last.CallbackError? then Some(last.message) else None
  }

  ghost predicate FirstErrorAt(items: seq<Item>, message: string, k: int) {
    0 <= k < |items| && items[k] == ErrorItem(message) && OnlyDeltas(items[..k])
  }

  lemma FirstErrorStays(items: seq<Item>, more: seq<Item>, message: string, k: int)
    requires FirstErrorAt(items, message, k)
    ensures FirstErrorAt(items + more, message, k)
  {
    assert (items + more)[..k] == items[..k];
  }

  lemma FirstErrorComes(items: seq<Item>, message: string)
    requires OnlyDeltas(items)
    ensures FirstErrorAt(items + [ErrorItem(message)], message, |items|)
  {
    assert (items + [ErrorItem(message)])[..|items|] == items;
  }

  lemma {:induction false} FirstErrorMeans(script: seq<Signal>)
    ensures FirstError(script).None? ==> OnlyDeltas(ItemsOf(script)) && forall x :: CallbackError(x) !in script
    ensures FirstError(script).Some? ==>
              && CallbackError(FirstError(script).value) in script
              && exists k :: FirstErrorAt(ItemsOf(script), FirstError(script).value, k)
  {
    if script != [] {
      var n := |script| - 1;
      var init, before, more := script[..n], ItemsOf(script[..n]), ItemOf(script[n]);
      FirstErrorMeans(init);
      assert script == init + [script[n]];
      assert ItemsOf(script) == before + more;
      if FirstError(init).Some? {
        hide FirstErrorAt;
        var k :| FirstErrorAt(before, FirstError(init).value, k);
        FirstErrorStays(before, more, FirstError(init).value, k);
      } else if script[n].CallbackError? {
        FirstErrorComes(before, script[n].message);
      }
    }
  }

  /** The staying reader ends on the first error the callback reported, if any. */
  lemma EndsOnFirstError(script: seq<Signal>, outcome: Outcome)
    ensures EndItem(script, outcome) ==
            if FirstError(script).Some? then ErrorItem(FirstError(script).value) else TerminalItem(outcome)
  {
    hide EndItem;
    FirstErrorMeans(script);
    var items, full, n := ItemsOf(script), Full(script, outcome), |script| + 1;
    if FirstError(script).Some? {
      var k :| FirstErrorAt(items, FirstError(script).value, k);
      assert full[..k] == items[..k];
      EndReached(script, outcome, n, k);
    } else {
      assert full[..|items|] == items;
      EndReached(script, outcome, n, |items|);
    }
  }

  /** What the sender of a script can look at: no text comes first; or nothing went
      through the callback but, for a failing dispatch, its own reason; or, for a
      resolving one, the reply is blank and the first error says just that. */
  ghost predicate LeavingIsHarmless(script: seq<Signal>, outcome: Outcome) {
    || !TextFirst(script)
    || match outcome
       case Failure(m) => forall x :: CallbackError(x) in script ==> x == m
       case Resolved =>
         || (forall x :: CallbackError(x) !in script)
         || (IsBlank(ReplyOf(script)) && FirstError(script) == Some(NO_TEXT))
  }

  lemma HarmlessMeansSame(script: seq<Signal>, outcome: Outcome, p: Persisted)
    requires LeavingIsHarmless(script, outcome) && Result(script, outcome, p)
    ensures p == ReadResult(script, outcome)
  {
    hide EndItem, TextFirst, IsBlank, ReplyOf;
    EndsOnFirstError(script, outcome);
    FirstErrorMeans(script);
  }

  lemma HarmfulMeansDifferent(script: seq<Signal>, outcome: Outcome) returns (p: Persisted)
    requires !LeavingIsHarmless(script, outcome)
    ensures Result(script, outcome, p) && p != ReadResult(script, outcome)
  {
    hide EndItem, TextFirst, IsBlank, ReplyOf;
    EndsOnFirstError(script, outcome);
    FirstErrorMeans(script);
    match outcome
    case Resolved => p := FinalReply(ReplyOf(script));
    case Failure(m) =>
      var x :| CallbackError(x) in script && x != m;
      p := if ReadResult(script, outcome) == PersistFailure(m) then PersistFailure(x) else PersistFailure(m);
  }

  /** Cancelling early never changes what is stored if and only if the script is
      harmless, for every script and every outcome. */
  lemma ConfluentIff(script: seq<Signal>, outcome: Outcome)
    ensures (forall p, q :: CanStore(script, outcome, p) && CanStore(script, outcome, q) ==> p == q) <==>
            LeavingIsHarmless(script, outcome)
  {
    hide CanStore, Result, LeavingIsHarmless;
    if LeavingIsHarmless(script, outcome) {
      forall p, q | CanStore(script, outcome, p) && CanStore(script, outcome, q) ensures p == q {
        StoredIff(script, outcome, p);
        StoredIff(script, outcome, q);
        HarmlessMeansSame(script, outcome, p);
        HarmlessMeansSame(script, outcome, q);
      }
    } else {
      var p := HarmfulMeansDifferent(script, outcome);
      StoredIff(script, outcome, p);
      StayingStores(script, outcome);
    }
  }

  /** Cancel confluence: without callback errors, for every interleaving, a turn whose
      dispatch has settled and whose consumer is done queues exactly one persistence,
      and its content is a function of the dispatch; before that, none or that one. */
  lemma CancelIsConfluent(script: seq<Signal>, outcome: Outcome, events: seq<Event>)
    requires OnlyChunks(script)
    ensures var r := Execute(script, outcome, events);
            && (r.turn.persisted == [] || r.turn.persisted == [Expected(script, outcome)])
            && (r.produced > |script| && r.turn.consumer == Finished ==>
               r.turn.persisted == [Expected(script, outcome)])
  {
    ExactlyOnePersistence(script, outcome, events);
    EndsOnFirstError(script, outcome);
    FirstErrorMeans(script);
    hide Execute, EndItem, ReplyOf, FinalReply;
    var persisted := Execute(script, outcome, events).turn.persisted;
    if persisted != [] {
      HarmlessMeansSame(script, outcome, persisted[0]);
    }
  }

  /** The shortest failing scripts: one chunk and one callback error. */
  lemma CallbackErrorBreaksConfluence(a: string, x: string, m: string)
    requires !IsBlank(a) && x != m
    ensures var script := [Chunk(a), CallbackError(x)];
            && CanStore(script, Resolved, PersistFailure(x)) && CanStore(script, Resolved, PersistReply(a))
            && CanStore(script, Failure(m), PersistFailure(x)) && CanStore(script, Failure(m), PersistFailure(m))
  {
    assert a != [];
    hide CanStore, IsBlank, Execute, EndItem;
    var script := [Chunk(a), CallbackError(x)];
    assert script[..1] == [Chunk(a)] && [Chunk(a)][..0] == [];
    assert ItemsOf([]) == [] && ItemsOf([Chunk(a)]) == [TextDelta(a)]
           && ItemsOf(script) == [TextDelta(a), ErrorItem(x)];
    assert ReplyOf([]) == [] && ReplyOf([Chunk(a)]) == a && ReplyOf(script) == a;
    assert FirstError([]) == None && FirstError([Chunk(a)]) == None && FirstError(script) == Some(x);
    EndsOnFirstError(script, Resolved);
    EndsOnFirstError(script, Failure(m));
    StoredIff(script, Resolved, PersistFailure(x));
    StoredIff(script, Resolved, PersistReply(a));
    StoredIff(script, Failure(m), PersistFailure(x));
    StoredIff(script, Failure(m), PersistFailure(m));
  }
}
