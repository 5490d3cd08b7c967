/** The incremental writer (W4b): a queue of inbound texts, one turn per textual
    outbound message, persists completing in any order. */
module Pairing {
  import opened Text
  import opened Transcript
  import opened Watermarks

  /** A turn handed to the daemon, with the queue items it consumed. */
  datatype Job = Job(items: seq<string>, user: string, assistant: string, messageId: string)

  /** One conversation: its queue, the jobs in flight, every job ever dispatched
      (in order), those stored, the reservations, and the durable state. */
  datatype Conversation = Conversation(
    queue: seq<string>, jobs: seq<Job>, dispatched: seq<Job>, stored: seq<Job>, seen: set<string>, d: Durable)

  datatype Event =
    | Received(text: string)
    | Sent(text: string, success: bool, messageId: string)
    | Completed(job: nat, writeOk: bool)
    | PersistFailed(job: nat)
    | Expired(keep: set<string>)
    | Retried(writeOk: bool)

  const IDLE: Conversation := Conversation([], [], [], [], {}, Durable(NO_STATE, map[]))

  function Without<T>(s: seq<T>, i: nat): seq<T>
    requires i < |s|
  {
    s[..i] + s[i + 1..]
  }

  function OnReceived(c: Conversation, text: string): Conversation {
    if text == [] then c else c.(queue := c.queue + [text])
  }

  function OnSent(strip: string -> string, c: Conversation, text: string, success: bool,
                  messageId: string): Conversation {
    var assistant := strip(text);
    if !success then c.(queue := [])
    else if assistant == [] || c.queue == [] then c
    else if messageId in c.seen then c.(queue := [])
    else
      var job := Job(c.queue, Join(c.queue, "\n"), assistant, messageId);
      c.(queue := [], jobs := c.jobs + [job], dispatched := c.dispatched + [job], seen := c.seen + {messageId})
  }

  function OnCompleted(session: string, c: Conversation, i: nat, writeOk: bool): Conversation {
    if i >= |c.jobs| then c
    else c.(jobs := Without(c.jobs, i), stored := c.stored + [c.jobs[i]], d := Apply(c.d, CountOp(session, writeOk)))
  }

  function OnPersistFailed(c: Conversation, i: nat): Conversation {
    if i >= |c.jobs| then c
    else c.(jobs := Without(c.jobs, i), queue := c.jobs[i].items + c.queue, seen := c.seen - {c.jobs[i].messageId})
  }

  /** Reservations outlive their time to live and are evicted, any of them at any time. */
  function OnExpired(c: Conversation, keep: set<string>): Conversation {
    c.(seen := c.seen * keep)
  }

  /** The debounce timer set when a count could not be written runs out. */
  function OnRetried(session: string, c: Conversation, writeOk: bool): Conversation {
    c.(d := Apply(c.d, TimerOp(session, writeOk)))
  }

  function Step(strip: string -> string, session: string, c: Conversation, e: Event): Conversation {
    match e
    case Received(text) => OnReceived(c, text)
    case Sent(text, success, messageId) => OnSent(strip, c, text, success, messageId)
    case Completed(i, ok) => OnCompleted(session, c, i, ok)
    case PersistFailed(i) => OnPersistFailed(c, i)
    case Expired(keep) => OnExpired(c, keep)
    case Retried(ok) => OnRetried(session, c, ok)
  }

  function Converse(strip: string -> string, session: string, events: seq<Event>): Conversation {
    if events == [] then IDLE
    else Step(strip, session, Converse(strip, session, events[..|events| - 1]), events[|events| - 1])
  }

  // ----- Event streams of a transcript ----------------------------------------------------

  /** The channel event of a message, if it has one; `id` names the delivery. */
  function EventsOfMessage(m: Message, id: string): seq<Event> {
    if m.role == User then [Received(m.text)]
    else if IsSend(m) then [Sent(m.text, m.delivered, id)]
    else []
  }

  function EventsOf(messages: seq<Message>, ids: seq<string>): seq<Event>
    requires |ids| == |messages|
  {
    if messages == [] then []
    else
      var n := |messages| - 1;
      EventsOf(messages[..n], ids[..n]) + EventsOfMessage(messages[n], ids[n])
  }

  /** `events` is the stream of the transcript with completions, in any order and
      with any outcome of the count's write, its retries and expiring reservations
      mixed in anywhere. */
  ghost predicate Interleaves(events: seq<Event>, stream: seq<Event>)
    decreases |events|
  {
    if events == [] then stream == []
    else
      var e, before := events[|events| - 1], events[..|events| - 1];
      match e
      case Completed(_, _) => Interleaves(before, stream)
      case PersistFailed(_) => false
      case Expired(_) => Interleaves(before, stream)
      case Retried(_) => Interleaves(before, stream)
      case _ => stream != [] && e == stream[|stream| - 1] && Interleaves(before, stream[..|stream| - 1])
  }

  ghost predicate AllDistinct(ids: seq<string>) {
    forall i, j :: 0 <= i < j < |ids| ==> ids[i] != ids[j]
  }

  // ----- Where the two writers part ------------------------------------------------------------

  /** An assistant message the channel was given: not a tool-call step. */
  predicate IsSend(m: Message) {
    m.role == Assistant && !m.toolCalls
  }

  /** What the incremental writer sees differently when user text is waiting: a send
      that fails, which drops the queue, or a reply that strips to nothing. */
  ghost predicate Parts(strip: string -> string, m: Message) {
    IsSend(m) && (!m.delivered || (m.text != [] && strip(m.text) == []))
  }

  /** The writers part at message `i`: user text is waiting and they see it differently. */
  ghost predicate PartAt(strip: string -> string, messages: seq<Message>, i: nat)
    requires i < |messages|
  {
    ScanMessages(messages[..i]).pending != [] && Parts(strip, messages[i])
  }

  ghost predicate NeverPart(strip: string -> string, messages: seq<Message>) {
    forall i :: 0 <= i < |messages| ==> !PartAt(strip, messages, i)
  }

  /** What the incremental writer does with a transcript, deliveries in order. */
  datatype Sends = Sends(queue: seq<string>, turns: seq<(string, string)>)

  function StepSends(strip: string -> string, w: Sends, m: Message): Sends {
    if m.role == User then (if m.text == [] then w else w.(queue := w.queue + [m.text]))
    else if IsSend(m) && !m.delivered then w.(queue := [])
    else if IsSend(m) && strip(m.text) != [] && w.queue != [] then
      Sends([], w.turns + [(Join(w.queue, "\n"), strip(m.text))])
    else w
  }

  function SendsOf(strip: string -> string, messages: seq<Message>): Sends {
    if messages == [] then Sends([], [])
    else StepSends(strip, SendsOf(strip, messages[..|messages| - 1]), messages[|messages| - 1])
  }

  function Contents(strip: string -> string, turns: seq<Turn>): seq<(string, string)> {
    seq(|turns|, i requires 0 <= i < |turns| => (Join(Texts(turns[i].users), "\n"), strip(turns[i].reply)))
  }

  /** The two writers agree on a transcript: same turns in order, same open queue. */
  ghost predicate Agree(strip: string -> string, messages: seq<Message>) {
    var s := ScanMessages(messages);
    SendsOf(strip, messages) == Sends(Texts(s.pending), Contents(strip, s.turns))
  }

  lemma StepAgrees(strip: string -> string, before: seq<Message>, m: Message)
    requires strip([]) == [] && Agree(strip, before)
    requires !(ScanMessages(before).pending != [] && Parts(strip, m))
    ensures Agree(strip, before + [m])
  {
    var messages := before + [m];
    assert messages[..|messages| - 1] == before;
    var s := ScanMessages(before);
    assert |Texts(s.pending)| == |s.pending|;
    if IsUserText(m) {
      assert Texts(s.pending + [PendingOf(m)]) == Texts(s.pending) + [m.text];
    } else if IsFinal(m) && s.pending != [] {
      assert Contents(strip, s.turns + [Turn(s.pending, m.text)]) ==
             Contents(strip, s.turns) + [(Join(Texts(s.pending), "\n"), strip(m.text))];
      assert Texts([]) == [];
    }
  }

  lemma {:induction false} AgreeWhenNeverParting(strip: string -> string, messages: seq<Message>)
    requires strip([]) == [] && NeverPart(strip, messages)
    ensures Agree(strip, messages)
  {
    if messages == [] {
      assert Texts([]) == [] && Contents(strip, []) == [];
    } else {
      var n := |messages| - 1;
      forall i | 0 <= i < n ensures !PartAt(strip, messages[..n], i) {
        assert messages[..n][..i] == messages[..i];
        assert !PartAt(strip, messages, i);
      }
      AgreeWhenNeverParting(strip, messages[..n]);
      assert !PartAt(strip, messages, n);
      StepAgrees(strip, messages[..n], messages[n]);
      assert messages[..n] + [messages[n]] == messages;
    }
  }

  /** Incremental and batch pairing agree on every prefix of a transcript exactly
      when, with user text waiting, no send fails and no reply strips to nothing. */
  lemma PairingsAgreeIff(strip: string -> string, messages: seq<Message>)
    requires strip([]) == []
    ensures (forall n :: 0 <= n <= |messages| ==> Agree(strip, messages[..n])) <==> NeverPart(strip, messages)
  {
    if NeverPart(strip, messages) {
      forall n | 0 <= n <= |messages| ensures Agree(strip, messages[..n]) {
        forall i | 0 <= i < n ensures !PartAt(strip, messages[..n], i) {
          assert messages[..n][..i] == messages[..i];
          assert !PartAt(strip, messages, i);
        }
        AgreeWhenNeverParting(strip, messages[..n]);
      }
    } else {
      var i :| 0 <= i < |messages| && PartAt(strip, messages, i);
      assert messages[..i] + [messages[i]] == messages[..i + 1];
      if Agree(strip, messages[..i]) {
        PartingDisagrees(strip, messages[..i], messages[i]);
      }
    }
  }

  lemma PartingDisagrees(strip: string -> string, before: seq<Message>, m: Message)
    requires Agree(strip, before) && ScanMessages(before).pending != [] && Parts(strip, m)
    ensures !Agree(strip, before + [m])
  {
    var messages := before + [m];
    assert messages[..|messages| - 1] == before;
    var s, s' := ScanMessages(before), ScanMessages(messages);
    assert |SendsOf(strip, messages).turns| == |s.turns|;
    if IsFinal(m) {
      assert |s'.turns| == |s.turns| + 1;
    } else {
      assert SendsOf(strip, messages).queue == [] && |Texts(s'.pending)| == |s.pending| > 0;
    }
  }

  /** The shortest transcripts on which the writers part: a reply that strips to
      nothing, and a send of any text that fails. */
  lemma PartingExamples(strip: string -> string, user: Message, reply: Message)
    requires user.role == User && user.text != [] && IsSend(reply) && reply.text != []
    requires strip(reply.text) == [] || !reply.delivered
    ensures PartAt(strip, [user, reply], 1) && !Agree(strip, [user, reply])
    ensures |ScanMessages([user, reply]).turns| == 1 && SendsOf(strip, [user, reply]).turns == []
  {
    assert [user, reply][..1] == [user] && [user][..0] == [];
    assert ScanMessages([]) == Scan([], []) && SendsOf(strip, []) == Sends([], []);
    assert ScanMessages([user]) == Scan([], [PendingOf(user)]);
    assert SendsOf(strip, [user]) == Sends([user.text], []);
    assert |Contents(strip, ScanMessages([user, reply]).turns)| == 1;
  }
}
