/** Whole runs of the incremental writer: what is dispatched, what is counted, and
    that no inbound text is lost. */
module PairingRuns {
  import opened Text
  import opened Transcript
  import opened Watermarks
  import opened Pairing

  ghost predicate Matches(jobs: seq<Job>, turns: seq<(string, string)>) {
    |jobs| == |turns| && forall i :: 0 <= i < |jobs| ==> (jobs[i].user, jobs[i].assistant) == turns[i]
  }

  lemma ConverseSnoc(strip: string -> string, session: string, events: seq<Event>, e: Event)
    ensures Converse(strip, session, events + [e]) == Step(strip, session, Converse(strip, session, events), e)
  {
    assert (events + [e])[..|events|] == events;
  }

  // ----- Message ids --------------------------------------------------------------------------

  ghost predicate SendsAmong(events: seq<Event>, ids: set<string>) {
    forall i :: 0 <= i < |events| && events[i].Sent? ==> events[i].messageId in ids
  }

  function SentIds(events: seq<Event>): set<string> {
    set i | 0 <= i < |events| && events[i].Sent? :: events[i].messageId
  }

  /** Every outbound message has an id of its own. */
  ghost predicate DistinctSends(events: seq<Event>) {
    forall i, j :: 0 <= i < j < |events| && events[i].Sent? && events[j].Sent? ==>
           events[i].messageId != events[j].messageId
  }

  ghost predicate NoPersistFails(events: seq<Event>) {
    forall i :: 0 <= i < |events| ==> !events[i].PersistFailed?
  }

  lemma SentIdsSnoc(events: seq<Event>, e: Event)
    ensures SentIds(events + [e]) == SentIds(events) + if e.Sent? then {e.messageId} else {}
    ensures DistinctSends(events + [e]) <==> DistinctSends(events) && (e.Sent? ==> e.messageId !in SentIds(events))
  {
    var all := events + [e];
    assert forall i :: 0 <= i < |events| ==> all[i] == events[i];
    assert all[|events|] == e;
    forall x | x in SentIds(events) ensures x in SentIds(all) {
      var i :| 0 <= i < |events| && events[i].Sent? && events[i].messageId == x;
      assert all[i].messageId == x;
    }
  }

  // ----- The reached state ---------------------------------------------------------------------

  /** The conversation state reached on a transcript, completions aside. */
  ghost predicate Reached(strip: string -> string, c: Conversation, messages: seq<Message>, ids: seq<string>) {
    var w := SendsOf(strip, messages);
    && c.queue == w.queue
    && Matches(c.dispatched, w.turns)
    && (forall id :: id in c.seen ==> id in ids)
  }

  lemma MatchesSnoc(jobs: seq<Job>, turns: seq<(string, string)>, job: Job)
    requires Matches(jobs, turns)
    ensures Matches(jobs + [job], turns + [(job.user, job.assistant)])
  {
  }

  lemma MessageKeeps(strip: string -> string, session: string, c: Conversation, messages: seq<Message>,
                     ids: seq<string>, m: Message, id: string, e: Event)
    requires Reached(strip, c, messages, ids) && id !in ids
    requires EventsOfMessage(m, id) == [e]
    ensures Reached(strip, Step(strip, session, c, e), messages + [m], ids + [id])
  {
    hide Matches, Join;
    var all := messages + [m];
    assert all[..|all| - 1] == messages;
    MatchesSnoc(c.dispatched, SendsOf(strip, messages).turns, Job(c.queue, Join(c.queue, "\n"), strip(m.text), id));
  }

  lemma SilentMessageKeeps(strip: string -> string, c: Conversation, messages: seq<Message>,
                           ids: seq<string>, m: Message, id: string)
    requires Reached(strip, c, messages, ids) && EventsOfMessage(m, id) == []
    ensures Reached(strip, c, messages + [m], ids + [id])
  {
    var all := messages + [m];
    assert all[..|all| - 1] == messages;
  }

  /** Events that are no message of the transcript leave the queue and the dispatches alone. */
  lemma OtherEventKeeps(strip: string -> string, session: string, c: Conversation, messages: seq<Message>,
                        ids: seq<string>, e: Event)
    requires Reached(strip, c, messages, ids) && (e.Completed? || e.Expired? || e.Retried?)
    ensures Reached(strip, Step(strip, session, c, e), messages, ids)
  {
    hide Matches, Apply;
  }

  lemma NoMessages()
    ensures EventsOf([], []) == []
  {
  }

  /** The last event of a stream whose last message has one. */
  lemma LastMessage(messages: seq<Message>, ids: seq<string>)
    requires |ids| == |messages| && messages != []
    requires EventsOfMessage(messages[|messages| - 1], ids[|ids| - 1]) != []
    ensures var n, stream := |messages| - 1, EventsOf(messages, ids);
            && stream != [] && EventsOfMessage(messages[n], ids[n]) == [stream[|stream| - 1]]
            && stream[..|stream| - 1] == EventsOf(messages[..n], ids[..n])
  {
    var n := |messages| - 1;
    var last := EventsOfMessage(messages[n], ids[n]);
    assert |last| == 1;
    assert EventsOf(messages, ids) == EventsOf(messages[..n], ids[..n]) + [last[0]];
  }

  lemma SilentLast(messages: seq<Message>, ids: seq<string>)
    requires |ids| == |messages| && messages != []
    requires EventsOfMessage(messages[|messages| - 1], ids[|ids| - 1]) == []
    ensures EventsOf(messages, ids) == EventsOf(messages[..|messages| - 1], ids[..|ids| - 1])
  {
  }

  ghost predicate IsSilent(messages: seq<Message>, ids: seq<string>)
    requires |ids| == |messages|
  {
    messages != [] && EventsOfMessage(messages[|messages| - 1], ids[|ids| - 1]) == []
  }

  /** Every interleaving of a transcript's events with completions, failed writes,
      retries and expiries reaches the same queue and dispatches the same turns in
      the same order. */
  lemma {:induction false} RunReaches(strip: string -> string, session: string, events: seq<Event>,
                                      messages: seq<Message>, ids: seq<string>)
    requires |ids| == |messages| && AllDistinct(ids)
    requires Interleaves(events, EventsOf(messages, ids))
    ensures Reached(strip, Converse(strip, session, events), messages, ids)
    ensures NoPersistFails(events) && SendsAmong(events, set id | id in ids) && DistinctSends(events)
    decreases |events| + |messages|
  {
    hide Reached, Step, EventsOf, EventsOfMessage, NoPersistFails, DistinctSends, SendsAmong;
    NoMessages();
    var n := |messages| - 1;
    if IsSilent(messages, ids) {
      SilentLast(messages, ids);
      RunReaches(strip, session, events, messages[..n], ids[..n]);
      SilentMessageKeeps(strip, Converse(strip, session, events), messages[..n], ids[..n], messages[n], ids[n]);
      assert messages[..n] + [messages[n]] == messages && ids[..n] + [ids[n]] == ids;
      MoreIds(events, ids[..n], ids[n]);
    } else if events == [] {
      NothingYet(strip, ids);
      if messages != [] { LastMessage(messages, ids); }
    } else {
      LastEvent(strip, session, events, messages, ids);
    }
  }

  lemma NothingYet(strip: string -> string, ids: seq<string>)
    ensures Reached(strip, IDLE, [], ids)
    ensures NoPersistFails([]) && SendsAmong([], set id | id in ids) && DistinctSends([])
  {
  }

  lemma MoreIds(events: seq<Event>, ids: seq<string>, id: string)
    requires SendsAmong(events, set x | x in ids)
    ensures SendsAmong(events, set x | x in ids + [id])
  {
  }

  lemma OneMoreEvent(events: seq<Event>, e: Event, ids: seq<string>, id: string)
    requires NoPersistFails(events) && SendsAmong(events, set x | x in ids) && DistinctSends(events)
    requires !e.PersistFailed? && (e.Sent? ==> e.messageId == id && id !in ids)
    ensures NoPersistFails(events + [e]) && SendsAmong(events + [e], set x | x in ids + [id])
            && DistinctSends(events + [e])
    ensures !e.Sent? ==> SendsAmong(events + [e], set x | x in ids)
  {
  }

  lemma {:induction false} LastEvent(strip: string -> string, session: string, events: seq<Event>,
                                     messages: seq<Message>, ids: seq<string>)
    requires |ids| == |messages| && AllDistinct(ids) && events != []
    requires Interleaves(events, EventsOf(messages, ids)) && !IsSilent(messages, ids)
    ensures Reached(strip, Converse(strip, session, events), messages, ids)
    ensures NoPersistFails(events) && SendsAmong(events, set id | id in ids) && DistinctSends(events)
    decreases |events| + |messages|, 0
  {
    hide Reached, Step, EventsOf, EventsOfMessage, NoPersistFails, DistinctSends, SendsAmong;
    NoMessages();
    var n := |messages| - 1;
    if messages != [] { LastMessage(messages, ids); }
    var e, before := events[|events| - 1], events[..|events| - 1];
    assert before + [e] == events;
    if e.Completed? || e.Expired? || e.Retried? {
      RunReaches(strip, session, before, messages, ids);
      OtherEventKeeps(strip, session, Converse(strip, session, before), messages, ids, e);
      OneMoreEvent(before, e, ids, "");
    } else {
      RunReaches(strip, session, before, messages[..n], ids[..n]);
      MessageKeeps(strip, session, Converse(strip, session, before), messages[..n], ids[..n], messages[n], ids[n], e);
      assert messages[..n] + [messages[n]] == messages && ids[..n] + [ids[n]] == ids;
      EventId(messages[n], ids[n], e);
      OneMoreEvent(before, e, ids[..n], ids[n]);
    }
  }

  lemma EventId(m: Message, id: string, e: Event)
    requires EventsOfMessage(m, id) == [e]
    ensures !e.PersistFailed? && (e.Sent? ==> e.messageId == id)
  {
  }

  // ----- Jobs ------------------------------------------------------------------------------------

  lemma WithoutKeeps<T>(s: seq<T>, i: nat)
    requires i < |s|
    ensures multiset(Without(s, i)) + multiset{s[i]} == multiset(s)
  {
    assert s == s[..i] + [s[i]] + s[i + 1..];
  }

  /** Every job carries a message id of its own. */
  ghost predicate Named(jobs: seq<Job>, ids: set<string>) {
    && (forall i :: 0 <= i < |jobs| ==> jobs[i].messageId in ids)
    && (forall i, j :: 0 <= i < j < |jobs| ==> jobs[i].messageId != jobs[j].messageId)
  }

  ghost predicate JobsKept(c: Conversation, ids: set<string>) {
    Named(c.dispatched, ids) && multiset(c.jobs) + multiset(c.stored) == multiset(c.dispatched)
  }

  lemma NamedSnoc(jobs: seq<Job>, ids: set<string>, job: Job)
    requires Named(jobs, ids) && job.messageId !in ids
    ensures Named(jobs, ids + {job.messageId}) && Named(jobs + [job], ids + {job.messageId})
  {
  }

  lemma StepKeepsJobs(strip: string -> string, session: string, c: Conversation, e: Event, ids: set<string>)
    requires JobsKept(c, ids) && !e.PersistFailed? && (e.Sent? ==> e.messageId !in ids)
    ensures JobsKept(Step(strip, session, c, e), if e.Sent? then ids + {e.messageId} else ids)
  {
    hide Join, Apply, Named;
    var c' := Step(strip, session, c, e);
    if e.Sent? { NamedSnoc(c.dispatched, ids, Job(c.queue, Join(c.queue, "\n"), strip(e.text), e.messageId)); }
    if e.Completed? && e.job < |c.jobs| {
      WithoutKeeps(c.jobs, e.job);
      assert multiset(c'.stored) == multiset(c.stored) + multiset{c.jobs[e.job]};
      assert multiset(c'.jobs) + multiset(c'.stored) == multiset(c.dispatched);
    } else if e.Sent? && c'.dispatched != c.dispatched {
      assert multiset(c'.jobs) + multiset(c'.stored) == multiset(c'.dispatched);
    }
  }

  /** Without failed persists, every dispatched turn is in flight or stored, once. */
  lemma {:induction false} RunKeepsJobs(strip: string -> string, session: string, events: seq<Event>)
    requires NoPersistFails(events) && DistinctSends(events)
    ensures JobsKept(Converse(strip, session, events), SentIds(events))
  {
    if events == [] {
      assert multiset(IDLE.jobs) + multiset(IDLE.stored) == multiset(IDLE.dispatched);
    } else {
      var before, e := events[..|events| - 1], events[|events| - 1];
      assert before + [e] == events;
      SentIdsSnoc(before, e);
      RunKeepsJobs(strip, session, before);
      StepKeepsJobs(strip, session, Converse(strip, session, before), e, SentIds(before));
    }
  }

  // ----- The count --------------------------------------------------------------------------------

  /** Whether the file holds the count: the last attempt to write it succeeded. */
  ghost predicate LastWriteOk(strip: string -> string, session: string, events: seq<Event>) {
    if events == [] then true
    else
      var before := events[..|events| - 1];
      var c := Converse(strip, session, before);
      match events[|events| - 1]
      case Completed(i, ok) => if i < |c.jobs| then ok else LastWriteOk(strip, session, before)
      case Retried(ok) => if session in c.d.live.pending then ok else LastWriteOk(strip, session, before)
      case _ => LastWriteOk(strip, session, before)
  }

  /** The count is the number of stored turns, in memory and, when written, on
      disk; no watermark has been touched. */
  ghost predicate CountOk(session: string, d: Durable, stored: nat, written: bool) {
    && Count(d.live, session) == stored
    && Cached(d.live, session) == Effective(d.live, session) == DiskW(d.disk, session) == -1
    && 0 <= DiskB(d.disk, session) <= stored
    && (DiskB(d.disk, session) == stored <==> written)
    && (session in d.live.pending ==> !written)
  }

  lemma CountTurnKeeps(session: string, d: Durable, stored: nat, written: bool, ok: bool)
    requires CountOk(session, d, stored, written)
    ensures CountOk(session, Apply(d, CountOp(session, ok)), stored + 1, ok)
  {
    hide Saved, DiskW, DiskB;
    var counted := d.live.(counts := d.live.counts[session := Count(d.live, session) + 1]);
    SavedValues(ApplyPending(counted, session), session);
  }

  lemma RetryKeeps(session: string, d: Durable, stored: nat, written: bool, ok: bool)
    requires CountOk(session, d, stored, written) && session in d.live.pending
    ensures CountOk(session, Apply(d, TimerOp(session, ok)), stored, ok)
  {
    hide Saved, DiskW, DiskB;
    SavedValues(ApplyPending(d.live, session), session);
  }

  /** For every run at all: the count in memory is the number of stored turns, and
      the file's is the same exactly when the last attempt to write it succeeded. */
  lemma {:induction false} CountOverRuns(strip: string -> string, session: string, events: seq<Event>)
    ensures var c := Converse(strip, session, events);
            CountOk(session, c.d, |c.stored|, LastWriteOk(strip, session, events))
  {
    if events != [] {
      hide CountOk, Apply, Join;
      var before := events[..|events| - 1];
      var c := Converse(strip, session, before);
      CountOverRuns(strip, session, before);
      match events[|events| - 1]
      case Completed(i, ok) =>
        if i < |c.jobs| { CountTurnKeeps(session, c.d, |c.stored|, LastWriteOk(strip, session, before), ok); }
      case Retried(ok) =>
        if session in c.d.live.pending {
          RetryKeeps(session, c.d, |c.stored|, LastWriteOk(strip, session, before), ok);
        } else {
          IdleTimer(c.d, session, ok);
        }
      case _ =>
    }
  }

  lemma IdleTimer(d: Durable, session: string, ok: bool)
    requires session !in d.live.pending
    ensures Apply(d, TimerOp(session, ok)) == d
  {
  }

  // ----- Agreement with the batch writer ------------------------------------------------------------

  /** Incremental and batch pairing agree over whole runs: the turns W4b
      dispatches are computeDelta's pairs in order, each in flight or stored; once
      none is in flight the count is their number, and so is the file's exactly
      when its last write succeeded. */
  lemma W4bStoresThePairs(strip: string -> string, session: string, events: seq<Event>,
                          messages: seq<Message>, ids: seq<string>)
    requires strip([]) == [] && |ids| == |messages| && AllDistinct(ids)
    requires Interleaves(events, EventsOf(messages, ids)) && NeverPart(strip, messages)
    ensures var c := Converse(strip, session, events);
            var pairs := AllPairs(strip, messages);
            && |c.dispatched| == |pairs|
            && (forall i :: 0 <= i < |pairs| ==>
                  c.dispatched[i].user == pairs[i].user && c.dispatched[i].assistant == pairs[i].assistant)
            && multiset(c.jobs) + multiset(c.stored) == multiset(c.dispatched)
            && (c.jobs == [] ==>
                  && Count(c.d.live, session) == |pairs|
                  && (DiskB(c.d.disk, session) == |pairs| <==> LastWriteOk(strip, session, events)))
  {
    RunReaches(strip, session, events, messages, ids);
    RunKeepsJobs(strip, session, events);
    CountOverRuns(strip, session, events);
    AgreeWhenNeverParting(strip, messages);
    hide LastWriteOk, Converse;
    var c := Converse(strip, session, events);
    if c.jobs == [] {
      assert |multiset(c.jobs) + multiset(c.stored)| == |c.stored|;
      assert |multiset(c.dispatched)| == |c.dispatched|;
    }
  }

  // ----- No inbound text is lost ---------------------------------------------------------------------

  /** The texts received, as a bag: a refused turn may put some back behind later ones. */
  function Inbound(events: seq<Event>): multiset<string> {
    if events == [] then multiset{}
    else
      var e := events[|events| - 1];
      Inbound(events[..|events| - 1]) + if e.Received? && e.text != [] then multiset{e.text} else multiset{}
  }

  function ItemsOf(jobs: seq<Job>): multiset<string> {
    if jobs == [] then multiset{} else ItemsOf(jobs[..|jobs| - 1]) + multiset(jobs[|jobs| - 1].items)
  }

  lemma ItemsSnoc(jobs: seq<Job>, job: Job)
    ensures ItemsOf(jobs + [job]) == ItemsOf(jobs) + multiset(job.items)
  {
    assert (jobs + [job])[..|jobs|] == jobs;
  }

  lemma {:induction false} ItemsWithout(jobs: seq<Job>, i: nat)
    requires i < |jobs|
    ensures ItemsOf(Without(jobs, i)) + multiset(jobs[i].items) == ItemsOf(jobs)
  {
    hide ItemsOf;
    var n := |jobs| - 1;
    assert jobs == jobs[..n] + [jobs[n]];
    ItemsSnoc(jobs[..n], jobs[n]);
    if i == n {
      assert Without(jobs, i) == jobs[..n];
    } else {
      ItemsWithout(jobs[..n], i);
      assert Without(jobs, i) == Without(jobs[..n], i) + [jobs[n]];
      ItemsSnoc(Without(jobs[..n], i), jobs[n]);
    }
  }

  ghost predicate NothingLost(c: Conversation, inbound: multiset<string>) {
    multiset(c.queue) + ItemsOf(c.jobs) + ItemsOf(c.stored) == inbound
  }

  lemma StepLosesNothing(strip: string -> string, session: string, c: Conversation, e: Event, inbound: multiset<string>)
    requires NothingLost(c, inbound)
    requires e.Sent? ==> e.success && e.messageId !in c.seen
    ensures NothingLost(Step(strip, session, c, e),
                        inbound + if e.Received? && e.text != [] then multiset{e.text} else multiset{})
  {
    hide ItemsOf, Join, Apply;
    match e
    case Received(text) =>
    case Sent(text, _, id) => ItemsSnoc(c.jobs, Job(c.queue, Join(c.queue, "\n"), strip(text), id)); NoItems();
    case Completed(i, ok) =>
      if i < |c.jobs| {
        ItemsWithout(c.jobs, i);
        ItemsSnoc(c.stored, c.jobs[i]);
      }
    case PersistFailed(i) => if i < |c.jobs| { ItemsWithout(c.jobs, i); }
    case Expired(_) =>
    case Retried(_) =>
  }

  lemma NoItems()
    ensures ItemsOf([]) == multiset{}
  {
  }

  ghost predicate NoFailedSends(events: seq<Event>) {
    forall i :: 0 <= i < |events| && events[i].Sent? ==> events[i].success
  }

  lemma {:induction false} SeenWereSent(strip: string -> string, session: string, events: seq<Event>)
    ensures Converse(strip, session, events).seen <= SentIds(events)
  {
    if events != [] {
      hide SentIds, Apply, Join;
      var before, e := events[..|events| - 1], events[|events| - 1];
      assert before + [e] == events;
      SentIdsSnoc(before, e);
      SeenWereSent(strip, session, before);
    }
  }

  /** Over every run without failed sends and with an id per send, whatever the
      daemon refuses, each inbound text is in the queue, in flight or stored. */
  lemma {:induction false} NoInboundLost(strip: string -> string, session: string, events: seq<Event>)
    requires NoFailedSends(events) && DistinctSends(events)
    ensures NothingLost(Converse(strip, session, events), Inbound(events))
  {
    if events == [] {
      NoItems();
    } else {
      hide NothingLost, Step, SentIds, DistinctSends;
      var before, e := events[..|events| - 1], events[|events| - 1];
      assert before + [e] == events;
      SentIdsSnoc(before, e);
      SeenWereSent(strip, session, before);
      NoInboundLost(strip, session, before);
      StepLosesNothing(strip, session, Converse(strip, session, before), e, Inbound(before));
    }
  }

  // ----- One send --------------------------------------------------------------------------------------

  /** A send hands out a turn exactly when it succeeded, has text after stripping, finds
      text waiting, and is not the delivery of a message already reserved; a send that
      failed, or that found text and had some, leaves nothing waiting. */
  lemma SendMeans(strip: string -> string, c: Conversation, text: string, success: bool, id: string)
    ensures var c' := OnSent(strip, c, text, success, id);
            var speaks := success && |strip(text)| > 0 && |c.queue| > 0;
            && (if speaks && id !in c.seen then
                  && |c'.jobs| == |c.jobs| + 1 && c'.jobs[..|c.jobs|] == c.jobs && id in c'.seen
                  && c'.dispatched == c.dispatched + [c'.jobs[|c.jobs|]]
                  && var job := c'.jobs[|c.jobs|];
                     job.items == c.queue && job.assistant == strip(text) && job.messageId == id
                     && (|c.queue| == 1 ==> job.user == c.queue[0])
                     && (|c.queue| == 2 ==> job.user == c.queue[0] + "\n" + c.queue[1])
                else c'.jobs == c.jobs && c'.dispatched == c.dispatched && c'.seen == c.seen)
            && c'.queue == (if speaks || !success then [] else c.queue)
            && c'.stored == c.stored && c'.d == c.d
  {
    if |c.queue| == 2 {
      assert c.queue[1..] == [c.queue[1]];
      assert Join(c.queue[1..], "\n") == c.queue[1];
    }
  }

  /** A refused turn can be sent again, under the same message id and with whatever
      has come in since behind its own texts. */
  lemma RefusedCanBeSentAgain(strip: string -> string, c: Conversation, i: nat, text: string)
    requires i < |c.jobs| && |c.jobs[i].items| > 0 && |strip(text)| > 0
    ensures var again := OnSent(strip, OnPersistFailed(c, i), text, true, c.jobs[i].messageId);
            && |again.jobs| == |c.jobs| && again.queue == [] && again.stored == c.stored
            && again.jobs[|c.jobs| - 1].items == c.jobs[i].items + c.queue
            && again.jobs[..|c.jobs| - 1] == c.jobs[..i] + c.jobs[i + 1..]
  {
    hide Join;
  }

  // ----- The order of inbound texts ----------------------------------------------------------------------

  function ReceivedTexts(events: seq<Event>): seq<string> {
    if events == [] then []
    else
      var e := events[|events| - 1];
      ReceivedTexts(events[..|events| - 1]) + if e.Received? && e.text != [] then [e.text] else []
  }

  function AllItems(jobs: seq<Job>): seq<string> {
    if jobs == [] then [] else AllItems(jobs[..|jobs| - 1]) + jobs[|jobs| - 1].items
  }

  lemma ItemsOfOne(jobs: seq<Job>, job: Job)
    ensures AllItems([]) == [] && AllItems([job]) == job.items && AllItems(jobs + [job]) == AllItems(jobs) + job.items
  {
    assert (jobs + [job])[..|jobs|] == jobs && [job][..0] == [];
  }

  ghost predicate InReceivedOrder(c: Conversation, texts: seq<string>) {
    AllItems(c.stored) + AllItems(c.jobs) + c.queue == texts
  }

  lemma SentKeepsReceivedOrder(strip: string -> string, c: Conversation, text: string, id: string, texts: seq<string>)
    requires InReceivedOrder(c, texts) && id !in c.seen && |OnSent(strip, c, text, true, id).jobs| <= 1
    ensures InReceivedOrder(OnSent(strip, c, text, true, id), texts)
  {
    hide AllItems, Join;
    var c', job := OnSent(strip, c, text, true, id), Job(c.queue, Join(c.queue, "\n"), strip(text), id);
    ItemsOfOne([], job);
    if c'.jobs != c.jobs {
      assert c.jobs == [] && c'.jobs == [job] && c'.queue == [];
    }
  }

  lemma EndedKeepsReceivedOrder(session: string, c: Conversation, i: nat, ok: bool, texts: seq<string>)
    requires InReceivedOrder(c, texts) && |c.jobs| == 1 && i == 0
    ensures InReceivedOrder(OnCompleted(session, c, i, ok), texts) && InReceivedOrder(OnPersistFailed(c, i), texts)
  {
    hide AllItems, Apply;
    var job := c.jobs[0];
    assert c.jobs == [job] && Without(c.jobs, 0) == [];
    ItemsOfOne(c.stored, job);
    var items, stored := job.items, AllItems(c.stored);
    assert stored + items + c.queue == stored + [] + (items + c.queue);
    assert stored + items + [] + c.queue == stored + items + c.queue;
  }

  lemma StepKeepsReceivedOrder(strip: string -> string, session: string, c: Conversation, e: Event, texts: seq<string>)
    requires InReceivedOrder(c, texts) && |c.jobs| <= 1 && |Step(strip, session, c, e).jobs| <= 1
    requires e.Sent? ==> e.success && e.messageId !in c.seen
    ensures InReceivedOrder(Step(strip, session, c, e), texts + if e.Received? && e.text != [] then [e.text] else [])
  {
    hide AllItems, Apply, OnSent, OnCompleted, OnPersistFailed;
    assert texts + [] == texts;
    match e
    case Received(text) =>
    case Sent(text, _, id) => SentKeepsReceivedOrder(strip, c, text, id, texts);
    case Completed(i, ok) => EndedOrNot(session, c, i, ok, texts);
    case PersistFailed(i) => EndedOrNot(session, c, i, true, texts);
    case Expired(_) =>
    case Retried(_) =>
  }

  lemma EndedOrNot(session: string, c: Conversation, i: nat, ok: bool, texts: seq<string>)
    requires InReceivedOrder(c, texts) && |c.jobs| <= 1
    ensures InReceivedOrder(OnCompleted(session, c, i, ok), texts) && InReceivedOrder(OnPersistFailed(c, i), texts)
  {
    hide AllItems, Apply, InReceivedOrder;
    if i < |c.jobs| { EndedKeepsReceivedOrder(session, c, i, ok, texts); }
  }

  /** While at most one turn is in flight, refusals included, inbound texts are stored
      in the order in which they came. */
  lemma {:induction false} InboundOrderKept(strip: string -> string, session: string, events: seq<Event>)
    requires NoFailedSends(events) && DistinctSends(events)
    requires forall n :: 0 <= n <= |events| ==> |Converse(strip, session, events[..n]).jobs| <= 1
    ensures InReceivedOrder(Converse(strip, session, events), ReceivedTexts(events))
    decreases |events|
  {
    if events == [] {
      ItemsOfOne([], Job([], [], [], []));
    } else {
      hide InReceivedOrder, Step, SentIds, DistinctSends;
      var n := |events| - 1;
      var before, e := events[..n], events[n];
      assert before + [e] == events && events[..n + 1] == events;
      assert forall i :: 0 <= i <= n ==> before[..i] == events[..i];
      SentIdsSnoc(before, e);
      SeenWereSent(strip, session, before);
      InboundOrderKept(strip, session, before);
      assert |Converse(strip, session, events[..n]).jobs| <= 1 && |Converse(strip, session, events[..n + 1]).jobs| <= 1;
      StepKeepsReceivedOrder(strip, session, Converse(strip, session, before), e, ReceivedTexts(before));
    }
  }
}
