/** From the incremental writer to the batch writer: where an agent_end picks up,
    in the same process or after a restart. */
module HandOver {
  import opened Text
  import opened Transcript
  import opened Watermarks
  import AgentEnd
  import opened Pairing
  import opened PairingRuns

  /** The pairs an agent_end emits start here, in the same process or after a restart. */
  function FirstEmitted(session: string, c: Conversation, restarted: bool): int {
    var live := (if restarted then Restart(c.d) else c.d).live;
    SavedUpTo(live, session) + 1
  }

  /** Starting a fire, for any durable state: a pair is among those it sends exactly
      when its index is above the cached watermark and not below the count. */
  lemma StartedPairs(strip: string -> string, sys: AgentEnd.Sys, s: string, cursor: string, length: nat, i: nat)
    requires s !in sys.flights && length <= |AgentEnd.TranscriptOf(sys, s)|
    requires i < |AllPairs(strip, AgentEnd.TranscriptOf(sys, s)[..length])|
    ensures var sys' := AgentEnd.StartFire(strip, sys, s, cursor, length);
            var pair := AllPairs(strip, AgentEnd.TranscriptOf(sys, s)[..length])[i];
            (s in sys'.flights && pair in sys'.flights[s].pairs) <==>
            Cached(sys.d.live, s) < i && Count(sys.d.live, s) <= i
  {
    var all := AllPairs(strip, AgentEnd.TranscriptOf(sys, s)[..length]);
    var first := SavedUpTo(sys.d.live, s) + 1;
    hide AllPairs;
    PairsAreNumbered(strip, AgentEnd.TranscriptOf(sys, s)[..length]);
    var sent := From(all, first);
    if first <= i {
      assert sent[if first <= 0 then i else i - first] == all[i];
    }
    if all[i] in sent {
      var k :| 0 <= k < |sent| && sent[k] == all[i];
      assert sent[k] == all[if first <= 0 then k else k + first];
    }
  }

  lemma PairsAreNumbered(strip: string -> string, messages: seq<Message>)
    ensures forall i :: 0 <= i < |AllPairs(strip, messages)| ==> AllPairs(strip, messages)[i].pairIndex == i
  {
  }

  /** The state the agent_end machine starts from after a conversation, in the same
      process or after a restart. */
  ghost predicate Follows(sys: AgentEnd.Sys, session: string, c: Conversation, restarted: bool,
                          messages: seq<Message>) {
    && sys.d == (if restarted then Restart(c.d) else c.d)
    && session !in sys.flights && AgentEnd.TranscriptOf(sys, session) == messages
  }

  /** The fire that then starts sends the pairs from FirstEmitted on; there is none
      when that leaves nothing to send. */
  lemma FireSendsTheRest(strip: string -> string, sys: AgentEnd.Sys, session: string, c: Conversation, restarted: bool,
                         messages: seq<Message>, cursor: string)
    requires Follows(sys, session, c, restarted, messages)
    ensures var sys' := AgentEnd.StartFire(strip, sys, session, cursor, |messages|);
            var pairs := From(AllPairs(strip, messages), FirstEmitted(session, c, restarted));
            if pairs == [] then session !in sys'.flights
            else session in sys'.flights && sys'.flights[session].pairs == pairs
  {
    hide AllPairs;
    assert messages[..|messages|] == messages;
  }

  /** For every run: in the same process the first pair emitted is the number of
      turns stored; after a restart it is no higher, and the same exactly when the
      last attempt to write the count succeeded. */
  lemma CountIsFirstEmitted(strip: string -> string, session: string, events: seq<Event>)
    ensures var c := Converse(strip, session, events);
            && FirstEmitted(session, c, false) == |c.stored|
            && 0 <= FirstEmitted(session, c, true) <= |c.stored|
            && (FirstEmitted(session, c, true) == |c.stored| <==> LastWriteOk(strip, session, events))
  {
    CountOverRuns(strip, session, events);
    LoadValues(Converse(strip, session, events).d.disk, session);
  }

  /** What the fire started after a conversation sends. */
  function FirePairs(strip: string -> string, sys: AgentEnd.Sys, session: string, cursor: string): seq<Pair> {
    var sys' := AgentEnd.StartFire(strip, sys, session, cursor, |AgentEnd.TranscriptOf(sys, session)|);
    if session in sys'.flights then sys'.flights[session].pairs else []
  }

  /** The hand-over once nothing is in flight: the fire an agent_end starts sends
      exactly the pairs W4b has not stored, always in the same process, and after a
      restart if and only if the last attempt to write the count succeeded; it never
      skips one. */
  lemma HandOverEmitsTheRest(strip: string -> string, session: string, events: seq<Event>,
                             messages: seq<Message>, ids: seq<string>, later: seq<Message>, restarted: bool,
                             sys: AgentEnd.Sys, cursor: string)
    requires strip([]) == [] && |ids| == |messages| && AllDistinct(ids)
    requires Interleaves(events, EventsOf(messages, ids)) && NeverPart(strip, messages)
    requires Converse(strip, session, events).jobs == [] && messages <= later
    requires Follows(sys, session, Converse(strip, session, events), restarted, later)
    ensures var first := FirstEmitted(session, Converse(strip, session, events), restarted);
            var stored, all := AllPairs(strip, messages), AllPairs(strip, later);
            var sent := FirePairs(strip, sys, session, cursor);
            && stored <= all && 0 <= first <= |stored| && sent == all[first..]
            && (sent == all[|stored|..] <==> !restarted || LastWriteOk(strip, session, events))
  {
    hide Converse, LastWriteOk, AllPairs, FirstEmitted, FirePairs, Follows, Interleaves, EventsOf, NeverPart, From;
    var c := Converse(strip, session, events);
    AllAreStored(strip, session, events, messages, ids);
    CountIsFirstEmitted(strip, session, events);
    PairsExtend(strip, messages, later);
    FirePairsAre(strip, sys, session, c, restarted, later, cursor);
    TailFrom(AllPairs(strip, later), FirstEmitted(session, c, restarted), |c.stored|);
  }

  lemma AllAreStored(strip: string -> string, session: string, events: seq<Event>, messages: seq<Message>,
                     ids: seq<string>)
    requires strip([]) == [] && |ids| == |messages| && AllDistinct(ids)
    requires Interleaves(events, EventsOf(messages, ids)) && NeverPart(strip, messages)
    requires Converse(strip, session, events).jobs == []
    ensures |Converse(strip, session, events).stored| == |AllPairs(strip, messages)|
  {
    W4bStoresThePairs(strip, session, events, messages, ids);
    hide Converse, AllPairs, Interleaves, EventsOf, NeverPart, LastWriteOk;
    var c := Converse(strip, session, events);
    assert |multiset(c.jobs) + multiset(c.stored)| == |c.stored|;
    assert |multiset(c.dispatched)| == |c.dispatched|;
  }

  lemma FirePairsAre(strip: string -> string, sys: AgentEnd.Sys, session: string, c: Conversation, restarted: bool,
                     messages: seq<Message>, cursor: string)
    requires Follows(sys, session, c, restarted, messages)
    ensures FirePairs(strip, sys, session, cursor) ==
            From(AllPairs(strip, messages), FirstEmitted(session, c, restarted))
  {
    hide AllPairs, FirstEmitted;
    FireSendsTheRest(strip, sys, session, c, restarted, messages, cursor);
  }

  lemma TailFrom(all: seq<Pair>, first: int, n: nat)
    requires 0 <= first <= n <= |all|
    ensures From(all, first) == all[first..] && (all[first..] == all[n..] <==> first == n)
  {
    if first < n { assert |all[first..]| > |all[n..]|; }
  }

  // ----- With turns still in flight -----------------------------------------------------------------

  /** An agent_end here would emit exactly the dispatched turns not yet stored. */
  ghost predicate Exact(session: string, c: Conversation, restarted: bool) {
    forall i :: 0 <= i < |c.dispatched| ==>
      (i >= FirstEmitted(session, c, restarted) <==> c.dispatched[i] !in c.stored)
  }

  /** That is what the started fire does, on a transcript with a pair for each of them. */
  lemma ExactIsAboutTheFire(strip: string -> string, session: string, c: Conversation, restarted: bool,
                            messages: seq<Message>, sys: AgentEnd.Sys, cursor: string)
    requires Follows(sys, session, c, restarted, messages) && |AllPairs(strip, messages)| == |c.dispatched|
    ensures Exact(session, c, restarted) <==>
            forall i :: 0 <= i < |c.dispatched| ==>
              (AllPairs(strip, messages)[i] in FirePairs(strip, sys, session, cursor) <==> c.dispatched[i] !in c.stored)
  {
    assert messages[..|messages|] == messages;
    forall i: nat | i < |c.dispatched|
      ensures AllPairs(strip, messages)[i] in FirePairs(strip, sys, session, cursor) <==>
              i >= FirstEmitted(session, c, restarted)
    {
      StartedPairs(strip, sys, session, cursor, |messages|, i);
    }
  }

  /** The job at `j` is the oldest dispatched turn that is not stored: nothing
      dispatched before it is in flight, and nothing before it was refused. */
  predicate IsNext(c: Conversation, j: nat)
    requires j < |c.jobs|
  {
    |c.stored| < |c.dispatched| && c.jobs[j] == c.dispatched[|c.stored|]
  }

  /** Every completion that takes effect is of the next turn. */
  ghost predicate InTurn(strip: string -> string, session: string, events: seq<Event>) {
    forall i :: 0 <= i < |events| && events[i].Completed? ==>
      var c := Converse(strip, session, events[..i]);
      events[i].job < |c.jobs| ==> IsNext(c, events[i].job)
  }

  /** No attempt to write the count fails. */
  ghost predicate WritesOk(strip: string -> string, session: string, events: seq<Event>) {
    forall n :: 0 <= n <= |events| ==> LastWriteOk(strip, session, events[..n])
  }

  ghost predicate ExactThroughout(strip: string -> string, session: string, events: seq<Event>, restarted: bool) {
    forall n :: 0 <= n <= |events| ==> Exact(session, Converse(strip, session, events[..n]), restarted)
  }

  /** The stored turns are the first dispatched ones. */
  ghost predicate InOrder(c: Conversation) {
    |c.stored| <= |c.dispatched| && c.stored == c.dispatched[..|c.stored|]
  }

  /** Jobs in flight are dispatched turns, once each, and none of them is stored. */
  ghost predicate JobsOpen(c: Conversation, ids: set<string>) {
    && Named(c.dispatched, ids) && Named(c.jobs, ids)
    && forall i :: 0 <= i < |c.jobs| ==> c.jobs[i] in c.dispatched && c.jobs[i] !in c.stored
  }

  lemma WithoutIsDistinct(jobs: seq<Job>, ids: set<string>, i: nat)
    requires Named(jobs, ids) && i < |jobs|
    ensures Named(Without(jobs, i), ids)
    ensures forall k :: 0 <= k < |jobs| - 1 ==> Without(jobs, i)[k] in jobs && Without(jobs, i)[k] != jobs[i]
  {
    var rest := Without(jobs, i);
    assert forall k :: 0 <= k < |rest| ==> rest[k] == jobs[if k < i then k else k + 1];
  }

  lemma SentKeepsOpen(strip: string -> string, c: Conversation, ids: set<string>, text: string, success: bool,
                      id: string)
    requires JobsOpen(c, ids) && InOrder(c) && id !in ids
    ensures var c' := OnSent(strip, c, text, success, id); JobsOpen(c', ids + {id}) && InOrder(c')
  {
    hide Join, Named;
    var job := Job(c.queue, Join(c.queue, "\n"), strip(text), id);
    NamedSnoc(c.dispatched, ids, job);
    NamedSnoc(c.jobs, ids, job);
    FreshIsNotStored(c, ids, job);
    var c' := OnSent(strip, c, text, success, id);
    if c'.dispatched != c.dispatched { assert c'.dispatched[..|c.stored|] == c.dispatched[..|c.stored|]; }
  }

  lemma FreshIsNotStored(c: Conversation, ids: set<string>, job: Job)
    requires Named(c.dispatched, ids) && InOrder(c) && job.messageId !in ids
    ensures job !in c.stored
  {
  }

  /** Every event but a completion out of turn keeps both. */
  lemma StepKeepsOpen(strip: string -> string, session: string, c: Conversation, e: Event, ids: set<string>)
    requires JobsOpen(c, ids) && InOrder(c) && (e.Sent? ==> e.messageId !in ids)
    requires e.Completed? && e.job < |c.jobs| ==> IsNext(c, e.job)
    ensures var c' := Step(strip, session, c, e);
            JobsOpen(c', if e.Sent? then ids + {e.messageId} else ids) && InOrder(c')
  {
    hide Apply, Named, OnSent;
    match e
    case Received(_) =>
    case Sent(text, success, id) => SentKeepsOpen(strip, c, ids, text, success, id);
    case Completed(i, _) =>
      if i < |c.jobs| {
        WithoutIsDistinct(c.jobs, ids, i);
        var n := |c.stored|;
        assert c.dispatched[..n + 1] == c.dispatched[..n] + [c.dispatched[n]];
      }
    case PersistFailed(i) => if i < |c.jobs| { WithoutIsDistinct(c.jobs, ids, i); }
    case Expired(_) =>
    case Retried(_) =>
  }

  lemma StoredAreFirst(c: Conversation, ids: set<string>, i: nat)
    requires InOrder(c) && Named(c.dispatched, ids) && i < |c.dispatched|
    ensures c.dispatched[i] in c.stored <==> i < |c.stored|
  {
    if i < |c.stored| { assert c.stored[i] == c.dispatched[i]; }
  }

  /** A turn that completes out of turn leaves an older one unstored. */
  lemma OvertakingBreaks(strip: string -> string, session: string, c: Conversation, ids: set<string>, e: Event)
    returns (k: nat)
    requires JobsOpen(c, ids) && InOrder(c) && e.Completed? && e.job < |c.jobs| && !IsNext(c, e.job)
    ensures var c', n := Step(strip, session, c, e), |c.stored|;
            n < k < |c'.dispatched| && c'.dispatched[n] !in c'.stored && c'.dispatched[k] in c'.stored
  {
    var c', n := Step(strip, session, c, e), |c.stored|;
    k :| 0 <= k < |c.dispatched| && c.dispatched[k] == c.jobs[e.job];
    StoredAreFirst(c, ids, k);
    StoredAreFirst(c, ids, n);
    assert c'.stored == c.stored + [c.dispatched[k]];
  }

  /** An exact hand-over point lies at the number of stored turns. */
  lemma ExactMeansCount(session: string, c: Conversation, ids: set<string>, restarted: bool)
    requires InOrder(c) && Named(c.dispatched, ids) && 0 <= FirstEmitted(session, c, restarted) <= |c.stored|
    ensures Exact(session, c, restarted) <==> FirstEmitted(session, c, restarted) == |c.stored|
  {
    var first, n := FirstEmitted(session, c, restarted), |c.stored|;
    forall i: nat | i < |c.dispatched| ensures c.dispatched[i] in c.stored <==> i < n { StoredAreFirst(c, ids, i); }
    if first < n { assert c.dispatched[first] in c.stored; }
  }

  /** Where an exact hand-over point lies, stored and unstored do not mix. */
  lemma MixedIsNotExact(session: string, c: Conversation, restarted: bool, i: nat, j: nat)
    requires i < j < |c.dispatched| && c.dispatched[i] !in c.stored && c.dispatched[j] in c.stored
    ensures !Exact(session, c, restarted)
  {
  }

  lemma PrefixOfPrefix(events: seq<Event>, n: nat)
    requires n < |events|
    ensures forall i :: 0 <= i <= n ==> events[..n][..i] == events[..i]
  {
  }

  ghost predicate Disciplined(strip: string -> string, session: string, events: seq<Event>, restarted: bool) {
    InTurn(strip, session, events) && (restarted ==> WritesOk(strip, session, events))
  }

  lemma InTurnSnoc(strip: string -> string, session: string, events: seq<Event>)
    requires events != []
    ensures var n := |events| - 1;
            var c := Converse(strip, session, events[..n]);
            InTurn(strip, session, events) <==>
            && InTurn(strip, session, events[..n])
            && (events[n].Completed? && events[n].job < |c.jobs| ==> IsNext(c, events[n].job))
  {
    hide Converse, IsNext;
    var n := |events| - 1;
    PrefixOfPrefix(events, n);
    assert forall i :: 0 <= i < n ==> events[..n][i] == events[i];
  }

  lemma WritesOkSnoc(strip: string -> string, session: string, events: seq<Event>)
    requires events != []
    ensures WritesOk(strip, session, events) <==>
            WritesOk(strip, session, events[..|events| - 1]) && LastWriteOk(strip, session, events)
  {
    hide LastWriteOk;
    var n := |events| - 1;
    PrefixOfPrefix(events, n);
    assert events[..n + 1] == events;
  }

  /** Discipline, event by event. */
  lemma DisciplineSnoc(strip: string -> string, session: string, events: seq<Event>, restarted: bool)
    requires events != []
    ensures var n := |events| - 1;
            var c := Converse(strip, session, events[..n]);
            Disciplined(strip, session, events, restarted) <==>
            && Disciplined(strip, session, events[..n], restarted)
            && (events[n].Completed? && events[n].job < |c.jobs| ==> IsNext(c, events[n].job))
            && (restarted ==> LastWriteOk(strip, session, events))
  {
    hide Converse, LastWriteOk, IsNext, InTurn, WritesOk;
    InTurnSnoc(strip, session, events);
    WritesOkSnoc(strip, session, events);
  }

  lemma ExactSnoc(strip: string -> string, session: string, events: seq<Event>, restarted: bool)
    requires events != []
    ensures ExactThroughout(strip, session, events, restarted) <==>
            && ExactThroughout(strip, session, events[..|events| - 1], restarted)
            && Exact(session, Converse(strip, session, events), restarted)
  {
    hide Converse, Exact;
    var n := |events| - 1;
    PrefixOfPrefix(events, n);
    assert events[..n + 1] == events;
  }

  /** With turns in flight, refused and tried again, the hand-over is exact at every
      point of a run if and only if each turn stored is the next dispatched one and,
      for a restart, no attempt to write the count fails: the count alone cannot
      tell a late or refused first turn from a late second one. */
  lemma {:induction false} HandOverExactIff(strip: string -> string, session: string, events: seq<Event>,
                                            restarted: bool)
    requires DistinctSends(events)
    ensures ExactThroughout(strip, session, events, restarted) <==> Disciplined(strip, session, events, restarted)
    ensures Disciplined(strip, session, events, restarted) ==>
              InOrder(Converse(strip, session, events)) && JobsOpen(Converse(strip, session, events), SentIds(events))
  {
    if events == [] {
      assert FirstEmitted(session, IDLE, restarted) == 0;
    } else {
      hide LastWriteOk, Exact, ExactThroughout, Disciplined, FirstEmitted, InOrder, Step, JobsOpen, SentIds,
           DistinctSends;
      var n := |events| - 1;
      var before, e := events[..n], events[n];
      assert before + [e] == events;
      SentIdsSnoc(before, e);
      HandOverExactIff(strip, session, before, restarted);
      ExactSnoc(strip, session, events, restarted);
      DisciplineSnoc(strip, session, events, restarted);
      CountIsFirstEmitted(strip, session, events);
      if Disciplined(strip, session, before, restarted) {
        LastStep(strip, session, Converse(strip, session, before), e, SentIds(before), SentIds(events), restarted);
      }
    }
  }

  /** One event from an orderly state: it stays orderly and exact as far as the
      count reaches, or is no longer exact. */
  lemma LastStep(strip: string -> string, session: string, c: Conversation, e: Event, ids: set<string>,
                 ids': set<string>, restarted: bool)
    requires InOrder(c) && JobsOpen(c, ids) && (e.Sent? ==> e.messageId !in ids)
    requires ids' == ids + if e.Sent? then {e.messageId} else {}
    requires 0 <= FirstEmitted(session, Step(strip, session, c, e), restarted) <= |Step(strip, session, c, e).stored|
    ensures var c' := Step(strip, session, c, e);
            if e.Completed? && e.job < |c.jobs| && !IsNext(c, e.job) then !Exact(session, c', restarted)
            else
              && InOrder(c') && JobsOpen(c', ids')
              && (Exact(session, c', restarted) <==> FirstEmitted(session, c', restarted) == |c'.stored|)
  {
    hide InOrder, Exact, Step, IsNext, FirstEmitted;
    var c' := Step(strip, session, c, e);
    if e.Completed? && e.job < |c.jobs| && !IsNext(c, e.job) {
      var k := OvertakingBreaks(strip, session, c, ids, e);
      MixedIsNotExact(session, c', restarted, |c.stored|, k);
    } else {
      StepKeepsOpen(strip, session, c, e, ids);
      assert ids' == if e.Sent? then ids + {e.messageId} else ids;
      ExactMeansCount(session, c', ids', restarted);
    }
  }

  /** Two exchanges can be in flight together, so turns can overtake. */
  lemma TwoTurnsInFlight(strip: string -> string, session: string, u: string, a: string, v: string, b: string)
    requires u != [] && v != [] && strip(a) != [] && strip(b) != []
    ensures var c := Converse(strip, session, [Received(u), Sent(a, true, "1"), Received(v), Sent(b, true, "2")]);
            && |c.jobs| == 2 && c.jobs == c.dispatched && c.stored == []
            && c.jobs[0].messageId == "1" && c.jobs[1].messageId == "2"
  {
    var events := [Received(u), Sent(a, true, "1"), Received(v), Sent(b, true, "2")];
    ConverseSnoc(strip, session, events[..0], events[0]);
    ConverseSnoc(strip, session, events[..1], events[1]);
    ConverseSnoc(strip, session, events[..2], events[2]);
    ConverseSnoc(strip, session, events[..3], events[3]);
    assert events[..0] == [];
    assert events[..0] + [events[0]] == events[..1];
    assert events[..1] + [events[1]] == events[..2];
    assert events[..2] + [events[2]] == events[..3];
    assert events[..3] + [events[3]] == events;
    assert "1" != "2";
  }

  /** A concrete loss: the second exchange is stored, then the process stops. The
      first is below the count and never emitted again. */
  lemma LateFirstTurnIsSkipped(strip: string -> string, session: string, u: string, a: string, v: string, b: string)
    requires u != [] && v != [] && strip(a) != [] && strip(b) != []
    ensures var events := [Received(u), Sent(a, true, "1"), Received(v), Sent(b, true, "2"), Completed(1, true)];
            var c := Converse(strip, session, events);
            FirstEmitted(session, c, true) == 1 && |c.dispatched| == 2 && c.dispatched[0] !in c.stored
  {
    var sent := [Received(u), Sent(a, true, "1"), Received(v), Sent(b, true, "2")];
    var events := sent + [Completed(1, true)];
    assert events == [Received(u), Sent(a, true, "1"), Received(v), Sent(b, true, "2"), Completed(1, true)];
    TwoTurnsInFlight(strip, session, u, a, v, b);
    hide Converse;
    ConverseSnoc(strip, session, sent, Completed(1, true));
    CountIsFirstEmitted(strip, session, events);
    assert LastWriteOk(strip, session, events) by { assert events[..4] == sent; }
  }

  /** Another concrete loss: the first exchange is refused, its inbound text goes out
      with the second, which is stored. The first reply is below the count and is
      never emitted, in this process or after a restart. */
  lemma RefusedTurnIsSkipped(strip: string -> string, session: string, u: string, a: string, v: string, b: string,
                             restarted: bool)
    requires u != [] && v != [] && strip(a) != [] && strip(b) != []
    ensures var events := [Received(u), Sent(a, true, "1"), PersistFailed(0), Received(v), Sent(b, true, "2"),
                           Completed(0, true)];
            var c := Converse(strip, session, events);
            && FirstEmitted(session, c, restarted) == 1 && |c.dispatched| == 2 && c.jobs == []
            && c.dispatched[0].assistant == strip(a) && c.dispatched[0] !in c.stored
            && |c.stored| == 1 && c.stored[0].items == [u, v] && c.stored[0].assistant == strip(b)
  {
    var start := [Received(u), Sent(a, true, "1"), PersistFailed(0)];
    var events := start + [Received(v)] + [Sent(b, true, "2")] + [Completed(0, true)];
    assert events == [Received(u), Sent(a, true, "1"), PersistFailed(0), Received(v), Sent(b, true, "2"),
           Completed(0, true)];
    AfterRefusal(strip, session, u, a);
    var c2 := Converse(strip, session, start);
    SecondExchange(strip, session, c2, v, b);
    hide Converse, Step;
    ConverseSnoc(strip, session, start, Received(v));
    ConverseSnoc(strip, session, start + [Received(v)], Sent(b, true, "2"));
    var sent := start + [Received(v)] + [Sent(b, true, "2")];
    ConverseSnoc(strip, session, sent, Completed(0, true));
    CountIsFirstEmitted(strip, session, events);
    assert events[..|events| - 1] == sent && events[|events| - 1] == Completed(0, true);
    assert LastWriteOk(strip, session, events);
    assert "1" != "2";
  }

  lemma AfterRefusal(strip: string -> string, session: string, u: string, a: string)
    requires u != [] && strip(a) != []
    ensures Converse(strip, session, [Received(u), Sent(a, true, "1"), PersistFailed(0)]) ==
            IDLE.(queue := [u], dispatched := [Job([u], Join([u], "\n"), strip(a), "1")])
  {
    assert Converse(strip, session, []) == IDLE;
    RefusedExchange(strip, session, u, a);
    hide Join, Converse, Step;
    assert [] + [Received(u)] == [Received(u)];
    ConverseSnoc(strip, session, [], Received(u));
    assert [Received(u)] + [Sent(a, true, "1")] == [Received(u), Sent(a, true, "1")];
    ConverseSnoc(strip, session, [Received(u)], Sent(a, true, "1"));
    var sent := [Received(u), Sent(a, true, "1")];
    assert sent + [PersistFailed(0)] == [Received(u), Sent(a, true, "1"), PersistFailed(0)];
    ConverseSnoc(strip, session, sent, PersistFailed(0));
  }

  lemma RefusedExchange(strip: string -> string, session: string, u: string, a: string)
    requires u != [] && strip(a) != []
    ensures var received := Step(strip, session, IDLE, Received(u));
            var sent := Step(strip, session, received, Sent(a, true, "1"));
            Step(strip, session, sent, PersistFailed(0)) ==
            IDLE.(queue := [u], dispatched := [Job([u], Join([u], "\n"), strip(a), "1")])
  {
    hide Join;
    var job := Job([u], Join([u], "\n"), strip(a), "1");
    var received := Step(strip, session, IDLE, Received(u));
    assert received == IDLE.(queue := [u]);
    var sent := Step(strip, session, received, Sent(a, true, "1"));
    assert sent == IDLE.(jobs := [job], dispatched := [job], seen := {"1"});
    var refused := OnPersistFailed(sent, 0);
    assert refused.jobs == [] && refused.seen == {} && refused.queue == [u] + [] == [u];
  }

  lemma SecondExchange(strip: string -> string, session: string, c: Conversation, v: string, b: string)
    requires v != [] && strip(b) != [] && c.jobs == c.stored == [] && c.seen == {}
    ensures var received := Step(strip, session, c, Received(v));
            var sent := Step(strip, session, received, Sent(b, true, "2"));
            var done := Step(strip, session, sent, Completed(0, true));
            && |sent.jobs| == 1 && done.jobs == []
            && |done.stored| == 1 && done.dispatched == c.dispatched + done.stored
            && done.stored[0].items == c.queue + [v] && done.stored[0].assistant == strip(b)
            && done.stored[0].messageId == "2"
  {
    hide Join, Apply;
  }
}
