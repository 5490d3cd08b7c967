/** Fires make progress: what a fire has dealt with, the watermark has passed, and a
    later fire does not send it again. */
module AgentEndProgress {
  import opened Wrappers
  import opened Text
  import opened Transcript
  import opened Watermarks
  import opened AgentEnd
  import opened AgentEndProof
  import opened AgentEndFires

  /** A reserved turn is being sent, or the watermark has passed it. */
  ghost predicate ReservedAdvanced(sys: Sys) {
    forall key :: key in sys.reserved ==> Awaited(sys, key) || key.pairIndex <= Effective(sys.d.live, key.session)
  }

  ghost predicate FlightAdvanced(sys: Sys, s: string, f: Flight) {
    0 < f.next <= |f.pairs| ==> f.pairs[f.next - 1].pairIndex <= Effective(sys.d.live, s)
  }

  /** Every running fire has moved the watermark past the last pair it dealt with. */
  ghost predicate Advanced(sys: Sys) {
    ReservedAdvanced(sys) && forall s :: s in sys.flights ==> FlightAdvanced(sys, s, sys.flights[s])
  }

  /** Steps that leave fires and reservations alone and lower no index keep it. */
  lemma AdvancedRises(sys: Sys, sys': Sys)
    requires Advanced(sys) && sys'.flights == sys.flights && sys'.reserved <= sys.reserved
    requires forall k :: Effective(sys'.d.live, k) >= Effective(sys.d.live, k)
    ensures Advanced(sys')
  {
    forall key | key in sys'.reserved
      ensures Awaited(sys', key) || key.pairIndex <= Effective(sys'.d.live, key.session)
    {
      if Awaited(sys, key) { assert Awaited(sys', key); }
    }
    forall s | s in sys'.flights ensures FlightAdvanced(sys', s, sys'.flights[s]) {
      assert FlightAdvanced(sys, s, sys.flights[s]);
    }
  }

  lemma OpAdvances(sys: Sys, op: Op)
    requires Advanced(sys) && !op.RestartOp?
    ensures Advanced(sys.(d := Apply(sys.d, op)))
  {
    hide Apply, Advanced;
    forall k ensures Effective(Apply(sys.d, op).live, k) >= Effective(sys.d.live, k) {
      EffectiveNeverFalls(sys.d, op, k);
    }
    AdvancedRises(sys, sys.(d := Apply(sys.d, op)));
  }

  /** A change to the fire of one session, with the reservations it explains. */
  lemma FlightMoves(sys: Sys, sys': Sys, s: string)
    requires Advanced(sys) && sys'.flights - {s} == sys.flights - {s}
    requires forall k :: Effective(sys'.d.live, k) >= Effective(sys.d.live, k)
    requires s in sys'.flights ==> FlightAdvanced(sys', s, sys'.flights[s])
    requires forall key :: key in sys'.reserved ==>
               || (key in sys.reserved && !(Awaited(sys, key) && key.session == s))
               || Awaited(sys', key) || key.pairIndex <= Effective(sys'.d.live, key.session)
    ensures Advanced(sys')
  {
    forall t | t in sys'.flights ensures FlightAdvanced(sys', t, sys'.flights[t]) {
      if t != s {
        assert t in sys'.flights - {s};
        assert sys'.flights[t] == (sys'.flights - {s})[t] == (sys.flights - {s})[t] == sys.flights[t];
        assert FlightAdvanced(sys, t, sys.flights[t]);
      }
    }
    forall key | key in sys'.reserved
      ensures Awaited(sys', key) || key.pairIndex <= Effective(sys'.d.live, key.session)
    {
      if key in sys.reserved && Awaited(sys, key) && key.session != s {
        var t := key.session;
        assert t in sys.flights - {s};
        assert sys'.flights[t] == (sys'.flights - {s})[t] == (sys.flights - {s})[t] == sys.flights[t];
      }
    }
  }

  lemma StartAdvances(strip: string -> string, sys: Sys, s: string, cursor: string, length: nat)
    requires Advanced(sys)
    ensures Advanced(StartFire(strip, sys, s, cursor, length))
  {
    hide AllPairs;
    var sys' := StartFire(strip, sys, s, cursor, length);
    assert sys'.flights - {s} == sys.flights - {s};
    FlightMoves(sys, sys', s);
  }

  lemma ProceedAdvances(strip: string -> string, sys: Sys, s: string, ok: bool)
    requires Advanced(sys) && s in sys.flights
    ensures Advanced(ProceedFire(strip, sys, s, ok))
  {
    hide HasMarker, Apply;
    var f, sys' := sys.flights[s], ProceedFire(strip, sys, s, ok);
    if f.phase == Idle {
      assert sys'.flights - {s} == sys.flights - {s};
      if f.next < |f.pairs| {
        var p := f.pairs[f.next];
        forall k ensures Effective(sys'.d.live, k) >= Effective(sys.d.live, k) {
          EffectiveNeverFalls(sys.d, ConsumeOp(s, p.pairIndex, ok), k);
        }
        if ok { ConsumeAdvances(sys.d, s, p.pairIndex); }
        if KeyOf(s, p) in sys.reserved { assert !Awaited(sys, KeyOf(s, p)); }
      }
      FlightMoves(sys, sys', s);
    }
  }

  lemma ReplyAdvances(sys: Sys, s: string, outcome: Outcome)
    requires Advanced(sys) && s in sys.flights
    ensures Advanced(ReplyToFire(sys, s, outcome))
  {
    hide Apply;
    var f, sys' := sys.flights[s], ReplyToFire(sys, s, outcome);
    if f.phase != Idle && f.next < |f.pairs| {
      var p := f.pairs[f.next];
      assert sys'.flights - {s} == sys.flights - {s};
      forall k ensures Effective(sys'.d.live, k) >= Effective(sys.d.live, k) {
        EffectiveNeverFalls(sys.d, BumpOp(s, p.pairIndex), k);
      }
      BumpAdvances(sys.d, s, p.pairIndex);
      forall key | key in sys'.reserved && key in sys.reserved && Awaited(sys, key) && key.session == s
        ensures Awaited(sys', key) || key.pairIndex <= Effective(sys'.d.live, s)
      {
        assert key == KeyOf(s, p);
      }
      FlightMoves(sys, sys', s);
    }
  }

  lemma StepAdvances(strip: string -> string, sys: Sys, e: Event)
    requires Advanced(sys)
    ensures Advanced(Step(strip, sys, e))
  {
    hide Apply, StartFire, ProceedFire, ReplyToFire;
    match e
    case Append(s, more) => AdvancedRises(sys, Step(strip, sys, e));
    case Start(s, cursor, length) => StartAdvances(strip, sys, s, cursor, length);
    case Proceed(s, ok) => if s in sys.flights { ProceedAdvances(strip, sys, s, ok); }
    case Reply(s, outcome) => if s in sys.flights { ReplyAdvances(sys, s, outcome); }
    case TimerFired(s, ok) => OpAdvances(sys, TimerOp(s, ok));
    case ChannelStored(cursor, m) => AdvancedRises(sys, Step(strip, sys, e));
    case ChannelMarked(cursor, m, ok) => OpAdvances(sys, MarkOp(cursor, m, ok));
    case Expired(key) => AdvancedRises(sys, Step(strip, sys, e));
    case Flushed(ok) => OpAdvances(sys, FlushOp(ok));
    case Crashed =>
  }

  /** In every reachable state the watermark has passed what any fire dealt with. */
  lemma {:induction false} RunAdvances(strip: string -> string, events: seq<Event>)
    ensures Advanced(RunEvents(strip, events))
    decreases |events|
  {
    if events != [] {
      hide Advanced, Step;
      RunAdvances(strip, events[..|events| - 1]);
      StepAdvances(strip, RunEvents(strip, events[..|events| - 1]), events[|events| - 1]);
    }
  }

  // ----- A fire that is over -------------------------------------------------------------------------

  /** The watermark of `s` is at or above the last pair of the messages. */
  ghost predicate Passed(strip: string -> string, sys: Sys, s: string, messages: seq<Message>) {
    |AllPairs(strip, messages)| - 1 <= Effective(sys.d.live, s)
  }

  ghost predicate NoCrash(events: seq<Event>) {
    forall i :: 0 <= i < |events| ==> !events[i].Crashed?
  }

  lemma PassedStays(strip: string -> string, sys: Sys, e: Event, s: string, messages: seq<Message>)
    requires Passed(strip, sys, s, messages) && !e.Crashed?
    ensures Passed(strip, Step(strip, sys, e), s, messages)
  {
    hide AllPairs, HasMarker;
    EffectiveStays(strip, sys, e, s);
  }

  lemma EffectiveStays(strip: string -> string, sys: Sys, e: Event, s: string)
    requires !e.Crashed?
    ensures Effective(Step(strip, sys, e).d.live, s) >= Effective(sys.d.live, s)
  {
    hide AllPairs, HasMarker, Apply, Effective;
    forall op: Op | !op.RestartOp? ensures Effective(Apply(sys.d, op).live, s) >= Effective(sys.d.live, s) {
      EffectiveNeverFalls(sys.d, op, s);
    }
  }

  /** When a fire that has not failed stops running, the watermark has passed it. */
  lemma FireEndsPassed(strip: string -> string, sys: Sys, s: string, e: Event)
    requires Advanced(sys) && s in sys.flights && FlightOk(strip, sys, s, sys.flights[s]) && !Fails(sys, s, e)
    ensures var sys', f := Step(strip, sys, e), sys.flights[s];
            StillRunning(sys', s, f) || Passed(strip, sys', s, f.messages)
  {
    hide AllPairs, Covered, Apply, HasMarker, Work;
    var f := sys.flights[s];
    if e.Proceed? && e.s == s {
      if f.phase == Idle && f.next < |f.pairs| {
        ProceedMoves(strip, sys, s);
      } else if f.phase == Idle {
        LastIndex(strip, sys, s, f);
        assert FlightAdvanced(sys, s, f);
      }
    } else if e.Reply? && e.s == s {
      if f.phase != Idle { ReplyMoves(sys, s, e.outcome); }
    } else {
      OtherEventsPass(strip, sys, s, e);
    }
  }

  lemma LastIndex(strip: string -> string, sys: Sys, s: string, f: Flight)
    requires FlightOk(strip, sys, s, f)
    ensures |f.pairs| > 0 && f.pairs[|f.pairs| - 1].pairIndex == |AllPairs(strip, f.messages)| - 1
  {
  }

  /** A fire that meets no failure, in a process that does not crash, is still running
      or has left the watermark at or above the last pair of its transcript. */
  lemma {:induction false} UnfailedFirePasses(strip: string -> string, sys: Sys, s: string, events: seq<Event>)
    requires Inv(strip, sys) && Advanced(sys) && s in sys.flights
    requires Unfailed(strip, sys, s, sys.flights[s], events) && NoCrash(events)
    ensures var sys', f := RunFrom(strip, sys, events), sys.flights[s];
            Inv(strip, sys') && Advanced(sys') && (StillRunning(sys', s, f) || Passed(strip, sys', s, f.messages))
    decreases |events|
  {
    if events != [] {
      hide Inv, Advanced, Step, Fails, Unfailed, Passed;
      var f, n := sys.flights[s], |events| - 1;
      var prior, e := events[..n], events[n];
      UnfailedPrefix(strip, sys, s, f, events);
      UnfailedFirePasses(strip, sys, s, prior);
      var before := RunFrom(strip, sys, prior);
      StepKeepsInv(strip, before, e);
      StepAdvances(strip, before, e);
      if Passed(strip, before, s, f.messages) {
        PassedStays(strip, before, e, s, f.messages);
      } else {
        FlightIsOk(strip, before, s);
        FireEndsPassed(strip, before, s, e);
      }
    }
  }

  /** What the watermark has passed is not sent again: once it is cached, by the
      timer or a flush and whether or not the file was written, a fire over the same
      messages does not start; and a write that succeeds keeps it for after a restart. */
  lemma PassedIsNotSentAgain(strip: string -> string, sys: Sys, s: string, messages: seq<Message>, flush: bool,
                             ok: bool,
                             cursor: string)
    requires Passed(strip, sys, s, messages) && messages <= TranscriptOf(sys, s) && s !in sys.flights
    ensures var sys' := Step(strip, sys, if flush then Flushed(ok) else TimerFired(s, ok));
            && Cached(sys'.d.live, s) >= |AllPairs(strip, messages)| - 1
            && StartFire(strip, sys', s, cursor, |messages|) == sys'
            && (ok && s in sys.d.live.pending ==> DiskW(sys'.d.disk, s) >= |AllPairs(strip, messages)| - 1)
  {
    hide AllPairs, Apply;
    var sys' := Step(strip, sys, if flush then Flushed(ok) else TimerFired(s, ok));
    if flush {
      FlushCommits(sys.d, ok);
      FlushKeepsEffective(sys.d, ok, s);
    } else if s in sys.d.live.pending {
      TimerCommits(sys.d, s, ok);
    } else {
      IdleTimerDoesNothing(sys.d, s, ok);
    }
    assert TranscriptOf(sys', s)[..|messages|] == messages;
    assert From(AllPairs(strip, messages), SavedUpTo(sys'.d.live, s) + 1) == [] by {
      assert SavedUpTo(sys'.d.live, s) + 1 >= |AllPairs(strip, messages)|;
    }
  }

  lemma FlushKeepsEffective(d: Durable, ok: bool, s: string)
    ensures Effective(Apply(d, FlushOp(ok)).live, s) == Cached(Apply(d, FlushOp(ok)).live, s)
  {
    FlushCommits(d, ok);
  }

  lemma IdleTimerDoesNothing(d: Durable, s: string, ok: bool)
    requires s !in d.live.pending
    ensures Apply(d, TimerOp(s, ok)) == d
  {
  }

  // ----- What is sent, and what becomes of it ---------------------------------------------------------

  /** The channel has recorded this pair, under one of the ids its user text came with
      and with the same two sides. */
  ghost predicate Recorded(strip: string -> string, markers: Markers, cursor: string, p: Pair) {
    cursor in markers && exists id :: id in p.externalTurnIds && RecordedAs(strip, markers[cursor], p, id)
  }

  ghost predicate RecordedAs(strip: string -> string, bucket: Bucket, p: Pair, id: string) {
    var m := Marker(Trim(id), p.user, strip(p.assistant));
    Trim(id) != [] && m in bucket && bucket[m] > 0
  }

  lemma RecordedIsMarked(strip: string -> string, markers: Markers, cursor: string, p: Pair)
    ensures Recorded(strip, markers, cursor, p) <==> HasMarker(strip, markers, cursor, p)
  {
    if Recorded(strip, markers, cursor, p) {
      var id :| id in p.externalTurnIds && RecordedAs(strip, markers[cursor], p, id);
      var i :| 0 <= i < |p.externalTurnIds| && p.externalTurnIds[i] == id;
      assert MarkerFor(strip, p.externalTurnIds[i], p) == Some(Marker(Trim(id), p.user, strip(p.assistant)));
    }
    if HasMarker(strip, markers, cursor, p) {
      var i :| 0 <= i < |p.externalTurnIds| && MarkerFor(strip, p.externalTurnIds[i], p).Some?
               && MarkerCount(markers, cursor, MarkerFor(strip, p.externalTurnIds[i], p).value) > 0;
      assert p.externalTurnIds[i] in p.externalTurnIds && RecordedAs(strip, markers[cursor], p, p.externalTurnIds[i]);
    }
  }

  /** A fire sends its next pair exactly when the channel has not recorded it, as far
      as the fire knows its cursor, and the turn is not reserved; a recorded pair is
      passed when the write succeeds, else the fire is over. */
  lemma ProceedMeans(strip: string -> string, sys: Sys, s: string, ok: bool)
    requires s in sys.flights && sys.flights[s].phase == Idle && sys.flights[s].next < |sys.flights[s].pairs|
    ensures var f, sys' := sys.flights[s], ProceedFire(strip, sys, s, ok);
            var p := f.pairs[f.next];
            var key := TurnKey(s, p.user, p.assistant, p.pairIndex);
            var recorded := f.cursor != [] && Recorded(strip, sys.d.live.markers, f.cursor, p);
            && (s in sys'.flights && sys'.flights[s].phase == Sending(0) <==> !recorded && key !in sys.reserved)
            && (!recorded && key !in sys.reserved ==> sys'.reserved == sys.reserved + {key} && sys'.d == sys.d)
            && (!recorded && key in sys.reserved ==> s in sys'.flights && sys'.flights[s].next == f.next + 1)
            && (recorded ==> (s in sys'.flights <==> ok) && sys'.reserved == sys.reserved)
            && (recorded && ok ==> sys'.flights[s].next == f.next + 1 && DiskW(sys'.d.disk, s) >= p.pairIndex)
            && sys'.daemon == sys.daemon
  {
    hide HasMarker, Apply, Recorded, DiskW;
    var f := sys.flights[s];
    RecordedIsMarked(strip, sys.d.live.markers, f.cursor, f.pairs[f.next]);
    ConsumeAdvances(sys.d, s, f.pairs[f.next].pairIndex);
  }

  /** What an answer does: a stored turn is in the daemon and passed; a lost reply left
      it in the daemon; after a second failure the fire is over, the watermark is
      where it was and the turn may be sent again. */
  lemma ReplyMeans(sys: Sys, s: string, outcome: Outcome)
    requires s in sys.flights && sys.flights[s].phase.Sending? && sys.flights[s].next < |sys.flights[s].pairs|
    ensures var f, sys' := sys.flights[s], ReplyToFire(sys, s, outcome);
            var p := f.pairs[f.next];
            var key := TurnKey(s, p.user, p.assistant, p.pairIndex);
            && sys'.daemon == (if outcome == Rejected then sys.daemon else sys.daemon + {key})
            && (outcome == Stored ==>
                  s in sys'.flights && sys'.flights[s].next == f.next + 1 && sys'.flights[s].phase == Idle
                  && Effective(sys'.d.live, s) >= p.pairIndex && sys'.reserved == sys.reserved)
            && (outcome != Stored ==> sys'.d == sys.d)
            && (outcome != Stored && f.phase == Sending(0) ==>
                  s in sys'.flights && sys'.flights[s].next == f.next && sys'.flights[s].phase == Sending(1))
            && (outcome != Stored && f.phase != Sending(0) ==>
                  s !in sys'.flights && sys'.reserved == sys.reserved - {key})
  {
    hide Apply;
    BumpAdvances(sys.d, s, sys.flights[s].pairs[sys.flights[s].next].pairIndex);
  }
}
