/** No gap over every run of the batch writer. */
module AgentEndProof {
  import opened Transcript
  import opened Watermarks
  import opened AgentEnd

  // ----- Durable state ------------------------------------------------------------------

  lemma CommitIndices(strip: string -> string, world: Sys, d: Durable, s: string, ok: bool)
    requires IndicesOk(strip, world, d)
    ensures IndicesOk(strip, world, Commit(d, s, ok))
  {
    hide CoveredUpTo;
    var l := ApplyPending(d.live, s);
    forall k { SavedValues(l, k); }
  }

  lemma BumpIndices(strip: string -> string, world: Sys, d: Durable, s: string, index: int)
    requires IndicesOk(strip, world, d) && CoveredUpTo(strip, world, s, index)
    ensures IndicesOk(strip, world, d.(live := Bump(d.live, s, index)))
  {
    hide CoveredUpTo;
    var l := Bump(d.live, s, index);
    assert l.cached == d.live.cached;
  }

  /** Two states whose indices agree, with one file. */
  lemma SameIndicesOk(strip: string -> string, world: Sys, d: Durable, d': Durable)
    requires IndicesOk(strip, world, d) && SameIndices(d.live, d'.live) && d'.disk == d.disk
    ensures IndicesOk(strip, world, d')
  {
    hide CoveredUpTo;
  }

  lemma TimerIndices(strip: string -> string, world: Sys, d: Durable, s: string, ok: bool)
    requires IndicesOk(strip, world, d) && s in d.live.pending
    ensures IndicesOk(strip, world, TimerFires(d, s, ok))
  {
    hide CoveredUpTo;
    CommitIndices(strip, world, d, s, ok);
    FlushIndices(strip, world, Commit(d, s, ok), s, d.live.pending[s].attempts);
  }

  lemma FlushIndices(strip: string -> string, world: Sys, d: Durable, s: string, attempts: nat)
    requires IndicesOk(strip, world, d)
    ensures attempts > 1 ==> IndicesOk(strip, world, d.(live := ScheduleFlush(d.live, s, attempts - 1)))
  {
    hide CoveredUpTo;
  }

  lemma ConsumeIndices(strip: string -> string, world: Sys, d: Durable, s: string, index: int, ok: bool)
    requires IndicesOk(strip, world, d) && (ok ==> CoveredUpTo(strip, world, s, index))
    ensures IndicesOk(strip, world, ConsumeMarker(d, s, index, ok))
  {
    hide IndicesOk, CoveredUpTo, Bump, Commit;
    if ok {
      BumpIndices(strip, world, d, s, index);
      CommitIndices(strip, world, d.(live := Bump(d.live, s, index)), s, ok);
    } else {
      FailedConsumeRestores(d, s, index);
      SameIndicesOk(strip, world, d, ConsumeMarker(d, s, index, ok));
    }
  }

  lemma MarkIndices(strip: string -> string, world: Sys, d: Durable, key: string, m: Marker, ok: bool)
    requires IndicesOk(strip, world, d)
    ensures IndicesOk(strip, world, MarkPersisted(d, key, m, ok))
  {
    hide CoveredUpTo, SetMarker, Commit;
    var markers := SetMarker(d.live.markers, key, m, Max(MarkerCount(d.live.markers, key, m), 1));
    var d1 := d.(live := d.live.(markers := markers));
    assert IndicesOk(strip, world, d1);
    CommitIndices(strip, world, d1, key, ok);
    SameIndicesOk(strip, world, Commit(d1, key, ok), MarkPersisted(d, key, m, ok));
  }

  lemma FlushSyncIndices(strip: string -> string, world: Sys, d: Durable, ok: bool)
    requires IndicesOk(strip, world, d)
    ensures IndicesOk(strip, world, FlushSync(d, ok))
  {
    hide CoveredUpTo, Saved, DiskW;
    forall k { SavedValues(ApplyAllPending(d.live), k); }
  }

  lemma RestartIndices(strip: string -> string, world: Sys, d: Durable)
    requires IndicesOk(strip, world, d)
    ensures IndicesOk(strip, world, Restart(d))
  {
    hide CoveredUpTo, Load, DiskW;
    forall k { LoadValues(d.disk, k); }
    assert Load(d.disk).pending == map[] by { LoadHasNoPending(d.disk); }
  }

  /** Watermarks come from earlier watermarks or from the index being recorded. */
  lemma IndicesKept(strip: string -> string, world: Sys, d: Durable, op: Op)
    requires IndicesOk(strip, world, d) && !op.CountOp?
    requires op.BumpOp? || (op.ConsumeOp? && op.ok) ==> CoveredUpTo(strip, world, op.s, op.index)
    ensures IndicesOk(strip, world, Apply(d, op))
  {
    hide IndicesOk, CoveredUpTo;
    match op
    case BumpOp(s, index) => BumpIndices(strip, world, d, s, index);
    case TimerOp(s, ok) => if s in d.live.pending { TimerIndices(strip, world, d, s, ok); }
    case ConsumeOp(s, index, ok) => ConsumeIndices(strip, world, d, s, index, ok);
    case MarkOp(key, m, ok) => MarkIndices(strip, world, d, key, m, ok);
    case FlushOp(ok) => FlushSyncIndices(strip, world, d, ok);
    case RestartOp => RestartIndices(strip, world, d);
  }

  lemma WriteMarkers(d: Durable, ok: bool, stored: set<(string, Marker)>)
    requires MarkersOk(d, stored)
    ensures MarkersOk(Write(d, ok), stored)
  {
    if ok {
      forall k, m | m in DiskM(Saved(d.live), k) ensures (k, m) in stored {
        SavedMarkers(d.live, k);
        assert MarkerCount(d.live.markers, k, m) > 0;
      }
    }
  }

  lemma MarkMarkers(d: Durable, key: string, m: Marker, ok: bool, stored: set<(string, Marker)>)
    requires MarkersOk(d, stored) && (key, m) in stored
    ensures MarkersOk(MarkPersisted(d, key, m, ok), stored)
  {
    if ok {
      var previous := MarkerCount(d.live.markers, key, m);
      var markers := SetMarker(d.live.markers, key, m, Max(previous, 1));
      var bucket := if key in d.live.markers then d.live.markers[key] else map[];
      var d1 := d.(live := d.live.(markers := markers));
      assert m in markers[key] && markers[key] != map[];
      assert CleanMarkers(markers);
      forall k, n | MarkerCount(markers, k, n) > 0 ensures (k, n) in stored {
        if (k, n) != (key, m) { assert MarkerCount(d.live.markers, k, n) > 0; }
      }
      WriteMarkers(d1.(live := ApplyPending(d1.live, key)), ok, stored);
    } else {
      FailedMarkRestores(d, key, m);
    }
  }

  lemma ConsumeMarkers(d: Durable, s: string, index: int, ok: bool, stored: set<(string, Marker)>)
    requires MarkersOk(d, stored)
    ensures MarkersOk(ConsumeMarker(d, s, index, ok), stored)
  {
    hide Saved, DiskM, Restore;
    if ok { WriteMarkers(d.(live := ApplyPending(Bump(d.live, s, index), s)), ok, stored); }
    else { FailedConsumeRestores(d, s, index); }
  }

  lemma MarkersKept(d: Durable, op: Op, stored: set<(string, Marker)>)
    requires MarkersOk(d, stored) && (op.MarkOp? ==> (op.key, op.m) in stored)
    ensures MarkersOk(Apply(d, op), stored)
  {
    hide Saved, Load, DiskM, SetMarker, Restore, MarkPersisted, ConsumeMarker;
    match op
    case BumpOp(_, _) =>
    case TimerOp(s, ok) => WriteMarkers(d.(live := ApplyPending(d.live, s)), ok, stored);
    case ConsumeOp(s, index, ok) =>
      ConsumeMarkers(d, s, index, ok, stored);
    case MarkOp(key, m, ok) => MarkMarkers(d, key, m, ok, stored);
    case CountOp(s, ok) =>
      var counted := d.live.(counts := d.live.counts[s := Count(d.live, s) + 1]);
      WriteMarkers(d.(live := ApplyPending(counted, s)), ok, stored);
    case FlushOp(ok) => WriteMarkers(d.(live := ApplyAllPending(d.live)), ok, stored);
    case RestartOp =>
      LoadIsClean(d.disk);
      forall k { LoadValues(d.disk, k); }
  }

  lemma CountsKept(d: Durable, op: Op)
    requires NoW4b(d) && !op.CountOp?
    ensures NoW4b(Apply(d, op))
  {
    var d' := Apply(d, op);
    StepWritesFresh(d, op);
    forall k { SavedValues(d'.live, k); }
    forall k { LoadValues(d.disk, k); }
  }

  // ----- Coverage only grows --------------------------------------------------------------

  ghost predicate Grows(sys: Sys, sys': Sys) {
    && sys.daemon <= sys'.daemon && sys.channel <= sys'.channel
    && forall s :: TranscriptOf(sys, s) <= TranscriptOf(sys', s)
  }

  lemma CoveredGrows(strip: string -> string, sys: Sys, sys': Sys, s: string, p: Pair)
    requires Grows(sys, sys') && Covered(strip, sys, s, p)
    ensures Covered(strip, sys', s, p)
  {
    if KeyOf(s, p) !in sys.daemon {
      var cursor, i :| 0 <= i < |p.externalTurnIds| && StoredByChannel(strip, sys, cursor, p, i);
      assert StoredByChannel(strip, sys', cursor, p, i);
    }
  }

  lemma CoveredUpToGrows(strip: string -> string, sys: Sys, sys': Sys, s: string, k: int)
    requires Grows(sys, sys') && CoveredUpTo(strip, sys, s, k)
    ensures CoveredUpTo(strip, sys', s, k)
  {
    var a, b := AllPairs(strip, TranscriptOf(sys, s)), AllPairs(strip, TranscriptOf(sys', s));
    PairsExtend(strip, TranscriptOf(sys, s), TranscriptOf(sys', s));
    forall j | 0 <= j <= k ensures Covered(strip, sys', s, b[j]) {
      assert b[j] == a[j];
      CoveredGrows(strip, sys, sys', s, a[j]);
    }
  }

  lemma IndicesGrow(strip: string -> string, sys: Sys, sys': Sys, d: Durable)
    requires Grows(sys, sys') && IndicesOk(strip, sys, d)
    ensures IndicesOk(strip, sys', d)
  {
    forall s, k | CoveredUpTo(strip, sys, s, k) ensures CoveredUpTo(strip, sys', s, k) {
      CoveredUpToGrows(strip, sys, sys', s, k);
    }
    hide CoveredUpTo;
  }

  lemma KeyOkGrows(strip: string -> string, sys: Sys, sys': Sys, key: TurnKey)
    requires Grows(sys, sys') && KeyOk(strip, sys, key)
    ensures KeyOk(strip, sys', key)
  {
    PairsExtend(strip, TranscriptOf(sys, key.session), TranscriptOf(sys', key.session));
  }

  lemma FlightGrows(strip: string -> string, sys: Sys, sys': Sys, s: string, f: Flight)
    requires Grows(sys, sys') && FlightOk(strip, sys, s, f)
    ensures FlightOk(strip, sys', s, f)
  {
    var pairs := AllPairs(strip, f.messages);
    forall j | 0 <= j < f.start + f.next ensures Covered(strip, sys', s, pairs[j]) {
      CoveredGrows(strip, sys, sys', s, pairs[j]);
    }
  }

  lemma FlightsGrow(strip: string -> string, sys: Sys, sys': Sys)
    requires Grows(sys, sys') && FlightsOk(strip, sys) && sys'.flights == sys.flights
    ensures FlightsOk(strip, sys')
  {
    forall s | s in sys.flights ensures FlightOk(strip, sys', s, sys'.flights[s]) {
      FlightGrows(strip, sys, sys', s, sys.flights[s]);
    }
  }

  lemma DaemonGrows(strip: string -> string, sys: Sys, sys': Sys)
    requires Grows(sys, sys') && DaemonOk(strip, sys)
    requires forall key :: key in sys'.daemon && key !in sys.daemon ==> KeyOk(strip, sys', key)
    ensures DaemonOk(strip, sys')
  {
    forall key | key in sys'.daemon ensures KeyOk(strip, sys', key) {
      if key in sys.daemon { KeyOkGrows(strip, sys, sys', key); }
    }
  }

  lemma ReservedGrows(sys: Sys, sys': Sys)
    requires Grows(sys, sys') && ReservedOk(sys) && sys'.flights == sys.flights && sys'.reserved <= sys.reserved
    ensures ReservedOk(sys')
  {
    forall key | key in sys'.reserved ensures key in sys'.daemon || Awaited(sys', key) {
      if key !in sys.daemon { assert Awaited(sys, key); }
    }
  }

  /** The invariant survives any growth of the facts around an unchanged writer. */
  lemma InvGrows(strip: string -> string, sys: Sys, sys': Sys)
    requires Inv(strip, sys) && Grows(sys, sys')
    requires sys'.d == sys.d && sys'.flights == sys.flights && sys'.reserved <= sys.reserved
    requires sys'.channel == sys.channel
    requires forall key :: key in sys'.daemon && key !in sys.daemon ==> KeyOk(strip, sys', key)
    ensures Inv(strip, sys')
  {
    hide IndicesOk, FlightsOk, DaemonOk, ReservedOk, KeyOk;
    IndicesGrow(strip, sys, sys', sys.d);
    DaemonGrows(strip, sys, sys');
    FlightsGrow(strip, sys, sys');
    ReservedGrows(sys, sys');
  }

  /** The invariant survives a durable operation whose index is covered. */
  lemma InvApplies(strip: string -> string, sys: Sys, op: Op)
    requires Inv(strip, sys) && !op.CountOp?
    requires op.BumpOp? || (op.ConsumeOp? && op.ok) ==> CoveredUpTo(strip, sys, op.s, op.index)
    requires op.MarkOp? ==> (op.key, op.m) in sys.channel
    ensures Inv(strip, sys.(d := Apply(sys.d, op)))
  {
    hide IndicesOk, FlightsOk, DaemonOk, ReservedOk, MarkersOk, NoW4b, Apply, CoveredUpTo;
    var sys' := sys.(d := Apply(sys.d, op));
    assert Grows(sys, sys');
    IndicesKept(strip, sys, sys.d, op);
    IndicesGrow(strip, sys, sys', sys'.d);
    MarkersKept(sys.d, op, sys.channel);
    CountsKept(sys.d, op);
    FlightsGrow(strip, sys, sys');
    DaemonGrows(strip, sys, sys');
    ReservedGrows(sys, sys');
  }

  // ----- The fire ---------------------------------------------------------------------------

  /** The pair a fire stands at is the transcript's pair of that index. */
  lemma CurrentPair(strip: string -> string, sys: Sys, s: string, f: Flight)
    requires FlightOk(strip, sys, s, f) && f.next < |f.pairs|
    ensures var i := f.start + f.next;
            && f.pairs[f.next].pairIndex == i
            && i < |AllPairs(strip, f.messages)| && f.pairs[f.next] == AllPairs(strip, f.messages)[i]
            && i < |AllPairs(strip, TranscriptOf(sys, s))|
            && f.pairs[f.next] == AllPairs(strip, TranscriptOf(sys, s))[i]
  {
    PairsExtend(strip, f.messages, TranscriptOf(sys, s));
  }

  /** Once the current pair is covered, so is everything up to it. */
  lemma CoveredToCurrent(strip: string -> string, sys: Sys, s: string, f: Flight)
    requires FlightOk(strip, sys, s, f) && f.next < |f.pairs| && Covered(strip, sys, s, f.pairs[f.next])
    ensures CoveredUpTo(strip, sys, s, f.pairs[f.next].pairIndex)
    ensures FlightOk(strip, sys, s, f.(next := f.next + 1, phase := Idle))
  {
    CurrentPair(strip, sys, s, f);
    PairsExtend(strip, f.messages, TranscriptOf(sys, s));
    var own, all := AllPairs(strip, f.messages), AllPairs(strip, TranscriptOf(sys, s));
    forall j | 0 <= j < f.start + f.next + 1 ensures Covered(strip, sys, s, own[j]) && all[j] == own[j] {
    }
  }

  /** Replacing or ending one session's fire, with its reservation accounted for. */
  lemma InvFlights(strip: string -> string, sys: Sys, sys': Sys, s: string)
    requires Inv(strip, sys)
    requires sys'.d == sys.d && sys'.transcripts == sys.transcripts && sys'.daemon == sys.daemon
             && sys'.channel == sys.channel
    requires sys'.flights - {s} == sys.flights - {s}
    requires s in sys'.flights ==> FlightOk(strip, sys, s, sys'.flights[s])
    requires forall key :: key in sys'.reserved && (key !in sys.reserved || key.session == s) ==>
               key in sys'.daemon || Awaited(sys', key)
    ensures Inv(strip, sys')
  {
    hide IndicesOk, DaemonOk, MarkersOk, NoW4b, FlightOk;
    assert Grows(sys, sys');
    IndicesGrow(strip, sys, sys', sys.d);
    DaemonGrows(strip, sys, sys');
    OtherFlights(sys, sys', s);
    forall k | k in sys'.flights ensures FlightOk(strip, sys', k, sys'.flights[k]) {
      FlightGrows(strip, sys, sys', k, sys'.flights[k]);
    }
    forall key | key in sys'.reserved ensures key in sys'.daemon || Awaited(sys', key) {
      if key in sys.reserved && key.session != s && key !in sys.daemon {
        assert Awaited(sys, key);
      }
    }
  }

  lemma OtherFlights(sys: Sys, sys': Sys, s: string)
    requires sys'.flights - {s} == sys.flights - {s}
    ensures forall k :: k != s ==> (k in sys'.flights <==> k in sys.flights)
    ensures forall k :: k != s && k in sys.flights ==> sys'.flights[k] == sys.flights[k]
  {
    forall k | k != s
      ensures (k in sys'.flights <==> k in sys.flights) && (k in sys.flights ==> sys'.flights[k] == sys.flights[k])
    {
      assert k in sys'.flights - {s} <==> k in sys.flights - {s};
      if k in sys.flights { assert (sys'.flights - {s})[k] == (sys.flights - {s})[k]; }
    }
  }

  lemma StartKeepsInv(strip: string -> string, sys: Sys, s: string, cursor: string, length: nat)
    requires Inv(strip, sys)
    ensures Inv(strip, StartFire(strip, sys, s, cursor, length))
  {
    hide AllPairs, FlightsOk, DaemonOk, MarkersOk, ReservedOk;
    var sys' := StartFire(strip, sys, s, cursor, length);
    if sys' != sys {
      var f := sys'.flights[s];
      var own, all := AllPairs(strip, f.messages), AllPairs(strip, TranscriptOf(sys, s));
      PairsExtend(strip, f.messages, TranscriptOf(sys, s));
      assert CoveredUpTo(strip, sys, s, Cached(sys.d.live, s));
      assert f.start == 0 || f.start == Cached(sys.d.live, s) + 1;
      forall j | 0 <= j < f.start ensures Covered(strip, sys, s, own[j]) {
        assert own[j] == all[j];
      }
      assert FlightOk(strip, sys, s, f);
      assert sys'.flights - {s} == sys.flights - {s};
      NotAwaited(sys, sys', s);
      InvFlights(strip, sys, sys', s);
    }
  }

  /** A session without a fire has no reservation waiting for an answer. */
  lemma NotAwaited(sys: Sys, sys': Sys, s: string)
    requires ReservedOk(sys) && sys'.reserved <= sys.reserved && sys'.daemon == sys.daemon
    requires s !in sys.flights || sys.flights[s].phase == Idle
    ensures forall key :: key in sys'.reserved && key.session == s ==> key in sys'.daemon
  {
  }

  lemma MarkerCovers(strip: string -> string, sys: Sys, s: string, cursor: string, p: Pair)
    requires MarkersOk(sys.d, sys.channel) && HasMarker(strip, sys.d.live.markers, cursor, p)
    ensures Covered(strip, sys, s, p)
  {
    var i :| 0 <= i < |p.externalTurnIds| &&
      var m := MarkerFor(strip, p.externalTurnIds[i], p);
      m.Some? && MarkerCount(sys.d.live.markers, cursor, m.value) > 0;
    assert StoredByChannel(strip, sys, cursor, p, i);
  }

  lemma ProceedKeepsInv(strip: string -> string, sys: Sys, s: string, ok: bool)
    requires Inv(strip, sys) && s in sys.flights
    ensures Inv(strip, ProceedFire(strip, sys, s, ok))
  {
    hide AllPairs, IndicesOk, DaemonOk, NoW4b, CoveredUpTo, Covered, Apply, HasMarker, FlightOk;
    var f := sys.flights[s];
    var sys' := ProceedFire(strip, sys, s, ok);
    assert FlightOk(strip, sys, s, f);
    if f.phase == Idle {
      NotAwaited(sys, sys.(reserved := sys.reserved), s);
      assert sys'.flights - {s} == sys.flights - {s};
      if f.next >= |f.pairs| {
        InvFlights(strip, sys, sys', s);
      } else {
        var p := f.pairs[f.next];
        var key := KeyOf(s, p);
        if f.cursor != [] && HasMarker(strip, sys.d.live.markers, f.cursor, p) {
          MarkerCovers(strip, sys, s, f.cursor, p);
          CoveredToCurrent(strip, sys, s, f);
          var op := ConsumeOp(s, p.pairIndex, ok);
          InvApplies(strip, sys, op);
          var sys1 := sys.(d := Apply(sys.d, op));
          assert Grows(sys, sys1);
          FlightGrows(strip, sys, sys1, s, f.(next := f.next + 1, phase := Idle));
          InvFlights(strip, sys1, sys', s);
        } else if key in sys.reserved {
          assert Covered(strip, sys, s, p) by { InDaemon(strip, sys, s, p); }
          CoveredToCurrent(strip, sys, s, f);
          InvFlights(strip, sys, sys', s);
        } else {
          BeginSend(strip, sys, s, f, 0);
          assert Awaited(sys', key);
          InvFlights(strip, sys, sys', s);
        }
      }
    }
  }

  lemma InDaemon(strip: string -> string, sys: Sys, s: string, p: Pair)
    requires KeyOf(s, p) in sys.daemon
    ensures Covered(strip, sys, s, p)
  {
  }

  lemma BeginSend(strip: string -> string, sys: Sys, s: string, f: Flight, attempt: nat)
    requires FlightOk(strip, sys, s, f) && f.next < |f.pairs|
    ensures FlightOk(strip, sys, s, f.(phase := Sending(attempt)))
  {
  }

  lemma StoredReplyKeepsInv(strip: string -> string, sys1: Sys, s: string, f: Flight, sys': Sys)
    requires Inv(strip, sys1) && FlightOk(strip, sys1, s, f) && f.next < |f.pairs|
    requires KeyOf(s, f.pairs[f.next]) in sys1.daemon
    requires s in sys1.flights && sys1.flights[s] == f && f.phase != Idle
    requires sys' == sys1.(d := Apply(sys1.d, BumpOp(s, f.pairs[f.next].pairIndex)),
                           flights := sys1.flights[s := f.(next := f.next + 1, phase := Idle)])
    ensures Inv(strip, sys')
  {
    hide AllPairs, IndicesOk, DaemonOk, MarkersOk, NoW4b, CoveredUpTo, Covered, Apply, FlightOk, FlightsOk;
    var p := f.pairs[f.next];
    assert forall k :: k in sys1.reserved && k.session == s ==> k in sys1.daemon;
    InDaemon(strip, sys1, s, p);
    CoveredToCurrent(strip, sys1, s, f);
    InvApplies(strip, sys1, BumpOp(s, p.pairIndex));
    var sys2 := sys1.(d := sys'.d);
    assert Grows(sys1, sys2);
    FlightGrows(strip, sys1, sys2, s, f.(next := f.next + 1, phase := Idle));
    assert sys'.flights - {s} == sys2.flights - {s};
    InvFlights(strip, sys2, sys', s);
  }

  lemma FailedReplyKeepsInv(strip: string -> string, sys1: Sys, s: string, f: Flight, sys': Sys)
    requires Inv(strip, sys1) && FlightOk(strip, sys1, s, f) && f.next < |f.pairs|
    requires s in sys1.flights && sys1.flights[s] == f && f.phase != Idle
    requires if f.phase.attempt == 0
             then sys' == sys1.(flights := sys1.flights[s := f.(phase := Sending(1))])
             else sys' == sys1.(reserved := sys1.reserved - {KeyOf(s, f.pairs[f.next])}, flights := sys1.flights - {s})
    ensures Inv(strip, sys')
  {
    hide AllPairs, IndicesOk, DaemonOk, MarkersOk, NoW4b, CoveredUpTo, Covered, FlightOk, FlightsOk;
    var key := KeyOf(s, f.pairs[f.next]);
    assert forall k :: k in sys1.reserved && k.session == s ==> k in sys1.daemon || k == key;
    assert sys'.flights - {s} == sys1.flights - {s};
    if f.phase.attempt == 0 {
      BeginSend(strip, sys1, s, f, 1);
      assert Awaited(sys', key);
    }
    InvFlights(strip, sys1, sys', s);
  }

  lemma ReplyKeepsInv(strip: string -> string, sys: Sys, s: string, outcome: Outcome)
    requires Inv(strip, sys) && s in sys.flights
    ensures Inv(strip, ReplyToFire(sys, s, outcome))
  {
    hide AllPairs, IndicesOk, DaemonOk, MarkersOk, NoW4b, Apply, FlightOk, KeyOk, ReservedOk;
    var f := sys.flights[s];
    var sys' := ReplyToFire(sys, s, outcome);
    assert FlightOk(strip, sys, s, f);
    if f.phase != Idle && f.next < |f.pairs| {
      var sys1 := sys.(daemon := sys'.daemon);
      assert Grows(sys, sys1);
      CurrentKeyOk(strip, sys, sys1, s, f);
      InvGrows(strip, sys, sys1);
      FlightGrows(strip, sys, sys1, s, f);
      if outcome == Stored {
        StoredReplyKeepsInv(strip, sys1, s, f, sys');
      } else {
        FailedReplyKeepsInv(strip, sys1, s, f, sys');
      }
    }
  }

  lemma CurrentKeyOk(strip: string -> string, sys: Sys, sys1: Sys, s: string, f: Flight)
    requires FlightOk(strip, sys, s, f) && f.next < |f.pairs| && sys1.transcripts == sys.transcripts
    ensures KeyOk(strip, sys1, KeyOf(s, f.pairs[f.next]))
  {
    CurrentPair(strip, sys, s, f);
  }

  lemma StepKeepsInv(strip: string -> string, sys: Sys, e: Event)
    requires Inv(strip, sys)
    ensures Inv(strip, Step(strip, sys, e))
  {
    hide Inv, Apply;
    var sys' := Step(strip, sys, e);
    match e
    case Append(s, more) => AppendKeepsInv(strip, sys, s, more);
    case Start(s, cursor, length) => StartKeepsInv(strip, sys, s, cursor, length);
    case Proceed(s, ok) => if s in sys.flights { ProceedKeepsInv(strip, sys, s, ok); }
    case Reply(s, outcome) => if s in sys.flights { ReplyKeepsInv(strip, sys, s, outcome); }
    case TimerFired(s, ok) => InvApplies(strip, sys, TimerOp(s, ok));
    case ChannelStored(cursor, m) => StoredKeepsInv(strip, sys, cursor, m);
    case ChannelMarked(cursor, m, ok) =>
      if (cursor, m) in sys.channel { InvApplies(strip, sys, MarkOp(cursor, m, ok)); }
    case Expired(key) => ExpiryKeepsInv(strip, sys, key);
    case Flushed(ok) => InvApplies(strip, sys, FlushOp(ok));
    case Crashed =>
      InvApplies(strip, sys, RestartOp);
      CrashKeepsInv(strip, sys.(d := Apply(sys.d, RestartOp)));
  }

  lemma AppendKeepsInv(strip: string -> string, sys: Sys, s: string, more: seq<Message>)
    requires Inv(strip, sys)
    ensures Inv(strip, sys.(transcripts := sys.transcripts[s := TranscriptOf(sys, s) + more]))
  {
    hide Inv, KeyOk;
    InvGrows(strip, sys, sys.(transcripts := sys.transcripts[s := TranscriptOf(sys, s) + more]));
  }

  lemma ExpiryKeepsInv(strip: string -> string, sys: Sys, key: TurnKey)
    requires Inv(strip, sys)
    ensures Inv(strip, sys.(reserved := sys.reserved - {key}))
  {
    hide Inv, KeyOk;
    InvGrows(strip, sys, sys.(reserved := sys.reserved - {key}));
  }

  lemma CrashKeepsInv(strip: string -> string, sys: Sys)
    requires Inv(strip, sys)
    ensures Inv(strip, sys.(reserved := {}, flights := map[]))
  {
    hide IndicesOk, DaemonOk, MarkersOk, NoW4b;
    var sys' := sys.(reserved := {}, flights := map[]);
    assert Grows(sys, sys');
    IndicesGrow(strip, sys, sys', sys.d);
    DaemonGrows(strip, sys, sys');
  }

  lemma StoredKeepsInv(strip: string -> string, sys: Sys, cursor: string, m: Marker)
    requires Inv(strip, sys)
    ensures Inv(strip, sys.(channel := sys.channel + {(cursor, m)}))
  {
    var sys' := sys.(channel := sys.channel + {(cursor, m)});
    hide IndicesOk, FlightsOk, DaemonOk, ReservedOk, KeyOk;
    IndicesGrow(strip, sys, sys', sys.d);
    DaemonGrows(strip, sys, sys');
    FlightsGrow(strip, sys, sys');
    ReservedGrows(sys, sys');
  }

  // ----- Theorems -----------------------------------------------------------------------------

  lemma {:induction false} RunKeepsInv(strip: string -> string, events: seq<Event>)
    ensures Inv(strip, RunEvents(strip, events))
  {
    if events != [] {
      RunKeepsInv(strip, events[..|events| - 1]);
      StepKeepsInv(strip, RunEvents(strip, events[..|events| - 1]), events[|events| - 1]);
    }
  }

  /** No gap: after any run, every pair at or below any watermark, in memory or
      on disk, is in the daemon under its own id or was stored by the channel. */
  lemma NoGap(strip: string -> string, events: seq<Event>, s: string)
    ensures var sys := RunEvents(strip, events);
            && CoveredUpTo(strip, sys, s, Effective(sys.d.live, s))
            && CoveredUpTo(strip, sys, s, Cached(sys.d.live, s))
            && CoveredUpTo(strip, sys, s, DiskW(sys.d.disk, s))
  {
    RunKeepsInv(strip, events);
  }

  /** One record per pair: whatever was retried or replayed, two daemon records
      of one session and pair index are the same record, and it is that pair's. */
  lemma OneRecordPerPair(strip: string -> string, events: seq<Event>, a: TurnKey, b: TurnKey)
    requires a in RunEvents(strip, events).daemon && b in RunEvents(strip, events).daemon
    requires a.session == b.session && a.pairIndex == b.pairIndex
    ensures a == b && KeyOk(strip, RunEvents(strip, events), a)
  {
    RunKeepsInv(strip, events);
  }
}
