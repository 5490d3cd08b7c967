/** The batch writer as a protocol: agent_end fires over a growing transcript,
    interleaved with daemon failures, lost replies, failed file writes, debounce
    timers, direct-channel markers and crashes. */
module AgentEnd {
  import opened Wrappers
  import opened Text
  import opened Transcript
  import opened Watermarks

  /** The deterministic turn id: its hash is taken as injective, so the daemon
      keeps one record per key. */
  datatype TurnKey = TurnKey(session: string, user: string, assistant: string, pairIndex: nat)

  datatype Phase = Idle | Sending(attempt: nat)

  /** A running fire: the messages it was given, the first unsaved pair,
      the pairs to send and the position reached. */
  datatype Flight = Flight(cursor: string, messages: seq<Message>, start: nat, pairs: seq<Pair>, next: nat,
                           phase: Phase)

  datatype Sys = Sys(
    d: Durable,
    transcripts: map<string, seq<Message>>,
    reserved: set<TurnKey>,
    daemon: set<TurnKey>,
    channel: set<(string, Marker)>,
    flights: map<string, Flight>)

  datatype Outcome = Stored | Rejected | LostReply

  datatype Event =
    | Append(s: string, more: seq<Message>)
    | Start(s: string, cursor: string, length: nat)
    | Proceed(s: string, writeOk: bool)
    | Reply(s: string, outcome: Outcome)
    | TimerFired(s: string, writeOk: bool)
    | ChannelStored(cursor: string, m: Marker)
    | ChannelMarked(cursor: string, m: Marker, writeOk: bool)
    | Expired(key: TurnKey)
    | Flushed(writeOk: bool)
    | Crashed

  const INITIAL: Sys := Sys(Durable(NO_STATE, map[]), map[], {}, {}, {}, map[])

  function TranscriptOf(sys: Sys, s: string): seq<Message> {
    if s in sys.transcripts then sys.transcripts[s] else []
  }

  function KeyOf(s: string, p: Pair): TurnKey {
    TurnKey(s, p.user, p.assistant, p.pairIndex)
  }

  function MarkerFor(strip: string -> string, id: string, p: Pair): Option<Marker> {
    if Trim(id) == [] then None else Some(Marker(Trim(id), p.user, strip(p.assistant)))
  }

  predicate HasMarker(strip: string -> string, markers: Markers, cursor: string, p: Pair) {
    exists i :: 0 <= i < |p.externalTurnIds| &&
      var m := MarkerFor(strip, p.externalTurnIds[i], p);
      m.Some? && MarkerCount(markers, cursor, m.value) > 0
  }

  function StartFire(strip: string -> string, sys: Sys, s: string, cursor: string, length: nat): Sys {
    if s in sys.flights || length > |TranscriptOf(sys, s)| then sys
    else
      var messages := TranscriptOf(sys, s)[..length];
      var saved := SavedUpTo(sys.d.live, s);
      var pairs := From(AllPairs(strip, messages), saved + 1);
      if pairs == [] then sys
      else sys.(flights := sys.flights[s := Flight(cursor, messages, Max(saved + 1, 0), pairs, 0, Idle)])
  }

  /** The synchronous part of the loop body, up to the call of the daemon. */
  function ProceedFire(strip: string -> string, sys: Sys, s: string, ok: bool): Sys
    requires s in sys.flights
  {
    var f := sys.flights[s];
    if f.phase != Idle then sys
    else if f.next >= |f.pairs| then sys.(flights := sys.flights - {s})
    else
      var p := f.pairs[f.next];
      var key := KeyOf(s, p);
      if f.cursor != [] && HasMarker(strip, sys.d.live.markers, f.cursor, p) then
        sys.(d := Apply(sys.d, ConsumeOp(s, p.pairIndex, ok)),
             flights := if ok then sys.flights[s := f.(next := f.next + 1)] else sys.flights - {s})
      else if key in sys.reserved then sys.(flights := sys.flights[s := f.(next := f.next + 1)])
      else sys.(reserved := sys.reserved + {key}, flights := sys.flights[s := f.(phase := Sending(0))])
  }

  /** The daemon's answer to one of the at most two attempts. */
  function ReplyToFire(sys: Sys, s: string, outcome: Outcome): Sys
    requires s in sys.flights
  {
    var f := sys.flights[s];
    if f.phase == Idle || f.next >= |f.pairs| then sys
    else
      var p := f.pairs[f.next];
      var key := KeyOf(s, p);
      var daemon := if outcome == Rejected then sys.daemon else sys.daemon + {key};
      if outcome == Stored then
        sys.(daemon := daemon, d := Apply(sys.d, BumpOp(s, p.pairIndex)),
             flights := sys.flights[s := f.(next := f.next + 1, phase := Idle)])
      else if f.phase.attempt == 0 then
        sys.(daemon := daemon, flights := sys.flights[s := f.(phase := Sending(1))])
      else
        sys.(daemon := daemon, reserved := sys.reserved - {key}, flights := sys.flights - {s})
  }

  /** Events that are not enabled leave the state as it is. */
  function Step(strip: string -> string, sys: Sys, e: Event): Sys {
    match e
    case Append(s, more) => sys.(transcripts := sys.transcripts[s := TranscriptOf(sys, s) + more])
    case Start(s, cursor, length) => StartFire(strip, sys, s, cursor, length)
    case Proceed(s, ok) => if s in sys.flights then ProceedFire(strip, sys, s, ok) else sys
    case Reply(s, outcome) => if s in sys.flights then ReplyToFire(sys, s, outcome) else sys
    case TimerFired(s, ok) => sys.(d := Apply(sys.d, TimerOp(s, ok)))
    case ChannelStored(cursor, m) => sys.(channel := sys.channel + {(cursor, m)})
    case ChannelMarked(cursor, m, ok) =>
      if (cursor, m) in sys.channel then sys.(d := Apply(sys.d, MarkOp(cursor, m, ok))) else sys
    case Expired(key) => sys.(reserved := sys.reserved - {key})
    case Flushed(ok) => sys.(d := Apply(sys.d, FlushOp(ok)))
    case Crashed => sys.(d := Apply(sys.d, RestartOp), reserved := {}, flights := map[])
  }

  function RunEvents(strip: string -> string, events: seq<Event>): Sys {
    if events == [] then INITIAL
    else Step(strip, RunEvents(strip, events[..|events| - 1]), events[|events| - 1])
  }

  // ----- Coverage ---------------------------------------------------------------------

  /** In the daemon under its own turn id, or stored by the direct channel. */
  ghost predicate Covered(strip: string -> string, sys: Sys, s: string, p: Pair) {
    || KeyOf(s, p) in sys.daemon
    || exists cursor, i :: 0 <= i < |p.externalTurnIds| && StoredByChannel(strip, sys, cursor, p, i)
  }

  ghost predicate StoredByChannel(strip: string -> string, sys: Sys, cursor: string, p: Pair, i: nat)
    requires i < |p.externalTurnIds|
  {
    var m := MarkerFor(strip, p.externalTurnIds[i], p);
    m.Some? && (cursor, m.value) in sys.channel
  }

  ghost predicate CoveredUpTo(strip: string -> string, sys: Sys, s: string, k: int) {
    var pairs := AllPairs(strip, TranscriptOf(sys, s));
    k < |pairs| && forall j :: 0 <= j <= k ==> Covered(strip, sys, s, pairs[j])
  }

  // ----- The invariant ----------------------------------------------------------------

  ghost predicate FlightOk(strip: string -> string, sys: Sys, s: string, f: Flight) {
    var pairs := AllPairs(strip, f.messages);
    && f.messages <= TranscriptOf(sys, s)
    && f.start < |pairs|
    && f.pairs == pairs[f.start..]
    && f.next <= |f.pairs|
    && (f.phase.Sending? ==> f.next < |f.pairs|)
    && forall j :: 0 <= j < f.start + f.next ==> Covered(strip, sys, s, pairs[j])
  }

  ghost predicate Awaited(sys: Sys, key: TurnKey) {
    && key.session in sys.flights
    && var f := sys.flights[key.session];
       f.phase.Sending? && f.next < |f.pairs| && key == KeyOf(key.session, f.pairs[f.next])
  }

  ghost predicate KeyOk(strip: string -> string, sys: Sys, key: TurnKey) {
    var pairs := AllPairs(strip, TranscriptOf(sys, key.session));
    key.pairIndex < |pairs| && key == KeyOf(key.session, pairs[key.pairIndex])
  }

  /** Every watermark of `d`, in memory or on disk, is covered in `world`. */
  ghost predicate IndicesOk(strip: string -> string, world: Sys, d: Durable) {
    forall s ::
      && CoveredUpTo(strip, world, s, Cached(d.live, s))
      && (s in d.live.pending ==> CoveredUpTo(strip, world, s, d.live.pending[s].index))
      && CoveredUpTo(strip, world, s, DiskW(d.disk, s))
  }

  /** Markers, in memory or on disk, record turns the channel stored. */
  ghost predicate MarkersOk(d: Durable, stored: set<(string, Marker)>) {
    && CleanMarkers(d.live.markers)
    && (forall k, m :: MarkerCount(d.live.markers, k, m) > 0 ==> (k, m) in stored)
    && (forall k, m :: m in DiskM(d.disk, k) ==> (k, m) in stored)
  }

  ghost predicate NoW4b(d: Durable) {
    forall s :: Count(d.live, s) <= 0 && DiskB(d.disk, s) <= 0
  }

  ghost predicate ReservedOk(sys: Sys) {
    forall key :: key in sys.reserved ==> key in sys.daemon || Awaited(sys, key)
  }

  ghost predicate FlightsOk(strip: string -> string, sys: Sys) {
    forall s :: s in sys.flights ==> FlightOk(strip, sys, s, sys.flights[s])
  }

  ghost predicate DaemonOk(strip: string -> string, sys: Sys) {
    forall key :: key in sys.daemon ==> KeyOk(strip, sys, key)
  }

  ghost predicate Inv(strip: string -> string, sys: Sys) {
    && IndicesOk(strip, sys, sys.d) && MarkersOk(sys.d, sys.channel) && NoW4b(sys.d)
    && ReservedOk(sys) && FlightsOk(strip, sys) && DaemonOk(strip, sys)
  }
}
