/** The writer object: its maps, changed in place by loops over entries, proved
    against the value functions of the durable state. */
module ChatTurnWriter {
  import opened Wrappers
  import opened SessionIds
  import opened Watermarks
  import opened Migration
  import opened Text
  import Pairing

  type DedupMap = map<string, int>

  function ClearDedup(m: DedupMap, id: string): DedupMap {
    map k | k in m && !(id + "::" <= k) :: m[k]
  }

  function ResetLive(l: Live, id: string): Live {
    l.(cached := l.cached - {id}, pending := l.pending - {id}, counts := l.counts - {id})
  }

  const TURNID_TTL_MS: int := 60000
  const CROSS_PATH_TTL_MS: int := 5000
  const CROSS_PATH_INFLIGHT_TTL_MS: int := 60000

  /** The hash of a turn's two sides. */
  type ContentHash = (string, string) -> string

  /** What tells one outbound message from another: its id or, without one, the
      next number of the process. */
  function Discriminator(hash: ContentHash, number: nat, messageId: string, user: string, assistant: string): string {
    if messageId != [] then "msg::" + messageId else "seq::" + Digits(number) + "::" + hash(user, assistant)
  }

  function NextNumber(n: nat): nat {
    (n + 1) % 0x1_0000_0000
  }

  /** Different messages are told apart: by their ids; an id from any number; and two
      messages without ids by their numbers. */
  lemma DiscriminatorsDiffer(hash: ContentHash, m: nat, n: nat, a: string, b: string, u: string, v: string, x: string,
                             y: string)
    ensures a != [] && b != [] && a != b ==> Discriminator(hash, m, a, u, v) != Discriminator(hash, n, b, x, y)
    ensures a != [] && b == [] ==> Discriminator(hash, m, a, u, v) != Discriminator(hash, n, b, x, y)
    ensures a == b == [] && m != n ==> Discriminator(hash, m, a, u, v) != Discriminator(hash, n, b, x, y)
  {
    assert ("msg::" + a)[5..] == a && ("msg::" + b)[5..] == b;
    assert ("msg::" + a)[0] == 'm';
    if a == b == [] && m != n { NumbersDiffer(m, n, hash(u, v), hash(x, y)); }
  }

  lemma NumbersDiffer(m: nat, n: nat, h: string, k: string)
    requires m != n
    ensures "seq::" + Digits(m) + "::" + h != "seq::" + Digits(n) + "::" + k
  {
    DecimalDigits(m);
    DecimalDigits(n);
    var p, q := "seq::" + Digits(m) + "::" + h, "seq::" + Digits(n) + "::" + k;
    var a, b := Digits(m), Digits(n);
    assert p[5..] == a + ("::" + h) && q[5..] == b + ("::" + k);
    WordLenOf(a, "::" + h);
    WordLenOf(b, "::" + k);
    assert p[5..][..|a|] == a && q[5..][..|b|] == b;
  }

  /** The number only comes round again after 2^32 messages. */
  lemma NumbersAdvance(n: nat)
    requires n < 0x1_0000_0000
    ensures NextNumber(n) == if n == 4294967295 then 0 else n + 1
  {
  }

  /** The reservation of one outbound message. */
  function InflightKey(sessionId: string, id: string): string {
    DedupKey(sessionId, "w4b-inflight::" + id)
  }

  lemma InflightKeyInjective(sessionId: string, a: string, b: string)
    requires InflightKey(sessionId, a) == InflightKey(sessionId, b)
    ensures a == b
  {
    var p := sessionId + "::" + "w4b-inflight::";
    assert InflightKey(sessionId, a) == p + a && InflightKey(sessionId, b) == p + b;
    assert (p + a)[|p|..] == a && (p + b)[|p|..] == b;
  }

  /** Under which the batch writer, or the incremental one, announces a turn. */
  function OriginKey(sessionId: string, hash: ContentHash, batch: bool, user: string, assistant: string): string {
    DedupKey(sessionId, (if batch then "w4a-content::" else "w4b-content::") + hash(user, assistant))
  }

  lemma OriginsDiffer(sessionId: string, hash: ContentHash, u: string, v: string, x: string, y: string)
    ensures OriginKey(sessionId, hash, true, u, v) != OriginKey(sessionId, hash, false, x, y)
  {
    var a, b := OriginKey(sessionId, hash, true, u, v), OriginKey(sessionId, hash, false, x, y);
    assert a[|sessionId| + 4] == 'a' && b[|sessionId| + 4] == 'b';
  }

  function Unexpired(m: DedupMap, now: int, ttl: int): DedupMap {
    map k | k in m && now - m[k] <= ttl :: m[k]
  }

  function StillReserved(seen: set<string>, sessionId: string, m: DedupMap, now: int): set<string> {
    set id | id in seen && InflightKey(sessionId, id) in Unexpired(m, now, TURNID_TTL_MS)
  }

  class Writer {
    var cachedWatermarks: map<string, int>
    var debounceTimers: map<string, Timer>
    var w4bSessionCounts: map<string, int>
    var externalTurnMarkers: Markers
    var pendingUserMessages: map<string, seq<string>>
    var recentTurnIds: DedupMap
    var crossPathStamps: DedupMap
    var crossPathInflight: DedupMap
    var w4bInflightSeq: nat
    var watermarkFilePath: string
    var files: Files

    ghost function LiveState(): Live
      reads this
    {
      Live(cachedWatermarks, debounceTimers, w4bSessionCounts, externalTurnMarkers)
    }

    ghost function View(): Durable
      reads this
    {
      Durable(LiveState(), FileAt(files, watermarkFilePath))
    }

    ghost function Whole(): Store
      reads this
    {
      Store(LiveState(), watermarkFilePath, files)
    }

    /** Starts from the file, entry by entry: legacy numbers, objects with
        missing fields and foreign values are all accepted. */
    constructor (files: Files, path: string)
      ensures this.files == files && watermarkFilePath == path
      ensures LiveState() == Load(FileAt(files, path))
      ensures pendingUserMessages == map[] && recentTurnIds == map[] && crossPathStamps == map[]
              && crossPathInflight == map[]
      ensures w4bInflightSeq == 0
    {
      w4bInflightSeq := 0;
      this.files := files;
      watermarkFilePath := path;
      cachedWatermarks, debounceTimers, w4bSessionCounts, externalTurnMarkers := map[], map[], map[], map[];
      pendingUserMessages, recentTurnIds, crossPathStamps, crossPathInflight := map[], map[], map[], map[];
      new;
      hide EntryW, EntryB, EntryM;
      var data := FileAt(files, path);
      var keys := data.Keys;
      ghost var done: set<string> := {};
      LoadNone(data);
      while keys != {}
        invariant this.files == files && watermarkFilePath == path && w4bInflightSeq == 0
        invariant done !! keys && done + keys == data.Keys
        invariant LiveState() == Load(Part(data, done))
        invariant pendingUserMessages == map[] && recentTurnIds == map[] && crossPathStamps == map[]
                  && crossPathInflight == map[]
      {
        var key :| key in keys;
        LoadMore(data, done, key);
        LoadEntry(key, data[key]);
        keys := keys - {key};
        done := done + {key};
      }
      assert Part(data, done) == data;
    }

    method LoadEntry(key: string, e: RawEntry)
      modifies this`cachedWatermarks, this`w4bSessionCounts, this`externalTurnMarkers
      ensures cachedWatermarks ==
              if e.Legacy? || (e.Object? && e.w.Some?) then old(cachedWatermarks)[key := EntryW(e)]
              else old(cachedWatermarks)
      ensures w4bSessionCounts ==
              if e.Object? && e.b.Some? then old(w4bSessionCounts)[key := EntryB(e)] else old(w4bSessionCounts)
      ensures externalTurnMarkers ==
              if EntryM(e) != map[] then old(externalTurnMarkers)[key := EntryM(e)] else old(externalTurnMarkers)
    {
      hide PositiveOnly;
      match e {
        case Legacy(n) => cachedWatermarks := cachedWatermarks[key := n];
        case Object(w, b, m) =>
          if w.Some? { cachedWatermarks := cachedWatermarks[key := w.value]; }
          if b.Some? { w4bSessionCounts := w4bSessionCounts[key := b.value]; }
          if m.Some? && PositiveOnly(m.value) != map[] {
            externalTurnMarkers := externalTurnMarkers[key := PositiveOnly(m.value)];
          }
        case Junk =>
      }
    }

    ghost function Queue(sessionId: string): seq<string>
      reads this`pendingUserMessages
    {
      if sessionId in pendingUserMessages then pendingUserMessages[sessionId] else []
    }

    /** The queue and the reservations of one session are those of a conversation. */
    ghost predicate Mirrors(sessionId: string, c: Pairing.Conversation)
      reads this`pendingUserMessages, this`recentTurnIds
    {
      && c.queue == Queue(sessionId)
      && forall id :: id in c.seen <==> InflightKey(sessionId, id) in recentTurnIds
    }

    /** Queues an inbound text; an empty one is dropped. */
    method OnMessageReceived(sessionId: string, text: string)
      modifies this`pendingUserMessages
      ensures forall c :: old(Mirrors(sessionId, c)) ==> Mirrors(sessionId, Pairing.OnReceived(c, text))
      ensures pendingUserMessages - {sessionId} == old(pendingUserMessages) - {sessionId}
    {
      if text == [] { return; }
      var queue := if sessionId in pendingUserMessages then pendingUserMessages[sessionId] else [];
      pendingUserMessages := pendingUserMessages[sessionId := queue + [text]];
    }

    static method Evict(m: DedupMap, now: int, ttl: int) returns (r: DedupMap)
      ensures r == Unexpired(m, now, ttl)
    {
      r := m;
      var keys := m.Keys;
      ghost var done: set<string> := {};
      while keys != {}
        invariant done !! keys && done + keys == m.Keys
        invariant r == map k | k in m && (k in keys || now - m[k] <= ttl) :: m[k]
      {
        var k :| k in keys;
        if now - r[k] > ttl { r := r - {k}; }
        keys := keys - {k};
        done := done + {k};
      }
      assert r == Unexpired(m, now, ttl);
    }

    /** Evicts what has expired, then reserves the key unless it is still taken. */
    method MarkTurnIdSeen(key: string, now: int) returns (seen: bool)
      modifies this`recentTurnIds
      ensures seen <==> key in old(recentTurnIds) && now - old(recentTurnIds)[key] <= 60000
      ensures recentTurnIds == if seen then Unexpired(old(recentTurnIds), now, TURNID_TTL_MS)
                               else Unexpired(old(recentTurnIds), now, TURNID_TTL_MS)[key := now]
    {
      recentTurnIds := Evict(recentTurnIds, now, TURNID_TTL_MS);
      seen := key in recentTurnIds;
      if !seen { recentTurnIds := recentTurnIds[key := now]; }
    }

    /** Whether the entry is there and fresh; a stale one is dropped. */
    static method Peek(m: DedupMap, key: string, now: int, ttl: int) returns (hit: bool, r: DedupMap)
      ensures hit <==> key in Unexpired(m, now, ttl)
      ensures r == if hit then m else m - {key}
    {
      hit := key in m && now - m[key] <= ttl;
      r := if hit then m else m - {key};
    }

    /** The batch writer has stored the turn, or is about to: a stamp is used up. */
    method OwnedByBatch(key: string, now: int) returns (owned: bool)
      modifies this`crossPathStamps, this`crossPathInflight
      ensures owned <==> || (key in old(crossPathStamps) && now - old(crossPathStamps)[key] <= 5000)
                         || (key in old(crossPathInflight) && now - old(crossPathInflight)[key] <= 60000)
      ensures crossPathStamps == old(crossPathStamps) - {key}
      ensures crossPathInflight == if owned then old(crossPathInflight) else old(crossPathInflight) - {key}
    {
      owned, crossPathStamps := Peek(crossPathStamps, key, now, CROSS_PATH_TTL_MS);
      if owned {
        crossPathStamps := crossPathStamps - {key};
      } else {
        owned, crossPathInflight := Peek(crossPathInflight, key, now, CROSS_PATH_INFLIGHT_TTL_MS);
      }
    }

    /** What an outbound message makes of a conversation: nothing new when a failed
        send, no text or no waiting inbound; an emptied queue when the batch writer
        owns the turn; else the machine's step, after the eviction of reservations. */
    ghost function AfterSent(strip: string -> string, hash: ContentHash, sessionId: string, c: Pairing.Conversation,
                             text: string, success: bool, messageId: string, now: int): Pairing.Conversation
      reads this
    {
      var user, assistant := Join(c.queue, "\n"), strip(text);
      if !success || assistant == [] || c.queue == [] then Pairing.OnSent(strip, c, text, success, messageId)
      else if Owned(OriginKey(sessionId, hash, true, user, assistant), now) then c.(queue := [])
      else
        Pairing.OnSent(strip, Pairing.OnExpired(c, StillReserved(c.seen, sessionId, recentTurnIds, now)), text, success,
                       Discriminator(hash, NextNumber(w4bInflightSeq), messageId, user, assistant))
    }

    ghost predicate Owned(key: string, now: int)
      reads this
    {
      || key in Unexpired(crossPathStamps, now, CROSS_PATH_TTL_MS)
      || key in Unexpired(crossPathInflight, now, CROSS_PATH_INFLIGHT_TTL_MS)
    }

    /** An outbound message: drops the queue of a failed send, skips one without
        text or without a waiting inbound, leaves to the batch writer what is its
        own, and otherwise hands one turn to the daemon unless the same delivery is
        already in flight. */
    method OnMessageSent(strip: string -> string, hash: ContentHash, sessionId: string, text: string, success: bool,
                         messageId: string, now: int)
      returns (job: Option<Pairing.Job>)
      modifies this`pendingUserMessages, this`recentTurnIds, this`crossPathStamps, this`crossPathInflight,
               this`w4bInflightSeq
      ensures forall c :: old(Mirrors(sessionId, c)) ==>
                var c' := old(AfterSent(strip, hash, sessionId, c, text, success, messageId, now));
                && Mirrors(sessionId, c')
                && c'.dispatched == c.dispatched + (if job.Some? then [job.value] else [])
                && c'.jobs == c.jobs + (if job.Some? then [job.value] else [])
      ensures job.Some? ==> OriginKey(sessionId, hash, false, job.value.user, job.value.assistant) in crossPathInflight
      ensures pendingUserMessages - {sessionId} == old(pendingUserMessages) - {sessionId}
    {
      hide OriginKey, Discriminator, Join;
      job := None;
      if !success {
        pendingUserMessages := pendingUserMessages - {sessionId};
        return;
      }
      var assistantText := strip(text);
      if assistantText == [] || sessionId !in pendingUserMessages || pendingUserMessages[sessionId] == [] { return; }
      var queuedItems := pendingUserMessages[sessionId];
      var userText := Join(queuedItems, "\n");
      pendingUserMessages := pendingUserMessages - {sessionId};
      var owned := OwnedByBatch(OriginKey(sessionId, hash, true, userText, assistantText), now);
      if owned { return; }
      ghost var id := Discriminator(hash, NextNumber(w4bInflightSeq), messageId, userText, assistantText);
      job := Reserve(hash, sessionId, queuedItems, userText, assistantText, messageId, now);
      forall x | InflightKey(sessionId, x) == InflightKey(sessionId, id) ensures x == id {
        InflightKeyInjective(sessionId, x, id);
      }
    }

    /** Reserves a turn for the daemon, unless the same delivery is in flight. */
    method Reserve(hash: ContentHash, sessionId: string, items: seq<string>, user: string, assistant: string,
                   messageId: string, now: int)
      returns (job: Option<Pairing.Job>)
      modifies this`recentTurnIds, this`crossPathInflight, this`w4bInflightSeq
      ensures var id := Discriminator(hash, NextNumber(old(w4bInflightSeq)), messageId, user, assistant);
              var key, kept := InflightKey(sessionId, id), Unexpired(old(recentTurnIds), now, TURNID_TTL_MS);
              && job == (if key in kept then None else Some(Pairing.Job(items, user, assistant, id)))
              && recentTurnIds == (if key in kept then kept else kept[key := now])
      ensures job.Some? ==> OriginKey(sessionId, hash, false, user, assistant) in crossPathInflight
    {
      job := None;
      var id := Discriminator(hash, NextNumber(w4bInflightSeq), messageId, user, assistant);
      if messageId == [] { w4bInflightSeq := NextNumber(w4bInflightSeq); }
      var seen := MarkTurnIdSeen(InflightKey(sessionId, id), now);
      if !seen {
        if messageId == [] { w4bInflightSeq := NextNumber(w4bInflightSeq); }
        crossPathInflight := Evict(crossPathInflight, now, CROSS_PATH_INFLIGHT_TTL_MS);
        crossPathInflight := crossPathInflight[OriginKey(sessionId, hash, false, user, assistant) := now];
        job := Some(Pairing.Job(items, user, assistant, id));
      }
    }

    /** The daemon has the turn: it is announced to the batch writer and counted. */
    method OnPersisted(hash: ContentHash, sessionId: string, job: Pairing.Job, now: int, ok: bool)
      modifies this`crossPathStamps, this`crossPathInflight, this`w4bSessionCounts, this`debounceTimers,
               this`cachedWatermarks, this`files
      ensures View() == if job.user == [] then old(View()) else Apply(old(View()), CountOp(sessionId, ok))
      ensures var key := OriginKey(sessionId, hash, false, job.user, job.assistant);
              && crossPathStamps == Unexpired(old(crossPathStamps), now, CROSS_PATH_TTL_MS)[key := now]
              && crossPathInflight == old(crossPathInflight) - {key}
      ensures files - {watermarkFilePath} == old(files) - {watermarkFilePath}
    {
      var key := OriginKey(sessionId, hash, false, job.user, job.assistant);
      crossPathStamps := Evict(crossPathStamps, now, CROSS_PATH_TTL_MS);
      crossPathStamps := crossPathStamps[key := now];
      if job.user != [] { CountW4bTurn(sessionId, ok); }
      crossPathInflight := crossPathInflight - {key};
    }

    /** The daemon refused the turn: its inbound texts go back to the front of the
        queue and its reservations are released. */
    method OnPersistFailed(hash: ContentHash, sessionId: string, job: Pairing.Job)
      modifies this`pendingUserMessages, this`recentTurnIds, this`crossPathInflight
      ensures forall c, i: nat :: old(Mirrors(sessionId, c)) && i < |c.jobs| && c.jobs[i] == job ==>
                Mirrors(sessionId, Pairing.OnPersistFailed(c, i))
      ensures pendingUserMessages - {sessionId} == old(pendingUserMessages) - {sessionId}
      ensures crossPathInflight == old(crossPathInflight) - {OriginKey(sessionId, hash, false, job.user, job.assistant)}
    {
      var restored := if sessionId in pendingUserMessages then pendingUserMessages[sessionId] else [];
      pendingUserMessages := pendingUserMessages[sessionId := job.items + restored];
      recentTurnIds := recentTurnIds - {InflightKey(sessionId, job.messageId)};
      forall id | InflightKey(sessionId, id) == InflightKey(sessionId, job.messageId) ensures id == job.messageId {
        InflightKeyInjective(sessionId, id, job.messageId);
      }
      crossPathInflight := crossPathInflight - {OriginKey(sessionId, hash, false, job.user, job.assistant)};
    }

    method SaveWatermark(sessionId: string, index: int)
      modifies this`debounceTimers
      ensures View() == Durable(Save(old(LiveState()), sessionId, index), old(View()).disk)
    {
      debounceTimers := debounceTimers[sessionId := Timer(index, 0)];
    }

    /** Advances only: a lower or equal index changes nothing. */
    method BumpWatermark(sessionId: string, pairIndex: int)
      modifies this`debounceTimers
      ensures View() == Apply(old(View()), BumpOp(sessionId, pairIndex))
    {
      var currentIndex := if sessionId in debounceTimers then debounceTimers[sessionId].index
                          else Get(cachedWatermarks, sessionId, -1);
      if pairIndex > currentIndex {
        SaveWatermark(sessionId, pairIndex);
      }
    }

    method ApplyPendingWatermarks(only: Option<string>) returns (applied: bool)
      modifies this`debounceTimers, this`cachedWatermarks
      ensures View().disk == old(View()).disk
      ensures only.Some? ==> LiveState() == ApplyPending(old(LiveState()), only.value)
      ensures only.None? ==> LiveState() == ApplyAllPending(old(LiveState()))
      ensures only.None? ==> (applied <==> old(debounceTimers) != map[])
    {
      hide Taken, ApplyPending, ApplyAllPending;
      applied := false;
      ghost var before := LiveState();
      TakenNone(before);
      var entries := debounceTimers.Keys;
      ghost var taken: set<string> := {};
      while entries != {}
        invariant entries <= before.pending.Keys && taken <= before.pending.Keys - entries
        invariant forall k :: k in before.pending.Keys - entries && (only.None? || k == only.value) ==> k in taken
        invariant forall k :: k in taken ==> only.None? || k == only.value
        invariant LiveState() == Taken(before, taken)
        invariant applied <==> taken != {}
      {
        var key :| key in entries;
        entries := entries - {key};
        if only.Some? && key != only.value { continue; }
        TakenMore(before, taken, key);
        taken := taken + {key};
        cachedWatermarks := cachedWatermarks[key := debounceTimers[key].index];
        debounceTimers := debounceTimers - {key};
        applied := true;
      }
      TakenIsApplied(before, taken, only);
    }

    /** Builds the file entry by entry and replaces it whole, or not at all. */
    method WriteWatermarkFile(target: string, wm: map<string, int>, bc: map<string, int>, markersByKey: Markers,
                              ok: bool)
      returns (wrote: bool)
      modifies this`files
      ensures wrote == ok
      ensures files == if ok then old(files)[target := Parsed(Serialize(wm, bc, markersByKey))] else old(files)
    {
      var data: File := map[];
      var allKeys := wm.Keys + bc.Keys + markersByKey.Keys;
      ghost var done: set<string> := {};
      while allKeys != {}
        invariant done !! allKeys && done + allKeys == wm.Keys + bc.Keys + markersByKey.Keys
        invariant data == map k | k in done :: Serialize(wm, bc, markersByKey)[k]
      {
        var key :| key in allKeys;
        var m := if key in markersByKey && markersByKey[key] != map[] then Some(markersByKey[key]) else None;
        data := data[key := Object(Some(Get(wm, key, -1)), Some(Get(bc, key, 0)), m)];
        allKeys := allKeys - {key};
        done := done + {key};
      }
      assert data == Serialize(wm, bc, markersByKey);
      if ok { files := files[target := Parsed(data)]; }
      wrote := ok;
    }

    method SnapshotWatermarksForWrite() returns (wm: map<string, int>)
      ensures wm == SnapshotWatermarks(LiveState())
    {
      wm := cachedWatermarks;
      var entries := debounceTimers.Keys;
      ghost var done: set<string> := {};
      while entries != {}
        invariant done !! entries && done + entries == debounceTimers.Keys
        invariant wm == cachedWatermarks + map k | k in done :: debounceTimers[k].index
      {
        var key :| key in entries;
        wm := wm[key := debounceTimers[key].index];
        entries := entries - {key};
        done := done + {key};
      }
      assert done == debounceTimers.Keys;
    }

    /** An ordinary write: every pending index of every session goes with it. */
    method WriteCurrent(ok: bool) returns (wrote: bool)
      modifies this`files
      ensures wrote == ok
      ensures View() == Write(old(View()), ok)
      ensures files - {watermarkFilePath} == old(files) - {watermarkFilePath}
    {
      var wm := SnapshotWatermarksForWrite();
      wrote := WriteWatermarkFile(watermarkFilePath, wm, w4bSessionCounts, externalTurnMarkers, ok);
    }

    method CommitWatermarkStateSync(sessionId: string, ok: bool) returns (wrote: bool)
      modifies this`debounceTimers, this`cachedWatermarks, this`files
      ensures wrote == ok
      ensures View() == Commit(old(View()), sessionId, ok)
      ensures files - {watermarkFilePath} == old(files) - {watermarkFilePath}
    {
      var _ := ApplyPendingWatermarks(Some(sessionId));
      wrote := WriteCurrent(ok);
    }

    method FlushNow(ok: bool)
      modifies this`debounceTimers, this`cachedWatermarks, this`files
      ensures View() == Apply(old(View()), FlushOp(ok))
      ensures files - {watermarkFilePath} == old(files) - {watermarkFilePath}
    {
      var applied := ApplyPendingWatermarks(None);
      if applied {
        var _ := WriteCurrent(ok);
      } else {
        assert SnapshotWatermarks(old(LiveState())) == old(cachedWatermarks);
      }
    }

    method ScheduleWatermarkFlush(sessionId: string, attempts: nat)
      modifies this`debounceTimers
      ensures View() == Durable(ScheduleFlush(old(LiveState()), sessionId, attempts), old(View()).disk)
    {
      var index := if sessionId in debounceTimers then debounceTimers[sessionId].index
                   else Get(cachedWatermarks, sessionId, -1);
      debounceTimers := debounceTimers[sessionId := Timer(index, attempts)];
    }

    /** A debounce timer runs out. */
    method OnTimer(sessionId: string, ok: bool)
      requires sessionId in debounceTimers
      modifies this`debounceTimers, this`cachedWatermarks, this`files
      ensures View() == Apply(old(View()), TimerOp(sessionId, ok))
      ensures files - {watermarkFilePath} == old(files) - {watermarkFilePath}
    {
      var timer := debounceTimers[sessionId];
      debounceTimers := debounceTimers - {sessionId};
      cachedWatermarks := cachedWatermarks[sessionId := timer.index];
      var wrote := WriteCurrent(ok);
      if !wrote && timer.attempts > 1 {
        ScheduleWatermarkFlush(sessionId, timer.attempts - 1);
      }
    }

    /** A pair the direct channel stored: commit the advance or undo it. */
    method ConsumeExternalMarker(sessionId: string, pairIndex: int, ok: bool) returns (consumed: bool)
      modifies this`debounceTimers, this`cachedWatermarks, this`files
      ensures consumed == ok
      ensures View() == Apply(old(View()), ConsumeOp(sessionId, pairIndex, ok))
      ensures files - {watermarkFilePath} == old(files) - {watermarkFilePath}
    {
      var cachedIndex := if sessionId in cachedWatermarks then Some(cachedWatermarks[sessionId]) else None;
      var pendingIndex := if sessionId in debounceTimers then Some(debounceTimers[sessionId].index) else None;
      BumpWatermark(sessionId, pairIndex);
      consumed := CommitWatermarkStateSync(sessionId, ok);
      if !consumed {
        debounceTimers := debounceTimers - {sessionId};
        if cachedIndex.Some? {
          cachedWatermarks := cachedWatermarks[sessionId := cachedIndex.value];
        } else {
          cachedWatermarks := cachedWatermarks - {sessionId};
        }
        if pendingIndex.Some? { SaveWatermark(sessionId, pendingIndex.value); }
      }
    }

    method MarkExternalTurnPersisted(key: string, m: Marker, ok: bool) returns (marked: bool)
      modifies this`externalTurnMarkers, this`debounceTimers, this`cachedWatermarks, this`files
      ensures marked == ok
      ensures View() == Apply(old(View()), MarkOp(key, m, ok))
      ensures files - {watermarkFilePath} == old(files) - {watermarkFilePath}
    {
      var bucket := if key in externalTurnMarkers then externalTurnMarkers[key] else map[];
      var previous := if m in bucket then bucket[m] else 0;
      externalTurnMarkers := externalTurnMarkers[key := bucket[m := Max(previous, 1)]];
      marked := CommitWatermarkStateSync(key, ok);
      if !marked {
        bucket := externalTurnMarkers[key];
        if previous > 0 {
          externalTurnMarkers := externalTurnMarkers[key := bucket[m := previous]];
        } else if bucket - {m} == map[] {
          externalTurnMarkers := externalTurnMarkers - {key};
        } else {
          externalTurnMarkers := externalTurnMarkers[key := bucket - {m}];
        }
      }
    }

    method CountW4bTurn(sessionId: string, ok: bool)
      modifies this`w4bSessionCounts, this`debounceTimers, this`cachedWatermarks, this`files
      ensures View() == Apply(old(View()), CountOp(sessionId, ok))
      ensures files - {watermarkFilePath} == old(files) - {watermarkFilePath}
    {
      w4bSessionCounts := w4bSessionCounts[sessionId := Get(w4bSessionCounts, sessionId, 0) + 1];
      var wrote := CommitWatermarkStateSync(sessionId, ok);
      if !wrote { ScheduleWatermarkFlush(sessionId, 3); }
    }

    /** Drops the entries of one session, found by their prefix. */
    static method ClearSession(m: DedupMap, sessionId: string) returns (r: DedupMap)
      ensures r == ClearDedup(m, sessionId)
    {
      var prefix := sessionId + "::";
      r := m;
      var keys := m.Keys;
      ghost var done: set<string> := {};
      while keys != {}
        invariant done !! keys && done + keys == m.Keys
        invariant r == map k | k in m && !(k in done && prefix <= k) :: m[k]
      {
        var k :| k in keys;
        if prefix <= k { r := r - {k}; }
        keys := keys - {k};
        done := done + {k};
      }
      assert done == m.Keys;
    }

    method ClearSessionTurnIds(sessionId: string)
      modifies this`recentTurnIds, this`crossPathStamps, this`crossPathInflight
      ensures recentTurnIds == ClearDedup(old(recentTurnIds), sessionId)
      ensures crossPathStamps == ClearDedup(old(crossPathStamps), sessionId)
      ensures crossPathInflight == ClearDedup(old(crossPathInflight), sessionId)
    {
      recentTurnIds := ClearSession(recentTurnIds, sessionId);
      crossPathStamps := ClearSession(crossPathStamps, sessionId);
      crossPathInflight := ClearSession(crossPathInflight, sessionId);
    }

    /** Raises every entry of `a` to at least the value `b` has for it. */
    static method RaiseTo(a: map<string, int>, b: map<string, int>, default: int) returns (r: map<string, int>)
      ensures r == MergeMax(a, b, default)
    {
      r := a;
      var keys := b.Keys;
      ghost var done: set<string> := {};
      while keys != {}
        invariant done !! keys && done + keys == b.Keys
        invariant r == MergeMax(a, map k | k in done :: b[k], default)
      {
        var key :| key in keys;
        r := r[key := Max(Get(r, key, default), b[key])];
        keys := keys - {key};
        done := done + {key};
      }
      assert (map k | k in done :: b[k]) == b;
    }

    static method MergeOneBucket(a: Bucket, b: Bucket) returns (r: Bucket)
      requires (forall m :: m in a ==> a[m] > 0) && (forall m :: m in b ==> b[m] > 0)
      ensures r == MergeBucket(a, b)
    {
      hide MergeBucket;
      r := a;
      var markers := b.Keys;
      ghost var done: set<Marker> := {};
      MergeBucketNone(a);
      while markers != {}
        invariant done !! markers && done + markers == b.Keys
        invariant r == MergeBucket(a, map m | m in done :: b[m])
      {
        var marker :| marker in markers;
        MergeBucketMore(a, b, done, marker);
        r := r[marker := Max(if marker in r then r[marker] else 0, b[marker])];
        markers := markers - {marker};
        done := done + {marker};
      }
      assert (map m | m in done :: b[m]) == b;
    }

    static method MergeAllMarkers(a: Markers, b: Markers) returns (r: Markers)
      requires CleanMarkers(a) && CleanMarkers(b)
      ensures r == MergeMarkers(a, b)
    {
      r := a;
      var keys := b.Keys;
      ghost var done: set<string> := {};
      MergeMarkersNone(a, b);
      while keys != {}
        invariant done !! keys && done + keys == b.Keys
        invariant r == MergeMarkers(a, Only(b, done))
      {
        var key :| key in keys;
        var bucket := MergeOneBucket(if key in a then a[key] else map[], b[key]);
        MergeMarkersMore(a, b, done, key);
        r := r[key := bucket];
        keys := keys - {key};
        done := done + {key};
      }
      assert Only(b, done) == b;
    }

    method WriteJoined(target: string, existed: bool, dest: File, w: Writes)
      requires target != watermarkFilePath
      modifies this`files, this`watermarkFilePath
      ensures Whole() == FinishMove(old(Whole()), target, existed, dest, w)
    {
      hide Serialize, FileWm, FileBc, FileMarkers, SnapshotWatermarks;
      var finalWm := SnapshotWatermarksForWrite();
      var wrote := WriteWatermarkFile(target, finalWm, w4bSessionCounts, externalTurnMarkers, w.final);
      if wrote {
        watermarkFilePath := target;
      } else {
        var _ := WriteWatermarkFile(watermarkFilePath, finalWm, w4bSessionCounts, externalTurnMarkers, w.fallback);
        if existed {
          var _ := WriteWatermarkFile(target, FileWm(dest), FileBc(dest), FileMarkers(dest), w.repair);
        } else if w.repair {
          files := files - {target};
        }
      }
    }

    /** Moves to a new state directory; nothing here yields to other work. */
    method ChangeStateDir(target: string, w: Writes)
      requires CleanMarkers(externalTurnMarkers)
      modifies this`cachedWatermarks, this`w4bSessionCounts, this`externalTurnMarkers, this`files,
               this`watermarkFilePath
      ensures Whole() == SetStateDir(old(Whole()), target, w)
      ensures !w.merged ==> Whole() == old(Whole())
    {
      hide MergeMax, MergeMarkers, Serialize, FileWm, FileBc, FileMarkers, SnapshotWatermarks, CleanMarkers;
      if target == watermarkFilePath { return; }
      var existed := target in files;
      var dest := FileAt(files, target);
      FileMarkersClean(dest);
      var mergedWm := RaiseTo(cachedWatermarks, FileWm(dest), -1);
      var mergedBc := RaiseTo(w4bSessionCounts, FileBc(dest), 0);
      var mergedMarkers := MergeAllMarkers(externalTurnMarkers, FileMarkers(dest));
      var wrote := WriteWatermarkFile(target, mergedWm, mergedBc, mergedMarkers, w.merged);
      if !wrote { return; }
      MergeAgain(cachedWatermarks, FileWm(dest), -1);
      MergeAgain(w4bSessionCounts, FileBc(dest), 0);
      cachedWatermarks := RaiseTo(cachedWatermarks, mergedWm, -1);
      w4bSessionCounts := RaiseTo(w4bSessionCounts, mergedBc, 0);
      externalTurnMarkers := mergedMarkers;
      assert LiveState() == JoinLive(old(LiveState()), dest);
      WriteJoined(target, existed, dest, w);
    }

    /** Reset: everything of one session goes, every external marker stays. */
    method ResetSessionState(sessionId: string, ok: bool)
      modifies this`cachedWatermarks, this`debounceTimers, this`w4bSessionCounts, this`pendingUserMessages
      modifies this`recentTurnIds, this`crossPathStamps, this`crossPathInflight, this`files
      ensures LiveState() == ResetLive(old(LiveState()), sessionId)
      ensures pendingUserMessages == old(pendingUserMessages) - {sessionId}
      ensures recentTurnIds == ClearDedup(old(recentTurnIds), sessionId)
      ensures crossPathStamps == ClearDedup(old(crossPathStamps), sessionId)
      ensures crossPathInflight == ClearDedup(old(crossPathInflight), sessionId)
      ensures View().disk == if ok then Saved(LiveState()) else old(View()).disk
      ensures files - {watermarkFilePath} == old(files) - {watermarkFilePath}
    {
      hide ClearDedup, Saved;
      cachedWatermarks := cachedWatermarks - {sessionId};
      debounceTimers := debounceTimers - {sessionId};
      pendingUserMessages := pendingUserMessages - {sessionId};
      ClearSessionTurnIds(sessionId);
      w4bSessionCounts := w4bSessionCounts - {sessionId};
      var _ := WriteCurrent(ok);
    }
  }

  function Part(f: File, keys: set<string>): File
    requires keys <= f.Keys
  {
    map k | k in keys :: f[k]
  }

  lemma LoadNone(f: File)
    ensures Load(Part(f, {})) == NO_STATE
  {
  }

  lemma LoadMoreIndices(f: File, done: set<string>, k: string)
    requires done <= f.Keys && k in f && k !in done
    ensures var l, l', e := Load(Part(f, done)), Load(Part(f, done + {k})), f[k];
            l'.cached == (if e.Legacy? || (e.Object? && e.w.Some?) then l.cached[k := EntryW(e)] else l.cached)
  {
    hide EntryW, EntryB, EntryM;
  }

  lemma LoadMoreCounts(f: File, done: set<string>, k: string)
    requires done <= f.Keys && k in f && k !in done
    ensures var l, l', e := Load(Part(f, done)), Load(Part(f, done + {k})), f[k];
            l'.counts == (if e.Object? && e.b.Some? then l.counts[k := EntryB(e)] else l.counts)
  {
    hide EntryW, EntryB, EntryM;
  }

  lemma LoadMoreMarkers(f: File, done: set<string>, k: string)
    requires done <= f.Keys && k in f && k !in done
    ensures var l, l', e := Load(Part(f, done)), Load(Part(f, done + {k})), f[k];
            l'.markers == (if EntryM(e) != map[] then l.markers[k := EntryM(e)] else l.markers)
  {
    hide EntryW, EntryB, EntryM;
  }

  /** Reading one more entry of a file. */
  lemma LoadMore(f: File, done: set<string>, k: string)
    requires done <= f.Keys && k in f && k !in done
    ensures var l, l', e := Load(Part(f, done)), Load(Part(f, done + {k})), f[k];
            && l'.pending == map[]
            && l'.cached == (if e.Legacy? || (e.Object? && e.w.Some?) then l.cached[k := EntryW(e)] else l.cached)
            && l'.counts == (if e.Object? && e.b.Some? then l.counts[k := EntryB(e)] else l.counts)
            && l'.markers == (if EntryM(e) != map[] then l.markers[k := EntryM(e)] else l.markers)
  {
    hide EntryW, EntryB, EntryM, Load, Part;
    LoadMoreIndices(f, done, k);
    LoadMoreCounts(f, done, k);
    LoadMoreMarkers(f, done, k);
    LoadHasNoPending(Part(f, done + {k}));
  }

  function Only(b: Markers, keys: set<string>): Markers
    requires keys <= b.Keys
  {
    map k | k in keys :: b[k]
  }

  lemma MergeBucketNone(a: Bucket)
    ensures MergeBucket(a, map[]) == a
  {
  }

  lemma MergeBucketMore(a: Bucket, b: Bucket, done: set<Marker>, m: Marker)
    requires done <= b.Keys && m in b && m !in done && b[m] > 0
    ensures var r := MergeBucket(a, map x | x in done :: b[x]);
            MergeBucket(a, map x | x in done + {m} :: b[x]) == r[m := Max(if m in r then r[m] else 0, b[m])]
  {
  }

  lemma MergeMarkersNone(a: Markers, b: Markers)
    ensures MergeMarkers(a, Only(b, {})) == a
  {
    forall k | k in a ensures MergeBucket(a[k], map[]) == a[k] {}
  }

  lemma MergeMarkersMore(a: Markers, b: Markers, done: set<string>, k: string)
    requires done <= b.Keys && k in b && k !in done
    ensures MergeMarkers(a, Only(b, done + {k})) ==
            MergeMarkers(a, Only(b, done))[k := MergeBucket(BucketOf(a, k), b[k])]
  {
    hide MergeBucket;
  }

  lemma MergeAgain(a: map<string, int>, b: map<string, int>, default: int)
    ensures MergeMax(a, MergeMax(a, b, default), default) == MergeMax(a, b, default)
  {
  }

  /** The state once the pending entries in `keys` have been applied. */
  function Taken(l: Live, keys: set<string>): Live
    requires keys <= l.pending.Keys
  {
    l.(pending := l.pending - keys, cached := l.cached + map k | k in keys :: l.pending[k].index)
  }

  lemma TakenNone(l: Live)
    ensures Taken(l, {}) == l
  {
    assert l.pending - {} == l.pending;
    assert Taken(l, {}).cached == l.cached;
  }

  lemma TakenMore(l: Live, keys: set<string>, k: string)
    requires keys <= l.pending.Keys && k in l.pending && k !in keys
    ensures var t := Taken(l, keys);
            k in t.pending && Taken(l, keys + {k}) ==
                t.(pending := t.pending - {k}, cached := t.cached[k := t.pending[k].index])
  {
    var t, t' := Taken(l, keys), Taken(l, keys + {k});
    assert t'.pending == t.pending - {k};
    assert t'.cached == t.cached[k := l.pending[k].index];
  }

  lemma TakenIsApplied(l: Live, keys: set<string>, only: Option<string>)
    requires keys <= l.pending.Keys
    requires forall k :: k in l.pending.Keys && (only.None? || k == only.value) ==> k in keys
    requires forall k :: k in keys ==> only.None? || k == only.value
    ensures only.None? ==> Taken(l, keys) == ApplyAllPending(l) && (keys == {} <==> l.pending == map[])
    ensures only.Some? ==> Taken(l, keys) == ApplyPending(l, only.value)
  {
    if only.None? {
      assert keys == l.pending.Keys;
      assert l.pending - keys == map[];
    } else if only.value in l.pending {
      assert keys == {only.value};
      assert l.cached + (map k | k in keys :: l.pending[k].index) ==
             l.cached[only.value := l.pending[only.value].index];
    } else {
      assert keys == {};
      assert l.pending - keys == l.pending;
      assert Taken(l, keys).cached == l.cached;
    }
  }

  lemma SameMarkersSaved(l: Live, l': Live, k: string)
    requires l'.markers == l.markers
    ensures DiskM(Saved(l'), k) == DiskM(Saved(l), k)
  {
    assert PositiveOnly(map[]) == map[];
  }

  /** Resetting one composed session returns it to its initial state and touches
      nothing of any other session. */
  lemma ResetTouchesOneSession(l: Live, queues: map<string, seq<string>>, dedup: DedupMap, f: Fields, g: Fields,
                               turnId: string)
    ensures var id := ComposeSessionId(f);
            var other := ComposeSessionId(g);
            var l' := ResetLive(l, id);
            && Effective(l', id) == Cached(l', id) == -1 && Count(l', id) == 0
            && DedupKey(id, turnId) !in ClearDedup(dedup, id)
            && l'.markers == l.markers && id !in queues - {id}
            && DiskW(Saved(l'), id) == -1 && DiskB(Saved(l'), id) == 0
            && DiskM(Saved(l'), id) == DiskM(Saved(l), id) && DiskM(Saved(l'), other) == DiskM(Saved(l), other)
            && (f != g ==>
                  && Cached(l', other) == Cached(l, other) && Effective(l', other) == Effective(l, other)
                  && Count(l', other) == Count(l, other)
                  && DiskW(Saved(l'), other) == Effective(l, other) && DiskB(Saved(l'), other) == Count(l, other)
                  && (other in queues <==> other in queues - {id})
                  && (other in queues ==> (queues - {id})[other] == queues[other])
                  && (DedupKey(other, turnId) in dedup <==> DedupKey(other, turnId) in ClearDedup(dedup, id)))
  {
    PrefixSelectsSession(f, f, turnId);
    PrefixSelectsSession(f, g, turnId);
    ParseCompose(f);
    var l' := ResetLive(l, ComposeSessionId(f));
    SavedValues(l', ComposeSessionId(f));
    SavedValues(l', ComposeSessionId(g));
    SameMarkersSaved(l, l', ComposeSessionId(f));
    SameMarkersSaved(l, l', ComposeSessionId(g));
  }
}
