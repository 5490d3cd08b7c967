/** The durable state of the chat-turn writer: cached and pending watermarks,
    W4b counts, external markers, and the file they are written to. */
module Watermarks {
  import opened Wrappers

  /** A content-bound marker; the hashes of the original are taken as injective. */
  datatype Marker = Marker(turnId: string, user: string, assistant: string)

  type Bucket = map<Marker, int>

  type Markers = map<string, Bucket>

  /** A value in the watermark file: the legacy number, an object with optional
      fields, or anything else. */
  datatype RawEntry =
    | Legacy(n: int)
    | Object(w: Option<int>, b: Option<int>, m: Option<Bucket>)
    | Junk

  type File = map<string, RawEntry>

  /** A debounce timer: the index it will commit, and the flush attempts it has
      (0 for a plain watermark save, which never retries). */
  datatype Timer = Timer(index: int, attempts: nat)

  datatype Live = Live(cached: map<string, int>, pending: map<string, Timer>, counts: map<string, int>,
                       markers: Markers)

  datatype Durable = Durable(live: Live, disk: File)

  const NO_STATE: Live := Live(map[], map[], map[], map[])

  function Get(m: map<string, int>, k: string, default: int): int {
    if k in m then m[k] else default
  }

  function Max(a: int, b: int): int {
    if a >= b then a else b
  }

  function Cached(l: Live, s: string): int { Get(l.cached, s, -1) }

  function Count(l: Live, s: string): int { Get(l.counts, s, 0) }

  /** The newest index of a session: pending if there is one, else cached. */
  function Effective(l: Live, s: string): int {
    if s in l.pending then l.pending[s].index else Cached(l, s)
  }

  /** Pairs up to this index need no sending: the cached watermark, or what the
      count of the incremental writer covers. */
  function SavedUpTo(l: Live, s: string): int {
    Max(Cached(l, s), Count(l, s) - 1)
  }

  function MarkerCount(markers: Markers, key: string, m: Marker): int {
    if key in markers && m in markers[key] then markers[key][m] else 0
  }

  /** Buckets are never empty and counts never below one. */
  ghost predicate CleanMarkers(markers: Markers) {
    forall k :: k in markers ==> markers[k] != map[] && forall m :: m in markers[k] ==> markers[k][m] > 0
  }

  // ----- The file -------------------------------------------------------------------

  function PositiveOnly(b: Bucket): Bucket {
    map m | m in b && b[m] > 0 :: b[m]
  }

  function EntryW(e: RawEntry): int {
    match e
    case Legacy(n) => n
    case Object(w, _, _) => w.GetOr(-1)
    case Junk => -1
  }

  function EntryB(e: RawEntry): int {
    match e
    case Object(_, b, _) => b.GetOr(0)
    case _ => 0
  }

  function EntryM(e: RawEntry): Bucket {
    match e
    case Object(_, _, Some(m)) => PositiveOnly(m)
    case _ => map[]
  }

  function DiskW(f: File, s: string): int { if s in f then EntryW(f[s]) else -1 }

  function DiskB(f: File, s: string): int { if s in f then EntryB(f[s]) else 0 }

  function DiskM(f: File, s: string): Bucket { if s in f then EntryM(f[s]) else map[] }

  function Serialize(wm: map<string, int>, bc: map<string, int>, markers: Markers): File {
    map k | k in wm.Keys + bc.Keys + markers.Keys ::
      Object(Some(Get(wm, k, -1)), Some(Get(bc, k, 0)),
             if k in markers && markers[k] != map[] then Some(markers[k]) else None)
  }

  /** Cached values with every pending index on top. */
  function SnapshotWatermarks(l: Live): map<string, int> {
    l.cached + map s | s in l.pending :: l.pending[s].index
  }

  function Saved(l: Live): File {
    Serialize(SnapshotWatermarks(l), l.counts, l.markers)
  }

  /** What a restarted process reads back. */
  function Load(f: File): Live {
    Live(map k | k in f && (f[k].Legacy? || (f[k].Object? && f[k].w.Some?)) :: EntryW(f[k]),
         map[],
         map k | k in f && f[k].Object? && f[k].b.Some? :: EntryB(f[k]),
         map k | k in f && EntryM(f[k]) != map[] :: EntryM(f[k]))
  }

  // ----- Operations -----------------------------------------------------------------

  function Save(l: Live, s: string, index: int): Live {
    l.(pending := l.pending[s := Timer(index, 0)])
  }

  function Bump(l: Live, s: string, index: int): Live {
    if index > Effective(l, s) then Save(l, s, index) else l
  }

  function ApplyPending(l: Live, s: string): Live {
    if s in l.pending then l.(cached := l.cached[s := l.pending[s].index], pending := l.pending - {s}) else l
  }

  function ApplyAllPending(l: Live): Live {
    l.(cached := SnapshotWatermarks(l), pending := map[])
  }

  /** A write either replaces the file whole or leaves it alone. */
  function Write(d: Durable, ok: bool): Durable {
    if ok then d.(disk := Saved(d.live)) else d
  }

  function Commit(d: Durable, s: string, ok: bool): Durable {
    Write(d.(live := ApplyPending(d.live, s)), ok)
  }

  function FlushSync(d: Durable, ok: bool): Durable {
    if d.live.pending == map[] then d else Write(d.(live := ApplyAllPending(d.live)), ok)
  }

  function ScheduleFlush(l: Live, s: string, attempts: nat): Live {
    l.(pending := l.pending[s := Timer(Effective(l, s), attempts)])
  }

  function TimerFires(d: Durable, s: string, ok: bool): Durable
    requires s in d.live.pending
  {
    var attempts := d.live.pending[s].attempts;
    var d1 := Commit(d, s, ok);
    if !ok && attempts > 1 then d1.(live := ScheduleFlush(d1.live, s, attempts - 1)) else d1
  }

  datatype Snapshot = Snapshot(cached: Option<int>, pending: Option<int>)

  function TakeSnapshot(l: Live, s: string): Snapshot {
    Snapshot(if s in l.cached then Some(l.cached[s]) else None,
             if s in l.pending then Some(l.pending[s].index) else None)
  }

  function Restore(l: Live, s: string, snap: Snapshot): Live {
    var l1 := l.(pending := l.pending - {s},
                 cached := if snap.cached.Some? then l.cached[s := snap.cached.value] else l.cached - {s});
    if snap.pending.Some? then Save(l1, s, snap.pending.value) else l1
  }

  /** A pair already stored by the direct channel: advance past it, but only if
      the advance reaches the file. */
  function ConsumeMarker(d: Durable, s: string, index: int, ok: bool): Durable {
    var d1 := Commit(d.(live := Bump(d.live, s, index)), s, ok);
    if ok then d1 else d1.(live := Restore(d1.live, s, TakeSnapshot(d.live, s)))
  }

  function SetMarker(markers: Markers, key: string, m: Marker, count: int): Markers {
    var bucket := if key in markers then markers[key] else map[];
    if count > 0 then markers[key := bucket[m := count]]
    else if key !in markers then markers
    else if bucket - {m} == map[] then markers - {key}
    else markers[key := bucket - {m}]
  }

  /** The direct channel records a stored turn, or leaves the markers as they were. */
  function MarkPersisted(d: Durable, key: string, m: Marker, ok: bool): Durable {
    var previous := MarkerCount(d.live.markers, key, m);
    var d1 := Commit(d.(live := d.live.(markers := SetMarker(d.live.markers, key, m, Max(previous, 1)))), key, ok);
    if ok then d1 else d1.(live := d1.live.(markers := SetMarker(d1.live.markers, key, m, previous)))
  }

  /** W4b counts a persisted turn; if the file cannot be written it retries later. */
  function CountTurn(d: Durable, s: string, ok: bool): Durable {
    var d1 := Commit(d.(live := d.live.(counts := d.live.counts[s := Count(d.live, s) + 1])), s, ok);
    if ok then d1 else d1.(live := ScheduleFlush(d1.live, s, 3))
  }

  function Restart(d: Durable): Durable {
    d.(live := Load(d.disk))
  }

  // ----- Facts about the file -----------------------------------------------------------

  lemma SavedValues(l: Live, s: string)
    ensures DiskW(Saved(l), s) == Effective(l, s)
    ensures DiskB(Saved(l), s) == Count(l, s)
  {
  }

  lemma SavedMarkers(l: Live, s: string)
    requires CleanMarkers(l.markers)
    ensures DiskM(Saved(l), s) == if s in l.markers then l.markers[s] else map[]
  {
    if s in l.markers {
      assert PositiveOnly(l.markers[s]) == l.markers[s];
    }
  }

  lemma LoadValues(f: File, s: string)
    ensures Cached(Load(f), s) == Effective(Load(f), s) == DiskW(f, s)
    ensures Count(Load(f), s) == DiskB(f, s)
    ensures (if s in Load(f).markers then Load(f).markers[s] else map[]) == DiskM(f, s)
  {
  }

  lemma LoadHasNoPending(f: File)
    ensures Load(f).pending == map[]
  {
  }

  lemma LoadIsClean(f: File)
    ensures CleanMarkers(Load(f).markers)
  {
  }

  /** Reading a written file back gives the live state, with the defaults -1 and
      0 filled in for absent keys. */
  lemma LoadSaved(l: Live, s: string)
    requires CleanMarkers(l.markers)
    ensures Cached(Load(Saved(l)), s) == Effective(l, s)
    ensures Count(Load(Saved(l)), s) == Count(l, s)
    ensures Load(Saved(l)).markers == l.markers
  {
    LoadValues(Saved(l), s);
    SavedValues(l, s);
    var m := Load(Saved(l)).markers;
    forall k ensures (k in m <==> k in l.markers) && (k in m ==> m[k] == l.markers[k]) {
      SavedMarkers(l, k);
    }
  }

  // ----- The durable invariant ------------------------------------------------------------

  /** Pending is never behind cached, and the file never ahead of the live state. */
  ghost predicate Ordered(d: Durable) {
    && (forall s :: s in d.live.pending ==> Cached(d.live, s) <= d.live.pending[s].index)
    && (forall s :: DiskW(d.disk, s) <= Effective(d.live, s))
    && (forall s :: DiskB(d.disk, s) <= Count(d.live, s))
  }

  /** The file was left alone, or now agrees with the live state on every session. */
  ghost predicate WroteFresh(d: Durable, d': Durable) {
    d'.disk == d.disk || d'.disk == Saved(d'.live)
  }

  datatype Op =
    | BumpOp(s: string, index: int)
    | TimerOp(s: string, ok: bool)
    | ConsumeOp(s: string, index: int, ok: bool)
    | MarkOp(key: string, m: Marker, ok: bool)
    | CountOp(s: string, ok: bool)
    | FlushOp(ok: bool)
    | RestartOp

  function Apply(d: Durable, op: Op): Durable {
    match op
    case BumpOp(s, index) => d.(live := Bump(d.live, s, index))
    case TimerOp(s, ok) => if s in d.live.pending then TimerFires(d, s, ok) else d
    case ConsumeOp(s, index, ok) => ConsumeMarker(d, s, index, ok)
    case MarkOp(key, m, ok) => MarkPersisted(d, key, m, ok)
    case CountOp(s, ok) => CountTurn(d, s, ok)
    case FlushOp(ok) => FlushSync(d, ok)
    case RestartOp => Restart(d)
  }

  function RunOps(d: Durable, ops: seq<Op>): Durable {
    if ops == [] then d else Apply(RunOps(d, ops[..|ops| - 1]), ops[|ops| - 1])
  }

  /** The live indices of a session, before and after a step. */
  ghost predicate SameIndices(l: Live, l': Live) {
    && l'.cached == l.cached
    && l'.pending.Keys == l.pending.Keys
    && forall s :: s in l.pending ==> l'.pending[s].index == l.pending[s].index
  }

  /** Restoring undoes any change made to one session only. */
  lemma RestoreUndoes(l: Live, l1: Live, s: string)
    requires l1.cached - {s} == l.cached - {s} && l1.pending - {s} == l.pending - {s}
    ensures SameIndices(l, Restore(l1, s, TakeSnapshot(l, s)))
  {
    var l' := Restore(l1, s, TakeSnapshot(l, s));
    forall k ensures (k in l'.cached <==> k in l.cached) && (k in l.cached ==> l'.cached[k] == l.cached[k]) {
      if k != s { assert k in l1.cached - {s} <==> k in l.cached - {s}; }
    }
    forall k ensures k in l'.pending <==> k in l.pending {
      if k != s { assert k in l1.pending - {s} <==> k in l.pending - {s}; }
    }
    forall k | k in l.pending ensures l'.pending[k].index == l.pending[k].index {
      if k != s { assert (l1.pending - {s})[k] == (l.pending - {s})[k]; }
    }
  }

  lemma ConsumeIsLocal(l: Live, s: string, index: int)
    ensures var l1 := ApplyPending(Bump(l, s, index), s);
            l1.cached - {s} == l.cached - {s} && l1.pending - {s} == l.pending - {s}
  {
    var l1 := ApplyPending(Bump(l, s, index), s);
    assert l1.cached - {s} == l.cached - {s};
    assert l1.pending - {s} == l.pending - {s};
  }

  /** A marker consumption whose write fails changes no watermark and no marker. */
  lemma FailedConsumeRestores(d: Durable, s: string, index: int)
    ensures var d' := ConsumeMarker(d, s, index, false);
            SameIndices(d.live, d'.live) && d'.live.markers == d.live.markers
            && d'.live.counts == d.live.counts && d'.disk == d.disk
  {
    hide Saved, SameIndices;
    var l1 := ApplyPending(Bump(d.live, s, index), s);
    ConsumeIsLocal(d.live, s, index);
    RestoreUndoes(d.live, l1, s);
  }

  /** A failed marker write leaves the markers exactly as they were. */
  lemma FailedMarkRestores(d: Durable, key: string, m: Marker)
    requires CleanMarkers(d.live.markers)
    ensures MarkPersisted(d, key, m, false).live.markers == d.live.markers
    ensures MarkPersisted(d, key, m, false).disk == d.disk
  {
    var before := d.live.markers;
    var previous := MarkerCount(before, key, m);
    var during := SetMarker(before, key, m, Max(previous, 1));
    var bucket := if key in before then before[key] else map[];
    assert during[key] == bucket[m := Max(previous, 1)];
    if previous > 0 {
      assert bucket[m := previous] == bucket;
      assert SetMarker(during, key, m, previous) == before;
    } else {
      assert m !in bucket;
      assert bucket[m := 1] - {m} == bucket;
      assert SetMarker(during, key, m, previous) == before;
    }
  }

  lemma ApplyPendingKeeps(l: Live, s: string)
    ensures forall k :: Effective(ApplyPending(l, s), k) == Effective(l, k)
    ensures forall k :: Count(ApplyPending(l, s), k) == Count(l, k)
  {
  }

  lemma OrderedAfterWrite(l: Live)
    requires forall s :: s in l.pending ==> Cached(l, s) <= l.pending[s].index
    ensures Ordered(Durable(l, Saved(l)))
  {
    forall s { SavedValues(l, s); }
  }

  /** Every write that succeeds puts the whole current state on disk. */
  lemma StepWritesFresh(d: Durable, op: Op)
    ensures WroteFresh(d, Apply(d, op))
    ensures !op.CountOp? && !op.RestartOp? ==> Apply(d, op).live.counts == d.live.counts
  {
    hide Saved, SetMarker, Load;
  }

  /** Each step keeps the order, writes only what is current for every session,
      and never moves the file backwards. */
  lemma StepKeepsOrder(d: Durable, op: Op)
    requires Ordered(d)
    ensures Ordered(Apply(d, op))
    ensures WroteFresh(d, Apply(d, op))
    ensures forall s :: DiskW(d.disk, s) <= DiskW(Apply(d, op).disk, s)
    ensures forall s :: DiskB(d.disk, s) <= DiskB(Apply(d, op).disk, s)
  {
    match op
    case BumpOp(s, index) =>
    case TimerOp(s, ok) => if s in d.live.pending { TimerKeepsOrder(d, s, ok); }
    case ConsumeOp(s, index, ok) => ConsumeKeepsOrder(d, s, index, ok);
    case MarkOp(key, m, ok) => MarkKeepsOrder(d, key, m, ok);
    case CountOp(s, ok) => CountKeepsOrder(d, s, ok);
    case FlushOp(ok) => FlushKeepsOrder(d, ok);
    case RestartOp => forall s { LoadValues(d.disk, s); }
  }

  lemma CommitKeepsOrder(d: Durable, s: string, ok: bool)
    requires Ordered(d)
    ensures Ordered(Commit(d, s, ok)) && WroteFresh(d, Commit(d, s, ok))
    ensures forall k :: DiskW(d.disk, k) <= DiskW(Commit(d, s, ok).disk, k)
    ensures forall k :: DiskB(d.disk, k) <= DiskB(Commit(d, s, ok).disk, k)
    ensures forall k :: Effective(Commit(d, s, ok).live, k) == Effective(d.live, k)
  {
    var l := ApplyPending(d.live, s);
    ApplyPendingKeeps(d.live, s);
    OrderedAfterWrite(l);
    forall k { SavedValues(l, k); }
  }

  lemma TimerKeepsOrder(d: Durable, s: string, ok: bool)
    requires Ordered(d) && s in d.live.pending
    ensures Ordered(TimerFires(d, s, ok)) && WroteFresh(d, TimerFires(d, s, ok))
    ensures forall k :: DiskW(d.disk, k) <= DiskW(TimerFires(d, s, ok).disk, k)
    ensures forall k :: DiskB(d.disk, k) <= DiskB(TimerFires(d, s, ok).disk, k)
  {
    CommitKeepsOrder(d, s, ok);
  }

  lemma ConsumeKeepsOrder(d: Durable, s: string, index: int, ok: bool)
    requires Ordered(d)
    ensures Ordered(ConsumeMarker(d, s, index, ok)) && WroteFresh(d, ConsumeMarker(d, s, index, ok))
    ensures forall k :: DiskW(d.disk, k) <= DiskW(ConsumeMarker(d, s, index, ok).disk, k)
    ensures forall k :: DiskB(d.disk, k) <= DiskB(ConsumeMarker(d, s, index, ok).disk, k)
  {
    if ok {
      CommitKeepsOrder(d.(live := Bump(d.live, s, index)), s, ok);
    } else {
      FailedConsumeRestores(d, s, index);
    }
  }

  lemma MarkKeepsOrder(d: Durable, key: string, m: Marker, ok: bool)
    requires Ordered(d)
    ensures Ordered(MarkPersisted(d, key, m, ok)) && WroteFresh(d, MarkPersisted(d, key, m, ok))
    ensures forall k :: DiskW(d.disk, k) <= DiskW(MarkPersisted(d, key, m, ok).disk, k)
    ensures forall k :: DiskB(d.disk, k) <= DiskB(MarkPersisted(d, key, m, ok).disk, k)
  {
    var previous := MarkerCount(d.live.markers, key, m);
    CommitKeepsOrder(d.(live := d.live.(markers := SetMarker(d.live.markers, key, m, Max(previous, 1)))), key, ok);
  }

  lemma CountKeepsOrder(d: Durable, s: string, ok: bool)
    requires Ordered(d)
    ensures Ordered(CountTurn(d, s, ok)) && WroteFresh(d, CountTurn(d, s, ok))
    ensures forall k :: DiskW(d.disk, k) <= DiskW(CountTurn(d, s, ok).disk, k)
    ensures forall k :: DiskB(d.disk, k) <= DiskB(CountTurn(d, s, ok).disk, k)
  {
    hide Saved, DiskW, DiskB;
    var d0 := d.(live := d.live.(counts := d.live.counts[s := Count(d.live, s) + 1]));
    CountedIsOrdered(d, s);
    CommitKeepsOrder(d0, s, ok);
    if !ok { ScheduleKeepsOrder(Commit(d0, s, ok), s, 3); }
  }

  lemma CountedIsOrdered(d: Durable, s: string)
    requires Ordered(d)
    ensures Ordered(d.(live := d.live.(counts := d.live.counts[s := Count(d.live, s) + 1])))
  {
    hide DiskW, DiskB;
  }

  lemma ScheduleKeepsOrder(d: Durable, s: string, attempts: nat)
    requires Ordered(d)
    ensures Ordered(d.(live := ScheduleFlush(d.live, s, attempts)))
  {
    hide Saved, DiskW, DiskB;
  }

  lemma FlushKeepsOrder(d: Durable, ok: bool)
    requires Ordered(d)
    ensures Ordered(FlushSync(d, ok)) && WroteFresh(d, FlushSync(d, ok))
    ensures forall k :: DiskW(d.disk, k) <= DiskW(FlushSync(d, ok).disk, k)
    ensures forall k :: DiskB(d.disk, k) <= DiskB(FlushSync(d, ok).disk, k)
  {
    var l := ApplyAllPending(d.live);
    assert forall k :: Effective(l, k) == Effective(d.live, k);
    OrderedAfterWrite(l);
    forall k { SavedValues(l, k); }
  }

  /** Over every run between resets: order holds at the end, and the file at the
      end is, session by session, at least the file at the start. */
  lemma {:induction false} RunKeepsOrder(d: Durable, ops: seq<Op>)
    requires Ordered(d)
    ensures Ordered(RunOps(d, ops))
    ensures forall s :: DiskW(d.disk, s) <= DiskW(RunOps(d, ops).disk, s)
    ensures forall s :: DiskB(d.disk, s) <= DiskB(RunOps(d, ops).disk, s)
  {
    if ops != [] {
      RunKeepsOrder(d, ops[..|ops| - 1]);
      StepKeepsOrder(RunOps(d, ops[..|ops| - 1]), ops[|ops| - 1]);
    }
  }

  // ----- What each operation does, in values -------------------------------------------------------

  /** Reading an entry: the legacy number, the fields that are there, and of the
      markers those counted at least once. */
  lemma LoadMeans(f: File, s: string, m: Marker)
    ensures s !in f || f[s].Junk? ==>
              Cached(Load(f), s) == -1 && Count(Load(f), s) == 0 && MarkerCount(Load(f).markers, s, m) == 0
    ensures s in f && f[s].Legacy? ==> Cached(Load(f), s) == f[s].n && Count(Load(f), s) == 0
    ensures s in f && f[s].Object? ==>
              && Cached(Load(f), s) == f[s].w.GetOr(-1) && Count(Load(f), s) == f[s].b.GetOr(0)
              && (f[s].m.Some? && m in f[s].m.value && f[s].m.value[m] > 0 ==>
                    MarkerCount(Load(f).markers, s, m) == f[s].m.value[m])
              && (!(f[s].m.Some? && m in f[s].m.value && f[s].m.value[m] > 0) ==>
                    MarkerCount(Load(f).markers, s, m) == 0)
  {
    if s in f && f[s].Object? && f[s].m.Some? {
      var counted := PositiveOnly(f[s].m.value);
      assert m in counted <==> m in f[s].m.value && f[s].m.value[m] > 0;
      assert m in counted ==> counted != map[];
    }
  }

  /** The newest index of every session, and the rest of the live state. */
  ghost predicate SameElsewhere(l: Live, l': Live, s: string) {
    && (forall k :: k != s ==> Cached(l', k) == Cached(l, k) && Effective(l', k) == Effective(l, k))
    && (forall k :: k != s ==> Count(l', k) == Count(l, k))
  }

  /** The file holds the newest index and the count of every session. */
  ghost predicate FileIsCurrent(d: Durable) {
    forall k :: DiskW(d.disk, k) == Effective(d.live, k) && DiskB(d.disk, k) == Count(d.live, k)
  }

  lemma WrittenIsCurrent(l: Live)
    ensures FileIsCurrent(Durable(l, Saved(l)))
  {
    forall k { SavedValues(l, k); }
  }

  /** Recording an index: the newest index becomes the larger of the two. */
  lemma BumpAdvances(d: Durable, s: string, index: int)
    ensures var d' := Apply(d, BumpOp(s, index));
            && Effective(d'.live, s) >= index && Effective(d'.live, s) >= Effective(d.live, s)
            && (Effective(d'.live, s) == index || Effective(d'.live, s) == Effective(d.live, s))
            && Cached(d'.live, s) == Cached(d.live, s) && Count(d'.live, s) == Count(d.live, s)
            && SameElsewhere(d.live, d'.live, s) && d'.live.markers == d.live.markers && d'.disk == d.disk
  {
  }

  /** Passing a channel-stored pair: index and file are at or above it. */
  lemma ConsumeAdvances(d: Durable, s: string, index: int)
    ensures var d' := Apply(d, ConsumeOp(s, index, true));
            && Cached(d'.live, s) == Effective(d'.live, s) >= index
            && Effective(d'.live, s) >= Effective(d.live, s)
            && (Effective(d'.live, s) == index || Effective(d'.live, s) == Effective(d.live, s))
            && FileIsCurrent(d') && SameElsewhere(d.live, d'.live, s) && d'.live.markers == d.live.markers
  {
    hide Saved, FileIsCurrent;
    WrittenIsCurrent(Apply(d, ConsumeOp(s, index, true)).live);
  }

  /** A timer that runs out caches its index and writes, and tries again while it may. */
  lemma TimerCommits(d: Durable, s: string, ok: bool)
    requires s in d.live.pending
    ensures var d' := Apply(d, TimerOp(s, ok));
            && Cached(d'.live, s) == Effective(d'.live, s) == Effective(d.live, s)
            && SameElsewhere(d.live, d'.live, s) && Count(d'.live, s) == Count(d.live, s)
            && (if ok then FileIsCurrent(d') else d'.disk == d.disk)
            && (s in d'.live.pending <==> !ok && d.live.pending[s].attempts > 1)
            && (s in d'.live.pending ==> d'.live.pending[s].attempts == d.live.pending[s].attempts - 1)
  {
    hide Saved, FileIsCurrent;
    WrittenIsCurrent(Apply(d, TimerOp(s, ok)).live);
  }

  /** A flush caches every newest index and writes, when there is anything to cache. */
  lemma FlushCommits(d: Durable, ok: bool)
    ensures var d' := Apply(d, FlushOp(ok));
            && d'.live.pending == map[]
            && (forall k :: Cached(d'.live, k) == Effective(d.live, k) && Count(d'.live, k) == Count(d.live, k))
            && (if ok && d.live.pending != map[] then FileIsCurrent(d') else d'.disk == d.disk)
  {
    hide Saved, FileIsCurrent;
    WrittenIsCurrent(Apply(d, FlushOp(ok)).live);
  }

  /** Counting a turn: one more, in the file too or in a retry that has three tries. */
  lemma CountCounts(d: Durable, s: string, ok: bool)
    ensures var d' := Apply(d, CountOp(s, ok));
            && Count(d'.live, s) == Count(d.live, s) + 1
            && Cached(d'.live, s) == Effective(d'.live, s) == Effective(d.live, s)
            && SameElsewhere(d.live, d'.live, s) && d'.live.markers == d.live.markers
            && (if ok then FileIsCurrent(d')
                else d'.disk == d.disk && s in d'.live.pending && d'.live.pending[s].attempts == 3)
  {
    hide Saved, FileIsCurrent;
    WrittenIsCurrent(Apply(d, CountOp(s, ok)).live);
  }

  /** Recording a channel-stored turn: its marker is there, in the file too, and no
      other marker and no index has changed. */
  lemma MarkMarks(d: Durable, key: string, m: Marker, k: string, n: Marker)
    requires CleanMarkers(d.live.markers)
    ensures var d' := Apply(d, MarkOp(key, m, true));
            && MarkerCount(d'.live.markers, key, m) >= 1
            && m in DiskM(d'.disk, key) && FileIsCurrent(d')
            && (MarkerCount(d.live.markers, key, m) >= 1 ==>
                  MarkerCount(d'.live.markers, key, m) == MarkerCount(d.live.markers, key, m))
            && ((k, n) != (key, m) ==> MarkerCount(d'.live.markers, k, n) == MarkerCount(d.live.markers, k, n))
            && Effective(d'.live, k) == Effective(d.live, k) && Count(d'.live, k) == Count(d.live, k)
  {
    hide Saved;
    var d' := Apply(d, MarkOp(key, m, true));
    SetMarkerMeans(d.live.markers, key, m, Max(MarkerCount(d.live.markers, key, m), 1), k, n);
    hide SetMarker, FileIsCurrent, MarkerCount, DiskM, CleanMarkers;
    WrittenIsCurrent(d'.live);
    SavedMarkers(d'.live, key);
    MarkerIsThere(d'.live.markers, key, m);
  }

  lemma SetMarkerMeans(markers: Markers, key: string, m: Marker, count: int, k: string, n: Marker)
    requires CleanMarkers(markers) && count > 0
    ensures var markers' := SetMarker(markers, key, m, count);
            && CleanMarkers(markers') && MarkerCount(markers', key, m) == count
            && ((k, n) != (key, m) ==> MarkerCount(markers', k, n) == MarkerCount(markers, k, n))
  {
    var bucket := if key in markers then markers[key] else map[];
    assert m in bucket[m := count];
  }

  lemma MarkerIsThere(markers: Markers, key: string, m: Marker)
    requires MarkerCount(markers, key, m) > 0
    ensures key in markers && m in markers[key]
  {
  }

  /** No operation but a restart ever lowers the newest index of a session. */
  lemma EffectiveNeverFalls(d: Durable, op: Op, k: string)
    requires !op.RestartOp?
    ensures Effective(Apply(d, op).live, k) >= Effective(d.live, k)
  {
    hide Saved, SetMarker;
    if op.ConsumeOp? && !op.ok {
      FailedConsumeRestores(d, op.s, op.index);
      hide ConsumeMarker;
    }
  }
}
