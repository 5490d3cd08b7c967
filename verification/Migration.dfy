/** Moving the watermark file to a new state directory: a join of both sides
    that either happens or leaves the old path in charge. */
module Migration {
  import opened Watermarks

  datatype Content = Unparseable | Parsed(file: File)

  type Files = map<string, Content>

  /** Outcomes of the four writes a migration may make: the merged file, the
      final rewrite, the fallback at the old path, the repair of the destination. */
  datatype Writes = Writes(merged: bool, final: bool, fallback: bool, repair: bool)

  datatype Store = Store(live: Live, path: string, files: Files)

  function FileAt(files: Files, path: string): File {
    if path in files && files[path].Parsed? then files[path].file else map[]
  }

  /** Pointwise maximum, keys of either side. */
  function MergeMax(a: map<string, int>, b: map<string, int>, default: int): map<string, int> {
    map k | k in a.Keys + b.Keys :: if k in b then Max(Get(a, k, default), b[k]) else a[k]
  }

  function MergeBucket(a: Bucket, b: Bucket): Bucket {
    map m | m in a.Keys + b.Keys ::
      if m in a && m in b then Max(a[m], b[m]) else if m in a then a[m] else b[m]
  }

  function BucketOf(markers: Markers, k: string): Bucket {
    if k in markers then markers[k] else map[]
  }

  function MergeMarkers(a: Markers, b: Markers): Markers {
    map k | k in a.Keys + b.Keys :: MergeBucket(BucketOf(a, k), BucketOf(b, k))
  }

  function FileWm(f: File): map<string, int> { map k | k in f :: EntryW(f[k]) }

  function FileBc(f: File): map<string, int> { map k | k in f :: EntryB(f[k]) }

  function FileMarkers(f: File): Markers { map k | k in f && EntryM(f[k]) != map[] :: EntryM(f[k]) }

  /** The live state joined with a file. */
  function JoinLive(l: Live, f: File): Live {
    l.(cached := MergeMax(l.cached, FileWm(f), -1), counts := MergeMax(l.counts, FileBc(f), 0),
       markers := MergeMarkers(l.markers, FileMarkers(f)))
  }

  /** The file written first: joined values, pending timers left out. */
  function MergedFile(l: Live, f: File): File {
    var j := JoinLive(l, f);
    Serialize(j.cached, j.counts, j.markers)
  }

  function Normalize(f: File): File {
    Serialize(FileWm(f), FileBc(f), FileMarkers(f))
  }

  /** The second write, from the joined live maps; when it fails the old path is
      kept and the destination is put back. */
  function FinishMove(st: Store, target: string, existed: bool, dest: File, w: Writes): Store {
    if w.final then Store(st.live, target, st.files[target := Parsed(Saved(st.live))])
    else
      var kept := if w.fallback then st.files[st.path := Parsed(Saved(st.live))] else st.files;
      var repaired :=
        if !w.repair then kept
        else if existed then kept[target := Parsed(Normalize(dest))]
        else kept - {target};
      Store(st.live, st.path, repaired)
  }

  /** setStateDir after its flush; nothing in it yields to other work. */
  function SetStateDir(st: Store, target: string, w: Writes): Store {
    if target == st.path || !w.merged then st
    else
      var dest := FileAt(st.files, target);
      var written := st.files[target := Parsed(MergedFile(st.live, dest))];
      FinishMove(Store(JoinLive(st.live, dest), st.path, written), target, target in st.files, dest, w)
  }

  // ----- What the merge means ----------------------------------------------------------

  ghost predicate NoPending(l: Live) { l.pending == map[] }

  /** The larger of an own value and the file's, or the own one where the file has
      no entry: a file may hold values below the defaults, and they stay. */
  function Larger(own: int, f: File, s: string, theirs: int): int {
    if s in f then Max(own, theirs) else own
  }

  lemma JoinValues(l: Live, f: File, s: string)
    ensures Cached(JoinLive(l, f), s) == Larger(Cached(l, s), f, s, DiskW(f, s))
    ensures Count(JoinLive(l, f), s) == Larger(Count(l, s), f, s, DiskB(f, s))
  {
  }

  /** For values from the defaults up that is the plain maximum. */
  lemma LargerIsMaximum(own: int, f: File, s: string)
    ensures own >= -1 ==> Larger(own, f, s, DiskW(f, s)) == Max(own, DiskW(f, s))
    ensures own >= 0 ==> Larger(own, f, s, DiskB(f, s)) == Max(own, DiskB(f, s))
  {
  }

  lemma MergedBucketClean(a: Bucket, b: Bucket)
    requires forall m :: m in a ==> a[m] > 0
    requires forall m :: m in b ==> b[m] > 0
    requires a != map[] || b != map[]
    ensures MergeBucket(a, b) != map[]
    ensures forall m :: m in MergeBucket(a, b) ==> MergeBucket(a, b)[m] > 0
  {
    var m :| m in a || m in b;
    assert m in MergeBucket(a, b);
  }

  lemma MergedMarkersClean(a: Markers, b: Markers)
    requires CleanMarkers(a) && CleanMarkers(b)
    ensures CleanMarkers(MergeMarkers(a, b))
  {
    hide MergeBucket;
    forall k | k in a.Keys + b.Keys
      ensures MergeBucket(BucketOf(a, k), BucketOf(b, k)) != map[]
      ensures forall m :: m in MergeBucket(BucketOf(a, k), BucketOf(b, k)) ==>
              MergeBucket(BucketOf(a, k), BucketOf(b, k))[m] > 0
    {
      MergedBucketClean(BucketOf(a, k), BucketOf(b, k));
    }
  }

  lemma MergedCount(a: Markers, b: Markers, k: string, m: Marker)
    requires CleanMarkers(a) && CleanMarkers(b)
    ensures MarkerCount(MergeMarkers(a, b), k, m) == Max(MarkerCount(a, k, m), MarkerCount(b, k, m))
  {
  }

  lemma FileMarkersClean(f: File)
    ensures CleanMarkers(FileMarkers(f))
    ensures forall k, m :: MarkerCount(FileMarkers(f), k, m) == if m in DiskM(f, k) then DiskM(f, k)[m] else 0
  {
  }

  lemma JoinMarkers(l: Live, f: File, k: string, m: Marker)
    requires CleanMarkers(l.markers)
    ensures MarkerCount(JoinLive(l, f).markers, k, m) ==
            Max(MarkerCount(l.markers, k, m), if m in DiskM(f, k) then DiskM(f, k)[m] else 0)
    ensures CleanMarkers(JoinLive(l, f).markers)
  {
    hide MergeMarkers, CleanMarkers, MarkerCount, DiskM, FileMarkers;
    FileMarkersClean(f);
    MergedMarkersClean(l.markers, FileMarkers(f));
    MergedCount(l.markers, FileMarkers(f), k, m);
  }

  lemma JoinKeepsPending(l: Live, f: File)
    ensures JoinLive(l, f).pending == l.pending
  {
  }

  /** Both writes succeed: live state and new file hold, for every session and
      marker, the larger value of the two sides, which for values from the defaults
      up is their maximum; nothing is lost, the old file is
      untouched, and a restart from the new file reads the same. */
  lemma SuccessfulMigrationJoins(st: Store, target: string, w: Writes, s: string, k: string, m: Marker)
    requires NoPending(st.live) && CleanMarkers(st.live.markers)
    requires target != st.path && w.merged && w.final
    ensures var st' := SetStateDir(st, target, w);
            var dest := FileAt(st.files, target);
            var file := FileAt(st'.files, target);
            && st'.path == target
            && Cached(st'.live, s) == DiskW(file, s) == Larger(Cached(st.live, s), dest, s, DiskW(dest, s))
            && Count(st'.live, s) == DiskB(file, s) == Larger(Count(st.live, s), dest, s, DiskB(dest, s))
            && MarkerCount(st'.live.markers, k, m) ==
               Max(MarkerCount(st.live.markers, k, m), if m in DiskM(dest, k) then DiskM(dest, k)[m] else 0)
            && (Cached(st.live, s) >= -1 ==> Cached(st'.live, s) == Max(Cached(st.live, s), DiskW(dest, s)))
            && (Count(st.live, s) >= 0 ==> Count(st'.live, s) == Max(Count(st.live, s), DiskB(dest, s)))
            && Load(file).markers == st'.live.markers
            && st'.files - {target} == st.files - {target}
  {
    hide JoinLive, Saved, Load, DiskW, DiskB, DiskM, MarkerCount, CleanMarkers, Count;
    var dest := FileAt(st.files, target);
    var joined := JoinLive(st.live, dest);
    JoinValues(st.live, dest, s);
    JoinMarkers(st.live, dest, k, m);
    JoinKeepsPending(st.live, dest);
    SavedValues(joined, s);
    LoadSaved(joined, s);
    LargerIsMaximum(Cached(st.live, s), dest, s);
    LargerIsMaximum(Count(st.live, s), dest, s);
  }

  /** The newest value known to either side, pending timers included. */
  ghost function Newest(l: Live, dest: File, s: string): int {
    Larger(Effective(l, s), dest, s, DiskW(dest, s))
  }

  /** No timer is behind the destination's value for its session. */
  ghost predicate TimersAhead(l: Live, dest: File) {
    forall s :: s in l.pending && s in dest ==> DiskW(dest, s) <= l.pending[s].index
  }

  /** With timers pending, the final file holds the newest value of every session
      exactly when no pending index is behind the destination: a pending entry
      overrides the merged value. */
  lemma PendingOverridesMerge(st: Store, target: string, w: Writes)
    requires target != st.path && w.merged && w.final
    requires forall s :: s in st.live.pending ==> Cached(st.live, s) <= st.live.pending[s].index
    ensures var dest := FileAt(st.files, target);
            var file := FileAt(SetStateDir(st, target, w).files, target);
            (forall s :: DiskW(file, s) == Newest(st.live, dest, s)) <==> TimersAhead(st.live, dest)
  {
    var dest := FileAt(st.files, target);
    var joined := JoinLive(st.live, dest);
    var file := FileAt(SetStateDir(st, target, w).files, target);
    forall s
      ensures DiskW(file, s) == Newest(st.live, dest, s) <==>
              (s in st.live.pending && s in dest ==> DiskW(dest, s) <= st.live.pending[s].index)
    {
      JoinValues(st.live, dest, s);
      SavedValues(joined, s);
    }
  }

  /** The same condition decides whether the writer keeps its order, also when the
      final rewrite fails and it stays at the old path, for the live maps are joined
      by then: with a timer behind the destination, the live value itself is moved
      back when that timer runs out. */
  lemma OrderedAfterMoveIff(st: Store, target: string, w: Writes)
    requires target != st.path && w.merged
    requires forall s :: s in st.live.pending ==> Cached(st.live, s) <= st.live.pending[s].index
    requires !w.final ==> Ordered(Durable(st.live, FileAt(st.files, st.path)))
    ensures var st' := SetStateDir(st, target, w);
            Ordered(Durable(st'.live, FileAt(st'.files, st'.path))) <==> TimersAhead(st.live, FileAt(st.files, target))
  {
    hide JoinLive, Saved, DiskW, DiskB;
    var dest := FileAt(st.files, target);
    var joined := JoinLive(st.live, dest);
    JoinKeepsPending(st.live, dest);
    forall s ensures DiskW(Saved(joined), s) == Effective(joined, s) && DiskB(Saved(joined), s) == Count(joined, s) {
      SavedValues(joined, s);
    }
    forall s
      ensures Cached(joined, s) == Larger(Cached(st.live, s), dest, s, DiskW(dest, s))
      ensures Count(joined, s) == Larger(Count(st.live, s), dest, s, DiskB(dest, s))
    {
      JoinValues(st.live, dest, s);
    }
  }

  /** The case that loses ground: the destination was ahead of a pending timer. */
  lemma PendingCanLoseDestination()
    ensures var st := Store(NO_STATE.(pending := map["s" := Timer(0, 0)]), "old",
            map["new" := Parsed(map["s" := Legacy(5)])]);
            DiskW(FileAt(SetStateDir(st, "new", Writes(true, true, true, true)).files, "new"), "s") == 0
  {
  }

  lemma NormalizeKeepsValues(f: File, s: string)
    ensures DiskW(Normalize(f), s) == DiskW(f, s) && DiskB(Normalize(f), s) == DiskB(f, s)
    ensures DiskM(Normalize(f), s) == DiskM(f, s)
  {
    if s in f {
      var markers := FileMarkers(f);
      assert DiskM(f, s) == PositiveOnly(DiskM(f, s));
    }
  }

  /** What the writer itself writes is already in normal form. */
  lemma NormalizeSaved(l: Live)
    requires CleanMarkers(l.markers)
    ensures Normalize(Saved(l)) == Saved(l)
  {
    var f := Saved(l);
    var g := Normalize(f);
    forall k | k in f ensures g[k] == f[k] {
      SavedMarkers(l, k);
    }
    assert g.Keys == f.Keys;
  }

  /** Only the final rewrite fails: the old path stays in charge, and once the
      repair succeeds the destination reads as it did before, byte for byte when
      a writer wrote it, or is gone if it was not there. */
  lemma FailedRewriteRestoresDestination(st: Store, target: string, w: Writes, s: string)
    requires target != st.path && w.merged && !w.final && w.repair
    ensures var st' := SetStateDir(st, target, w);
            && st'.path == st.path
            && (target !in st.files ==> target !in st'.files)
            && (target in st.files ==> target in st'.files && st'.files[target].Parsed?)
            && DiskW(FileAt(st'.files, target), s) == DiskW(FileAt(st.files, target), s)
            && DiskB(FileAt(st'.files, target), s) == DiskB(FileAt(st.files, target), s)
            && DiskM(FileAt(st'.files, target), s) == DiskM(FileAt(st.files, target), s)
            && (w.fallback ==> FileAt(st'.files, st.path) == Saved(st'.live))
            && (!w.fallback ==> FileAt(st'.files, st.path) == FileAt(st.files, st.path))
  {
    hide Normalize, MergedFile, JoinLive, Saved, DiskW, DiskB, DiskM;
    NormalizeKeepsValues(FileAt(st.files, target), s);
    NoEntries(s);
  }

  lemma NoEntries(s: string)
    ensures DiskW(map[], s) == -1 && DiskB(map[], s) == 0 && DiskM(map[], s) == map[]
  {
  }

  lemma WrittenDestinationRestored(st: Store, target: string, w: Writes, l: Live)
    requires target != st.path && w.merged && !w.final && w.repair
    requires target in st.files && st.files[target] == Parsed(Saved(l)) && CleanMarkers(l.markers)
    ensures SetStateDir(st, target, w).files[target] == st.files[target]
  {
    NormalizeSaved(l);
  }
}
