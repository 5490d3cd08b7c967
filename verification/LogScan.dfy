/** Reading the chain: an event scan whose range adapts to the provider, and two
    descending id scans, one batched, that stop early. */
module LogScan {
  import opened Wrappers
  import opened Sums

  const INITIAL_LOG_RANGE: nat := 2500
  const MIN_LOG_RANGE: nat := 50
  const SWITCH_BELOW: nat := 500

  datatype LogEntry =
    | Created(id: nat, startEpoch: int, endEpoch: int, tokenAmount: nat)
    | Minted(id: nat, publisher: string)
    | Unreadable

  datatype KcData = KcData(startEpoch: int, endEpoch: int, tokenAmount: nat)

  datatype Found = Found(kcData: map<nat, KcData>, kcPublisher: map<nat, string>)

  const NOTHING: Found := Found(map[], map[])

  datatype Response = Accepted | RangeTooLarge | OtherError

  function Min(a: nat, b: nat): nat { if a <= b then a else b }

  /** The last creation event of an id counts; the first mint names its publisher. */
  function Note(f: Found, e: LogEntry, currentEpoch: int): Found {
    match e
    case Created(id, s, end, amount) =>
      if end <= currentEpoch then f else f.(kcData := f.kcData[id := KcData(s, end, amount)])
    case Minted(id, p) => if id in f.kcPublisher then f else f.(kcPublisher := f.kcPublisher[id := p])
    case Unreadable => f
  }

  function NoteAll(f: Found, es: seq<LogEntry>, currentEpoch: int): Found {
    if es == [] then f else Note(NoteAll(f, es[..|es| - 1], currentEpoch), es[|es| - 1], currentEpoch)
  }

  /** A creation that counts: of `id`, with an end in the future. */
  predicate Creates(e: LogEntry, id: nat, currentEpoch: int) {
    e.Created? && e.id == id && e.endEpoch > currentEpoch
  }

  predicate Mints(e: LogEntry, id: nat) {
    e.Minted? && e.id == id
  }

  ghost predicate IsLastCreation(es: seq<LogEntry>, id: nat, currentEpoch: int, i: nat) {
    i < |es| && Creates(es[i], id, currentEpoch) && forall j :: i < j < |es| ==> !Creates(es[j], id, currentEpoch)
  }

  ghost predicate IsFirstMint(es: seq<LogEntry>, id: nat, i: nat) {
    i < |es| && Mints(es[i], id) && forall j :: 0 <= j < i ==> !Mints(es[j], id)
  }

  /** What one pass leaves for an id: the data of its last creation with a future
      end, and the publisher of its first mint, or nothing where there is none. */
  lemma {:induction false} NoteAllMeaning(es: seq<LogEntry>, currentEpoch: int, id: nat)
    ensures var f := NoteAll(NOTHING, es, currentEpoch);
            && (id in f.kcData <==> exists i: nat :: IsLastCreation(es, id, currentEpoch, i))
            && (forall i: nat :: IsLastCreation(es, id, currentEpoch, i) ==>
                  id in f.kcData && f.kcData[id] == KcData(es[i].startEpoch, es[i].endEpoch, es[i].tokenAmount))
            && (id in f.kcPublisher <==> exists i: nat :: IsFirstMint(es, id, i))
            && (forall i: nat :: IsFirstMint(es, id, i) ==> id in f.kcPublisher && f.kcPublisher[id] == es[i].publisher)
  {
    if es != [] {
      var n := |es| - 1;
      NoteAllMeaning(es[..n], currentEpoch, id);
      LastCreationSnoc(es, currentEpoch, id);
      FirstMintSnoc(es, id);
      hide IsLastCreation, IsFirstMint;
      if Creates(es[n], id, currentEpoch) {
        assert IsLastCreation(es, id, currentEpoch, n);
      } else if i: nat :| IsLastCreation(es[..n], id, currentEpoch, i) {
        assert IsLastCreation(es, id, currentEpoch, i);
      }
      if i: nat :| IsFirstMint(es[..n], id, i) {
        assert IsFirstMint(es, id, i);
      } else if Mints(es[n], id) {
        assert IsFirstMint(es, id, n);
      }
    }
  }

  lemma LastCreationSnoc(es: seq<LogEntry>, currentEpoch: int, id: nat)
    requires es != []
    ensures var n := |es| - 1;
            forall i: nat :: IsLastCreation(es, id, currentEpoch, i) <==>
              if Creates(es[n], id, currentEpoch) then i == n else IsLastCreation(es[..n], id, currentEpoch, i)
  {
    var n := |es| - 1;
    assert es == es[..n] + [es[n]];
  }

  lemma FirstMintSnoc(es: seq<LogEntry>, id: nat)
    requires es != []
    ensures var n := |es| - 1;
            forall i: nat :: IsFirstMint(es, id, i) <==>
              IsFirstMint(es[..n], id, i)
                  || (i == n && Mints(es[n], id) && !exists j: nat :: IsFirstMint(es[..n], id, j))
  {
    var n := |es| - 1;
    assert es == es[..n] + [es[n]];
    if j: nat :| j < n && Mints(es[j], id) {
      var k := FirstMintOf(es[..n], id, j);
    }
  }

  lemma {:induction false} FirstMintOf(es: seq<LogEntry>, id: nat, j: nat) returns (k: nat)
    requires j < |es| && Mints(es[j], id)
    ensures k <= j && IsFirstMint(es, id, k)
    decreases j
  {
    if i: nat :| i < j && Mints(es[i], id) { k := FirstMintOf(es, id, i); } else { k := j; }
  }

  /** The log of the blocks from `from` up to, not including, `to`. */
  function Logs(log: nat -> seq<LogEntry>, from: nat, to: nat): seq<LogEntry>
    requires from <= to
  {
    if from == to then [] else Logs(log, from, to - 1) + log(to - 1)
  }

  lemma {:induction false} NoteAppend(f: Found, a: seq<LogEntry>, b: seq<LogEntry>, currentEpoch: int)
    ensures NoteAll(f, a + b, currentEpoch) == NoteAll(NoteAll(f, a, currentEpoch), b, currentEpoch)
  {
    if b == [] {
      assert a + b == a;
    } else {
      assert (a + b)[..|a + b| - 1] == a + b[..|b| - 1];
      NoteAppend(f, a, b[..|b| - 1], currentEpoch);
    }
  }

  lemma {:induction false} LogsSplit(log: nat -> seq<LogEntry>, from: nat, mid: nat, to: nat)
    requires from <= mid <= to
    ensures Logs(log, from, to) == Logs(log, from, mid) + Logs(log, mid, to)
  {
    if mid < to {
      LogsSplit(log, from, mid, to - 1);
    }
  }

  /** Consecutive ranges that tile the interval from `from` to before `to`. */
  ghost predicate Tiles(ranges: seq<(nat, nat)>, from: nat, to: nat) {
    if ranges == [] then from == to
    else
      var last := ranges[|ranges| - 1];
      last.0 <= last.1 && last.1 + 1 == to && Tiles(ranges[..|ranges| - 1], from, last.0)
  }

  method NoteLogs(f: Found, logs: seq<LogEntry>, currentEpoch: int) returns (r: Found)
    ensures r == NoteAll(f, logs, currentEpoch)
  {
    r := f;
    for i := 0 to |logs|
      invariant r == NoteAll(f, logs[..i], currentEpoch)
    {
      assert logs[..i + 1][..i] == logs[..i];
      r := Note(r, logs[i], currentEpoch);
    }
    assert logs[..|logs|] == logs;
  }

  /** One pass over the log of an interval of blocks. */
  function OnePass(log: nat -> seq<LogEntry>, from: nat, to: nat, currentEpoch: int): Found
    requires from <= to
  {
    NoteAll(NOTHING, Logs(log, from, to), currentEpoch)
  }

  /** The first block not read: nothing is read when deployment is after the last block. */
  function End(deployBlock: nat, blockNumber: nat): nat {
    if deployBlock <= blockNumber then blockNumber + 1 else deployBlock
  }

  lemma NothingRead(log: nat -> seq<LogEntry>, from: nat, currentEpoch: int)
    ensures OnePass(log, from, from, currentEpoch) == NOTHING && Tiles([], from, from)
  {
  }

  lemma TilesSnoc(ranges: seq<(nat, nat)>, from: nat, mid: nat, last: nat)
    requires Tiles(ranges, from, mid) && mid <= last
    ensures Tiles(ranges + [(mid, last)], from, last + 1)
  {
    assert (ranges + [(mid, last)])[..|ranges|] == ranges;
  }

  /** Noting a further range of blocks continues the pass over the log. */
  lemma NoteNextRange(log: nat -> seq<LogEntry>, from: nat, mid: nat, to: nat, currentEpoch: int)
    requires from <= mid <= to
    ensures OnePass(log, from, to, currentEpoch) ==
            NoteAll(OnePass(log, from, mid, currentEpoch), Logs(log, mid, to), currentEpoch)
  {
    LogsSplit(log, from, mid, to);
    NoteAppend(NOTHING, Logs(log, from, mid), Logs(log, mid, to), currentEpoch);
  }

  function Grow(rangeSize: nat): nat {
    if rangeSize < INITIAL_LOG_RANGE then Min(rangeSize * 2, INITIAL_LOG_RANGE) else rangeSize
  }

  /** After a success the range is doubled, up to 2500 blocks. */
  lemma GrowMeans(rangeSize: nat)
    requires RangeSize(rangeSize)
    ensures Grow(rangeSize) == if rangeSize <= 1250 then rangeSize * 2 else 2500
  {
  }

  /** The next range size and provider after a rejected range. */
  function Shrink(rangeSize: nat, rpcIdx: nat, providers: nat): (nat, nat) {
    var half := if rangeSize / 2 >= MIN_LOG_RANGE then rangeSize / 2 else MIN_LOG_RANGE;
    if half < SWITCH_BELOW && rpcIdx + 1 < providers then (INITIAL_LOG_RANGE, rpcIdx + 1) else (half, rpcIdx)
  }

  /** After a rejection the range is halved, down to 50 blocks, or the next provider
      is asked for 2500 again as soon as a half falls below 500. */
  lemma ShrinkMeans(rangeSize: nat, rpcIdx: nat, providers: nat)
    ensures var (size, provider) := Shrink(rangeSize, rpcIdx, providers);
            if rangeSize < 1000 && rpcIdx + 1 < providers then size == 2500 && provider == rpcIdx + 1
            else provider == rpcIdx && size == (if rangeSize < 100 then 50 else rangeSize / 2)
  {
  }

  /** Sizes in use stay within 50 to 2500 blocks. */
  predicate RangeSize(n: nat) { 50 <= n <= 2500 }

  ghost predicate SmallRanges(ranges: seq<(nat, nat)>) {
    forall i :: 0 <= i < |ranges| ==> ranges[i].1 + 1 <= ranges[i].0 + 2500
  }

  /** Where the scan stands: the next block, the size of the next range, the provider. */
  datatype Stand = Stand(cursor: nat, rangeSize: nat, rpcIdx: nat)

  /** The last block of the next range. */
  function RangeEnd(st: Stand, blockNumber: nat): nat
    requires st.rangeSize > 0
  {
    Min(st.cursor + st.rangeSize - 1, blockNumber)
  }

  function Advance(st: Stand, accepted: bool, blockNumber: nat, providers: nat): Stand
    requires st.rangeSize > 0
  {
    if accepted then Stand(RangeEnd(st, blockNumber) + 1, Grow(st.rangeSize), st.rpcIdx)
    else
      var (size, provider) := Shrink(st.rangeSize, st.rpcIdx, providers);
      Stand(st.cursor, size, provider)
  }

  function Start(deployBlock: nat, firstProvider: nat): Stand {
    Stand(deployBlock, INITIAL_LOG_RANGE, firstProvider)
  }

  /** Where the scan stands after a list of answers, or once it is through. */
  function AfterAnswers(st: Stand, answers: seq<Response>, blockNumber: nat, providers: nat): Stand
    decreases |answers|
  {
    if answers == [] || st.cursor > blockNumber || st.rangeSize == 0 then st
    else AfterAnswers(Advance(st, answers[0] == Accepted, blockNumber, providers), answers[1..], blockNumber, providers)
  }

  /** The adaptive scan. `responses` is what the provider answers, call by call;
      None means the answers ran out or another error ended the scan. When it
      finishes, the ranges it read tile the whole interval, each of at most 2500
      blocks, and the maps are those of one pass over the log, whatever was
      rejected on the way. */
  method ScanEvents(log: nat -> seq<LogEntry>, deployBlock: nat, blockNumber: nat, currentEpoch: int,
                    providers: nat, firstProvider: nat, responses: seq<Response>)
    returns (r: Option<Found>, ranges: seq<(nat, nat)>, sizes: seq<nat>)
    ensures r.Some? ==> r.value == OnePass(log, deployBlock, End(deployBlock, blockNumber), currentEpoch)
    ensures r.Some? ==> Tiles(ranges, deployBlock, End(deployBlock, blockNumber))
    ensures SmallRanges(ranges)
    ensures forall i :: 0 <= i < |sizes| ==> RangeSize(sizes[i])
    ensures |sizes| <= |responses| && (r.None? ==> |sizes| == |responses| || responses[|sizes|] == OtherError)
    ensures OtherError !in responses ==>
              (r.Some? <==>
               AfterAnswers(Start(deployBlock, firstProvider), responses, blockNumber, providers).cursor > blockNumber)
  {
    hide Tiles, Logs, NoteAll, Note, Shrink, Grow;
    r := None;
    var found := NOTHING;
    NothingRead(log, deployBlock, currentEpoch);
    var st := Start(deployBlock, firstProvider);
    ranges, sizes := [], [];
    ghost var final := AfterAnswers(st, responses, blockNumber, providers);
    assert responses[0..] == responses;
    while st.cursor <= blockNumber
      invariant deployBlock <= st.cursor <= End(deployBlock, blockNumber)
      invariant RangeSize(st.rangeSize) && r.None?
      invariant found == OnePass(log, deployBlock, st.cursor, currentEpoch)
      invariant Tiles(ranges, deployBlock, st.cursor) && SmallRanges(ranges)
      invariant forall i :: 0 <= i < |sizes| ==> RangeSize(sizes[i])
      invariant |sizes| <= |responses|
      invariant final == AfterAnswers(st, responses[|sizes|..], blockNumber, providers)
      decreases |responses| - |sizes|
    {
      if |sizes| == |responses| || responses[|sizes|] == OtherError { return; }
      var response := responses[|sizes|];
      assert responses[|sizes|..][1..] == responses[|sizes| + 1..];
      sizes := sizes + [st.rangeSize];
      if response == Accepted {
        var to := RangeEnd(st, blockNumber);
        NoteNextRange(log, deployBlock, st.cursor, to + 1, currentEpoch);
        TilesSnoc(ranges, deployBlock, st.cursor, to);
        found := NoteLogs(found, Logs(log, st.cursor, to + 1), currentEpoch);
        ranges := ranges + [(st.cursor, to)];
      }
      SizesStay(st, providers);
      st := Advance(st, response == Accepted, blockNumber, providers);
    }
    r := Some(found);
  }

  lemma SizesStay(st: Stand, providers: nat)
    requires RangeSize(st.rangeSize)
    ensures RangeSize(Grow(st.rangeSize)) && RangeSize(Shrink(st.rangeSize, st.rpcIdx, providers).0)
  {
  }

  /** Answers of providers that accept a range exactly when it is within their limit. */
  ghost predicate Respects(st: Stand, answers: seq<Response>, limit: nat -> nat, blockNumber: nat, providers: nat)
    requires st.rangeSize > 0
    decreases |answers|
  {
    answers == [] ||
    (&& st.cursor <= blockNumber
     && answers[0] == (if RangeEnd(st, blockNumber) + 1 - st.cursor <= limit(st.rpcIdx) then Accepted
        else RangeTooLarge)
     && var st' := Advance(st, answers[0] == Accepted, blockNumber, providers);
        st'.rangeSize > 0 && Respects(st', answers[1..], limit, blockNumber, providers))
  }

  /** With providers that accept ranges of at least 50 blocks, the scan finishes: a
      rejected range is never just asked for again. */
  lemma {:induction false} LimitsLetItFinish(st: Stand, limit: nat -> nat, blockNumber: nat, providers: nat)
    returns (answers: seq<Response>)
    requires RangeSize(st.rangeSize) && forall p: nat :: limit(p) >= 50
    ensures Respects(st, answers, limit, blockNumber, providers) && OtherError !in answers
    ensures AfterAnswers(st, answers, blockNumber, providers).cursor > blockNumber
    decreases blockNumber + 1 - st.cursor, providers - st.rpcIdx, st.rangeSize
  {
    if st.cursor > blockNumber {
      answers := [];
    } else {
      var fits := RangeEnd(st, blockNumber) + 1 - st.cursor <= limit(st.rpcIdx);
      var st' := Advance(st, fits, blockNumber, providers);
      SizesStay(st, providers);
      ShrinkMeans(st.rangeSize, st.rpcIdx, providers);
      var rest := LimitsLetItFinish(st', limit, blockNumber, providers);
      answers := [if fits then Accepted else RangeTooLarge] + rest;
      assert answers[1..] == rest;
    }
  }

  // ----- Descending id scans ------------------------------------------------------------------

  const READ_BATCH: nat := 2000
  const PARALLEL_BATCHES: nat := 4
  const STOP_AFTER: nat := 100000

  datatype Progress = Progress(futureIds: seq<nat>, consecutivePast: nat)

  function Visit(p: Progress, id: nat, endEpoch: int, currentEpoch: int): Progress {
    if endEpoch > currentEpoch then Progress(p.futureIds + [id], 0) else p.(consecutivePast := p.consecutivePast + 1)
  }

  /** Progress after the ids `last`, `last - 1`, ... have been visited, `n` of them. */
  function Visited(endEpoch: nat -> int, currentEpoch: int, last: nat, n: nat): Progress
    requires n <= last
  {
    if n == 0 then Progress([], 0)
    else Visit(Visited(endEpoch, currentEpoch, last, n - 1), last - n + 1, endEpoch(last - n + 1), currentEpoch)
  }

  method VisitBatch(endEpoch: nat -> int, currentEpoch: int, last: nat, start: nat, p: Progress)
    returns (q: Progress, n: nat)
    requires start < last && p == Visited(endEpoch, currentEpoch, last, start)
    ensures n == Min(start + READ_BATCH, last) && q == Visited(endEpoch, currentEpoch, last, n)
  {
    n := start;
    q := p;
    while n < start + READ_BATCH && n < last
      invariant start <= n <= Min(start + READ_BATCH, last)
      invariant q == Visited(endEpoch, currentEpoch, last, n)
    {
      var id := last - n;
      q := Visit(q, id, endEpoch(id), currentEpoch);
      n := n + 1;
    }
  }

  /** The scan stopped after `n` ids: at a multiple of `step` with enough past ids
      in a row, or at the end, and at no earlier multiple. */
  ghost predicate StopsAt(endEpoch: nat -> int, currentEpoch: int, last: nat, step: nat, n: nat)
    requires step > 0
  {
    && n <= last
    && (n == last || (n % step == 0 && Visited(endEpoch, currentEpoch, last, n).consecutivePast >= 100000))
    && forall k :: 0 < k < n && k % step == 0 ==> Visited(endEpoch, currentEpoch, last, k).consecutivePast < 100000
  }

  /** The simple scan checks after every batch of 2000. */
  method DirectScan(endEpoch: nat -> int, currentEpoch: int, last: nat) returns (futureIds: seq<nat>, n: nat)
    ensures StopsAt(endEpoch, currentEpoch, last, 2000, n)
    ensures futureIds == Visited(endEpoch, currentEpoch, last, n).futureIds
  {
    var p := Progress([], 0);
    n := 0;
    while n < last
      invariant n <= last && p == Visited(endEpoch, currentEpoch, last, n)
      invariant n == last || n % READ_BATCH == 0
      invariant forall k :: 0 < k < n && k % READ_BATCH == 0 ==>
                Visited(endEpoch, currentEpoch, last, k).consecutivePast < STOP_AFTER
      invariant n < last && n > 0 ==> p.consecutivePast < STOP_AFTER
      decreases last - n
    {
      ghost var start := n;
      p, n := VisitBatch(endEpoch, currentEpoch, last, n, p);
      BetweenMultiples(start, n, READ_BATCH);
      if p.consecutivePast >= STOP_AFTER { break; }
    }
    futureIds := p.futureIds;
  }

  /** The fast scan reads four batches a round and checks between rounds. */
  method FastScan(endEpoch: nat -> int, currentEpoch: int, last: nat) returns (futureIds: seq<nat>, n: nat)
    ensures StopsAt(endEpoch, currentEpoch, last, 8000, n)
    ensures futureIds == Visited(endEpoch, currentEpoch, last, n).futureIds
  {
    var p := Progress([], 0);
    n := 0;
    while n < last && p.consecutivePast < STOP_AFTER
      invariant n <= last && p == Visited(endEpoch, currentEpoch, last, n)
      invariant n == last || n % (PARALLEL_BATCHES * READ_BATCH) == 0
      invariant forall k :: 0 < k < n && k % (PARALLEL_BATCHES * READ_BATCH) == 0 ==>
                  Visited(endEpoch, currentEpoch, last, k).consecutivePast < STOP_AFTER
      decreases last - n
    {
      ghost var start := n;
      for b := 0 to PARALLEL_BATCHES
        invariant n == Min(start + b * READ_BATCH, last) && p == Visited(endEpoch, currentEpoch, last, n)
      {
        if n < last {
          p, n := VisitBatch(endEpoch, currentEpoch, last, n, p);
        }
      }
      BetweenMultiples(start, n, PARALLEL_BATCHES * READ_BATCH);
    }
    futureIds := p.futureIds;
  }

  lemma BetweenMultiples(a: nat, b: nat, step: nat)
    requires step > 0 && a % step == 0 && a <= b <= a + step
    ensures forall k :: a < k < b ==> k % step != 0
    ensures b == a + step ==> b % step == 0
  {
    var q := a / step;
    assert a == step * q;
    forall k | a < k < b ensures k % step != 0 {
      NoMultipleInside(k, step, q);
    }
    if b == a + step {
      assert b == step * (q + 1);
      MultipleMod(step, q + 1);
    }
  }

  lemma NoMultipleInside(k: nat, step: nat, q: nat)
    requires step > 0 && step * q < k < step * q + step
    ensures k % step != 0
  {
    var m := k / step;
    assert k == step * m + k % step;
    MulStep(step, m, q);
    MulStep(step, q, m);
  }

  lemma MultipleMod(step: nat, m: nat)
    requires step > 0
    ensures (step * m) % step == 0
  {
    var x := step * m;
    assert x == step * (x / step) + x % step;
    MulStep(step, m, x / step);
    MulStep(step, x / step, m);
  }

  lemma {:induction false} VisitedExtends(endEpoch: nat -> int, currentEpoch: int, last: nat, m: nat, n: nat)
    requires m <= n <= last
    ensures Visited(endEpoch, currentEpoch, last, m).futureIds <= Visited(endEpoch, currentEpoch, last, n).futureIds
  {
    if m < n { VisitedExtends(endEpoch, currentEpoch, last, m, n - 1); }
  }

  /** The future ids among the `n` visited, in descending order. */
  ghost predicate ListsFuture(ids: seq<nat>, endEpoch: nat -> int, currentEpoch: int, last: nat, n: nat)
    requires n <= last
  {
    && (forall id :: id in ids <==> last - n < id <= last && endEpoch(id) > currentEpoch)
    && (forall i, j :: 0 <= i < j < |ids| ==> ids[i] > ids[j])
  }

  /** The length of the run of past ids at the end. */
  ghost predicate CountsPast(count: nat, endEpoch: nat -> int, currentEpoch: int, last: nat, n: nat)
    requires n <= last
  {
    && count <= n
    && (forall id :: last - n < id <= last - n + count ==> endEpoch(id) <= currentEpoch)
    && (count < n ==> endEpoch(last - n + count + 1) > currentEpoch)
  }

  lemma FutureSnoc(ids: seq<nat>, endEpoch: nat -> int, currentEpoch: int, last: nat, n: nat)
    requires 0 < n <= last && ListsFuture(ids, endEpoch, currentEpoch, last, n - 1)
    ensures var id := last - n + 1;
            ListsFuture(if endEpoch(id) > currentEpoch then ids + [id] else ids, endEpoch, currentEpoch, last, n)
  {
    assert forall i :: 0 <= i < |ids| ==> ids[i] in ids;
  }

  lemma PastSnoc(count: nat, endEpoch: nat -> int, currentEpoch: int, last: nat, n: nat)
    requires 0 < n <= last && CountsPast(count, endEpoch, currentEpoch, last, n - 1)
    ensures var id := last - n + 1;
            CountsPast(if endEpoch(id) > currentEpoch then 0 else count + 1, endEpoch, currentEpoch, last, n)
  {
  }

  /** What the running state means: the future ids among those visited, in
      descending order, and the length of the run of past ids at the end. */
  lemma {:induction false} VisitedMeaning(endEpoch: nat -> int, currentEpoch: int, last: nat, n: nat)
    requires n <= last
    ensures var p := Visited(endEpoch, currentEpoch, last, n);
            ListsFuture(p.futureIds, endEpoch, currentEpoch, last, n)
            && CountsPast(p.consecutivePast, endEpoch, currentEpoch, last, n)
  {
    if n > 0 {
      hide ListsFuture, CountsPast;
      VisitedMeaning(endEpoch, currentEpoch, last, n - 1);
      var p := Visited(endEpoch, currentEpoch, last, n - 1);
      FutureSnoc(p.futureIds, endEpoch, currentEpoch, last, n);
      PastSnoc(p.consecutivePast, endEpoch, currentEpoch, last, n);
    }
  }

  /** On the same data the simple scan's future ids are a prefix of the fast
      scan's: checking less often can only read further. */
  lemma SimpleIsPrefixOfFast(endEpoch: nat -> int, currentEpoch: int, last: nat, simple: nat, fast: nat)
    requires StopsAt(endEpoch, currentEpoch, last, 2000, simple)
    requires StopsAt(endEpoch, currentEpoch, last, 8000, fast)
    ensures simple <= fast
    ensures Visited(endEpoch, currentEpoch, last, simple).futureIds <=
            Visited(endEpoch, currentEpoch, last, fast).futureIds
  {
    if fast < last {
      assert fast % 2000 == 0;
      assert Visited(endEpoch, currentEpoch, last, 0).consecutivePast == 0;
    }
    VisitedExtends(endEpoch, currentEpoch, last, simple, fast);
  }
}
