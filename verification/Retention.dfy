/**
  Snapshot retention: what one prune deletes, what the survivors look like, and what a run of prunes keeps.

  An instant is a number of nanoseconds since the zero time (year 1), so the zero time is 0. Durations have
  64 bits and differences of instants saturate.
  */
module Retention {

  type Instant = int

  const MAX_DURATION: int := 0x7FFF_FFFF_FFFF_FFFF
  const MIN_DURATION: int := -0x8000_0000_0000_0000

  type Duration = d: int | MIN_DURATION <= d <= MAX_DURATION witness 0

  // The Unix epoch, in nanoseconds since the zero time.
  const EPOCH: Instant := 62_135_596_800_000_000_000

  function Sub(a: Instant, b: Instant): Duration {
    if a - b > MAX_DURATION then MAX_DURATION
    else if a - b < MIN_DURATION then MIN_DURATION
    else a - b
  }

  datatype Snapshot = Snapshot(id: nat, created: Instant)

  datatype Config = Config(minimumRetention: Duration, retention: Duration, retentionInterval: Duration)

  predicate Expired(cfg: Config, now: Instant, s: Snapshot) {
    Sub(now, s.created) > cfg.retention
  }

  // Between the two retention periods, both ends excluded.
  predicate InBand(cfg: Config, now: Instant, s: Snapshot) {
    cfg.minimumRetention < Sub(now, s.created) < cfg.retention
  }

  datatype Test = IsExpired | IsLive | IsInBand

  predicate Holds(cfg: Config, now: Instant, test: Test, s: Snapshot) {
    match test
    case IsExpired => Expired(cfg, now, s)
    case IsLive => !Expired(cfg, now, s)
    case IsInBand => InBand(cfg, now, s)
  }

  function Select(cfg: Config, now: Instant, test: Test, s: seq<Snapshot>): (r: seq<Snapshot>)
    ensures forall x :: x in r <==> x in s && Holds(cfg, now, test, x)
  {
    if s == [] then []
    else
      assert s == [s[0]] + s[1..];
      (if Holds(cfg, now, test, s[0]) then [s[0]] else []) + Select(cfg, now, test, s[1..])
  }

  ghost predicate Distinct(s: seq<Snapshot>) {
    forall i, j | 0 <= i < j < |s| :: s[i] != s[j]
  }

  lemma {:induction false} SelectDistinct(cfg: Config, now: Instant, test: Test, s: seq<Snapshot>)
    requires Distinct(s)
    ensures Distinct(Select(cfg, now, test, s))
  {
    hide Holds;
    if s != [] {
      SelectDistinct(cfg, now, test, s[1..]);
      assert s[0] !in s[1..];
    }
  }

  lemma {:induction false} SelectConcat(cfg: Config, now: Instant, test: Test, a: seq<Snapshot>, b: seq<Snapshot>)
    ensures Select(cfg, now, test, a + b) == Select(cfg, now, test, a) + Select(cfg, now, test, b)
  {
    hide Holds;
    if a == [] {
      assert a + b == b;
    } else {
      assert (a + b)[1..] == a[1..] + b;
      SelectConcat(cfg, now, test, a[1..], b);
    }
  }

  ghost predicate Ascending(s: seq<Snapshot>) {
    forall i, j | 0 <= i < j < |s| :: s[i].created <= s[j].created
  }

  // The library sort: ascending, in no particular order among equal times.
  ghost predicate Sorted(from: seq<Snapshot>, to: seq<Snapshot>) {
    multiset(from) == multiset(to) && Ascending(to)
  }

  function Insert(r: seq<Snapshot>, x: Snapshot): (t: seq<Snapshot>)
    requires Ascending(r)
    ensures Sorted(r + [x], t)
  {
    if r == [] then [x]
    else
      var n := |r| - 1;
      if r[n].created <= x.created then r + [x]
      else
        AppendLargest(r, x, Insert(r[..n], x));
        Insert(r[..n], x) + [r[n]]
  }

  lemma AppendLargest(r: seq<Snapshot>, x: Snapshot, t: seq<Snapshot>)
    requires Ascending(r) && r != [] && x.created < r[|r| - 1].created
    requires Sorted(r[..|r| - 1] + [x], t)
    ensures Sorted(r + [x], t + [r[|r| - 1]])
  {
    var n := |r| - 1;
    assert r == r[..n] + [r[n]];
    forall y | y in t ensures y.created <= r[n].created {
      assert y in multiset(t) && y in multiset(r[..n] + [x]) && y in r[..n] + [x];
    }
    assert multiset(t + [r[n]]) == multiset(r + [x]);
  }

  function SortedCopy(s: seq<Snapshot>): (r: seq<Snapshot>)
    ensures Sorted(s, r)
  {
    if s == [] then []
    else
      assert s == s[..|s| - 1] + [s[|s| - 1]];
      Insert(SortedCopy(s[..|s| - 1]), s[|s| - 1])
  }

  // Stands for the library's sort: nothing beyond the contract is used.
  method SortSnapshots(s: seq<Snapshot>) returns (r: seq<Snapshot>)
    ensures Sorted(s, r)
  {
    r := SortedCopy(s);
  }

  // ---- chunks

  datatype Chunking = Chunking(chunks: seq<seq<Snapshot>>, chunk: seq<Snapshot>, lastTime: Instant)

  function AddSnapshot(c: Chunking, snap: Snapshot, interval: Duration): Chunking {
    var last := if c.lastTime == 0 then snap.created else c.lastTime;
    if Sub(snap.created, last) > interval then Chunking(c.chunks + [c.chunk], [snap], snap.created)
    else Chunking(c.chunks, c.chunk + [snap], last)
  }

  function ChunkAll(s: seq<Snapshot>, interval: Duration): Chunking {
    if s == [] then Chunking([], [], 0)
    else AddSnapshot(ChunkAll(s[..|s| - 1], interval), s[|s| - 1], interval)
  }

  function TimedChunks(s: seq<Snapshot>, interval: Duration): seq<seq<Snapshot>> {
    var c := ChunkAll(s, interval);
    if s == [] then [] else c.chunks + [c.chunk]
  }

  // The first of each chunk stays, the others go.
  function Heads(chunks: seq<seq<Snapshot>>): seq<Snapshot> {
    if chunks == [] then []
    else
      var c := chunks[|chunks| - 1];
      Heads(chunks[..|chunks| - 1]) + if c == [] then [] else [c[0]]
  }

  function Tails(chunks: seq<seq<Snapshot>>): seq<Snapshot> {
    if chunks == [] then []
    else
      var c := chunks[|chunks| - 1];
      Tails(chunks[..|chunks| - 1]) + if c == [] then [] else c[1..]
  }

  method ToTimedChunks(snapshots: seq<Snapshot>, interval: Duration) returns (chunks: seq<seq<Snapshot>>)
    ensures exists sorted :: Sorted(snapshots, sorted) && chunks == TimedChunks(sorted, interval)
  {
    chunks := [];
    if |snapshots| == 0 {
      assert Sorted(snapshots, []) && TimedChunks([], interval) == [];
      return;
    }
    var ascending := SortSnapshots(snapshots);
    var chunk, lastTime := [], 0;
    for i := 0 to |ascending|
      invariant ChunkAll(ascending[..i], interval) == Chunking(chunks, chunk, lastTime)
    {
      var snap := ascending[i];
      assert ascending[..i + 1][..i] == ascending[..i];
      if lastTime == 0 {
        lastTime := snap.created;
      }
      if Sub(snap.created, lastTime) > interval {
        chunks := chunks + [chunk];
        chunk := [];
        lastTime := snap.created;
      }
      chunk := chunk + [snap];
    }
    assert ascending[..|ascending|] == ascending;
    assert multiset(ascending) != multiset{} by { assert snapshots[0] in multiset(snapshots); }
    chunks := chunks + [chunk];
  }

  // ---- what the chunking leaves, for an ascending list without the zero time

  // Heads are more than one interval apart.
  ghost predicate Spaced(h: seq<Snapshot>, interval: Duration) {
    forall i, j | 0 <= i < j < |h| :: Sub(h[j].created, h[i].created) > interval
  }

  // c lies at most one interval before s.
  ghost predicate Covers(c: Snapshot, s: Snapshot, interval: Duration) {
    c.created <= s.created && Sub(s.created, c.created) <= interval
  }

  ghost predicate Covered(cover: seq<Snapshot>, s: Snapshot, interval: Duration) {
    exists c <- cover :: Covers(c, s, interval)
  }

  lemma {:induction false} TailsHeads(chunks: seq<seq<Snapshot>>, c: seq<Snapshot>)
    ensures Heads(chunks + [c]) == Heads(chunks) + if c == [] then [] else [c[0]]
    ensures Tails(chunks + [c]) == Tails(chunks) + if c == [] then [] else c[1..]
  {
    assert (chunks + [c])[..|chunks|] == chunks;
  }

  // Heads h and tails t of the list s, when the chunk being filled is `chunk` and started at `lastTime`.
  ghost predicate Chunked(s: seq<Snapshot>, h: seq<Snapshot>, t: seq<Snapshot>, interval: Duration,
                          chunk: seq<Snapshot>, lastTime: Instant)
  {
    && multiset(h) + multiset(t) == multiset(s)
    && Spaced(h, interval) && Ascending(h)
    && (forall x <- t :: Covered(h, x, interval))
    && (s != [] ==> h != [] && chunk != [] && lastTime == h[|h| - 1].created)
    && (s == [] ==> lastTime == 0 && h == [] && t == [] && chunk == [])
  }

  function AllHeads(c: Chunking): seq<Snapshot> { Heads(c.chunks + [c.chunk]) }

  function AllTails(c: Chunking): seq<Snapshot> { Tails(c.chunks + [c.chunk]) }

  // Adding a snapshot either makes it a head of its own chunk or puts it in the tail of the current one.
  lemma AddCases(c: Chunking, snap: Snapshot, interval: Duration)
    requires c.chunk == [] <==> c.lastTime == 0
    ensures var c' := AddSnapshot(c, snap, interval);
            if c.chunk == [] || Sub(snap.created, c.lastTime) > interval
            then AllHeads(c') == AllHeads(c) + [snap] && AllTails(c') == AllTails(c)
                 && c'.chunk == [snap] && c'.lastTime == snap.created
            else AllHeads(c') == AllHeads(c) && AllTails(c') == AllTails(c) + [snap]
                 && c'.chunk == c.chunk + [snap] && c'.lastTime == c.lastTime
  {
    hide Heads, Tails, Sub;
    TailsHeads(c.chunks, c.chunk);
    TailsHeads(c.chunks + [c.chunk], [snap]);
    TailsHeads(c.chunks, c.chunk + [snap]);
    assert [snap][1..] == [] && AllTails(c) + [] == AllTails(c) && Heads(c.chunks) + [] == Heads(c.chunks);
    if c.chunk != [] {
      assert (c.chunk + [snap])[1..] == c.chunk[1..] + [snap];
      assert AllTails(c) + [snap] == Tails(c.chunks) + (c.chunk[1..] + [snap]);
    } else {
      assert [] + [snap] == [snap];
    }
  }

  // The heads and tails of the chunks after the whole list has been chunked.
  lemma {:induction false} ChunkingInvariant(s: seq<Snapshot>, interval: Duration)
    requires Ascending(s) && forall x <- s :: x.created != 0
    ensures var c := ChunkAll(s, interval);
            Chunked(s, AllHeads(c), AllTails(c), interval, c.chunk, c.lastTime)
  {
    if s == [] {
      NothingChunked(interval);
    } else {
      hide Chunked, AllHeads, AllTails, Sub, AddSnapshot, ChunkAll, Ascending;
      var n := |s| - 1;
      var snap := s[n];
      ChunkLast(s, interval);
      ChunkingInvariant(s[..n], interval);
      var c := ChunkAll(s[..n], interval);
      ChunkedNonempty(s[..n], AllHeads(c), AllTails(c), interval, c.chunk, c.lastTime);
      AddCases(c, snap, interval);
      if c.chunk == [] || Sub(snap.created, c.lastTime) > interval {
        StartChunk(s[..n], AllHeads(c), AllTails(c), interval, c.chunk, c.lastTime, snap);
      } else {
        ExtendChunk(s[..n], AllHeads(c), AllTails(c), interval, c.chunk, c.lastTime, snap);
      }
    }
  }

  lemma NoChunks()
    ensures Heads([]) == [] && Tails([]) == []
  {
  }

  lemma {:induction false} NothingChunked(interval: Duration)
    ensures var c := ChunkAll([], interval);
            Chunked([], AllHeads(c), AllTails(c), interval, c.chunk, c.lastTime)
  {
    NoChunks();
    TailsHeads([], []);
    assert AllHeads(Chunking([], [], 0)) == [] && AllTails(Chunking([], [], 0)) == [];
  }

  lemma {:induction false} ChunkLast(s: seq<Snapshot>, interval: Duration)
    requires s != [] && Ascending(s) && forall x <- s :: x.created != 0
    ensures var n := |s| - 1;
            && ChunkAll(s, interval) == AddSnapshot(ChunkAll(s[..n], interval), s[n], interval)
            && s == s[..n] + [s[n]]
            && Ascending(s[..n]) && (forall x <- s[..n] :: x.created != 0 && x.created <= s[n].created)
  {
    hide AddSnapshot;
  }

  lemma ChunkedNonempty(s: seq<Snapshot>, h: seq<Snapshot>, t: seq<Snapshot>, interval: Duration,
                        chunk: seq<Snapshot>, lastTime: Instant)
    requires Chunked(s, h, t, interval, chunk, lastTime) && forall x <- s :: x.created != 0
    ensures chunk == [] <==> s == []
    ensures s == [] ==> h == [] && t == [] && lastTime == 0
    ensures s != [] ==> h != [] && h[|h| - 1] in s && lastTime == h[|h| - 1].created != 0
  {
    if s != [] {
      assert h[|h| - 1] in multiset(h) && h[|h| - 1] in multiset(s);
    }
  }

  lemma HeadsFrom(s: seq<Snapshot>, h: seq<Snapshot>, t: seq<Snapshot>)
    requires multiset(h) + multiset(t) == multiset(s)
    ensures (forall x <- h :: x in s) && (forall x <- t :: x in s)
    ensures |h| + |t| == |s|
    ensures s == [] ==> h == [] && t == []
  {
    assert forall x <- h :: x in multiset(h) && x in multiset(s);
    assert forall x <- t :: x in multiset(t) && x in multiset(s);
    assert |multiset(h) + multiset(t)| == |multiset(s)|;
  }

  lemma SubMonotone(h: seq<Snapshot>, snap: Snapshot, interval: Duration)
    requires h != [] && forall x <- h :: x.created <= h[|h| - 1].created
    ensures forall x <- h :: Sub(snap.created, h[|h| - 1].created) <= Sub(snap.created, x.created)
  {
  }

  // A head after all others, more than one interval after the last.
  lemma HeadAdded(h: seq<Snapshot>, snap: Snapshot, interval: Duration)
    requires Spaced(h, interval) && Ascending(h) && forall x <- h :: x.created <= snap.created
    requires h == [] || Sub(snap.created, h[|h| - 1].created) > interval
    ensures Spaced(h + [snap], interval) && Ascending(h + [snap])
  {
    hide Sub;
    if h != [] {
      assert forall x <- h :: x.created <= h[|h| - 1].created;
      SubMonotone(h, snap, interval);
    }
  }

  lemma CoveredByMore(h: seq<Snapshot>, snap: Snapshot, x: Snapshot, interval: Duration)
    requires Covered(h, x, interval)
    ensures Covered(h + [snap], x, interval)
  {
    var c :| c in h && Covers(c, x, interval);
    assert c in h + [snap];
  }

  lemma StartChunk(s: seq<Snapshot>, h: seq<Snapshot>, t: seq<Snapshot>, interval: Duration,
                   chunk: seq<Snapshot>, lastTime: Instant, snap: Snapshot)
    requires Chunked(s, h, t, interval, chunk, lastTime) && forall x <- s :: x.created <= snap.created
    requires s == [] || Sub(snap.created, lastTime) > interval
    ensures Chunked(s + [snap], h + [snap], t, interval, [snap], snap.created)
  {
    hide Sub;
    HeadsFrom(s, h, t);
    assert multiset(s + [snap]) == multiset(h + [snap]) + multiset(t);
    HeadAdded(h, snap, interval);
    forall x | x in t ensures Covered(h + [snap], x, interval) {
      CoveredByMore(h, snap, x, interval);
    }
  }

  lemma ExtendChunk(s: seq<Snapshot>, h: seq<Snapshot>, t: seq<Snapshot>, interval: Duration,
                    chunk: seq<Snapshot>, lastTime: Instant, snap: Snapshot)
    requires Chunked(s, h, t, interval, chunk, lastTime) && forall x <- s :: x.created <= snap.created
    requires s != [] && Sub(snap.created, lastTime) <= interval
    ensures Chunked(s + [snap], h, t + [snap], interval, chunk + [snap], lastTime)
  {
    var last := h[|h| - 1];
    assert last in multiset(h) && last in multiset(s);
    assert Covers(last, snap, interval);
  }

  // ---- one prune

  function Band(cfg: Config, now: Instant, snaps: seq<Snapshot>): seq<Snapshot> {
    Select(cfg, now, IsInBand, Select(cfg, now, IsLive, snaps))
  }

  // The snapshots one prune sets out to delete, in order: the expired ones, then the tails of the band's chunks.
  function Plan(cfg: Config, now: Instant, snaps: seq<Snapshot>, sortedBand: seq<Snapshot>): seq<Snapshot> {
    if cfg.retention == 0 then []
    else
      Select(cfg, now, IsExpired, snaps) +
      if cfg.retentionInterval == 0 then [] else Tails(TimedChunks(sortedBand, cfg.retentionInterval))
  }

  // The subvolumes on disk. Deleting one that is gone, or that the filesystem will not give up, fails.
  class Disk {
    var present: set<Snapshot>
    const stuck: set<Snapshot>

    constructor (present: set<Snapshot>, stuck: set<Snapshot>)
      ensures this.present == present && this.stuck == stuck
    {
      this.present := present;
      this.stuck := stuck;
    }

    method DeleteSubvolume(s: Snapshot) returns (ok: bool)
      modifies this
      ensures ok == (s in old(present) && s !in stuck)
      ensures present == if ok then old(present) - {s} else old(present)
    {
      ok := s in present && s !in stuck;
      if ok {
        present := present - {s};
      }
    }
  }

  // Deletes in order until one fails.
  function Attempt(plan: seq<Snapshot>, present: set<Snapshot>, stuck: set<Snapshot>): (set<Snapshot>, bool) {
    if plan == [] then (present, true)
    else if plan[0] in present && plan[0] !in stuck then Attempt(plan[1..], present - {plan[0]}, stuck)
    else (present, false)
  }

  lemma {:induction false} AttemptConcat(a: seq<Snapshot>, b: seq<Snapshot>, present: set<Snapshot>,
      stuck: set<Snapshot>)
    ensures var (p, ok) := Attempt(a, present, stuck);
            Attempt(a + b, present, stuck) == if ok then Attempt(b, p, stuck) else (p, false)
  {
    if a == [] {
      assert a + b == b;
    } else {
      assert (a + b)[1..] == a[1..] + b;
      AttemptConcat(a[1..], b, present - {a[0]}, stuck);
    }
  }

  // Whatever fails, only planned snapshots go; and if nothing fails, all of them do.
  lemma {:induction false} AttemptDeletesOnlyPlanned(plan: seq<Snapshot>, present: set<Snapshot>, stuck: set<Snapshot>)
    ensures var (p, ok) := Attempt(plan, present, stuck);
            && p <= present
            && (forall s <- present :: s !in p ==> s in plan)
            && (ok ==> forall s <- plan :: s !in p && s in present)
    decreases |plan|
  {
    if plan != [] && plan[0] in present && plan[0] !in stuck {
      AttemptDeletesOnlyPlanned(plan[1..], present - {plan[0]}, stuck);
    }
  }

  // And it does succeed on distinct snapshots that are present and not stuck.
  lemma {:induction false} AttemptSucceeds(plan: seq<Snapshot>, present: set<Snapshot>, stuck: set<Snapshot>)
    requires Distinct(plan) && forall s <- plan :: s in present && s !in stuck
    ensures Attempt(plan, present, stuck) == (present - (set s <- plan), true)
    decreases |plan|
  {
    if plan == [] {
      assert present - (set s <- plan) == present;
    } else {
      assert forall s <- plan[1..] :: s != plan[0];
      AttemptSucceeds(plan[1..], present - {plan[0]}, stuck);
      assert present - {plan[0]} - (set s <- plan[1..]) == present - (set s <- plan);
    }
  }

  class SnapManager {
    const config: Config
    var snapshots: seq<Snapshot>

    constructor (config: Config, snapshots: seq<Snapshot>)
      ensures this.config == config && this.snapshots == snapshots
    {
      this.config := config;
      this.snapshots := snapshots;
    }

    method PruneSnapshots(now: Instant, disk: Disk) returns (ok: bool, ghost sortedBand: seq<Snapshot>)
      modifies this, disk
      ensures Sorted(Band(config, now, old(snapshots)), sortedBand)
      ensures (disk.present, ok) ==
              Attempt(Plan(config, now, old(snapshots), sortedBand), old(disk.present), disk.stuck)
      ensures var firstPass := Attempt(Select(config, now, IsExpired, old(snapshots)), old(disk.present), disk.stuck);
              snapshots == if config.retention != 0 && firstPass.1 then Select(config, now, IsLive, old(snapshots))
                           else old(snapshots)
    {
      hide Holds, Select, Sorted, TimedChunks, Tails;
      ghost var all := snapshots;
      ghost var expired := Select(config, now, IsExpired, all);
      if config.retention == 0 {
        sortedBand := SortedCopy(Band(config, now, all));
        return true, sortedBand;
      }
      var live;
      ok, live := DeleteExpired(now, disk);
      if !ok {
        sortedBand := SortedCopy(Band(config, now, all));
        AttemptConcat(expired, Plan(config, now, all, sortedBand)[|expired|..], old(disk.present), disk.stuck);
        assert Plan(config, now, all, sortedBand) == expired + Plan(config, now, all, sortedBand)[|expired|..];
        return false, sortedBand;
      }
      snapshots := live;
      if config.retentionInterval == 0 {
        sortedBand := SortedCopy(Band(config, now, all));
        assert Plan(config, now, all, sortedBand) == expired;
        return true, sortedBand;
      }
      var band := SelectInBand(now);
      if |band| == 0 {
        sortedBand := [];
        assert Sorted([], []) by { NothingSorted(); }
        assert Plan(config, now, all, []) == expired by { NoTails(config.retentionInterval); }
        return true, sortedBand;
      }
      var chunks := ToTimedChunks(band, config.retentionInterval);
      sortedBand :| Sorted(band, sortedBand) && chunks == TimedChunks(sortedBand, config.retentionInterval);
      ghost var present := disk.present;
      AttemptConcat(expired, Tails(chunks), old(disk.present), disk.stuck);
      ok := DeleteTails(chunks, disk);
    }

    // First pass: expired snapshots are deleted, the others collected.
    method DeleteExpired(now: Instant, disk: Disk) returns (ok: bool, remaining: seq<Snapshot>)
      modifies disk
      ensures (disk.present, ok) == Attempt(Select(config, now, IsExpired, snapshots), old(disk.present), disk.stuck)
      ensures ok ==> remaining == Select(config, now, IsLive, snapshots)
    {
      hide Expired, Select, Attempt;
      remaining := [];
      ghost var onDisk, stuck := disk.present, disk.stuck;
      NoSelection(config, now);
      NoAttempt(onDisk, stuck);
      for i := 0 to |snapshots|
        invariant remaining == Select(config, now, IsLive, snapshots[..i])
        invariant Attempt(Select(config, now, IsExpired, snapshots[..i]), onDisk, stuck) == (disk.present, true)
        modifies disk
      {
        var snap := snapshots[i];
        SelectNext(config, now, IsExpired, snapshots, i);
        SelectNext(config, now, IsLive, snapshots, i);
        AttemptNext(Select(config, now, IsExpired, snapshots[..i]), snap, onDisk, stuck);
        if Expired(config, now, snap) {
          var deleted := disk.DeleteSubvolume(snap);
          if !deleted {
            assert snapshots == snapshots[..i + 1] + snapshots[i + 1..];
            SelectConcat(config, now, IsExpired, snapshots[..i + 1], snapshots[i + 1..]);
            AttemptConcat(Select(config, now, IsExpired, snapshots[..i + 1]),
                          Select(config, now, IsExpired, snapshots[i + 1..]), onDisk, stuck);
            return false, remaining;
          }
        } else {
          remaining := remaining + [snap];
        }
      }
      assert snapshots[..|snapshots|] == snapshots;
      ok := true;
    }

    // Second pass: the snapshots strictly between the two retention periods.
    method SelectInBand(now: Instant) returns (band: seq<Snapshot>)
      ensures band == Select(config, now, IsInBand, snapshots)
    {
      hide Sub, Select;
      band := [];
      NoSelection(config, now);
      for i := 0 to |snapshots|
        invariant band == Select(config, now, IsInBand, snapshots[..i])
      {
        var snap := snapshots[i];
        SelectNext(config, now, IsInBand, snapshots, i);
        if Sub(now, snap.created) < config.retention {
          if Sub(now, snap.created) > config.minimumRetention {
            band := band + [snap];
          }
        }
      }
      assert snapshots[..|snapshots|] == snapshots;
    }

    // Last pass: every snapshot of a chunk but the first is deleted.
    static method DeleteTails(chunks: seq<seq<Snapshot>>, disk: Disk) returns (ok: bool)
      modifies disk
      ensures (disk.present, ok) == Attempt(Tails(chunks), old(disk.present), disk.stuck)
    {
      hide Attempt, Tails;
      ghost var onDisk, stuck := disk.present, disk.stuck;
      NoAttempt(onDisk, stuck);
      NoChunks();
      for i := 0 to |chunks|
        invariant Attempt(Tails(chunks[..i]), onDisk, stuck) == (disk.present, true)
        modifies disk
      {
        var chunk := chunks[i];
        assert chunks[..i + 1] == chunks[..i] + [chunk];
        TailsHeads(chunks[..i], chunk);
        ghost var done := Tails(chunks[..i]);
        if |chunk| <= 1 {
          assert Tails(chunks[..i + 1]) == done;
          continue;
        }
        ghost var before := disk.present;
        var later := chunk[1..];
        NoAttempt(before, stuck);
        for k := 0 to |later|
          invariant Attempt(later[..k], before, stuck) == (disk.present, true)
          modifies disk
        {
          AttemptNext(later[..k], later[k], before, stuck);
          assert later[..k + 1] == later[..k] + [later[k]];
          var deleted := disk.DeleteSubvolume(later[k]);
          if !deleted {
            assert later == later[..k + 1] + later[k + 1..];
            AttemptConcat(later[..k + 1], later[k + 1..], before, stuck);
            AttemptConcat(done, later, onDisk, stuck);
            assert chunks == chunks[..i + 1] + chunks[i + 1..];
            var rest := TailsConcat(chunks[..i + 1], chunks[i + 1..]);
            AttemptConcat(done + later, rest, onDisk, stuck);
            return false;
          }
        }
        assert later[..|later|] == later;
        AttemptConcat(done, later, onDisk, stuck);
      }
      assert chunks[..|chunks|] == chunks;
      ok := true;
    }
  }

  lemma NothingSorted()
    ensures forall s: seq<Snapshot> :: |s| == 0 ==> Sorted(s, [])
  {
  }

  lemma NoTails(interval: Duration)
    ensures Tails(TimedChunks([], interval)) == []
  {
  }

  lemma NoSelection(cfg: Config, now: Instant)
    ensures forall test :: Select(cfg, now, test, []) == []
  {
  }

  lemma {:induction false} SelectNext(cfg: Config, now: Instant, test: Test, s: seq<Snapshot>, i: nat)
    requires i < |s|
    ensures Select(cfg, now, test, s[..i + 1]) ==
            if Holds(cfg, now, test, s[i]) then Select(cfg, now, test, s[..i]) + [s[i]]
            else Select(cfg, now, test, s[..i])
  {
    hide Holds;
    assert s[..i + 1] == s[..i] + [s[i]];
    SelectConcat(cfg, now, test, s[..i], [s[i]]);
    assert Select(cfg, now, test, [s[i]]) == if Holds(cfg, now, test, s[i]) then [s[i]] else [];
    assert Select(cfg, now, test, s[..i]) + [] == Select(cfg, now, test, s[..i]);
  }

  lemma {:induction false} NoAttempt(present: set<Snapshot>, stuck: set<Snapshot>)
    ensures Attempt([], present, stuck) == (present, true)
  {
  }

  lemma {:induction false} AttemptNext(plan: seq<Snapshot>, s: Snapshot, present: set<Snapshot>, stuck: set<Snapshot>)
    ensures var (p, ok) := Attempt(plan, present, stuck);
            Attempt(plan + [s], present, stuck) ==
            if ok && s in p && s !in stuck then (p - {s}, true) else (p, false)
  {
    AttemptConcat(plan, [s], present, stuck);
  }

  lemma {:induction false} TailsConcat(a: seq<seq<Snapshot>>, b: seq<seq<Snapshot>>) returns (rest: seq<Snapshot>)
    ensures Tails(a + b) == Tails(a) + rest
  {
    if b == [] {
      assert a + b == a;
      rest := [];
    } else {
      var n := |b| - 1;
      assert (a + b)[..|a + b| - 1] == a + b[..n];
      rest := TailsConcat(a, b[..n]);
      rest := rest + if b[n] == [] then [] else b[n][1..];
    }
  }
}
