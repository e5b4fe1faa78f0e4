/** What pruning guarantees: coverage, optimality, a bound on survivors, idempotence, stability over runs. */
module RetentionTheorems {
  import opened Retention

  // One prune of distinct snapshots by a clock that is past the Unix epoch; the band may be sorted in any way.
  ghost predicate Pruning(cfg: Config, now: Instant, snaps: seq<Snapshot>, sortedBand: seq<Snapshot>) {
    now >= EPOCH && Distinct(snaps) && Sorted(Band(cfg, now, snaps), sortedBand)
  }

  // The band snapshots that are kept.
  function KeptBand(cfg: Config, sortedBand: seq<Snapshot>): seq<Snapshot> {
    Heads(TimedChunks(sortedBand, cfg.retentionInterval))
  }

  function DeletedBand(cfg: Config, sortedBand: seq<Snapshot>): seq<Snapshot> {
    Tails(TimedChunks(sortedBand, cfg.retentionInterval))
  }

  // What is left when the plan was carried out.
  ghost function After(cfg: Config, now: Instant, snaps: seq<Snapshot>, sortedBand: seq<Snapshot>): set<Snapshot> {
    (set s <- snaps) - (set s <- Plan(cfg, now, snaps, sortedBand))
  }

  lemma InBandMember(cfg: Config, now: Instant, snaps: seq<Snapshot>, sortedBand: seq<Snapshot>)
    requires Sorted(Band(cfg, now, snaps), sortedBand)
    ensures forall s :: s in sortedBand <==> s in snaps && InBand(cfg, now, s)
  {
    var band := Band(cfg, now, snaps);
    assert forall s :: s in band <==> s in multiset(band);
    assert forall s :: s in sortedBand <==> s in multiset(sortedBand);
  }

  // Saturation keeps the zero time out of the band, so the chunking's "not set yet" test never misfires.
  lemma NoZeroTime(cfg: Config, now: Instant, s: Snapshot)
    requires now >= EPOCH && InBand(cfg, now, s)
    ensures s.created != 0
  {
  }

  lemma DistinctMultiset(s: seq<Snapshot>, t: seq<Snapshot>)
    requires Distinct(s) && multiset(t) <= multiset(s)
    ensures Distinct(t)
  {
    forall i, j | 0 <= i < j < |t| ensures t[i] != t[j] {
      if t[i] == t[j] {
        assert t == t[..i] + [t[i]] + t[i + 1..j] + [t[j]] + t[j + 1..];
        assert multiset(t)[t[i]] >= 2;
        OnceOnly(s, t[i]);
      }
    }
  }

  lemma {:induction false} OnceOnly(s: seq<Snapshot>, x: Snapshot)
    requires Distinct(s)
    ensures multiset(s)[x] <= 1
  {
    if s != [] {
      assert s == [s[0]] + s[1..];
      OnceOnly(s[1..], x);
      assert s[0] !in s[1..];
    }
  }

  // The band splits into kept and deleted; kept ones are more than an interval apart and cover the deleted ones.
  lemma BandSplit(cfg: Config, now: Instant, snaps: seq<Snapshot>, sortedBand: seq<Snapshot>)
    requires Pruning(cfg, now, snaps, sortedBand)
    ensures var kept, deleted := KeptBand(cfg, sortedBand), DeletedBand(cfg, sortedBand);
            && multiset(kept) + multiset(deleted) == multiset(sortedBand)
            && Spaced(kept, cfg.retentionInterval) && Ascending(kept)
            && (forall s <- deleted :: Covered(kept, s, cfg.retentionInterval))
            && (forall s :: s in kept || s in deleted <==> s in snaps && InBand(cfg, now, s))
            && (forall s <- deleted :: s !in kept)
            && (sortedBand != [] <==> kept != [])
  {
    hide Sub, InBand, ChunkAll, Heads, Tails, Band;
    InBandMember(cfg, now, snaps, sortedBand);
    forall s | s in sortedBand ensures s.created != 0 {
      NoZeroTime(cfg, now, s);
    }
    var kept, deleted := KeptBand(cfg, sortedBand), DeletedBand(cfg, sortedBand);
    if sortedBand == [] {
      NoChunks();
    } else {
      ChunkingInvariant(sortedBand, cfg.retentionInterval);
    }
    HeadsFrom(sortedBand, kept, deleted);
    SplitDisjoint(cfg, now, snaps, sortedBand, kept, deleted);
  }

  lemma SplitDisjoint(cfg: Config, now: Instant, snaps: seq<Snapshot>, sortedBand: seq<Snapshot>,
                      kept: seq<Snapshot>, deleted: seq<Snapshot>)
    requires Pruning(cfg, now, snaps, sortedBand)
    requires multiset(kept) + multiset(deleted) == multiset(sortedBand)
    ensures forall s <- deleted :: s !in kept
    ensures forall s :: s in kept || s in deleted <==> s in sortedBand
  {
    hide Holds;
    SelectDistinct(cfg, now, IsLive, snaps);
    SelectDistinct(cfg, now, IsInBand, Select(cfg, now, IsLive, snaps));
    DistinctMultiset(Band(cfg, now, snaps), sortedBand);
    forall s | s in deleted ensures s !in kept {
      OnceOnly(sortedBand, s);
      assert multiset(sortedBand)[s] == multiset(kept)[s] + multiset(deleted)[s];
      assert s in multiset(deleted) && (s in kept ==> s in multiset(kept));
    }
    forall s ensures s in kept || s in deleted <==> s in sortedBand {
      assert s in multiset(sortedBand) <==> s in multiset(kept) || s in multiset(deleted);
    }
  }

  // ---- who survives

  // Exactly: the unexpired ones, and of those in the band the first of each chunk. A retention of zero spares all.
  lemma Survivors(cfg: Config, now: Instant, snaps: seq<Snapshot>, sortedBand: seq<Snapshot>)
    requires Pruning(cfg, now, snaps, sortedBand)
    ensures forall s :: s in After(cfg, now, snaps, sortedBand) <==>
                        && s in snaps
                        && (cfg.retention != 0 ==>
                              && !Expired(cfg, now, s)
                              && (InBand(cfg, now, s) && cfg.retentionInterval != 0 ==> s in KeptBand(cfg, sortedBand)))
  {
    hide Sub, KeptBand, DeletedBand, Band;
    BandSplit(cfg, now, snaps, sortedBand);
    var plan := Plan(cfg, now, snaps, sortedBand);
    forall s
      ensures s in plan <==> cfg.retention != 0 && ((s in snaps && Expired(cfg, now, s))
                                                    || (cfg.retentionInterval != 0
                                                        && s in DeletedBand(cfg, sortedBand)))
    {
      assert Holds(cfg, now, IsExpired, s) == Expired(cfg, now, s);
      DeletedIsTails(cfg, sortedBand);
    }
  }

  lemma DeletedIsTails(cfg: Config, sortedBand: seq<Snapshot>)
    ensures DeletedBand(cfg, sortedBand) == Tails(TimedChunks(sortedBand, cfg.retentionInterval))
  {
  }

  lemma DistinctConcat(a: seq<Snapshot>, b: seq<Snapshot>)
    requires Distinct(a) && Distinct(b) && forall s <- b :: s !in a
    ensures Distinct(a + b)
  {
    forall i, j | 0 <= i < j < |a + b| ensures (a + b)[i] != (a + b)[j] {
      if i < |a| <= j {
        assert (a + b)[j] in b;
      }
    }
  }

  lemma PlanDistinct(cfg: Config, now: Instant, snaps: seq<Snapshot>, sortedBand: seq<Snapshot>)
    requires Pruning(cfg, now, snaps, sortedBand)
    ensures Distinct(Plan(cfg, now, snaps, sortedBand))
    ensures forall s <- Plan(cfg, now, snaps, sortedBand) :: s in snaps
  {
    hide KeptBand, DeletedBand, Band, Distinct, Sorted, InBand, Expired, Spaced, Covered;
    var expired, deleted := Select(cfg, now, IsExpired, snaps), DeletedBand(cfg, sortedBand);
    BandSplit(cfg, now, snaps, sortedBand);
    DeletedIsTails(cfg, sortedBand);
    SelectDistinct(cfg, now, IsExpired, snaps);
    DeletedDistinct(cfg, now, snaps, sortedBand);
    forall s | s in deleted ensures s !in expired && s in snaps {
      BandNotExpired(cfg, now, s);
    }
    DistinctConcat(expired, deleted);
    assert expired + [] == expired;
    NothingDistinct();
  }

  lemma NothingDistinct()
    ensures Distinct([])
  {
  }

  lemma BandNotExpired(cfg: Config, now: Instant, s: Snapshot)
    ensures InBand(cfg, now, s) ==> !Expired(cfg, now, s)
  {
  }

  lemma DeletedDistinct(cfg: Config, now: Instant, snaps: seq<Snapshot>, sortedBand: seq<Snapshot>)
    requires Pruning(cfg, now, snaps, sortedBand)
    ensures Distinct(DeletedBand(cfg, sortedBand))
  {
    hide KeptBand, DeletedBand, Distinct, Holds, InBand, Spaced, Covered;
    BandSplit(cfg, now, snaps, sortedBand);
    SelectDistinct(cfg, now, IsLive, snaps);
    SelectDistinct(cfg, now, IsInBand, Select(cfg, now, IsLive, snaps));
    DistinctMultiset(Band(cfg, now, snaps), DeletedBand(cfg, sortedBand));
  }

  // Carrying out the plan on a disk that holds the snapshots and gives them up leaves just the others.
  lemma PlanCarriedOut(cfg: Config, now: Instant, snaps: seq<Snapshot>, sortedBand: seq<Snapshot>, stuck: set<Snapshot>)
    requires Pruning(cfg, now, snaps, sortedBand) && forall s <- snaps :: s !in stuck
    ensures Attempt(Plan(cfg, now, snaps, sortedBand), (set s <- snaps), stuck) ==
              (After(cfg, now, snaps, sortedBand), true)
  {
    hide Plan;
    PlanDistinct(cfg, now, snaps, sortedBand);
    AttemptSucceeds(Plan(cfg, now, snaps, sortedBand), (set s <- snaps), stuck);
  }

  // In plain ages. Nothing older than the retention is left ...
  lemma NothingTooOld(cfg: Config, now: Instant, snaps: seq<Snapshot>, sortedBand: seq<Snapshot>, s: Snapshot)
    requires Pruning(cfg, now, snaps, sortedBand) && cfg.retention != 0
    requires s in After(cfg, now, snaps, sortedBand)
    ensures now - s.created <= cfg.retention || cfg.retention == 0x7FFF_FFFF_FFFF_FFFF
  {
    Survivors(cfg, now, snaps, sortedBand);
    hide After, KeptBand, Band;
  }

  // ... two that are left strictly between the periods are more than one interval apart ...
  lemma BandThinned(cfg: Config, now: Instant, snaps: seq<Snapshot>, sortedBand: seq<Snapshot>, s: Snapshot,
      t: Snapshot)
    requires Pruning(cfg, now, snaps, sortedBand) && cfg.retention != 0 && cfg.retentionInterval != 0
    requires s in After(cfg, now, snaps, sortedBand) && t in After(cfg, now, snaps, sortedBand) && s != t
    requires cfg.minimumRetention < now - s.created < cfg.retention
    requires cfg.minimumRetention < now - t.created < cfg.retention
    ensures s.created - t.created > cfg.retentionInterval || t.created - s.created > cfg.retentionInterval
  {
    Survivors(cfg, now, snaps, sortedBand);
    BandSplit(cfg, now, snaps, sortedBand);
    hide After, KeptBand, DeletedBand, Band, Spaced, Ascending, Covered;
    assert InBand(cfg, now, s) && InBand(cfg, now, t);
    if s.created <= t.created {
      SpacedApart(KeptBand(cfg, sortedBand), cfg.retentionInterval, s, t);
    } else {
      SpacedApart(KeptBand(cfg, sortedBand), cfg.retentionInterval, t, s);
    }
  }

  // ... and whatever went was too old or strictly between the periods, with pruning by interval switched on.
  lemma DeletedForAReason(cfg: Config, now: Instant, snaps: seq<Snapshot>, sortedBand: seq<Snapshot>, s: Snapshot)
    requires Pruning(cfg, now, snaps, sortedBand) && s in snaps && s !in After(cfg, now, snaps, sortedBand)
    ensures cfg.retention != 0
    ensures now - s.created > cfg.retention
            || (cfg.retentionInterval != 0 && cfg.minimumRetention < now - s.created < cfg.retention)
  {
    Survivors(cfg, now, snaps, sortedBand);
    hide After, KeptBand, Band;
  }

  // The list kept for the next prune: the snapshots not too old, pruned from the band or not.
  lemma {:induction false} ListedNext(cfg: Config, now: Instant, snaps: seq<Snapshot>, s: Snapshot)
    ensures s in Select(cfg, now, IsLive, snaps) <==>
            s in snaps && (now - s.created <= cfg.retention || cfg.retention == 0x7FFF_FFFF_FFFF_FFFF)
  {
  }

  // Nothing younger than both periods goes.
  lemma YoungSurvive(cfg: Config, now: Instant, snaps: seq<Snapshot>, sortedBand: seq<Snapshot>, s: Snapshot)
    requires Pruning(cfg, now, snaps, sortedBand)
    requires s in snaps && Sub(now, s.created) <= cfg.minimumRetention && Sub(now, s.created) <= cfg.retention
    ensures s in After(cfg, now, snaps, sortedBand)
  {
    Survivors(cfg, now, snaps, sortedBand);
  }

  // Every snapshot deleted from the band has a survivor at most one interval older, itself in the band.
  lemma DeletedAreCovered(cfg: Config, now: Instant, snaps: seq<Snapshot>, sortedBand: seq<Snapshot>, s: Snapshot)
    returns (c: Snapshot)
    requires Pruning(cfg, now, snaps, sortedBand)
    requires s in snaps && InBand(cfg, now, s) && s !in After(cfg, now, snaps, sortedBand)
    ensures c in After(cfg, now, snaps, sortedBand) && InBand(cfg, now, c)
    ensures Covers(c, s, cfg.retentionInterval)
    ensures cfg.retentionInterval < cfg.retention ==> s.created - c.created <= cfg.retentionInterval
  {
    BandSplit(cfg, now, snaps, sortedBand);
    Survivors(cfg, now, snaps, sortedBand);
    hide KeptBand, DeletedBand, Band, After, Sub;
    assert !Expired(cfg, now, s);
    c :| c in KeptBand(cfg, sortedBand) && Covers(c, s, cfg.retentionInterval);
    assert !Expired(cfg, now, c);
    BandDifference(cfg, now, c, s);
  }

  // With an interval below the retention, as the configuration check demands, no saturated difference counts as
  // covered.
  lemma BandDifference(cfg: Config, now: Instant, c: Snapshot, s: Snapshot)
    requires InBand(cfg, now, c) && InBand(cfg, now, s) && Covers(c, s, cfg.retentionInterval)
    ensures cfg.retentionInterval < cfg.retention ==> s.created - c.created <= cfg.retentionInterval
  {
  }

  // ---- no smaller cover exists

  lemma {:induction false} SpacedNeedsMany(heads: seq<Snapshot>, cover: set<Snapshot>, interval: Duration)
    requires Spaced(heads, interval) && Ascending(heads)
    requires forall h <- heads :: exists c <- cover :: Covers(c, h, interval)
    ensures |heads| <= |cover|
  {
    if heads != [] {
      var n := |heads| - 1;
      assert heads[n] in heads;
      var c :| c in cover && Covers(c, heads[n], interval);
      forall h | h in heads[..n] ensures exists d <- cover - {c} :: Covers(d, h, interval) {
        assert h in heads;
        var d :| d in cover && Covers(d, h, interval);
        var i :| 0 <= i < n && heads[i] == h;
        assert Sub(heads[n].created, heads[i].created) > interval;
        assert d in cover - {c};
      }
      SpacedNeedsMany(heads[..n], cover - {c}, interval);
    }
  }

  // Any set that covers the band is at least as large as what pruning keeps of it.
  lemma KeptIsSmallest(cfg: Config, now: Instant, snaps: seq<Snapshot>, sortedBand: seq<Snapshot>, cover: set<Snapshot>)
    requires Pruning(cfg, now, snaps, sortedBand)
    requires forall s <- snaps :: InBand(cfg, now, s) ==> exists c <- cover :: Covers(c, s, cfg.retentionInterval)
    ensures |KeptBand(cfg, sortedBand)| <= |cover|
  {
    hide Sub, KeptBand, DeletedBand, Band;
    BandSplit(cfg, now, snaps, sortedBand);
    SpacedNeedsMany(KeptBand(cfg, sortedBand), cover, cfg.retentionInterval);
  }

  // ---- how many can be left in the band

  lemma {:induction false} SpacedSpan(h: seq<Snapshot>, interval: Duration)
    requires Spaced(h, interval) && Ascending(h) && h != []
    ensures h[|h| - 1].created - h[0].created >= (|h| - 1) * interval
  {
    var n := |h| - 1;
    if n > 0 {
      assert Sub(h[n].created, h[n - 1].created) > interval;
      SpacedSpan(h[..n], interval);
      assert (|h| - 1) * interval == (|h[..n]| - 1) * interval + interval;
    }
  }

  lemma SurvivorBound(cfg: Config, now: Instant, snaps: seq<Snapshot>, sortedBand: seq<Snapshot>)
    requires Pruning(cfg, now, snaps, sortedBand) && KeptBand(cfg, sortedBand) != []
    ensures (|KeptBand(cfg, sortedBand)| - 1) * cfg.retentionInterval < cfg.retention - cfg.minimumRetention
  {
    BandSplit(cfg, now, snaps, sortedBand);
    var kept := KeptBand(cfg, sortedBand);
    hide KeptBand, DeletedBand, Band;
    hide InBand, Sub, Spaced, Covered;
    SpacedSpan(kept, cfg.retentionInterval);
    BandSpan(cfg, now, kept[0], kept[|kept| - 1]);
  }

  lemma BandSpan(cfg: Config, now: Instant, a: Snapshot, b: Snapshot)
    requires InBand(cfg, now, a) && InBand(cfg, now, b)
    ensures b.created - a.created < cfg.retention - cfg.minimumRetention
  {
  }

  // ---- pruning what is left, at the same instant, deletes nothing

  lemma PruningIsIdempotent(cfg: Config, now: Instant, snaps: seq<Snapshot>, sortedBand: seq<Snapshot>,
                            left: seq<Snapshot>, sortedLeft: seq<Snapshot>)
    requires Pruning(cfg, now, snaps, sortedBand) && Pruning(cfg, now, left, sortedLeft)
    requires (set s <- left) == After(cfg, now, snaps, sortedBand)
    ensures Plan(cfg, now, left, sortedLeft) == []
  {
    if cfg.retention != 0 {
      hide KeptBand, DeletedBand, Band, After;
      assert forall s :: s in left <==> s in (set s <- left);
      Survivors(cfg, now, snaps, sortedBand);
      BandSplit(cfg, now, snaps, sortedBand);
      BandSplit(cfg, now, left, sortedLeft);
      var plan := Plan(cfg, now, left, sortedLeft);
      DeletedIsTails(cfg, sortedLeft);
      if plan != [] {
        var s := plan[0];
        assert s in plan;
        assert !Expired(cfg, now, s);
        assert s in DeletedBand(cfg, sortedLeft) && cfg.retentionInterval != 0;
        var c :| c in KeptBand(cfg, sortedLeft) && Covers(c, s, cfg.retentionInterval);
        var kept := KeptBand(cfg, sortedBand);
        assert c in kept && s in kept && c != s;
        SpacedApart(kept, cfg.retentionInterval, c, s);
      }
    }
  }

  // Two different spaced snapshots never cover each other.
  lemma SpacedApart(h: seq<Snapshot>, interval: Duration, c: Snapshot, s: Snapshot)
    requires Spaced(h, interval) && Ascending(h) && c in h && s in h && c != s
    ensures !Covers(c, s, interval)
  {
    var i :| 0 <= i < |h| && h[i] == c;
    var j :| 0 <= j < |h| && h[j] == s;
    if i < j {
      assert Sub(h[j].created, h[i].created) > interval;
    } else {
      assert Sub(h[i].created, h[j].created) > interval;
    }
  }

  // ---- runs

  // One later prune: snapshots were added, all listed (in any order) and pruned at `now`, up to the first that cannot
  // be deleted.
  datatype Event = Event(added: set<Snapshot>, now: Instant, listing: seq<Snapshot>, sortedBand: seq<Snapshot>,
                         stuck: set<Snapshot>)

  // The clock does not go back and every new snapshot is younger than all that are there.
  ghost predicate Follows(cfg: Config, before: set<Snapshot>, clock: Instant, e: Event) {
    && e.now >= clock
    && (forall a <- e.added, s <- before :: s.created < a.created)
    && (set s <- e.listing) == before + e.added
    && Pruning(cfg, e.now, e.listing, e.sortedBand)
  }

  ghost predicate ValidRun(cfg: Config, before: set<Snapshot>, clock: Instant, run: seq<Event>)
    decreases |run|
  {
    run == [] ||
    (Follows(cfg, before, clock, run[0]) && ValidRun(cfg, Result(cfg, run[0]), run[0].now, run[1..]))
  }

  ghost function Result(cfg: Config, e: Event): set<Snapshot> {
    Attempt(Plan(cfg, e.now, e.listing, e.sortedBand), (set s <- e.listing), e.stuck).0
  }

  // However far it got, it left what a complete prune leaves, and nothing that was not there.
  lemma ResultBounds(cfg: Config, e: Event)
    ensures After(cfg, e.now, e.listing, e.sortedBand) <= Result(cfg, e) <= (set s <- e.listing)
  {
    hide Plan, Attempt;
    AttemptDeletesOnlyPlanned(Plan(cfg, e.now, e.listing, e.sortedBand), (set s <- e.listing), e.stuck);
  }

  // s is there and no older snapshot that was ever young enough to matter covers it.
  ghost predicate Settled(cfg: Config, start: Instant, present: set<Snapshot>, s: Snapshot) {
    && s in present
    && (cfg.retentionInterval != 0 ==>
          forall h <- present :: h != s && Sub(start, h.created) < cfg.retention ==>
              !Covers(h, s, cfg.retentionInterval))
  }

  lemma SettledAfterPrune(cfg: Config, now: Instant, snaps: seq<Snapshot>, sortedBand: seq<Snapshot>, s: Snapshot)
    requires Pruning(cfg, now, snaps, sortedBand) && cfg.retention != 0
    requires InBand(cfg, now, s) && s in After(cfg, now, snaps, sortedBand)
    ensures Settled(cfg, now, After(cfg, now, snaps, sortedBand), s)
  {
    hide KeptBand, DeletedBand, Band, After, Sorted;
    BandSplit(cfg, now, snaps, sortedBand);
    Survivors(cfg, now, snaps, sortedBand);
    if cfg.retentionInterval != 0 {
      forall h | h in After(cfg, now, snaps, sortedBand) && h != s && Sub(now, h.created) < cfg.retention
        ensures !Covers(h, s, cfg.retentionInterval)
      {
        if h.created <= s.created {
          assert InBand(cfg, now, h);
          SpacedApart(KeptBand(cfg, sortedBand), cfg.retentionInterval, h, s);
        }
      }
    }
  }

  lemma SettledStays(cfg: Config, start: Instant, before: set<Snapshot>, clock: Instant, e: Event, s: Snapshot)
    requires start <= clock && cfg.retention != 0 && Settled(cfg, start, before, s) && Follows(cfg, before, clock, e)
    requires !Expired(cfg, e.now, s)
    ensures Settled(cfg, start, Result(cfg, e), s)
  {
    hide KeptBand, DeletedBand, Band, After, Sub, Sorted, Plan, Attempt, Result;
    BandSplit(cfg, e.now, e.listing, e.sortedBand);
    Survivors(cfg, e.now, e.listing, e.sortedBand);
    ResultBounds(cfg, e);
    assert forall x :: x in e.listing <==> x in (set y <- e.listing);
    assert forall x :: x in e.listing && x.created <= s.created ==> x in before;
    if InBand(cfg, e.now, s) && cfg.retentionInterval != 0 && s !in KeptBand(cfg, e.sortedBand) {
      assert s in DeletedBand(cfg, e.sortedBand);
      var h :| h in KeptBand(cfg, e.sortedBand) && Covers(h, s, cfg.retentionInterval);
      OlderWithTime(start, e.now, h.created);
      assert false;
    }
    assert forall h <- Result(cfg, e) :: h in before || s.created < h.created;
  }

  lemma OlderWithTime(start: Instant, now: Instant, created: Instant)
    requires start <= now
    ensures Sub(start, created) <= Sub(now, created)
  {
  }

  // The state of a run after its first n prunes.
  ghost function StateAfter(cfg: Config, before: set<Snapshot>, run: seq<Event>, n: nat): set<Snapshot>
    requires n <= |run|
  {
    if n == 0 then before else Result(cfg, run[n - 1])
  }

  lemma {:induction false} SettledOverRun(cfg: Config, start: Instant, before: set<Snapshot>, clock: Instant,
                                          run: seq<Event>, n: nat, s: Snapshot)
    requires start <= clock && cfg.retention != 0 && Settled(cfg, start, before, s)
    requires ValidRun(cfg, before, clock, run) && n <= |run|
    requires forall i | 0 <= i < n :: !Expired(cfg, run[i].now, s)
    ensures s in StateAfter(cfg, before, run, n)
    decreases n
  {
    hide Result, Expired, Settled, Follows;
    assert s in before by { SettledIn(cfg, start, before, s); }
    if n > 0 {
      assert !Expired(cfg, run[0].now, s);
      SettledStays(cfg, start, before, clock, run[0], s);
      assert run[0].now >= clock by { ClockForward(cfg, before, clock, run[0]); }
      SettledOverRun(cfg, start, Result(cfg, run[0]), run[0].now, run[1..], n - 1, s);
      assert StateAfter(cfg, before, run, n) == StateAfter(cfg, Result(cfg, run[0]), run[1..], n - 1);
    }
  }

  // With a retention of zero nothing ever goes.
  lemma {:induction false} AllStay(cfg: Config, before: set<Snapshot>, clock: Instant, run: seq<Event>, n: nat,
      s: Snapshot)
    requires cfg.retention == 0 && ValidRun(cfg, before, clock, run) && n <= |run| && s in before
    ensures s in StateAfter(cfg, before, run, n)
    decreases n
  {
    hide Pruning;
    if n > 0 {
      AllStay(cfg, Result(cfg, run[0]), run[0].now, run[1..], n - 1, s);
      assert StateAfter(cfg, before, run, n) == StateAfter(cfg, Result(cfg, run[0]), run[1..], n - 1);
    }
  }

  lemma SettledIn(cfg: Config, start: Instant, present: set<Snapshot>, s: Snapshot)
    ensures Settled(cfg, start, present, s) ==> s in present
  {
  }

  lemma ClockForward(cfg: Config, before: set<Snapshot>, clock: Instant, e: Event)
    ensures Follows(cfg, before, clock, e) ==> e.now >= clock
  {
  }

  // A snapshot that survives one complete prune while strictly between the two periods survives every later prune,
  // complete or not, until its age exceeds the retention.
  lemma {:induction false} RetentionIsStable(cfg: Config, now: Instant, snaps: seq<Snapshot>, sortedBand: seq<Snapshot>,
                          run: seq<Event>, n: nat, s: Snapshot)
    requires Pruning(cfg, now, snaps, sortedBand)
    requires ValidRun(cfg, After(cfg, now, snaps, sortedBand), now, run) && n <= |run|
    requires InBand(cfg, now, s) && s in After(cfg, now, snaps, sortedBand)
    requires forall i | 0 <= i < n :: Sub(run[i].now, s.created) <= cfg.retention
    ensures s in StateAfter(cfg, After(cfg, now, snaps, sortedBand), run, n)
  {
    if cfg.retention == 0 {
      AllStay(cfg, After(cfg, now, snaps, sortedBand), now, run, n, s);
    } else {
      SettledAfterPrune(cfg, now, snaps, sortedBand, s);
      SettledOverRun(cfg, now, After(cfg, now, snaps, sortedBand), now, run, n, s);
    }
  }
}
