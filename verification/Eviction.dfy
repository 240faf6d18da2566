/**
 The last-resort eviction of the request limiter: which windows it can and must remove, and when it
 keeps the order its description promises.
 */
module Eviction {
  import opened Common
  import opened Indices
  import opened RateLimit

  /** One last-resort eviction at time `now`. */
  ghost predicate Evicts(w: Windows, w': Windows, now: nat) {
    EvictsLowest(w, w', AgeRank(w, now), EVICT_LAST_RESORT)
  }

  ghost predicate Started(w: Windows, now: nat) {
    forall k :: k in w ==> w[k].start <= now
  }

  lemma RemovedSize(w: Windows, w': Windows, now: nat)
    requires Evicts(w, w', now)
    ensures w'.Keys <= w.Keys && |w.Keys - w'.Keys| == Min(EVICT_LAST_RESORT, |w|)
    ensures |w'| == |w| - Min(EVICT_LAST_RESORT, |w|)
  {
    LastResortSize(w, w', now);
    assert |w.Keys - w'.Keys| == |w.Keys| - |w'.Keys|;
  }

  lemma Removed(w: Windows, w': Windows, now: nat) returns (gone: set<Key>)
    requires Evicts(w, w', now) && Started(w, now)
    ensures gone == w.Keys - w'.Keys && |gone| == Min(EVICT_LAST_RESORT, |w|) && |w'| == |w| - |gone|
    ensures forall g, r :: g in gone && r in w' ==> w[r].start <= w[g].start
  {
    gone := w.Keys - w'.Keys;
    RemovedSize(w, w', now);
    forall g, r | g in gone && r in w' ensures w[r].start <= w[g].start {
      GoneIsYounger(w, w', now, g, r);
    }
  }

  lemma GoneIsYounger(w: Windows, w': Windows, now: nat, g: Key, r: Key)
    requires Evicts(w, w', now) && Started(w, now) && g in w && g !in w' && r in w'
    ensures r in w && w[r].start <= w[g].start
  {
    var rank := AgeRank(w, now);
    assert g in rank && r in rank;
    assert rank[g] <= rank[r];
  }

  /**
   The windows are said to go oldest first. That holds if and only if all of them go or all started
   at the same time.
   */
  lemma OldestFirstExactly(w: Windows, w': Windows, now: nat)
    requires Evicts(w, w', now) && Started(w, now)
    ensures (forall g, r :: g in w && g !in w' && r in w' ==> w[g].start <= w[r].start)
            <==> |w| <= EVICT_LAST_RESORT || forall a, b :: a in w && b in w ==> w[a].start == w[b].start
  {
    var gone := Removed(w, w', now);
    if |w| <= EVICT_LAST_RESORT {
      assert |w'| == 0;
    } else {
      var g0 :| g0 in gone;
      assert |w'.Keys| > 0;
      var r0 :| r0 in w';
      if forall g, r :: g in w && g !in w' && r in w' ==> w[g].start <= w[r].start {
        forall a | a in w ensures w[a].start == w[r0].start {
          if a in w' { assert w[g0].start == w[a].start && w[g0].start == w[r0].start; }
        }
      }
    }
  }

  // ------------------------------------------------------------ what an eviction may choose

  lemma {:induction false} LowestSubset(s: set<Key>, rank: map<Key, nat>, n: nat) returns (g: set<Key>)
    requires s <= rank.Keys && n <= |s|
    ensures g <= s && |g| == n && forall x, y :: x in g && y in s - g ==> rank[x] <= rank[y]
  {
    if n == 0 {
      g := {};
    } else {
      var h := LowestSubset(s, rank, n - 1);
      assert |s - h| == |s| - |h|;
      var k := LowestExists(s - h, rank);
      g := h + {k};
    }
  }

  lemma EvictionOf(w: Windows, gone: set<Key>, now: nat)
    requires gone <= w.Keys && |gone| == Min(EVICT_LAST_RESORT, |w|)
    requires forall g, r :: g in gone && r in w.Keys - gone ==> AgeRank(w, now)[g] <= AgeRank(w, now)[r]
    ensures Evicts(w, w - gone, now)
  {
    var w' := w - gone;
    assert w'.Keys == w.Keys - gone;
    assert |w'.Keys| == |w.Keys| - |gone|;
    assert AgeRank(w, now).Keys == w.Keys && |AgeRank(w, now).Keys| == |w.Keys|;
  }

  /** The other windows that are as young as that of `k`. */
  ghost function AsYoung(w: Windows, k: Key): set<Key>
    requires k in w
  {
    set j | j in w && j != k && w[j].start >= w[k].start
  }

  ghost function Younger(w: Windows, k: Key): set<Key>
    requires k in w
  {
    set j | j in w && w[j].start > w[k].start
  }

  lemma MayKeep(w: Windows, k: Key, now: nat) returns (w': Windows)
    requires k in w && Started(w, now) && |AsYoung(w, k)| >= EVICT_LAST_RESORT
    ensures Evicts(w, w', now) && k in w'
  {
    var rank, others := AgeRank(w, now), w.Keys - {k};
    SubsetSize(AsYoung(w, k), others);
    var g := LowestSubset(others, rank, EVICT_LAST_RESORT);
    assert |others| == |w.Keys| - 1;
    forall x | x in g ensures rank[x] <= rank[k] {
      if rank[x] > rank[k] {
        forall j | j in AsYoung(w, k) ensures j in g - {x} {
          assert rank[j] <= rank[k];
        }
        SubsetSize(AsYoung(w, k), g - {x});
      }
    }
    EvictionOf(w, g, now);
    w' := w - g;
  }

  lemma MayDrop(w: Windows, k: Key, now: nat) returns (w': Windows)
    requires k in w && Started(w, now) && |Younger(w, k)| < EVICT_LAST_RESORT
    ensures Evicts(w, w', now) && k !in w'
  {
    var rank, others := AgeRank(w, now), w.Keys - {k};
    var n := Min(EVICT_LAST_RESORT, |w|);
    assert |others| == |w.Keys| - 1;
    var h := LowestSubset(others, rank, n - 1);
    var g := h + {k};
    forall r | r in w.Keys - g ensures rank[k] <= rank[r] {
      if rank[r] < rank[k] {
        assert forall x :: x in h ==> rank[x] <= rank[r];
        assert forall x :: x in h + {r} ==> x in Younger(w, k);
        assert |h + {r}| == n && |g + {r}| == n + 1;
        SubsetSize(g + {r}, w.Keys);
        SubsetSize(h + {r}, Younger(w, k));
      }
    }
    EvictionOf(w, g, now);
    w' := w - g;
  }

  /** A window is removed whatever ties are broken exactly if fewer than 1000 others are as young. */
  lemma DroppedAlways(w: Windows, k: Key, now: nat)
    requires k in w && Started(w, now)
    ensures (forall w' :: Evicts(w, w', now) ==> k !in w') <==> |AsYoung(w, k)| < EVICT_LAST_RESORT
  {
    if |AsYoung(w, k)| < EVICT_LAST_RESORT {
      forall w' | Evicts(w, w', now) ensures k !in w' {
        var gone := Removed(w, w', now);
        if k in w' {
          assert gone <= AsYoung(w, k) && |w'| > 0;
          SubsetSize(gone, AsYoung(w, k));
        }
      }
    } else {
      var w' := MayKeep(w, k, now);
    }
  }

  /** A window is kept whatever ties are broken exactly if at least 1000 are strictly younger. */
  lemma KeptAlways(w: Windows, k: Key, now: nat)
    requires k in w && Started(w, now)
    ensures (forall w' :: Evicts(w, w', now) ==> k in w') <==> |Younger(w, k)| >= EVICT_LAST_RESORT
  {
    if |Younger(w, k)| >= EVICT_LAST_RESORT {
      forall w' | Evicts(w, w', now) ensures k in w' {
        var gone := Removed(w, w', now);
        if k !in w' {
          assert k in gone && Younger(w, k) + {k} <= gone;
          assert |Younger(w, k) + {k}| == |Younger(w, k)| + 1;
          SubsetSize(Younger(w, k) + {k}, gone);
        }
      }
    } else {
      var w' := MayDrop(w, k, now);
    }
  }

  // ------------------------------------------------------------ whole checks

  lemma NothingLow(c: Windows, e: Windows, cfg: Config)
    requires forall k :: k in c ==> Throttled(c, k, cfg)
    ensures EvictsLowest(c, e, CountRank(c, cfg), EVICT_LOWEST) <==> e == c
  {
    var rank := CountRank(c, cfg);
    assert rank == map[];
    if EvictsLowest(c, e, rank, EVICT_LOWEST) {
      assert |c.Keys - e.Keys| == |c.Keys| - |e.Keys|;
      assert e.Keys == c.Keys;
    }
  }

  lemma FewAllGo(c: Windows, w': Windows, now: nat)
    requires |c| <= EVICT_LAST_RESORT
    ensures Evicts(c, w', now) <==> w' == map[]
  {
    if Evicts(c, w', now) {
      LastResortSize(c, w', now);
    }
    assert AgeRank(c, now).Keys == c.Keys && |AgeRank(c, now).Keys| == |c.Keys|;
  }

  lemma LowAllGo(c: Windows, cfg: Config) returns (e: Windows)
    requires |c| <= EVICT_LOWEST
    ensures EvictsLowest(c, e, CountRank(c, cfg), EVICT_LOWEST) && |e| <= |c|
  {
    var low := CountRank(c, cfg).Keys;
    e := c - low;
    SubsetSize(low, c.Keys);
    assert e.Keys == c.Keys - low && |e.Keys| == |c.Keys| - |low|;
    assert |CountRank(c, cfg).Keys| == |CountRank(c, cfg)|;
  }

  /** Without a slot the map holds one entry at most, and the evictions empty it. */
  lemma NoSlotPressure(c: Windows, r: Windows, cfg: Config, now: nat)
    requires cfg.maxCapacity == 0 && |c| <= 1
    ensures EvictsUnderPressure(c, r, cfg, now) <==> Evicts(c, r, now)
  {
    FewAllGo(c, r, now);
    if EvictsUnderPressure(c, r, cfg, now) {
      var e: Windows :| EvictsLowest(c, e, CountRank(c, cfg), EVICT_LOWEST)
        && if |e| < cfg.maxCapacity then r == e else EvictsLowest(e, r, AgeRank(e, now), EVICT_LAST_RESORT);
      FewAllGo(e, r, now);
    }
    if r == map[] {
      var e := LowAllGo(c, cfg);
      FewAllGo(e, r, now);
    }
  }

  lemma ThrottledPressure(c: Windows, r: Windows, cfg: Config, now: nat)
    requires |c| >= cfg.maxCapacity && forall k :: k in c ==> Throttled(c, k, cfg)
    ensures EvictsUnderPressure(c, r, cfg, now) <==> Evicts(c, r, now)
  {
    NothingLow(c, c, cfg);
    if EvictsUnderPressure(c, r, cfg, now) {
      var e: Windows :| EvictsLowest(c, e, CountRank(c, cfg), EVICT_LOWEST)
        && if |e| < cfg.maxCapacity then r == e else EvictsLowest(e, r, AgeRank(e, now), EVICT_LAST_RESORT);
      NothingLow(c, e, cfg);
    }
  }

  /** A check in the last-resort situation evicts from what survives cleanup, and inserts its key. */
  ghost predicate EvictsAndInserts(c: Windows, e: Event, w': Windows)
    requires e.Check?
  {
    exists r: Windows :: Evicts(c, r, e.t2) && w' == r[e.key := Entry(1, e.t0)]
  }

  lemma StepEvicts(w: Windows, e: Event, w': Windows, cfg: Config)
    requires LastResort(w, e, cfg) && e.allowed && |w| <= Max(1, cfg.maxCapacity)
    ensures Steps(cfg, w, e, w') <==> EvictsAndInserts(Cleaned(w, cfg, e.t1), e, w')
  {
    var c := Cleaned(w, cfg, e.t1);
    SubsetSize(c.Keys, w.Keys);
    forall r: Windows ensures MakesRoom(w, r, cfg, e.t1, e.t2) <==> Evicts(c, r, e.t2) {
      if cfg.maxCapacity == 0 { NoSlotPressure(c, r, cfg, e.t2); } else { ThrottledPressure(c, r, cfg, e.t2); }
    }
  }

  /**
   What a check in the last-resort situation does to a key that survives cleanup: it is dropped in
   every outcome exactly if fewer than 1000 other survivors are as young, and kept in every outcome
   exactly if at least 1000 are strictly younger.
   */
  lemma LastResortDecides(w: Windows, e: Event, k: Key, cfg: Config)
    requires LastResort(w, e, cfg) && e.allowed && |w| <= Max(1, cfg.maxCapacity)
    requires k in Cleaned(w, cfg, e.t1) && Started(w, e.t2)
    ensures (forall w' :: Steps(cfg, w, e, w') ==> k !in w')
            <==> |AsYoung(Cleaned(w, cfg, e.t1), k)| < EVICT_LAST_RESORT
    ensures (forall w' :: Steps(cfg, w, e, w') ==> k in w')
            <==> |Younger(Cleaned(w, cfg, e.t1), k)| >= EVICT_LAST_RESORT
  {
    var c := Cleaned(w, cfg, e.t1);
    DroppedAlways(c, k, e.t2);
    KeptAlways(c, k, e.t2);
    forall w': Windows ensures Steps(cfg, w, e, w') <==> EvictsAndInserts(c, e, w') {
      StepEvicts(w, e, w', cfg);
    }
    assert k != e.key;
    OutcomesAgree(w, e, k, cfg, c);
  }

  /** A key other than the one checked fares in the check as it fares in the eviction. */
  lemma OutcomesAgree(w: Windows, e: Event, k: Key, cfg: Config, c: Windows)
    requires e.Check? && k != e.key
    requires forall w' :: Steps(cfg, w, e, w') <==> EvictsAndInserts(c, e, w')
    ensures (forall w' :: Steps(cfg, w, e, w') ==> k !in w') <==> (forall r :: Evicts(c, r, e.t2) ==> k !in r)
    ensures (forall w' :: Steps(cfg, w, e, w') ==> k in w') <==> (forall r :: Evicts(c, r, e.t2) ==> k in r)
  {
    forall r: Windows | Evicts(c, r, e.t2) ensures Steps(cfg, w, e, r[e.key := Entry(1, e.t0)]) {
      assert EvictsAndInserts(c, e, r[e.key := Entry(1, e.t0)]);
    }
  }

  /**
   The exact condition for a throttled key: a check of another key inside its window keeps it in
   every outcome if and only if, in the last-resort situation, at least 1000 survivors are younger.
   */
  lemma ThrottleKeptExactly(w: Windows, e: Event, k: Key, cfg: Config)
    requires Throttled(w, k, cfg) && e.Check? && e.key != k && (e.key !in w ==> e.allowed)
    requires |w| <= Max(1, cfg.maxCapacity) && Started(w, e.t2)
    requires w[k].start <= e.t0 && e.Ordered() && e.t2 < w[k].start + cfg.window
    ensures (forall w' :: Steps(cfg, w, e, w') ==> k in w')
            <==> (LastResort(w, e, cfg) ==> |Younger(Cleaned(w, cfg, e.t1), k)| >= EVICT_LAST_RESORT)
  {
    if LastResort(w, e, cfg) {
      LastResortDecides(w, e, k, cfg);
    } else {
      forall w' | Steps(cfg, w, e, w') ensures k in w' {
        ThrottleSurvivesStep(w, e, w', k, cfg);
      }
    }
  }

  // ------------------------------------------------------------ a run in which the oldest survives

  /** Throttled windows of keys 0, 1, ..., each started one tick after the other. */
  ghost function Staircase(n: nat): Windows {
    if n == 0 then map[] else Staircase(n - 1)[Ip(n - 1) := Entry(1, n - 1)]
  }

  lemma {:induction false} StaircaseHolds(n: nat)
    ensures |Staircase(n)| == n
    ensures forall k :: k in Staircase(n) <==> k.Ip? && k.address < n
    ensures forall k :: k in Staircase(n) ==> Staircase(n)[k] == Entry(1, k.address)
  {
    if n > 0 {
      StaircaseHolds(n - 1);
      assert Staircase(n).Keys == Staircase(n - 1).Keys + {Ip(n - 1)};
    }
  }

  /** The checks that build it. */
  ghost function Climb(n: nat): Run {
    if n == 0 then Init
    else Extend(Climb(n - 1), Check(Ip(n - 1), n - 1, n - 1, n - 1, true), Staircase(n))
  }

  lemma {:induction false} ClimbIsValid(n: nat, cfg: Config)
    requires n <= cfg.maxCapacity
    ensures Valid(Climb(n), cfg) && Climb(n).State() == Staircase(n) && Climb(n).Clock() <= n
  {
    if n > 0 {
      ClimbIsValid(n - 1, cfg);
      ClimbSteps(n - 1, cfg);
      ExtendsValid(Climb(n - 1), Climb(n).event, Staircase(n), cfg);
    }
  }

  lemma ClimbSteps(n: nat, cfg: Config)
    requires n < cfg.maxCapacity
    ensures Steps(cfg, Staircase(n), Check(Ip(n), n, n, n, true), Staircase(n + 1))
  {
    StaircaseHolds(n);
    var w := Staircase(n);
    assert MakesRoom(w, w, cfg, n, n);
  }

  /**
   For every capacity above 1000 there is a run in which every window is throttled, the next key
   forces the last resort, the oldest window stays and the youngest goes.
   */
  lemma OldestSurvives(capacity: nat, window: nat) returns (r: Run)
    requires EVICT_LAST_RESORT < capacity < window
    ensures var cfg := Config(1, window, capacity);
            && Valid(r, cfg) && r.Extend? && r.prev == Climb(capacity) && LastResort(r.prev.State(), r.event, cfg)
    ensures Ip(0) in r.State() && Ip(capacity - 1) !in r.State()
    ensures var w, a, b := Climb(capacity).State(), Ip(0), Ip(capacity - 1);
            a in w && b in w && w[a].start < w[b].start
  {
    var cfg, n := Config(1, window, capacity), capacity;
    ClimbIsValid(n, cfg);
    StaircaseHolds(n);
    var w' := NextKeyEvicts(n, cfg);
    r := Extend(Climb(n), Check(Ip(n), n, n, n, true), w');
    ExtendsValid(Climb(n), r.event, w', cfg);
  }

  /** The check of one more key than there are slots. */
  lemma NextKeyEvicts(n: nat, cfg: Config) returns (w': Windows)
    requires cfg.maxRequests == 1 && EVICT_LAST_RESORT < n == cfg.maxCapacity < cfg.window
    ensures var w, e := Staircase(n), Check(Ip(n), n, n, n, true);
            LastResort(w, e, cfg) && Steps(cfg, w, e, w') && Ip(0) in w' && Ip(n - 1) !in w'
  {
    var w, e := Staircase(n), Check(Ip(n), n, n, n, true);
    StaircaseHolds(n);
    assert Cleaned(w, cfg, n) == w;
    var r := SomeEviction(w, n);
    ExtremesFare(w, r, n, Ip(0), Ip(n - 1));
    w' := r[Ip(n) := Entry(1, n)];
    StepEvicts(w, e, w', cfg);
  }

  lemma SomeEviction(w: Windows, now: nat) returns (w': Windows)
    requires |w| >= EVICT_LAST_RESORT
    ensures Evicts(w, w', now)
  {
    var rank := AgeRank(w, now);
    assert rank.Keys == w.Keys;
    var g := LowestSubset(w.Keys, rank, EVICT_LAST_RESORT);
    EvictionOf(w, g, now);
    w' := w - g;
  }

  /** With more than 1000 windows, one older than all others stays, and one younger goes. */
  lemma ExtremesFare(w: Windows, w': Windows, now: nat, first: Key, last: Key)
    requires Evicts(w, w', now) && Started(w, now) && |w| > EVICT_LAST_RESORT && first in w && last in w
    requires forall k :: k in w && k != first ==> w[first].start < w[k].start
    requires forall k :: k in w && k != last ==> w[k].start < w[last].start
    ensures first in w' && last !in w'
  {
    var gone := Removed(w, w', now);
    assert |w'.Keys| > 0;
    var g :| g in gone;
    var r :| r in w';
    assert first in gone || first in w';
  }
}
