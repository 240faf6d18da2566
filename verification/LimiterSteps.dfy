/**
 One step of the request limiter in any run, spelled out on the entries of the map: what a cleanup
 removes, what a check returns and writes, and which entries make room for a new key.
 */
module LimiterSteps {
  import opened Common
  import opened RateLimit
  import opened Eviction
  import opened Forgetting

  /** The keys whose window has not ended at `now`. */
  ghost function Live(w: Windows, now: nat, cfg: Config): set<Key> {
    set k | k in w && now < w[k].start + cfg.window
  }

  /** Those among them with requests left. */
  ghost function LiveUnthrottled(w: Windows, now: nat, cfg: Config): set<Key> {
    set k | k in w && now < w[k].start + cfg.window && w[k].count < cfg.maxRequests
  }

  /** `r` holds exactly the entries of `w` under `keys`. */
  ghost predicate Keeps(w: Windows, r: Windows, keys: set<Key>) {
    r.Keys == keys && forall k :: k in r ==> k in w && r[k] == w[k]
  }

  /** Of the live entries up to ten thousand unthrottled ones are dropped, low counts first. */
  ghost predicate DropsLow(w: Windows, r: Windows, live: set<Key>, low: set<Key>) {
    && r.Keys <= live && live - low <= r.Keys && (forall k :: k in r ==> k in w && r[k] == w[k])
    && |r.Keys| == |live| - (if |low| < 10_000 then |low| else 10_000)
    && forall g, k :: g in low && g !in r && k in low && k in r && g in w ==> w[g].count <= w[k].count
  }

  /** Of the live entries up to one thousand are dropped, and none started before one that stays. */
  ghost predicate DropsYoung(w: Windows, r: Windows, live: set<Key>) {
    && r.Keys <= live && (forall k :: k in r ==> k in w && r[k] == w[k])
    && |r.Keys| == |live| - (if |live| < 1_000 then |live| else 1_000)
    && forall g, k :: g in live && g !in r && k in r && g in w ==> w[k].start <= w[g].start
  }

  ghost predicate RoomFor(w: Windows, r: Windows, cfg: Config, now: nat) {
    var live, low := Live(w, now, cfg), LiveUnthrottled(w, now, cfg);
    if |w| < cfg.maxCapacity then r == w
    else if |live| < cfg.maxCapacity then Keeps(w, r, live)
    else if cfg.maxCapacity != 0 && low != {} then DropsLow(w, r, live, low)
    else DropsYoung(w, r, live)
  }

  lemma CleanedIsLive(w: Windows, cfg: Config, now: nat)
    requires Started(w, now)
    ensures Cleaned(w, cfg, now).Keys == Live(w, now, cfg)
    ensures CountRank(Cleaned(w, cfg, now), cfg).Keys == LiveUnthrottled(w, now, cfg)
  {
  }

  lemma LowExactly(w: Windows, c: Windows, r: Windows, rank: map<Key, nat>)
    requires Within(c, w) && rank.Keys <= c.Keys && forall k :: k in rank ==> rank[k] == c[k].count
    ensures EvictsLowest(c, r, rank, 10_000) <==> DropsLow(w, r, c.Keys, rank.Keys)
  {
    assert |rank| == |rank.Keys| && |c| == |c.Keys| && |r| == |r.Keys|;
    if EvictsLowest(c, r, rank, 10_000) {
      forall g, k | g in rank && g !in r && k in rank && k in r && g in w ensures w[g].count <= w[k].count {
        assert rank[g] <= rank[k];
      }
      forall k | k in c.Keys - rank.Keys ensures k in r {}
    }
    if DropsLow(w, r, c.Keys, rank.Keys) {
      forall g, k | g in c && g !in r && k in r && g in rank && k in rank ensures rank[g] <= rank[k] {
        assert w[g].count <= w[k].count;
      }
    }
  }

  lemma YoungExactly(w: Windows, c: Windows, r: Windows, rank: map<Key, nat>, now: nat)
    requires Within(c, w) && Started(c, now)
    requires rank.Keys == c.Keys && forall k :: k in rank ==> rank[k] == now - c[k].start
    ensures EvictsLowest(c, r, rank, 1_000) <==> DropsYoung(w, r, c.Keys)
  {
    assert |rank| == |rank.Keys| && |c| == |c.Keys| && |r| == |r.Keys|;
    if EvictsLowest(c, r, rank, 1_000) {
      forall g, k | g in c && g !in r && k in r && g in w ensures w[k].start <= w[g].start {
        assert g in rank && k in rank && rank[g] <= rank[k];
      }
    }
    if DropsYoung(w, r, c.Keys) {
      forall g, k | g in c && g !in r && k in r && g in rank && k in rank ensures rank[g] <= rank[k] {
        assert w[k].start <= w[g].start;
      }
    }
  }

  /** With an unthrottled entry left the first eviction makes the room. */
  lemma LowPressure(w: Windows, c: Windows, r: Windows, cfg: Config, now: nat)
    requires Within(c, w) && 0 < cfg.maxCapacity == |c| && CountRank(c, cfg).Keys != {}
    ensures EvictsUnderPressure(c, r, cfg, now) <==> DropsLow(w, r, c.Keys, CountRank(c, cfg).Keys)
  {
    var rank := CountRank(c, cfg);
    var k :| k in rank.Keys;
    assert k in c && !Throttled(c, k, cfg);
    forall e: Windows | EvictsLowest(c, e, rank, EVICT_LOWEST) ensures |e| < cfg.maxCapacity {
      LowCountsFreeASlot(c, e, cfg);
    }
    LowExactly(w, c, r, rank);
  }

  lemma LastPressure(w: Windows, c: Windows, r: Windows, cfg: Config, now: nat)
    requires Within(c, w) && cfg.maxCapacity <= |c| <= Max(1, cfg.maxCapacity) && Started(c, now)
    requires cfg.maxCapacity == 0 || CountRank(c, cfg).Keys == {}
    ensures EvictsUnderPressure(c, r, cfg, now) <==> DropsYoung(w, r, c.Keys)
  {
    if cfg.maxCapacity == 0 {
      NoSlotPressure(c, r, cfg, now);
    } else {
      forall k | k in c ensures Throttled(c, k, cfg) {
        assert k !in CountRank(c, cfg).Keys;
      }
      ThrottledPressure(c, r, cfg, now);
    }
    YoungExactly(w, c, r, AgeRank(c, now), now);
  }

  lemma RoomExactly(w: Windows, r: Windows, cfg: Config, t1: nat, t2: nat)
    requires |w| <= Max(1, cfg.maxCapacity) && Started(w, t1) && t1 <= t2
    ensures MakesRoom(w, r, cfg, t1, t2) <==> RoomFor(w, r, cfg, t1)
  {
    var c := Cleaned(w, cfg, t1);
    CleanedIsLive(w, cfg, t1);
    assert |c| == |c.Keys|;
    SubsetSize(c.Keys, w.Keys);
    if |w| >= cfg.maxCapacity {
      if |c| < cfg.maxCapacity {
        assert Keeps(w, r, c.Keys) <==> r == c;
      } else if cfg.maxCapacity != 0 && CountRank(c, cfg).Keys != {} {
        LowPressure(w, c, r, cfg, t2);
      } else {
        LastPressure(w, c, r, cfg, t2);
      }
    }
  }

  /** A step of the limiter, spelled out. */
  ghost predicate Spelled(w: Windows, e: Event, w': Windows, cfg: Config) {
    match e
    case Cleanup(now) => Keeps(w, w', Live(w, now, cfg))
    case Check(key, t0, t1, _, allowed) =>
      if key !in w then allowed && exists r: Windows :: RoomFor(w, r, cfg, t1) && w' == r[key := Entry(1, t0)]
      else if t0 >= w[key].start + cfg.window then allowed && w' == w[key := Entry(1, t0)]
      else if w[key].count < cfg.maxRequests then allowed && w' == w[key := Entry(w[key].count + 1, w[key].start)]
      else !allowed && w' == w
  }

  lemma SpelledExactly(w: Windows, e: Event, w': Windows, cfg: Config)
    requires |w| <= Max(1, cfg.maxCapacity) && Started(w, e.First()) && e.Ordered()
    ensures Steps(cfg, w, e, w') <==> Spelled(w, e, w', cfg)
  {
    if e.Cleanup? {
      CleanedIsLive(w, cfg, e.now);
      assert Keeps(w, w', Live(w, e.now, cfg)) <==> w' == Cleaned(w, cfg, e.now);
    } else if e.key !in w {
      forall r: Windows ensures MakesRoom(w, r, cfg, e.t1, e.t2) <==> RoomFor(w, r, cfg, e.t1) {
        RoomExactly(w, r, cfg, e.t1, e.t2);
      }
    }
  }

  /**
   Main result: from every reachable state, a step of the limiter leads to exactly the states that
   the description allows.
   */
  lemma StepsExactly(p: Run, e: Event, w': Windows, cfg: Config)
    requires Valid(p, cfg) && p.Clock() <= e.First() && e.Ordered()
    ensures Valid(Extend(p, e, w'), cfg) <==> Spelled(p.State(), e, w', cfg)
  {
    ReachableIsSound(p, cfg);
    SpelledExactly(p.State(), e, w', cfg);
  }

  /** After a cleanup an entry is present, unchanged, if and only if it was and its window goes on. */
  lemma CleanupKeepsExactly(r: Run, k: Key, cfg: Config)
    requires Valid(r, cfg) && r.Extend? && r.event.Cleanup?
    ensures k in r.after <==> k in r.prev.State() && r.event.now < r.prev.State()[k].start + cfg.window
    ensures k in r.after ==> r.after[k] == r.prev.State()[k]
  {
    StepsExactly(r.prev, r.event, r.after, cfg);
    assert k in Live(r.prev.State(), r.event.now, cfg)
      <==> k in r.prev.State() && r.event.now < r.prev.State()[k].start + cfg.window;
  }

  /** Only a check of a new key forgets, and only when the live entries alone fill the map. */
  lemma ForgettingNeedsPressure(r: Run, k: Key, cfg: Config)
    requires Valid(r, cfg) && Forgets(r, k, cfg)
    ensures r.event.Check? && r.event.key !in r.prev.State()
    ensures |set j | j in r.prev.State() && r.event.t1 < r.prev.State()[j].start + cfg.window| >= cfg.maxCapacity
  {
    var w, e := r.prev.State(), r.event;
    StepsExactly(r.prev, e, r.after, cfg);
    if e.Cleanup? {
      CleanupKeepsExactly(r, k, cfg);
    } else if e.key !in w {
      var room: Windows :| RoomFor(w, room, cfg, e.t1) && r.after == room[e.key := Entry(1, e.t0)];
      assert k in Live(w, e.t1, cfg) && k !in room;
      assert Live(w, e.t1, cfg) == set j | j in w && e.t1 < w[j].start + cfg.window;
    }
  }
}
