/**
 The per-key request limiter: a counter per key whose window is fixed and opens with the
 key's first request, kept in a map of bounded size by three levels of eviction.

 Clock readings are inputs. One `Check` is one atomic step of the state machine.
 */
module RateLimit {
  import opened Common
  import opened Indices

  datatype Key = ApiKey(id: int) | Ip(address: nat)

  datatype Entry = Entry(count: nat, start: nat)

  datatype Config = Config(maxRequests: nat, window: nat, maxCapacity: nat)

  type Windows = map<Key, Entry>

  const EVICT_LOWEST := 10_000
  const EVICT_LAST_RESORT := 1_000

  /** `Instant::duration_since` saturates at zero. */
  function Age(now: nat, start: nat): nat {
    if now >= start then now - start else 0
  }

  /** How many requests one window really grants: a limit of zero still grants the first. */
  function Budget(cfg: Config): nat {
    if cfg.maxRequests == 0 then 1 else cfg.maxRequests
  }

  // ------------------------------------------------------------ what each operation does

  function Cleaned(w: Windows, cfg: Config, now: nat): Windows {
    map k | k in w && Age(now, w[k].start) < cfg.window :: w[k]
  }

  function CountRank(w: Windows, cfg: Config): map<Key, nat> {
    map k | k in w && w[k].count < cfg.maxRequests :: w[k].count
  }

  function AgeRank(w: Windows, now: nat): map<Key, nat> {
    map k | k in w :: Age(now, w[k].start)
  }

  /** Some entries of `w`, unchanged. */
  ghost predicate Within(c: Windows, w: Windows) {
    c.Keys <= w.Keys && forall k :: k in c ==> c[k] == w[k]
  }

  /** `w'` is `w` without `n` of the ranked keys (all of them if fewer), lowest ranks first. */
  ghost predicate EvictsLowest(w: Windows, w': Windows, rank: map<Key, nat>, n: nat) {
    && Within(w', w)
    && (forall k :: k in w && k !in w' ==> k in rank)
    && |w'| == |w| - Min(n, |rank|)
    && forall g, r :: g in w && g !in w' && r in w' && g in rank && r in rank ==> rank[g] <= rank[r]
  }

  ghost predicate EvictsUnderPressure(c: Windows, w': Windows, cfg: Config, now: nat) {
    exists e: Windows ::
      && EvictsLowest(c, e, CountRank(c, cfg), EVICT_LOWEST)
      && if |e| < cfg.maxCapacity then w' == e
         else EvictsLowest(e, w', AgeRank(e, now), EVICT_LAST_RESORT)
  }

  ghost predicate MakesRoom(w: Windows, w': Windows, cfg: Config, t1: nat, t2: nat) {
    if |w| < cfg.maxCapacity then w' == w
    else
      var c := Cleaned(w, cfg, t1);
      if |c| < cfg.maxCapacity then w' == c else EvictsUnderPressure(c, w', cfg, t2)
  }

  ghost predicate Checks(w: Windows, w': Windows, cfg: Config, key: Key,
                         t0: nat, t1: nat, t2: nat, allowed: bool)
  {
    if key in w then
      var e := w[key];
      if Age(t0, e.start) >= cfg.window then allowed && w' == w[key := Entry(1, t0)]
      else if e.count < cfg.maxRequests then allowed && w' == w[key := Entry(e.count + 1, e.start)]
      else !allowed && w' == w
    else
      && allowed
      && exists r: Windows :: MakesRoom(w, r, cfg, t1, t2) && w' == r[key := Entry(1, t0)]
  }

  // ------------------------------------------------------------ the limiter itself

  lemma LowestExists(keys: set<Key>, rank: map<Key, nat>) returns (k: Key)
    requires keys != {} && keys <= rank.Keys
    ensures k in keys && forall j :: j in keys ==> rank[k] <= rank[j]
  {
    k :| k in keys;
    var rest := keys - {k};
    assert keys == rest + {k};
    if rest != {} {
      var m := LowestExists(rest, rank);
      if rank[m] < rank[k] { k := m; }
    }
  }

  ghost predicate SortedByRank(order: seq<Key>, rank: map<Key, nat>) {
    && (forall i :: 0 <= i < |order| ==> order[i] in rank)
    && forall i, j :: 0 <= i < j < |order| ==> rank[order[i]] <= rank[order[j]]
  }

  /** `order` lists the keys outside `rest`, lowest first, and none above a key of `rest`. */
  ghost predicate SortedSoFar(order: seq<Key>, rest: set<Key>, rank: map<Key, nat>) {
    && rest <= rank.Keys && Elements(order) == rank.Keys - rest && Distinct(order) && SortedByRank(order, rank)
    && forall i, k :: 0 <= i < |order| && k in rest ==> rank[order[i]] <= rank[k]
  }

  lemma SortStep(order: seq<Key>, rest: set<Key>, rank: map<Key, nat>, k: Key)
    requires SortedSoFar(order, rest, rank)
    requires k in rest && forall j :: j in rest ==> rank[k] <= rank[j]
    ensures SortedSoFar(order + [k], rest - {k}, rank)
  {
    assert Elements(order + [k]) == Elements(order) + {k};
    assert k !in Elements(order);
  }

  /** Sorting by rank; keys of equal rank come in any order. */
  method SortByRank(rank: map<Key, nat>) returns (order: seq<Key>)
    ensures Distinct(order) && Elements(order) == rank.Keys && SortedByRank(order, rank)
  {
    order := [];
    var rest := rank.Keys;
    while rest != {}
      invariant SortedSoFar(order, rest, rank)
      decreases |rest|
    {
      ghost var lowest := LowestExists(rest, rank);
      var k :| k in rest && forall j :: j in rest ==> rank[k] <= rank[j];
      SortStep(order, rest, rank, k);
      order, rest := order + [k], rest - {k};
    }
  }

  lemma PrefixIsLowest(w: Windows, w': Windows, rank: map<Key, nat>, order: seq<Key>, n: nat)
    requires Distinct(order) && Elements(order) == rank.Keys && rank.Keys <= w.Keys
    requires SortedByRank(order, rank)
    requires w' == w - Elements(order[..Min(n, |order|)])
    ensures EvictsLowest(w, w', rank, n)
  {
    var m := Min(n, |order|);
    var gone := Elements(order[..m]);
    DistinctSize(order);
    DistinctSize(order[..m]);
    assert |rank| == |order|;
    assert gone <= w.Keys by { assert forall k :: k in order[..m] ==> k in order; }
    assert |w'.Keys| == |w| - m by { assert w'.Keys == w.Keys - gone; }
    forall g, r | g in w && g !in w' && r in w' && g in rank && r in rank ensures rank[g] <= rank[r] {
      RankedApart(order, m, g, r, rank);
    }
  }

  lemma RankedApart(order: seq<Key>, m: nat, g: Key, r: Key, rank: map<Key, nat>)
    requires m <= |order| && Elements(order) == rank.Keys
    requires forall i, j :: 0 <= i < j < |order| ==> rank[order[i]] <= rank[order[j]]
    requires g in order[..m] && r in rank && r !in order[..m]
    ensures g in rank && rank[g] <= rank[r]
  {
    assert r in Elements(order);
    var i :| 0 <= i < m && order[i] == g;
    var j :| 0 <= j < |order| && order[j] == r;
    assert forall x :: 0 <= x < m ==> order[x] in order[..m];
    assert order[i] in Elements(order);
  }

  class SlidingWindowRateLimiter {
    const cfg: Config
    var windows: Windows

    constructor (cfg: Config)
      ensures this.cfg == cfg && windows == map[]
    {
      this.cfg := cfg;
      windows := map[];
    }

    method RemoveFirst(order: seq<Key>, n: nat)
      modifies this`windows
      ensures windows == old(windows) - Elements(order[..Min(n, |order|)])
    {
      var m := Min(n, |order|);
      for i := 0 to m
        invariant windows == old(windows) - Elements(order[..i])
      {
        windows := windows - {order[i]};
        assert Elements(order[..i + 1]) == Elements(order[..i]) + {order[i]};
      }
    }

    method EvictLowestCountWindows(n: nat)
      modifies this`windows
      ensures EvictsLowest(old(windows), windows, CountRank(old(windows), cfg), n)
    {
      var rank := CountRank(windows, cfg);
      var order := SortByRank(rank);
      RemoveFirst(order, n);
      PrefixIsLowest(old(windows), windows, rank, order, n);
    }

    method EvictOldestThrottledWindows(n: nat, now: nat)
      modifies this`windows
      ensures EvictsLowest(old(windows), windows, AgeRank(old(windows), now), n)
    {
      var rank := AgeRank(windows, now);
      var order := SortByRank(rank);
      RemoveFirst(order, n);
      PrefixIsLowest(old(windows), windows, rank, order, n);
    }

    method Cleanup(now: nat)
      modifies this`windows
      ensures windows == Cleaned(old(windows), cfg, now)
      ensures forall k :: k in windows <==>
                k in old(windows) && 0 < cfg.window && now < old(windows)[k].start + cfg.window
      ensures forall k :: k in windows ==> windows[k] == old(windows)[k]
    {
      windows := Cleaned(windows, cfg, now);
    }

    method Check(key: Key, t0: nat, t1: nat, t2: nat) returns (allowed: bool)
      modifies this`windows
      ensures Checks(old(windows), windows, cfg, key, t0, t1, t2, allowed)
    {
      if key in windows {
        var e := windows[key];
        if Age(t0, e.start) >= cfg.window {
          windows := windows[key := Entry(1, t0)];
          return true;
        } else if e.count < cfg.maxRequests {
          windows := windows[key := Entry(e.count + 1, e.start)];
          return true;
        }
        return false;
      }
      if |windows| >= cfg.maxCapacity {
        Cleanup(t1);
        if |windows| >= cfg.maxCapacity {
          EvictLowestCountWindows(EVICT_LOWEST);
          if |windows| >= cfg.maxCapacity {
            EvictOldestThrottledWindows(EVICT_LAST_RESORT, t2);
          }
        }
      }
      assert MakesRoom(old(windows), windows, cfg, t1, t2);
      windows := windows[key := Entry(1, t0)];
      return true;
    }
  }

  // ------------------------------------------------------------ runs

  // A check carries its clock readings (its own, cleanup's, the last eviction's) and its verdict.
  datatype Event =
    | Check(key: Key, t0: nat, t1: nat, t2: nat, allowed: bool)
    | Cleanup(now: nat)
  {
    function First(): nat { if Check? then t0 else now }
    function Last(): nat { if Check? then t2 else now }
    predicate Ordered() { Check? ==> t0 <= t1 <= t2 }
    predicate Grants(k: Key) { Check? && key == k && allowed }
  }

  datatype Run = Init | Extend(prev: Run, event: Event, after: Windows) {
    function State(): Windows { if Init? then map[] else after }
    function Clock(): nat { if Init? then 0 else event.Last() }
  }

  ghost predicate Steps(cfg: Config, w: Windows, e: Event, w': Windows) {
    match e
    case Check(key, t0, t1, t2, allowed) => Checks(w, w', cfg, key, t0, t1, t2, allowed)
    case Cleanup(now) => w' == Cleaned(w, cfg, now)
  }

  ghost predicate Clocked(r: Run) {
    r.Extend? ==> Clocked(r.prev) && r.prev.Clock() <= r.event.First() && r.event.Ordered()
  }

  ghost predicate Stepped(r: Run, cfg: Config) {
    r.Extend? ==> Stepped(r.prev, cfg) && Steps(cfg, r.prev.State(), r.event, r.after)
  }

  /** A run from the empty map along a non-decreasing clock. */
  ghost predicate Valid(r: Run, cfg: Config) {
    Clocked(r) && Stepped(r, cfg)
  }

  // ------------------------------------------------------------ the map stays bounded

  lemma {:induction false} SubsetSize(a: set<Key>, b: set<Key>)
    requires a <= b
    ensures |a| <= |b|
  {
    if a != {} {
      var x :| x in a;
      SubsetSize(a - {x}, b - {x});
    }
  }

  lemma LastResortSize(e: Windows, w': Windows, now: nat)
    requires EvictsLowest(e, w', AgeRank(e, now), EVICT_LAST_RESORT)
    ensures |w'| == |e| - Min(EVICT_LAST_RESORT, |e|)
  {
    assert AgeRank(e, now).Keys == e.Keys;
    assert |AgeRank(e, now).Keys| == |e.Keys|;
  }

  lemma PressureMakesRoom(c: Windows, e: Windows, w': Windows, cfg: Config, now: nat)
    requires Within(e, c) && |e| <= |c| <= Max(1, cfg.maxCapacity)
    requires if |e| < cfg.maxCapacity then w' == e else EvictsLowest(e, w', AgeRank(e, now), EVICT_LAST_RESORT)
    ensures |w'| < Max(1, cfg.maxCapacity) && Within(w', c)
  {
    if |e| >= cfg.maxCapacity {
      LastResortSize(e, w', now);
    }
  }

  lemma RoomIsMade(w: Windows, w': Windows, cfg: Config, t1: nat, t2: nat)
    requires MakesRoom(w, w', cfg, t1, t2) && |w| <= Max(1, cfg.maxCapacity)
    ensures |w'| < Max(1, cfg.maxCapacity) && Within(w', w)
  {
    var c := Cleaned(w, cfg, t1);
    SubsetSize(c.Keys, w.Keys);
    if |w| >= cfg.maxCapacity && |c| >= cfg.maxCapacity {
      var e: Windows :| EvictsLowest(c, e, CountRank(c, cfg), EVICT_LOWEST)
        && if |e| < cfg.maxCapacity then w' == e
           else EvictsLowest(e, w', AgeRank(e, t2), EVICT_LAST_RESORT);
      PressureMakesRoom(c, e, w', cfg, t2);
    }
  }

  /** In every reachable state: bounded size, starts in the past, counts within the budget. */
  ghost predicate Sound(w: Windows, cfg: Config, clock: nat) {
    && |w| <= Max(1, cfg.maxCapacity)
    && forall k :: k in w ==> w[k].start <= clock && 1 <= w[k].count <= Budget(cfg)
  }

  lemma UpdateIsSound(w: Windows, w': Windows, key: Key, e: Entry, cfg: Config, now: nat)
    requires Sound(w, cfg, now) && w' == w[key := e]
    requires key in w || |w| < Max(1, cfg.maxCapacity)
    requires e.start <= now && 1 <= e.count <= Budget(cfg)
    ensures Sound(w', cfg, now)
  {
    assert w'.Keys == w.Keys + {key};
    assert |w'| <= |w| + if key in w then 0 else 1;
  }

  lemma StepIsSound(w: Windows, e: Event, w': Windows, cfg: Config, clock: nat)
    requires Sound(w, cfg, clock) && clock <= e.First() && e.Ordered() && Steps(cfg, w, e, w')
    ensures Sound(w', cfg, e.Last())
  {
    if e.Cleanup? {
      SubsetSize(w'.Keys, w.Keys);
    } else if e.key in w {
      if w' != w {
        UpdateIsSound(w, w', e.key, w'[e.key], cfg, e.t2);
      }
    } else {
      var room: Windows :| MakesRoom(w, room, cfg, e.t1, e.t2) && w' == room[e.key := Entry(1, e.t0)];
      RoomIsMade(w, room, cfg, e.t1, e.t2);
      UpdateIsSound(room, w', e.key, Entry(1, e.t0), cfg, e.t2);
    }
  }

  lemma {:induction false} ReachableIsSound(r: Run, cfg: Config)
    requires Valid(r, cfg)
    ensures Sound(r.State(), cfg, r.Clock())
  {
    if r.Extend? {
      ReachableIsSound(r.prev, cfg);
      StepIsSound(r.prev.State(), r.event, r.after, cfg, r.prev.Clock());
    }
  }

  // ------------------------------------------------------------ refinement of one key

  /** The reference: one key alone, no map, no eviction. */
  function Alone(e: Option<Entry>, t: nat, cfg: Config): (Entry, bool) {
    if e.None? || Age(t, e.value.start) >= cfg.window then (Entry(1, t), true)
    else if e.value.count < cfg.maxRequests then (Entry(e.value.count + 1, e.value.start), true)
    else (e.value, false)
  }

  /** The reference's state after the checks of `k` in `r`, in order, and nothing else. */
  ghost function Reference(r: Run, k: Key, cfg: Config): Option<Entry> {
    match r
    case Init => None
    case Extend(p, e, _) =>
      if e.Check? && e.key == k then Some(Alone(Reference(p, k, cfg), e.t0, cfg).0)
      else Reference(p, k, cfg)
  }

  /** No step of `r` drops `k`'s entry before its window has ended. */
  ghost predicate Preserved(r: Run, k: Key, cfg: Config) {
    r.Extend? ==>
      && Preserved(r.prev, k, cfg)
      && (k in r.prev.State() && k !in r.after ==>
            r.prev.State()[k].start + cfg.window <= r.event.Last())
  }

  /** Every verdict on `k` in `r` is the one the reference gives. */
  ghost predicate AgreesWithReference(r: Run, k: Key, cfg: Config) {
    r.Extend? ==>
      && AgreesWithReference(r.prev, k, cfg)
      && (r.event.Check? && r.event.key == k ==>
            r.event.allowed == Alone(Reference(r.prev, k, cfg), r.event.t0, cfg).1)
  }

  ghost predicate Simulates(w: Windows, ref: Option<Entry>, k: Key, cfg: Config, clock: nat) {
    if k in w then ref == Some(w[k])
    else ref.Some? ==> ref.value.start + cfg.window <= clock
  }

  lemma StepKeepsEntry(w: Windows, e: Event, w': Windows, k: Key, cfg: Config)
    requires Steps(cfg, w, e, w') && |w| <= Max(1, cfg.maxCapacity)
    requires !(e.Check? && e.key == k)
    ensures k in w' ==> k in w && w'[k] == w[k]
  {
    if e.Check? && e.key !in w {
      var room: Windows :| MakesRoom(w, room, cfg, e.t1, e.t2) && w' == room[e.key := Entry(1, e.t0)];
      RoomIsMade(w, room, cfg, e.t1, e.t2);
    }
  }

  /**
   The shared map with its evictions refines a limiter that serves `k` alone, as long as `k`'s
   entry is never evicted inside its window. Cleanups and other keys' checks change nothing.
   */
  lemma {:induction false} RefinesReference(r: Run, k: Key, cfg: Config)
    requires Valid(r, cfg) && Preserved(r, k, cfg)
    ensures AgreesWithReference(r, k, cfg)
    ensures Simulates(r.State(), Reference(r, k, cfg), k, cfg, r.Clock())
  {
    if r.Extend? {
      RefinesReference(r.prev, k, cfg);
      ReachableIsSound(r.prev, cfg);
      var w, e := r.prev.State(), r.event;
      if !(e.Check? && e.key == k) {
        StepKeepsEntry(w, e, r.after, k, cfg);
      }
    }
  }

  // ------------------------------------------------------------ the sliding bound

  datatype Grant = Grant(time: nat, entry: Entry)

  /** The granted checks of `k`, each with the reference state it leaves. */
  ghost function Log(r: Run, k: Key, cfg: Config): seq<Grant> {
    match r
    case Init => []
    case Extend(p, e, _) =>
      Log(p, k, cfg) + if e.Grants(k) then [Grant(e.t0, Reference(r, k, cfg).value)] else []
  }

  /** How many checks of `k` are granted at a time in [from, to). */
  ghost function GrantedIn(r: Run, k: Key, from: nat, to: nat): nat {
    match r
    case Init => 0
    case Extend(p, e, _) =>
      GrantedIn(p, k, from, to) + if e.Grants(k) && from <= e.t0 < to then 1 else 0
  }

  /** Consecutive grants count up inside a window; a count of one opens a later window. */
  ghost predicate Chained(log: seq<Grant>, cfg: Config) {
    && (forall i, j :: 0 <= i <= j < |log| ==> log[i].time <= log[j].time)
    && (forall i :: 0 <= i < |log| ==>
          && 1 <= log[i].entry.count <= Budget(cfg) && log[i].entry.start <= log[i].time
          && (log[i].entry.count == 1 ==> log[i].entry.start == log[i].time)
          && (log[i].entry.count != 1 ==> log[i].time < log[i].entry.start + cfg.window))
    && (forall i, j :: 0 <= i < |log| && j == i + 1 < |log| ==>
          if log[j].entry.count == 1 then log[j].entry.start >= log[i].entry.start + cfg.window
          else log[j].entry == Entry(log[i].entry.count + 1, log[i].entry.start))
  }

  lemma ChainGrows(log: seq<Grant>, g: Grant, cfg: Config)
    requires Chained(log, cfg)
    requires forall i :: 0 <= i < |log| ==> log[i].time <= g.time
    requires (g.entry, true)
             == Alone(if log == [] then None else Some(log[|log| - 1].entry), g.time, cfg)
    ensures Chained(log + [g], cfg)
  {
    var log' := log + [g];
    forall i, j | 0 <= i <= j < |log'| ensures log'[i].time <= log'[j].time {}
    if log != [] {
      assert log'[|log| - 1] == log[|log| - 1] && log'[|log|] == g;
    }
  }

  /** The log is chained, ends no later than the clock, and its last entry is the reference. */
  ghost predicate LogTells(log: seq<Grant>, ref: Option<Entry>, clock: nat, cfg: Config) {
    && Chained(log, cfg)
    && (forall i :: 0 <= i < |log| ==> log[i].time <= clock)
    && ref == if log == [] then None else Some(log[|log| - 1].entry)
  }

  lemma LogGrows(log: seq<Grant>, ref: Option<Entry>, clock: nat, t: nat, cfg: Config)
    requires LogTells(log, ref, clock, cfg) && clock <= t && Alone(ref, t, cfg).1
    ensures LogTells(log + [Grant(t, Alone(ref, t, cfg).0)], Some(Alone(ref, t, cfg).0), t, cfg)
  {
    assert ref == if log == [] then None else Some(log[|log| - 1].entry);
    ChainGrows(log, Grant(t, Alone(ref, t, cfg).0), cfg);
  }

  lemma LogLater(log: seq<Grant>, ref: Option<Entry>, clock: nat, later: nat, cfg: Config)
    requires LogTells(log, ref, clock, cfg) && clock <= later
    ensures LogTells(log, ref, later, cfg)
  {
  }

  lemma RefusalKeepsReference(r: Run, k: Key, cfg: Config)
    requires r.Extend? && AgreesWithReference(r, k, cfg) && !r.event.Grants(k)
    ensures Reference(r, k, cfg) == Reference(r.prev, k, cfg)
  {
  }

  lemma {:induction false} LogIsChained(r: Run, k: Key, cfg: Config)
    requires Clocked(r) && AgreesWithReference(r, k, cfg)
    ensures LogTells(Log(r, k, cfg), Reference(r, k, cfg), r.Clock(), cfg)
  {
    if r.Extend? {
      LogIsChained(r.prev, k, cfg);
      var log, ref := Log(r.prev, k, cfg), Reference(r.prev, k, cfg);
      if r.event.Grants(k) {
        LogGrows(log, ref, r.prev.Clock(), r.event.t0, cfg);
        LogLater(Log(r, k, cfg), Reference(r, k, cfg), r.event.t0, r.Clock(), cfg);
      } else {
        assert Log(r, k, cfg) == log + [] == log;
        RefusalKeepsReference(r, k, cfg);
        LogLater(log, ref, r.prev.Clock(), r.Clock(), cfg);
      }
    }
  }

  lemma {:induction false} NextWindow(log: seq<Grant>, i: nat, cfg: Config) returns (j: nat)
    requires Chained(log, cfg) && i < |log| && i + Budget(cfg) - log[i].entry.count + 1 < |log|
    ensures i < j <= i + Budget(cfg) - log[i].entry.count + 1
    ensures log[j].entry.count == 1 && log[j].entry.start >= log[i].entry.start + cfg.window
    decreases Budget(cfg) - log[i].entry.count
  {
    j := i + 1;
    if log[j].entry.count != 1 {
      j := NextWindow(log, i + 1, cfg);
    }
  }

  /** Any 2M consecutive grants span at least one window length. */
  lemma GrantsAreSpread(log: seq<Grant>, i: nat, cfg: Config)
    requires Chained(log, cfg) && i + 2 * Budget(cfg) - 1 < |log|
    ensures log[i].time + cfg.window <= log[i + 2 * Budget(cfg) - 1].time
  {
    var j := NextWindow(log, i, cfg);
    if log[i].entry.count != 1 {
      j := NextWindow(log, j, cfg);
    }
    assert log[j].time <= log[i + 2 * Budget(cfg) - 1].time;
  }

  ghost function CountIn(log: seq<Grant>, from: nat, to: nat): nat {
    if log == [] then 0
    else
      var n := |log| - 1;
      CountIn(log[..n], from, to) + if from <= log[n].time < to then 1 else 0
  }

  lemma {:induction false} CountLate(log: seq<Grant>, from: nat, to: nat, m: nat)
    requires m <= |log| && forall i :: 0 <= i < m ==> log[i].time < from
    ensures CountIn(log, from, to) <= |log| - m
  {
    if log != [] {
      var n := |log| - 1;
      CountLate(log[..n], from, to, if m <= n then m else n);
    }
  }

  /** Grants in time order of which any that are `span` apart are a window apart. */
  ghost predicate Spread(log: seq<Grant>, span: nat, window: nat) {
    && (forall i, j :: 0 <= i <= j < |log| ==> log[i].time <= log[j].time)
    && forall i, j :: 0 <= i < |log| && j == i + span < |log| ==> log[i].time + window <= log[j].time
  }

  lemma {:induction false} CountIsBounded(log: seq<Grant>, from: nat, span: nat, window: nat)
    requires Spread(log, span, window)
    ensures CountIn(log, from, from + window) <= span
  {
    if log != [] {
      var n := |log| - 1;
      if log[n].time >= from + window {
        CountIsBounded(log[..n], from, span, window);
      } else if |log| > span {
        var m := |log| - span;
        forall i | 0 <= i < m ensures log[i].time < from {
          var j := i + span;
          assert log[i].time + window <= log[j].time <= log[n].time;
        }
        CountLate(log, from, from + window, m);
      } else {
        CountLate(log, from, from + window, 0);
      }
    }
  }

  lemma {:induction false} GrantedIsCounted(r: Run, k: Key, cfg: Config, from: nat, to: nat)
    ensures GrantedIn(r, k, from, to) == CountIn(Log(r, k, cfg), from, to)
  {
    if r.Extend? {
      GrantedIsCounted(r.prev, k, cfg, from, to);
      var log, log' := Log(r.prev, k, cfg), Log(r, k, cfg);
      if r.event.Grants(k) {
        assert log'[..|log'| - 1] == log;
      } else {
        assert log' == log;
      }
    }
  }

  /**
   Main result: any half-open interval of one window length holds at most 2M - 1 granted
   checks of a key, M being the budget, however cleanups and other keys interleave.
   */
  lemma SlidingBound(r: Run, k: Key, cfg: Config, from: nat)
    requires Valid(r, cfg) && Preserved(r, k, cfg)
    ensures GrantedIn(r, k, from, from + cfg.window) <= 2 * Budget(cfg) - 1
  {
    RefinesReference(r, k, cfg);
    LogIsChained(r, k, cfg);
    var log, span := Log(r, k, cfg), 2 * Budget(cfg) - 1;
    forall i, j | 0 <= i < |log| && j == i + span < |log| ensures log[i].time + cfg.window <= log[j].time {
      GrantsAreSpread(log, i, cfg);
    }
    CountIsBounded(log, from, span, cfg.window);
    GrantedIsCounted(r, k, cfg, from, from + cfg.window);
  }

  /** In windows of at most one tick, any M + 1 consecutive grants already span a window length. */
  lemma ShortWindowsSpread(log: seq<Grant>, i: nat, cfg: Config)
    requires Chained(log, cfg) && i + Budget(cfg) < |log| && cfg.window <= 1
    ensures log[i].time + cfg.window <= log[i + Budget(cfg)].time
  {
    var j := NextWindow(log, i, cfg);
    assert log[i].entry.start == log[i].time;
    assert log[j].time <= log[i + Budget(cfg)].time;
  }

  lemma ShortWindowBound(r: Run, k: Key, cfg: Config, from: nat)
    requires Valid(r, cfg) && Preserved(r, k, cfg) && cfg.window <= 1
    ensures GrantedIn(r, k, from, from + cfg.window) <= Budget(cfg)
  {
    RefinesReference(r, k, cfg);
    LogIsChained(r, k, cfg);
    var log, span := Log(r, k, cfg), Budget(cfg);
    forall i, j | 0 <= i < |log| && j == i + span < |log| ensures log[i].time + cfg.window <= log[j].time {
      ShortWindowsSpread(log, i, cfg);
    }
    CountIsBounded(log, from, span, cfg.window);
    GrantedIsCounted(r, k, cfg, from, from + cfg.window);
  }

  // ------------------------------------------------------------ few keys are never evicted

  ghost function CheckedKeys(r: Run): set<Key> {
    match r
    case Init => {}
    case Extend(p, e, _) => CheckedKeys(p) + if e.Check? then {e.key} else {}
  }

  /** A run that names no more keys than the capacity never evicts anybody early. */
  lemma {:induction false} FewKeysArePreserved(r: Run, k: Key, cfg: Config)
    requires Valid(r, cfg) && |CheckedKeys(r)| <= cfg.maxCapacity
    ensures Preserved(r, k, cfg) && r.State().Keys <= CheckedKeys(r)
  {
    if r.Extend? {
      SubsetSize(CheckedKeys(r.prev), CheckedKeys(r));
      ReachableIsSound(r.prev, cfg);
      FewKeysArePreserved(r.prev, k, cfg);
      var w, e := r.prev.State(), r.event;
      if e.Check? && e.key !in w {
        SubsetSize(w.Keys + {e.key}, CheckedKeys(r));
        assert |w.Keys + {e.key}| == |w| + 1;
      }
    }
  }

  // ------------------------------------------------------------ throttles survive floods

  ghost predicate Throttled(w: Windows, k: Key, cfg: Config) {
    k in w && w[k].count >= cfg.maxRequests
  }

  /** The check finds the map full and every entry that survives cleanup throttled. */
  ghost predicate LastResort(w: Windows, e: Event, cfg: Config) {
    && e.Check? && e.key !in w && |w| >= cfg.maxCapacity
    && var c := Cleaned(w, cfg, e.t1);
       && |c| >= cfg.maxCapacity
       && (cfg.maxCapacity == 0 || forall k :: k in c ==> Throttled(c, k, cfg))
  }

  /** Evicting low counts frees a slot exactly when some surviving entry is not throttled. */
  lemma LowCountsFreeASlot(c: Windows, e: Windows, cfg: Config)
    requires EvictsLowest(c, e, CountRank(c, cfg), EVICT_LOWEST)
    requires cfg.maxCapacity <= |c| <= Max(1, cfg.maxCapacity)
    ensures |e| < cfg.maxCapacity
            <==> cfg.maxCapacity != 0 && exists k :: k in c && !Throttled(c, k, cfg)
  {
    var rank := CountRank(c, cfg);
    if k :| k in c && !Throttled(c, k, cfg) {
      assert k in rank;
      assert |rank| != 0;
    } else {
      assert rank == map[];
    }
  }

  lemma ThrottleSurvivesRoom(w: Windows, w': Windows, k: Key, t1: nat, t2: nat, cfg: Config)
    requires MakesRoom(w, w', cfg, t1, t2) && |w| <= Max(1, cfg.maxCapacity)
    requires Throttled(w, k, cfg) && w[k].start <= t1 < w[k].start + cfg.window
    requires var c := Cleaned(w, cfg, t1);
             |w| >= cfg.maxCapacity && |c| >= cfg.maxCapacity ==>
               cfg.maxCapacity != 0 && exists j :: j in c && !Throttled(c, j, cfg)
    ensures k in w' && w'[k] == w[k]
  {
    var c := Cleaned(w, cfg, t1);
    SubsetSize(c.Keys, w.Keys);
    if |w| >= cfg.maxCapacity && |c| >= cfg.maxCapacity {
      var e: Windows :| EvictsLowest(c, e, CountRank(c, cfg), EVICT_LOWEST)
        && if |e| < cfg.maxCapacity then w' == e
           else EvictsLowest(e, w', AgeRank(e, t2), EVICT_LAST_RESORT);
      LowCountsFreeASlot(c, e, cfg);
      assert k in c && k !in CountRank(c, cfg);
    }
  }

  lemma ThrottleSurvivesStep(w: Windows, e: Event, w': Windows, k: Key, cfg: Config)
    requires Steps(cfg, w, e, w') && |w| <= Max(1, cfg.maxCapacity)
    requires Throttled(w, k, cfg) && !LastResort(w, e, cfg)
    requires w[k].start <= e.First() && e.Ordered() && e.Last() < w[k].start + cfg.window
    ensures k in w' && w'[k] == w[k]
    ensures e.Check? && e.key == k ==> !e.allowed
  {
    if e.Check? && e.key !in w {
      var room: Windows :| MakesRoom(w, room, cfg, e.t1, e.t2) && w' == room[e.key := Entry(1, e.t0)];
      ThrottleSurvivesRoom(w, room, k, e.t1, e.t2, cfg);
    }
  }

  /** `r` continues `p` with readings before `limit` and without a last-resort eviction. */
  ghost predicate Continues(r: Run, p: Run, limit: nat, cfg: Config) {
    r == p ||
    (&& r.Extend? && Continues(r.prev, p, limit, cfg)
     && r.event.Last() < limit && !LastResort(r.prev.State(), r.event, cfg))
  }

  ghost predicate RefusesSince(r: Run, p: Run, k: Key) {
    r == p ||
    (r.Extend? && RefusesSince(r.prev, p, k) && (r.event.Check? && r.event.key == k ==> !r.event.allowed))
  }

  /**
   A throttled key stays refused until its window ends, under any flood of other keys, unless
   some check finds the map full with every surviving entry throttled.
   */
  lemma {:induction false} ThrottleSurvivesFlood(r: Run, p: Run, k: Key, cfg: Config)
    requires Valid(r, cfg) && Throttled(p.State(), k, cfg)
    requires Continues(r, p, p.State()[k].start + cfg.window, cfg)
    ensures RefusesSince(r, p, k)
    ensures k in r.State() && r.State()[k] == p.State()[k]
  {
    if r != p {
      ThrottleSurvivesFlood(r.prev, p, k, cfg);
      ReachableIsSound(r.prev, cfg);
      ThrottleSurvivesStep(r.prev.State(), r.event, r.after, k, cfg);
    }
  }

  lemma FirstCheck(k: Key, t: nat, cfg: Config)
    ensures Checks(map[], map[k := Entry(1, t)], cfg, k, t, t, t, true)
  {
    var none: Windows := map[];
    assert EvictsLowest(none, none, CountRank(none, cfg), EVICT_LOWEST) by { assert none - {} == none; }
    assert EvictsLowest(none, none, AgeRank(none, t), EVICT_LAST_RESORT);
    assert Cleaned(none, cfg, t) == none;
    assert MakesRoom(none, none, cfg, t, t);
    assert none[k := Entry(1, t)] == map[k := Entry(1, t)];
  }

  /** One slot, one request per window: a check of `b` throws out the throttled entry of `a`. */
  lemma OneSlotTurnover(a: Key, b: Key, s: nat, t: nat, cfg: Config)
    requires a != b && cfg == Config(1, 10, 1) && s <= t < s + 10
    ensures Checks(map[a := Entry(1, s)], map[b := Entry(1, t)], cfg, b, t, t, t, true)
    ensures LastResort(map[a := Entry(1, s)], Check(b, t, t, t, true), cfg)
  {
    var w: Windows := map[a := Entry(1, s)];
    var none: Windows := map[];
    assert Cleaned(w, cfg, t) == w;
    assert CountRank(w, cfg) == map[];
    assert EvictsLowest(w, w, CountRank(w, cfg), EVICT_LOWEST) by { assert w - {} == w; }
    assert AgeRank(w, t) == map[a := t - s];
    assert EvictsLowest(w, none, AgeRank(w, t), EVICT_LAST_RESORT) by {
      assert w.Keys - none.Keys == {a};
      assert w - {a} == none;
    }
    assert MakesRoom(w, none, cfg, t, t);
    assert none[b := Entry(1, t)] == map[b := Entry(1, t)];
  }

  lemma ExtendsValid(p: Run, e: Event, w: Windows, cfg: Config)
    requires Valid(p, cfg) && p.Clock() <= e.First() && e.Ordered() && Steps(cfg, p.State(), e, w)
    ensures Valid(Extend(p, e, w), cfg)
  {
  }

  /** The exception is real: with one slot, a check of `b` lets the throttled `a` in again. */
  lemma LastResortUnblocks(a: Key, b: Key) returns (p: Run, r: Run)
    requires a != b
    ensures var cfg := Config(1, 10, 1);
            && Valid(r, cfg) && r.Extend? && r.prev.Extend? && r.prev.prev == p
            && Throttled(p.State(), a, cfg) && LastResort(p.State(), r.prev.event, cfg)
            && r.event == Check(a, 2, 2, 2, true) && 2 < p.State()[a].start + cfg.window
  {
    var cfg := Config(1, 10, 1);
    FirstCheck(a, 0, cfg);
    OneSlotTurnover(a, b, 0, 1, cfg);
    OneSlotTurnover(b, a, 1, 2, cfg);
    p := Extend(Init, Check(a, 0, 0, 0, true), map[a := Entry(1, 0)]);
    ExtendsValid(Init, p.event, p.after, cfg);
    var q := Extend(p, Check(b, 1, 1, 1, true), map[b := Entry(1, 1)]);
    ExtendsValid(p, q.event, q.after, cfg);
    r := Extend(q, Check(a, 2, 2, 2, true), map[a := Entry(1, 2)]);
    ExtendsValid(q, r.event, r.after, cfg);
  }

  // ------------------------------------------------------------ the bound is attained

  /** `n` checks of `k` at time `t`, the entry counting up from `c`. */
  ghost function Repeated(r: Run, k: Key, t: nat, s: nat, c: nat, n: nat): Run {
    if n == 0 then r
    else Extend(Repeated(r, k, t, s, c, n - 1), Check(k, t, t, t, true), map[k := Entry(c + n, s)])
  }

  lemma {:induction false} RepeatedIsValid(r: Run, k: Key, t: nat, s: nat, c: nat, n: nat, cfg: Config,
                                              from: nat, to: nat)
    requires Valid(r, cfg) && r.State() == map[k := Entry(c, s)]
    requires r.Clock() <= t < s + cfg.window && s <= t && c + n <= cfg.maxRequests
    ensures var r' := Repeated(r, k, t, s, c, n);
            && Valid(r', cfg) && r'.State() == map[k := Entry(c + n, s)] && r'.Clock() <= t
    ensures var r' := Repeated(r, k, t, s, c, n);
            GrantedIn(r', k, from, to) == GrantedIn(r, k, from, to) + if from <= t < to then n else 0
    ensures Preserved(r, k, cfg) ==> Preserved(Repeated(r, k, t, s, c, n), k, cfg)
  {
    if n != 0 {
      RepeatedIsValid(r, k, t, s, c, n - 1, cfg, from, to);
    }
  }

  /** 2M - 1 is attained by every configuration with a limit and a window of two ticks. */
  lemma SlidingBoundIsTight(k: Key, cfg: Config) returns (r: Run)
    requires cfg.maxRequests >= 1 && cfg.window >= 2
    ensures Valid(r, cfg) && Preserved(r, k, cfg)
    ensures GrantedIn(r, k, 1, 1 + cfg.window) == 2 * Budget(cfg) - 1
  {
    var m, t := cfg.maxRequests, cfg.window - 1;
    FirstCheck(k, 0, cfg);
    var p := Burst(Init, k, 0, t, cfg, 1, 1 + cfg.window);
    Renewed(k, m, t + 1, cfg);
    r := Burst(p, k, t + 1, t + 1, cfg, 1, 1 + cfg.window);
  }

  /** The bound that a sliding window would keep: M grants in any window length, in every run. */
  ghost predicate KeepsBudget(k: Key, cfg: Config) {
    forall r, from: nat :: Valid(r, cfg) && Preserved(r, k, cfg) ==> GrantedFrom(r, k, from, cfg) <= Budget(cfg)
  }

  /** How many checks of `k` are granted in the window length that starts at `from`. */
  ghost function GrantedFrom(r: Run, k: Key, from: nat, cfg: Config): nat {
    GrantedIn(r, k, from, from + cfg.window)
  }

  /** It is kept exactly with a limit of at most one or a window of at most one tick. */
  lemma BudgetKeptExactly(k: Key, cfg: Config)
    ensures KeepsBudget(k, cfg) <==> cfg.maxRequests <= 1 || cfg.window <= 1
  {
    if cfg.maxRequests <= 1 || cfg.window <= 1 {
      forall r, from: nat | Valid(r, cfg) && Preserved(r, k, cfg)
        ensures GrantedFrom(r, k, from, cfg) <= Budget(cfg)
      {
        if cfg.window <= 1 { ShortWindowBound(r, k, cfg, from); } else { SlidingBound(r, k, cfg, from); }
      }
    } else {
      var r := SlidingBoundIsTight(k, cfg);
      assert GrantedFrom(r, k, 1, cfg) > Budget(cfg);
    }
  }

  /** A check when the window has just ended opens the next one. */
  lemma Renewed(k: Key, m: nat, t: nat, cfg: Config)
    requires t == cfg.window
    ensures Steps(cfg, map[k := Entry(m, 0)], Check(k, t, t, t, true), map[k := Entry(1, t)])
  {
  }

  /** A window opened at `t` and used up at `u`. */
  lemma Burst(p: Run, k: Key, t: nat, u: nat, cfg: Config, from: nat, to: nat) returns (r: Run)
    requires Valid(p, cfg) && Preserved(p, k, cfg) && p.Clock() <= t <= u < t + cfg.window && cfg.maxRequests >= 1
    requires Steps(cfg, p.State(), Check(k, t, t, t, true), map[k := Entry(1, t)])
    ensures Valid(r, cfg) && Preserved(r, k, cfg) && r.State() == map[k := Entry(cfg.maxRequests, t)] && r.Clock() <= u
    ensures GrantedIn(r, k, from, to) == GrantedIn(p, k, from, to)
              + (if from <= t < to then 1 else 0) + if from <= u < to then cfg.maxRequests - 1 else 0
  {
    var q := Granted(p, k, t, cfg, from, to);
    RepeatedIsValid(q, k, u, t, 1, cfg.maxRequests - 1, cfg, from, to);
    r := Repeated(q, k, u, t, 1, cfg.maxRequests - 1);
  }

  /** A granted check of `k` at `t` that opens a window. */
  lemma Granted(p: Run, k: Key, t: nat, cfg: Config, from: nat, to: nat) returns (r: Run)
    requires Valid(p, cfg) && Preserved(p, k, cfg) && p.Clock() <= t
    requires Steps(cfg, p.State(), Check(k, t, t, t, true), map[k := Entry(1, t)])
    ensures Valid(r, cfg) && Preserved(r, k, cfg) && r.State() == map[k := Entry(1, t)] && r.Clock() == t
    ensures GrantedIn(r, k, from, to) == GrantedIn(p, k, from, to) + if from <= t < to then 1 else 0
  {
    var w: Windows := map[k := Entry(1, t)];
    r := Extend(p, Check(k, t, t, t, true), w);
    ExtendsValid(p, r.event, w, cfg);
  }
}
