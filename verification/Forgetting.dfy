/**
 The request limiter when entries are evicted inside their window: how many more grants a key gets
 for every time it is forgotten.
 */
module Forgetting {
  import opened Common
  import opened RateLimit

  /** The last step of `r` drops the entry of `k` before its window has ended. */
  ghost predicate Forgets(r: Run, k: Key, cfg: Config) {
    && r.Extend? && k in r.prev.State() && k !in r.after
    && r.event.Last() < r.prev.State()[k].start + cfg.window
  }

  ghost function Forgotten(r: Run, k: Key, cfg: Config): nat {
    if r.Init? then 0 else Forgotten(r.prev, k, cfg) + if Forgets(r, k, cfg) then 1 else 0
  }

  lemma {:induction false} PreservedIsNeverForgotten(r: Run, k: Key, cfg: Config)
    ensures Preserved(r, k, cfg) <==> Forgotten(r, k, cfg) == 0
  {
    if r.Extend? { PreservedIsNeverForgotten(r.prev, k, cfg); }
  }

  /** The reference limiter of `k` alone, restarted whenever `k` is forgotten. */
  ghost function Since(r: Run, k: Key, cfg: Config): Option<Entry> {
    if r.Init? || Forgets(r, k, cfg) then None
    else if r.event.Check? && r.event.key == k then Some(Alone(Since(r.prev, k, cfg), r.event.t0, cfg).0)
    else Since(r.prev, k, cfg)
  }

  /** The grants of `k` since it was last forgotten. */
  ghost function SinceLog(r: Run, k: Key, cfg: Config): seq<Grant> {
    if r.Init? || Forgets(r, k, cfg) then []
    else if r.event.Grants(k) then SinceLog(r.prev, k, cfg) + [Grant(r.event.t0, Since(r, k, cfg).value)]
    else SinceLog(r.prev, k, cfg)
  }

  /** The run before `k` was last forgotten. */
  ghost function Until(r: Run, k: Key, cfg: Config): Run {
    if r.Init? then r else if Forgets(r, k, cfg) then r.prev else Until(r.prev, k, cfg)
  }

  // ------------------------------------------------------------ every run refines the restarted reference

  ghost predicate VerdictAgrees(r: Run, k: Key, cfg: Config) {
    r.Extend? && r.event.Check? && r.event.key == k ==>
      r.event.allowed == Alone(Since(r.prev, k, cfg), r.event.t0, cfg).1
  }

  lemma {:induction false} SinceSimulates(r: Run, k: Key, cfg: Config)
    requires Valid(r, cfg)
    ensures Simulates(r.State(), Since(r, k, cfg), k, cfg, r.Clock()) && VerdictAgrees(r, k, cfg)
  {
    if r.Extend? {
      SinceSimulates(r.prev, k, cfg);
      ReachableIsSound(r.prev, cfg);
      if !(r.event.Check? && r.event.key == k) {
        StepKeepsEntry(r.prev.State(), r.event, r.after, k, cfg);
      }
    }
  }

  ghost predicate StartsFresh(log: seq<Grant>) {
    log != [] ==> log[0].entry.count == 1
  }

  lemma {:induction false} SinceLogTells(r: Run, k: Key, cfg: Config)
    requires Valid(r, cfg)
    ensures LogTells(SinceLog(r, k, cfg), Since(r, k, cfg), r.Clock(), cfg) && StartsFresh(SinceLog(r, k, cfg))
  {
    if r.Extend? && !Forgets(r, k, cfg) {
      SinceLogTells(r.prev, k, cfg);
      SinceSimulates(r, k, cfg);
      var log, ref := SinceLog(r.prev, k, cfg), Since(r.prev, k, cfg);
      if r.event.Grants(k) {
        FreshLogGrows(log, ref, r.prev.Clock(), r.event.t0, r.Clock(), cfg);
      } else {
        LogLater(log, ref, r.prev.Clock(), r.Clock(), cfg);
      }
    }
  }

  lemma FreshLogGrows(log: seq<Grant>, ref: Option<Entry>, clock: nat, t: nat, later: nat, cfg: Config)
    requires LogTells(log, ref, clock, cfg) && StartsFresh(log) && clock <= t <= later && Alone(ref, t, cfg).1
    ensures var e := Alone(ref, t, cfg).0;
            LogTells(log + [Grant(t, e)], Some(e), later, cfg) && StartsFresh(log + [Grant(t, e)])
  {
    var e := Alone(ref, t, cfg).0;
    LogGrows(log, ref, clock, t, cfg);
    LogLater(log + [Grant(t, e)], Some(e), t, later, cfg);
  }

  // ------------------------------------------------------------ counting by stretches

  lemma {:induction false} UntilIsEarlier(r: Run, k: Key, cfg: Config)
    requires Valid(r, cfg) && Forgotten(r, k, cfg) > 0
    ensures Valid(Until(r, k, cfg), cfg) && Forgotten(Until(r, k, cfg), k, cfg) == Forgotten(r, k, cfg) - 1
  {
    if !Forgets(r, k, cfg) { UntilIsEarlier(r.prev, k, cfg); }
  }

  lemma {:induction false} UntilComesFirst(r: Run, k: Key, cfg: Config)
    requires Valid(r, cfg) && Forgotten(r, k, cfg) > 0
    ensures Until(r, k, cfg).Clock() <= r.Clock()
    ensures forall i :: 0 <= i < |SinceLog(r, k, cfg)| ==> Until(r, k, cfg).Clock() <= SinceLog(r, k, cfg)[i].time
  {
    if !Forgets(r, k, cfg) { UntilComesFirst(r.prev, k, cfg); }
  }

  lemma CountGrows(log: seq<Grant>, g: Grant, from: nat, to: nat)
    ensures CountIn(log + [g], from, to) == CountIn(log, from, to) + if from <= g.time < to then 1 else 0
  {
    assert (log + [g])[..|log|] == log;
  }

  lemma {:induction false} GrantedByStretches(r: Run, k: Key, cfg: Config, from: nat, to: nat)
    requires Valid(r, cfg)
    ensures GrantedIn(r, k, from, to) == CountIn(SinceLog(r, k, cfg), from, to)
              + if Forgotten(r, k, cfg) == 0 then 0 else GrantedIn(Until(r, k, cfg), k, from, to)
  {
    if r.Extend? && !Forgets(r, k, cfg) {
      GrantedByStretches(r.prev, k, cfg, from, to);
      if r.event.Grants(k) {
        CountGrows(SinceLog(r.prev, k, cfg), Grant(r.event.t0, Since(r, k, cfg).value), from, to);
      }
    } else if r.Extend? {
      ForgettingIsNoGrant(r, k, cfg);
    }
  }

  lemma ForgettingIsNoGrant(r: Run, k: Key, cfg: Config)
    requires Valid(r, cfg) && Forgets(r, k, cfg)
    ensures !r.event.Grants(k)
  {
  }

  lemma {:induction false} NoneGrantedLater(r: Run, k: Key, from: nat, to: nat)
    requires Clocked(r) && r.Clock() < from
    ensures GrantedIn(r, k, from, to) == 0
  {
    if r.Extend? { NoneGrantedLater(r.prev, k, from, to); }
  }

  lemma {:induction false} CountEarly(log: seq<Grant>, from: nat, to: nat, m: nat)
    requires forall i :: m <= i < |log| ==> log[i].time >= to
    ensures CountIn(log, from, to) <= m
  {
    if log != [] {
      var n := |log| - 1;
      CountEarly(log[..n], from, to, if m <= n then m else n);
    }
  }

  /** Grants that start afresh inside the interval fit one budget. */
  lemma FreshBound(log: seq<Grant>, from: nat, cfg: Config)
    requires Chained(log, cfg) && StartsFresh(log) && forall i :: 0 <= i < |log| ==> from <= log[i].time
    ensures CountIn(log, from, from + cfg.window) <= Budget(cfg)
  {
    var m := Budget(cfg);
    if |log| > m {
      var j := NextWindow(log, 0, cfg);
      forall i | m <= i < |log| ensures log[i].time >= from + cfg.window {
        assert log[j].time <= log[i].time;
      }
    }
    CountEarly(log, from, from + cfg.window, m);
  }

  lemma StretchBound(log: seq<Grant>, from: nat, cfg: Config)
    requires Chained(log, cfg)
    ensures CountIn(log, from, from + cfg.window) <= 2 * Budget(cfg) - 1
  {
    var span := 2 * Budget(cfg) - 1;
    forall i, j | 0 <= i < |log| && j == i + span < |log| ensures log[i].time + cfg.window <= log[j].time {
      GrantsAreSpread(log, i, cfg);
    }
    CountIsBounded(log, from, span, cfg.window);
  }

  /** What a key may be granted that was forgotten `n` times, with a budget of `m`. */
  function Allowance(m: nat, n: nat): int {
    if n == 0 then 2 * m - 1 else Allowance(m, n - 1) + m
  }

  lemma {:induction false} AllowanceIs(m: nat, n: nat)
    ensures Allowance(m, n) == 2 * m - 1 + m * n
  {
    if n > 0 {
      AllowanceIs(m, n - 1);
      assert m * n == m * (n - 1) + m;
    }
  }

  lemma {:induction false} AllowanceGrows(m: nat, n: nat)
    ensures Allowance(m, n) >= 2 * m - 1
  {
    if n > 0 { AllowanceGrows(m, n - 1); }
  }

  lemma LogIsBounded(r: Run, k: Key, cfg: Config, from: nat)
    requires Valid(r, cfg)
    ensures CountIn(SinceLog(r, k, cfg), from, from + cfg.window) <= 2 * Budget(cfg) - 1
    ensures Forgotten(r, k, cfg) > 0 && Until(r, k, cfg).Clock() >= from ==>
              CountIn(SinceLog(r, k, cfg), from, from + cfg.window) <= Budget(cfg)
  {
    SinceLogTells(r, k, cfg);
    StretchBound(SinceLog(r, k, cfg), from, cfg);
    if Forgotten(r, k, cfg) > 0 && Until(r, k, cfg).Clock() >= from {
      UntilComesFirst(r, k, cfg);
      FreshBound(SinceLog(r, k, cfg), from, cfg);
    }
  }

  lemma LatestStretch(r: Run, k: Key, cfg: Config, from: nat)
    requires Valid(r, cfg)
    ensures Forgotten(r, k, cfg) == 0 ==> GrantedIn(r, k, from, from + cfg.window) <= 2 * Budget(cfg) - 1
    ensures Forgotten(r, k, cfg) > 0 ==>
              var p := Until(r, k, cfg);
              if p.Clock() < from then GrantedIn(r, k, from, from + cfg.window) <= 2 * Budget(cfg) - 1
              else GrantedIn(r, k, from, from + cfg.window) <= Budget(cfg) + GrantedIn(p, k, from, from + cfg.window)
  {
    LogIsBounded(r, k, cfg, from);
    GrantedByStretches(r, k, cfg, from, from + cfg.window);
    if Forgotten(r, k, cfg) > 0 && Until(r, k, cfg).Clock() < from {
      UntilIsEarlier(r, k, cfg);
      NoneGrantedLater(Until(r, k, cfg), k, from, from + cfg.window);
    }
  }

  lemma {:induction false} WithinAllowance(r: Run, k: Key, cfg: Config, from: nat, n: nat)
    requires Valid(r, cfg) && Forgotten(r, k, cfg) == n
    ensures GrantedIn(r, k, from, from + cfg.window) <= Allowance(Budget(cfg), n)
    decreases n
  {
    LatestStretch(r, k, cfg, from);
    AllowanceGrows(Budget(cfg), n);
    if n > 0 {
      var p := Until(r, k, cfg);
      UntilIsEarlier(r, k, cfg);
      WithinAllowance(p, k, cfg, from, n - 1);
    }
  }

  /**
   Main result: in every run, any interval of one window length holds at most 2M - 1 grants of a
   key and M more for every time the key was forgotten.
   */
  lemma ForgettingBound(r: Run, k: Key, cfg: Config, from: nat)
    requires Valid(r, cfg)
    ensures GrantedIn(r, k, from, from + cfg.window) <= 2 * Budget(cfg) - 1 + Budget(cfg) * Forgotten(r, k, cfg)
  {
    WithinAllowance(r, k, cfg, from, Forgotten(r, k, cfg));
    AllowanceIs(Budget(cfg), Forgotten(r, k, cfg));
  }
}
