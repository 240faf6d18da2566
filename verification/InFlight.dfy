/**
 The cap on concurrent requests per key: a counter per key, raised by `TryAcquire` and lowered
 when the returned guard is dropped.
 */
module InFlight {
  import opened Common
  import opened RateLimit

  type Counts = map<Key, nat>

  const SWEEP_THRESHOLD := 100_000

  // ------------------------------------------------------------ what each map operation does

  function Swept(c: Counts): Counts {
    map k | k in c && c[k] > 0 :: c[k]
  }

  predicate Admits(c: Counts, key: Key, max: nat) {
    key in c ==> c[key] < max
  }

  function Entered(c: Counts, key: Key, max: nat): Counts {
    if key !in c then c[key := 1]
    else if c[key] >= max then c
    else c[key := c[key] + 1]
  }

  function Released(c: Counts, key: Key): Counts {
    if key !in c then c
    else if c[key] <= 1 then c - {key}
    else c[key := c[key] - 1]
  }

  class InFlightLimiter {
    const max: nat
    var inFlight: Counts

    constructor (maxConcurrentPerKey: nat)
      ensures max >= 1 && (maxConcurrentPerKey >= 1 ==> max == maxConcurrentPerKey) && inFlight == map[]
    {
      max := Max(1, maxConcurrentPerKey);
      inFlight := map[];
    }

    method TryAcquire(key: Key) returns (guard: Option<InFlightGuard>)
      modifies this`inFlight
      ensures var c := if |old(inFlight)| >= SWEEP_THRESHOLD then Swept(old(inFlight)) else old(inFlight);
              && inFlight == Entered(c, key, max)
              && (guard.Some? <==> Admits(c, key, max))
      ensures guard.Some? ==> fresh(guard.value) && guard.value.key == key && guard.value.limiter == this
      ensures var c := old(inFlight);
              && (guard.Some? <==> key !in c || c[key] < max || (c[key] == 0 && |c| >= 100_000))
              && (guard.Some? ==> key in inFlight && inFlight[key] == 1 + if key in c then c[key] else 0)
              && (guard.None? ==> key in inFlight && inFlight[key] == c[key])
      ensures forall k :: k != key ==>
                var c := old(inFlight);
                && (k in inFlight <==> k in c && (c[k] != 0 || |c| < 100_000))
                && (k in inFlight ==> inFlight[k] == c[k])
    {
      if |inFlight| >= SWEEP_THRESHOLD {
        inFlight := Swept(inFlight);
      }
      if key in inFlight {
        if inFlight[key] >= max {
          return None;
        }
        inFlight := inFlight[key := inFlight[key] + 1];
      } else {
        inFlight := inFlight[key := 1];
      }
      var g := new InFlightGuard(key, this);
      return Some(g);
    }
  }

  class InFlightGuard {
    const key: Key
    const limiter: InFlightLimiter

    constructor (key: Key, limiter: InFlightLimiter)
      ensures this.key == key && this.limiter == limiter
    {
      this.key := key;
      this.limiter := limiter;
    }

    method Drop()
      modifies limiter`inFlight
      ensures limiter.inFlight == Released(old(limiter.inFlight), key)
    {
      if key in limiter.inFlight {
        if limiter.inFlight[key] <= 1 {
          limiter.inFlight := limiter.inFlight - {key};
        } else {
          limiter.inFlight := limiter.inFlight[key := limiter.inFlight[key] - 1];
        }
      }
    }
  }

  // ------------------------------------------------------------ interleavings

  // The map locks one entry at a time, so a sweep may be interleaved key by key with acquires
  // and drops of other requests. A guard is identified by a number and dropped once.
  datatype Step =
    | SweepKey(key: Key)
    | Enter(key: Key, guard: nat, granted: bool)
    | Drop(guard: nat)

  datatype State = State(counts: Counts, guards: map<nat, Key>)

  datatype History = Start | Next(prev: History, step: Step, state: State) {
    function Now(): State { if Start? then State(map[], map[]) else state }
  }

  ghost predicate Steps(s: State, step: Step, s': State, max: nat) {
    match step
    case SweepKey(k) =>
      s' == State(if k in s.counts && s.counts[k] == 0 then s.counts - {k} else s.counts, s.guards)
    case Enter(k, g, granted) =>
      && g !in s.guards
      && granted == Admits(s.counts, k, max)
      && s' == State(Entered(s.counts, k, max), if granted then s.guards[g := k] else s.guards)
    case Drop(g) =>
      && g in s.guards
      && s' == State(Released(s.counts, s.guards[g]), s.guards - {g})
  }

  ghost predicate Valid(h: History, max: nat) {
    h.Next? ==> Valid(h.prev, max) && Steps(h.prev.Now(), h.step, h.state, max)
  }

  function Holders(guards: map<nat, Key>, k: Key): set<nat> {
    set g | g in guards && guards[g] == k
  }

  /** The counter of `k` is its number of live guards, present exactly when positive, capped. */
  ghost predicate AccurateAt(s: State, k: Key, max: nat) {
    && |Holders(s.guards, k)| == (if k in s.counts then s.counts[k] else 0)
    && (k in s.counts ==> 1 <= s.counts[k] <= max)
  }

  ghost predicate Accurate(s: State, max: nat) {
    forall k :: AccurateAt(s, k, max)
  }

  lemma StepIsAccurateAt(s: State, step: Step, s': State, k: Key, max: nat)
    requires max >= 1 && AccurateAt(s, k, max) && Steps(s, step, s', max)
    ensures AccurateAt(s', k, max)
    ensures step == SweepKey(k) ==> s' == s
  {
    var before, after := Holders(s.guards, k), Holders(s'.guards, k);
    if step.Enter? && step.granted && step.key == k {
      assert after == before + {step.guard};
    } else if step.Drop? && s.guards[step.guard] == k {
      assert after == before - {step.guard} && step.guard in before;
    } else {
      assert after == before;
    }
  }

  /**
   Main result: in every interleaving each key's counter is its number of live guards and never
   exceeds the cap; hence no sweep step ever changes the map.
   */
  lemma {:induction false} CountersAreAccurate(h: History, max: nat)
    requires max >= 1 && Valid(h, max)
    ensures Accurate(h.Now(), max)
    ensures h.Next? && h.step.SweepKey? ==> h.Now() == h.prev.Now()
  {
    if h.Next? {
      CountersAreAccurate(h.prev, max);
      forall k ensures AccurateAt(h.state, k, max) {
        StepIsAccurateAt(h.prev.Now(), h.step, h.state, k, max);
      }
      if h.step.SweepKey? {
        assert AccurateAt(h.prev.Now(), h.step.key, max);
      }
    }
  }

  /** A request is refused exactly when its key already has `max` guards alive. */
  lemma {:induction false} RefusedExactlyAtCap(h: History, max: nat)
    requires max >= 1 && Valid(h, max) && h.Next? && h.step.Enter?
    ensures h.step.granted <==> |Holders(h.prev.Now().guards, h.step.key)| < max
  {
    CountersAreAccurate(h.prev, max);
    assert AccurateAt(h.prev.Now(), h.step.key, max);
  }

  /** A whole-map sweep, at any size, is the identity on every reachable map. */
  lemma {:induction false} SweepIsIdentity(h: History, max: nat)
    requires max >= 1 && Valid(h, max)
    ensures Swept(h.Now().counts) == h.Now().counts
  {
    CountersAreAccurate(h, max);
    assert forall k :: k in h.Now().counts ==> AccurateAt(h.Now(), k, max);
  }
}
