/**
 Cache breakpoints in request payloads: counting `cache_control` markers, and the five-phase
 removal that enforces the provider's limit.
 */
module CacheMarkers {
  import opened Common
  import opened JsonValue

  const CACHE_CONTROL := "cache_control"
  const CONTENT := "content"

  // ------------------------------------------------------------ markers in lists of blocks

  predicate HasMark(v: Value) {
    Get(v, CACHE_CONTROL).Some?
  }

  function Unmarked(v: Value): (u: Value)
    ensures !HasMark(u)
  {
    if v.Object? then Object(v.fields - {CACHE_CONTROL}) else v
  }

  function Count(xs: seq<Value>): nat {
    if xs == [] then 0 else Count(xs[..|xs| - 1]) + if HasMark(xs[|xs| - 1]) then 1 else 0
  }

  /** A block that `before` markers precede, when the first `n` markers go. */
  function StripOne(x: Value, before: nat, n: nat): Value {
    if HasMark(x) && before < n then Unmarked(x) else x
  }

  /** The blocks with their first `n` markers removed and nothing else changed. */
  function StripFirst(xs: seq<Value>, n: nat): (r: seq<Value>)
    ensures |r| == |xs|
  {
    if xs == [] then []
    else
      var init, last := xs[..|xs| - 1], xs[|xs| - 1];
      StripFirst(init, n) + [StripOne(last, Count(init), n)]
  }

  /** Which blocks change: those that hold one of the first `n` markers. */
  lemma {:induction false} StripFirstAt(xs: seq<Value>, n: nat, i: nat)
    requires i < |xs|
    ensures StripFirst(xs, n)[i] == if HasMark(xs[i]) && Count(xs[..i]) < n then Unmarked(xs[i]) else xs[i]
  {
    if i < |xs| - 1 {
      StripFirstAt(xs[..|xs| - 1], n, i);
      assert xs[..|xs| - 1][..i] == xs[..i];
    }
  }

  lemma {:induction false} StripNone(xs: seq<Value>)
    ensures StripFirst(xs, 0) == xs
  {
    if xs != [] {
      StripNone(xs[..|xs| - 1]);
      assert xs == xs[..|xs| - 1] + [xs[|xs| - 1]];
    }
  }

  lemma SnocCount(xs: seq<Value>, x: Value)
    ensures Count(xs + [x]) == Count(xs) + if HasMark(x) then 1 else 0
  {
    assert (xs + [x])[..|xs|] == xs;
  }

  lemma SnocStrip(xs: seq<Value>, x: Value, n: nat)
    ensures StripFirst(xs + [x], n)
            == StripFirst(xs, n) + [StripOne(x, Count(xs), n)]
  {
    assert (xs + [x])[..|xs|] == xs;
  }

  lemma {:induction false} StripCount(xs: seq<Value>, n: nat)
    ensures Count(StripFirst(xs, n)) == Count(xs) - Min(n, Count(xs))
  {
    if xs != [] {
      var init, last := xs[..|xs| - 1], xs[|xs| - 1];
      StripCount(init, n);
      SnocCount(StripFirst(init, n), StripOne(last, Count(init), n));
    }
  }

  /** Asking for all markers or for more is the same. */
  lemma {:induction false} StripAll(xs: seq<Value>, n: nat, m: nat)
    requires n >= Count(xs) && m >= Count(xs)
    ensures StripFirst(xs, n) == StripFirst(xs, m)
  {
    if xs != [] { StripAll(xs[..|xs| - 1], n, m); }
  }

  lemma StripOneTwice(x: Value, before: nat, a: nat, b: nat)
    ensures StripOne(StripOne(x, before, a), before - Min(a, before), b) == StripOne(x, before, a + b)
  {
  }

  lemma {:induction false} StripTwice(xs: seq<Value>, a: nat, b: nat)
    ensures StripFirst(StripFirst(xs, a), b) == StripFirst(xs, a + b)
  {
    if xs != [] {
      var init, last := xs[..|xs| - 1], xs[|xs| - 1];
      var before := Count(init);
      StripTwice(init, a, b);
      StripCount(init, a);
      SnocStrip(StripFirst(init, a), StripOne(last, before, a), b);
      StripOneTwice(last, before, a, b);
    }
  }

  // ------------------------------------------------------------ one phase over a list

  function LastMark(xs: seq<Value>): (r: Option<nat>)
    ensures r.Some? ==> r.value < |xs| && HasMark(xs[r.value]) && forall i :: r.value < i < |xs| ==> !HasMark(xs[i])
    ensures r.None? ==> forall i :: 0 <= i < |xs| ==> !HasMark(xs[i])
  {
    if xs == [] then None
    else if HasMark(xs[|xs| - 1]) then Some(|xs| - 1)
    else LastMark(xs[..|xs| - 1])
  }

  lemma {:induction false} CountNone(xs: seq<Value>)
    requires forall i :: 0 <= i < |xs| ==> !HasMark(xs[i])
    ensures Count(xs) == 0
  {
    if xs != [] { CountNone(xs[..|xs| - 1]); }
  }

  lemma {:induction false} CountGrows(xs: seq<Value>, i: nat)
    requires i <= |xs|
    ensures Count(xs[..i]) <= Count(xs)
    ensures (forall j :: i <= j < |xs| ==> !HasMark(xs[j])) ==> Count(xs[..i]) == Count(xs)
  {
    if i == |xs| {
      assert xs[..i] == xs;
    } else {
      CountGrows(xs[..|xs| - 1], i);
      assert xs[..|xs| - 1][..i] == xs[..i];
    }
  }

  lemma PrefixStep(xs: seq<Value>, i: nat)
    requires i < |xs|
    ensures Count(xs[..i + 1]) == Count(xs[..i]) + if HasMark(xs[i]) then 1 else 0
  {
    assert xs[..i + 1] == xs[..i] + [xs[i]];
    SnocCount(xs[..i], xs[i]);
  }

  lemma PrefixGrows(xs: seq<Value>, i: nat, j: nat)
    requires i <= j <= |xs|
    ensures Count(xs[..i]) <= Count(xs[..j])
  {
    assert xs[..j][..i] == xs[..i];
    CountGrows(xs[..j], i);
  }

  /** The last marker is the one with all but one of the markers before it. */
  lemma BeforeLast(xs: seq<Value>, i: nat, last: nat)
    requires i <= last < |xs| && HasMark(xs[i]) && HasMark(xs[last])
    requires Count(xs[..last + 1]) == Count(xs)
    ensures (i == last <==> Count(xs[..i]) == Count(xs) - 1) && Count(xs[..i]) < Count(xs)
  {
    PrefixStep(xs, i);
    PrefixStep(xs, last);
    if i < last {
      PrefixGrows(xs, i + 1, last);
    }
  }

  /** How many markers a phase may take: all, or all but the last. */
  function Available(count: nat, keepLast: bool): nat {
    if keepLast && count > 0 then count - 1 else count
  }

  /** The phase passes over block `i` when `excess` markers are still to be removed. */
  predicate Spared(xs: seq<Value>, i: nat, last: Option<nat>, keepLast: bool, excess: nat)
    requires i < |xs|
  {
    excess == 0 || (keepLast && last == Some(i)) || !HasMark(xs[i])
  }

  /** Passing over a block agrees with counting: the first `n` markers go, and no other. */
  lemma SparedExactly(xs: seq<Value>, i: nat, keepLast: bool, excess0: nat, n: nat)
    requires i < |xs| && n == Min(excess0, Available(Count(xs), keepLast))
    ensures var before := Count(xs[..i]);
            Spared(xs, i, LastMark(xs), keepLast, excess0 - Min(n, before)) <==> !(HasMark(xs[i]) && before < n)
  {
    if HasMark(xs[i]) {
      LastMarkCounts(xs, i);
    }
  }

  /** A marked block is the last marked one exactly when all but one of the markers precede it. */
  lemma LastMarkCounts(xs: seq<Value>, i: nat)
    requires i < |xs| && HasMark(xs[i])
    ensures (LastMark(xs) == Some(i) <==> Count(xs[..i]) == Count(xs) - 1) && Count(xs[..i]) < Count(xs)
  {
    AllUpToLast(xs);
    BeforeLast(xs, i, LastMark(xs).value);
  }

  lemma {:induction false} AllUpToLast(xs: seq<Value>)
    ensures LastMark(xs).Some? ==> Count(xs[..LastMark(xs).value + 1]) == Count(xs)
  {
    if xs != [] {
      var init := xs[..|xs| - 1];
      if HasMark(xs[|xs| - 1]) {
        assert xs[..|xs|] == xs;
      } else if LastMark(init).Some? {
        AllUpToLast(init);
        assert init[..LastMark(init).value + 1] == xs[..LastMark(init).value + 1];
      }
    }
  }

  lemma PhaseStep(xs: seq<Value>, i: nat, n: nat)
    requires i < |xs|
    ensures Count(xs[..i + 1]) == Count(xs[..i]) + if HasMark(xs[i]) then 1 else 0
    ensures StripFirst(xs[..i + 1], n) == StripFirst(xs[..i], n) + [StripOne(xs[i], Count(xs[..i]), n)]
  {
    assert xs[..i + 1] == xs[..i] + [xs[i]];
    SnocCount(xs[..i], xs[i]);
    SnocStrip(xs[..i], xs[i], n);
  }

  /** One phase: earliest markers first while there is an excess, the last one spared if asked. */
  method StripPhase(xs: seq<Value>, keepLast: bool, excess0: nat) returns (r: seq<Value>, excess: nat)
    ensures var n := Min(excess0, Available(Count(xs), keepLast));
            r == StripFirst(xs, n) && excess == excess0 - n
  {
    var last := LastMark(xs);
    r, excess := [], excess0;
    ghost var n := Min(excess0, Available(Count(xs), keepLast));
    for i := 0 to |xs|
      invariant excess == excess0 - Min(n, Count(xs[..i]))
      invariant r == StripFirst(xs[..i], n)
    {
      PhaseStep(xs, i, n);
      SparedExactly(xs, i, keepLast, excess0, n);
      if Spared(xs, i, last, keepLast, excess) {
        r := r + [xs[i]];
      } else {
        r := r + [Unmarked(xs[i])];
        excess := excess - 1;
      }
    }
    assert xs[..|xs|] == xs;
  }

  // ------------------------------------------------------------ fields that hold lists

  // A field of an object, present or not.
  type Field = Option<Value>

  function CountIn(f: Field): nat {
    if f.Some? && f.value.Array? then Count(f.value.items) else 0
  }

  /** An array field with its first `n` markers removed; any other field as it is. */
  function StripIn(f: Field, n: nat): Field {
    if f.Some? && f.value.Array? then Some(Array(StripFirst(f.value.items, n))) else f
  }

  lemma StripInNone(f: Field)
    ensures StripIn(f, 0) == f
  {
    if f.Some? && f.value.Array? { StripNone(f.value.items); }
  }

  lemma StripInCount(f: Field, n: nat)
    ensures CountIn(StripIn(f, n)) == CountIn(f) - Min(n, CountIn(f))
  {
    if f.Some? && f.value.Array? { StripCount(f.value.items, n); }
  }

  lemma StripInAll(f: Field, n: nat, m: nat)
    requires n == m || (n >= CountIn(f) && m >= CountIn(f))
    ensures StripIn(f, n) == StripIn(f, m)
  {
    if n != m && f.Some? && f.value.Array? { StripAll(f.value.items, n, m); }
  }

  lemma StripInTwice(f: Field, a: nat, b: nat)
    ensures StripIn(StripIn(f, a), b) == StripIn(f, a + b)
  {
    if f.Some? && f.value.Array? { StripTwice(f.value.items, a, b); }
  }

  method CountField(f: Field) returns (count: nat)
    ensures count == CountIn(f)
  {
    count := 0;
    if f.Some? && f.value.Array? {
      var xs := f.value.items;
      for i := 0 to |xs|
        invariant count == Count(xs[..i])
      {
        if HasMark(xs[i]) {
          count := count + 1;
        }
        PrefixStep(xs, i);
      }
      assert xs[..|xs|] == xs;
    }
  }

  method StripField(f: Field, keepLast: bool, excess0: nat) returns (r: Field, excess: nat)
    ensures var n := Min(excess0, Available(CountIn(f), keepLast));
            r == StripIn(f, n) && excess == excess0 - n
  {
    r, excess := f, excess0;
    if f.Some? && f.value.Array? {
      var ys: seq<Value>;
      ys, excess := StripPhase(f.value.items, keepLast, excess0);
      r := Some(Array(ys));
    }
  }

  // ------------------------------------------------------------ messages

  function Content(m: Value): Field {
    Get(m, CONTENT)
  }

  /** The message with its content replaced, if it has any. */
  function WithContent(m: Value, c: Field): Value {
    if m.Object? && c.Some? then Object(m.fields[CONTENT := c.value]) else m
  }

  lemma SameContent(m: Value)
    ensures WithContent(m, Content(m)) == m
  {
    if Content(m).Some? {
      assert m.fields[CONTENT := Content(m).value] == m.fields;
    }
  }

  lemma ContentReplaced(m: Value, c: Field)
    requires Content(m).Some? <==> c.Some?
    ensures Content(WithContent(m, c)) == c
  {
  }

  function StripMessage(m: Value, n: nat): Value {
    WithContent(m, StripIn(Content(m), n))
  }

  function MessageCount(ms: seq<Value>): nat {
    if ms == [] then 0 else MessageCount(ms[..|ms| - 1]) + CountIn(Content(ms[|ms| - 1]))
  }

  /** The messages with the first `n` markers of their content blocks removed. */
  function StripMessages(ms: seq<Value>, n: nat): (r: seq<Value>)
    ensures |r| == |ms|
  {
    if ms == [] then []
    else
      var init, last := ms[..|ms| - 1], ms[|ms| - 1];
      StripMessages(init, n) + [StripMessage(last, Max(0, n - MessageCount(init)))]
  }

  /** Which messages change: each loses what is left of the `n` after the messages before it. */
  lemma {:induction false} StripMessagesAt(ms: seq<Value>, n: nat, i: nat)
    requires i < |ms|
    ensures StripMessages(ms, n)[i] == StripMessage(ms[i], Max(0, n - MessageCount(ms[..i])))
  {
    if i < |ms| - 1 {
      StripMessagesAt(ms[..|ms| - 1], n, i);
      assert ms[..|ms| - 1][..i] == ms[..i];
    }
  }

  lemma SnocMessages(ms: seq<Value>, m: Value, n: nat)
    ensures MessageCount(ms + [m]) == MessageCount(ms) + CountIn(Content(m))
    ensures StripMessages(ms + [m], n)
            == StripMessages(ms, n) + [StripMessage(m, Max(0, n - MessageCount(ms)))]
  {
    assert (ms + [m])[..|ms|] == ms;
  }

  lemma {:induction false} StripMessagesCount(ms: seq<Value>, n: nat)
    ensures MessageCount(StripMessages(ms, n)) == MessageCount(ms) - Min(n, MessageCount(ms))
  {
    if ms != [] {
      var init, last := ms[..|ms| - 1], ms[|ms| - 1];
      var k := Max(0, n - MessageCount(init));
      StripMessagesCount(init, n);
      StripInCount(Content(last), k);
      ContentReplaced(last, StripIn(Content(last), k));
      SnocMessages(StripMessages(init, n), StripMessage(last, k), 0);
    }
  }

  lemma {:induction false} MessageCountGrows(ms: seq<Value>, i: nat)
    requires i <= |ms|
    ensures MessageCount(ms[..i]) <= MessageCount(ms)
  {
    if i == |ms| {
      assert ms[..i] == ms;
    } else {
      MessageCountGrows(ms[..|ms| - 1], i);
      assert ms[..|ms| - 1][..i] == ms[..i];
    }
  }

  /** Message `i` loses as many of its markers as are still in excess. */
  lemma MessageStep(ms: seq<Value>, i: nat, excess0: nat, n: nat, share: nat)
    requires i < |ms| && n == Min(excess0, MessageCount(ms))
    requires share == Min(excess0 - Min(excess0, MessageCount(ms[..i])), CountIn(Content(ms[i])))
    ensures MessageCount(ms[..i + 1]) == MessageCount(ms[..i]) + CountIn(Content(ms[i]))
    ensures StripMessages(ms[..i + 1], n) == StripMessages(ms[..i], n) + [StripMessage(ms[i], share)]
  {
    assert ms[..i + 1] == ms[..i] + [ms[i]];
    SnocMessages(ms[..i], ms[i], n);
    MessageCountGrows(ms, i + 1);
    StripInAll(Content(ms[i]), share, Max(0, n - MessageCount(ms[..i])));
  }

  lemma StripMessageNone(m: Value)
    ensures StripMessage(m, 0) == m
  {
    StripInNone(Content(m));
    SameContent(m);
  }

  method StripMessagePhase(ms: seq<Value>, excess0: nat) returns (r: seq<Value>, excess: nat)
    ensures var n := Min(excess0, MessageCount(ms));
            r == StripMessages(ms, n) && excess == excess0 - n
  {
    r, excess := [], excess0;
    ghost var n := Min(excess0, MessageCount(ms));
    for i := 0 to |ms|
      invariant excess == excess0 - Min(excess0, MessageCount(ms[..i]))
      invariant r == StripMessages(ms[..i], n)
    {
      var m := ms[i];
      MessageStep(ms, i, excess0, n, Min(excess, CountIn(Content(m))));
      if excess == 0 {
        StripMessageNone(m);
        r := r + [m];
      } else {
        var c: Field;
        c, excess := StripField(Content(m), false, excess);
        r := r + [WithContent(m, c)];
      }
    }
    assert ms[..|ms|] == ms;
  }

  // ------------------------------------------------------------ the whole payload

  // The fields the breakpoint rules look at; everything else is carried along.
  datatype Request = Request(
    system: Field, tools: Field, messages: Field, thread: Field, others: map<string, Value>)

  function MessagesIn(f: Field): nat {
    if f.Some? && f.value.Array? then MessageCount(f.value.items) else 0
  }

  function StripMessagesIn(f: Field, n: nat): Field {
    if f.Some? && f.value.Array? then Some(Array(StripMessages(f.value.items, n))) else f
  }

  function Total(p: Request): nat {
    CountIn(p.tools) + CountIn(p.system) + MessagesIn(p.messages)
  }

  /** A payload continuing a thread gets one breakpoint less. */
  function Limit(p: Request, maxBlocks: nat): nat {
    if p.thread.Some? && !p.thread.value.Null? && maxBlocks > 0 then maxBlocks - 1 else maxBlocks
  }

  // A marker by its kind and its number among the markers of that kind, in payload order.
  datatype Marker = SystemMarker(i: nat) | ToolMarker(i: nat) | MessageMarker(i: nat)

  function Numbered(n: nat, mk: nat -> Marker): (r: seq<Marker>)
    ensures |r| == n && forall i :: 0 <= i < n ==> r[i] == mk(i)
  {
    seq(n, i requires 0 <= i < n => mk(i))
  }

  /**
   The order of sacrifice for `s` system, `t` tool and `m` message markers: system except the
   last, tools except the last, messages, the last system one, the last tool one.
   */
  function Order(s: nat, t: nat, m: nat): seq<Marker> {
    Numbered(Available(s, true), (i: nat) => SystemMarker(i)) + (Numbered(Available(t, true), (i: nat) => ToolMarker(i))
    + (Numbered(m, (i: nat) => MessageMarker(i))
    + ((if s > 0 then [SystemMarker(s - 1)] else []) + if t > 0 then [ToolMarker(t - 1)] else [])))
  }

  // How many markers each of the five phases takes.
  datatype Phases = Phases(system: nat, tools: nat, messages: nat, lastSystem: nat, lastTool: nat)

  function PhaseShares(s: nat, t: nat, m: nat, excess: nat): Phases {
    var x1 := Min(excess, Available(s, true));
    var x2 := Min(excess - x1, Available(t, true));
    var x3 := Min(excess - x1 - x2, m);
    var x4 := Min(excess - x1 - x2 - x3, s - x1);
    var x5 := Min(excess - x1 - x2 - x3 - x4, t - x2);
    Phases(x1, x2, x3, x4, x5)
  }

  predicate Taken(k: Marker, x: Phases) {
    match k
    case SystemMarker(i) => i < x.system + x.lastSystem
    case ToolMarker(i) => i < x.tools + x.lastTool
    case MessageMarker(i) => i < x.messages
  }

  /** The shares take exactly the first `excess` markers of the order. */
  lemma SharesFollowOrder(s: nat, t: nat, m: nat, excess: nat, j: nat)
    requires excess <= s + t + m && j < |Order(s, t, m)|
    ensures |Order(s, t, m)| == s + t + m
    ensures Taken(Order(s, t, m)[j], PhaseShares(s, t, m, excess)) <==> j < excess
  {
  }

  /** The payload without its first `excess` markers in the order of sacrifice, else unchanged. */
  function Sacrificed(p: Request, excess: nat): Request {
    var x := PhaseShares(CountIn(p.system), CountIn(p.tools), MessagesIn(p.messages), excess);
    Stripped(p, x)
  }

  function Stripped(p: Request, x: Phases): Request {
    p.(system := StripIn(p.system, x.system + x.lastSystem),
       tools := StripIn(p.tools, x.tools + x.lastTool),
       messages := StripMessagesIn(p.messages, x.messages))
  }

  function Enforced(p: Request, maxBlocks: nat): Request {
    if Total(p) <= Limit(p, maxBlocks) then p else Sacrificed(p, Total(p) - Limit(p, maxBlocks))
  }

  lemma SharesAddUp(s: nat, t: nat, m: nat, excess: nat, x: Phases)
    requires excess <= s + t + m && x == PhaseShares(s, t, m, excess)
    ensures x.system + x.lastSystem <= s && x.tools + x.lastTool <= t && x.messages <= m
    ensures (x.system + x.lastSystem) + (x.tools + x.lastTool) + x.messages == excess
  {
  }

  lemma StripMessagesInCount(f: Field, n: nat)
    ensures MessagesIn(StripMessagesIn(f, n)) == MessagesIn(f) - Min(n, MessagesIn(f))
  {
    if f.Some? && f.value.Array? { StripMessagesCount(f.value.items, n); }
  }

  lemma StrippedTotal(p: Request, x: Phases)
    requires x.system + x.lastSystem <= CountIn(p.system) && x.tools + x.lastTool <= CountIn(p.tools)
    requires x.messages <= MessagesIn(p.messages)
    ensures Total(Stripped(p, x)) == Total(p) - (x.system + x.lastSystem) - (x.tools + x.lastTool) - x.messages
  {
    StripInCount(p.system, x.system + x.lastSystem);
    StripInCount(p.tools, x.tools + x.lastTool);
    StripMessagesInCount(p.messages, x.messages);
  }

  lemma SacrificedTotal(p: Request, excess: nat)
    requires excess <= Total(p)
    ensures Total(Sacrificed(p, excess)) == Total(p) - excess
  {
    var x := PhaseShares(CountIn(p.system), CountIn(p.tools), MessagesIn(p.messages), excess);
    SharesAddUp(CountIn(p.system), CountIn(p.tools), MessagesIn(p.messages), excess, x);
    StrippedTotal(p, x);
  }

  /** Main result: exactly as many markers remain as the limit allows, or as there were. */
  lemma EnforcedTotal(p: Request, maxBlocks: nat)
    ensures Total(Enforced(p, maxBlocks)) == Min(Total(p), Limit(p, maxBlocks))
  {
    if Total(p) > Limit(p, maxBlocks) {
      SacrificedTotal(p, Total(p) - Limit(p, maxBlocks));
    }
  }

  lemma StrippedInPhases(p: Request, x: Phases, q: Request)
    requires q == p.(system := StripIn(StripIn(p.system, x.system), x.lastSystem),
                     tools := StripIn(StripIn(p.tools, x.tools), x.lastTool),
                     messages := StripMessagesIn(p.messages, x.messages))
    ensures q == Stripped(p, x)
  {
    StripInTwice(p.system, x.system, x.lastSystem);
    StripInTwice(p.tools, x.tools, x.lastTool);
  }

  /** The five phases one after the other remove exactly what is to be sacrificed. */
  lemma PhasesSacrifice(p: Request, excess: nat, x: Phases, q: Request)
    requires x == PhaseShares(CountIn(p.system), CountIn(p.tools), MessagesIn(p.messages), excess)
    requires q == p.(system := StripIn(StripIn(p.system, x.system), x.lastSystem),
                     tools := StripIn(StripIn(p.tools, x.tools), x.lastTool),
                     messages := StripMessagesIn(p.messages, x.messages))
    ensures q == Sacrificed(p, excess)
  {
    StrippedInPhases(p, x, q);
  }

  /** The last two phases take their shares of what the first two left. */
  lemma FinalShares(p: Request, excess: nat, x: Phases)
    requires x == PhaseShares(CountIn(p.system), CountIn(p.tools), MessagesIn(p.messages), excess)
    ensures var rest := excess - x.system - x.tools - x.messages;
            && x.lastSystem == Min(rest, CountIn(StripIn(p.system, x.system)))
            && x.lastTool == Min(rest - x.lastSystem, CountIn(StripIn(p.tools, x.tools)))
  {
    StripInCount(p.system, x.system);
    StripInCount(p.tools, x.tools);
  }

  method StripMessagesField(f: Field, excess0: nat) returns (r: Field, excess: nat)
    ensures var n := Min(excess0, MessagesIn(f));
            r == StripMessagesIn(f, n) && excess == excess0 - n
  {
    r, excess := f, excess0;
    if f.Some? && f.value.Array? {
      var ms: seq<Value>;
      ms, excess := StripMessagePhase(f.value.items, excess0);
      r := Some(Array(ms));
    }
  }

  // ------------------------------------------------------------ in place

  class Payload {
    var system: Field
    var tools: Field
    var messages: Field
    const thread: Field
    const others: map<string, Value>

    constructor (p: Request)
      ensures View() == p
    {
      system, tools, messages, thread, others := p.system, p.tools, p.messages, p.thread, p.others;
    }

    function View(): Request
      reads this
    {
      Request(system, tools, messages, thread, others)
    }

    method CountCacheControls() returns (count: nat)
      ensures count == Total(View())
    {
      var inTools := CountField(tools);
      var inSystem := CountField(system);
      count := inTools + inSystem;
      if messages.Some? && messages.value.Array? {
        var ms := messages.value.items;
        for i := 0 to |ms|
          invariant count == inTools + inSystem + MessageCount(ms[..i])
        {
          var inMessage := CountField(Content(ms[i]));
          count := count + inMessage;
          assert ms[..i + 1][..i] == ms[..i];
        }
        assert ms[..|ms|] == ms;
      }
    }

    /** The phases that spare the last system and the last tool marker. */
    method SparingPhases(excess0: nat, ghost x1: nat, ghost x2: nat, ghost x3: nat) returns (excess: nat)
      requires x1 == Min(excess0, Available(CountIn(system), true))
      requires x2 == Min(excess0 - x1, Available(CountIn(tools), true))
      requires x3 == Min(excess0 - x1 - x2, MessagesIn(messages))
      modifies this`system, this`tools, this`messages
      ensures system == StripIn(old(system), x1) && tools == StripIn(old(tools), x2)
      ensures messages == StripMessagesIn(old(messages), x3) && excess == excess0 - x1 - x2 - x3
    {
      system, excess := StripField(system, true, excess0);
      if excess == 0 {
        StripInNone(tools);
        StripMessagesInNone(messages);
        return;
      }
      excess := LaterSparingPhases(excess, x2, x3);
    }

    method LaterSparingPhases(excess0: nat, ghost x2: nat, ghost x3: nat) returns (excess: nat)
      requires x2 == Min(excess0, Available(CountIn(tools), true)) && x3 == Min(excess0 - x2, MessagesIn(messages))
      modifies this`tools, this`messages
      ensures tools == StripIn(old(tools), x2)
      ensures messages == StripMessagesIn(old(messages), x3) && excess == excess0 - x2 - x3
    {
      tools, excess := StripField(tools, true, excess0);
      if excess == 0 {
        StripMessagesInNone(messages);
        return;
      }
      messages, excess := StripMessagesField(messages, excess);
    }

    /** The phases that take what is left of the system and the tool markers. */
    method FinalPhases(excess0: nat, ghost x4: nat, ghost x5: nat)
      requires x4 == Min(excess0, CountIn(system)) && x5 == Min(excess0 - x4, CountIn(tools))
      modifies this`system, this`tools
      ensures system == StripIn(old(system), x4) && tools == StripIn(old(tools), x5)
    {
      StripInNone(system);
      StripInNone(tools);
      if excess0 == 0 {
        return;
      }
      var excess;
      system, excess := StripField(system, false, excess0);
      if excess == 0 {
        return;
      }
      tools, excess := StripField(tools, false, excess);
    }

    /** Five phases in the order of sacrifice, each as long as there is an excess. */
    method EnforceCacheControlLimit(maxBlocks: nat)
      modifies this`system, this`tools, this`messages
      ensures View() == Enforced(old(View()), maxBlocks)
    {
      var limit := Limit(View(), maxBlocks);
      var total := CountCacheControls();
      if total <= limit {
        return;
      }
      var excess := total - limit;
      ghost var x := PhaseShares(CountIn(system), CountIn(tools), MessagesIn(messages), excess);
      FinalShares(View(), excess, x);
      var rest := SparingPhases(excess, x.system, x.tools, x.messages);
      FinalPhases(rest, x.lastSystem, x.lastTool);
      PhasesSacrifice(old(View()), excess, x, View());
      EnforcedIsSacrificed(old(View()), maxBlocks, excess);
    }
  }

  lemma EnforcedIsSacrificed(p: Request, maxBlocks: nat, excess: nat)
    requires Total(p) > Limit(p, maxBlocks) && excess == Total(p) - Limit(p, maxBlocks)
    ensures Enforced(p, maxBlocks) == Sacrificed(p, excess)
  {
  }

  lemma {:induction false} StripMessagesNone(ms: seq<Value>)
    ensures StripMessages(ms, 0) == ms
  {
    if ms != [] {
      StripMessagesNone(ms[..|ms| - 1]);
      StripMessageNone(ms[|ms| - 1]);
      assert ms == ms[..|ms| - 1] + [ms[|ms| - 1]];
    }
  }

  lemma StripMessagesInNone(f: Field)
    ensures StripMessagesIn(f, 0) == f
  {
    if f.Some? && f.value.Array? { StripMessagesNone(f.value.items); }
  }
}
