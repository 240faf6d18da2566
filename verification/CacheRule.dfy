/**
 The rule that limits cache breakpoints, block by block: a block loses its marker exactly if that
 marker is among the first ones in the order of sacrifice.
 */
module CacheRule {
  import opened Common
  import opened JsonValue
  import opened PayloadShape
  import opened CacheMarkers

  predicate Present(k: Marker, s: nat, t: nat, m: nat) {
    match k
    case SystemMarker(i) => i < s
    case ToolMarker(i) => i < t
    case MessageMarker(i) => i < m
  }

  /** The place of a marker in the order of sacrifice. */
  function Place(k: Marker, s: nat, t: nat, m: nat): nat {
    var a, b := Available(s, true), Available(t, true);
    match k
    case SystemMarker(i) => if i < a then i else a + b + m
    case ToolMarker(i) => if i < b then a + i else a + b + m + (if s > 0 then 1 else 0)
    case MessageMarker(i) => a + b + i
  }

  lemma PlaceIsRight(k: Marker, s: nat, t: nat, m: nat)
    requires Present(k, s, t, m)
    ensures Place(k, s, t, m) < |Order(s, t, m)| && Order(s, t, m)[Place(k, s, t, m)] == k
  {
  }

  lemma TakenExactly(k: Marker, s: nat, t: nat, m: nat, excess: nat)
    requires Present(k, s, t, m) && excess <= s + t + m
    ensures |Order(s, t, m)| == s + t + m
    ensures k in Order(s, t, m)[..excess] <==> Taken(k, PhaseShares(s, t, m, excess))
  {
    var order, at := Order(s, t, m), Place(k, s, t, m);
    PlaceIsRight(k, s, t, m);
    SharesFollowOrder(s, t, m, excess, at);
    if at < excess { assert order[..excess][at] == k; }
    if k in order[..excess] {
      var j :| 0 <= j < excess && order[..excess][j] == k;
      assert order[j] == k;
      SharesFollowOrder(s, t, m, excess, j);
    }
  }

  /** How many markers may stay: a thread that is present and not null costs one of them. */
  function Allowed(p: Request, maxBlocks: nat): nat {
    match p.thread
    case Some(Null) => maxBlocks
    case Some(_) => if maxBlocks == 0 then 0 else maxBlocks - 1
    case None => maxBlocks
  }

  function Excess(p: Request, maxBlocks: nat): nat {
    if Total(p) <= Allowed(p, maxBlocks) then 0 else Total(p) - Allowed(p, maxBlocks)
  }

  /** The markers of `p` in the order of sacrifice. */
  function PayloadOrder(p: Request): (order: seq<Marker>)
    ensures |order| == Total(p)
  {
    Order(CountIn(p.system), CountIn(p.tools), MessagesIn(p.messages))
  }

  /** The markers that go. */
  function Doomed(p: Request, maxBlocks: nat): seq<Marker> {
    PayloadOrder(p)[..Excess(p, maxBlocks)]
  }

  // ------------------------------------------------------------ the rule

  // A list of blocks: the system blocks, the tools, or the content of a message that `before`
  // message markers precede.
  datatype Blocks = SystemBlocks | ToolBlocks | MessageBlocks(before: nat)

  /** The `i`-th marker in a list of blocks. */
  function Nth(b: Blocks, i: nat): Marker {
    match b
    case SystemBlocks => SystemMarker(i)
    case ToolBlocks => ToolMarker(i)
    case MessageBlocks(before) => MessageMarker(before + i)
  }

  /** Block `x`, whose marker, if it has one, is `k`. */
  predicate BlockObeys(x: Value, y: Value, k: Marker, doomed: seq<Marker>) {
    y == if Marked(x) && k in doomed then WithoutMarker(x) else x
  }

  ghost predicate FieldObeys(f: Field, g: Field, blocks: Blocks, doomed: seq<Marker>) {
    if f.Some? && f.value.Array? then
      && g.Some? && g.value.Array? && |g.value.items| == |f.value.items|
      && forall i :: 0 <= i < |f.value.items| ==>
           BlockObeys(f.value.items[i], g.value.items[i], Nth(blocks, Count(f.value.items[..i])), doomed)
    else g == f
  }

  ghost predicate MessageObeys(m: Value, m': Value, before: nat, doomed: seq<Marker>) {
    if !HasContent(m) then m' == m
    else
      && HasContent(m') && m' == Object(m.fields["content" := m'.fields["content"]])
      && FieldObeys(Some(m.fields["content"]), Some(m'.fields["content"]), MessageBlocks(before), doomed)
  }

  ghost predicate MessagesObey(f: Field, g: Field, doomed: seq<Marker>) {
    if f.Some? && f.value.Array? then
      && g.Some? && g.value.Array? && |g.value.items| == |f.value.items|
      && forall j :: 0 <= j < |f.value.items| ==>
           MessageObeys(f.value.items[j], g.value.items[j], MessageCount(f.value.items[..j]), doomed)
    else g == f
  }

  ghost predicate Obeys(p: Request, q: Request, doomed: seq<Marker>) {
    && FieldObeys(p.system, q.system, SystemBlocks, doomed)
    && FieldObeys(p.tools, q.tools, ToolBlocks, doomed)
    && MessagesObey(p.messages, q.messages, doomed)
    && q.thread == p.thread && q.others == p.others
  }

  // ------------------------------------------------------------ what is enforced obeys it

  /** `doomed` holds exactly the first `n` of the `total` markers of `blocks`. */
  ghost predicate Cuts(blocks: Blocks, total: nat, n: nat, doomed: seq<Marker>) {
    forall i: nat :: i < total ==> (Nth(blocks, i) in doomed <==> i < n)
  }

  /** A field that lost its share, the share being where the doomed markers of the list end. */
  lemma StripObeys(f: Field, g: Field, n: nat, blocks: Blocks, doomed: seq<Marker>)
    requires g == StripIn(f, n) && Cuts(blocks, CountIn(f), n, doomed)
    ensures FieldObeys(f, g, blocks, doomed)
  {
    if f.Some? && f.value.Array? {
      var xs := f.value.items;
      forall i | 0 <= i < |xs| ensures BlockObeys(xs[i], StripFirst(xs, n)[i], Nth(blocks, Count(xs[..i])), doomed) {
        StripFirstAt(xs, n, i);
        PrefixStep(xs, i);
        CountGrows(xs, i + 1);
      }
    }
  }

  lemma StripMessageObeys(m: Value, before: nat, total: nat, n: nat, doomed: seq<Marker>)
    requires Cuts(MessageBlocks(0), total, n, doomed) && before + CountIn(Content(m)) <= total
    ensures MessageObeys(m, StripMessage(m, Max(0, n - before)), before, doomed)
  {
    var k := Max(0, n - before);
    var blocks := MessageBlocks(before);
    ContentReplaced(m, StripIn(Content(m), k));
    forall i: nat | i < CountIn(Content(m)) ensures Nth(blocks, i) in doomed <==> i < k {
      assert Nth(MessageBlocks(0), before + i) in doomed <==> before + i < n;
    }
    StripObeys(Content(m), StripIn(Content(m), k), k, blocks, doomed);
  }

  /** The markers up to and including message `j` are among all. */
  lemma MessageFits(ms: seq<Value>, j: nat)
    requires j < |ms|
    ensures MessageCount(ms[..j]) + CountIn(Content(ms[j])) <= MessageCount(ms)
  {
    PrefixGrowsBy(ms, j);
    MessageCountSnoc(ms[..j], ms[j]);
    MessageCountGrows(ms, j + 1);
  }

  lemma MessageCountSnoc(ms: seq<Value>, m: Value)
    ensures MessageCount(ms + [m]) == MessageCount(ms) + CountIn(Content(m))
  {
    assert (ms + [m])[..|ms|] == ms;
  }

  lemma StripMessagesObey(f: Field, n: nat, doomed: seq<Marker>)
    requires Cuts(MessageBlocks(0), MessagesIn(f), n, doomed)
    ensures MessagesObey(f, StripMessagesIn(f, n), doomed)
  {
    if f.Some? && f.value.Array? {
      var ms := f.value.items;
      forall j | 0 <= j < |ms|
        ensures MessageObeys(ms[j], StripMessages(ms, n)[j], MessageCount(ms[..j]), doomed)
      {
        StripMessagesAt(ms, n, j);
        MessageFits(ms, j);
        StripMessageObeys(ms[j], MessageCount(ms[..j]), MessageCount(ms), n, doomed);
      }
    }
  }

  /** The shares of the phases cut each kind of marker where the order does. */
  lemma SharesCut(s: nat, t: nat, m: nat, excess: nat, blocks: Blocks, total: nat, n: nat)
    requires excess <= s + t + m && |Order(s, t, m)| == s + t + m
    requires var x := PhaseShares(s, t, m, excess);
             match blocks
             case SystemBlocks => total == s && n == x.system + x.lastSystem
             case ToolBlocks => total == t && n == x.tools + x.lastTool
             case MessageBlocks(before) => before == 0 && total == m && n == x.messages
    ensures Cuts(blocks, total, n, Order(s, t, m)[..excess])
  {
    forall i: nat | i < total ensures Nth(blocks, i) in Order(s, t, m)[..excess] <==> i < n {
      TakenExactly(Nth(blocks, i), s, t, m, excess);
    }
  }

  lemma PayloadCuts(p: Request, excess: nat, q: Request, doomed: seq<Marker>) returns (x: Phases)
    requires excess <= Total(p) && q == Sacrificed(p, excess) && doomed == PayloadOrder(p)[..excess]
    ensures q == Stripped(p, x)
    ensures Cuts(SystemBlocks, CountIn(p.system), x.system + x.lastSystem, doomed)
    ensures Cuts(ToolBlocks, CountIn(p.tools), x.tools + x.lastTool, doomed)
    ensures Cuts(MessageBlocks(0), MessagesIn(p.messages), x.messages, doomed)
  {
    var s, t, m := CountIn(p.system), CountIn(p.tools), MessagesIn(p.messages);
    x := PhaseShares(s, t, m, excess);
    SharesCut(s, t, m, excess, SystemBlocks, s, x.system + x.lastSystem);
    SharesCut(s, t, m, excess, ToolBlocks, t, x.tools + x.lastTool);
    SharesCut(s, t, m, excess, MessageBlocks(0), m, x.messages);
  }

  lemma SacrificedObeys(p: Request, excess: nat, q: Request, doomed: seq<Marker>)
    requires excess <= Total(p) && q == Sacrificed(p, excess) && doomed == PayloadOrder(p)[..excess]
    ensures FieldObeys(p.system, q.system, SystemBlocks, doomed)
    ensures FieldObeys(p.tools, q.tools, ToolBlocks, doomed)
    ensures MessagesObey(p.messages, q.messages, doomed)
  {
    var x := PayloadCuts(p, excess, q, doomed);
    StripObeys(p.system, q.system, x.system + x.lastSystem, SystemBlocks, doomed);
    StripObeys(p.tools, q.tools, x.tools + x.lastTool, ToolBlocks, doomed);
    StripMessagesObey(p.messages, x.messages, doomed);
  }

  lemma NothingDoomed(p: Request)
    ensures Obeys(p, p, [])
  {
    if p.messages.Some? && p.messages.value.Array? {
      var ms := p.messages.value.items;
      forall j | 0 <= j < |ms| ensures MessageObeys(ms[j], ms[j], MessageCount(ms[..j]), []) {
        SameContent(ms[j]);
      }
    }
  }

  /**
   Main result: a block of the enforced payload lost its marker if and only if that marker is among
   the first `Excess` ones of the order of sacrifice; every other block and field is unchanged.
   */
  lemma EnforcedObeys(p: Request, maxBlocks: nat)
    ensures Obeys(p, Enforced(p, maxBlocks), Doomed(p, maxBlocks))
  {
    assert Limit(p, maxBlocks) == Allowed(p, maxBlocks);
    if Total(p) <= Limit(p, maxBlocks) {
      assert Doomed(p, maxBlocks) == [];
      NothingDoomed(p);
    } else {
      SacrificedObeys(p, Excess(p, maxBlocks), Enforced(p, maxBlocks), Doomed(p, maxBlocks));
    }
  }

  // ------------------------------------------------------------ the order by value

  /** How valuable a marker is: the last of the tools most, then the last of the system, then messages. */
  function Worth(k: Marker, s: nat, t: nat): nat {
    match k
    case SystemMarker(i) => if i + 1 < s then 1 else 4
    case ToolMarker(i) => if i + 1 < t then 2 else 5
    case MessageMarker(_) => 3
  }

  /** The less valuable marker, and among equals the earlier one. */
  predicate Cheaper(a: Marker, b: Marker, s: nat, t: nat) {
    Worth(a, s, t) < Worth(b, s, t) || (Worth(a, s, t) == Worth(b, s, t) && a.i < b.i)
  }

  lemma PlaceByValue(a: Marker, b: Marker, s: nat, t: nat, m: nat)
    requires Present(a, s, t, m) && Present(b, s, t, m)
    ensures Place(a, s, t, m) < Place(b, s, t, m) <==> Cheaper(a, b, s, t)
    ensures Place(a, s, t, m) == Place(b, s, t, m) <==> a == b
  {
  }

  lemma DoomedByPlace(k: Marker, s: nat, t: nat, m: nat, excess: nat)
    requires Present(k, s, t, m) && excess <= |Order(s, t, m)|
    ensures k in Order(s, t, m)[..excess] <==> Place(k, s, t, m) < excess
  {
    var order, at := Order(s, t, m), Place(k, s, t, m);
    PlaceIsRight(k, s, t, m);
    if at < excess { assert order[..excess][at] == k; }
    if k in order[..excess] {
      var j :| 0 <= j < excess && order[j] == k;
      PlaceAt(s, t, m, j);
    }
  }

  lemma PlaceAt(s: nat, t: nat, m: nat, j: nat)
    requires j < |Order(s, t, m)|
    ensures Present(Order(s, t, m)[j], s, t, m) && Place(Order(s, t, m)[j], s, t, m) == j
  {
  }

  /** Every marker that goes is cheaper than every marker that stays. */
  lemma CheaperGoFirst(p: Request, maxBlocks: nat, a: Marker, b: Marker)
    requires Present(a, CountIn(p.system), CountIn(p.tools), MessagesIn(p.messages))
    requires Present(b, CountIn(p.system), CountIn(p.tools), MessagesIn(p.messages))
    requires a in Doomed(p, maxBlocks) && b !in Doomed(p, maxBlocks)
    ensures Cheaper(a, b, CountIn(p.system), CountIn(p.tools))
  {
    var s, t, m := CountIn(p.system), CountIn(p.tools), MessagesIn(p.messages);
    DoomedByPlace(a, s, t, m, Excess(p, maxBlocks));
    DoomedByPlace(b, s, t, m, Excess(p, maxBlocks));
    PlaceByValue(a, b, s, t, m);
  }

  // ------------------------------------------------------------ counting markers by their places

  /** The places of the markers in a list of blocks. */
  function Spots(xs: seq<Value>): set<nat> {
    set i: nat | i < |xs| && Marked(xs[i])
  }

  function ItemSpots(f: Field): set<nat> {
    if f.Some? && f.value.Array? then Spots(f.value.items) else {}
  }

  function ContentSpots(m: Value): set<nat> {
    if HasContent(m) then ItemSpots(Some(m.fields["content"])) else {}
  }

  /** The places of the markers in the messages: message and block. */
  function MessageSpots(ms: seq<Value>): set<(nat, nat)> {
    set j: nat, i: nat | j < |ms| && i in ContentSpots(ms[j]) :: (j, i)
  }

  function SpotCount(p: Request): nat {
    |ItemSpots(p.tools)| + |ItemSpots(p.system)|
    + if p.messages.Some? && p.messages.value.Array? then |MessageSpots(p.messages.value.items)| else 0
  }

  lemma {:induction false} CountIsSpots(xs: seq<Value>)
    ensures Count(xs) == |Spots(xs)|
  {
    if xs == [] {
      assert Spots(xs) == {};
    } else {
      var n := |xs| - 1;
      CountIsSpots(xs[..n]);
      assert Spots(xs) == Spots(xs[..n]) + if Marked(xs[n]) then {n} else {};
    }
  }

  lemma ContentIsSpots(m: Value)
    ensures CountIn(Content(m)) == |ContentSpots(m)|
  {
    if HasContent(m) && m.fields["content"].Array? { CountIsSpots(m.fields["content"].items); }
  }

  function Row(j: nat, s: set<nat>): set<(nat, nat)> {
    set i | i in s :: (j, i)
  }

  lemma {:induction false} RowSize(j: nat, s: set<nat>)
    ensures |Row(j, s)| == |s|
  {
    if s == {} {
      assert Row(j, s) == {};
    } else {
      var x :| x in s;
      RowSize(j, s - {x});
      assert Row(j, s) == Row(j, s - {x}) + {(j, x)};
    }
  }

  lemma LastRow(ms: seq<Value>)
    requires ms != []
    ensures var n := |ms| - 1;
            && MessageSpots(ms) == MessageSpots(ms[..n]) + Row(n, ContentSpots(ms[n]))
            && MessageSpots(ms[..n]) !! Row(n, ContentSpots(ms[n]))
  {
    var n := |ms| - 1;
    var row, front := Row(n, ContentSpots(ms[n])), ms[..n];
    forall s ensures s in MessageSpots(ms) <==> s in MessageSpots(front) || s in row {
      assert s in MessageSpots(ms) <==> s.0 < |ms| && s.1 in ContentSpots(ms[s.0]);
      assert s in MessageSpots(front) <==> s.0 < |front| && s.1 in ContentSpots(front[s.0]);
      assert s in row <==> s.0 == n && s.1 in ContentSpots(ms[n]);
    }
  }

  lemma {:induction false} MessagesAreSpots(ms: seq<Value>)
    ensures MessageCount(ms) == |MessageSpots(ms)|
  {
    if ms == [] {
      assert MessageSpots(ms) == {};
    } else {
      var n := |ms| - 1;
      MessagesAreSpots(ms[..n]);
      ContentIsSpots(ms[n]);
      RowSize(n, ContentSpots(ms[n]));
      LastRow(ms);
    }
  }

  /** The markers that the program counts are the places that hold one. */
  lemma TotalIsSpots(p: Request)
    ensures Total(p) == SpotCount(p)
  {
    if p.tools.Some? && p.tools.value.Array? { CountIsSpots(p.tools.value.items); }
    if p.system.Some? && p.system.value.Array? { CountIsSpots(p.system.value.items); }
    if p.messages.Some? && p.messages.value.Array? { MessagesAreSpots(p.messages.value.items); }
  }

  /** Main result: as many places keep a marker as may, or as had one; a thread costs one. */
  lemma EnforcedSpots(p: Request, maxBlocks: nat)
    ensures SpotCount(Enforced(p, maxBlocks)) == Min(SpotCount(p), Allowed(p, maxBlocks))
  {
    EnforcedTotal(p, maxBlocks);
    TotalIsSpots(p);
    TotalIsSpots(Enforced(p, maxBlocks));
    assert Limit(p, maxBlocks) == Allowed(p, maxBlocks);
  }
}
