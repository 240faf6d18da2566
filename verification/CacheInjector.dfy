/**
 Injecting default cache breakpoints into a request payload: one for the system prompt or the
 tools, one for the latest eligible message.
 */
module CacheInjector {
  import opened Common
  import opened JsonValue
  import opened PayloadShape
  import opened CacheMarkers

  /** Unicode White_Space, the test behind `trim`. */
  predicate IsWhitespace(c: char) {
    '\U{0009}' <= c <= '\U{000D}' || c == ' ' || c == '\U{0085}' || c == '\U{00A0}' || c == '\U{1680}'
    || '\U{2000}' <= c <= '\U{200A}' || c == '\U{2028}' || c == '\U{2029}' || c == '\U{202F}'
    || c == '\U{205F}' || c == '\U{3000}'
  }

  predicate AllWhitespace(s: string) {
    forall i :: 0 <= i < |s| ==> IsWhitespace(s[i])
  }

  const EPHEMERAL := Object(map["type" := String("ephemeral")])

  function Mark(v: Value): (r: Value)
    requires v.Object?
    ensures HasMark(r)
  {
    Object(v.fields[CACHE_CONTROL := EPHEMERAL])
  }

  /** A text block carrying a marker. */
  function TextBlock(s: string): (r: Value)
    ensures HasMark(r)
  {
    Mark(Object(map["type" := String("text"), "text" := String(s)]))
  }

  predicate AnyMark(xs: seq<Value>) {
    exists i :: 0 <= i < |xs| && HasMark(xs[i])
  }

  /** The list with a marker on element `i`, if that is an object. */
  function MarkAt(xs: seq<Value>, i: nat): (r: seq<Value>)
    requires i < |xs|
    ensures |r| == |xs|
  {
    if xs[i].Object? then xs[i := Mark(xs[i])] else xs
  }

  /** The marker goes to element `i`, unless the list has one already. */
  function MarkOnce(xs: seq<Value>, i: nat): (r: seq<Value>)
    requires i < |xs|
    ensures |r| == |xs|
  {
    if AnyMark(xs) then xs else MarkAt(xs, i)
  }

  lemma {:induction false} AnyMarkCounts(xs: seq<Value>)
    ensures AnyMark(xs) <==> Count(xs) > 0
  {
    if xs != [] {
      var n := |xs| - 1;
      AnyMarkCounts(xs[..n]);
      if i :| 0 <= i < |xs| && HasMark(xs[i]) {
        if i < n { assert xs[..n][i] == xs[i]; }
      }
      if j :| 0 <= j < n && HasMark(xs[..n][j]) {
        assert HasMark(xs[j]);
      }
    }
  }

  lemma {:induction false} CountUpdate(xs: seq<Value>, i: nat, v: Value)
    requires i < |xs|
    ensures Count(xs[i := v]) == Count(xs) - (if HasMark(xs[i]) then 1 else 0) + if HasMark(v) then 1 else 0
  {
    var n := |xs| - 1;
    if i < n {
      CountUpdate(xs[..n], i, v);
      assert xs[i := v][..n] == xs[..n][i := v];
    } else {
      assert xs[i := v][..n] == xs[..n];
    }
  }

  /** Marking adds a marker exactly when there is none and the element is an object. */
  lemma MarkOnceCount(xs: seq<Value>, i: nat)
    requires i < |xs|
    ensures Count(MarkOnce(xs, i)) == Count(xs) + if Count(xs) == 0 && xs[i].Object? then 1 else 0
    ensures MarkOnce(xs, i) != xs <==> Count(xs) == 0 && xs[i].Object?
  {
    AnyMarkCounts(xs);
    if !AnyMark(xs) && xs[i].Object? {
      CountUpdate(xs, i, Mark(xs[i]));
    }
  }

  lemma MarkOnceTwice(xs: seq<Value>, i: nat)
    requires i < |xs|
    ensures MarkOnce(MarkOnce(xs, i), i) == MarkOnce(xs, i)
  {
    var ys := MarkOnce(xs, i);
    if ys != xs {
      assert HasMark(ys[i]);
    }
  }

  /** The last position whose element satisfies `p`. */
  function LastWhere(xs: seq<Value>, p: Value -> bool): (r: Option<nat>)
    ensures r.Some? ==> r.value < |xs| && p(xs[r.value]) && forall i :: r.value < i < |xs| ==> !p(xs[i])
    ensures r.None? ==> forall i :: 0 <= i < |xs| ==> !p(xs[i])
  {
    if xs == [] then None
    else if p(xs[|xs| - 1]) then Some(|xs| - 1)
    else LastWhere(xs[..|xs| - 1], p)
  }

  // ------------------------------------------------------------ tools and system

  const DEFER_LOADING := "defer_loading"

  predicate IsLoaded(v: Value) {
    Get(v, DEFER_LOADING) != Some(Bool(true))
  }

  function LastLoaded(xs: seq<Value>): (r: Option<nat>)
    ensures r.Some? ==> r.value < |xs|
  {
    LastWhere(xs, IsLoaded)
  }

  function InjectedTools(f: Field): Field {
    if f.Some? && f.value.Array? && LastLoaded(f.value.items).Some?
    then Some(Array(MarkOnce(f.value.items, LastLoaded(f.value.items).value)))
    else f
  }

  predicate IsCacheableSystem(f: Field) {
    f.Some? && ((f.value.Array? && f.value.items != []) || (f.value.String? && !AllWhitespace(f.value.s)))
  }

  function InjectedSystem(f: Field): Field {
    if !IsCacheableSystem(f) then f
    else if f.value.Array? then Some(Array(MarkOnce(f.value.items, |f.value.items| - 1)))
    else Some(Array([TextBlock(f.value.s)]))
  }

  // ------------------------------------------------------------ messages

  const ROLE := "role"
  const TYPE := "type"

  function Text(f: Field): string {
    if f.Some? && f.value.String? then f.value.s else ""
  }

  /** A user or assistant message whose content can carry the rolling marker. */
  predicate IsEligible(m: Value) {
    var role, c := Text(Get(m, ROLE)), Content(m);
    && (role == "user" || role == "assistant")
    && c.Some?
    && (c.value.String?
        || (c.value.Array? && c.value.items != []
            && (role != "assistant"
                || var t := Text(Get(c.value.items[|c.value.items| - 1], TYPE));
                   t != "thinking" && t != "redacted_thinking")))
  }

  function LastEligible(ms: seq<Value>): (r: Option<nat>)
    ensures r.Some? ==> r.value < |ms|
  {
    LastWhere(ms, IsEligible)
  }

  /** The last message is a system message with non-blank text. */
  predicate EndsWithSystemText(ms: seq<Value>) {
    ms != [] &&
    var m := ms[|ms| - 1];
    Text(Get(m, ROLE)) == "system" && Content(m).Some? && Content(m).value.String? && !AllWhitespace(Content(m).value.s)
  }

  /** Content with a marker on its last block; a string becomes one marked text block. */
  function InjectedContent(c: Field): (r: Field)
    ensures r.Some? <==> c.Some?
  {
    if c.Some? && c.value.Array? && c.value.items != []
    then Some(Array(MarkOnce(c.value.items, |c.value.items| - 1)))
    else if c.Some? && c.value.String? then Some(Array([TextBlock(c.value.s)]))
    else c
  }

  function InjectedMessage(m: Value): Value {
    WithContent(m, InjectedContent(Content(m)))
  }

  /** Which message gets the marker: the trailing system text, else the latest eligible message. */
  function Target(ms: seq<Value>): (r: Option<nat>)
    ensures r.Some? ==> r.value < |ms|
  {
    if LastEligible(ms).None? then None
    else if EndsWithSystemText(ms) then Some(|ms| - 1)
    else LastEligible(ms)
  }

  function InjectedMessages(ms: seq<Value>): (r: seq<Value>)
    ensures |r| == |ms|
  {
    var t := Target(ms);
    if t.None? then ms else ms[t.value := InjectedMessage(ms[t.value])]
  }

  function InjectedMessageField(f: Field): Field {
    if f.Some? && f.value.Array? then Some(Array(InjectedMessages(f.value.items))) else f
  }

  function Ensured(p: Request): Request {
    p.(tools := if IsCacheableSystem(p.system) then p.tools else InjectedTools(p.tools),
       system := InjectedSystem(p.system),
       messages := InjectedMessageField(p.messages))
  }

  // ------------------------------------------------------------ in place

  method InjectToolsCacheControl(p: Payload)
    modifies p`tools
    ensures p.tools == InjectedTools(old(p.tools))
  {
    if p.tools.None? || !p.tools.value.Array? {
      return;
    }
    var xs := p.tools.value.items;
    var lastEligible: Option<nat> := None;
    for i := 0 to |xs|
      invariant lastEligible == LastLoaded(xs[..i])
      invariant forall j :: 0 <= j < i ==> !HasMark(xs[j])
    {
      assert xs[..i + 1][..i] == xs[..i];
      if HasMark(xs[i]) {
        assert AnyMark(xs);
        return;
      }
      if IsLoaded(xs[i]) {
        lastEligible := Some(i);
      }
    }
    assert xs[..|xs|] == xs;
    if lastEligible.Some? {
      p.tools := Some(Array(MarkAt(xs, lastEligible.value)));
    }
  }

  method InjectSystemCacheControl(p: Payload)
    modifies p`system
    ensures p.system == InjectedSystem(old(p.system))
  {
    if p.system.None? {
      return;
    }
    var v := p.system.value;
    if v.Array? {
      if v.items == [] || AnyMark(v.items) {
        return;
      }
      p.system := Some(Array(MarkAt(v.items, |v.items| - 1)));
    } else if v.String? {
      if AllWhitespace(v.s) {
        return;
      }
      p.system := Some(Array([TextBlock(v.s)]));
    }
  }

  lemma EligibleExactly(m: Value)
    ensures IsEligible(m) <==> CanRoll(m)
  {
    KeysDiffer();
  }

  /** The last message that can carry the rolling marker. */
  method FindLastEligible(ms: seq<Value>) returns (r: Option<nat>)
    ensures r == LastEligible(ms)
    ensures r.Some? ==> CanRoll(ms[r.value]) && forall j :: r.value < j < |ms| ==> !CanRoll(ms[j])
    ensures r.None? ==> forall j :: 0 <= j < |ms| ==> !CanRoll(ms[j])
  {
    r := None;
    for i := 0 to |ms|
      invariant r == LastEligible(ms[..i])
    {
      assert ms[..i + 1][..i] == ms[..i];
      if IsEligible(ms[i]) {
        r := Some(i);
      }
    }
    assert ms[..|ms|] == ms;
    forall m ensures IsEligible(m) <==> CanRoll(m) {
      EligibleExactly(m);
    }
  }

  method InjectMessagesCacheControl(p: Payload)
    modifies p`messages
    ensures p.messages == InjectedMessageField(old(p.messages))
  {
    if p.messages.None? || !p.messages.value.Array? {
      return;
    }
    var ms := p.messages.value.items;
    var e := FindLastEligible(ms);
    if e.None? {
      return;
    }
    if EndsWithSystemText(ms) {
      var n := |ms| - 1;
      var block := TextBlock(Content(ms[n]).value.s);
      p.messages := Some(Array(ms[n := WithContent(ms[n], Some(Array([block])))]));
      return;
    }
    p.messages := Some(Array(ms[e.value := InjectedMessage(ms[e.value])]));
  }

  method EnsureAnthropicCacheControl(p: Payload)
    modifies p`tools, p`system, p`messages
    ensures p.View() == Ensured(old(p.View()))
  {
    if !IsCacheableSystem(p.system) {
      InjectToolsCacheControl(p);
    }
    InjectSystemCacheControl(p);
    InjectMessagesCacheControl(p);
  }

  // ------------------------------------------------------------ how many markers are added

  lemma ToolsGain(f: Field)
    ensures CountIn(f) <= CountIn(InjectedTools(f)) <= CountIn(f) + 1
  {
    if f.Some? && f.value.Array? && LastLoaded(f.value.items).Some? {
      MarkOnceCount(f.value.items, LastLoaded(f.value.items).value);
    }
  }

  lemma OneBlock(s: string)
    ensures Count([TextBlock(s)]) == 1
  {
    SnocCount([], TextBlock(s));
    assert [] + [TextBlock(s)] == [TextBlock(s)];
  }

  lemma SystemGain(f: Field)
    ensures CountIn(f) <= CountIn(InjectedSystem(f)) <= CountIn(f) + 1
    ensures IsCacheableSystem(InjectedSystem(f)) == IsCacheableSystem(f)
  {
    if IsCacheableSystem(f) {
      if f.value.Array? {
        MarkOnceCount(f.value.items, |f.value.items| - 1);
      } else {
        OneBlock(f.value.s);
      }
    }
  }

  lemma ContentGain(c: Field)
    ensures CountIn(c) <= CountIn(InjectedContent(c)) <= CountIn(c) + 1
  {
    if c.Some? && c.value.Array? && c.value.items != [] {
      MarkOnceCount(c.value.items, |c.value.items| - 1);
    } else if c.Some? && c.value.String? {
      OneBlock(c.value.s);
    }
  }

  lemma {:induction false} MessageCountUpdate(ms: seq<Value>, i: nat, m: Value)
    requires i < |ms|
    ensures MessageCount(ms[i := m]) == MessageCount(ms) - CountIn(Content(ms[i])) + CountIn(Content(m))
  {
    var n := |ms| - 1;
    if i < n {
      MessageCountUpdate(ms[..n], i, m);
      assert ms[i := m][..n] == ms[..n][i := m];
    } else {
      assert ms[i := m][..n] == ms[..n];
    }
  }

  lemma MessagesGain(f: Field)
    ensures MessagesIn(f) <= MessagesIn(InjectedMessageField(f)) <= MessagesIn(f) + 1
  {
    if f.Some? && f.value.Array? && Target(f.value.items).Some? {
      var ms, t := f.value.items, Target(f.value.items).value;
      var c := InjectedContent(Content(ms[t]));
      ContentGain(Content(ms[t]));
      ContentReplaced(ms[t], c);
      MessageCountUpdate(ms, t, WithContent(ms[t], c));
    }
  }

  /** At most one marker is added across tools and system and at most one in messages; none is lost. */
  lemma EnsuredGain(p: Request)
    ensures var q := Ensured(p);
            && CountIn(p.tools) <= CountIn(q.tools) && CountIn(p.system) <= CountIn(q.system)
            && CountIn(q.tools) + CountIn(q.system) <= CountIn(p.tools) + CountIn(p.system) + 1
            && MessagesIn(p.messages) <= MessagesIn(q.messages) <= MessagesIn(p.messages) + 1
  {
    ToolsGain(p.tools);
    SystemGain(p.system);
    MessagesGain(p.messages);
  }

  // ------------------------------------------------------------ block by block

  /** One block that had no marker carries its own; every other block is the same. */
  ghost predicate ListGains(xs: seq<Value>, ys: seq<Value>) {
    exists i :: 0 <= i < |xs| && xs[i].Object? && !HasMark(xs[i]) && ys == xs[i := Mark(xs[i])]
  }

  ghost predicate ArrayGains(f: Field, g: Field) {
    f.Some? && g.Some? && f.value.Array? && g.value.Array? && ListGains(f.value.items, g.value.items)
  }

  /** One block gains a marker, or a string becomes its own marked text block. */
  ghost predicate FieldGains(f: Field, g: Field) {
    ArrayGains(f, g) || (f.Some? && f.value.String? && g == Some(Array([TextBlock(f.value.s)])))
  }

  /** The content of one message gains; every other message and field is the same. */
  ghost predicate OneMessageGains(f: Field, g: Field) {
    && f.Some? && g.Some? && f.value.Array? && g.value.Array? && |f.value.items| == |g.value.items|
    && exists t :: 0 <= t < |f.value.items| && GainsAt(f.value.items, g.value.items, t)
  }

  ghost predicate GainsAt(ms: seq<Value>, ms': seq<Value>, t: nat)
    requires t < |ms| == |ms'|
  {
    && ms' == ms[t := ms'[t]] && ms'[t] == WithContent(ms[t], Content(ms'[t]))
    && FieldGains(Content(ms[t]), Content(ms'[t]))
  }

  lemma MarkOnceGains(xs: seq<Value>, i: nat)
    requires i < |xs|
    ensures MarkOnce(xs, i) == xs || ListGains(xs, MarkOnce(xs, i))
  {
    if !AnyMark(xs) && xs[i].Object? {
      assert !HasMark(xs[i]) && MarkOnce(xs, i) == xs[i := Mark(xs[i])];
    }
  }

  lemma ToolsBlocks(f: Field)
    ensures InjectedTools(f) == f || ArrayGains(f, InjectedTools(f))
  {
    if f.Some? && f.value.Array? && LastLoaded(f.value.items).Some? {
      MarkOnceGains(f.value.items, LastLoaded(f.value.items).value);
    }
  }

  lemma ContentBlocks(c: Field)
    ensures InjectedContent(c) == c || FieldGains(c, InjectedContent(c))
  {
    if c.Some? && c.value.Array? && c.value.items != [] {
      MarkOnceGains(c.value.items, |c.value.items| - 1);
    }
  }

  lemma SystemBlocks(f: Field)
    ensures InjectedSystem(f) == f || (IsCacheableSystem(f) && FieldGains(f, InjectedSystem(f)))
  {
    if IsCacheableSystem(f) { ContentBlocks(f); }
  }

  lemma MessageBlocks(f: Field)
    ensures InjectedMessageField(f) == f || OneMessageGains(f, InjectedMessageField(f))
  {
    if f.Some? && f.value.Array? && Target(f.value.items).Some? {
      var ms, t := f.value.items, Target(f.value.items).value;
      var c := InjectedContent(Content(ms[t]));
      ContentBlocks(Content(ms[t]));
      ContentReplaced(ms[t], c);
      SameContent(ms[t]);
      if c != Content(ms[t]) {
        assert GainsAt(ms, InjectedMessages(ms), t);
      } else {
        assert InjectedMessages(ms) == ms;
      }
    }
  }

  /**
   Main result: at most one block changes across tools and system and at most one in the messages;
   that block had no marker and gets one, or is the marked text block of a former string. No other
   block, marker, message or field changes.
   */
  lemma EnsuredBlocks(p: Request)
    ensures var q := Ensured(p);
            && (q.tools == p.tools || ArrayGains(p.tools, q.tools))
            && (q.system == p.system || FieldGains(p.system, q.system))
            && (q.tools == p.tools || q.system == p.system)
            && (q.messages == p.messages || OneMessageGains(p.messages, q.messages))
            && q.thread == p.thread && q.others == p.others
  {
    ToolsBlocks(p.tools);
    SystemBlocks(p.system);
    MessageBlocks(p.messages);
  }

  // ------------------------------------------------------------ nothing else changes

  function PlainBlocks(xs: seq<Value>): (r: seq<Value>)
    ensures |r| == |xs| && forall i :: 0 <= i < |xs| ==> r[i] == Unmarked(xs[i])
  {
    if xs == [] then [] else PlainBlocks(xs[..|xs| - 1]) + [Unmarked(xs[|xs| - 1])]
  }

  /** Markers forgotten and a plain string read as one text block. */
  function PlainField(f: Field): Field {
    if f.Some? && f.value.Array? then Some(Array(PlainBlocks(f.value.items)))
    else if f.Some? && f.value.String? then Some(Array([Unmarked(TextBlock(f.value.s))]))
    else f
  }

  function PlainMessages(ms: seq<Value>): (r: seq<Value>)
    ensures |r| == |ms| && forall i :: 0 <= i < |ms| ==> r[i] == WithContent(ms[i], PlainField(Content(ms[i])))
  {
    if ms == [] then []
    else
      var m := ms[|ms| - 1];
      PlainMessages(ms[..|ms| - 1]) + [WithContent(m, PlainField(Content(m)))]
  }

  function Plain(p: Request): Request {
    p.(tools := PlainField(p.tools), system := PlainField(p.system),
       messages := if p.messages.Some? && p.messages.value.Array?
                   then Some(Array(PlainMessages(p.messages.value.items))) else p.messages)
  }

  lemma UnmarkedMark(v: Value)
    requires v.Object?
    ensures Unmarked(Mark(v)) == Unmarked(v)
  {
    assert v.fields[CACHE_CONTROL := EPHEMERAL] - {CACHE_CONTROL} == v.fields - {CACHE_CONTROL};
  }

  lemma PlainMarkOnce(xs: seq<Value>, i: nat)
    requires i < |xs|
    ensures PlainBlocks(MarkOnce(xs, i)) == PlainBlocks(xs)
  {
    if xs[i].Object? {
      UnmarkedMark(xs[i]);
      PlainUpdate(xs, i, Mark(xs[i]));
    }
  }

  lemma PlainUpdate(xs: seq<Value>, i: nat, v: Value)
    requires i < |xs| && Unmarked(v) == Unmarked(xs[i])
    ensures PlainBlocks(xs[i := v]) == PlainBlocks(xs)
  {
    var a, b := PlainBlocks(xs[i := v]), PlainBlocks(xs);
    assert forall j :: 0 <= j < |xs| ==> a[j] == b[j];
  }

  lemma PlainString(s: string)
    ensures PlainField(Some(Array([TextBlock(s)]))) == PlainField(Some(String(s)))
  {
    assert PlainBlocks([TextBlock(s)]) == [Unmarked(TextBlock(s))];
  }

  lemma ContentKept(c: Field)
    ensures PlainField(InjectedContent(c)) == PlainField(c)
  {
    if c.Some? && c.value.Array? && c.value.items != [] {
      PlainMarkOnce(c.value.items, |c.value.items| - 1);
    } else if c.Some? && c.value.String? {
      PlainString(c.value.s);
    }
  }

  lemma ToolsKept(f: Field)
    ensures PlainField(InjectedTools(f)) == PlainField(f)
  {
    if f.Some? && f.value.Array? && LastLoaded(f.value.items).Some? {
      PlainMarkOnce(f.value.items, LastLoaded(f.value.items).value);
    }
  }

  lemma SystemKept(f: Field)
    ensures PlainField(InjectedSystem(f)) == PlainField(f)
  {
    if IsCacheableSystem(f) { ContentKept(f); }
  }

  lemma MessageKept(m: Value)
    ensures WithContent(InjectedMessage(m), PlainField(Content(InjectedMessage(m))))
            == WithContent(m, PlainField(Content(m)))
  {
    var c := Content(m);
    ContentReplaced(m, InjectedContent(c));
    ContentKept(c);
    if c.Some? {
      var x, y := InjectedContent(c).value, PlainField(c).value;
      assert m.fields[CONTENT := x][CONTENT := y] == m.fields[CONTENT := y];
    }
  }

  lemma MessagesKept(ms: seq<Value>)
    ensures PlainMessages(InjectedMessages(ms)) == PlainMessages(ms)
  {
    if Target(ms).Some? { MessageKept(ms[Target(ms).value]); }
  }

  /** Markers and the string form of a text aside, the payload is unchanged. */
  lemma EnsuredKeepsContent(p: Request)
    ensures Plain(Ensured(p)) == Plain(p)
  {
    ToolsKept(p.tools);
    SystemKept(p.system);
    if p.messages.Some? && p.messages.value.Array? { MessagesKept(p.messages.value.items); }
  }

  // ------------------------------------------------------------ a second call

  lemma ToolsTwice(f: Field)
    ensures InjectedTools(InjectedTools(f)) == InjectedTools(f)
  {
    if f.Some? && f.value.Array? && LastLoaded(f.value.items).Some? {
      var xs, i := f.value.items, LastLoaded(f.value.items).value;
      if MarkOnce(xs, i) != xs {
        assert HasMark(MarkOnce(xs, i)[i]);
      }
    }
  }

  lemma ContentTwice(c: Field)
    ensures InjectedContent(InjectedContent(c)) == InjectedContent(c)
  {
    if c.Some? && c.value.Array? && c.value.items != [] {
      MarkOnceTwice(c.value.items, |c.value.items| - 1);
    } else if c.Some? && c.value.String? {
      assert HasMark([TextBlock(c.value.s)][0]);
    }
  }

  lemma SystemTwice(f: Field)
    ensures InjectedSystem(InjectedSystem(f)) == InjectedSystem(f)
  {
    if IsCacheableSystem(f) { ContentTwice(f); }
  }

  lemma KeysDiffer()
    ensures ROLE != CONTENT && TYPE != CACHE_CONTROL
    ensures "system" != "user" && "system" != "assistant" && "text" != "thinking" && "text" != "redacted_thinking"
  {
    assert |ROLE| == 4 && |CONTENT| == 7 && |TYPE| == 4 && |CACHE_CONTROL| == 13;
    assert |"system"| == 6 && |"user"| == 4 && |"assistant"| == 9;
    assert |"text"| == 4 && |"thinking"| == 8 && |"redacted_thinking"| == 17;
  }

  lemma RoleStays(m: Value, c: Field)
    ensures Get(WithContent(m, c), ROLE) == Get(m, ROLE)
  {
    KeysDiffer();
  }

  lemma TypeStays(v: Value)
    requires v.Object?
    ensures Get(Mark(v), TYPE) == Get(v, TYPE)
  {
    KeysDiffer();
  }

  lemma TextBlockType(s: string)
    ensures Text(Get(TextBlock(s), TYPE)) == "text"
  {
    var v := Object(map["type" := String("text"), "text" := String(s)]);
    assert "type" != "text" by { assert "type"[1] != "text"[1]; }
    TypeStays(v);
  }

  /** A message stays eligible when the marker is added to it. */
  lemma EligibleStays(m: Value)
    requires IsEligible(m)
    ensures IsEligible(InjectedMessage(m))
  {
    var c := Content(m);
    RoleStays(m, InjectedContent(c));
    ContentReplaced(m, InjectedContent(c));
    KeysDiffer();
    if c.value.String? {
      TextBlockType(c.value.s);
    } else {
      var last := c.value.items[|c.value.items| - 1];
      if last.Object? { TypeStays(last); }
    }
  }

  lemma {:induction false} LastWhereIs(xs: seq<Value>, p: Value -> bool, i: nat)
    requires i < |xs| && p(xs[i]) && forall j :: i < j < |xs| ==> !p(xs[j])
    ensures LastWhere(xs, p) == Some(i)
  {
    if i < |xs| - 1 { LastWhereIs(xs[..|xs| - 1], p, i); }
  }

  lemma InjectedMessageTwice(m: Value)
    ensures InjectedMessage(InjectedMessage(m)) == InjectedMessage(m)
  {
    var c := InjectedContent(Content(m));
    ContentReplaced(m, c);
    ContentTwice(Content(m));
    SameContent(InjectedMessage(m));
  }

  /** The content would gain a marker: a string, or unmarked blocks of which the last is an object. */
  predicate IsInjectable(c: Field) {
    c.Some? && (c.value.String? || (c.value.Array? && c.value.items != [] && Count(c.value.items) == 0
                                    && c.value.items[|c.value.items| - 1].Object?))
  }

  lemma InjectedChangesExactly(m: Value)
    ensures InjectedMessage(m) != m <==> IsInjectable(Content(m))
  {
    var c := Content(m);
    if c.Some? && c.value.Array? && c.value.items != [] {
      MarkOnceCount(c.value.items, |c.value.items| - 1);
    }
    ContentReplaced(m, InjectedContent(c));
    SameContent(m);
  }

  /** Without a trailing system text the second call finds its own marker. */
  lemma MessagesTwice(ms: seq<Value>)
    requires !EndsWithSystemText(ms)
    ensures InjectedMessages(InjectedMessages(ms)) == InjectedMessages(ms)
  {
    var t := LastEligible(ms);
    if t.Some? {
      var e := t.value;
      var m' := InjectedMessage(ms[e]);
      var ms' := ms[e := m'];
      EligibleStays(ms[e]);
      LastWhereIs(ms', IsEligible, e);
      InjectedMessageTwice(ms[e]);
      RoleStays(ms[e], InjectedContent(Content(ms[e])));
      KeysDiffer();
      assert !EndsWithSystemText(ms') by {
        if e < |ms| - 1 { assert ms'[|ms| - 1] == ms[|ms| - 1]; }
      }
    }
  }

  lemma SystemTextIsNotEligible(ms: seq<Value>)
    requires EndsWithSystemText(ms)
    ensures var m' := InjectedMessage(ms[|ms| - 1]);
            !IsEligible(ms[|ms| - 1]) && !IsEligible(m') && !(Content(m').Some? && Content(m').value.String?)
  {
    var m := ms[|ms| - 1];
    KeysDiffer();
    RoleStays(m, InjectedContent(Content(m)));
    ContentReplaced(m, InjectedContent(Content(m)));
  }

  /** After a trailing system text the second call moves on to the latest eligible message. */
  lemma SecondTarget(ms: seq<Value>)
    requires EndsWithSystemText(ms) && LastEligible(ms).Some?
    ensures var n, e := |ms| - 1, LastEligible(ms).value;
            var ms' := ms[n := InjectedMessage(ms[n])];
            && InjectedMessages(ms) == ms' && e != n
            && InjectedMessages(ms') == ms'[e := InjectedMessage(ms[e])]
  {
    var n, e := |ms| - 1, LastEligible(ms).value;
    var ms' := ms[n := InjectedMessage(ms[n])];
    SystemTextIsNotEligible(ms);
    LastWhereIs(ms', IsEligible, e);
  }

  predicate GainsTwice(f: Field) {
    && f.Some? && f.value.Array? && EndsWithSystemText(f.value.items) && LastEligible(f.value.items).Some?
    && IsInjectable(Content(f.value.items[LastEligible(f.value.items).value]))
  }

  lemma MessageFieldTwice(f: Field)
    ensures InjectedMessageField(InjectedMessageField(f)) == InjectedMessageField(f) <==> !GainsTwice(f)
  {
    if f.Some? && f.value.Array? {
      var ms := f.value.items;
      if !EndsWithSystemText(ms) {
        MessagesTwice(ms);
      } else if LastEligible(ms).Some? {
        SecondTarget(ms);
        var n, e := |ms| - 1, LastEligible(ms).value;
        var ms' := ms[n := InjectedMessage(ms[n])];
        InjectedChangesExactly(ms[e]);
        assert ms'[e] == ms[e];
        assert ms'[e := InjectedMessage(ms[e])] == ms' <==> InjectedMessage(ms[e]) == ms[e];
      }
    }
  }

  /**
   A second call changes nothing, except exactly when the messages end with a non-blank system
   text and the latest eligible message could still take a marker.
   */
  lemma EnsuredTwiceExactly(p: Request)
    ensures Ensured(Ensured(p)) == Ensured(p) <==> !GainsTwice(p.messages)
  {
    ToolsTwice(p.tools);
    SystemTwice(p.system);
    SystemGain(p.system);
    MessageFieldTwice(p.messages);
  }

  // ------------------------------------------------------------ a second call that changes the payload

  function Message(role: string, text: string): Value {
    Object(map[ROLE := String(role), CONTENT := String(text)])
  }

  lemma MessageFields(role: string, text: string)
    ensures var m := Message(role, text);
            && Text(Get(m, ROLE)) == role && Content(m) == Some(String(text))
            && Content(InjectedMessage(m)) == Some(Array([TextBlock(text)]))
            && CountIn(Content(InjectedMessage(m))) == 1
  {
    KeysDiffer();
    ContentReplaced(Message(role, text), InjectedContent(Some(String(text))));
    OneBlock(text);
  }

  lemma CountOfTwo(a: Value, b: Value)
    ensures MessageCount([a, b]) == CountIn(Content(a)) + CountIn(Content(b))
  {
    assert [a, b][..1] == [a] && [a][..0] == [];
    assert MessageCount([a]) == CountIn(Content(a));
  }

  /** A user message followed by a system text: two calls add two markers to the messages. */
  lemma SecondCallMarksAgain(p: Request, s: string, t: string)
    requires p.messages == Some(Array([Message("user", s), Message("system", t)])) && !AllWhitespace(t)
    ensures Ensured(Ensured(p)) != Ensured(p)
    ensures MessagesIn(p.messages) == 0 && MessagesIn(Ensured(p).messages) == 1
    ensures MessagesIn(Ensured(Ensured(p)).messages) == 2
  {
    var u, v := Message("user", s), Message("system", t);
    var ms := [u, v];
    KeysDiffer();
    MessageFields("user", s);
    MessageFields("system", t);
    LastWhereIs(ms, IsEligible, 0);
    SecondTarget(ms);
    var u', v' := InjectedMessage(u), InjectedMessage(v);
    assert ms[1 := v'] == [u, v'] && [u, v'][0 := u'] == [u', v'];
    CountOfTwo(u, v);
    CountOfTwo(u, v');
    CountOfTwo(u', v');
  }
}
