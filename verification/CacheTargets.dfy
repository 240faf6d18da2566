/**
 Where the default cache breakpoints go, in the words of the payload format: which tool, which
 system block and which message gains a marker, and that nothing else does.
 */
module CacheTargets {
  import opened Common
  import opened JsonValue
  import opened PayloadShape
  import opened CacheMarkers
  import opened CacheInjector

  // ------------------------------------------------------------ the rule

  ghost predicate NoneMarked(xs: seq<Value>) {
    forall i :: 0 <= i < |xs| ==> !Marked(xs[i])
  }

  /** `ys` is `xs` with a marker on element `t`, which nothing else in the list has. */
  ghost predicate MarksOnly(xs: seq<Value>, ys: seq<Value>, t: int) {
    if 0 <= t < |xs| && xs[t].Object? && NoneMarked(xs) then ys == xs[t := WithMarker(xs[t])] else ys == xs
  }

  /** Of the tools the last one that is not deferred. */
  ghost predicate ToolRule(xs: seq<Value>, ys: seq<Value>) {
    exists t :: -1 <= t < |xs| && (t >= 0 ==> !Deferred(xs[t])) && (forall j :: t < j < |xs| ==> Deferred(xs[j]))
                && MarksOnly(xs, ys, t)
  }

  /** Of a list of blocks the last one; a text becomes one marked block. */
  ghost predicate ContentRule(c: Value, c': Value) {
    match c
    case String(s) => c' == Array([MarkedText(s)])
    case Array(xs) => c'.Array? && MarksOnly(xs, c'.items, |xs| - 1)
    case _ => c' == c
  }

  /** A system prompt that can host a marker. */
  predicate Hosts(f: Field) {
    f.Some? && match f.value
               case Array(xs) => xs != []
               case String(s) => !Blank(s)
               case _ => false
  }

  /** Message `t` gets the content that the rule gives it; no other message changes. */
  ghost predicate MessageGains(ms: seq<Value>, ms': seq<Value>, t: int) {
    && 0 <= t < |ms| && HasContent(ms[t])
    && exists c' :: ContentRule(ms[t].fields["content"], c')
         && ms' == ms[t := Object(ms[t].fields["content" := c'])]
  }

  ghost predicate AnyCanRoll(ms: seq<Value>) {
    exists i :: 0 <= i < |ms| && CanRoll(ms[i])
  }

  ghost predicate LastToRoll(ms: seq<Value>, t: int) {
    0 <= t < |ms| && CanRoll(ms[t]) && forall j :: t < j < |ms| ==> !CanRoll(ms[j])
  }

  /** The closing instruction, else the last message that can carry the rolling marker, if there is one. */
  ghost predicate MessageRule(ms: seq<Value>, ms': seq<Value>) {
    if !AnyCanRoll(ms) then ms' == ms
    else if EndsWithInstruction(ms) then MessageGains(ms, ms', |ms| - 1)
    else exists t :: LastToRoll(ms, t) && MessageGains(ms, ms', t)
  }

  ghost predicate Ruled(p: Request, q: Request) {
    && q.thread == p.thread && q.others == p.others
    && (if Hosts(p.system) then q.system.Some? && ContentRule(p.system.value, q.system.value) else q.system == p.system)
    && (if !Hosts(p.system) && p.tools.Some? && p.tools.value.Array?
        then q.tools.Some? && q.tools.value.Array? && ToolRule(p.tools.value.items, q.tools.value.items)
        else q.tools == p.tools)
    && (if p.messages.Some? && p.messages.value.Array?
        then q.messages.Some? && q.messages.value.Array? && MessageRule(p.messages.value.items, q.messages.value.items)
        else q.messages == p.messages)
  }

  // ------------------------------------------------------------ what is injected obeys it

  lemma MarkOnceRules(xs: seq<Value>, t: nat)
    requires t < |xs|
    ensures MarksOnly(xs, MarkOnce(xs, t), t)
  {
    if AnyMark(xs) {
      var i :| 0 <= i < |xs| && HasMark(xs[i]);
      assert Marked(xs[i]);
    } else {
      assert forall i :: 0 <= i < |xs| ==> HasMark(xs[i]) == Marked(xs[i]);
    }
  }

  lemma LoadedExactly(v: Value)
    ensures IsLoaded(v) <==> !Deferred(v)
  {
  }

  lemma ToolsRule(xs: seq<Value>)
    ensures ToolRule(xs, if LastLoaded(xs).Some? then MarkOnce(xs, LastLoaded(xs).value) else xs)
  {
    forall v ensures IsLoaded(v) <==> !Deferred(v) {
      LoadedExactly(v);
    }
    if LastLoaded(xs).Some? {
      var t := LastLoaded(xs).value;
      MarkOnceRules(xs, t);
      assert MarksOnly(xs, MarkOnce(xs, t), t);
    } else {
      assert MarksOnly(xs, xs, -1);
    }
  }

  lemma TextBlockIs(s: string)
    ensures TextBlock(s) == MarkedText(s)
  {
  }

  lemma ContentRules(c: Field)
    requires c.Some?
    ensures ContentRule(c.value, InjectedContent(c).value)
  {
    match c.value {
      case String(s) => TextBlockIs(s);
      case Array(xs) => if xs != [] { MarkOnceRules(xs, |xs| - 1); }
      case _ =>
    }
  }

  lemma WhiteExactly(c: char)
    ensures IsWhitespace(c) <==> c in WHITE_SPACE
  {
  }

  lemma BlankExactly(s: string)
    ensures AllWhitespace(s) <==> Blank(s)
  {
    forall i | 0 <= i < |s| ensures IsWhitespace(s[i]) <==> s[i] in WHITE_SPACE {
      WhiteExactly(s[i]);
    }
  }

  lemma HostsExactly(f: Field)
    ensures IsCacheableSystem(f) <==> Hosts(f)
  {
    if f.Some? && f.value.String? { BlankExactly(f.value.s); }
  }

  lemma SystemRules(f: Field)
    requires Hosts(f)
    ensures InjectedSystem(f).Some? && ContentRule(f.value, InjectedSystem(f).value)
  {
    HostsExactly(f);
    ContentRules(f);
  }

  lemma InstructionExactly(ms: seq<Value>)
    ensures EndsWithSystemText(ms) <==> EndsWithInstruction(ms)
  {
    if ms != [] && HasContent(ms[|ms| - 1]) && ms[|ms| - 1].fields["content"].String? {
      BlankExactly(ms[|ms| - 1].fields["content"].s);
    }
  }

  lemma MessageGainsAt(ms: seq<Value>, t: nat)
    requires t < |ms| && HasContent(ms[t])
    ensures MessageGains(ms, ms[t := InjectedMessage(ms[t])], t)
  {
    var c := Content(ms[t]);
    ContentRules(c);
    assert InjectedMessage(ms[t]) == Object(ms[t].fields["content" := InjectedContent(c).value]);
  }

  lemma MessagesRule(ms: seq<Value>)
    ensures MessageRule(ms, InjectedMessages(ms))
  {
    forall m ensures IsEligible(m) <==> CanRoll(m) {
      EligibleExactly(m);
    }
    InstructionExactly(ms);
    if LastEligible(ms).Some? {
      var e := LastEligible(ms).value;
      assert LastToRoll(ms, e);
      MessageGainsAt(ms, e);
      if EndsWithInstruction(ms) { MessageGainsAt(ms, |ms| - 1); }
    }
  }

  lemma ToolRuleIsUnique(xs: seq<Value>, a: seq<Value>, b: seq<Value>)
    requires ToolRule(xs, a) && ToolRule(xs, b)
    ensures a == b
  {
    var s :| -1 <= s < |xs| && (s >= 0 ==> !Deferred(xs[s])) && (forall j :: s < j < |xs| ==> Deferred(xs[j]))
      && MarksOnly(xs, a, s);
    var t :| -1 <= t < |xs| && (t >= 0 ==> !Deferred(xs[t])) && (forall j :: t < j < |xs| ==> Deferred(xs[j]))
      && MarksOnly(xs, b, t);
    assert s == t;
  }

  lemma MessageRuleIsUnique(ms: seq<Value>, a: seq<Value>, b: seq<Value>)
    requires MessageRule(ms, a) && MessageRule(ms, b)
    ensures a == b
  {
    if AnyCanRoll(ms) && !EndsWithInstruction(ms) {
      var s :| LastToRoll(ms, s) && MessageGains(ms, a, s);
      var t :| LastToRoll(ms, t) && MessageGains(ms, b, t);
      assert s == t;
    }
  }

  lemma RuleIsUnique(p: Request, q: Request, r: Request)
    requires Ruled(p, q) && Ruled(p, r)
    ensures q == r
  {
    if !Hosts(p.system) && p.tools.Some? && p.tools.value.Array? {
      ToolRuleIsUnique(p.tools.value.items, q.tools.value.items, r.tools.value.items);
    }
    if p.messages.Some? && p.messages.value.Array? {
      MessageRuleIsUnique(p.messages.value.items, q.messages.value.items, r.messages.value.items);
    }
  }

  lemma EnsuredObeysRule(p: Request)
    ensures Ruled(p, Ensured(p))
  {
    HostsExactly(p.system);
    if Hosts(p.system) { SystemRules(p.system); }
    if p.tools.Some? && p.tools.value.Array? { ToolsRule(p.tools.value.items); }
    if p.messages.Some? && p.messages.value.Array? { MessagesRule(p.messages.value.items); }
  }

  /**
   Main result, with the converse that nothing else obeys the rule: with a system prompt that can
   host a marker its last block gains one, else the last tool that is not deferred; of the messages,
   if any can carry the rolling marker, the closing instruction gains, else the last such message. A
   list that has a marker already gains none.
   */
  lemma EnsuredIsRuled(p: Request, q: Request)
    ensures Ruled(p, q) <==> q == Ensured(p)
  {
    EnsuredObeysRule(p);
    if Ruled(p, q) { RuleIsUnique(p, q, Ensured(p)); }
  }
}
