/**
 Which texts may be minified: a text whose minified form is JSON was JSON itself exactly when the
 scan dropped nothing but whitespace that JSON allows.
 */
module JsonRestore {
  import opened Common
  import opened JsonMinifier

  const FORM_FEED := '\U{000C}'

  // ------------------------------------------------------------ the condition

  /** After optional whitespace comes an atom character. */
  predicate AtomNext(s: string) {
    s != "" && (IsAtomChar(s[0]) || (IsAsciiWhitespace(s[0]) && AtomNext(s[1..])))
  }

  /** The first character belongs to an atom that whitespace separates from another one. */
  predicate Glues(s: string) {
    |s| > 1 && IsAtomChar(s[0]) && IsAsciiWhitespace(s[1]) && AtomNext(s[1..])
  }

  /** Outside literals there is no form feed and no whitespace between two atom characters. */
  predicate Sound(s: string, m: Mode) {
    s == "" ||
    (&& Sound(s[1..], NextMode(m, s[0]))
     && (m == Outside ==> s[0] != FORM_FEED && !Glues(s)))
  }

  ghost predicate IsJson(s: string) {
    exists d :: IsDocument(d) && SlotText(d) == s
  }

  // ------------------------------------------------------------ documents are sound

  lemma {:induction false} SoundWs(ws: string, r: string)
    requires AllWs(ws) && Sound(r, Outside)
    ensures Sound(ws + r, Outside) && AtomNext(ws + r) == AtomNext(r)
  {
    if ws == "" {
      assert ws + r == r;
    } else {
      SoundWs(ws[1..], r);
      assert (ws + r)[0] == ws[0] && (ws + r)[1..] == ws[1..] + r;
    }
  }

  lemma SoundChar(c: char, r: string)
    requires c != '"' && !IsAtomChar(c) && !IsAsciiWhitespace(c) && Sound(r, Outside)
    ensures Sound([c] + r, Outside) && !AtomNext([c] + r)
  {
    assert ([c] + r)[1..] == r;
  }

  lemma {:induction false} SoundAtom(t: string, r: string)
    requires (forall i :: 0 <= i < |t| ==> IsAtomChar(t[i])) && Sound(r, Outside) && !AtomNext(r)
    ensures Sound(t + r, Outside)
  {
    if t == "" {
      assert t + r == r;
    } else {
      SoundAtom(t[1..], r);
      assert (t + r)[0] == t[0] && (t + r)[1..] == t[1..] + r;
    }
  }

  lemma {:induction false} SoundBody(b: seq<Piece>, r: string)
    requires IsPieces(b) && Sound(r, InString)
    ensures Sound(BodyText(b) + r, InString)
  {
    if b == [] {
      assert BodyText(b) + r == r;
    } else {
      SoundBody(b[1..], r);
      var t := BodyText(b[1..]) + r;
      PieceText(b, r);
      if b[0].Plain? {
        assert ([b[0].c] + t)[1..] == t;
      } else {
        assert ([b[0].c] + t)[1..] == t && (['\\'] + ([b[0].c] + t))[1..] == [b[0].c] + t;
        assert Sound([b[0].c] + t, Escaped);
      }
    }
  }

  lemma SoundQuoted(b: seq<Piece>, r: string)
    requires IsBody(b) && Sound(r, Outside)
    ensures Sound(Quoted(b) + r, Outside) && !AtomNext(Quoted(b) + r)
  {
    var t := ['"'] + r;
    assert t[1..] == r;
    SoundBody(b, t);
    var u := BodyText(b) + t;
    assert Quoted(b) + r == ['"'] + u && (['"'] + u)[1..] == u;
  }

  lemma SoundLabel(l: Option<Label>, r: string)
    requires LabelWellFormed(l) && Sound(r, Outside)
    ensures Sound(LabelText(l) + r, Outside) && (l.Some? ==> !AtomNext(LabelText(l) + r))
  {
    if l.None? {
      assert LabelText(l) + r == r;
    } else {
      var Label(pre, key, post) := l.value;
      SoundChar(':', r);
      SoundWs(post, [':'] + r);
      SoundQuoted(key, post + ([':'] + r));
      SoundWs(pre, Quoted(key) + (post + ([':'] + r)));
      assert LabelText(l) + r == pre + (Quoted(key) + (post + ([':'] + r)));
    }
  }

  lemma {:induction false} SoundText(j: Json, r: string)
    requires WellFormed(j) && Sound(r, Outside) && !AtomNext(r)
    ensures Sound(Text(j) + r, Outside)
    decreases j, 0
  {
    match j
    case Atom(t) => SoundAtom(t, r);
    case Str(b) => SoundQuoted(b, r);
    case Group(isObject, items) =>
      var c := Close(isObject);
      SoundChar(c, r);
      SoundItems(items, isObject, [c] + r);
      SoundChar(Open(isObject), ItemsText(items) + ([c] + r));
      Bracketed(Open(isObject), ItemsText(items), c, r);
  }

  lemma {:induction false} SoundItems(items: Items, isObject: bool, r: string)
    requires ItemsWellFormed(items, isObject) && Sound(r, Outside) && !AtomNext(r)
    ensures Sound(ItemsText(items) + r, Outside)
    decreases items, 1
  {
    match items
    case Empty(ws) => SoundWs(ws, r);
    case Last(slot) => SoundSlot(slot, r);
    case More(slot, rest) =>
      SoundItems(rest, isObject, r);
      SoundChar(',', ItemsText(rest) + r);
      SoundSlot(slot, [','] + (ItemsText(rest) + r));
      Separated(SlotText(slot), ItemsText(rest), r);
  }

  lemma {:induction false} SoundSlot(s: Slot, r: string)
    requires SlotWellFormed(s) && Sound(r, Outside) && !AtomNext(r)
    ensures Sound(SlotText(s) + r, Outside)
    decreases s, 0
  {
    SoundWs(s.post, r);
    SoundText(s.value, s.post + r);
    var t := Text(s.value) + (s.post + r);
    SoundWs(s.pre, t);
    SoundLabel(s.name, s.pre + t);
    SlotRegroups(s, r);
  }

  // ------------------------------------------------------------ sound texts are documents

  /** The whitespace before the next emitted character. */
  lemma {:induction false} SkipWs(s: string, r: string) returns (ws: string, rest: string)
    requires Sound(s, Outside) && Output(s, Outside) == r
    ensures s == ws + rest && AllWs(ws) && Sound(rest, Outside) && Output(rest, Outside) == r
    ensures if r == "" then rest == "" else rest != "" && rest[0] == r[0] && !IsAsciiWhitespace(rest[0])
  {
    if s != "" && IsAsciiWhitespace(s[0]) {
      var ws', rest' := SkipWs(s[1..], r);
      ws, rest := [s[0]] + ws', rest';
      assert s == [s[0]] + s[1..];
    } else {
      ws, rest := "", s;
    }
  }

  /** The next emitted character, if it is neither whitespace nor a quote. */
  lemma TakeChar(s: string, c: char, r: string) returns (ws: string, rest: string)
    requires Sound(s, Outside) && Output(s, Outside) == [c] + r && c != '"'
    ensures s == ws + ([c] + rest) && AllWs(ws) && Sound(rest, Outside) && Output(rest, Outside) == r
  {
    var w, t := SkipWs(s, [c] + r);
    ws, rest := w, t[1..];
    assert t == [c] + rest && ([c] + r)[1..] == r && [c] + Output(rest, Outside) == [c] + r;
    assert ([c] + Output(rest, Outside))[1..] == Output(rest, Outside);
  }

  lemma {:induction false} NoAtomDropped(s: string, c: char, r: string)
    requires Output(s, Outside) == [c] + r && IsAtomChar(c)
    ensures AtomNext(s)
  {
    if IsAsciiWhitespace(s[0]) {
      NoAtomDropped(s[1..], c, r);
    } else {
      assert Output(s, Outside)[0] == s[0] && ([c] + r)[0] == c;
    }
  }

  /** The rest of an atom stands right where its first character ended. */
  lemma {:induction false} TakeAtomRest(a: char, s: string, t: string, r: string) returns (rest: string)
    requires IsAtomChar(a) && Sound([a] + s, Outside) && (forall i :: 0 <= i < |t| ==> IsAtomChar(t[i]))
    requires Output(s, Outside) == t + r
    ensures s == t + rest && Sound(rest, Outside) && Output(rest, Outside) == r
    decreases |t|
  {
    assert ([a] + s)[1..] == s;
    if t == "" {
      rest := s;
      assert t + r == r;
    } else {
      assert t + r == [t[0]] + (t[1..] + r);
      NoAtomDropped(s, t[0], t[1..] + r);
      assert !IsAsciiWhitespace(s[0]) by { assert ([a] + s)[1] == s[0] && !Glues([a] + s); }
      assert Output(s, Outside)[0] == s[0];
      assert s == [s[0]] + s[1..];
      assert Output(s[1..], Outside) == t[1..] + r by {
        assert ([t[0]] + Output(s[1..], Outside))[1..] == Output(s[1..], Outside);
        assert ([t[0]] + (t[1..] + r))[1..] == t[1..] + r;
      }
      rest := TakeAtomRest(t[0], s[1..], t[1..], r);
      assert t == [t[0]] + t[1..];
    }
  }

  /** The inside of a literal comes out as it is. */
  lemma {:induction false} TakeBody(s: string, b: seq<Piece>, r: string) returns (rest: string)
    requires IsPieces(b) && Sound(s, InString) && Output(s, InString) == BodyText(b) + (['"'] + r)
    ensures s == BodyText(b) + (['"'] + rest) && Sound(rest, Outside) && Output(rest, Outside) == r
    decreases |b|
  {
    var q := ['"'] + r;
    assert s != "";
    assert s == [s[0]] + s[1..] && Output(s, InString) == [s[0]] + Output(s[1..], NextMode(InString, s[0]));
    if b == [] {
      assert BodyText(b) + q == q;
      TailUnique(s[0], Output(s[1..], NextMode(InString, s[0])), '"', r);
      rest := s[1..];
      assert BodyText(b) + (['"'] + rest) == ['"'] + rest;
    } else {
      PieceText(b, q);
      var t := BodyText(b[1..]) + q;
      if b[0].Plain? {
        TailUnique(s[0], Output(s[1..], NextMode(InString, s[0])), b[0].c, t);
        rest := TakeBody(s[1..], b[1..], r);
      } else {
        TailUnique(s[0], Output(s[1..], NextMode(InString, s[0])), '\\', [b[0].c] + t);
        var u := s[1..];
        assert u != "";
        assert u == [u[0]] + u[1..] && Output(u, Escaped) == [u[0]] + Output(u[1..], InString);
        TailUnique(u[0], Output(u[1..], InString), b[0].c, t);
        rest := TakeBody(u[1..], b[1..], r);
      }
      PieceText(b, ['"'] + rest);
    }
  }

  lemma TakeQuoted(s: string, b: seq<Piece>, r: string) returns (ws: string, rest: string)
    requires IsBody(b) && Sound(s, Outside) && Output(s, Outside) == Quoted(b) + r
    ensures s == ws + (Quoted(b) + rest) && AllWs(ws) && Sound(rest, Outside) && Output(rest, Outside) == r
  {
    var q := BodyText(b) + (['"'] + r);
    assert Quoted(b) + r == ['"'] + q;
    var w, t := SkipWs(s, ['"'] + q);
    ws := w;
    assert t == ['"'] + t[1..] && Output(t, Outside) == ['"'] + Output(t[1..], InString);
    TailUnique('"', Output(t[1..], InString), '"', q);
    rest := TakeBody(t[1..], b, r);
    assert Quoted(b) + rest == ['"'] + (BodyText(b) + (['"'] + rest));
  }

  lemma TakeAtom(s: string, t: string, r: string) returns (ws: string, rest: string)
    requires IsAtomRun(t) && Sound(s, Outside) && Output(s, Outside) == t + r
    ensures s == ws + (t + rest) && AllWs(ws) && Sound(rest, Outside) && Output(rest, Outside) == r
  {
    var u := t[1..] + r;
    assert t == [t[0]] + t[1..] && t + r == [t[0]] + u;
    var w, x := SkipWs(s, t + r);
    ws := w;
    assert x == [t[0]] + x[1..] && Output(x, Outside) == [t[0]] + Output(x[1..], Outside);
    TailUnique(t[0], Output(x[1..], Outside), t[0], u);
    rest := TakeAtomRest(t[0], x[1..], t[1..], r);
    assert [t[0]] + (t[1..] + rest) == t + rest;
  }

  /** What a restored part of a text promises about the text after it. */
  ghost predicate Leaves(rest: string, r: string) {
    Sound(rest, Outside) && Output(rest, Outside) == r
  }

  lemma RestoreLabel(s: string, l: Option<Label>, r: string) returns (m: Option<Label>, rest: string)
    requires LabelWellFormed(l) && BareLabel(l) == l && Leaves(s, LabelText(l) + r)
    ensures LabelWellFormed(m) && BareLabel(m) == l && s == LabelText(m) + rest && Leaves(rest, r)
  {
    if l.None? {
      m, rest := None, s;
      assert LabelText(l) + r == r && LabelText(m) + rest == rest;
    } else {
      var key := l.value.key;
      BareLabelText(key, r);
      var pre, s' := TakeQuoted(s, key, [':'] + r);
      var post, rest' := TakeChar(s', ':', r);
      m, rest := Some(Label(pre, key, post)), rest';
      assert pre + (Quoted(key) + (post + ([':'] + rest))) == (pre + (Quoted(key) + (post + [':']))) + rest;
    }
  }

  lemma {:induction false} RestoreText(s: string, b: Json, r: string) returns (pre: string, j: Json, rest: string)
    requires IsBare(b) && Leaves(s, Text(b) + r)
    ensures AllWs(pre) && WellFormed(j) && Bare(j) == b && s == pre + (Text(j) + rest) && Leaves(rest, r)
    decreases b, 0
  {
    match b
    case Atom(t) =>
      var p, q := TakeAtom(s, t, r);
      pre, j, rest := p, b, q;
    case Str(body) =>
      var p, q := TakeQuoted(s, body, r);
      pre, j, rest := p, b, q;
    case Group(isObject, items) =>
      var o, c := Open(isObject), Close(isObject);
      Bracketed(o, ItemsText(items), c, r);
      var p, s' := TakeChar(s, o, ItemsText(items) + ([c] + r));
      var k, q := RestoreItems(s', items, isObject, r);
      pre, j, rest := p, Group(isObject, k), q;
      Bracketed(o, ItemsText(k), c, rest);
  }

  lemma {:induction false} RestoreItems(s: string, items: Items, isObject: bool, r: string)
      returns (k: Items, rest: string)
    requires IsBareItems(items, isObject) && Leaves(s, ItemsText(items) + ([Close(isObject)] + r))
    ensures ItemsWellFormed(k, isObject) && BareItems(k) == items
    ensures s == ItemsText(k) + ([Close(isObject)] + rest) && Leaves(rest, r)
    decreases items, 1
  {
    var c := Close(isObject);
    match items
    case Empty(_) =>
      assert ItemsText(items) + ([c] + r) == [c] + r;
      var ws, q := TakeChar(s, c, r);
      k, rest := Empty(ws), q;
    case Last(slot) =>
      var y, q := RestoreSlot(s, slot, c, r);
      k, rest := Last(y), q;
    case More(slot, more) =>
      var t := ItemsText(more) + ([c] + r);
      Separated(SlotText(slot), ItemsText(more), [c] + r);
      var y, s' := RestoreSlot(s, slot, ',', t);
      var k', q := RestoreItems(s', more, isObject, r);
      k, rest := More(y, k'), q;
      Separated(SlotText(y), ItemsText(k'), [c] + rest);
  }

  lemma {:induction false} RestoreSlot(s: string, x: Slot, c: char, r: string) returns (y: Slot, rest: string)
    requires IsBareSlot(x) && c != '"' && Leaves(s, SlotText(x) + ([c] + r))
    ensures SlotWellFormed(y) && BareSlot(y) == x && s == SlotText(y) + ([c] + rest) && Leaves(rest, r)
    decreases x, 0
  {
    Padded(LabelText(x.name), Text(x.value), [c] + r);
    var l, s1 := RestoreLabel(s, x.name, Text(x.value) + ([c] + r));
    var pre, j, s2 := RestoreText(s1, x.value, [c] + r);
    var post, s3 := TakeChar(s2, c, r);
    y, rest := Slot(l, pre, j, post), s3;
    SlotRegroups(y, [c] + rest);
  }

  lemma SlotRegroups(y: Slot, r: string)
    ensures LabelText(y.name) + (y.pre + (Text(y.value) + (y.post + r))) == SlotText(y) + r
  {
  }

  // ------------------------------------------------------------ the exact condition

  lemma {:induction false} OutputTwice(s: string, m: Mode)
    ensures Output(Output(s, m), m) == Output(s, m)
  {
    if s != "" {
      var m' := NextMode(m, s[0]);
      OutputTwice(s[1..], m');
      if Emits(m, s[0]) {
        assert Output(s, m) == [s[0]] + Output(s[1..], m') && Output(s, m)[1..] == Output(s[1..], m');
      } else {
        assert Output(s, m) == "" + Output(s[1..], m') == Output(s[1..], m');
      }
    }
  }

  /** A minified text that is JSON is the compact rendering of a value. */
  lemma MinifiedJsonIsCompact(s: string) returns (b: Json)
    requires IsJson(Minify(s))
    ensures IsBare(b) && Minify(s) == Text(b)
  {
    var d :| IsDocument(d) && SlotText(d) == Minify(s);
    MinifyIsCompact(d);
    OutputTwice(s, Outside);
    BareIsBare(d.value);
    b := Bare(d.value);
  }

  lemma SoundIsJson(s: string, b: Json)
    requires IsBare(b) && Minify(s) == Text(b) && Sound(s, Outside)
    ensures IsJson(s)
  {
    assert Text(b) + "" == Text(b);
    var pre, j, rest := RestoreText(s, b, "");
    var ws, none := SkipWs(rest, "");
    assert ws + none == ws;
    var d := Slot(None, pre, j, rest);
    assert SlotText(d) == "" + (pre + (Text(j) + rest));
    assert IsDocument(d) && SlotText(d) == s;
  }

  lemma JsonIsSound(s: string)
    requires IsJson(s)
    ensures Sound(s, Outside)
  {
    var d :| IsDocument(d) && SlotText(d) == s;
    SoundSlot(d, "");
    assert SlotText(d) + "" == s;
  }

  /**
   Main result: if the minified text is JSON, which is all the pass checks, the text itself was JSON
   if and only if outside literals it holds no form feed and no whitespace between two atom
   characters.
   */
  lemma JsonExactly(s: string)
    requires IsJson(Minify(s))
    ensures IsJson(s) <==> Sound(s, Outside)
  {
    if IsJson(s) { JsonIsSound(s); }
    if Sound(s, Outside) {
      var b := MinifiedJsonIsCompact(s);
      SoundIsJson(s, b);
    }
  }

  /**
   The same for the whole pass, with any validator that accepts only JSON: a result is the compact
   rendering of the value of the trimmed text, or that text was no JSON, exactly as it is sound or
   not.
   */
  lemma CompactedExactly(text: string, white: CharTest, isJson: TextTest)
    requires Compacted(text, white, isJson).Some? && forall t :: isJson(t) ==> IsJson(t)
    ensures var s := Trim(text, white);
            if Sound(s, Outside)
            then exists d :: IsDocument(d) && SlotText(d) == s && Compacted(text, white, isJson) == Some(Compact(d))
            else !IsJson(s)
  {
    var s := Trim(text, white);
    assert isJson(Minify(s));
    JsonExactly(s);
    if Sound(s, Outside) {
      var d :| IsDocument(d) && SlotText(d) == s;
      MinifyIsCompact(d);
    }
  }

  // ------------------------------------------------------------ failing inputs

  lemma {:induction false} GluedIsUnsound(a: string, ws: string, r: string)
    requires IsAtomRun(a) && ws != "" && AllWs(ws) && AtomNext(ws + r)
    ensures !Sound(a + (ws + r), Outside)
  {
    var s := a + (ws + r);
    if |a| == 1 {
      assert s[1] == ws[0] && s[1..] == ws + r && Glues(s);
    } else {
      assert s[1..] == a[1..] + (ws + r);
      GluedIsUnsound(a[1..], ws, r);
    }
  }

  lemma {:induction false} WsThenAtom(ws: string, r: string)
    requires AllWs(ws) && r != "" && IsAtomChar(r[0])
    ensures AtomNext(ws + r)
  {
    if ws == "" {
      assert ws + r == r;
    } else {
      assert (ws + r)[1..] == ws[1..] + r;
      WsThenAtom(ws[1..], r);
    }
  }

  /** An array of one atom. */
  function OneAtom(t: string): Json {
    Group(false, Last(Slot(None, "", Atom(t), "")))
  }

  lemma OneAtomText(t: string)
    requires IsAtom(t)
    ensures Text(OneAtom(t)) == ['['] + (t + [']']) && IsBare(OneAtom(t))
  {
    var slot := Slot(None, "", Atom(t), "");
    assert SlotText(slot) == "" + ("" + (t + "")) == t;
    assert Bare(Atom(t)) == Atom(t) && WellFormed(Atom(t));
    assert ItemsText(Last(slot)) == t && SlotWellFormed(slot) && BareSlot(slot) == slot;
    assert ItemsWellFormed(Last(slot), false) && BareItems(Last(slot)) == Last(slot);
  }

  lemma GluedIsNoJson(a: string, ws: string, b: string)
    requires IsAtomRun(a) && IsAtomRun(b) && ws != "" && AllWs(ws)
    ensures !IsJson(['['] + (a + (ws + (b + [']']))))
  {
    var r := b + [']'];
    var s := ['['] + (a + (ws + r));
    WsThenAtom(ws, r);
    GluedIsUnsound(a, ws, r);
    assert s[1..] == a + (ws + r) && s[0] == '[';
    if IsJson(s) { JsonIsSound(s); }
  }

  lemma GluedMinifies(a: string, ws: string, b: string)
    requires IsAtomRun(a) && IsAtomRun(b) && AllWs(ws)
    ensures Minify(['['] + (a + (ws + (b + [']'])))) == ['['] + ((a + b) + [']'])
  {
    var r := b + [']'];
    AtomPasses(a);
    WsPasses(ws);
    AtomPasses(b);
    CharPasses('[');
    CharPasses(']');
    PassesAppend(b, b, [']'], [']']);
    PassesAppend(ws, "", r, r);
    PassesAppend(a, a, ws + r, "" + r);
    PassesAppend(['['], ['['], a + (ws + r), a + ("" + r));
    Joins(a, b, [']']);
  }

  lemma Joins(a: string, b: string, c: string)
    ensures a + ("" + (b + c)) == (a + b) + c
  {
    assert "" + (b + c) == b + c;
  }

  /** Whitespace inside an atom, or between two that make one: the text is no JSON, its minified form is. */
  lemma AtomsRunTogether(a: string, ws: string, b: string)
    requires IsAtomRun(a) && IsAtomRun(b) && IsAtom(a + b) && ws != "" && AllWs(ws)
    ensures var s := ['['] + (a + (ws + (b + [']'])));
            !IsJson(s) && Minify(s) == ['['] + ((a + b) + [']']) && IsJson(Minify(s))
  {
    GluedIsNoJson(a, ws, b);
    GluedMinifies(a, ws, b);
    OneAtomText(a + b);
    BareIsDocument(OneAtom(a + b));
  }

  lemma BareIsDocument(b: Json)
    requires IsBare(b)
    ensures IsJson(Text(b))
  {
    var d := Slot(None, "", b, "");
    assert SlotText(d) == "" + ("" + (Text(b) + "")) == Text(b);
    assert IsDocument(d);
  }

  lemma Untrimmed(s: string, white: CharTest)
    requires s != "" && !white(s[0]) && !white(s[|s| - 1])
    ensures Trim(s, white) == s
  {
  }

  lemma TwoDigitsAreNumber(a: char, b: char)
    requires '1' <= a <= '9' && '0' <= b <= '9'
    ensures IsAtom([a] + [b])
  {
    var t := [a] + [b];
    assert t == "" + (t + ("" + ""));
    assert IsNumberOf(t, "", t, "", "");
  }

  /** The pass turns a text that is no JSON into `[12]`, which is. */
  lemma NumbersRunTogether(s: string, m: string, white: CharTest, isJson: TextTest)
    requires s == "[1  2]" && m == "[12]" && !white('[') && !white(']') && isJson(m)
    ensures !IsJson(s) && IsJson(m) && Compacted(s, white, isJson) == Some(m)
  {
    TwoDigitsAreNumber('1', '2');
    AtomsRunTogether(['1'], [' ', ' '], ['2']);
    assert s == ['['] + (['1'] + ([' ', ' '] + (['2'] + [']'])));
    assert m == ['['] + ((['1'] + ['2']) + [']']);
    Untrimmed(s, white);
    assert s[2] == ' ' && s[3] == ' ';
  }

  /** Form feed is dropped like whitespace although JSON does not allow it. */
  lemma FormFeedIsDropped(white: CharTest, isJson: TextTest)
    requires !white('[') && !white(']') && isJson("[1,2]")
    ensures var s := "[1," + [FORM_FEED] + "  2]";
            !IsJson(s) && Compacted(s, white, isJson) == Some("[1,2]")
  {
    var s := "[1," + [FORM_FEED] + "  2]";
    var t := [FORM_FEED] + "  2]";
    assert s == "[1," + t && s[3] == FORM_FEED;
    OutputAppend("[1,", t, Outside);
    AtomPasses("1");
    CharPasses('[');
    CharPasses(',');
    PassesAppend("1", "1", ",", ",");
    PassesAppend("[", "[", "1" + ",", "1" + ",");
    assert "[" + ("1" + ",") == "[1,";
    if IsJson(s) {
      JsonIsSound(s);
      SoundTail("[1,", t, Outside);
    }
    FormFeedOutput(t);
    Untrimmed(s, white);
    assert s[4] == ' ' && s[5] == ' ';
    assert "[1," + "2]" == "[1,2]";
  }

  lemma FormFeedOutput(t: string)
    requires t == [FORM_FEED] + "  2]"
    ensures Output(t, Outside) == "2]"
  {
    AtomPasses("2");
    CharPasses(']');
    WsPasses("  ");
    PassesAppend("2", "2", "]", "]");
    PassesAppend("  ", "", "2" + "]", "2" + "]");
    assert t[1..] == "  " + ("2" + "]") && "" + ("2" + "]") == "2]" && t[0] == FORM_FEED;
  }

  lemma {:induction false} SoundTail(a: string, b: string, m: Mode)
    requires Sound(a + b, m)
    ensures Sound(b, ModeAfter(a, m))
  {
    if a == "" {
      assert a + b == b;
    } else {
      assert (a + b)[0] == a[0] && (a + b)[1..] == a[1..] + b;
      SoundTail(a[1..], b, NextMode(m, a[0]));
    }
  }
}
