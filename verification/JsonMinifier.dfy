/**
 The JSON minifier of the lite compressor: a three-state scan that drops whitespace outside
 string literals, and why that keeps the meaning of every JSON text.
 */
module JsonMinifier {
  import opened Common

  // ------------------------------------------------------------ the scan

  datatype Mode = Outside | InString | Escaped

  /** ASCII whitespace as the program tests it; form feed is included. */
  predicate IsAsciiWhitespace(c: char) {
    c == ' ' || c == '\t' || c == '\n' || c == '\U{000C}' || c == '\r'
  }

  function NextMode(m: Mode, c: char): Mode {
    match m
    case Outside => if c == '"' then InString else Outside
    case InString => if c == '\\' then Escaped else if c == '"' then Outside else InString
    case Escaped => InString
  }

  predicate Emits(m: Mode, c: char) {
    m != Outside || !IsAsciiWhitespace(c)
  }

  function Output(s: string, m: Mode): string {
    if s == "" then ""
    else (if Emits(m, s[0]) then [s[0]] else "") + Output(s[1..], NextMode(m, s[0]))
  }

  function ModeAfter(s: string, m: Mode): Mode {
    if s == "" then m else ModeAfter(s[1..], NextMode(m, s[0]))
  }

  function Minify(s: string): string {
    Output(s, Outside)
  }

  lemma {:induction false} OutputAppend(a: string, b: string, m: Mode)
    ensures Output(a + b, m) == Output(a, m) + Output(b, ModeAfter(a, m))
    ensures ModeAfter(a + b, m) == ModeAfter(b, ModeAfter(a, m))
  {
    if a == "" {
      assert a + b == b && "" + Output(b, m) == Output(b, m);
    } else {
      var m' := NextMode(m, a[0]);
      assert (a + b)[0] == a[0] && (a + b)[1..] == a[1..] + b;
      OutputAppend(a[1..], b, m');
      var e: string := if Emits(m, a[0]) then [a[0]] else "";
      var x, y := Output(a[1..], m'), Output(b, ModeAfter(a, m));
      assert e + (x + y) == (e + x) + y;
    }
  }

  method MinifyJson(json: string) returns (out: string)
    ensures out == Minify(json)
  {
    out := "";
    var inString, escaped := false, false;
    ghost var m := Outside;
    for i := 0 to |json|
      invariant m == (if escaped then Escaped else if inString then InString else Outside)
      invariant escaped ==> inString
      invariant m == ModeAfter(json[..i], Outside) && out == Minify(json[..i])
    {
      var c := json[i];
      assert json[..i + 1] == json[..i] + [c];
      OutputAppend(json[..i], [c], Outside);
      assert Output([c], m) == (if Emits(m, c) then [c] else "") + Output("", NextMode(m, c)) by {
        assert [c][1..] == "";
      }
      assert ModeAfter([c], m) == NextMode(m, c) by { assert [c][1..] == ""; }
      m := NextMode(m, c);
      if inString {
        out := out + [c];
        if escaped {
          escaped := false;
        } else if c == '\\' {
          escaped := true;
        } else if c == '"' {
          inString := false;
        }
      } else if c == '"' {
        inString := true;
        out := out + [c];
      } else if !IsAsciiWhitespace(c) {
        out := out + [c];
      }
    }
    assert json[..|json|] == json;
  }

  // ------------------------------------------------------------ JSON texts

  // A character of a string literal as written: plain, or a backslash and the character after it.
  datatype Piece = Plain(c: char) | Escape(c: char)

  // A JSON text together with its insignificant whitespace (section 2 of RFC 8259). Atoms are
  // null, true, false and numbers; a slot is a member value or element with the whitespace
  // around it and, in objects, the label before it.
  datatype Json =
    | Atom(text: string)
    | Str(body: seq<Piece>)
    | Group(isObject: bool, items: Items)

  datatype Items = Empty(ws: string) | Last(slot: Slot) | More(slot: Slot, rest: Items)

  datatype Slot = Slot(name: Option<Label>, pre: string, value: Json, post: string)

  datatype Label = Label(pre: string, key: seq<Piece>, post: string)

  predicate IsWs(c: char) {
    c == ' ' || c == '\t' || c == '\n' || c == '\r'
  }

  predicate AllWs(s: string) {
    forall i :: 0 <= i < |s| ==> IsWs(s[i])
  }

  predicate IsAtomChar(c: char) {
    'a' <= c <= 'z' || 'A' <= c <= 'Z' || '0' <= c <= '9' || c == '+' || c == '-' || c == '.'
  }

  /** A run of characters that occur in atoms. */
  predicate IsAtomRun(s: string) {
    s != "" && forall i :: 0 <= i < |s| ==> IsAtomChar(s[i])
  }

  predicate IsDigits(s: string) {
    s != "" && forall i :: 0 <= i < |s| ==> '0' <= s[i] <= '9'
  }

  /** The four parts of a number (section 6 of RFC 8259). */
  predicate IsNumberOf(s: string, sign: string, whole: string, frac: string, exp: string) {
    && s == sign + (whole + (frac + exp))
    && (sign == "" || sign == "-")
    && IsDigits(whole) && (|whole| > 1 ==> whole[0] != '0')
    && (frac == "" || (frac[0] == '.' && IsDigits(frac[1..])))
    && (exp == "" || (exp[0] in "eE" && (IsDigits(exp[1..]) || (|exp| > 1 && exp[1] in "+-" && IsDigits(exp[2..])))))
  }

  /** A number, or one of the three words. */
  ghost predicate IsAtom(s: string) {
    && IsAtomRun(s)
    && (s == "null" || s == "true" || s == "false"
        || exists sign, whole, frac, exp :: IsNumberOf(s, sign, whole, frac, exp))
  }

  predicate IsHexDigit(c: char) {
    '0' <= c <= '9' || 'a' <= c <= 'f' || 'A' <= c <= 'F'
  }

  /** Plain characters exclude quote, backslash and controls (section 7 of RFC 8259). */
  predicate IsPiece(p: Piece) {
    if p.Plain? then p.c != '"' && p.c != '\\' && p.c >= ' ' else p.c in "\"\\/bfnrtu"
  }

  predicate IsPieces(b: seq<Piece>) {
    forall i :: 0 <= i < |b| ==> IsPiece(b[i])
  }

  /** After `\u` come four hex digits. */
  predicate IsBody(b: seq<Piece>) {
    && IsPieces(b)
    && forall i, j :: 0 <= i < |b| && b[i] == Escape('u') && i < j <= i + 4 ==>
         j < |b| && b[j].Plain? && IsHexDigit(b[j].c)
  }

  ghost predicate WellFormed(j: Json) {
    match j
    case Atom(t) => IsAtom(t)
    case Str(b) => IsBody(b)
    case Group(isObject, items) => ItemsWellFormed(items, isObject)
  }

  ghost predicate ItemsWellFormed(items: Items, isObject: bool) {
    match items
    case Empty(ws) => AllWs(ws)
    case Last(slot) => SlotWellFormed(slot) && slot.name.Some? == isObject
    case More(slot, rest) =>
      SlotWellFormed(slot) && slot.name.Some? == isObject && !rest.Empty? && ItemsWellFormed(rest, isObject)
  }

  predicate LabelWellFormed(l: Option<Label>) {
    l.None? || (AllWs(l.value.pre) && IsBody(l.value.key) && AllWs(l.value.post))
  }

  ghost predicate SlotWellFormed(s: Slot) {
    LabelWellFormed(s.name) && AllWs(s.pre) && WellFormed(s.value) && AllWs(s.post)
  }

  function BodyText(b: seq<Piece>): string {
    if b == [] then ""
    else (if b[0].Plain? then [b[0].c] else ['\\', b[0].c]) + BodyText(b[1..])
  }

  function Quoted(b: seq<Piece>): string {
    ['"'] + (BodyText(b) + ['"'])
  }

  function Open(isObject: bool): char {
    if isObject then '{' else '['
  }

  function Close(isObject: bool): char {
    if isObject then '}' else ']'
  }

  function Text(j: Json): string {
    match j
    case Atom(t) => t
    case Str(b) => Quoted(b)
    case Group(isObject, items) => [Open(isObject)] + (ItemsText(items) + [Close(isObject)])
  }

  function ItemsText(items: Items): string {
    match items
    case Empty(ws) => ws
    case Last(slot) => SlotText(slot)
    case More(slot, rest) => SlotText(slot) + ([','] + ItemsText(rest))
  }

  function LabelText(l: Option<Label>): string {
    if l.None? then "" else l.value.pre + (Quoted(l.value.key) + (l.value.post + [':']))
  }

  /** With an absent label, this is also the text of a whole document. */
  function SlotText(s: Slot): string {
    LabelText(s.name) + (s.pre + (Text(s.value) + s.post))
  }

  // ------------------------------------------------------------ the value of a text

  // A value is a text without any insignificant whitespace.

  function Bare(j: Json): Json {
    match j
    case Atom(_) => j
    case Str(_) => j
    case Group(isObject, items) => Group(isObject, BareItems(items))
  }

  function BareItems(items: Items): Items {
    match items
    case Empty(_) => Empty("")
    case Last(slot) => Last(BareSlot(slot))
    case More(slot, rest) => More(BareSlot(slot), BareItems(rest))
  }

  function BareLabel(l: Option<Label>): Option<Label> {
    if l.None? then None else Some(Label("", l.value.key, ""))
  }

  function BareSlot(s: Slot): Slot {
    Slot(BareLabel(s.name), "", Bare(s.value), "")
  }

  // ------------------------------------------------------------ minifying yields the value

  /** Scanned from outside a literal, `s` comes out as `t` and ends outside a literal. */
  ghost predicate Passes(s: string, t: string) {
    Output(s, Outside) == t && ModeAfter(s, Outside) == Outside
  }

  lemma PassesAppend(a: string, x: string, b: string, y: string)
    requires Passes(a, x) && Passes(b, y)
    ensures Passes(a + b, x + y)
  {
    OutputAppend(a, b, Outside);
  }

  lemma {:induction false} WsPasses(s: string)
    requires AllWs(s)
    ensures Passes(s, "")
  {
    if s != "" { WsPasses(s[1..]); }
  }

  lemma {:induction false} AtomPasses(s: string)
    requires forall i :: 0 <= i < |s| ==> IsAtomChar(s[i])
    ensures Passes(s, s)
  {
    if s != "" {
      AtomPasses(s[1..]);
      assert s == [s[0]] + s[1..];
    }
  }

  lemma CharPasses(c: char)
    requires c != '"' && !IsAsciiWhitespace(c)
    ensures Passes([c], [c])
  {
    assert [c][1..] == "";
  }

  lemma {:induction false} BodyPasses(b: seq<Piece>)
    requires IsPieces(b)
    ensures Output(BodyText(b), InString) == BodyText(b) && ModeAfter(BodyText(b), InString) == InString
  {
    if b != [] {
      var head := if b[0].Plain? then [b[0].c] else ['\\', b[0].c];
      BodyPasses(b[1..]);
      OutputAppend(head, BodyText(b[1..]), InString);
      PiecePasses(b[0]);
    }
  }

  lemma PiecePasses(p: Piece)
    requires IsPiece(p)
    ensures var head := if p.Plain? then [p.c] else ['\\', p.c];
            Output(head, InString) == head && ModeAfter(head, InString) == InString
  {
    if p.Plain? {
      assert [p.c][1..] == "";
    } else {
      assert ['\\', p.c][1..] == [p.c] && [p.c][1..] == "";
      assert Output([p.c], Escaped) == [p.c] + Output("", InString);
      assert ModeAfter([p.c], Escaped) == ModeAfter("", InString);
    }
  }

  lemma QuotedPasses(b: seq<Piece>)
    requires IsBody(b)
    ensures Passes(Quoted(b), Quoted(b))
  {
    BodyPasses(b);
    QuotePasses();
    OutputAppend(BodyText(b), ['"'], InString);
    OutputAppend(['"'], BodyText(b) + ['"'], Outside);
  }

  lemma QuotePasses()
    ensures Output(['"'], InString) == ['"'] && ModeAfter(['"'], InString) == Outside
    ensures Output(['"'], Outside) == ['"'] && ModeAfter(['"'], Outside) == InString
  {
    assert ['"'][1..] == "";
  }

  lemma LabelPasses(l: Option<Label>)
    requires LabelWellFormed(l)
    ensures Passes(LabelText(l), LabelText(BareLabel(l)))
  {
    if l.Some? {
      var Label(pre, key, post) := l.value;
      WsPasses(pre);
      QuotedPasses(key);
      WsPasses(post);
      CharPasses(':');
      PassesAppend(post, "", [':'], [':']);
      PassesAppend(Quoted(key), Quoted(key), post + [':'], "" + [':']);
      PassesAppend(pre, "", Quoted(key) + (post + [':']), Quoted(key) + ("" + [':']));
    }
  }

  lemma {:induction false} TextPasses(j: Json)
    requires WellFormed(j)
    ensures Passes(Text(j), Text(Bare(j)))
  {
    match j
    case Atom(t) => AtomPasses(t);
    case Str(b) => QuotedPasses(b);
    case Group(isObject, items) =>
      var o, c := [Open(isObject)], [Close(isObject)];
      CharPasses(Open(isObject));
      CharPasses(Close(isObject));
      ItemsPass(items, isObject);
      PassesAppend(ItemsText(items), ItemsText(BareItems(items)), c, c);
      PassesAppend(o, o, ItemsText(items) + c, ItemsText(BareItems(items)) + c);
  }

  lemma {:induction false} ItemsPass(items: Items, isObject: bool)
    requires ItemsWellFormed(items, isObject)
    ensures Passes(ItemsText(items), ItemsText(BareItems(items)))
  {
    match items
    case Empty(ws) => WsPasses(ws);
    case Last(slot) => SlotPasses(slot);
    case More(slot, rest) =>
      SlotPasses(slot);
      ItemsPass(rest, isObject);
      CharPasses(',');
      var t := ItemsText(BareItems(rest));
      PassesAppend([','], [','], ItemsText(rest), t);
      PassesAppend(SlotText(slot), SlotText(BareSlot(slot)), [','] + ItemsText(rest), [','] + t);
  }

  /** Main result: minifying any rendering of a value gives its whitespace-free rendering. */
  lemma {:induction false} SlotPasses(s: Slot)
    requires SlotWellFormed(s)
    ensures Passes(SlotText(s), SlotText(BareSlot(s)))
  {
    LabelPasses(s.name);
    WsPasses(s.pre);
    TextPasses(s.value);
    WsPasses(s.post);
    var t := Text(Bare(s.value));
    PassesAppend(Text(s.value), t, s.post, "");
    PassesAppend(s.pre, "", Text(s.value) + s.post, t + "");
    PassesAppend(LabelText(s.name), LabelText(BareLabel(s.name)),
                 s.pre + (Text(s.value) + s.post), "" + (t + ""));
  }

  // ------------------------------------------------------------ the minified text determines the value

  ghost predicate IsBare(j: Json) {
    WellFormed(j) && Bare(j) == j
  }

  ghost predicate IsBareItems(items: Items, isObject: bool) {
    ItemsWellFormed(items, isObject) && BareItems(items) == items
  }

  ghost predicate IsBareSlot(s: Slot) {
    SlotWellFormed(s) && BareSlot(s) == s
  }

  /** Nothing that would continue an atom. */
  predicate StopsAtom(s: string) {
    s == "" || !IsAtomChar(s[0])
  }

  lemma AtomUnique(a: string, r: string, b: string, q: string)
    requires IsAtomRun(a) && IsAtomRun(b) && StopsAtom(r) && StopsAtom(q) && a + r == b + q
    ensures a == b && r == q
  {
    var s := a + r;
    assert forall i :: 0 <= i < |a| ==> s[i] == a[i] && IsAtomChar(s[i]);
    assert forall i :: 0 <= i < |b| ==> s[i] == (b + q)[i] == b[i] && IsAtomChar(s[i]);
    assert r != "" ==> s[|a|] == r[0];
    assert q != "" ==> s[|b|] == (b + q)[|b|] == q[0];
    assert |a| == |b|;
    assert a == s[..|a|] && b == s[..|b|] && r == s[|a|..] && q == s[|b|..];
  }

  lemma TailUnique(c: char, r: string, d: char, q: string)
    requires [c] + r == [d] + q
    ensures c == d && r == q
  {
    assert c == ([c] + r)[0] && d == ([d] + q)[0];
    assert r == ([c] + r)[1..] && q == ([d] + q)[1..];
  }

  lemma PieceText(b: seq<Piece>, r: string)
    requires b != []
    ensures BodyText(b) + r
            == if b[0].Plain? then [b[0].c] + (BodyText(b[1..]) + r)
               else ['\\'] + ([b[0].c] + (BodyText(b[1..]) + r))
  {
  }

  lemma {:induction false} BodyUnique(b: seq<Piece>, r: string, c: seq<Piece>, q: string)
    requires IsPieces(b) && IsPieces(c) && BodyText(b) + (['"'] + r) == BodyText(c) + (['"'] + q)
    ensures b == c && r == q
    decreases |b|
  {
    var r', q' := ['"'] + r, ['"'] + q;
    if b != [] { PieceText(b, r'); }
    if c != [] { PieceText(c, q'); }
    assert b == [] ==> BodyText(b) + r' == r';
    assert c == [] ==> BodyText(c) + q' == q';
    assert (BodyText(b) + r')[0] == (BodyText(c) + q')[0];
    if b == [] || c == [] {
      assert b == [] && c == [];
      TailUnique('"', r, '"', q);
    } else {
      var br, cr := BodyText(b[1..]) + r', BodyText(c[1..]) + q';
      if b[0].Plain? {
        TailUnique(b[0].c, br, c[0].c, cr);
      } else {
        TailUnique('\\', [b[0].c] + br, '\\', [c[0].c] + cr);
        TailUnique(b[0].c, br, c[0].c, cr);
      }
      BodyUnique(b[1..], r, c[1..], q);
      assert b == [b[0]] + b[1..] && c == [c[0]] + c[1..];
    }
  }

  lemma QuotedUnique(b: seq<Piece>, r: string, c: seq<Piece>, q: string)
    requires IsBody(b) && IsBody(c) && Quoted(b) + r == Quoted(c) + q
    ensures b == c && r == q
  {
    assert Quoted(b) + r == ['"'] + (BodyText(b) + (['"'] + r));
    assert Quoted(c) + q == ['"'] + (BodyText(c) + (['"'] + q));
    TailUnique('"', BodyText(b) + (['"'] + r), '"', BodyText(c) + (['"'] + q));
    BodyUnique(b, r, c, q);
  }

  lemma Bracketed(a: char, b: string, c: char, r: string)
    ensures ([a] + (b + [c])) + r == [a] + (b + ([c] + r))
  {
  }

  lemma Padded(a: string, b: string, r: string)
    ensures (a + ("" + (b + ""))) + r == a + (b + r)
  {
    assert b + "" == b && "" + b == b;
  }

  lemma GroupUnique(isObject: bool, x: string, r: string, y: string, q: string)
    requires ([Open(isObject)] + (x + [Close(isObject)])) + r == ([Open(isObject)] + (y + [Close(isObject)])) + q
    ensures x + ([Close(isObject)] + r) == y + ([Close(isObject)] + q)
  {
    var a, c := Open(isObject), Close(isObject);
    Bracketed(a, x, c, r);
    Bracketed(a, y, c, q);
    TailUnique(a, x + ([c] + r), a, y + ([c] + q));
  }

  /** The first character of a value tells its kind. */
  lemma FirstChar(j: Json, r: string)
    requires WellFormed(j)
    ensures var s := Text(j) + r;
            s != "" && s[0] == Text(j)[0]
            && match j
               case Atom(_) => IsAtomChar(s[0])
               case Str(_) => s[0] == '"'
               case Group(isObject, _) => s[0] == Open(isObject)
  {
  }

  lemma {:induction false} TextUnique(j: Json, r: string, k: Json, q: string)
    requires IsBare(j) && IsBare(k) && StopsAtom(r) && StopsAtom(q) && Text(j) + r == Text(k) + q
    ensures j == k && r == q
    decreases j, 0
  {
    FirstChar(j, r);
    FirstChar(k, q);
    match j
    case Atom(a) => AtomUnique(a, r, k.text, q);
    case Str(b) => QuotedUnique(b, r, k.body, q);
    case Group(isObject, x) =>
      assert k.Group? && k.isObject == isObject;
      GroupUnique(isObject, ItemsText(x), r, ItemsText(k.items), q);
      ItemsUnique(x, r, k.items, q, isObject);
  }

  lemma BareLabelText(key: seq<Piece>, r: string)
    ensures LabelText(Some(Label("", key, ""))) + r == Quoted(key) + ([':'] + r)
  {
    NoBlanks(Quoted(key), ':', r);
  }

  lemma NoBlanks(k: string, c: char, r: string)
    ensures ("" + (k + ("" + [c]))) + r == k + ([c] + r)
  {
    assert "" + [c] == [c];
    assert "" + (k + [c]) == k + [c];
  }

  lemma LabelUnique(l: Option<Label>, r: string, m: Option<Label>, q: string)
    requires LabelWellFormed(l) && LabelWellFormed(m) && BareLabel(l) == l && BareLabel(m) == m
    requires l.Some? == m.Some? && LabelText(l) + r == LabelText(m) + q
    ensures l == m && r == q
  {
    if l.Some? {
      BareLabelText(l.value.key, r);
      BareLabelText(m.value.key, q);
      QuotedUnique(l.value.key, [':'] + r, m.value.key, [':'] + q);
      TailUnique(':', r, ':', q);
    } else {
      assert LabelText(l) + r == r && LabelText(m) + q == q;
    }
  }

  lemma {:induction false} SlotUnique(s: Slot, r: string, t: Slot, q: string)
    requires IsBareSlot(s) && IsBareSlot(t) && s.name.Some? == t.name.Some?
    requires StopsAtom(r) && StopsAtom(q) && SlotText(s) + r == SlotText(t) + q
    ensures s == t && r == q
    decreases s, 0
  {
    Padded(LabelText(s.name), Text(s.value), r);
    Padded(LabelText(t.name), Text(t.value), q);
    LabelUnique(s.name, Text(s.value) + r, t.name, Text(t.value) + q);
    TextUnique(s.value, r, t.value, q);
  }

  /** A slot never starts like the end of its group. */
  lemma SlotStart(s: Slot, r: string)
    requires IsBareSlot(s)
    ensures SlotText(s) + r != "" && (SlotText(s) + r)[0] != '}' && (SlotText(s) + r)[0] != ']'
  {
    FirstChar(s.value, r);
    if s.name.None? {
      assert SlotText(s) + r == Text(s.value) + r;
    } else {
      assert SlotText(s)[0] == '"';
    }
  }

  /** What follows the first slot of a list that is closed by `c` and `r`. */
  function AfterSlot(items: Items, c: char, r: string): string
    requires !items.Empty?
  {
    if items.Last? then [c] + r else [','] + (ItemsText(items.rest) + ([c] + r))
  }

  lemma SlotThenRest(items: Items, c: char, r: string)
    requires !items.Empty? && !IsAtomChar(c)
    ensures ItemsText(items) + ([c] + r) == SlotText(items.slot) + AfterSlot(items, c, r)
    ensures StopsAtom(AfterSlot(items, c, r))
  {
    if items.More? { Separated(SlotText(items.slot), ItemsText(items.rest), [c] + r); }
  }

  lemma Separated(a: string, b: string, r: string)
    ensures (a + ([','] + b)) + r == a + ([','] + (b + r))
  {
  }

  lemma {:induction false} ItemsUnique(x: Items, r: string, y: Items, q: string, isObject: bool)
    requires IsBareItems(x, isObject) && IsBareItems(y, isObject)
    requires ItemsText(x) + ([Close(isObject)] + r) == ItemsText(y) + ([Close(isObject)] + q)
    ensures x == y && r == q
    decreases x, 1
  {
    var c := Close(isObject);
    if !x.Empty? {
      SlotThenRest(x, c, r);
      SlotStart(x.slot, AfterSlot(x, c, r));
    }
    if !y.Empty? {
      SlotThenRest(y, c, q);
      SlotStart(y.slot, AfterSlot(y, c, q));
    }
    if x.Empty? || y.Empty? {
      assert x.Empty? ==> ItemsText(x) + ([c] + r) == [c] + r;
      assert y.Empty? ==> ItemsText(y) + ([c] + q) == [c] + q;
      TailUnique(c, r, c, q);
    } else {
      SlotUnique(x.slot, AfterSlot(x, c, r), y.slot, AfterSlot(y, c, q));
      assert AfterSlot(x, c, r)[0] == AfterSlot(y, c, q)[0];
      if x.Last? {
        TailUnique(c, r, c, q);
      } else {
        TailUnique(',', ItemsText(x.rest) + ([c] + r), ',', ItemsText(y.rest) + ([c] + q));
        ItemsUnique(x.rest, r, y.rest, q, isObject);
      }
    }
  }

  // ------------------------------------------------------------ meaning

  /** A whole document: a value with whitespace around it. */
  ghost predicate IsDocument(d: Slot) {
    d.name.None? && SlotWellFormed(d)
  }

  /** The whitespace-free rendering of the value a document denotes. */
  function Compact(d: Slot): string {
    Text(Bare(d.value))
  }

  lemma {:induction false} BareIsBare(j: Json)
    requires WellFormed(j)
    ensures IsBare(Bare(j))
  {
    if j.Group? { BareItemsAreBare(j.items, j.isObject); }
  }

  lemma {:induction false} BareItemsAreBare(items: Items, isObject: bool)
    requires ItemsWellFormed(items, isObject)
    ensures IsBareItems(BareItems(items), isObject) && BareItems(items).Empty? == items.Empty?
  {
    if !items.Empty? {
      BareIsBare(items.slot.value);
      if items.More? { BareItemsAreBare(items.rest, isObject); }
    }
  }

  /** Minifying a document gives the whitespace-free rendering of its value. */
  lemma MinifyIsCompact(d: Slot)
    requires IsDocument(d)
    ensures Minify(SlotText(d)) == Compact(d)
  {
    SlotPasses(d);
    assert SlotText(BareSlot(d)) == "" + ("" + (Compact(d) + ""));
  }

  /** Two documents minify alike exactly when they denote the same value. */
  lemma MinifySeparatesValues(d: Slot, e: Slot)
    requires IsDocument(d) && IsDocument(e)
    ensures Minify(SlotText(d)) == Minify(SlotText(e)) <==> Bare(d.value) == Bare(e.value)
  {
    MinifyIsCompact(d);
    MinifyIsCompact(e);
    BareIsBare(d.value);
    BareIsBare(e.value);
    if Compact(d) == Compact(e) {
      assert Compact(d) + "" == Compact(e) + "";
      TextUnique(Bare(d.value), "", Bare(e.value), "");
    }
  }

  /** Read back in any way, the minified text of a document denotes the document's value. */
  lemma MinifyPreservesMeaning(d: Slot, e: Slot)
    requires IsDocument(d) && IsDocument(e) && SlotText(e) == Minify(SlotText(d))
    ensures Bare(e.value) == Bare(d.value)
  {
    var bare := BareSlot(d);
    BareIsBare(d.value);
    SlotPasses(d);
    SlotPasses(bare);
    MinifyIsCompact(d);
    MinifySeparatesValues(d, e);
  }

  // ------------------------------------------------------------ the message pass

  // `White` stands for the Unicode whitespace test behind `trim`, `isJson` for the JSON
  // validator; both are foreign, and every result holds for any such tests.
  type CharTest = char -> bool
  type TextTest = string -> bool

  function WithoutLeading(s: string, white: CharTest): string {
    if s != "" && white(s[0]) then WithoutLeading(s[1..], white) else s
  }

  function WithoutTrailing(s: string, white: CharTest): string {
    if s != "" && white(s[|s| - 1]) then WithoutTrailing(s[..|s| - 1], white) else s
  }

  function Trim(s: string, white: CharTest): string {
    WithoutTrailing(WithoutLeading(s, white), white)
  }

  predicate StartsAndEnds(s: string, a: char, b: char) {
    s != "" && s[0] == a && s[|s| - 1] == b
  }

  predicate IsJsonCandidate(s: string) {
    && (StartsAndEnds(s, '{', '}') || StartsAndEnds(s, '[', ']'))
    && ('\n' in s || exists i :: 0 < i < |s| && s[i - 1] == ' ' && s[i] == ' ')
  }

  /** The minified text, if it is shorter and valid and the trimmed text looks like JSON. */
  function Compacted(text: string, white: CharTest, isJson: TextTest): Option<string> {
    var m := Minify(Trim(text, white));
    if IsJsonCandidate(Trim(text, white)) && |m| < |text| && isJson(m) then Some(m) else None
  }

  /** If the trimmed text is a document, a result is the compact rendering of its value. */
  method TryCompactJsonText(text: string, white: CharTest, isJson: TextTest) returns (r: Option<string>)
    ensures r == Compacted(text, white, isJson)
    ensures r.Some? ==> |r.value| < |text|
    ensures forall d :: IsDocument(d) && SlotText(d) == Trim(text, white) && r.Some? ==> r.value == Compact(d)
  {
    var trimmed := Trim(text, white);
    forall d | IsDocument(d) && SlotText(d) == trimmed ensures Minify(trimmed) == Compact(d) {
      MinifyIsCompact(d);
    }
    if !IsJsonCandidate(trimmed) {
      return None;
    }
    var minified := MinifyJson(trimmed);
    if |minified| < |text| && isJson(minified) {
      return Some(minified);
    }
    return None;
  }
}
