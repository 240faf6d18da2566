/**
 The lossless route of the JSON array crusher: one schema line and one CSV row per object, with
 quoting as in section 2 of RFC 4180, and the decoder that recovers every cell text.
 */
module Csv {
  import opened Common
  import opened JsonValue
  import opened TextLines

  // ------------------------------------------------------------ writing

  predicate IsSpecial(c: char) {
    c == ',' || c == '"' || c == '\n' || c == '\r'
  }

  predicate NeedsQuotes(s: string) {
    exists i :: 0 <= i < |s| && IsSpecial(s[i])
  }

  /** Every quote doubled. */
  function Doubled(s: string): string {
    if s == "" then "" else Doubled(s[..|s| - 1]) + if s[|s| - 1] == '"' then "\"\"" else [s[|s| - 1]]
  }

  function Escaped(s: string): string {
    if NeedsQuotes(s) then ['"'] + (Doubled(s) + ['"']) else s
  }

  method WriteCsvCellEscaped(out0: string, s: string) returns (out: string)
    ensures out == out0 + Escaped(s)
  {
    if !NeedsQuotes(s) {
      return out0 + s;
    }
    out := out0 + ['"'];
    for i := 0 to |s|
      invariant out == out0 + (['"'] + Doubled(s[..i]))
    {
      assert s[..i + 1][..i] == s[..i];
      if s[i] == '"' {
        out := out + ['"'];
      }
      out := out + [s[i]];
    }
    assert s[..|s|] == s;
    out := out + ['"'];
  }

  // The JSON printer for nested values is foreign: any function will do.
  type Printer = Value -> string

  /** The text a cell stands for; a missing field reads as an empty cell. */
  function CellText(v: Option<Value>, printer: Printer): string {
    if v.None? then ""
    else match v.value
      case Null => ""
      case String(s) => s
      case Array(_) => printer(v.value)
      case Object(_) => printer(v.value)
      case Bool(b) => if b then "true" else "false"
      case Number(n) => n
  }

  method WriteJsonValueToCsvCell(out0: string, v: Value, printer: Printer) returns (out: string)
    ensures out == out0 + Escaped(CellText(Some(v), printer))
  {
    match v
    case Null => out := out0;
    case String(s) => out := WriteCsvCellEscaped(out0, s);
    case Array(_) => out := WriteCsvCellEscaped(out0, printer(v));
    case Object(_) => out := WriteCsvCellEscaped(out0, printer(v));
    case Bool(b) => out := out0 + if b then "true" else "false";
    case Number(n) => out := out0 + n;
  }

  function RowText(cells: seq<string>): string {
    if cells == [] then ""
    else if |cells| == 1 then Escaped(cells[0])
    else RowText(cells[..|cells| - 1]) + ([','] + Escaped(cells[|cells| - 1]))
  }

  function BodyText(rows: seq<seq<string>>): string {
    if rows == [] then "" else BodyText(rows[..|rows| - 1]) + (['\n'] + RowText(rows[|rows| - 1]))
  }

  function Row(item: Value, fields: seq<string>, printer: Printer): (cells: seq<string>)
    ensures |cells| == |fields|
  {
    if fields == [] then []
    else Row(item, fields[..|fields| - 1], printer) + [CellText(Get(item, fields[|fields| - 1]), printer)]
  }

  /** Each cell of a row holds the text of its field. */
  lemma {:induction false} RowAt(item: Value, fields: seq<string>, printer: Printer, j: nat)
    requires j < |fields|
    ensures Row(item, fields, printer)[j] == CellText(Get(item, fields[j]), printer)
  {
    if j < |fields| - 1 { RowAt(item, fields[..|fields| - 1], printer, j); }
  }

  function Table(arr: seq<Value>, fields: seq<string>, printer: Printer): (rows: seq<seq<string>>)
    ensures |rows| == |arr| && forall i :: 0 <= i < |arr| ==> rows[i] == Row(arr[i], fields, printer)
  {
    if arr == [] then []
    else Table(arr[..|arr| - 1], fields, printer) + [Row(arr[|arr| - 1], fields, printer)]
  }

  lemma RowSnoc(out: string, cells: seq<string>, cell: string)
    ensures out + RowText(cells + [cell])
            == if cells == [] then out + Escaped(cell)
               else ((out + RowText(cells)) + [',']) + Escaped(cell)
  {
    assert (cells + [cell])[..|cells|] == cells;
  }

  lemma RowGrows(item: Value, fields: seq<string>, printer: Printer, i: nat)
    requires i < |fields|
    ensures Row(item, fields[..i + 1], printer)
            == Row(item, fields[..i], printer) + [CellText(Get(item, fields[i]), printer)]
  {
    assert fields[..i + 1][..i] == fields[..i];
  }

  method WriteCell(out0: string, item: Value, field: string, printer: Printer) returns (out: string)
    ensures out == out0 + Escaped(CellText(Get(item, field), printer))
  {
    var v := Get(item, field);
    if v.None? {
      return out0;
    }
    out := WriteJsonValueToCsvCell(out0, v.value, printer);
  }

  method WriteCsvRow(out0: string, item: Value, fields: seq<string>, printer: Printer) returns (out: string)
    ensures out == out0 + RowText(Row(item, fields, printer))
  {
    out := out0;
    ghost var cells := [];
    for i := 0 to |fields|
      invariant cells == Row(item, fields[..i], printer) && out == out0 + RowText(cells)
    {
      ghost var cell := CellText(Get(item, fields[i]), printer);
      RowGrows(item, fields, printer, i);
      RowSnoc(out0, cells, cell);
      if i > 0 {
        out := out + [','];
      }
      out := WriteCell(out, item, fields[i], printer);
      cells := cells + [cell];
    }
    assert fields[..|fields|] == fields;
  }

  // ------------------------------------------------------------ decoding

  /** The rest of a quoted cell, and what follows its closing quote. */
  function DecodeQuoted(s: string): (r: (string, string))
    ensures |r.1| <= |s|
  {
    if s == "" then ("", "")
    else if s[0] != '"' then var (t, rest) := DecodeQuoted(s[1..]); ([s[0]] + t, rest)
    else if |s| > 1 && s[1] == '"' then var (t, rest) := DecodeQuoted(s[2..]); (['"'] + t, rest)
    else ("", s[1..])
  }

  function DecodePlain(s: string): (r: (string, string))
    ensures |r.1| <= |s|
  {
    if s == "" || s[0] == ',' || s[0] == '\n' then ("", s)
    else var (t, rest) := DecodePlain(s[1..]); ([s[0]] + t, rest)
  }

  function DecodeCell(s: string): (r: (string, string))
    ensures |r.1| <= |s|
  {
    if s != "" && s[0] == '"' then DecodeQuoted(s[1..]) else DecodePlain(s)
  }

  function DecodeRow(s: string): (r: (seq<string>, string))
    ensures |r.1| <= |s|
    decreases |s|
  {
    var (cell, rest) := DecodeCell(s);
    if rest != "" && rest[0] == ',' then var (cells, rest') := DecodeRow(rest[1..]); ([cell] + cells, rest')
    else ([cell], rest)
  }

  function DecodeBody(s: string): seq<seq<string>>
    decreases |s|
  {
    if s == "" then []
    else
      var (row, rest) := DecodeRow(s[1..]);
      [row] + DecodeBody(rest)
  }

  predicate EndsCell(s: string) {
    s == "" || s[0] == ',' || s[0] == '\n'
  }

  lemma {:induction false} PlainDecodes(c: string, r: string)
    requires !NeedsQuotes(c) && EndsCell(r)
    ensures DecodePlain(c + r) == (c, r)
  {
    if c == "" {
      assert c + r == r;
    } else {
      assert IsSpecial(c[0]) == false;
      assert (c + r)[0] == c[0] && (c + r)[1..] == c[1..] + r;
      PlainDecodes(c[1..], r);
      assert c == [c[0]] + c[1..];
    }
  }

  lemma {:induction false} DoubledFront(c: string)
    requires c != ""
    ensures Doubled(c) == (if c[0] == '"' then "\"\"" else [c[0]]) + Doubled(c[1..])
  {
    var n := |c| - 1;
    if n > 0 {
      DoubledFront(c[..n]);
      assert c[..n][1..] == c[1..][..n - 1];
    }
  }

  lemma {:induction false} QuotedDecodes(c: string, r: string)
    requires EndsCell(r)
    ensures DecodeQuoted(Doubled(c) + (['"'] + r)) == (c, r)
  {
    var s := Doubled(c) + (['"'] + r);
    if c == "" {
      assert s == ['"'] + r && s[1..] == r;
    } else {
      DoubledFront(c);
      QuotedDecodes(c[1..], r);
      var tail := Doubled(c[1..]) + (['"'] + r);
      assert c == [c[0]] + c[1..];
      if c[0] == '"' {
        assert s == "\"\"" + tail && s[2..] == tail;
      } else {
        assert s == [c[0]] + tail && s[1..] == tail;
      }
    }
  }

  /** Any cell text decodes from its escaped form, whatever cell or row follows. */
  lemma CellDecodes(c: string, r: string)
    requires EndsCell(r)
    ensures DecodeCell(Escaped(c) + r) == (c, r)
  {
    if NeedsQuotes(c) {
      QuotedCell(Doubled(c), r);
      QuotedDecodes(c, r);
    } else {
      PlainDecodes(c, r);
      PlainCell(c, r);
    }
  }

  lemma QuotedCell(d: string, r: string)
    ensures DecodeCell((['"'] + (d + ['"'])) + r) == DecodeQuoted(d + (['"'] + r))
  {
    var s := (['"'] + (d + ['"'])) + r;
    assert s[0] == '"' && s[1..] == d + (['"'] + r);
  }

  lemma PlainCell(c: string, r: string)
    requires !NeedsQuotes(c) && EndsCell(r)
    ensures DecodeCell(c + r) == DecodePlain(c + r)
  {
    assert c != "" ==> (c + r)[0] == c[0] && !IsSpecial(c[0]);
  }

  lemma {:induction false} RowFront(cells: seq<string>)
    requires |cells| >= 2
    ensures RowText(cells) == Escaped(cells[0]) + ([','] + RowText(cells[1..]))
  {
    var n := |cells| - 1;
    if n > 1 {
      RowFront(cells[..n]);
      assert cells[..n][1..] == cells[1..][..n - 1];
    }
  }

  lemma LastCell(c: string, r: string)
    requires r == "" || r[0] == '\n'
    ensures DecodeRow(Escaped(c) + r) == ([c], r)
  {
    CellDecodes(c, r);
  }

  lemma NextCell(c: string, t: string)
    ensures DecodeRow(Escaped(c) + ([','] + t)) == ([c] + DecodeRow(t).0, DecodeRow(t).1)
  {
    assert ([','] + t)[1..] == t;
    CellDecodes(c, [','] + t);
  }

  lemma {:induction false} RowDecodes(cells: seq<string>, r: string)
    requires cells != [] && (r == "" || r[0] == '\n')
    ensures DecodeRow(RowText(cells) + r) == (cells, r)
    decreases |cells|
  {
    if |cells| == 1 {
      LastCell(cells[0], r);
      assert cells == [cells[0]];
    } else {
      var e, t := Escaped(cells[0]), RowText(cells[1..]);
      assert (e + ([','] + t)) + r == e + ([','] + (t + r));
      assert cells == [cells[0]] + cells[1..];
      RowFront(cells);
      NextCell(cells[0], t + r);
      RowDecodes(cells[1..], r);
    }
  }

  lemma {:induction false} BodyFront(rows: seq<seq<string>>)
    requires rows != []
    ensures BodyText(rows) == ['\n'] + (RowText(rows[0]) + BodyText(rows[1..]))
  {
    var n := |rows| - 1;
    var first := RowText(rows[0]);
    if n > 0 {
      var init, last := BodyText(rows[1..][..n - 1]), ['\n'] + RowText(rows[n]);
      assert rows[..n][1..] == rows[1..][..n - 1];
      assert (['\n'] + (first + init)) + last == ['\n'] + (first + (init + last));
      BodyFront(rows[..n]);
    } else {
      assert rows[..n] == [] && rows[1..] == [];
      assert "" + (['\n'] + first) == ['\n'] + (first + "");
    }
  }

  lemma NextRow(t: string)
    ensures DecodeBody(['\n'] + t) == [DecodeRow(t).0] + DecodeBody(DecodeRow(t).1)
  {
    assert (['\n'] + t)[1..] == t;
  }

  /** Main result: the whole table of cell texts decodes from the rows, for all cell contents. */
  lemma {:induction false} BodyDecodes(rows: seq<seq<string>>)
    requires forall i :: 0 <= i < |rows| ==> rows[i] != []
    ensures DecodeBody(BodyText(rows)) == rows
    decreases |rows|
  {
    if rows != [] {
      assert rows == [rows[0]] + rows[1..];
      var rest := BodyText(rows[1..]);
      BodyStarts(rows[1..]);
      RowDecodes(rows[0], rest);
      NextRow(RowText(rows[0]) + rest);
      BodyFront(rows);
      BodyDecodes(rows[1..]);
    }
  }

  lemma BodyStarts(rows: seq<seq<string>>)
    ensures BodyText(rows) == "" || BodyText(rows)[0] == '\n'
  {
    if rows != [] { BodyFront(rows); }
  }

  // ------------------------------------------------------------ the schema line

  function Joined(names: seq<string>): string {
    if names == [] then ""
    else if |names| == 1 then names[0]
    else Joined(names[..|names| - 1]) + ([','] + names[|names| - 1])
  }

  const SCHEMA := "#schema:"

  function SplitCommas(s: string): (r: seq<string>)
    ensures r != []
  {
    if s == "" then [""]
    else
      var n := |s| - 1;
      var r := SplitCommas(s[..n]);
      if s[n] == ',' then r + [""] else r[..|r| - 1] + [r[|r| - 1] + [s[n]]]
  }

  predicate NoComma(s: string) {
    ',' !in s
  }

  lemma SplitSnoc(s: string, c: char)
    ensures var r := SplitCommas(s);
            SplitCommas(s + [c]) == if c == ',' then r + [""] else r[..|r| - 1] + [r[|r| - 1] + [c]]
  {
    assert (s + [c])[..|s|] == s;
  }

  lemma {:induction false} SplitNoComma(s: string, t: string)
    requires NoComma(t)
    ensures var r := SplitCommas(s); SplitCommas(s + t) == r[..|r| - 1] + [r[|r| - 1] + t]
  {
    var r := SplitCommas(s);
    if t == "" {
      assert s + t == s && r[|r| - 1] + t == r[|r| - 1] && r == r[..|r| - 1] + [r[|r| - 1]];
    } else {
      var u, c := t[..|t| - 1], t[|t| - 1];
      assert s + t == (s + u) + [c] && (r[|r| - 1] + u) + [c] == r[|r| - 1] + t;
      SplitNoComma(s, u);
      SplitSnoc(s + u, c);
      var q := r[..|r| - 1] + [r[|r| - 1] + u];
      assert q[..|q| - 1] == r[..|r| - 1];
    }
  }

  lemma SplitAfterComma(s: string, t: string)
    requires NoComma(t)
    ensures SplitCommas(s + ([','] + t)) == SplitCommas(s) + [t]
  {
    var r := SplitCommas(s);
    assert s + ([','] + t) == (s + [',']) + t && "" + t == t;
    SplitSnoc(s, ',');
    SplitNoComma(s + [','], t);
    assert (r + [""])[..|r|] == r;
  }

  lemma SplitOne(t: string)
    requires NoComma(t)
    ensures SplitCommas(t) == [t]
  {
    assert "" + t == t && SplitCommas("") == [""];
    SplitNoComma("", t);
  }

  lemma {:induction false} JoinedSplits(names: seq<string>)
    requires names != [] && forall i :: 0 <= i < |names| ==> NoComma(names[i])
    ensures SplitCommas(Joined(names)) == names
  {
    var n := |names| - 1;
    if n == 0 {
      SplitOne(names[0]);
      assert names == [names[0]];
    } else {
      JoinedSplits(names[..n]);
      SplitAfterComma(Joined(names[..n]), names[n]);
      assert names == names[..n] + [names[n]];
    }
  }

  lemma {:induction false} SplitsHaveNoComma(s: string)
    ensures forall i :: 0 <= i < |SplitCommas(s)| ==> NoComma(SplitCommas(s)[i])
  {
    if s != "" { SplitsHaveNoComma(s[..|s| - 1]); }
  }

  function FirstLine(s: string): string {
    s[..FirstNewline(s)]
  }

  lemma {:induction false} SplitsHaveNoNewline(s: string)
    requires NoNewline(s)
    ensures forall i :: 0 <= i < |SplitCommas(s)| ==> NoNewline(SplitCommas(s)[i])
  {
    if s != "" {
      SplitsHaveNoNewline(s[..|s| - 1]);
      assert s[|s| - 1] in s;
    }
  }

  lemma {:induction false} JoinedIsLine(names: seq<string>)
    requires forall i :: 0 <= i < |names| ==> NoNewline(names[i])
    ensures NoNewline(Joined(names))
  {
    if |names| > 1 { JoinedIsLine(names[..|names| - 1]); }
  }

  // ------------------------------------------------------------ the whole output

  function OutputText(names: seq<string>, rows: seq<seq<string>>): string {
    SCHEMA + (Joined(names) + BodyText(rows))
  }

  // What a reader of the output learns: the column names and the rows of cell texts.
  datatype Decoded = Decoded(names: seq<string>, rows: seq<seq<string>>)

  /** The names stand in the first line after the schema prefix, the rows below it. */
  function DecodeOutput(s: string): Option<Decoded> {
    if SCHEMA <= s then
      var rest := s[|SCHEMA|..];
      var line := FirstLine(rest);
      Some(Decoded(SplitCommas(line), DecodeBody(rest[|line|..])))
    else None
  }

  lemma DecodeOutputText(names: seq<string>, rows: seq<seq<string>>)
    ensures var rest := Joined(names) + BodyText(rows);
            var line := FirstLine(rest);
            DecodeOutput(OutputText(names, rows)) == Some(Decoded(SplitCommas(line), DecodeBody(rest[|line|..])))
  {
    var rest := Joined(names) + BodyText(rows);
    assert (SCHEMA + rest)[|SCHEMA|..] == rest && SCHEMA <= SCHEMA + rest;
  }

  predicate PlainNames(names: seq<string>) {
    forall i :: 0 <= i < |names| ==> NoComma(names[i]) && NoNewline(names[i])
  }

  /**
   Main result: names and rows decode from the output if and only if no name contains a comma or
   a newline.
   */
  lemma OutputDecodesExactly(names: seq<string>, rows: seq<seq<string>>)
    requires names != [] && forall i :: 0 <= i < |rows| ==> rows[i] != []
    ensures DecodeOutput(OutputText(names, rows)) == Some(Decoded(names, rows)) <==> PlainNames(names)
  {
    var rest := Joined(names) + BodyText(rows);
    var line := FirstLine(rest);
    DecodeOutputText(names, rows);
    NoNewlineBefore(rest);
    SplitsHaveNoComma(line);
    SplitsHaveNoNewline(line);
    if PlainNames(names) {
      JoinedIsLine(names);
      BodyStarts(rows);
      NewlineComesAfter(Joined(names), BodyText(rows));
      assert line == Joined(names);
      JoinedSplits(names);
      assert rest[|line|..] == BodyText(rows);
      BodyDecodes(rows);
    }
  }

  // ------------------------------------------------------------ the field names

  predicate LexLess(a: string, b: string) {
    b != "" && (a == "" || a[0] < b[0] || (a[0] == b[0] && LexLess(a[1..], b[1..])))
  }

  lemma {:induction false} LexTransitive(a: string, b: string, c: string)
    requires LexLess(a, b) && LexLess(b, c)
    ensures LexLess(a, c)
  {
    if a != "" && a[0] == b[0] && b[0] == c[0] { LexTransitive(a[1..], b[1..], c[1..]); }
  }

  lemma {:induction false} LexTotal(a: string, b: string)
    ensures LexLess(a, b) || a == b || LexLess(b, a)
  {
    if a != "" && b != "" && a[0] == b[0] {
      LexTotal(a[1..], b[1..]);
      assert a == [a[0]] + a[1..] && b == [b[0]] + b[1..];
    }
  }

  predicate Ordered(names: seq<string>) {
    forall i, j :: 0 <= i < j < |names| ==> LexLess(names[i], names[j])
  }

  /** Inserting a name into an ordered set. */
  function InsertName(names: seq<string>, name: string): (r: seq<string>)
    requires Ordered(names)
    ensures Ordered(r) && forall k :: k in r <==> k in names || k == name
  {
    if names == [] then [name]
    else if names[0] == name then names
    else if LexLess(name, names[0]) then
      assert forall j :: 0 < j < |names| ==> LexLess(name, names[j]) by {
        forall j | 0 < j < |names| ensures LexLess(name, names[j]) { LexTransitive(name, names[0], names[j]); }
      }
      [name] + names
    else
      LexTotal(name, names[0]);
      var r := InsertName(names[1..], name);
      assert forall i :: 0 <= i < |r| ==> r[i] in names[1..] || r[i] == name;
      assert forall k :: k in names <==> k == names[0] || k in names[1..];
      [names[0]] + r
  }

  lemma {:induction false} LexIrreflexive(a: string)
    ensures !LexLess(a, a)
  {
    if a != "" { LexIrreflexive(a[1..]); }
  }

  lemma LexAsymmetric(a: string, b: string)
    requires LexLess(a, b)
    ensures !LexLess(b, a) && a != b
  {
    LexIrreflexive(a);
    if LexLess(b, a) { LexTransitive(a, b, a); }
  }

  /** An ordered list is determined by its elements. */
  lemma {:induction false} OrderedIsUnique(p: seq<string>, q: seq<string>)
    requires Ordered(p) && Ordered(q) && forall k :: k in p <==> k in q
    ensures p == q
  {
    if q != [] { SameFirst(q, p); }
    if p != [] {
      SameFirst(p, q);
      TailElements(p);
      TailElements(q);
      OrderedIsUnique(p[1..], q[1..]);
      assert p == [p[0]] + p[1..] && q == [q[0]] + q[1..];
    }
  }

  lemma SameFirst(p: seq<string>, q: seq<string>)
    requires p != [] && Ordered(p) && Ordered(q) && forall k :: k in p <==> k in q
    ensures q != [] && p[0] == q[0]
  {
    assert p[0] in q;
    assert q[0] in p;
    var i :| 0 <= i < |p| && p[i] == q[0];
    var j :| 0 <= j < |q| && q[j] == p[0];
    if i > 0 {
      LexAsymmetric(p[0], p[i]);
    }
  }

  lemma TailElements(p: seq<string>)
    requires p != [] && Ordered(p)
    ensures forall k :: k in p[1..] <==> k in p && k != p[0]
  {
    forall k | k in p[1..] ensures k in p && k != p[0] {
      var i :| 0 <= i < |p[1..]| && p[1..][i] == k;
      LexAsymmetric(p[0], p[i + 1]);
    }
    assert forall k :: k in p ==> k == p[0] || k in p[1..];
  }

  function AllKeys(arr: seq<Value>): set<string> {
    if arr == [] then {}
    else AllKeys(arr[..|arr| - 1]) + if arr[|arr| - 1].Object? then arr[|arr| - 1].fields.Keys else {}
  }

  method AllFields(arr: seq<Value>) returns (names: seq<string>)
    ensures Ordered(names) && forall k :: k in names <==> k in AllKeys(arr)
  {
    names := [];
    for i := 0 to |arr|
      invariant Ordered(names) && forall k :: k in names <==> k in AllKeys(arr[..i])
    {
      assert arr[..i + 1][..i] == arr[..i];
      if arr[i].Object? {
        var keys := arr[i].fields.Keys;
        ghost var done: set<string> := {};
        while keys != {}
          invariant keys + done == arr[i].fields.Keys
          invariant Ordered(names) && forall k :: k in names <==> k in AllKeys(arr[..i]) || k in done
          decreases keys
        {
          var k :| k in keys;
          names := InsertName(names, k);
          keys := keys - {k};
          done := done + {k};
        }
      }
    }
    assert arr[..|arr|] == arr;
  }

  // ------------------------------------------------------------ the lossless route

  predicate AtLeast(count: nat, total: nat, num: nat, den: nat) {
    total != 0 && count * den >= total * num
  }

  function PresentCount(item: Value, names: seq<string>): nat {
    if names == [] then 0
    else PresentCount(item, names[..|names| - 1]) + if Get(item, names[|names| - 1]).Some? then 1 else 0
  }

  function CoveredCount(arr: seq<Value>, names: seq<string>): nat {
    if arr == [] then 0
    else
      var item := arr[|arr| - 1];
      CoveredCount(arr[..|arr| - 1], names)
      + if item.Object? && AtLeast(PresentCount(item, names), |names|, 4, 5) then 1 else 0
  }

  /** Four fifths of the items have four fifths of the fields. */
  predicate Covered(arr: seq<Value>, names: seq<string>) {
    names != [] && arr != [] && AtLeast(CoveredCount(arr, names), |arr|, 4, 5)
  }

  lemma BodySnoc(rows: seq<seq<string>>, row: seq<string>)
    ensures BodyText(rows + [row]) == BodyText(rows) + (['\n'] + RowText(row))
  {
    assert (rows + [row])[..|rows|] == rows;
  }

  lemma TableSnoc(arr: seq<Value>, names: seq<string>, printer: Printer, i: nat)
    requires i < |arr|
    ensures Table(arr[..i + 1], names, printer) == Table(arr[..i], names, printer) + [Row(arr[i], names, printer)]
  {
    assert arr[..i + 1][..i] == arr[..i];
  }

  method WriteRows(out0: string, arr: seq<Value>, names: seq<string>, printer: Printer) returns (out: string)
    ensures out == out0 + BodyText(Table(arr, names, printer))
  {
    out := out0;
    for i := 0 to |arr|
      invariant out == out0 + BodyText(Table(arr[..i], names, printer))
    {
      TableSnoc(arr, names, printer, i);
      BodySnoc(Table(arr[..i], names, printer), Row(arr[i], names, printer));
      out := WriteCsvRow(out + ['\n'], arr[i], names, printer);
    }
    assert arr[..|arr|] == arr;
  }

  method WriteSchema(names: seq<string>) returns (out: string)
    ensures out == SCHEMA + Joined(names)
  {
    out := SCHEMA;
    for i := 0 to |names|
      invariant out == SCHEMA + Joined(names[..i])
    {
      assert names[..i + 1][..i] == names[..i];
      if i > 0 {
        out := out + [','];
      }
      out := out + names[i];
    }
    assert names[..|names|] == names;
  }

  /** The columns of a table: the names that occur in some object, in order. */
  ghost predicate FieldNames(arr: seq<Value>, names: seq<string>) {
    Ordered(names) && forall k :: k in names <==> k in AllKeys(arr)
  }

  /** What the lossless route gives for `arr` with the columns `names`. */
  ghost function Lossless(arr: seq<Value>, names: seq<string>, printer: Printer): Option<string> {
    if Covered(arr, names) && forall i :: 0 <= i < |arr| ==> arr[i].Object?
    then Some(OutputText(names, Table(arr, names, printer))) else None
  }

  method WriteOutput(arr: seq<Value>, names: seq<string>, printer: Printer) returns (out: string)
    ensures out == OutputText(names, Table(arr, names, printer))
  {
    out := WriteSchema(names);
    ghost var body := BodyText(Table(arr, names, printer));
    assert (SCHEMA + Joined(names)) + body == SCHEMA + (Joined(names) + body);
    out := WriteRows(out, arr, names, printer);
  }

  lemma LosslessDecodes(arr: seq<Value>, names: seq<string>, printer: Printer)
    requires names != []
    ensures var table := Table(arr, names, printer);
            var out := OutputText(names, table);
            && (DecodeOutput(out) == Some(Decoded(names, table)) <==> PlainNames(names))
            && |SCHEMA + Joined(names)| <= |out| && DecodeBody(out[|SCHEMA + Joined(names)|..]) == table
  {
    var table := Table(arr, names, printer);
    var out := OutputText(names, table);
    assert out[|SCHEMA + Joined(names)|..] == BodyText(table);
    BodyDecodes(table);
    OutputDecodesExactly(names, table);
  }

  /**
   The result is that of the only columns the array has; a reader recovers names and cell texts
   from it if and only if no name contains a comma or a newline, and the cell texts in any case if
   it knows the names.
   */
  method TryLosslessCsv(arr: seq<Value>, printer: Printer) returns (r: Option<string>, names: seq<string>)
    ensures FieldNames(arr, names) && r == Lossless(arr, names, printer)
    ensures r.Some? ==>
              (DecodeOutput(r.value) == Some(Decoded(names, Table(arr, names, printer))) <==> PlainNames(names))
    ensures r.Some? ==> DecodeBody(r.value[|SCHEMA + Joined(names)|..]) == Table(arr, names, printer)
  {
    names := AllFields(arr);
    if !Covered(arr, names) || exists i :: 0 <= i < |arr| && !arr[i].Object? {
      return None, names;
    }
    var out := WriteOutput(arr, names, printer);
    LosslessDecodes(arr, names, printer);
    return Some(out), names;
  }

  // ------------------------------------------------------------ the failing case

  function Pair(k: string, v: string, k': string, v': string): Value {
    Object(map[k := String(v), k' := String(v')])
  }

  lemma PairTable(k: string, v: string, k': string, v': string, printer: Printer)
    requires LexLess(k, k')
    ensures FieldNames([Pair(k, v, k', v')], [k, k'])
    ensures Lossless([Pair(k, v, k', v')], [k, k'], printer) == Some(OutputText([k, k'], [[v, v']]))
  {
    var item, names := Pair(k, v, k', v'), [k, k'];
    LexAsymmetric(k, k');
    assert [item][..0] == [] && AllKeys([item]) == {} + item.fields.Keys;
    assert names[..1] == [k] && [k][..0] == [];
    assert PresentCount(item, []) == 0 && PresentCount(item, [k]) == 1;
    assert Get(item, k').Some? && names[1] == k';
    assert PresentCount(item, names) == PresentCount(item, names[..1]) + 1;
    assert CoveredCount([item], names) == 1;
    assert Row(item, [k], printer) == [] + [v] && Row(item, names, printer) == [v] + [v'] == [v, v'];
    assert Table([], names, printer) == [];
    assert Table([item], names, printer) == Table([], names, printer) + [Row(item, names, printer)];
  }

  /**
   Two different tables with the same output, for all cell texts: the columns `a,b` and `c`, and
   the columns `a` and `b,c`.
   */
  lemma NamesRunTogether(x: string, y: string, printer: Printer)
    ensures var a, b := [Pair("a,b", x, "c", y)], [Pair("a", x, "b,c", y)];
            forall p, q :: FieldNames(a, p) && FieldNames(b, q) ==>
              p != q && Lossless(a, p, printer).Some? && Lossless(a, p, printer) == Lossless(b, q, printer)
  {
    var a, b := [Pair("a,b", x, "c", y)], [Pair("a", x, "b,c", y)];
    PairTable("a,b", x, "c", y, printer);
    PairTable("a", x, "b,c", y, printer);
    forall p, q | FieldNames(a, p) && FieldNames(b, q) ensures p == ["a,b", "c"] && q == ["a", "b,c"] {
      OrderedIsUnique(p, ["a,b", "c"]);
      OrderedIsUnique(q, ["a", "b,c"]);
    }
    SameSchema();
  }

  lemma SameSchema()
    ensures Joined(["a,b", "c"]) == Joined(["a", "b,c"])
  {
    assert ["a,b", "c"][..1] == ["a,b"] && ["a", "b,c"][..1] == ["a"];
    assert Joined(["a,b", "c"]) == "a,b" + (",") + "c" == "a,b,c";
    assert Joined(["a", "b,c"]) == "a" + ([','] + "b,c") == "a,b,c";
  }

  /** Objects with one field `k`, and the table they make. */
  function Singles(k: string, vs: seq<string>): (arr: seq<Value>)
    ensures |arr| == |vs|
  {
    if vs == [] then [] else Singles(k, vs[..|vs| - 1]) + [Object(map[k := String(vs[|vs| - 1])])]
  }

  function Column(vs: seq<string>): seq<seq<string>> {
    if vs == [] then [] else Column(vs[..|vs| - 1]) + [[vs[|vs| - 1]]]
  }

  lemma SingleHas(k: string, v: string, printer: Printer)
    ensures var item := Object(map[k := String(v)]);
            PresentCount(item, [k]) == 1 && Row(item, [k], printer) == [v]
  {
    var item := Object(map[k := String(v)]);
    assert [k][..0] == [] && PresentCount(item, []) == 0;
    assert Row(item, [], printer) == [] && Row(item, [k], printer) == [] + [v];
  }

  lemma {:induction false} SinglesKeys(k: string, vs: seq<string>)
    ensures AllKeys(Singles(k, vs)) == if vs == [] then {} else {k}
    ensures forall i :: 0 <= i < |vs| ==> Singles(k, vs)[i].Object?
  {
    if vs != [] { SinglesKeys(k, vs[..|vs| - 1]); }
  }

  lemma {:induction false} SinglesCovered(k: string, vs: seq<string>, printer: Printer)
    ensures CoveredCount(Singles(k, vs), [k]) == |vs|
  {
    if vs != [] {
      var arr := Singles(k, vs[..|vs| - 1]);
      SinglesCovered(k, vs[..|vs| - 1], printer);
      SingleHas(k, vs[|vs| - 1], printer);
      assert Singles(k, vs)[..|arr|] == arr;
    }
  }

  lemma {:induction false} SinglesRows(k: string, vs: seq<string>, printer: Printer)
    ensures Table(Singles(k, vs), [k], printer) == Column(vs)
  {
    if vs != [] {
      var arr := Singles(k, vs[..|vs| - 1]);
      SinglesRows(k, vs[..|vs| - 1], printer);
      SingleHas(k, vs[|vs| - 1], printer);
      assert Singles(k, vs)[..|arr|] == arr;
    }
  }

  lemma SinglesTable(k: string, vs: seq<string>, printer: Printer)
    requires vs != []
    ensures FieldNames(Singles(k, vs), [k])
    ensures Lossless(Singles(k, vs), [k], printer) == Some(OutputText([k], Column(vs)))
  {
    SinglesKeys(k, vs);
    SinglesCovered(k, vs, printer);
    SinglesRows(k, vs, printer);
  }

  /**
   The same for newlines, for all names and cell texts: two rows under the column `k`, and one row
   under a column whose name is `k`, a newline and the first row.
   */
  lemma RowsRunTogether(k: string, x: string, y: string, printer: Printer)
    ensures var a, b := Singles(k, [x, y]), Singles(k + (['\n'] + Escaped(x)), [y]);
            forall p, q :: FieldNames(a, p) && FieldNames(b, q) ==>
              p != q && Lossless(a, p, printer).Some? && Lossless(a, p, printer) == Lossless(b, q, printer)
  {
    var k' := k + (['\n'] + Escaped(x));
    var a, b := Singles(k, [x, y]), Singles(k', [y]);
    SinglesTable(k, [x, y], printer);
    SinglesTable(k', [y], printer);
    forall p, q | FieldNames(a, p) && FieldNames(b, q) ensures p == [k] && q == [k'] {
      OrderedIsUnique(p, [k]);
      OrderedIsUnique(q, [k']);
    }
    assert |k'| > |k|;
    SameRows(k, x, y);
  }

  lemma SameRows(k: string, x: string, y: string)
    ensures OutputText([k], Column([x, y])) == OutputText([k + (['\n'] + Escaped(x))], Column([y]))
  {
    assert [x, y][..1] == [x] && [x][..0] == [] && [y][..0] == [];
    assert Column([x]) == [] + [[x]] == [[x]] && Column([y]) == [] + [[y]] == [[y]];
    assert Column([x, y]) == [[x]] + [[y]];
    BodySnoc([], [x]);
    BodySnoc([[x]], [y]);
    BodySnoc([], [y]);
    assert [] + [[x]] == [[x]] && [] + [[y]] == [[y]];
    var ex, ey := ['\n'] + Escaped(x), ['\n'] + Escaped(y);
    assert BodyText([[x]]) == "" + ex == ex && BodyText([[y]]) == "" + ey == ey;
    assert k + (ex + ey) == (k + ex) + ey;
  }
}
