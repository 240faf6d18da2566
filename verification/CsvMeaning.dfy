/**
 The CSV form of an array in words: when it is written, what a reader finds in each of its cells,
 and which values a cell cannot tell apart.
 */
module CsvMeaning {
  import opened Common
  import opened Indices
  import opened JsonValue
  import opened Csv

  // ------------------------------------------------------------ cells

  /** `t` is what stands in the column `name` for `item`. */
  ghost predicate Shows(t: string, item: Value, name: string, printer: Printer) {
    if !item.Object? || name !in item.fields then t == ""
    else match item.fields[name]
      case Null => t == ""
      case Bool(true) => t == "true"
      case Bool(false) => t == "false"
      case Number(n) => t == n
      case String(s) => t == s
      case Array(_) => t == printer(item.fields[name])
      case Object(_) => t == printer(item.fields[name])
  }

  /** Row `i` and column `j` of the table hold what item `i` has under name `j`. */
  lemma TableShows(arr: seq<Value>, names: seq<string>, printer: Printer, i: nat, j: nat)
    requires i < |arr| && j < |names|
    ensures Shows(Table(arr, names, printer)[i][j], arr[i], names[j], printer)
  {
    RowAt(arr[i], names, printer, j);
  }

  /** A text is quoted exactly if it holds a comma, a quote, a line feed or a carriage return. */
  lemma QuotedExactly(s: string)
    ensures Escaped(s) == s <==> forall i :: 0 <= i < |s| ==> s[i] !in ",\"\n\r"
    ensures Escaped(s) != s ==> |Escaped(s)| >= |s| + 2 && Escaped(s)[0] == '"' && Escaped(s)[|Escaped(s)| - 1] == '"'
  {
    DoubledIsLonger(s);
    if NeedsQuotes(s) {
      var i :| 0 <= i < |s| && IsSpecial(s[i]);
      assert s[i] in ",\"\n\r";
    } else {
      assert forall i :: 0 <= i < |s| ==> !IsSpecial(s[i]);
    }
  }

  lemma {:induction false} DoubledIsLonger(s: string)
    ensures |Doubled(s)| >= |s|
  {
    if s != "" { DoubledIsLonger(s[..|s| - 1]); }
  }

  // ------------------------------------------------------------ what a cell cannot tell apart

  predicate IsNested(v: Option<Value>) {
    v.Some? && (v.value.Array? || v.value.Object?)
  }

  /** Missing, null, or an empty text. */
  predicate IsEmpty(v: Option<Value>) {
    match v
    case None => true
    case Some(Null) => true
    case Some(String(s)) => s == ""
    case Some(Number(n)) => n == ""
    case _ => false
  }

  /** A text that spells the other value. */
  predicate Spells(v: Option<Value>, w: Option<Value>) {
    && v.Some? && v.value.String? && w.Some?
    && match w.value
       case Bool(b) => v.value.s == if b then "true" else "false"
       case Number(n) => v.value.s == n
       case _ => false
  }

  /**
   Two fields without nested values look alike in the output exactly if they are the same, both
   empty, or one of them is a text that spells the other one.
   */
  lemma CellsAgreeExactly(v: Option<Value>, w: Option<Value>, printer: Printer)
    requires !IsNested(v) && !IsNested(w)
    ensures Escaped(CellText(v, printer)) == Escaped(CellText(w, printer))
            <==> v == w || (IsEmpty(v) && IsEmpty(w)) || Spells(v, w) || Spells(w, v)
  {
    EscapedIsInjective(CellText(v, printer), CellText(w, printer));
    WordsAreNoNumbers(v, w);
    WordsAreNoNumbers(w, v);
  }

  lemma EscapedIsInjective(s: string, t: string)
    ensures Escaped(s) == Escaped(t) <==> s == t
  {
    if Escaped(s) == Escaped(t) {
      CellDecodes(s, "");
      CellDecodes(t, "");
      assert Escaped(s) + "" == Escaped(t) + "";
    }
  }

  lemma WordsAreNoNumbers(v: Option<Value>, w: Option<Value>)
    ensures v.Some? && v.value.Bool? && w.Some? && w.value.Number? ==>
              w.value.n != "true" && w.value.n != "false"
    ensures "true" != "false" && "true" != "" && "false" != ""
  {
    assert "true"[0] == 't' && "false"[0] == 'f';
    if w.Some? && w.value.Number? && w.value.n != "" { assert IsNumberChar(w.value.n[0]); }
  }

  // ------------------------------------------------------------ when the form is written

  lemma {:induction false} KeysOfItems(arr: seq<Value>, k: string)
    ensures k in AllKeys(arr) <==> exists i :: 0 <= i < |arr| && arr[i].Object? && k in arr[i].fields
  {
    if arr != [] {
      var n := |arr| - 1;
      KeysOfItems(arr[..n], k);
      if i :| 0 <= i < |arr| && arr[i].Object? && k in arr[i].fields {
        assert i < n ==> arr[..n][i] == arr[i];
      }
      if j :| 0 <= j < n && arr[..n][j].Object? && k in arr[..n][j].fields {
        assert arr[j].Object? && k in arr[j].fields;
      }
    }
  }

  /** The items that have at least four fifths of all field names. */
  function WideItems(arr: seq<Value>, total: nat): set<nat> {
    set i: nat | i < |arr| && IsWide(arr[i], total)
  }

  predicate IsWide(item: Value, total: nat) {
    item.Object? && 5 * |item.fields.Keys| >= 4 * total
  }

  /** The names that are fields of the item. */
  function Present(item: Value, names: seq<string>): set<string> {
    set k | k in names && item.Object? && k in item.fields
  }

  lemma {:induction false} PresentIsCounted(item: Value, names: seq<string>)
    requires Ordered(names)
    ensures PresentCount(item, names) == |Present(item, names)|
  {
    if names == [] {
      assert Present(item, names) == {};
    } else {
      var n := |names| - 1;
      var init, last := names[..n], names[n];
      PresentIsCounted(item, init);
      LastIsNew(names);
      assert names == init + [last];
      OneMore(Present(item, init), Present(item, names), last, item.Object? && last in item.fields);
    }
  }

  lemma LastIsNew(names: seq<string>)
    requires names != [] && Ordered(names)
    ensures names[|names| - 1] !in names[..|names| - 1]
  {
    var n := |names| - 1;
    if names[n] in names[..n] {
      var i :| 0 <= i < n && names[i] == names[n];
      LexIrreflexive(names[n]);
    }
  }

  lemma {:induction false} NamesAreCounted(names: seq<string>)
    requires Ordered(names)
    ensures |set k | k in names| == |names|
  {
    forall i, j | 0 <= i < j < |names| ensures names[i] != names[j] {
      LexIrreflexive(names[i]);
    }
    DistinctSize(names);
    assert Elements(names) == set k | k in names;
  }

  /** All fields of an item are among the columns. */
  lemma PresentIsAll(arr: seq<Value>, names: seq<string>, i: nat)
    requires FieldNames(arr, names) && i < |arr| && arr[i].Object?
    ensures PresentCount(arr[i], names) == |arr[i].fields.Keys|
  {
    PresentIsCounted(arr[i], names);
    forall k | k in arr[i].fields ensures k in names {
      KeysOfItems(arr, k);
    }
    assert Present(arr[i], names) == arr[i].fields.Keys;
  }

  lemma {:induction false} WideAreCounted(arr: seq<Value>, names: seq<string>, n: nat)
    requires FieldNames(arr, names) && names != [] && n <= |arr|
    ensures CoveredCount(arr[..n], names) == |WideItems(arr[..n], |names|)|
  {
    if n == 0 {
      assert WideItems(arr[..0], |names|) == {};
    } else {
      WideAreCounted(arr, names, n - 1);
      assert arr[..n][..n - 1] == arr[..n - 1];
      if arr[n - 1].Object? { PresentIsAll(arr, names, n - 1); }
      OneMore(WideItems(arr[..n - 1], |names|), WideItems(arr[..n], |names|), n - 1, IsWide(arr[n - 1], |names|));
    }
  }

  /**
   The form is written exactly for arrays of objects that have a field, when at least four fifths
   of the objects have at least four fifths of all field names.
   */
  lemma WrittenExactly(arr: seq<Value>, names: seq<string>, printer: Printer)
    requires FieldNames(arr, names)
    ensures Lossless(arr, names, printer).Some? <==>
              AreObjects(arr) && AllKeys(arr) != {} && 5 * |WideItems(arr, |AllKeys(arr)|)| >= 4 * |arr|
  {
    CoveredExactly(arr, names);
    WrittenIfCovered(arr, names, printer, Lossless(arr, names, printer), Covered(arr, names));
  }

  predicate AreObjects(arr: seq<Value>) {
    forall i :: 0 <= i < |arr| ==> arr[i].Object?
  }

  lemma WrittenIfCovered(arr: seq<Value>, names: seq<string>, printer: Printer, r: Option<string>, covered: bool)
    requires r == Lossless(arr, names, printer) && covered == Covered(arr, names)
    ensures r.Some? <==> covered && AreObjects(arr)
  {
  }

  lemma CoveredExactly(arr: seq<Value>, names: seq<string>)
    requires FieldNames(arr, names)
    ensures Covered(arr, names) <==> AllKeys(arr) != {} && 5 * |WideItems(arr, |AllKeys(arr)|)| >= 4 * |arr|
  {
    ColumnsAreKeys(arr, names);
    if names != [] {
      WideAreCounted(arr, names, |arr|);
      assert arr[..|arr|] == arr;
      assert arr != [] by { assert names[0] in AllKeys(arr); }
    }
  }

  lemma ColumnsAreKeys(arr: seq<Value>, names: seq<string>)
    requires FieldNames(arr, names)
    ensures |AllKeys(arr)| == |names| && (AllKeys(arr) == {} <==> names == [])
  {
    NamesAreCounted(names);
    assert AllKeys(arr) == set k | k in names;
  }

  /** The output begins with the schema line. */
  lemma SchemaComesFirst(arr: seq<Value>, names: seq<string>, printer: Printer)
    requires Lossless(arr, names, printer).Some?
    ensures ("#schema:" + Joined(names)) <= Lossless(arr, names, printer).value
  {
    var body := BodyText(Table(arr, names, printer));
    assert SCHEMA + (Joined(names) + body) == (SCHEMA + Joined(names)) + body;
  }
}
