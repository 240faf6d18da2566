/**
 The whitespace pass of the lite compressor: one scan that trims trailing blanks and shortens
 newline runs, and the quick check that decides whether the scan is needed at all.
 */
module Whitespace {
  import opened TextLines

  predicate IsBlank(c: char) {
    c == ' ' || c == '\t'
  }

  // ------------------------------------------------------------ the two-stage specification

  /** Every newline that directly follows two newlines of the original is dropped. */
  function Cut(s: string): string {
    if s == "" then ""
    else
      var n := |s| - 1;
      Cut(s[..n]) + if EndsWithTwoNewlines(s[..n]) && s[n] == '\n' then "" else [s[n]]
  }

  predicate EndsWithTwoNewlines(s: string) {
    |s| >= 2 && s[|s| - 1] == '\n' && s[|s| - 2] == '\n'
  }

  function Split(s: string): (ls: seq<string>)
    ensures ls != []
  {
    if s == "" then [""]
    else
      var n := |s| - 1;
      var ls := Split(s[..n]);
      var k := |ls| - 1;
      if s[n] == '\n' then ls + [""] else ls[..k] + [ls[k] + [s[n]]]
  }

  function TrimEnd(s: string): (t: string)
    ensures t <= s && (t != "" ==> !IsBlank(t[|t| - 1]))
    ensures t == s <==> s == "" || !IsBlank(s[|s| - 1])
  {
    if s != "" && IsBlank(s[|s| - 1]) then TrimEnd(s[..|s| - 1]) else s
  }

  lemma {:induction false} TrimmedOffIsBlank(s: string)
    ensures forall i :: |TrimEnd(s)| <= i < |s| ==> IsBlank(s[i])
  {
    if s != "" && IsBlank(s[|s| - 1]) { TrimmedOffIsBlank(s[..|s| - 1]); }
  }

  /** Lines trimmed and each ended by a newline. */
  function Terminated(ls: seq<string>): string {
    if ls == [] then "" else Terminated(ls[..|ls| - 1]) + (TrimEnd(ls[|ls| - 1]) + "\n")
  }

  function Init(ls: seq<string>): seq<string>
    requires ls != []
  {
    ls[..|ls| - 1]
  }

  function Last(ls: seq<string>): string
    requires ls != []
  {
    ls[|ls| - 1]
  }

  /** Every line loses its trailing blanks. */
  function StripLines(s: string): string {
    Terminated(Init(Split(s))) + TrimEnd(Last(Split(s)))
  }

  /** Cut newline runs first, then strip the lines. */
  function Normalized(s: string): string {
    StripLines(Cut(s))
  }

  // ------------------------------------------------------------ the same, character by character

  /** The unfinished last line. */
  function Cur(s: string): string {
    if s == "" || s[|s| - 1] == '\n' then "" else Cur(s[..|s| - 1]) + [s[|s| - 1]]
  }

  /** The finished lines, trimmed. */
  function Done(s: string): string {
    if s == "" then ""
    else
      var t := s[..|s| - 1];
      if s[|s| - 1] == '\n' then Done(t) + (TrimEnd(Cur(t)) + "\n") else Done(t)
  }

  lemma Snoc(s: string, c: char)
    ensures Cur(s + [c]) == if c == '\n' then "" else Cur(s) + [c]
    ensures Done(s + [c]) == if c == '\n' then Done(s) + (TrimEnd(Cur(s)) + "\n") else Done(s)
    ensures Cut(s + [c]) == Cut(s) + if EndsWithTwoNewlines(s) && c == '\n' then "" else [c]
    ensures NewlineRun(s + [c]) == if c == '\n' then NewlineRun(s) + 1 else 0
    ensures Split(s + [c]) == if c == '\n' then Split(s) + [""] else Init(Split(s)) + [Last(Split(s)) + [c]]
  {
    assert (s + [c])[..|s|] == s;
  }

  lemma {:induction false} StripIsScan(s: string)
    ensures Done(s) == Terminated(Init(Split(s))) && Cur(s) == Last(Split(s))
  {
    if s != "" {
      var t, c := s[..|s| - 1], s[|s| - 1];
      assert s == t + [c];
      StripIsScan(t);
      Snoc(t, c);
      var ls := Split(t);
      assert ls == Init(ls) + [Last(ls)];
      assert Init(ls + [""]) == ls && Init(Init(ls) + [Last(ls) + [c]]) == Init(ls);
    }
  }

  // ------------------------------------------------------------ the one-pass scan

  lemma TrimStep(line: string, n: nat)
    requires 0 < n <= |line| && IsBlank(line[n - 1])
    ensures TrimEnd(line[..n]) == TrimEnd(line[..n - 1])
  {
    assert line[..n][..n - 1] == line[..n - 1];
  }

  method TrimTrailing(out: string, from: nat) returns (r: string)
    requires from <= |out|
    ensures r == out[..from] + TrimEnd(out[from..])
  {
    var end := |out|;
    ghost var line := out[from..];
    assert line[..|line|] == line;
    while end > from && IsBlank(out[end - 1])
      invariant from <= end <= |out| && TrimEnd(line[..end - from]) == TrimEnd(line)
    {
      TrimStep(line, end - from);
      end := end - 1;
    }
    r := out[..end];
    TrimmedIsPrefix(out, from, end);
  }

  lemma TrimmedIsPrefix(out: string, from: nat, end: nat)
    requires from <= end <= |out| && (end == from || !IsBlank(out[end - 1]))
    ensures out[..end] == out[..from] + TrimEnd(out[from..][..end - from])
  {
    var line := out[from..][..end - from];
    assert out[..end] == out[..from] + line;
    assert line != "" ==> line[|line| - 1] == out[end - 1];
  }

  /** How many newlines `s` ends with. */
  function NewlineRun(s: string): (n: nat)
    ensures n >= 2 <==> EndsWithTwoNewlines(s)
    ensures n >= 1 <==> s != "" && s[|s| - 1] == '\n'
  {
    if s != "" && s[|s| - 1] == '\n' then 1 + NewlineRun(s[..|s| - 1]) else 0
  }

  /** The scan's state after the original prefix `p`. */
  ghost predicate Scanned(p: string, out: string, newlineRun: nat, lineStart: nat) {
    && newlineRun == NewlineRun(p)
    && lineStart == |Done(Cut(p))|
    && out == Done(Cut(p)) + Cur(Cut(p))
  }

  lemma {:induction false} NoLineInProgress(p: string)
    requires NewlineRun(p) >= 1
    ensures Cur(Cut(p)) == ""
  {
    var t := p[..|p| - 1];
    if EndsWithTwoNewlines(t) {
      NoLineInProgress(t);
    } else {
      assert Cut(p) == Cut(t) + ['\n'];
    }
  }

  lemma ScanNewline(p: string, out: string, newlineRun: nat, lineStart: nat, trimmed: string)
    requires Scanned(p, out, newlineRun, lineStart) && newlineRun < 2
    requires trimmed == Done(Cut(p)) + (TrimEnd(Cur(Cut(p))) + "\n")
    ensures Scanned(p + ['\n'], trimmed, newlineRun + 1, |trimmed|)
  {
    CutNewline(p);
    LineSnoc(Cut(p), '\n');
    assert trimmed + "" == trimmed;
  }

  lemma CutNewline(p: string)
    ensures NewlineRun(p + ['\n']) == NewlineRun(p) + 1
    ensures Cut(p + ['\n']) == if NewlineRun(p) < 2 then Cut(p) + ['\n'] else Cut(p)
  {
    Snoc(p, '\n');
    assert Cut(p) + "" == Cut(p);
  }

  lemma ScanDropped(p: string, out: string, newlineRun: nat, lineStart: nat)
    requires Scanned(p, out, newlineRun, lineStart) && newlineRun >= 2
    ensures Scanned(p + ['\n'], out, newlineRun + 1, lineStart)
  {
    CutNewline(p);
  }

  lemma ScanOther(p: string, out: string, newlineRun: nat, lineStart: nat, c: char)
    requires Scanned(p, out, newlineRun, lineStart) && c != '\n'
    ensures Scanned(p + [c], out + [c], 0, lineStart)
    ensures newlineRun > 0 ==> lineStart == |out|
  {
    var x := Cut(p);
    assert Done(x) + (Cur(x) + [c]) == (Done(x) + Cur(x)) + [c];
    CutOther(p, c);
    DoneOther(x, c);
    if newlineRun > 0 {
      NoLineInProgress(p);
    }
  }

  lemma CutOther(p: string, c: char)
    requires c != '\n'
    ensures Cut(p + [c]) == Cut(p) + [c] && NewlineRun(p + [c]) == 0
  {
    Snoc(p, c);
  }

  lemma DoneOther(x: string, c: char)
    requires c != '\n'
    ensures Done(x + [c]) == Done(x) && Cur(x + [c]) == Cur(x) + [c]
  {
    Snoc(x, c);
  }

  lemma LineInProgress(p: string, out: string, newlineRun: nat, lineStart: nat)
    requires Scanned(p, out, newlineRun, lineStart)
    ensures lineStart <= |out| && out[..lineStart] == Done(Cut(p)) && out[lineStart..] == Cur(Cut(p))
  {
  }

  method EndLine(out: string, lineStart: nat) returns (r: string)
    requires lineStart <= |out|
    ensures r == out[..lineStart] + (TrimEnd(out[lineStart..]) + "\n")
  {
    var trimmed := TrimTrailing(out, lineStart);
    r := trimmed + "\n";
  }

  method ProcessChar(c: char, out: string, newlineRun: nat, lineStart: nat, ghost p: string)
      returns (out': string, newlineRun': nat, lineStart': nat)
    requires Scanned(p, out, newlineRun, lineStart)
    ensures Scanned(p + [c], out', newlineRun', lineStart')
  {
    LineInProgress(p, out, newlineRun, lineStart);
    if c == '\n' {
      newlineRun' := newlineRun + 1;
      out', lineStart' := out, lineStart;
      if newlineRun' <= 2 {
        out' := EndLine(out, lineStart);
        lineStart' := |out'|;
        ScanNewline(p, out, newlineRun, lineStart, out');
      } else {
        ScanDropped(p, out, newlineRun, lineStart);
      }
    } else {
      ScanOther(p, out, newlineRun, lineStart, c);
      newlineRun', lineStart' := newlineRun, lineStart;
      if newlineRun > 0 {
        newlineRun' := 0;
        lineStart' := |out|;
      }
      out' := out + [c];
    }
  }

  // ------------------------------------------------------------ the quick check

  ghost predicate NoTripleNewline(s: string) {
    forall i :: 2 <= i < |s| ==> !(s[i] == '\n' && s[i - 1] == '\n' && s[i - 2] == '\n')
  }

  /** No blank stands directly before a newline. */
  ghost predicate InnerTidy(s: string) {
    forall i, j :: 0 <= i < j < |s| && j == i + 1 && (s[i] == ' ' || s[i] == '\t') ==> s[j] != '\n'
  }

  predicate EndsBlank(s: string) {
    s != "" && (s[|s| - 1] == ' ' || s[|s| - 1] == '\t')
  }

  ghost predicate Tidy(s: string) {
    InnerTidy(s) && !EndsBlank(s)
  }

  lemma NoTripleSnoc(t: string, c: char)
    ensures NoTripleNewline(t + [c]) <==> NoTripleNewline(t) && !(EndsWithTwoNewlines(t) && c == '\n')
  {
    var s := t + [c];
    assert forall i :: 0 <= i < |t| ==> s[i] == t[i];
    assert s[|t|] == c;
    assert |t| >= 2 ==> s[|t| - 1] == t[|t| - 1] && s[|t| - 2] == t[|t| - 2];
  }

  /** Cutting either changes nothing or shortens, the latter exactly on a triple newline. */
  lemma {:induction false} CutIdentity(s: string)
    ensures if NoTripleNewline(s) then Cut(s) == s else |Cut(s)| < |s|
  {
    if s != "" {
      var t, c := s[..|s| - 1], s[|s| - 1];
      assert s == t + [c];
      CutIdentity(t);
      NoTripleSnoc(t, c);
      Snoc(t, c);
    }
  }

  lemma InnerTidySnoc(t: string, c: char)
    ensures InnerTidy(t + [c]) <==> InnerTidy(t) && !(EndsBlank(t) && c == '\n')
  {
    var s := t + [c];
    assert forall i :: 0 <= i < |t| ==> s[i] == t[i];
    if t != "" {
      assert s[|t| - 1] == t[|t| - 1] && s[|t|] == c;
    }
  }

  lemma CurEnd(s: string)
    ensures EndsBlank(s) <==> EndsBlank(Cur(s))
  {
  }

  /** Stripping finished lines changes nothing or shortens, the latter on a blank before a newline. */
  lemma {:induction false} DoneIdentity(s: string)
    ensures if InnerTidy(s) then Done(s) + Cur(s) == s else |Done(s) + Cur(s)| < |s|
  {
    if s != "" {
      var t, c := s[..|s| - 1], s[|s| - 1];
      assert s == t + [c];
      DoneIdentity(t);
      InnerTidySnoc(t, c);
      DoneStep(t, c);
    }
  }

  lemma DoneStep(t: string, c: char)
    ensures var before, after := Done(t) + Cur(t), Done(t + [c]) + Cur(t + [c]);
            if c == '\n' && EndsBlank(t) then |after| <= |before| else after == before + [c]
  {
    if c == '\n' {
      LineSnoc(t, c);
      CurEnd(t);
      assert (Done(t) + (TrimEnd(Cur(t)) + "\n")) + "" == (Done(t) + TrimEnd(Cur(t))) + "\n";
      assert EndsBlank(t) ==> |TrimEnd(Cur(t))| < |Cur(t)|;
    } else {
      DoneOther(t, c);
      assert Done(t) + (Cur(t) + [c]) == (Done(t) + Cur(t)) + [c];
    }
  }

  lemma LineSnoc(x: string, c: char)
    requires c == '\n'
    ensures Done(x + [c]) == Done(x) + (TrimEnd(Cur(x)) + "\n") && Cur(x + [c]) == ""
  {
    Snoc(x, c);
  }

  lemma StripIdentity(s: string)
    ensures if Tidy(s) then StripLines(s) == s else |StripLines(s)| < |s|
  {
    StripIsScan(s);
    DoneIdentity(s);
    CurEnd(s);
  }

  /** The result differs from the input exactly when a run is too long or a line ends in blanks. */
  lemma NormalizedIdentity(s: string)
    ensures Normalized(s) == s <==> NoTripleNewline(s) && Tidy(s)
  {
    CutIdentity(s);
    StripIdentity(Cut(s));
  }

  lemma PrefixMatters(s: string, i: nat)
    requires i <= |s|
    ensures NoTripleNewline(s) && Tidy(s) ==> NoTripleNewline(s[..i]) && InnerTidy(s[..i])
  {
    assert forall j :: 0 <= j < i ==> s[..i][j] == s[j];
  }

  ghost predicate QuickScanned(p: string, newlineRun: nat, trailing: bool) {
    && newlineRun == NewlineRun(p) && trailing == EndsBlank(p)
    && NoTripleNewline(p) && InnerTidy(p)
  }

  lemma QuickStep(p: string, c: char, newlineRun: nat, trailing: bool)
    requires QuickScanned(p, newlineRun, trailing)
    ensures if c != '\n' then QuickScanned(p + [c], 0, IsBlank(c))
            else if trailing || newlineRun >= 2 then !(NoTripleNewline(p + [c]) && InnerTidy(p + [c]))
            else QuickScanned(p + [c], newlineRun + 1, false)
  {
    NoTripleSnoc(p, c);
    InnerTidySnoc(p, c);
    EndSnoc(p, c);
  }

  lemma EndSnoc(p: string, c: char)
    ensures EndsBlank(p + [c]) <==> IsBlank(c)
    ensures NewlineRun(p + [c]) == if c == '\n' then NewlineRun(p) + 1 else 0
  {
    assert (p + [c])[..|p|] == p;
  }

  /** The quick check answers exactly whether the two-stage result differs from the input. */
  method NeedsNormalization(s: string) returns (needed: bool)
    ensures needed <==> Normalized(s) != s
  {
    NormalizedIdentity(s);
    var newlineRun: nat, trailing := 0, false;
    for i := 0 to |s|
      invariant QuickScanned(s[..i], newlineRun, trailing)
    {
      var c := s[i];
      assert s[..i + 1] == s[..i] + [c];
      QuickStep(s[..i], c, newlineRun, trailing);
      if c == '\n' {
        if trailing || newlineRun >= 2 {
          PrefixMatters(s, i + 1);
          return true;
        }
        newlineRun := newlineRun + 1;
      } else {
        newlineRun := 0;
        trailing := c == ' ' || c == '\t';
      }
    }
    assert s[..|s|] == s;
    return trailing;
  }

  /** Main result: the scan computes the two-stage form; the input is borrowed when it is that form. */
  method NormalizeMessageWhitespace(s: string) returns (out: string, borrowed: bool)
    ensures out == Normalized(s)
    ensures borrowed <==> out == s
  {
    var needed := NeedsNormalization(s);
    if !needed {
      return s, true;
    }
    out := "";
    var newlineRun: nat, lineStart: nat := 0, 0;
    for i := 0 to |s|
      invariant Scanned(s[..i], out, newlineRun, lineStart)
    {
      assert s[..i + 1] == s[..i] + [s[i]];
      out, newlineRun, lineStart := ProcessChar(s[i], out, newlineRun, lineStart, s[..i]);
    }
    assert s[..|s|] == s;
    assert out[..lineStart] == Done(Cut(s)) && out[lineStart..] == Cur(Cut(s));
    out := TrimTrailing(out, lineStart);
    StripIsScan(Cut(s));
    borrowed := false;
  }

  // ------------------------------------------------------------ the lines of the result

  function TrimAll(ls: seq<string>): (r: seq<string>)
    ensures |r| == |ls| && forall i :: 0 <= i < |ls| ==> r[i] == TrimEnd(ls[i])
  {
    if ls == [] then [] else TrimAll(ls[..|ls| - 1]) + [TrimEnd(ls[|ls| - 1])]
  }

  lemma {:induction false} SplitOneLine(x: string, u: string)
    requires NoNewline(u)
    ensures Split(x + u) == Init(Split(x)) + [Last(Split(x)) + u]
  {
    if u == "" {
      assert x + u == x && Last(Split(x)) + u == Last(Split(x));
      assert Split(x) == Init(Split(x)) + [Last(Split(x))];
    } else {
      var v, c := u[..|u| - 1], u[|u| - 1];
      assert x + u == (x + v) + [c];
      assert (Last(Split(x)) + v) + [c] == Last(Split(x)) + u;
      SplitOneLine(x, v);
      Snoc(x + v, c);
      assert Init(Init(Split(x)) + [Last(Split(x)) + v]) == Init(Split(x));
    }
  }

  lemma {:induction false} SplitTerminated(ls: seq<string>, u: string)
    requires (forall i :: 0 <= i < |ls| ==> NoNewline(ls[i])) && NoNewline(u)
    ensures Split(Terminated(ls) + u) == TrimAll(ls) + [u]
  {
    SplitOneLine(Terminated(ls), u);
    if ls == [] {
      assert Init([""]) == [] && "" + u == u;
    } else {
      var init, l := ls[..|ls| - 1], ls[|ls| - 1];
      var y := Terminated(init) + TrimEnd(l);
      assert Terminated(ls) == y + ['\n'];
      SplitTerminated(init, TrimEnd(l));
      Snoc(y, '\n');
      assert Init(Split(y) + [""]) == Split(y) && "" + u == u;
    }
  }

  lemma {:induction false} SplitIsOneLine(s: string)
    ensures forall i :: 0 <= i < |Split(s)| ==> NoNewline(Split(s)[i])
  {
    if s != "" { SplitIsOneLine(s[..|s| - 1]); }
  }

  /** The lines of the result are the trimmed lines of the cut text: none ends in a blank. */
  lemma ResultLines(s: string)
    ensures Split(Normalized(s)) == TrimAll(Split(Cut(s)))
    ensures forall i :: 0 <= i < |Split(Normalized(s))| ==> !EndsBlank(Split(Normalized(s))[i])
  {
    SplitIsOneLine(Cut(s));
    LinesAreTrimmed(Split(Cut(s)));
    TrimmedEnds(Split(Cut(s)), Split(Normalized(s)));
  }

  lemma TrimmedEnds(ls: seq<string>, ts: seq<string>)
    requires ts == TrimAll(ls)
    ensures forall i :: 0 <= i < |ts| ==> !EndsBlank(ts[i])
  {
    forall i | 0 <= i < |ts| ensures !EndsBlank(ts[i]) {
      assert ts[i] == TrimEnd(ls[i]);
    }
  }

  lemma LinesAreTrimmed(ls: seq<string>)
    requires ls != [] && forall i :: 0 <= i < |ls| ==> NoNewline(ls[i])
    ensures Split(Terminated(Init(ls)) + TrimEnd(Last(ls))) == TrimAll(ls)
  {
    TrimIsOneLine(Last(ls));
    SplitTerminated(Init(ls), TrimEnd(Last(ls)));
  }

  lemma TrimIsOneLine(l: string)
    requires NoNewline(l)
    ensures NoNewline(TrimEnd(l))
  {
    var t := TrimEnd(l);
    assert forall i :: 0 <= i < |t| ==> t[i] == l[i] && l[i] in l;
  }

  // ------------------------------------------------------------ what the two stages do

  function Newlines(n: nat): (s: string)
    ensures |s| == n && forall i :: 0 <= i < n ==> s[i] == '\n'
  {
    seq(n, _ => '\n')
  }

  lemma {:induction false} CutAfter(x: string, n: nat)
    requires x == "" || x[|x| - 1] != '\n'
    ensures Cut(x + Newlines(n)) == Cut(x) + Newlines(if n < 2 then n else 2)
  {
    if n == 0 {
      assert x + Newlines(0) == x;
    } else {
      var t := x + Newlines(n - 1);
      assert x + Newlines(n) == t + ['\n'];
      CutAfter(x, n - 1);
      CutSnoc(t, '\n');
      OneNewlineMore(Cut(x), n);
      assert EndsWithTwoNewlines(t) <==> n > 2;
    }
  }

  lemma CutSnoc(s: string, c: char)
    ensures Cut(s + [c]) == Cut(s) + if EndsWithTwoNewlines(s) && c == '\n' then "" else [c]
  {
    assert (s + [c])[..|s|] == s;
  }

  lemma OneNewlineMore(x: string, n: nat)
    requires n > 0
    ensures (x + Newlines(if n < 3 then n - 1 else 2)) + (if n > 2 then "" else ['\n'])
            == x + Newlines(if n < 2 then n else 2)
  {
  }

  /** What precedes a text that does not begin with a newline is of no account for its last character. */
  lemma SameEnd(a: string, z: string, c: char)
    requires (z + [c])[0] != '\n'
    ensures (EndsWithTwoNewlines(a + z) && c == '\n') == (EndsWithTwoNewlines(z) && c == '\n')
  {
    if |z| >= 2 {
      assert (a + z)[|a + z| - 1] == z[|z| - 1] && (a + z)[|a + z| - 2] == z[|z| - 2];
    } else if |z| == 1 {
      assert (a + z)[|a + z| - 1] == z[0];
    }
  }

  lemma Regroup(a: string, b: string, c: string)
    ensures (a + b) + c == a + (b + c)
  {
  }

  lemma {:induction false} CutBefore(a: string, y: string)
    requires y == "" || y[0] != '\n'
    ensures Cut(a + y) == Cut(a) + Cut(y)
  {
    if y == "" {
      assert a + y == a;
    } else {
      var z, c := y[..|y| - 1], y[|y| - 1];
      assert a + y == (a + z) + [c] && y == z + [c];
      CutBefore(a, z);
      CutSnoc(a + z, c);
      CutSnoc(z, c);
      SameEnd(a, z, c);
      Regroup(Cut(a), Cut(z), if EndsWithTwoNewlines(z) && c == '\n' then "" else [c]);
    }
  }

  /** A run of newlines between other characters is cut to two, wherever it stands. */
  lemma RunIsCut(x: string, n: nat, y: string)
    requires (x == "" || x[|x| - 1] != '\n') && (y == "" || y[0] != '\n')
    ensures Cut((x + Newlines(n)) + y) == (Cut(x) + Newlines(if n < 2 then n else 2)) + Cut(y)
  {
    CutAfter(x, n);
    CutBefore(x + Newlines(n), y);
  }

  /** A line loses the spaces and tabs at its end and nothing else. */
  lemma {:induction false} BlanksAreTrimmed(l: string, b: string)
    requires !EndsBlank(l) && AllBlank(b)
    ensures TrimEnd(l + b) == l
  {
    if b == "" {
      assert l + b == l;
    } else {
      var c := b[..|b| - 1];
      assert (l + b)[..|l + b| - 1] == l + c;
      BlanksAreTrimmed(l, c);
    }
  }

  // ------------------------------------------------------------ when the pass is idempotent

  predicate AllBlank(s: string) {
    forall i :: 0 <= i < |s| ==> s[i] == ' ' || s[i] == '\t'
  }

  /** Two empty lines in a row, neither the first nor the last. */
  ghost predicate TwoEmptyLines(ls: seq<string>) {
    exists j, k :: 1 <= j && k == j + 1 < |ls| - 1 && ls[j] == "" && ls[k] == ""
  }

  /** Two lines of nothing but blanks in a row, neither the first nor the last. */
  ghost predicate TwoBlankLines(ls: seq<string>) {
    exists j, k :: 1 <= j && k == j + 1 < |ls| - 1 && AllBlank(ls[j]) && AllBlank(ls[k])
  }

  lemma {:induction false} NewlinesAsLines(s: string)
    ensures var ls := Split(s);
            && (NewlineRun(s) >= 1 <==> |ls| >= 2 && Last(ls) == "")
            && (NewlineRun(s) >= 2 <==> |ls| >= 3 && Last(ls) == "" && ls[|ls| - 2] == "")
  {
    if s != "" {
      var t, c := s[..|s| - 1], s[|s| - 1];
      assert s == t + [c];
      NewlinesAsLines(t);
      Snoc(t, c);
    }
  }

  lemma EmptyLinesSnoc(ls: seq<string>, u: string)
    requires ls != []
    ensures TwoEmptyLines(ls + [""])
            <==> TwoEmptyLines(ls) || (|ls| >= 3 && Last(ls) == "" && ls[|ls| - 2] == "")
    ensures TwoEmptyLines(Init(ls) + [u]) <==> TwoEmptyLines(ls)
  {
    var more, other := ls + [""], Init(ls) + [u];
    assert forall j :: 0 <= j < |ls| ==> more[j] == ls[j];
    assert forall j :: 0 <= j < |ls| - 1 ==> other[j] == ls[j];
    if |ls| >= 3 && Last(ls) == "" && ls[|ls| - 2] == "" {
      assert more[|ls| - 2] == "" && more[|ls| - 1] == "";
    }
  }

  /** A triple newline is two empty inner lines in a row. */
  lemma {:induction false} TripleAsLines(s: string)
    ensures !NoTripleNewline(s) <==> TwoEmptyLines(Split(s))
  {
    if s != "" {
      var t, c := s[..|s| - 1], s[|s| - 1];
      assert s == t + [c];
      TripleAsLines(t);
      NoTripleSnoc(t, c);
      Snoc(t, c);
      NewlinesAsLines(t);
      EmptyLinesSnoc(Split(t), Last(Split(t)) + [c]);
    }
  }

  lemma BlankLinesBecomeEmpty(ls: seq<string>)
    ensures TwoEmptyLines(TrimAll(ls)) <==> TwoBlankLines(ls)
  {
    var ts := TrimAll(ls);
    forall i | 0 <= i < |ls| ensures ts[i] == "" <==> AllBlank(ls[i]) {
      assert ts[i] == TrimEnd(ls[i]);
      TrimmedOffIsBlank(ls[i]);
    }
  }

  lemma TidyConcat(a: string, b: string)
    requires Tidy(a) && Tidy(b)
    ensures Tidy(a + b)
  {
    var s := a + b;
    assert a != "" ==> s[|a| - 1] == a[|a| - 1];
    forall i, j | 0 <= i < j < |s| && j == i + 1 && IsBlank(s[i]) ensures s[j] != '\n' {
      if j < |a| {
        assert s[i] == a[i] && s[j] == a[j];
      } else if i >= |a| {
        assert s[i] == b[i - |a|] && s[j] == b[j - |a|];
      }
    }
    if b != "" {
      assert s[|s| - 1] == b[|b| - 1];
    } else {
      assert s == a;
    }
  }

  lemma {:induction false} CurIsOneLine(s: string)
    ensures NoNewline(Cur(s))
  {
    if s != "" { CurIsOneLine(s[..|s| - 1]); }
  }

  lemma TrimmedLineIsTidy(l: string)
    requires NoNewline(l)
    ensures Tidy(TrimEnd(l)) && Tidy(TrimEnd(l) + "\n")
  {
    var t := TrimEnd(l);
    assert forall i :: 0 <= i < |t| ==> t[i] == l[i] && l[i] in l;
    TidyConcat(t, "\n");
  }

  lemma {:induction false} DoneIsTidy(s: string)
    ensures Tidy(Done(s))
  {
    if s != "" {
      var t := s[..|s| - 1];
      DoneIsTidy(t);
      if s[|s| - 1] == '\n' {
        CurIsOneLine(t);
        TrimmedLineIsTidy(Cur(t));
        TidyConcat(Done(t), TrimEnd(Cur(t)) + "\n");
      }
    }
  }

  lemma StripIsTidy(s: string)
    ensures Tidy(StripLines(s))
  {
    StripIsScan(s);
    DoneIsTidy(s);
    CurIsOneLine(s);
    TrimmedLineIsTidy(Cur(s));
    TidyConcat(Done(s), TrimEnd(Cur(s)));
  }

  /**
   A second pass changes the result exactly when cutting newline runs leaves two all-blank inner
   lines in a row: trimming them makes a new run that the first pass no longer sees.
   */
  lemma IdempotentExactly(s: string)
    ensures Normalized(Normalized(s)) == Normalized(s) <==> !TwoBlankLines(Split(Cut(s)))
  {
    NormalizedIdentity(Normalized(s));
    StripIsTidy(Cut(s));
    TripleAsLines(Normalized(s));
    ResultLines(s);
    BlankLinesBecomeEmpty(Split(Cut(s)));
  }

  lemma SplitAfterNewline(s: string, u: string)
    requires NoNewline(u)
    ensures Split((s + ['\n']) + u) == Split(s) + [u]
  {
    Snoc(s, '\n');
    SplitOneLine(s + ['\n'], u);
    assert Init(Split(s) + [""]) == Split(s) && "" + u == u;
  }

  lemma SplitSingle(x: string)
    requires NoNewline(x)
    ensures Split(x) == [x]
  {
    SplitOneLine("", x);
    assert "" + x == x && Init(Split("")) == [];
  }

  lemma SplitWitness(x: string, y: string) returns (s: string)
    requires NoNewline(x) && NoNewline(y)
    ensures s == (((x + ['\n']) + " " + ['\n']) + "" + ['\n']) + y && Split(s) == [x, " ", "", y]
  {
    var s1 := (x + ['\n']) + " ";
    var s2 := (s1 + ['\n']) + "";
    s := (s2 + ['\n']) + y;
    SplitSingle(x);
    SplitAfterNewline(x, " ");
    SplitAfterNewline(s1, "");
    SplitAfterNewline(s2, y);
  }

  lemma NoTripleWitness(x: string, y: string)
    requires NoNewline(x) && NoNewline(y)
    ensures NoTripleNewline(x + "\n \n\n" + y)
  {
    var s, n := x + "\n \n\n" + y, |x|;
    assert forall i :: 0 <= i < n ==> s[i] == x[i] && x[i] in x;
    assert forall i :: n + 4 <= i < |s| ==> s[i] == y[i - n - 4] && y[i - n - 4] in y;
    assert s[n + 1] == ' ';
  }

  /** A whole family on which the pass is not idempotent. */
  lemma NotIdempotent(x: string, y: string)
    requires NoNewline(x) && NoNewline(y)
    ensures var s := x + "\n \n\n" + y; Normalized(Normalized(s)) != Normalized(s)
  {
    var s := SplitWitness(x, y);
    assert s == x + "\n \n\n" + y;
    NoTripleWitness(x, y);
    CutIdentity(s);
    assert AllBlank(Split(s)[1]) && AllBlank(Split(s)[2]);
    IdempotentExactly(s);
  }
}
