/**
 The canonical key under which repeated warnings are merged: everything up to the first `:` or
 `=` verbatim, then the rest with hex literals, digit runs and paths replaced by `*`.
 */
module DedupKey {
  import opened Common

  predicate IsDigit(c: char) {
    '0' <= c <= '9'
  }

  predicate IsHexDigit(c: char) {
    IsDigit(c) || 'a' <= c <= 'f' || 'A' <= c <= 'F'
  }

  predicate IsPathChar(c: char) {
    IsDigit(c) || 'a' <= c <= 'z' || 'A' <= c <= 'Z' || c == '/' || c == '.' || c == '_' || c == '-'
  }

  // ------------------------------------------------------------ runs at the start of a text

  /** How many leading characters satisfy `p`. */
  function Leading(s: string, p: char -> bool): (n: nat)
    ensures n <= |s| && (n < |s| ==> !p(s[n]))
    ensures forall i :: 0 <= i < n ==> p(s[i])
  {
    if s == "" || !p(s[0]) then 0 else 1 + Leading(s[1..], p)
  }

  function HexRun(s: string): (n: nat)
    ensures n <= |s|
  {
    if |s| >= 2 && s[0] == '0' && s[1] == 'x' && Leading(s[2..], IsHexDigit) > 0
    then 2 + Leading(s[2..], IsHexDigit) else 0
  }

  function DigitRun(s: string): (n: nat)
    ensures n <= |s|
  {
    Leading(s, IsDigit)
  }

  function PathRun(s: string): (n: nat)
    ensures n <= |s|
  {
    if s != "" && s[0] == '/' && Leading(s, IsPathChar) > 1 then Leading(s, IsPathChar) else 0
  }

  /** The run the scanners agree on: hex before digits before paths; zero if there is none. */
  function RunAt(s: string): (n: nat)
    ensures n <= |s|
  {
    if HexRun(s) > 0 then HexRun(s) else if DigitRun(s) > 0 then DigitRun(s) else PathRun(s)
  }

  function Normalized(s: string): string
    decreases |s|
  {
    if s == "" then ""
    else if RunAt(s) > 0 then ['*'] + Normalized(s[RunAt(s)..])
    else [s[0]] + Normalized(s[1..])
  }

  predicate NotSeparator(c: char) {
    c != ':' && c != '='
  }

  function FirstSeparator(s: string): (n: nat)
    ensures n <= |s|
  {
    Leading(s, NotSeparator)
  }

  function Key(line: string): string {
    var k := FirstSeparator(line);
    if k < |line| then line[..k + 1] + Normalized(line[k + 1..]) else Normalized(line)
  }

  // ------------------------------------------------------------ the scanners

  lemma {:induction false} LeadingIs(s: string, p: char -> bool, n: nat)
    requires n <= |s| && (forall i :: 0 <= i < n ==> p(s[i])) && (n < |s| ==> !p(s[n]))
    ensures Leading(s, p) == n
  {
    if n > 0 { LeadingIs(s[1..], p, n - 1); }
  }

  method ScanWhile(s: string, i: nat, p: char -> bool) returns (j: nat)
    requires i <= |s|
    ensures j == i + Leading(s[i..], p)
  {
    j := i;
    while j < |s| && p(s[j])
      invariant i <= j <= |s| && forall k :: i <= k < j ==> p(s[k])
    {
      j := j + 1;
    }
    LeadingIs(s[i..], p, j - i);
  }

  method ScanHexRun(s: string, i: nat) returns (r: Option<nat>)
    requires i < |s|
    ensures r == if HexRun(s[i..]) > 0 then Some(i + HexRun(s[i..])) else None
  {
    if s[i] == '0' && i + 1 < |s| && s[i + 1] == 'x' {
      var j := ScanWhile(s, i + 2, IsHexDigit);
      assert s[i..][2..] == s[i + 2..];
      if j > i + 2 {
        return Some(j);
      }
    }
    return None;
  }

  method ScanDigitRun(s: string, i: nat) returns (r: Option<nat>)
    requires i < |s|
    ensures r == if DigitRun(s[i..]) > 0 then Some(i + DigitRun(s[i..])) else None
  {
    if IsDigit(s[i]) {
      var j := ScanWhile(s, i, IsDigit);
      return Some(j);
    }
    return None;
  }

  method ScanPathRun(s: string, i: nat) returns (r: Option<nat>)
    requires i < |s|
    ensures r == if PathRun(s[i..]) > 0 then Some(i + PathRun(s[i..])) else None
  {
    if s[i] == '/' {
      var j := ScanWhile(s, i, IsPathChar);
      if j > i + 1 {
        return Some(j);
      }
    }
    return None;
  }

  method ScanRun(s: string, i: nat) returns (r: Option<nat>)
    requires i < |s|
    ensures r == if RunAt(s[i..]) > 0 then Some(i + RunAt(s[i..])) else None
  {
    r := ScanHexRun(s, i);
    if r.None? {
      r := ScanDigitRun(s, i);
    }
    if r.None? {
      r := ScanPathRun(s, i);
    }
  }

  /** `out` is the normal form of what precedes position `i`. */
  ghost predicate Pending(s: string, i: nat, out: string) {
    i <= |s| && out + Normalized(s[i..]) == Normalized(s)
  }

  lemma RunIsReplaced(s: string, i: nat, out: string, next: nat)
    requires Pending(s, i, out) && i < next == i + RunAt(s[i..]) && next <= |s|
    ensures Pending(s, next, out + ['*'])
  {
    var rest, n := s[i..], next - i;
    assert s[next..] == rest[n..];
    StarIsAppended(out, Normalized(rest[n..]));
  }

  lemma StarIsAppended(out: string, rest: string)
    ensures (out + ['*']) + rest == out + (['*'] + rest)
  {
  }

  lemma OtherIsCopied(s: string, i: nat, out: string)
    requires Pending(s, i, out) && i < |s| && RunAt(s[i..]) == 0
    ensures Pending(s, i + 1, out + [s[i]])
  {
    var rest := s[i..];
    assert s[i + 1..] == rest[1..];
    assert (out + [s[i]]) + Normalized(rest[1..]) == out + ([rest[0]] + Normalized(rest[1..]));
  }

  lemma PendingEnds(s: string, out: string)
    ensures Pending(s, 0, "")
    ensures Pending(s, |s|, out) ==> out == Normalized(s)
  {
    assert s[0..] == s && s[|s|..] == "";
  }

  method NormalizeTrailing(s: string) returns (out: string)
    ensures out == Normalized(s)
  {
    out := "";
    var i := 0;
    PendingEnds(s, "");
    while i < |s|
      invariant i <= |s| && Pending(s, i, out)
    {
      var next := ScanRun(s, i);
      if next.Some? {
        RunIsReplaced(s, i, out, next.value);
        out := out + ['*'];
        i := next.value;
      } else {
        OtherIsCopied(s, i, out);
        out := out + [s[i]];
        i := i + 1;
      }
    }
    PendingEnds(s, out);
  }

  // ------------------------------------------------------------ idempotence

  /** Nothing is left to replace: no digit, and no slash before a path character. */
  ghost predicate Settled(s: string) {
    forall i :: 0 <= i < |s| ==>
      !IsDigit(s[i]) && (s[i] == '/' ==> i + 1 == |s| || !IsPathChar(s[i + 1]))
  }

  lemma RunAtZero(s: string)
    requires s != "" && !IsDigit(s[0]) && (s[0] == '/' ==> |s| == 1 || !IsPathChar(s[1]))
    ensures RunAt(s) == 0
  {
    LeadingIs(s, IsDigit, 0);
    if s[0] == '/' { LeadingIs(s, IsPathChar, 1); }
  }

  lemma RunAtNonzero(s: string)
    requires s != "" && (IsDigit(s[0]) || (s[0] == '/' && |s| > 1 && IsPathChar(s[1])))
    ensures RunAt(s) > 0
  {
  }

  lemma {:induction false} NormalizedIsSettled(s: string)
    ensures Settled(Normalized(s))
    ensures s != "" && !IsPathChar(s[0]) ==> Normalized(s) != "" && Normalized(s)[0] == s[0]
    decreases |s|
  {
    if s != "" {
      var n := RunAt(s);
      if n > 0 {
        NormalizedIsSettled(s[n..]);
        if !IsPathChar(s[0]) { RunAtZero(s); }
      } else {
        if IsDigit(s[0]) || (s[0] == '/' && |s| > 1 && IsPathChar(s[1])) { RunAtNonzero(s); }
        NormalizedIsSettled(s[1..]);
      }
    }
  }

  lemma {:induction false} SettledIsFixed(s: string)
    requires Settled(s)
    ensures Normalized(s) == s
  {
    if s != "" {
      RunAtZero(s);
      SettledIsFixed(s[1..]);
      assert s == [s[0]] + s[1..];
    }
  }

  /** Normalising twice is normalising once, and leaves no digit. */
  lemma {:induction false} NormalizedIsIdempotent(s: string)
    ensures Normalized(Normalized(s)) == Normalized(s)
    ensures forall i :: 0 <= i < |Normalized(s)| ==> !IsDigit(Normalized(s)[i])
  {
    NormalizedIsSettled(s);
    SettledIsFixed(Normalized(s));
  }

  lemma {:induction false} NoNewCharacters(s: string, c: char)
    requires c !in s && c != '*'
    ensures c !in Normalized(s)
    decreases |s|
  {
    if s != "" {
      var n := RunAt(s);
      NoNewCharacters(if n > 0 then s[n..] else s[1..], c);
    }
  }

  /** The key of a key is the key itself, for every line. */
  lemma KeyIsIdempotent(line: string)
    ensures Key(Key(line)) == Key(line)
  {
    var k := FirstSeparator(line);
    if k < |line| {
      var prefix, rest := line[..k + 1], Normalized(line[k + 1..]);
      NormalizedIsIdempotent(line[k + 1..]);
      LeadingIs(prefix + rest, NotSeparator, k);
      assert FirstSeparator(Key(line)) == k;
      assert (prefix + rest)[..k + 1] == prefix && (prefix + rest)[k + 1..] == rest;
    } else {
      var t := Normalized(line);
      NoNewCharacters(line, ':');
      NoNewCharacters(line, '=');
      NormalizedIsIdempotent(line);
      LeadingIs(t, NotSeparator, |t|);
      assert FirstSeparator(Key(line)) == |t|;
    }
  }

  // ------------------------------------------------------------ what the key merges

  lemma LeadingStops(a: string, c: char, b: string, p: char -> bool)
    requires !p(c)
    ensures Leading(a + ([c] + b), p) == Leading(a, p)
  {
    LeadingIs(a + ([c] + b), p, Leading(a, p));
  }

  lemma RunStops(a: string, c: char, b: string)
    requires a != "" && !IsPathChar(c)
    ensures RunAt(a + ([c] + b)) == RunAt(a)
  {
    var s := a + ([c] + b);
    assert s[0] == a[0] && s[1] == (if |a| > 1 then a[1] else c);
    LeadingStops(a, c, b, IsDigit);
    LeadingStops(a, c, b, IsPathChar);
    if |a| >= 2 {
      assert s[2..] == a[2..] + ([c] + b);
      LeadingStops(a[2..], c, b, IsHexDigit);
    }
  }

  lemma Unfolded(s: string, run: nat, n: nat)
    requires s != "" && run == RunAt(s) && n == if run > 0 then run else 1
    ensures n <= |s| && Normalized(s) == [if run > 0 then '*' else s[0]] + Normalized(s[n..])
  {
  }

  lemma Regroup(x: char, a: string, b: string)
    ensures [x] + (a + b) == ([x] + a) + b
  {
  }

  /** A character that no run contains splits the text into two that are normalised apart. */
  lemma {:induction false} NormalizedSplits(a: string, c: char, b: string)
    requires !IsPathChar(c)
    ensures Normalized(a + ([c] + b)) == Normalized(a) + ([c] + Normalized(b))
    decreases |a|
  {
    var s := a + ([c] + b);
    if a == "" {
      assert s == [c] + b && s[1..] == b;
      RunAtZero(s);
    } else {
      var run := RunAt(a);
      var n := if run > 0 then run else 1;
      assert s[n..] == a[n..] + ([c] + b) && s[0] == a[0];
      NormalizedSplits(a[n..], c, b);
      RunStops(a, c, b);
      Unfolded(s, run, n);
      Unfolded(a, run, n);
      Regroup(if run > 0 then '*' else a[0], Normalized(a[n..]), [c] + Normalized(b));
    }
  }

  method DedupKeyOf(line: string) returns (key: string)
    ensures key == Key(line)
  {
    var k := FirstSeparator(line);
    if k < |line| {
      var rest := NormalizeTrailing(line[k + 1..]);
      key := line[..k + 1] + rest;
    } else {
      key := NormalizeTrailing(line);
    }
  }
}
