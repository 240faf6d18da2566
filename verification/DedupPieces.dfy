/**
 What the key of a warning means, with every character range spelled out: a text is read, in one way
 only, as literals, numbers, paths and single characters, and the first three become stars.
 */
module DedupPieces {
  import opened Common
  import opened DedupKey

  predicate Digit(c: char) {
    '0' <= c <= '9'
  }

  predicate HexDigit(c: char) {
    '0' <= c <= '9' || 'a' <= c <= 'f' || 'A' <= c <= 'F'
  }

  predicate PathChar(c: char) {
    '0' <= c <= '9' || 'a' <= c <= 'z' || 'A' <= c <= 'Z' || c == '/' || c == '.' || c == '_' || c == '-'
  }

  predicate All(s: string, p: char -> bool) {
    forall i :: 0 <= i < |s| ==> p(s[i])
  }

  // ------------------------------------------------------------ reading a text

  datatype Piece = Literal(digits: string) | Numeral(digits: string) | Path(text: string) | Single(c: char) {
    function Written(): string {
      match this
      case Literal(d) => ['0', 'x'] + d
      case Numeral(d) => d
      case Path(t) => t
      case Single(c) => [c]
    }

    function Replaced(): char {
      if Single? then c else '*'
    }

    /** The piece is of its kind and goes on as long as it can before `rest`. */
    predicate Reads(rest: string) {
      match this
      case Literal(d) => d != "" && All(d, HexDigit) && (rest == "" || !HexDigit(rest[0]))
      case Numeral(d) => d != "" && All(d, Digit) && (rest == "" || !Digit(rest[0]))
                         && !(d == "0" && |rest| > 1 && rest[0] == 'x' && HexDigit(rest[1]))
      case Path(t) => |t| > 1 && t[0] == '/' && All(t, PathChar) && (rest == "" || !PathChar(rest[0]))
      case Single(c) => !Digit(c) && !(c == '/' && rest != "" && PathChar(rest[0]))
    }
  }

  function Spelled(ps: seq<Piece>): string {
    if ps == [] then "" else ps[0].Written() + Spelled(ps[1..])
  }

  function Starred(ps: seq<Piece>): string {
    if ps == [] then "" else [ps[0].Replaced()] + Starred(ps[1..])
  }

  predicate Reading(ps: seq<Piece>) {
    ps != [] ==> ps[0].Reads(Spelled(ps[1..])) && Reading(ps[1..])
  }

  lemma LeadingPart(a: string, rest: string, p: char -> bool)
    requires All(a, p) && (rest == "" || !p(rest[0]))
    ensures Leading(a + rest, p) == |a|
  {
    LeadingIs(a + rest, p, |a|);
  }

  /** The length of a piece is the run that the scanners find, zero for a single character. */
  lemma PieceIsRun(p: Piece, rest: string)
    requires p.Reads(rest)
    ensures RunAt(p.Written() + rest) == if p.Single? then 0 else |p.Written()|
  {
    match p {
      case Literal(d) => LiteralIsRun(d, rest);
      case Numeral(d) => NumeralIsRun(d, rest);
      case Path(t) => PathIsRun(t, rest);
      case Single(c) => RunAtZero([c] + rest);
    }
  }

  lemma LiteralIsRun(d: string, rest: string)
    requires Literal(d).Reads(rest)
    ensures RunAt((['0', 'x'] + d) + rest) == 2 + |d|
  {
    var s := (['0', 'x'] + d) + rest;
    assert s[2..] == d + rest && s[0] == '0' && s[1] == 'x';
    LeadingPart(d, rest, IsHexDigit);
  }

  lemma NumeralIsRun(d: string, rest: string)
    requires Numeral(d).Reads(rest)
    ensures RunAt(d + rest) == |d|
  {
    LeadingPart(d, rest, IsDigit);
    NumeralIsNoLiteral(d, rest);
  }

  lemma PathIsRun(t: string, rest: string)
    requires Path(t).Reads(rest)
    ensures RunAt(t + rest) == |t|
  {
    assert (t + rest)[0] == '/';
    LeadingPart(t, rest, IsPathChar);
    LeadingIs(t + rest, IsDigit, 0);
  }

  lemma NumeralIsNoLiteral(d: string, rest: string)
    requires Numeral(d).Reads(rest)
    ensures HexRun(d + rest) == 0
  {
    var s := d + rest;
    if |s| >= 2 && s[0] == '0' && s[1] == 'x' {
      assert d == "0" && s[2..] == rest[1..];
      LeadingIs(s[2..], IsHexDigit, 0);
    }
  }

  /** Every reading of a text gives its normal form. */
  lemma {:induction false} ReadingIsNormalized(ps: seq<Piece>)
    requires Reading(ps)
    ensures Normalized(Spelled(ps)) == Starred(ps)
  {
    if ps != [] {
      var p, rest := ps[0], Spelled(ps[1..]);
      var s := p.Written() + rest;
      ReadingIsNormalized(ps[1..]);
      PieceIsRun(p, rest);
      Unfolded(s, RunAt(s), |p.Written()|);
      assert s[|p.Written()|..] == rest;
    }
  }

  /** And every text has one. */
  lemma {:induction false} SomeReading(s: string) returns (ps: seq<Piece>)
    ensures Reading(ps) && Spelled(ps) == s
    decreases |s|
  {
    if s == "" {
      ps := [];
    } else {
      var p, rest := FirstPiece(s);
      var qs := SomeReading(rest);
      ps := [p] + qs;
      assert ps[1..] == qs;
    }
  }

  lemma FirstPiece(s: string) returns (p: Piece, rest: string)
    requires s != ""
    ensures p.Reads(rest) && s == p.Written() + rest && |rest| < |s|
  {
    if |s| > 2 && s[0] == '0' && s[1] == 'x' && HexDigit(s[2]) {
      var n := 2 + Leading(s[2..], HexDigit);
      p, rest := Literal(s[2..n]), s[n..];
    } else if Digit(s[0]) {
      var n := Leading(s, Digit);
      p, rest := Numeral(s[..n]), s[n..];
    } else if |s| > 1 && s[0] == '/' && PathChar(s[1]) {
      var n := Leading(s, PathChar);
      p, rest := Path(s[..n]), s[n..];
    } else {
      p, rest := Single(s[0]), s[1..];
    }
  }

  /**
   Main result: the normal form of a text is what every reading of it gives, and there is one.
   */
  lemma NormalizedByReading(s: string, t: string)
    ensures Normalized(s) == t <==> exists ps :: Reading(ps) && Spelled(ps) == s && Starred(ps) == t
  {
    var ps := SomeReading(s);
    ReadingIsNormalized(ps);
    if qs :| Reading(qs) && Spelled(qs) == s && Starred(qs) == t {
      ReadingIsNormalized(qs);
    }
  }

  // ------------------------------------------------------------ what is merged

  /** A literal, a number or a path by itself. */
  predicate Replaceable(t: string) {
    || (|t| > 2 && t[0] == '0' && t[1] == 'x' && All(t[2..], HexDigit))
    || (t != "" && All(t, Digit))
    || (|t| > 1 && t[0] == '/' && All(t, PathChar))
  }

  lemma ReplaceableIsStar(t: string)
    requires Replaceable(t)
    ensures Normalized(t) == "*"
  {
    var p := if t != "" && All(t, Digit) then Numeral(t) else if t[0] == '/' then Path(t) else Literal(t[2..]);
    assert p.Written() == t && p.Written() + "" == t;
    PieceIsRun(p, "");
    Unfolded(t, |t|, |t|);
    assert t[|t|..] == "" && Normalized("") == "";
  }

  /**
   Texts that differ only in literals, numbers or paths between characters that no run contains,
   such as spaces or commas, are normalised alike, with a star in that place.
   */
  lemma ReplaceablesAreMerged(a: string, c: char, t: string, e: char, b: string)
    requires !PathChar(c) && !PathChar(e) && Replaceable(t)
    ensures Normalized(a + ([c] + (t + ([e] + b)))) == Normalized(a) + ([c] + ("*" + ([e] + Normalized(b))))
  {
    NormalizedSplits(a, c, t + ([e] + b));
    NormalizedSplits(t, e, b);
    ReplaceableIsStar(t);
  }

  lemma NumbersAreMerged(a: string, c: char, d: string, d': string, e: char, b: string)
    requires !PathChar(c) && !PathChar(e) && d != "" && d' != ""
    requires (forall i :: 0 <= i < |d| ==> '0' <= d[i] <= '9') && (forall i :: 0 <= i < |d'| ==> '0' <= d'[i] <= '9')
    ensures Normalized(a + ([c] + (d + ([e] + b)))) == Normalized(a + ([c] + (d' + ([e] + b))))
  {
    ReplaceablesAreMerged(a, c, d, e, b);
    ReplaceablesAreMerged(a, c, d', e, b);
  }

  lemma LiteralsAreMerged(a: string, c: char, d: string, d': string, e: char, b: string)
    requires !PathChar(c) && !PathChar(e) && d != "" && d' != ""
    requires forall i :: 0 <= i < |d| ==> '0' <= d[i] <= '9' || 'a' <= d[i] <= 'f' || 'A' <= d[i] <= 'F'
    requires forall i :: 0 <= i < |d'| ==> '0' <= d'[i] <= '9' || 'a' <= d'[i] <= 'f' || 'A' <= d'[i] <= 'F'
    ensures Normalized(a + ([c] + (("0x" + d) + ([e] + b)))) == Normalized(a + ([c] + (("0x" + d') + ([e] + b))))
  {
    assert ("0x" + d)[2..] == d && ("0x" + d')[2..] == d';
    ReplaceablesAreMerged(a, c, "0x" + d, e, b);
    ReplaceablesAreMerged(a, c, "0x" + d', e, b);
  }

  lemma PathsAreMerged(a: string, c: char, t: string, t': string, e: char, b: string)
    requires !PathChar(c) && !PathChar(e) && |t| > 1 && |t'| > 1 && t[0] == t'[0] == '/'
    requires forall i :: 0 <= i < |t| ==>
               '0' <= t[i] <= '9' || 'a' <= t[i] <= 'z' || 'A' <= t[i] <= 'Z' || t[i] in "/._-"
    requires forall i :: 0 <= i < |t'| ==>
               '0' <= t'[i] <= '9' || 'a' <= t'[i] <= 'z' || 'A' <= t'[i] <= 'Z' || t'[i] in "/._-"
    ensures Normalized(a + ([c] + (t + ([e] + b)))) == Normalized(a + ([c] + (t' + ([e] + b))))
  {
    ReplaceablesAreMerged(a, c, t, e, b);
    ReplaceablesAreMerged(a, c, t', e, b);
  }

  /** The prefix up to the first colon or equals sign stays, the rest is normalised. */
  lemma KeyAtSeparator(a: string, c: char, b: string)
    requires ':' !in a && '=' !in a && (c == ':' || c == '=')
    ensures Key(a + ([c] + b)) == a + ([c] + Normalized(b)) && Key(a) == Normalized(a)
  {
    SeparatorParts(a, c, b, Normalized(b));
    LeadingIs(a + ([c] + b), NotSeparator, |a|);
    LeadingIs(a, NotSeparator, |a|);
  }

  lemma SeparatorParts(a: string, c: char, b: string, n: string)
    ensures var line := a + ([c] + b);
            line[|a|] == c && line[..|a| + 1] == a + [c] && line[|a| + 1..] == b
    ensures (a + [c]) + n == a + ([c] + n)
  {
  }

  /** Warnings that differ only in a literal, number or path at their end have the same key. */
  lemma WarningsAreMerged(a: string, c: char, x: string, e: char, t: string, t': string)
    requires ':' !in a && '=' !in a && (c == ':' || c == '=') && !PathChar(e) && Replaceable(t) && Replaceable(t')
    ensures Key(a + ([c] + (x + ([e] + t)))) == Key(a + ([c] + (x + ([e] + t'))))
  {
    KeyAtSeparator(a, c, x + ([e] + t));
    KeyAtSeparator(a, c, x + ([e] + t'));
    NormalizedSplits(x, e, t);
    NormalizedSplits(x, e, t');
    ReplaceableIsStar(t);
    ReplaceableIsStar(t');
  }
}
