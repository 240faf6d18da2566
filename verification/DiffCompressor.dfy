/**
 The diff compressor end to end: text in, possibly shorter text out, and what the output keeps.
 Text is the UTF-8 byte string of the message, one byte per character.
 */
module DiffCompressor {
  import opened Common
  import opened DiffContext
  import opened DiffParser
  import opened DiffRender
  import opened TextLines

  // ------------------------------------------------------------ lines of a text

  /** Lines end at a line feed, with one carriage return before it dropped; no empty last line. */
  function Lines(s: string): seq<string>
    decreases |s|
  {
    if s == "" then []
    else
      var i := FirstNewline(s);
      if i == |s| then [s]
      else [if i > 0 && s[i - 1] == '\r' then s[..i - 1] else s[..i]] + Lines(s[i + 1..])
  }

  predicate IsGitDiff(lines: seq<string>, isStrictHunk: LinePredicate) {
    exists i :: 0 <= i < Min(10, |lines|) && (IsFileHeader(lines[i]) || isStrictHunk(lines[i]))
  }

  function Banner(n: nat): OutLine {
    Note("[#diff_compressed: was " + Decimal(n) + " lines]")
  }

  // ------------------------------------------------------------ subsequences

  ghost predicate Subsequence(a: seq<string>, b: seq<string>) {
    a == [] ||
    (b != [] &&
     var m, n := |a| - 1, |b| - 1;
     (a[m] == b[n] && Subsequence(a[..m], b[..n])) || Subsequence(a, b[..n]))
  }

  lemma {:induction false} SubsequenceConcat(a: seq<string>, b: seq<string>, c: seq<string>, d: seq<string>)
    requires Subsequence(a, b) && Subsequence(c, d)
    ensures Subsequence(a + c, b + d)
    decreases |d|
  {
    if d == [] {
      assert a + c == a && b + d == b;
    } else {
      var e, y := d[..|d| - 1], d[|d| - 1];
      assert b + d == (b + e) + [y];
      if Subsequence(c, e) {
        SubsequenceConcat(a, b, c, e);
        SubsequenceSkip(a + c, b + e, y);
      } else {
        var x := c[..|c| - 1];
        SubsequenceConcat(a, b, x, e);
        assert a + c == (a + x) + [y];
        SubsequenceTake(a + x, b + e, y);
      }
    }
  }

  lemma SubsequenceSkip(a: seq<string>, b: seq<string>, y: string)
    requires Subsequence(a, b)
    ensures Subsequence(a, b + [y])
  {
    assert (b + [y])[..|b|] == b;
  }

  lemma SubsequenceTake(a: seq<string>, b: seq<string>, y: string)
    requires Subsequence(a, b)
    ensures Subsequence(a + [y], b + [y])
  {
    assert (a + [y])[..|a|] == a && (b + [y])[..|b|] == b;
  }

  lemma {:induction false} SubsequenceSelf(a: seq<string>)
    ensures Subsequence(a, a)
  {
    if a != [] { SubsequenceSelf(a[..|a| - 1]); }
  }

  // ------------------------------------------------------------ the output, notes aside

  function FromInput(ls: seq<OutLine>): seq<string> {
    if ls == [] then []
    else
      var n := |ls| - 1;
      FromInput(ls[..n]) + if ls[n].Input? then [ls[n].text] else []
  }

  lemma {:induction false} FromInputAppend(a: seq<OutLine>, b: seq<OutLine>)
    ensures FromInput(a + b) == FromInput(a) + FromInput(b)
  {
    if b == [] {
      assert a + b == a;
    } else {
      var n := |b| - 1;
      assert (a + b)[..|a + b| - 1] == a + b[..n];
      FromInputAppend(a, b[..n]);
    }
  }

  lemma {:induction false} FromInputs(ls: seq<string>)
    ensures FromInput(Inputs(ls)) == ls
  {
    if ls != [] {
      var init, l := ls[..|ls| - 1], ls[|ls| - 1];
      FromInputs(init);
      var kept := Inputs(init);
      assert (kept + [Input(l)])[..|kept|] == kept && init + [l] == ls;
    }
  }

  /** Notes aside, the output lines `ls` form a subsequence of `lines`. */
  ghost predicate Follows(ls: seq<OutLine>, lines: seq<string>) {
    Subsequence(FromInput(ls), lines)
  }

  lemma FollowsConcat(a: seq<OutLine>, x: seq<string>, b: seq<OutLine>, y: seq<string>)
    requires Follows(a, x) && Follows(b, y)
    ensures Follows(a + b, x + y)
  {
    FromInputAppend(a, b);
    SubsequenceConcat(FromInput(a), x, FromInput(b), y);
  }

  lemma FollowsInputs(ls: seq<string>)
    ensures Follows(Inputs(ls), ls)
  {
    FromInputs(ls);
    SubsequenceSelf(ls);
  }

  lemma FollowsLine(t: string)
    ensures Follows([Input(t)], [t])
  {
    FollowsInputs([t]);
    InputsSnoc([], t);
    assert [] + [t] == [t] && [] + [Input(t)] == [Input(t)];
  }

  lemma FollowsNote(note: OutLine)
    requires note.Note?
    ensures Follows([note], [])
  {
    assert [note][..0] == [];
  }

  lemma {:induction false} KeptLinesFollow(lines: seq<DiffLine>, n: nat)
    requires n <= |lines|
    ensures Follows(KeptLines(lines, n), Texts(lines[..n]))
  {
    if n > 0 {
      KeptLinesFollow(lines, n - 1);
      var t := lines[n - 1].text;
      TextsPrefix(lines, n);
      FollowsLine(t);
      FollowsConcat(KeptLines(lines, n - 1), Texts(lines[..n - 1]),
                    if NearChange(lines, n - 1) then [Input(t)] else [], [t]);
    }
  }

  lemma KeptHunkFollows(h: Hunk)
    ensures Follows(KeptHunk(h), HunkLines(h))
  {
    KeptLinesFollow(h.lines, |h.lines|);
    assert h.lines[..|h.lines|] == h.lines;
    FollowsLine(h.header);
    FollowsConcat([Input(h.header)], [h.header], KeptLines(h.lines, |h.lines|), Texts(h.lines));
  }

  lemma {:induction false} KeptHunksFollow(hunks: seq<Hunk>, n: nat)
    requires n <= |hunks|
    ensures Follows(KeptHunks(hunks, n), HunksLines(hunks[..n]))
  {
    if n > 0 {
      KeptHunksFollow(hunks, n - 1);
      var h := hunks[n - 1];
      KeptHunkFollows(h);
      assert hunks[..n] == hunks[..n - 1] + [h];
      HunksLinesAppend(hunks[..n - 1], h);
      FollowsConcat(KeptHunks(hunks, n - 1), HunksLines(hunks[..n - 1]),
                    if HunkKept(hunks, n - 1) then KeptHunk(h) else [], HunkLines(h));
    }
  }

  lemma HunkNoteFollows(hunks: seq<Hunk>)
    ensures Follows(HunkNote(hunks), [])
  {
    if HunkNote(hunks) != [] {
      FollowsNote(HunkNote(hunks)[0]);
    }
  }

  lemma FileNoteFollows(files: seq<DiffFile>)
    ensures Follows(FileNote(files), [])
  {
    if FileNote(files) != [] {
      FollowsNote(FileNote(files)[0]);
    }
  }

  lemma KeptFileFollows(f: DiffFile)
    ensures Follows(KeptFile(f), FileLines(f))
  {
    var kept := KeptHunks(f.hunks, |f.hunks|);
    var hunkLines := HunksLines(f.hunks);
    KeptHunksFollow(f.hunks, |f.hunks|);
    assert f.hunks[..|f.hunks|] == f.hunks && hunkLines + [] == hunkLines;
    HunkNoteFollows(f.hunks);
    FollowsConcat(kept, hunkLines, HunkNote(f.hunks), []);
    FollowsInputs(f.metadata);
    FollowsConcat(Inputs(f.metadata), f.metadata, kept + HunkNote(f.hunks), hunkLines);
    FollowsInputs(HeaderLines(f));
    FollowsConcat(Inputs(HeaderLines(f)), HeaderLines(f),
                  Inputs(f.metadata) + (kept + HunkNote(f.hunks)), f.metadata + hunkLines);
  }

  /** If every part follows its lines, the concatenation of the parts follows that of the lines. */
  lemma {:induction false} PartsFollow(
    totals: seq<seq<OutLine>>, parts: seq<seq<OutLine>>, sums: seq<seq<string>>, lines: seq<seq<string>>, n: nat)
    requires n <= |parts| == |lines| && Accumulates(totals, parts) && Accumulates(sums, lines)
    requires forall i :: 0 <= i < |parts| ==> Follows(parts[i], lines[i])
    ensures Follows(totals[n], sums[n])
  {
    if n > 0 {
      PartsFollow(totals, parts, sums, lines, n - 1);
      FollowsConcat(totals[n - 1], sums[n - 1], parts[n - 1], lines[n - 1]);
      assert totals[n] == totals[n - 1] + parts[n - 1] && sums[n] == sums[n - 1] + lines[n - 1];
    }
  }

  lemma {:induction false} FileOutputs(files: seq<DiffFile>, n: nat)
      returns (totals: seq<seq<OutLine>>, parts: seq<seq<OutLine>>)
    requires n <= |files|
    ensures Accumulates(totals, parts) && |parts| == n && totals[n] == KeptFiles(files, n)
    ensures forall i :: 0 <= i < n ==> parts[i] == KeptFile(files[i])
  {
    if n == 0 {
      totals, parts := [[]], [];
    } else {
      totals, parts := FileOutputs(files, n - 1);
      AccumulatesMore(totals, parts, KeptFiles(files, n), KeptFile(files[n - 1]));
      totals, parts := totals + [KeptFiles(files, n)], parts + [KeptFile(files[n - 1])];
    }
  }

  lemma {:induction false} FileSources(files: seq<DiffFile>, n: nat)
      returns (sums: seq<seq<string>>, lines: seq<seq<string>>)
    requires n <= |files|
    ensures Accumulates(sums, lines) && |lines| == n && sums[n] == Flatten(files[..n])
    ensures forall i :: 0 <= i < n ==> lines[i] == FileLines(files[i])
  {
    if n == 0 {
      sums, lines := [[]], [];
    } else {
      sums, lines := FileSources(files, n - 1);
      PrefixGrowsBy(files, n - 1);
      FlattenAppend(files[..n - 1], files[n - 1]);
      AccumulatesMore(sums, lines, Flatten(files[..n]), FileLines(files[n - 1]));
      sums, lines := sums + [Flatten(files[..n])], lines + [FileLines(files[n - 1])];
    }
  }

  lemma KeptFilesFollow(files: seq<DiffFile>, n: nat)
    requires n <= |files|
    ensures Follows(KeptFiles(files, n), Flatten(files[..n]))
  {
    var totals, parts := FileOutputs(files, n);
    var sums, lines := FileSources(files, n);
    forall i | 0 <= i < n ensures Follows(parts[i], lines[i]) {
      KeptFileFollows(files[i]);
    }
    PartsFollow(totals, parts, sums, lines, n);
  }

  lemma {:induction false} FlattenPrefix(files: seq<DiffFile>, n: nat, ls: seq<OutLine>)
    requires n <= |files| && Follows(ls, Flatten(files[..n]))
    ensures Follows(ls, Flatten(files))
    decreases |files| - n
  {
    if n == |files| {
      assert files[..n] == files;
    } else {
      assert files[..n + 1] == files[..n] + [files[n]];
      FlattenAppend(files[..n], files[n]);
      FollowsConcat(ls, Flatten(files[..n]), [], FileLines(files[n]));
      assert ls + [] == ls;
      FlattenPrefix(files, n + 1, ls);
    }
  }

  lemma {:induction false} SuffixFollows(lines: seq<string>, isHunk: LinePredicate, ls: seq<OutLine>)
    requires Follows(ls, FromFirstHeader(lines, isHunk))
    ensures Follows(ls, lines)
  {
    if lines != [] && IsBody(lines[0], isHunk) {
      SuffixFollows(lines[1..], isHunk, ls);
      FollowsConcat([], [lines[0]], ls, lines[1..]);
      assert [] + ls == ls && [lines[0]] + lines[1..] == lines;
    }
  }

  /** Notes aside, the output is a subsequence of the input lines. */
  lemma CompressedFollowsInput(files: seq<DiffFile>, lines: seq<string>, isHunk: LinePredicate)
    requires Flatten(files) == FromFirstHeader(lines, isHunk)
    ensures Follows(Compressed(files), lines)
  {
    var n := FileCap(files);
    var kept := KeptFiles(files, n);
    KeptFilesFollow(files, n);
    FlattenPrefix(files, n, kept);
    SuffixFollows(lines, isHunk, kept);
    FileNoteFollows(files);
    FollowsConcat(kept, lines, FileNote(files), []);
    assert lines + [] == lines;
  }

  // ------------------------------------------------------------ changes

  /** The additions and deletions among some lines, in order. */
  function Changes(ls: seq<string>): seq<string> {
    if ls == [] then []
    else
      var n := |ls| - 1;
      Changes(ls[..n]) + IfChange(ls[n])
  }

  /** A line that begins with a plus or a minus sign. */
  function IfChange(l: string): seq<string> {
    if l != "" && (l[0] == '+' || l[0] == '-') then [l] else []
  }

  lemma ChangesSnoc(ls: seq<string>, l: string)
    ensures Changes(ls + [l]) == Changes(ls) + IfChange(l)
  {
    assert (ls + [l])[..|ls|] == ls;
  }

  lemma FromInputSnoc(ls: seq<OutLine>, l: string)
    ensures FromInput(ls + [Input(l)]) == FromInput(ls) + [l]
  {
    assert (ls + [Input(l)])[..|ls|] == ls;
  }

  /** One more line, kept if it is near a change, on both sides. */
  lemma ReductionStep(kept: seq<OutLine>, texts: seq<string>, t: string, near: bool)
    requires Changes(FromInput(kept)) == Changes(texts) && (!near ==> IfChange(t) == [])
    ensures Changes(FromInput(kept + if near then [Input(t)] else [])) == Changes(texts + [t])
  {
    ChangesSnoc(texts, t);
    if near {
      FromInputSnoc(kept, t);
      ChangesSnoc(FromInput(kept), t);
    } else {
      assert kept + [] == kept;
    }
  }

  lemma FarIsUnchanged(lines: seq<DiffLine>, i: nat)
    requires i < |lines| && lines[i] == Classify(lines[i].text)
    ensures !NearChange(lines, i) ==> IfChange(lines[i].text) == []
  {
    assert Near(i, i);
  }

  lemma TextsPrefix(lines: seq<DiffLine>, n: nat)
    requires 0 < n <= |lines|
    ensures Texts(lines[..n]) == Texts(lines[..n - 1]) + [lines[n - 1].text]
  {
    assert lines[..n][..n - 1] == lines[..n - 1];
  }

  /** Context reduction keeps every addition and deletion of a hunk, in order. */
  lemma {:induction false} ReductionKeepsChanges(lines: seq<DiffLine>, n: nat)
    requires n <= |lines| && forall i :: 0 <= i < |lines| ==> lines[i] == Classify(lines[i].text)
    ensures Changes(FromInput(KeptLines(lines, n))) == Changes(Texts(lines[..n]))
  {
    if n > 0 {
      var t := lines[n - 1].text;
      TextsPrefix(lines, n);
      ReductionKeepsChanges(lines, n - 1);
      FarIsUnchanged(lines, n - 1);
      ReductionStep(KeptLines(lines, n - 1), Texts(lines[..n - 1]), t, NearChange(lines, n - 1));
    }
  }

  // ------------------------------------------------------------ the compressor

  /** One of the first ten lines begins with `diff --git ` or has the form of a hunk header. */
  ghost predicate HeaderAmongTen(lines: seq<string>, isStrictHunk: LinePredicate) {
    exists i :: 0 <= i < |lines| && i < 10 &&
      ((|lines[i]| >= 11 && lines[i][..11] == "diff --git ") || isStrictHunk(lines[i]))
  }

  lemma GitDiffByText(lines: seq<string>, isStrictHunk: LinePredicate)
    ensures IsGitDiff(lines, isStrictHunk) <==> HeaderAmongTen(lines, isStrictHunk)
  {
  }

  lemma BannerAndLines(banner: OutLine, ls: seq<OutLine>, head: string, out: string)
    requires head == "" + Unlines([banner]) && out == head + Unlines(ls)
    ensures out == Unlines([banner] + ls)
    ensures |out| == |head| <==> ls == []
  {
    UnlinesAppend([banner], ls);
    UnlinesLength(ls);
  }

  method WriteReport(files: seq<DiffFile>, banner: OutLine) returns (out: string, empty: bool)
    ensures out == Unlines([banner] + Compressed(files))
    ensures empty <==> Compressed(files) == []
  {
    var head := WriteLine(banner, "");
    out := CompressFiles(files, head);
    empty := |out| == |head|;
    BannerAndLines(banner, Compressed(files), head, out);
  }

  /** `files` is a well-formed structure with exactly the lines of `text` from its first header on. */
  ghost predicate IsParse(files: seq<DiffFile>, text: string, isHunk: LinePredicate) {
    WellFormed(files, isHunk) && Flatten(files) == FromFirstHeader(Lines(text), isHunk)
  }

  /** The banner and the compressed files, if `text` is a long diff and the result is shorter. */
  ghost function Report(text: string, files: seq<DiffFile>, isStrictHunk: LinePredicate): Option<string> {
    var lines := Lines(text);
    var out := Unlines([Banner(|lines|)] + Compressed(files));
    if |lines| >= MIN_DIFF_LINES && IsGitDiff(lines, isStrictHunk) && Compressed(files) != [] && |out| < |text|
    then Some(out) else None
  }

  method MakeReport(text: string, lines: seq<string>, files: seq<DiffFile>, isStrictHunk: LinePredicate)
      returns (r: Option<string>)
    requires lines == Lines(text)
    ensures r == Report(text, files, isStrictHunk)
  {
    if |lines| < MIN_DIFF_LINES || !IsGitDiff(lines, isStrictHunk) {
      return None;
    }
    if files == [] {
      assert Compressed([]) == [];
      return None;
    }
    var out, empty := WriteReport(files, Banner(|lines|));
    if empty || |out| >= |text| {
      return None;
    }
    return Some(out);
  }

  /**
   Main result: the outcome is the report on the one well-formed parse of the input. Only inputs of
   thirty lines or more with a header among the first ten give a result, which is strictly shorter
   than the input and, banner and notes aside, a subsequence of its lines.
   */
  method CompressDiffContent(text: string, isStrictHunk: LinePredicate, isHunk: LinePredicate)
      returns (r: Option<string>)
    ensures exists files :: IsParse(files, text, isHunk)
    ensures forall files :: IsParse(files, text, isHunk) ==>
              r == Report(text, files, isStrictHunk) && Follows(Compressed(files), Lines(text))
    ensures r.Some? ==> |r.value| < |text| && |Lines(text)| >= 30 && HeaderAmongTen(Lines(text), isStrictHunk)
  {
    var lines := Lines(text);
    var parsed := ParseDiff(lines, isHunk);
    r := MakeReport(text, lines, parsed, isStrictHunk);
    assert IsParse(parsed, text, isHunk);
    CompressedFollowsInput(parsed, lines, isHunk);
    GitDiffByText(lines, isStrictHunk);
    forall files | IsParse(files, text, isHunk) ensures files == parsed {
      ParseIsUnique(files, parsed, isHunk);
    }
  }
}
