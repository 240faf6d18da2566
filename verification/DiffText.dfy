/**
 The text that the diff compressor returns, read back line by line: which additions and deletions
 a reader of it finds.
 */
module DiffText {
  import opened Common
  import opened TextLines
  import opened DiffContext
  import opened DiffParser
  import opened DiffRender
  import opened DiffCompressor
  import opened DiffChanges

  /** A line as it is read back: reading drops one carriage return before the line feed. */
  function ReadBack(l: string): string {
    if l != "" && l[|l| - 1] == '\r' then l[..|l| - 1] else l
  }

  function ReadBacks(ls: seq<string>): seq<string> {
    if ls == [] then [] else [ReadBack(ls[0])] + ReadBacks(ls[1..])
  }

  lemma {:induction false} ReadBacksAppend(a: seq<string>, b: seq<string>)
    ensures ReadBacks(a + b) == ReadBacks(a) + ReadBacks(b)
  {
    if a == [] {
      assert a + b == b;
    } else {
      assert (a + b)[1..] == a[1..] + b;
      ReadBacksAppend(a[1..], b);
    }
  }

  lemma ReadBacksOne(l: string)
    ensures ReadBacks([l]) == [ReadBack(l)]
  {
    assert [l][1..] == [] && ReadBacks([]) == [];
  }

  function AllTexts(ls: seq<OutLine>): seq<string> {
    if ls == [] then [] else [ls[0].text] + AllTexts(ls[1..])
  }

  // ------------------------------------------------------------ lines of the written text

  lemma LineIsRead(t: string, rest: string)
    requires NoNewline(t)
    ensures Lines((t + "\n") + rest) == [ReadBack(t)] + Lines(rest)
  {
    var s := (t + "\n") + rest;
    var tail := ['\n'] + rest;
    assert s == t + tail && tail[0] == '\n';
    NewlineComesAfter(t, tail);
    assert s[..|t|] == t && s[|t| + 1..] == rest;
    assert |t| > 0 ==> s[|t| - 1] == t[|t| - 1] && s[..|t| - 1] == t[..|t| - 1];
  }

  ghost predicate OneLineEach(ls: seq<OutLine>) {
    forall i :: 0 <= i < |ls| ==> NoNewline(ls[i].text)
  }

  /** Reading what was written gives the lines back, but for one carriage return each. */
  lemma {:induction false} WrittenIsRead(ls: seq<OutLine>)
    requires OneLineEach(ls)
    ensures Lines(Unlines(ls)) == ReadBacks(AllTexts(ls))
  {
    if ls != [] {
      var l, rest := ls[0], ls[1..];
      assert ls == [l] + rest;
      UnlinesAppend([l], rest);
      UnlinesOne(l);
      LineIsRead(l.text, Unlines(rest));
      WrittenIsRead(rest);
    }
  }

  // ------------------------------------------------------------ changes among the lines

  lemma ReadBackKeepsKind(l: string)
    ensures IfChange(ReadBack(l)) == ReadBacks(IfChange(l))
  {
    if IfChange(l) != [] {
      ReadBacksOne(l);
    }
    assert |l| > 1 ==> ReadBack(l) != "" && ReadBack(l)[0] == l[0];
  }

  lemma {:induction false} ReadBackChanges(ls: seq<string>)
    ensures Changes(ReadBacks(ls)) == ReadBacks(Changes(ls))
  {
    if ls != [] {
      var init, l := ls[..|ls| - 1], ls[|ls| - 1];
      assert ls == init + [l];
      ReadBackChanges(init);
      ReadBacksAppend(init, [l]);
      ReadBacksOne(l);
      ChangesSnoc(ReadBacks(init), ReadBack(l));
      ChangesSnoc(init, l);
      ReadBackKeepsKind(l);
      ReadBacksAppend(Changes(init), IfChange(l));
    }
  }

  /** A note is one line and reads as neither an addition nor a deletion. */
  predicate NoteOk(l: OutLine) {
    l.Note? ==> NoNewline(l.text) && IfChange(l.text) == []
  }

  ghost predicate NotesOk(ls: seq<OutLine>) {
    forall i :: 0 <= i < |ls| ==> NoteOk(ls[i])
  }

  lemma {:induction false} TextsShow(ls: seq<OutLine>)
    requires NotesOk(ls)
    ensures Changes(AllTexts(ls)) == Shown(ls)
  {
    if ls != [] {
      var l, rest := ls[0], ls[1..];
      assert ls == [l] + rest && NoteOk(l);
      TextsShow(rest);
      ChangesAppend([l.text], AllTexts(rest));
      ChangesOne(l.text);
      ShownAppend([l], rest);
      LineShows(l);
    }
  }

  lemma LineShows(l: OutLine)
    requires NoteOk(l)
    ensures Shown([l]) == IfChange(l.text)
  {
    if l.Note? {
      ShownNote(l);
    } else {
      FromInputSnoc([], l.text);
      assert [] + [Input(l.text)] == [l] && [] + [l.text] == [l.text];
      ChangesOne(l.text);
    }
  }

  // ------------------------------------------------------------ the notes

  lemma {:induction false} DecimalIsDigits(n: nat)
    ensures forall i :: 0 <= i < |Decimal(n)| ==> '0' <= Decimal(n)[i] <= '9'
  {
    if n >= 10 { DecimalIsDigits(n / 10); }
  }

  lemma BracketedNote(a: string, n: nat, b: string)
    requires a != "" && a[0] == '[' && NoNewline(a) && NoNewline(b)
    ensures NoteOk(Note(a + Decimal(n) + b))
  {
    DecimalIsDigits(n);
    var t := a + Decimal(n) + b;
    assert t[0] == '[';
  }

  lemma NotesAreOk(n: nat)
    ensures NoteOk(Banner(n)) && NoteOk(MoreHunks(n)) && NoteOk(MoreFiles(n))
  {
    BracketedNote("[#diff_compressed: was ", n, " lines]");
    BracketedNote("[#diff: ", n, " more hunks in this file]");
    BracketedNote("[#diff: truncated ", n, " more files]");
  }

  lemma {:induction false} InputsHaveNoNotes(ls: seq<string>)
    ensures NotesOk(Inputs(ls))
  {
    if ls != [] { InputsHaveNoNotes(ls[..|ls| - 1]); }
  }

  lemma {:induction false} KeptLinesHaveNoNotes(lines: seq<DiffLine>, n: nat)
    requires n <= |lines|
    ensures NotesOk(KeptLines(lines, n))
  {
    if n > 0 { KeptLinesHaveNoNotes(lines, n - 1); }
  }

  lemma KeptHunkHasNoNotes(h: Hunk)
    ensures NotesOk(KeptHunk(h))
  {
    KeptLinesHaveNoNotes(h.lines, |h.lines|);
  }

  lemma {:induction false} KeptHunksHaveNoNotes(hunks: seq<Hunk>, n: nat)
    requires n <= |hunks|
    ensures NotesOk(KeptHunks(hunks, n))
  {
    if n > 0 {
      KeptHunksHaveNoNotes(hunks, n - 1);
      KeptHunkHasNoNotes(hunks[n - 1]);
    }
  }

  lemma KeptFileNotes(f: DiffFile)
    ensures NotesOk(KeptFile(f))
  {
    InputsHaveNoNotes(HeaderLines(f));
    InputsHaveNoNotes(f.metadata);
    KeptHunksHaveNoNotes(f.hunks, |f.hunks|);
    if |f.hunks| > MAX_HUNKS_PER_FILE { NotesAreOk(|f.hunks| - MAX_HUNKS_PER_FILE); }
  }

  lemma {:induction false} KeptFilesNotes(files: seq<DiffFile>, n: nat)
    requires n <= |files|
    ensures NotesOk(KeptFiles(files, n))
  {
    if n > 0 {
      KeptFilesNotes(files, n - 1);
      NextFileNotes(KeptFiles(files, n - 1), files[n - 1]);
      OneFileMore(files, n);
    }
  }

  lemma OneFileMore(files: seq<DiffFile>, n: nat)
    requires 0 < n <= |files|
    ensures KeptFiles(files, n) == KeptFiles(files, n - 1) + KeptFile(files[n - 1])
  {
  }

  lemma NextFileNotes(kept: seq<OutLine>, f: DiffFile)
    requires NotesOk(kept)
    ensures NotesOk(kept + KeptFile(f))
  {
    KeptFileNotes(f);
  }

  lemma CompressedNotes(files: seq<DiffFile>)
    ensures NotesOk(Compressed(files))
  {
    KeptFilesNotes(files, FileCap(files));
    if |files| > MAX_FILES { NotesAreOk(|files| - (MAX_FILES - 1)); }
  }

  // ------------------------------------------------------------ the input lines

  lemma {:induction false} LinesAreLines(s: string)
    ensures forall i :: 0 <= i < |Lines(s)| ==> NoNewline(Lines(s)[i])
    decreases |s|
  {
    if s != "" {
      var i := FirstNewline(s);
      NoNewlineBefore(s);
      if i < |s| {
        LinesAreLines(s[i + 1..]);
        var l := if i > 0 && s[i - 1] == '\r' then s[..i - 1] else s[..i];
        assert forall j :: 0 <= j < |l| ==> l[j] == s[..i][j];
      } else {
        assert s[..i] == s;
      }
    }
  }

  lemma {:induction false} SubsequenceHolds(a: seq<string>, b: seq<string>, x: string)
    requires Subsequence(a, b) && x in a
    ensures x in b
    decreases |b|
  {
    var m, n := |a| - 1, |b| - 1;
    if Subsequence(a, b[..n]) {
      SubsequenceHolds(a, b[..n], x);
    } else if x in a[..m] {
      SubsequenceHolds(a[..m], b[..n], x);
    }
  }

  lemma {:induction false} InputIsFromInput(ls: seq<OutLine>, i: nat)
    requires i < |ls| && ls[i].Input?
    ensures ls[i].text in FromInput(ls)
  {
    if i < |ls| - 1 { InputIsFromInput(ls[..|ls| - 1], i); }
  }

  lemma OutputIsLines(ls: seq<OutLine>, lines: seq<string>)
    requires Follows(ls, lines) && NotesOk(ls) && forall i :: 0 <= i < |lines| ==> NoNewline(lines[i])
    ensures OneLineEach(ls)
  {
    forall i | 0 <= i < |ls| ensures NoNewline(ls[i].text) {
      assert NoteOk(ls[i]);
      if ls[i].Input? {
        InputIsFromInput(ls, i);
        SubsequenceHolds(FromInput(ls), lines, ls[i].text);
      }
    }
  }

  // ------------------------------------------------------------ the returned text

  lemma ReportReads(banner: OutLine, ls: seq<OutLine>, lines: seq<string>)
    requires banner.Note? && NoteOk(banner) && NotesOk(ls) && Follows(ls, lines)
    requires forall i :: 0 <= i < |lines| ==> NoNewline(lines[i])
    ensures Changes(Lines(Unlines([banner] + ls))) == ReadBacks(Shown(ls))
  {
    OutputIsLines(ls, lines);
    var all := [banner] + ls;
    assert NotesOk(all) && OneLineEach(all);
    WrittenIsRead(all);
    ReadBackChanges(AllTexts(all));
    TextsShow(all);
    ShownAppend([banner], ls);
    ShownNote(banner);
    assert [] + Shown(ls) == Shown(ls);
  }

  /**
   Main result: the additions and deletions among the lines of the returned text are, in order,
   those of the metadata and of the first ten changing hunks of each file before the file cap, each
   as it is read back.
   */
  lemma ReturnedTextShows(text: string, files: seq<DiffFile>, isStrictHunk: LinePredicate, isHunk: LinePredicate)
    requires IsParse(files, text, isHunk) && FilesPlain(files) && Report(text, files, isStrictHunk).Some?
    ensures Changes(Lines(Report(text, files, isStrictHunk).value))
            == ReadBacks(FilesChanges(files, FilesShown(files)))
  {
    var lines := Lines(text);
    CompressedFollowsInput(files, lines, isHunk);
    LinesAreLines(text);
    CompressedNotes(files);
    NotesAreOk(|lines|);
    ReportReads(Banner(|lines|), Compressed(files), lines);
    OutputShows(files);
  }

  lemma {:induction false} ReadBacksLength(ls: seq<string>)
    ensures |ReadBacks(ls)| == |ls|
  {
    if ls != [] { ReadBacksLength(ls[1..]); }
  }

  /** The returned text shows all additions and deletions of the parsed input exactly when nothing is lost. */
  lemma TextLosesNothingExactly(
    text: string, files: seq<DiffFile>, isStrictHunk: LinePredicate, isHunk: LinePredicate)
    requires IsParse(files, text, isHunk) && FilesPlain(files) && Report(text, files, isStrictHunk).Some?
    ensures Changes(Lines(Report(text, files, isStrictHunk).value)) == ReadBacks(Changes(Flatten(files)))
            <==> LosesNothing(files)
  {
    ReturnedTextShows(text, files, isStrictHunk, isHunk);
    OutputShows(files);
    NothingLostExactly(files);
    ReadBacksLength(Shown(Compressed(files)));
    ReadBacksLength(Changes(Flatten(files)));
  }
}
