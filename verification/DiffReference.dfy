/**
 The compressed diff said once more, on the texts of the lines alone and with the limits spelled
 out: which lines a reader of the returned text finds, for every input and every hunk pattern.
 */
module DiffReference {
  import opened Common
  import opened Indices
  import opened TextLines
  import opened DiffContext
  import opened DiffParser
  import opened DiffRender
  import opened DiffCompressor
  import opened DiffChanges
  import opened DiffText

  // ------------------------------------------------------------ the reference

  /** Some line within two lines of position `i` does not begin with a blank. */
  ghost predicate NearText(texts: seq<string>, i: int) {
    exists j :: 0 <= j < |texts| && i - 2 <= j <= i + 2 && (texts[j] == "" || texts[j][0] != ' ')
  }

  ghost function NearLines(texts: seq<string>, n: nat): seq<string>
    requires n <= |texts|
  {
    if n == 0 then [] else NearLines(texts, n - 1) + if NearText(texts, n - 1) then [texts[n - 1]] else []
  }

  ghost function ShortHunk(h: Hunk): seq<string> {
    var kept := NearLines(Texts(h.lines), |h.lines|);
    if kept == [] then [] else [h.header] + kept
  }

  /** The hunks before position `n` with a body line that begins with a plus or a minus sign. */
  function Changing(hunks: seq<Hunk>, n: nat): set<nat> {
    Where(hunks, ShowsChange, n)
  }

  predicate ShowsChange(h: Hunk) {
    Changes(Texts(h.lines)) != []
  }

  /** Ten hunks stay: changing ones as long as there are any, then others, each from the front. */
  predicate Chosen(hunks: seq<Hunk>, h: nat) {
    if h in Changing(hunks, |hunks|) then |Changing(hunks, h)| < 10
    else |Changing(hunks, |hunks|)| + (h - |Changing(hunks, h)|) < 10
  }

  ghost function ShortHunks(hunks: seq<Hunk>, n: nat): seq<string>
    requires n <= |hunks|
  {
    if n == 0 then [] else ShortHunks(hunks, n - 1) + IfChosen(hunks, n - 1)
  }

  ghost function IfChosen(hunks: seq<Hunk>, h: nat): seq<string>
    requires h < |hunks|
  {
    if Chosen(hunks, h) then ShortHunk(hunks[h]) else []
  }

  ghost function ShortFile(f: DiffFile): seq<string> {
    HeaderLines(f) + (f.metadata + (ShortHunks(f.hunks, |f.hunks|) + HunksLeftOut(|f.hunks|)))
  }

  function HunksLeftOut(n: nat): seq<string> {
    if n <= 10 then [] else ["[#diff: " + Decimal(n - 10) + " more hunks in this file]"]
  }

  ghost function ShortFiles(files: seq<DiffFile>, n: nat): seq<string>
    requires n <= |files|
  {
    if n == 0 then [] else ShortFiles(files, n - 1) + ShortFile(files[n - 1])
  }

  ghost function ShortDiff(files: seq<DiffFile>): seq<string> {
    var n := |files|;
    if n <= 20 then ShortFiles(files, n)
    else ShortFiles(files, 19) + ["[#diff: truncated " + Decimal(n - 19) + " more files]"]
  }

  // ------------------------------------------------------------ texts of output lines

  lemma {:induction false} AllTextsAppend(a: seq<OutLine>, b: seq<OutLine>)
    ensures AllTexts(a + b) == AllTexts(a) + AllTexts(b)
  {
    if a == [] {
      assert a + b == b;
    } else {
      assert (a + b)[1..] == a[1..] + b;
      AllTextsAppend(a[1..], b);
    }
  }

  /** The same for values. */
  lemma TextsGrow(a: seq<OutLine>, x: seq<string>, b: seq<OutLine>, y: seq<string>, c: seq<OutLine>, z: seq<string>)
    requires AllTexts(a) == x && AllTexts(b) == y && c == a + b && z == x + y
    ensures AllTexts(c) == z
  {
    AllTextsAppend(a, b);
  }

  /** If every part has its texts, so does the concatenation of the parts. */
  lemma {:induction false} PartsHaveTexts(
    totals: seq<seq<OutLine>>, parts: seq<seq<OutLine>>, sums: seq<seq<string>>, shares: seq<seq<string>>, n: nat)
    requires n <= |parts| == |shares| && Accumulates(totals, parts) && Accumulates(sums, shares)
    requires forall i :: 0 <= i < |parts| ==> AllTexts(parts[i]) == shares[i]
    ensures AllTexts(totals[n]) == sums[n]
  {
    if n > 0 {
      PartsHaveTexts(totals, parts, sums, shares, n - 1);
      assert totals[n] == totals[n - 1] + parts[n - 1] && sums[n] == sums[n - 1] + shares[n - 1];
      TextsGrow(totals[n - 1], sums[n - 1], parts[n - 1], shares[n - 1], totals[n], sums[n]);
    }
  }

  lemma AllTextsOne(l: OutLine)
    ensures AllTexts([l]) == [l.text]
  {
    assert [l][1..] == [] && AllTexts([]) == [];
  }

  lemma {:induction false} AllTextsInputs(ls: seq<string>)
    ensures AllTexts(Inputs(ls)) == ls
  {
    if ls != [] {
      var init, l := ls[..|ls| - 1], ls[|ls| - 1];
      AllTextsInputs(init);
      AllTextsAppend(Inputs(init), [Input(l)]);
      AllTextsOne(Input(l));
      assert init + [l] == ls;
    }
  }

  // ------------------------------------------------------------ lines of a hunk

  predicate Classified(lines: seq<DiffLine>) {
    forall i :: 0 <= i < |lines| ==> lines[i] == Classify(lines[i].text)
  }

  lemma NearByText(lines: seq<DiffLine>, i: int)
    requires Classified(lines)
    ensures NearChange(lines, i) <==> NearText(Texts(lines), i)
  {
    forall j | 0 <= j < |lines|
      ensures lines[j].Context? <==> Texts(lines)[j] != "" && Texts(lines)[j][0] == ' '
    {
    }
    if NearChange(lines, i) {
      var j :| 0 <= j < |lines| && !lines[j].Context? && Near(i, j);
      assert Texts(lines)[j] == "" || Texts(lines)[j][0] != ' ';
    }
    if NearText(Texts(lines), i) {
      var j :| 0 <= j < |lines| && i - 2 <= j <= i + 2 && (Texts(lines)[j] == "" || Texts(lines)[j][0] != ' ');
      assert Near(i, j);
    }
  }

  lemma {:induction false} KeptLinesTexts(lines: seq<DiffLine>, n: nat)
    requires n <= |lines| && Classified(lines)
    ensures AllTexts(KeptLines(lines, n)) == NearLines(Texts(lines), n)
  {
    if n > 0 {
      var t := Texts(lines)[n - 1];
      KeptLinesTexts(lines, n - 1);
      NearByText(lines, n - 1);
      AllTextsAppend(KeptLines(lines, n - 1), if NearChange(lines, n - 1) then [Input(t)] else []);
      AllTextsOne(Input(t));
    }
  }

  lemma KeptHunkTexts(h: Hunk)
    requires Classified(h.lines)
    ensures AllTexts(KeptHunk(h)) == ShortHunk(h)
  {
    var kept := KeptLines(h.lines, |h.lines|);
    KeptLinesTexts(h.lines, |h.lines|);
    AllTextsAppend([Input(h.header)], kept);
    AllTextsOne(Input(h.header));
  }

  // ------------------------------------------------------------ hunks of a file

  ghost predicate AllClassified(hunks: seq<Hunk>) {
    forall i :: 0 <= i < |hunks| ==> Classified(hunks[i].lines)
  }

  lemma ChangesByText(h: Hunk)
    requires Classified(h.lines)
    ensures HasChanges(h) <==> ShowsChange(h)
  {
    assert h.lines[..|h.lines|] == h.lines;
    QuietTexts(h.lines, |h.lines|);
  }

  lemma {:induction false} CountByText(hunks: seq<Hunk>, n: nat)
    requires n <= |hunks| && AllClassified(hunks)
    ensures CountWhere(hunks, ShowsChange, n) == ChangeCount(hunks, n)
  {
    if n > 0 {
      CountByText(hunks, n - 1);
      ChangesByText(hunks[n - 1]);
    }
  }

  lemma CountIsCardinality(hunks: seq<Hunk>, n: nat)
    requires n <= |hunks| && AllClassified(hunks)
    ensures |Changing(hunks, n)| == ChangeCount(hunks, n)
  {
    CountIsSizeOf(hunks, ShowsChange, n);
    CountByText(hunks, n);
  }

  lemma KeptIsChosen(hunks: seq<Hunk>, h: nat)
    requires h < |hunks| && AllClassified(hunks)
    ensures HunkKept(hunks, h) <==> Chosen(hunks, h)
  {
    ChangesByText(hunks[h]);
    CountIsCardinality(hunks, h);
    CountIsCardinality(hunks, |hunks|);
  }

  lemma IfKeptTexts(hunks: seq<Hunk>, h: nat)
    requires h < |hunks| && AllClassified(hunks)
    ensures AllTexts(IfKept(hunks, h)) == IfChosen(hunks, h)
  {
    KeptIsChosen(hunks, h);
    KeptHunkTexts(hunks[h]);
  }

  lemma {:induction false} ChosenOutputs(hunks: seq<Hunk>, n: nat)
      returns (sums: seq<seq<string>>, shares: seq<seq<string>>)
    requires n <= |hunks|
    ensures Accumulates(sums, shares) && |shares| == n && sums[n] == ShortHunks(hunks, n)
    ensures forall i :: 0 <= i < n ==> shares[i] == IfChosen(hunks, i)
  {
    if n == 0 {
      sums, shares := [[]], [];
    } else {
      var xs, ys := ChosenOutputs(hunks, n - 1);
      var last := IfChosen(hunks, n - 1);
      AccumulatesMore(xs, ys, ShortHunks(hunks, n), last);
      sums, shares := xs + [ShortHunks(hunks, n)], ys + [last];
      forall i | 0 <= i < n ensures shares[i] == IfChosen(hunks, i) {
        assert shares[i] == if i < n - 1 then ys[i] else last;
      }
    }
  }

  lemma KeptHunksTexts(hunks: seq<Hunk>, n: nat)
    requires n <= |hunks| && AllClassified(hunks)
    ensures AllTexts(KeptHunks(hunks, n)) == ShortHunks(hunks, n)
  {
    var totals, parts := HunkOutputs(hunks, n);
    var sums, shares := ChosenOutputs(hunks, n);
    forall i | 0 <= i < n ensures AllTexts(parts[i]) == shares[i] {
      IfKeptTexts(hunks, i);
    }
    PartsHaveTexts(totals, parts, sums, shares, n);
  }

  lemma HunkNoteText(hunks: seq<Hunk>)
    ensures AllTexts(HunkNote(hunks)) == HunksLeftOut(|hunks|)
  {
    if |hunks| > 10 { AllTextsOne(MoreHunks(|hunks| - 10)); }
  }

  lemma KeptFileTexts(f: DiffFile)
    requires AllClassified(f.hunks)
    ensures AllTexts(KeptFile(f)) == ShortFile(f)
  {
    var kept, note := KeptHunks(f.hunks, |f.hunks|), HunkNote(f.hunks);
    KeptHunksTexts(f.hunks, |f.hunks|);
    AllTextsInputs(HeaderLines(f));
    AllTextsInputs(f.metadata);
    HunkNoteText(f.hunks);
    AllTextsAppend(kept, note);
    AllTextsAppend(Inputs(f.metadata), kept + note);
    AllTextsAppend(Inputs(HeaderLines(f)), Inputs(f.metadata) + (kept + note));
  }

  // ------------------------------------------------------------ files

  lemma {:induction false} ShortOutputs(files: seq<DiffFile>, n: nat)
      returns (sums: seq<seq<string>>, shares: seq<seq<string>>)
    requires n <= |files|
    ensures Accumulates(sums, shares) && |shares| == n && sums[n] == ShortFiles(files, n)
    ensures forall i :: 0 <= i < n ==> shares[i] == ShortFile(files[i])
  {
    if n == 0 {
      sums, shares := [[]], [];
    } else {
      var xs, ys := ShortOutputs(files, n - 1);
      var last := ShortFile(files[n - 1]);
      AccumulatesMore(xs, ys, ShortFiles(files, n), last);
      sums, shares := xs + [ShortFiles(files, n)], ys + [last];
      forall i | 0 <= i < n ensures shares[i] == ShortFile(files[i]) {
        assert shares[i] == if i < n - 1 then ys[i] else last;
      }
    }
  }

  lemma KeptFilesTexts(files: seq<DiffFile>, n: nat)
    requires n <= |files| && forall i :: 0 <= i < |files| ==> AllClassified(files[i].hunks)
    ensures AllTexts(KeptFiles(files, n)) == ShortFiles(files, n)
  {
    var totals, parts := FileOutputs(files, n);
    var sums, shares := ShortOutputs(files, n);
    forall i | 0 <= i < n ensures AllTexts(parts[i]) == shares[i] {
      KeptFileTexts(files[i]);
    }
    PartsHaveTexts(totals, parts, sums, shares, n);
  }

  lemma ParsedIsClassified(files: seq<DiffFile>, isHunk: LinePredicate)
    requires WellFormed(files, isHunk)
    ensures forall i :: 0 <= i < |files| ==> AllClassified(files[i].hunks)
  {
    forall i | 0 <= i < |files| ensures AllClassified(files[i].hunks) {
      assert FileOk(files[i], isHunk);
    }
  }

  lemma FileNoteText(files: seq<DiffFile>)
    ensures AllTexts(FileNote(files))
            == if |files| <= 20 then [] else ["[#diff: truncated " + Decimal(|files| - 19) + " more files]"]
  {
    if |files| > 20 { AllTextsOne(MoreFiles(|files| - 19)); }
  }

  lemma ShortDiffParts(files: seq<DiffFile>)
    ensures ShortDiff(files) == ShortFiles(files, FileCap(files)) + AllTexts(FileNote(files))
  {
    FileNoteText(files);
    assert ShortFiles(files, FileCap(files)) + [] == ShortFiles(files, FileCap(files));
  }

  lemma CompressedTexts(files: seq<DiffFile>, isHunk: LinePredicate)
    requires WellFormed(files, isHunk)
    ensures AllTexts(Compressed(files)) == ShortDiff(files)
  {
    ParsedIsClassified(files, isHunk);
    KeptFilesTexts(files, FileCap(files));
    ShortDiffParts(files);
    TextsGrow(KeptFiles(files, FileCap(files)), ShortFiles(files, FileCap(files)), FileNote(files),
              AllTexts(FileNote(files)), Compressed(files), ShortDiff(files));
  }

  lemma BannerText(n: nat, ls: seq<OutLine>)
    ensures AllTexts([Banner(n)] + ls) == ["[#diff_compressed: was " + Decimal(n) + " lines]"] + AllTexts(ls)
  {
    AllTextsAppend([Banner(n)], ls);
    AllTextsOne(Banner(n));
  }

  /**
   Main result: the lines of the returned text are the banner and the reference diff, each as it is
   read back, for every text, every hunk pattern and every parse.
   */
  lemma ReturnedLines(text: string, files: seq<DiffFile>, isStrictHunk: LinePredicate, isHunk: LinePredicate)
    requires IsParse(files, text, isHunk) && Report(text, files, isStrictHunk).Some?
    ensures Lines(Report(text, files, isStrictHunk).value)
            == ReadBacks(["[#diff_compressed: was " + Decimal(|Lines(text)|) + " lines]"] + ShortDiff(files))
  {
    var lines, out := Lines(text), Compressed(files);
    CompressedFollowsInput(files, lines, isHunk);
    LinesAreLines(text);
    CompressedNotes(files);
    NotesAreOk(|lines|);
    OutputIsLines(out, lines);
    CompressedTexts(files, isHunk);
    BannerText(|lines|, out);
    WrittenIsRead([Banner(|lines|)] + out);
  }

  /** Lines as text, each ended by a line feed. */
  function Ended(ls: seq<string>): string {
    if ls == [] then "" else ls[0] + "\n" + Ended(ls[1..])
  }

  lemma {:induction false} UnlinesIsEnded(ls: seq<OutLine>)
    ensures Unlines(ls) == Ended(AllTexts(ls))
  {
    if ls != [] {
      var l, rest := ls[0], ls[1..];
      assert ls == [l] + rest;
      UnlinesAppend([l], rest);
      UnlinesOne(l);
      UnlinesIsEnded(rest);
    }
  }

  /** The banner and the reference diff as text. */
  ghost function ShortText(text: string, files: seq<DiffFile>): string {
    Ended(["[#diff_compressed: was " + Decimal(|Lines(text)|) + " lines]"] + ShortDiff(files))
  }

  /**
   Main result: a text of thirty lines or more with a header among the first ten gives the banner
   and the reference diff, if there is anything to show and that is shorter; nothing else does.
   */
  lemma ReportExactly(text: string, files: seq<DiffFile>, isStrictHunk: LinePredicate, isHunk: LinePredicate)
    requires IsParse(files, text, isHunk)
    ensures Report(text, files, isStrictHunk)
            == if |Lines(text)| >= 30 && HeaderAmongTen(Lines(text), isStrictHunk) && ShortDiff(files) != []
                  && |ShortText(text, files)| < |text|
               then Some(ShortText(text, files)) else None
  {
    var out := Compressed(files);
    GitDiffByText(Lines(text), isStrictHunk);
    CompressedTexts(files, isHunk);
    BannerText(|Lines(text)|, out);
    UnlinesIsEnded([Banner(|Lines(text)|)] + out);
    NoTextsNoLines(out);
  }

  lemma NoTextsNoLines(ls: seq<OutLine>)
    ensures AllTexts(ls) == [] <==> ls == []
  {
  }

  // ------------------------------------------------------------ numbers and headers

  /** The number that a string of decimal digits denotes. */
  function Denoted(s: string): int {
    if s == "" then 0 else 10 * Denoted(s[..|s| - 1]) + (s[|s| - 1] as int - '0' as int)
  }

  lemma {:induction false} DecimalDenotes(n: nat)
    ensures Denoted(Decimal(n)) == n && (|Decimal(n)| > 1 ==> Decimal(n)[0] != '0')
  {
    if n < 10 {
      assert Decimal(n)[..0] == "" && Denoted("") == 0;
    } else {
      DecimalDenotes(n / 10);
      var s := Decimal(n / 10);
      assert Decimal(n)[..|s|] == s;
    }
  }

  /** The lines that announce a file. */
  function Announcing(ls: seq<string>): seq<string> {
    if ls == [] then []
    else (if |ls[0]| >= 11 && ls[0][..11] == "diff --git " then [ls[0]] else []) + Announcing(ls[1..])
  }

  lemma {:induction false} AnnouncingAppend(a: seq<string>, b: seq<string>)
    ensures Announcing(a + b) == Announcing(a) + Announcing(b)
  {
    if a == [] {
      assert a + b == b;
    } else {
      assert (a + b)[1..] == a[1..] + b;
      AnnouncingAppend(a[1..], b);
    }
  }

  lemma {:induction false} NoneAnnounced(ls: seq<string>)
    requires forall i :: 0 <= i < |ls| ==> !IsFileHeader(ls[i])
    ensures Announcing(ls) == []
  {
    if ls != [] { NoneAnnounced(ls[1..]); }
  }

  lemma FileAnnounced(f: DiffFile, isHunk: LinePredicate)
    requires FileOk(f, isHunk)
    ensures Announcing(FileLines(f)) == HeaderLines(f)
  {
    var rest := f.metadata + HunksLines(f.hunks);
    HunksHaveNoFileHeader(f.hunks, isHunk);
    NoneAnnounced(rest);
    AnnouncingAppend(HeaderLines(f), rest);
    if f.header != "" {
      assert [f.header][1..] == [] && Announcing([]) == [];
      assert f.header[..11] == "diff --git ";
    }
  }

  lemma {:induction false} AnnouncedFromFirst(lines: seq<string>, isHunk: LinePredicate)
    ensures Announcing(FromFirstHeader(lines, isHunk)) == Announcing(lines)
  {
    if lines != [] && IsBody(lines[0], isHunk) {
      AnnouncedFromFirst(lines[1..], isHunk);
    }
  }

  function FileHeaders(files: seq<DiffFile>): seq<string> {
    if files == [] then [] else HeaderLines(files[0]) + FileHeaders(files[1..])
  }

  lemma {:induction false} FilesAnnounced(files: seq<DiffFile>, isHunk: LinePredicate)
    requires WellFormed(files, isHunk)
    ensures Announcing(Flatten(files)) == FileHeaders(files)
  {
    if files != [] {
      FilesAnnounced(files[1..], isHunk);
      FileAnnounced(files[0], isHunk);
      AnnouncingAppend(FileLines(files[0]), Flatten(files[1..]));
    }
  }

  /** The file headers of a parse are exactly the lines that begin with `diff --git `, in order. */
  lemma OneFilePerHeader(files: seq<DiffFile>, text: string, isHunk: LinePredicate)
    requires IsParse(files, text, isHunk)
    ensures FileHeaders(files) == Announcing(Lines(text))
  {
    FilesAnnounced(files, isHunk);
    AnnouncedFromFirst(Lines(text), isHunk);
  }

  /** Parsing drops exactly the lines before the first file or hunk header. */
  lemma {:induction false} OrphansAreDropped(lines: seq<string>, isHunk: LinePredicate) returns (n: nat)
    ensures n <= |lines| && FromFirstHeader(lines, isHunk) == lines[n..]
    ensures forall i :: 0 <= i < n ==> !isHunk(lines[i]) && (|lines[i]| < 11 || lines[i][..11] != "diff --git ")
    ensures n < |lines| ==> isHunk(lines[n]) || (|lines[n]| >= 11 && lines[n][..11] == "diff --git ")
  {
    n := 0;
    if lines != [] && IsBody(lines[0], isHunk) {
      n := OrphansAreDropped(lines[1..], isHunk);
      n := n + 1;
    }
  }

  /** A last line without a line feed is read as it is. */
  lemma LastLineIsRead(t: string)
    requires NoNewline(t)
    ensures Lines(t) == if t == "" then [] else [t]
  {
    NewlineComesAfter(t, "");
    assert t + "" == t;
  }
}
