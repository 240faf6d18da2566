/**
 Which additions and deletions of a diff survive compression: the output as a whole against the
 input as a whole.
 */
module DiffChanges {
  import opened Common
  import opened DiffContext
  import opened DiffParser
  import opened DiffRender
  import opened DiffCompressor

  // ------------------------------------------------------------ what the output should hold

  /** How many of the first `n` hunks have a line that begins with a plus or a minus sign. */
  function ChangingBefore(hunks: seq<Hunk>, n: nat): nat
    requires n <= |hunks|
  {
    if n == 0 then 0
    else ChangingBefore(hunks, n - 1) + if Changes(HunkLines(hunks[n - 1])) != [] then 1 else 0
  }

  /** The changes of the first ten changing hunks among the first `n`. */
  function HunksChanges(hunks: seq<Hunk>, n: nat): seq<string>
    requires n <= |hunks|
  {
    if n == 0 then []
    else
      HunksChanges(hunks, n - 1) + HunkShare(hunks, n - 1)
  }

  function HunkShare(hunks: seq<Hunk>, h: nat): seq<string>
    requires h < |hunks|
  {
    if ChangingBefore(hunks, h) < 10 then Changes(HunkLines(hunks[h])) else []
  }

  function FileChanges(f: DiffFile): seq<string> {
    Changes(HeaderLines(f)) + (Changes(f.metadata) + HunksChanges(f.hunks, |f.hunks|))
  }

  function FilesChanges(files: seq<DiffFile>, n: nat): seq<string>
    requires n <= |files|
  {
    if n == 0 then [] else FilesChanges(files, n - 1) + FileChanges(files[n - 1])
  }

  /** All files up to twenty, else the first nineteen. */
  function FilesShown(files: seq<DiffFile>): (n: nat)
    ensures n <= |files|
  {
    if |files| <= 20 then |files| else 19
  }

  /** A hunk header is neither an addition nor a deletion, and every line is classified. */
  predicate HunkPlain(h: Hunk) {
    IfChange(h.header) == [] && forall i :: 0 <= i < |h.lines| ==> h.lines[i] == Classify(h.lines[i].text)
  }

  predicate HunksPlain(hunks: seq<Hunk>) {
    forall i :: 0 <= i < |hunks| ==> HunkPlain(hunks[i])
  }

  predicate FilesPlain(files: seq<DiffFile>) {
    forall i :: 0 <= i < |files| ==> HunksPlain(files[i].hunks)
  }

  lemma {:induction false} ChangesAppend(a: seq<string>, b: seq<string>)
    ensures Changes(a + b) == Changes(a) + Changes(b)
  {
    if b == [] {
      assert a + b == a;
    } else {
      var n := |b| - 1;
      assert (a + b)[..|a + b| - 1] == a + b[..n];
      ChangesAppend(a, b[..n]);
    }
  }

  /** The changes in a piece of output. */
  function Shown(ls: seq<OutLine>): seq<string> {
    Changes(FromInput(ls))
  }

  lemma ShownAppend(a: seq<OutLine>, b: seq<OutLine>)
    ensures Shown(a + b) == Shown(a) + Shown(b)
  {
    FromInputAppend(a, b);
    ChangesAppend(FromInput(a), FromInput(b));
  }

  lemma ShownInputs(ls: seq<string>)
    ensures Shown(Inputs(ls)) == Changes(ls)
  {
    FromInputs(ls);
  }

  lemma ShownNote(note: OutLine)
    requires note.Note?
    ensures Shown([note]) == []
  {
    assert [note][..0] == [] && FromInput([note]) == FromInput([]) + [];
  }

  lemma ChangesOne(l: string)
    ensures Changes([l]) == IfChange(l)
  {
    ChangesSnoc([], l);
    assert [] + [l] == [l] && [] + IfChange(l) == IfChange(l);
  }

  lemma HunkLinesChanges(h: Hunk)
    requires HunkPlain(h)
    ensures Changes(HunkLines(h)) == Changes(Texts(h.lines))
  {
    ChangesOne(h.header);
    ChangesAppend([h.header], Texts(h.lines));
    assert [] + Changes(Texts(h.lines)) == Changes(Texts(h.lines));
  }

  // ------------------------------------------------------------ what the output does hold

  lemma KeptHunkShows(h: Hunk)
    requires HunkPlain(h)
    ensures Shown(KeptHunk(h)) == Changes(HunkLines(h))
  {
    var kept := KeptLines(h.lines, |h.lines|);
    assert h.lines[..|h.lines|] == h.lines;
    ReductionKeepsChanges(h.lines, |h.lines|);
    HunkLinesChanges(h);
    if kept != [] {
      ShownAppend([Input(h.header)], kept);
      FromInputSnoc([], h.header);
      assert [] + [Input(h.header)] == [Input(h.header)] && [] + [h.header] == [h.header];
      ChangesOne(h.header);
      assert [] + Shown(kept) == Shown(kept);
    }
  }

  predicate Quiet(lines: seq<DiffLine>, n: nat)
    requires n <= |lines|
  {
    forall i :: 0 <= i < n ==> !(lines[i].Addition? || lines[i].Deletion?)
  }

  lemma QuietLine(l: DiffLine)
    requires l == Classify(l.text)
    ensures IfChange(l.text) == [] <==> !(l.Addition? || l.Deletion?)
  {
  }

  lemma {:induction false} QuietTexts(lines: seq<DiffLine>, n: nat)
    requires n <= |lines| && forall i :: 0 <= i < |lines| ==> lines[i] == Classify(lines[i].text)
    ensures Changes(Texts(lines[..n])) == [] <==> Quiet(lines, n)
  {
    if n > 0 {
      QuietTexts(lines, n - 1);
      TextsPrefix(lines, n);
      QuietSnoc(Texts(lines[..n - 1]), lines[n - 1]);
      QuietStep(lines, n);
    }
  }

  lemma QuietSnoc(texts: seq<string>, l: DiffLine)
    requires l == Classify(l.text)
    ensures Changes(texts + [l.text]) == [] <==> Changes(texts) == [] && !(l.Addition? || l.Deletion?)
  {
    ChangesSnoc(texts, l.text);
    QuietLine(l);
  }

  lemma QuietStep(lines: seq<DiffLine>, n: nat)
    requires 0 < n <= |lines|
    ensures Quiet(lines, n) <==> Quiet(lines, n - 1) && !(lines[n - 1].Addition? || lines[n - 1].Deletion?)
  {
  }

  /** A hunk has changes exactly when some of its lines is one. */
  lemma HunkChanges(h: Hunk)
    requires HunkPlain(h)
    ensures HasChanges(h) <==> Changes(HunkLines(h)) != []
  {
    assert h.lines[..|h.lines|] == h.lines;
    QuietTexts(h.lines, |h.lines|);
    HunkLinesChanges(h);
  }

  /** Counting changing hunks by what their lines begin with. */
  lemma {:induction false} CountsAgree(hunks: seq<Hunk>, n: nat)
    requires n <= |hunks| && HunksPlain(hunks)
    ensures ChangingBefore(hunks, n) == ChangeCount(hunks, n)
  {
    if n > 0 {
      CountsAgree(hunks, n - 1);
      HunkChanges(hunks[n - 1]);
    }
  }

  lemma HunkShows(hunks: seq<Hunk>, i: nat)
    requires i < |hunks| && HunksPlain(hunks)
    ensures Shown(IfKept(hunks, i)) == HunkShare(hunks, i)
  {
    KeptHunkShows(hunks[i]);
    HunkChanges(hunks[i]);
    CountsAgree(hunks, i);
  }

  /** If every part shows its share, the concatenation of the parts shows that of the shares. */
  lemma {:induction false} PartsShowShares(
    totals: seq<seq<OutLine>>, parts: seq<seq<OutLine>>, sums: seq<seq<string>>, shares: seq<seq<string>>, n: nat)
    requires n <= |parts| == |shares| && Accumulates(totals, parts) && Accumulates(sums, shares)
    requires forall i :: 0 <= i < |parts| ==> Shown(parts[i]) == shares[i]
    ensures Shown(totals[n]) == sums[n]
  {
    if n > 0 {
      PartsShowShares(totals, parts, sums, shares, n - 1);
      ShownAppend(totals[n - 1], parts[n - 1]);
      assert totals[n] == totals[n - 1] + parts[n - 1] && sums[n] == sums[n - 1] + shares[n - 1];
    }
  }

  ghost function IfKept(hunks: seq<Hunk>, i: nat): seq<OutLine>
    requires i < |hunks|
  {
    if HunkKept(hunks, i) then KeptHunk(hunks[i]) else []
  }

  lemma {:induction false} HunkOutputs(hunks: seq<Hunk>, n: nat)
      returns (totals: seq<seq<OutLine>>, parts: seq<seq<OutLine>>)
    requires n <= |hunks|
    ensures Accumulates(totals, parts) && |parts| == n && totals[n] == KeptHunks(hunks, n)
    ensures forall i :: 0 <= i < n ==> parts[i] == IfKept(hunks, i)
  {
    if n == 0 {
      totals, parts := [[]], [];
    } else {
      totals, parts := HunkOutputs(hunks, n - 1);
      AccumulatesMore(totals, parts, KeptHunks(hunks, n), IfKept(hunks, n - 1));
      totals, parts := totals + [KeptHunks(hunks, n)], parts + [IfKept(hunks, n - 1)];
    }
  }

  lemma {:induction false} HunkShares(hunks: seq<Hunk>, n: nat)
      returns (sums: seq<seq<string>>, shares: seq<seq<string>>)
    requires n <= |hunks|
    ensures Accumulates(sums, shares) && |shares| == n && sums[n] == HunksChanges(hunks, n)
    ensures forall i :: 0 <= i < n ==> shares[i] == HunkShare(hunks, i)
  {
    if n == 0 {
      sums, shares := [[]], [];
    } else {
      sums, shares := HunkShares(hunks, n - 1);
      AccumulatesMore(sums, shares, HunksChanges(hunks, n), HunkShare(hunks, n - 1));
      sums, shares := sums + [HunksChanges(hunks, n)], shares + [HunkShare(hunks, n - 1)];
    }
  }

  lemma KeptHunksShow(hunks: seq<Hunk>)
    requires HunksPlain(hunks)
    ensures Shown(KeptHunks(hunks, |hunks|)) == HunksChanges(hunks, |hunks|)
  {
    var totals, parts := HunkOutputs(hunks, |hunks|);
    var sums, shares := HunkShares(hunks, |hunks|);
    forall i | 0 <= i < |hunks| ensures Shown(parts[i]) == shares[i] {
      HunkShows(hunks, i);
    }
    PartsShowShares(totals, parts, sums, shares, |hunks|);
  }

  lemma HunkNoteShows(hunks: seq<Hunk>)
    ensures Shown(HunkNote(hunks)) == []
  {
    if HunkNote(hunks) != [] { ShownNote(HunkNote(hunks)[0]); }
  }

  lemma KeptFileShows(f: DiffFile)
    requires HunksPlain(f.hunks)
    ensures Shown(KeptFile(f)) == FileChanges(f)
  {
    var kept := KeptHunks(f.hunks, |f.hunks|);
    KeptHunksShow(f.hunks);
    HunkNoteShows(f.hunks);
    ShownAppend(kept, HunkNote(f.hunks));
    assert Shown(kept) + [] == Shown(kept);
    ShownInputs(f.metadata);
    ShownAppend(Inputs(f.metadata), kept + HunkNote(f.hunks));
    ShownInputs(HeaderLines(f));
    ShownAppend(Inputs(HeaderLines(f)), Inputs(f.metadata) + (kept + HunkNote(f.hunks)));
  }

  lemma {:induction false} FileShares(files: seq<DiffFile>, n: nat)
      returns (sums: seq<seq<string>>, shares: seq<seq<string>>)
    requires n <= |files|
    ensures Accumulates(sums, shares) && |shares| == n && sums[n] == FilesChanges(files, n)
    ensures forall i :: 0 <= i < n ==> shares[i] == FileChanges(files[i])
  {
    if n == 0 {
      sums, shares := [[]], [];
    } else {
      sums, shares := FileShares(files, n - 1);
      AccumulatesMore(sums, shares, FilesChanges(files, n), FileChanges(files[n - 1]));
      sums, shares := sums + [FilesChanges(files, n)], shares + [FileChanges(files[n - 1])];
    }
  }

  lemma KeptFilesShow(files: seq<DiffFile>, n: nat)
    requires n <= |files| && FilesPlain(files)
    ensures Shown(KeptFiles(files, n)) == FilesChanges(files, n)
  {
    var totals, parts := FileOutputs(files, n);
    var sums, shares := FileShares(files, n);
    forall i | 0 <= i < n ensures Shown(parts[i]) == shares[i] {
      KeptFileShows(files[i]);
    }
    PartsShowShares(totals, parts, sums, shares, n);
  }

  /**
   Main result: the additions and deletions of the output are, in order, those of the metadata and
   of the first ten changing hunks of each file; of more than twenty files only nineteen are shown.
   */
  lemma OutputShows(files: seq<DiffFile>)
    requires FilesPlain(files)
    ensures Shown(Compressed(files)) == FilesChanges(files, FilesShown(files))
  {
    KeptFilesShow(files, FileCap(files));
    FileNoteShows(files);
    ShownAppend(KeptFiles(files, FileCap(files)), FileNote(files));
  }

  lemma FileNoteShows(files: seq<DiffFile>)
    ensures Shown(FileNote(files)) == []
  {
    if FileNote(files) != [] { ShownNote(FileNote(files)[0]); }
  }

  // ------------------------------------------------------------ when nothing is lost

  /** `shown` is all of `full`, or shorter. */
  ghost predicate AllOrLess(shown: seq<string>, full: seq<string>, all: bool) {
    if all then shown == full else |shown| < |full|
  }

  lemma AllOrLessConcat(a: seq<string>, b: seq<string>, x: bool, c: seq<string>, d: seq<string>, y: bool)
    requires AllOrLess(a, b, x) && AllOrLess(c, d, y)
    ensures AllOrLess(a + c, b + d, x && y)
  {
  }

  predicate FewChanges(hunks: seq<Hunk>, n: nat)
    requires n <= |hunks|
  {
    ChangingBefore(hunks, n) <= 10
  }

  lemma {:induction false} HunksLoss(hunks: seq<Hunk>, n: nat)
    requires n <= |hunks| && HunksPlain(hunks)
    ensures AllOrLess(HunksChanges(hunks, n), Changes(HunksLines(hunks[..n])), FewChanges(hunks, n))
  {
    if n > 0 {
      var h := hunks[n - 1];
      assert hunks[..n] == hunks[..n - 1] + [h];
      HunksLoss(hunks, n - 1);
      HunkChanges(h);
      HunksLinesAppend(hunks[..n - 1], h);
      ChangesAppend(HunksLines(hunks[..n - 1]), HunkLines(h));
    }
  }

  lemma FileLoss(f: DiffFile)
    requires HunksPlain(f.hunks)
    ensures AllOrLess(FileChanges(f), Changes(FileLines(f)), FewChanges(f.hunks, |f.hunks|))
  {
    HunksLoss(f.hunks, |f.hunks|);
    assert f.hunks[..|f.hunks|] == f.hunks;
    ChangesAppend(f.metadata, HunksLines(f.hunks));
    ChangesAppend(HeaderLines(f), f.metadata + HunksLines(f.hunks));
  }

  predicate FewInEach(files: seq<DiffFile>, n: nat)
    requires n <= |files|
  {
    forall i :: 0 <= i < n ==> FewChanges(files[i].hunks, |files[i].hunks|)
  }

  lemma {:induction false} FilesLoss(files: seq<DiffFile>, n: nat)
    requires n <= |files| && FilesPlain(files)
    ensures AllOrLess(FilesChanges(files, n), Changes(Flatten(files[..n])), FewInEach(files, n))
  {
    if n > 0 {
      var f := files[n - 1];
      assert files[..n] == files[..n - 1] + [f];
      FilesLoss(files, n - 1);
      FileLoss(f);
      FlattenAppend(files[..n - 1], f);
      ChangesAppend(Flatten(files[..n - 1]), FileLines(f));
      AllOrLessConcat(FilesChanges(files, n - 1), Changes(Flatten(files[..n - 1])), FewInEach(files, n - 1),
                      FileChanges(f), Changes(FileLines(f)), FewChanges(f.hunks, |f.hunks|));
      FewStep(files, n);
    }
  }

  lemma FewStep(files: seq<DiffFile>, n: nat)
    requires 0 < n <= |files|
    ensures FewInEach(files, n) <==> FewInEach(files, n - 1) && FewChanges(files[n - 1].hunks, |files[n - 1].hunks|)
  {
  }

  lemma {:induction false} FlattenSplits(files: seq<DiffFile>, n: nat)
    requires n <= |files|
    ensures Flatten(files) == Flatten(files[..n]) + Flatten(files[n..])
    decreases |files| - n
  {
    if n == |files| {
      assert files[..n] == files && files[n..] == [];
    } else {
      var f := files[n];
      FlattenSplits(files, n + 1);
      PrefixGrowsBy(files, n);
      FlattenAppend(files[..n], f);
      SuffixStartsWith(files, n);
      FlattenCons(f, files[n + 1..]);
      Regroup(Flatten(files[..n]), FileLines(f), Flatten(files[n + 1..]));
    }
  }

  lemma Regroup(a: seq<string>, b: seq<string>, c: seq<string>)
    ensures (a + b) + c == a + (b + c)
  {
  }

  lemma FlattenCons(f: DiffFile, rest: seq<DiffFile>)
    ensures Flatten([f] + rest) == FileLines(f) + Flatten(rest)
  {
    assert ([f] + rest)[1..] == rest;
  }

  /** No kept file has more than ten changing hunks, and the files beyond the cap have no changes at all. */
  predicate LosesNothing(files: seq<DiffFile>) {
    FewInEach(files, FilesShown(files)) && Changes(Flatten(files[FilesShown(files)..])) == []
  }

  /**
   Main result: the output shows all additions and deletions of the parsed input if and only if no
   kept file has more than ten changing hunks and the files beyond the cap have no changes at all;
   otherwise it shows fewer.
   */
  lemma NothingLostExactly(files: seq<DiffFile>)
    requires FilesPlain(files)
    ensures Shown(Compressed(files)) == Changes(Flatten(files)) <==> LosesNothing(files)
    ensures !LosesNothing(files) ==> |Shown(Compressed(files))| < |Changes(Flatten(files))|
  {
    var n := FilesShown(files);
    OutputShows(files);
    FilesLoss(files, n);
    FlattenSplits(files, n);
    ChangesAppend(Flatten(files[..n]), Flatten(files[n..]));
  }

  /** Parsing yields such files whenever no line that reads as a change is taken for a hunk header. */
  lemma ParsedIsPlain(files: seq<DiffFile>, isHunk: LinePredicate)
    requires WellFormed(files, isHunk) && forall l :: isHunk(l) ==> IfChange(l) == []
    ensures FilesPlain(files)
  {
    forall i, j | 0 <= i < |files| && 0 <= j < |files[i].hunks| ensures HunkPlain(files[i].hunks[j]) {
      assert FileOk(files[i], isHunk);
      assert HunkOk(files[i].hunks[j], isHunk);
    }
  }
}
