/**
 The git diff parser: builder state threaded through three line handlers, proved to lose and
 reorder nothing and to produce the only well-formed structure with the given lines.

 The hunk-header regular expression is a parameter: every result holds for any predicate.
 */
module DiffParser {
  import opened Common
  import opened DiffContext

  datatype Hunk = Hunk(header: string, lines: seq<DiffLine>)

  datatype DiffFile = DiffFile(header: string, metadata: seq<string>, hunks: seq<Hunk>)

  type LinePredicate = string -> bool

  predicate IsFileHeader(line: string) {
    "diff --git " <= line
  }

  function Classify(line: string): DiffLine {
    if " " <= line then Context(line)
    else if "+" <= line then Addition(line)
    else if "-" <= line then Deletion(line)
    else Other(line)
  }

  // ------------------------------------------------------------ back to lines

  function Texts(lines: seq<DiffLine>): (r: seq<string>)
    ensures |r| == |lines| && forall i :: 0 <= i < |lines| ==> r[i] == lines[i].text
  {
    if lines == [] then [] else Texts(lines[..|lines| - 1]) + [lines[|lines| - 1].text]
  }

  function HunkLines(h: Hunk): seq<string> {
    [h.header] + Texts(h.lines)
  }

  function HunksLines(hunks: seq<Hunk>): seq<string> {
    if hunks == [] then [] else HunkLines(hunks[0]) + HunksLines(hunks[1..])
  }

  /** The header line of a file, if it has one. */
  function HeaderLines(f: DiffFile): seq<string> {
    if f.header == "" then [] else [f.header]
  }

  function FileLines(f: DiffFile): seq<string> {
    HeaderLines(f) + (f.metadata + HunksLines(f.hunks))
  }

  function Flatten(files: seq<DiffFile>): seq<string> {
    if files == [] then [] else FileLines(files[0]) + Flatten(files[1..])
  }

  lemma {:induction false} HunksLinesAppend(hunks: seq<Hunk>, h: Hunk)
    ensures HunksLines(hunks + [h]) == HunksLines(hunks) + HunkLines(h)
  {
    if hunks == [] {
      assert hunks + [h] == [h] && HunksLines([h]) == HunkLines(h) + HunksLines([]);
    } else {
      assert (hunks + [h])[1..] == hunks[1..] + [h];
      HunksLinesAppend(hunks[1..], h);
    }
  }

  lemma {:induction false} FlattenAppend(files: seq<DiffFile>, f: DiffFile)
    ensures Flatten(files + [f]) == Flatten(files) + FileLines(f)
  {
    if files == [] {
      assert files + [f] == [f] && Flatten([f]) == FileLines(f) + Flatten([]);
    } else {
      assert (files + [f])[1..] == files[1..] + [f];
      FlattenAppend(files[1..], f);
    }
  }

  // ------------------------------------------------------------ well-formed structures

  predicate IsBody(line: string, isHunk: LinePredicate) {
    !IsFileHeader(line) && !isHunk(line)
  }

  predicate HunkOk(h: Hunk, isHunk: LinePredicate) {
    && isHunk(h.header) && !IsFileHeader(h.header)
    && forall i :: 0 <= i < |h.lines| ==>
         IsBody(h.lines[i].text, isHunk) && h.lines[i] == Classify(h.lines[i].text)
  }

  /** A file without a header: it stands for hunks that no `diff --git` line announced. */
  predicate Synthetic(f: DiffFile) {
    f.header == "" && f.metadata == [] && f.hunks != []
  }

  predicate FileOk(f: DiffFile, isHunk: LinePredicate) {
    && (IsFileHeader(f.header) || Synthetic(f))
    && (forall i :: 0 <= i < |f.metadata| ==> IsBody(f.metadata[i], isHunk))
    && (forall i :: 0 <= i < |f.hunks| ==> HunkOk(f.hunks[i], isHunk))
  }

  /** Only the first file may be synthetic. */
  predicate WellFormed(files: seq<DiffFile>, isHunk: LinePredicate) {
    && (forall i :: 0 <= i < |files| ==> FileOk(files[i], isHunk))
    && (forall i :: 1 <= i < |files| ==> !Synthetic(files[i]))
  }

  /** The input from its first file or hunk header on. */
  function FromFirstHeader(lines: seq<string>, isHunk: LinePredicate): seq<string> {
    if lines == [] || !IsBody(lines[0], isHunk) then lines else FromFirstHeader(lines[1..], isHunk)
  }

  // ------------------------------------------------------------ the parser

  /** The current file with the current hunk attached. */
  function Attached(file: DiffFile, hunk: Option<Hunk>): DiffFile {
    if hunk.None? then file else file.(hunks := file.hunks + [hunk.value])
  }

  function Assembled(files: seq<DiffFile>, file: Option<DiffFile>, hunk: Option<Hunk>): seq<DiffFile> {
    if file.None? then files else files + [Attached(file.value, hunk)]
  }

  /** The last file of a well-formed list may be replaced by any file that is as good. */
  lemma LastFileReplaced(files: seq<DiffFile>, f: DiffFile, g: DiffFile, isHunk: LinePredicate)
    requires WellFormed(files + [f], isHunk) && FileOk(g, isHunk) && g.header == f.header
    ensures WellFormed(files + [g], isHunk)
  {
    var old', new' := files + [f], files + [g];
    forall i | 0 <= i < |new'| ensures FileOk(new'[i], isHunk) && (i >= 1 ==> !Synthetic(new'[i])) {
      assert FileOk(old'[i], isHunk) && (i >= 1 ==> !Synthetic(old'[i]));
    }
  }

  lemma LastFileIsOk(files: seq<DiffFile>, f: DiffFile, isHunk: LinePredicate)
    requires WellFormed(files + [f], isHunk)
    ensures FileOk(f, isHunk)
  {
    assert (files + [f])[|files|] == f;
  }

  /** Growing the last file by lines at its end grows the flattened text by the same lines. */
  lemma LastFileGrows(files: seq<DiffFile>, f: DiffFile, g: DiffFile, more: seq<string>)
    requires FileLines(g) == FileLines(f) + more
    ensures Flatten(files + [g]) == Flatten(files + [f]) + more
  {
    assert Flatten(files) + (FileLines(f) + more) == (Flatten(files) + FileLines(f)) + more;
    FlattenAppend(files, f);
    FlattenAppend(files, g);
  }

  /** A new file at the end. */
  lemma FileOpens(files: seq<DiffFile>, line: string, isHunk: LinePredicate)
    requires WellFormed(files, isHunk) && IsFileHeader(line)
    ensures var g := DiffFile(line, [], []);
            WellFormed(files + [g], isHunk) && Flatten(files + [g]) == Flatten(files) + [line]
  {
    var g := DiffFile(line, [], []);
    FlattenAppend(files, g);
    HeaderOnly(line);
  }

  lemma HeaderOnly(line: string)
    requires line != ""
    ensures FileLines(DiffFile(line, [], [])) == [line]
  {
  }

  /** A new hunk at the end of the last file. */
  lemma HunkOpens(files: seq<DiffFile>, f: DiffFile, line: string, isHunk: LinePredicate)
    requires WellFormed(files + [f], isHunk) && HunkOk(Hunk(line, []), isHunk)
    ensures var g := f.(hunks := f.hunks + [Hunk(line, [])]);
            WellFormed(files + [g], isHunk) && Flatten(files + [g]) == Flatten(files + [f]) + [line]
  {
    var h := Hunk(line, []);
    HunkStarts(f, h);
    LastFileIsOk(files, f, isHunk);
    LastFileReplaced(files, f, f.(hunks := f.hunks + [h]), isHunk);
    assert HunkLines(h) == [line];
    LastFileGrows(files, f, f.(hunks := f.hunks + [h]), [line]);
  }

  /** A new line at the end of the last hunk. */
  lemma HunkContinues(files: seq<DiffFile>, f: DiffFile, h: Hunk, line: string, isHunk: LinePredicate)
    requires WellFormed(files + [f.(hunks := f.hunks + [h])], isHunk) && IsBody(line, isHunk)
    ensures var g := f.(hunks := f.hunks + [h.(lines := h.lines + [Classify(line)])]);
            && WellFormed(files + [g], isHunk)
            && Flatten(files + [g]) == Flatten(files + [f.(hunks := f.hunks + [h])]) + [line]
  {
    var f0 := f.(hunks := f.hunks + [h]);
    var h' := h.(lines := h.lines + [Classify(line)]);
    var g := f.(hunks := f.hunks + [h']);
    LastFileIsOk(files, f0, isHunk);
    assert HunkOk(h, isHunk) by { assert f0.hunks[|f.hunks|] == h; }
    assert HunkOk(h', isHunk);
    assert FileOk(g, isHunk) by {
      assert forall i :: 0 <= i < |f.hunks| ==> f0.hunks[i] == f.hunks[i];
    }
    LastFileReplaced(files, f0, g, isHunk);
    HunkGrows(f, h, Classify(line));
    LastFileGrows(files, f0, g, [line]);
  }

  /** A metadata line of the last file, which has no hunk yet. */
  lemma MetadataContinues(files: seq<DiffFile>, f: DiffFile, line: string, isHunk: LinePredicate)
    requires WellFormed(files + [f], isHunk) && IsFileHeader(f.header) && f.hunks == [] && IsBody(line, isHunk)
    ensures var g := f.(metadata := f.metadata + [line]);
            WellFormed(files + [g], isHunk) && Flatten(files + [g]) == Flatten(files + [f]) + [line]
  {
    var g := f.(metadata := f.metadata + [line]);
    LastFileIsOk(files, f, isHunk);
    LastFileReplaced(files, f, g, isHunk);
    LastFileGrows(files, f, g, [line]);
  }

  /** The first hunk of an input that has no file header yet. */
  lemma SyntheticOpens(line: string, isHunk: LinePredicate)
    requires HunkOk(Hunk(line, []), isHunk)
    ensures var g := DiffFile("", [], [Hunk(line, [])]);
            WellFormed([g], isHunk) && Flatten([g]) == [line]
  {
    var g := DiffFile("", [], [Hunk(line, [])]);
    assert HunksLines(g.hunks) == [line] + HunksLines([]);
    FlattenAppend([], g);
    assert [] + [g] == [g];
  }

  lemma HunkStarts(f: DiffFile, h: Hunk)
    ensures FileLines(f.(hunks := f.hunks + [h])) == FileLines(f) + HunkLines(h)
  {
    HunksLinesAppend(f.hunks, h);
  }

  lemma HunkGrows(f: DiffFile, h: Hunk, l: DiffLine)
    ensures FileLines(f.(hunks := f.hunks + [h.(lines := h.lines + [l])]))
            == FileLines(f.(hunks := f.hunks + [h])) + [l.text]
  {
    HunkStarts(f, h);
    HunkStarts(f, h.(lines := h.lines + [l]));
    assert Texts(h.lines + [l]) == Texts(h.lines) + [l.text];
  }

  class Parser {
    const isHunk: LinePredicate
    var files: seq<DiffFile>
    var currentFile: Option<DiffFile>
    var currentHunk: Option<Hunk>

    constructor (isHunk: LinePredicate)
      ensures this.isHunk == isHunk && Valid() && Parsed() == []
    {
      this.isHunk := isHunk;
      files, currentFile, currentHunk := [], None, None;
    }

    /** What the parser would return if the input ended here. */
    ghost function Parsed(): seq<DiffFile>
      reads this
    {
      Assembled(files, currentFile, currentHunk)
    }

    ghost predicate Valid()
      reads this
    {
      && WellFormed(Parsed(), isHunk)
      && (currentFile.None? ==> files == [] && currentHunk.None?)
      && (currentFile.Some? && currentHunk.None? ==>
            IsFileHeader(currentFile.value.header) && currentFile.value.hunks == [])
    }

    method AttachHunk()
      requires Valid()
      modifies this`currentFile, this`currentHunk
      ensures currentHunk == None && Parsed() == old(Parsed())
      ensures currentFile.Some? <==> old(currentFile).Some?
    {
      if currentHunk.Some? && currentFile.Some? {
        currentFile := Some(Attached(currentFile.value, currentHunk));
      }
      currentHunk := None;
    }

    method HandleDiffGitHeader(line: string)
      requires Valid() && IsFileHeader(line)
      modifies this
      ensures Valid() && Flatten(Parsed()) == old(Flatten(Parsed())) + [line]
    {
      AttachHunk();
      if currentFile.Some? {
        files := files + [currentFile.value];
      }
      FileOpens(files, line, isHunk);
      currentFile := Some(DiffFile(line, [], []));
    }

    method HandleHunkHeader(line: string)
      requires Valid() && isHunk(line) && !IsFileHeader(line)
      modifies this
      ensures Valid() && Flatten(Parsed()) == old(Flatten(Parsed())) + [line]
    {
      AttachHunk();
      assert HunkOk(Hunk(line, []), isHunk);
      if currentFile.None? {
        currentFile := Some(DiffFile("", [], []));
        SyntheticOpens(line, isHunk);
        assert files == [] && [] + [Hunk(line, [])] == [Hunk(line, [])];
        assert Assembled(files, currentFile, Some(Hunk(line, []))) == [DiffFile("", [], [Hunk(line, [])])];
      } else {
        HunkOpens(files, currentFile.value, line, isHunk);
      }
      currentHunk := Some(Hunk(line, []));
    }

    method HandleDiffBodyLine(line: string)
      requires Valid() && IsBody(line, isHunk)
      modifies this
      ensures Valid()
      ensures Flatten(Parsed()) == old(Flatten(Parsed())) + if old(currentFile).Some? then [line] else []
      ensures currentFile.Some? <==> old(currentFile).Some?
    {
      if currentHunk.Some? {
        var h := currentHunk.value;
        HunkContinues(files, currentFile.value, h, line, isHunk);
        currentHunk := Some(h.(lines := h.lines + [Classify(line)]));
      } else if currentFile.Some? {
        var f := currentFile.value;
        MetadataContinues(files, f, line, isHunk);
        currentFile := Some(f.(metadata := f.metadata + [line]));
      }
    }

    method Finish() returns (parsed: seq<DiffFile>)
      requires Valid()
      modifies this
      ensures parsed == old(Parsed())
    {
      AttachHunk();
      if currentFile.Some? {
        files := files + [currentFile.value];
        currentFile := None;
      }
      parsed := files;
    }
  }

  lemma {:induction false} FromFirstHeaderAppend(lines: seq<string>, line: string, isHunk: LinePredicate)
    ensures FromFirstHeader(lines + [line], isHunk)
            == FromFirstHeader(lines, isHunk)
               + if FromFirstHeader(lines, isHunk) == [] && IsBody(line, isHunk) then [] else [line]
  {
    if lines == [] {
      assert [] + [line] == [line] && [line][1..] == [];
    } else if IsBody(lines[0], isHunk) {
      assert (lines + [line])[1..] == lines[1..] + [line];
      FromFirstHeaderAppend(lines[1..], line, isHunk);
    }
  }

  /** Parsing keeps every line from the first header on, in order, in a well-formed structure. */
  method ParseDiff(lines: seq<string>, isHunk: LinePredicate) returns (files: seq<DiffFile>)
    ensures WellFormed(files, isHunk) && Flatten(files) == FromFirstHeader(lines, isHunk)
  {
    var p := new Parser(isHunk);
    for i := 0 to |lines|
      invariant p.Valid() && p.isHunk == isHunk && fresh(p)
      invariant Flatten(p.Parsed()) == FromFirstHeader(lines[..i], isHunk)
      invariant p.currentFile.None? <==> FromFirstHeader(lines[..i], isHunk) == []
    {
      var line := lines[i];
      assert lines[..i + 1] == lines[..i] + [line];
      FromFirstHeaderAppend(lines[..i], line, isHunk);
      if IsFileHeader(line) {
        p.HandleDiffGitHeader(line);
      } else if isHunk(line) {
        p.HandleHunkHeader(line);
      } else {
        p.HandleDiffBodyLine(line);
      }
    }
    assert lines[..|lines|] == lines;
    files := p.Finish();
  }

  // ------------------------------------------------------------ the structure is unique

  /** Two splits of one sequence at the first element that satisfies `p` are the same split. */
  lemma SameSplit(a: seq<string>, b: seq<string>, c: seq<string>, d: seq<string>, p: LinePredicate)
    requires a + b == c + d
    requires (forall i :: 0 <= i < |a| ==> !p(a[i])) && (forall i :: 0 <= i < |c| ==> !p(c[i]))
    requires (b == [] || p(b[0])) && (d == [] || p(d[0]))
    ensures a == c && b == d
  {
    var whole := a + b;
    assert forall i :: 0 <= i < |a| ==> !p(whole[i]);
    assert forall i :: 0 <= i < |c| ==> whole[i] == (c + d)[i] && !p(whole[i]);
    assert b != [] ==> whole[|a|] == b[0];
    assert d != [] ==> whole[|c|] == (c + d)[|c|] == d[0];
    assert |a| == |c|;
    assert a == whole[..|a|] && c == whole[..|c|] && b == whole[|a|..] && d == whole[|c|..];
  }

  /** The same, when the first element of each part may be anything. */
  lemma SameHead(a: seq<string>, b: seq<string>, c: seq<string>, d: seq<string>, p: LinePredicate)
    requires a + b == c + d && a != [] && c != []
    requires (forall i :: 1 <= i < |a| ==> !p(a[i])) && (forall i :: 1 <= i < |c| ==> !p(c[i]))
    requires (b == [] || p(b[0])) && (d == [] || p(d[0]))
    ensures a == c && b == d
  {
    assert a[1..] + b == (a + b)[1..] == (c + d)[1..] == c[1..] + d;
    SameSplit(a[1..], b, c[1..], d, p);
    assert a == [(a + b)[0]] + a[1..] && c == [(c + d)[0]] + c[1..];
  }

  lemma SameHunk(g: Hunk, h: Hunk, isHunk: LinePredicate)
    requires HunkOk(g, isHunk) && HunkOk(h, isHunk) && HunkLines(g) == HunkLines(h)
    ensures g == h
  {
    assert g.header == HunkLines(g)[0] && h.header == HunkLines(h)[0];
    assert |g.lines| == |h.lines|;
    forall i | 0 <= i < |g.lines| ensures g.lines[i] == h.lines[i] {
      assert HunkLines(g)[i + 1] == g.lines[i].text && HunkLines(h)[i + 1] == h.lines[i].text;
    }
  }

  /** The first hunk of a list, and where the next one begins. */
  lemma HunksShape(hunks: seq<Hunk>, isHunk: LinePredicate)
    requires hunks != [] && forall i :: 0 <= i < |hunks| ==> HunkOk(hunks[i], isHunk)
    ensures var h, rest := HunkLines(hunks[0]), HunksLines(hunks[1..]);
            && h != [] && (forall i :: 1 <= i < |h| ==> !isHunk(h[i])) && (rest == [] || isHunk(rest[0]))
  {
    var h := HunkLines(hunks[0]);
    forall i | 1 <= i < |h| ensures !isHunk(h[i]) {
      assert h[i] == hunks[0].lines[i - 1].text;
    }
    if |hunks| > 1 {
      assert HunksLines(hunks[1..])[0] == hunks[1].header;
    }
  }

  lemma {:induction false} SameHunks(x: seq<Hunk>, y: seq<Hunk>, isHunk: LinePredicate)
    requires forall i :: 0 <= i < |x| ==> HunkOk(x[i], isHunk)
    requires forall i :: 0 <= i < |y| ==> HunkOk(y[i], isHunk)
    requires HunksLines(x) == HunksLines(y)
    ensures x == y
  {
    if x != [] && y != [] {
      HunksShape(x, isHunk);
      HunksShape(y, isHunk);
      SameHead(HunkLines(x[0]), HunksLines(x[1..]), HunkLines(y[0]), HunksLines(y[1..]), isHunk);
      SameHunk(x[0], y[0], isHunk);
      SameHunks(x[1..], y[1..], isHunk);
      assert x == [x[0]] + x[1..] && y == [y[0]] + y[1..];
    }
  }

  /** The lines of a file after its first one. */
  lemma {:induction false} HunksHaveNoFileHeader(hunks: seq<Hunk>, isHunk: LinePredicate)
    requires forall i :: 0 <= i < |hunks| ==> HunkOk(hunks[i], isHunk)
    ensures forall i :: 0 <= i < |HunksLines(hunks)| ==> !IsFileHeader(HunksLines(hunks)[i])
    ensures hunks != [] ==> HunksLines(hunks) != [] && isHunk(HunksLines(hunks)[0])
  {
    if hunks != [] {
      HunksHaveNoFileHeader(hunks[1..], isHunk);
    }
  }

  lemma FileShape(f: DiffFile, isHunk: LinePredicate)
    requires FileOk(f, isHunk)
    ensures var l := FileLines(f);
            && l != [] && (IsFileHeader(l[0]) <==> !Synthetic(f))
            && (!Synthetic(f) ==> l[0] == f.header && l[1..] == f.metadata + HunksLines(f.hunks))
            && (Synthetic(f) ==> l == HunksLines(f.hunks))
            && forall i :: 1 <= i < |l| ==> !IsFileHeader(l[i])
  {
    HunksHaveNoFileHeader(f.hunks, isHunk);
    if Synthetic(f) {
      assert FileLines(f) == HunksLines(f.hunks);
    }
  }

  lemma SameFile(f: DiffFile, g: DiffFile, isHunk: LinePredicate)
    requires FileOk(f, isHunk) && FileOk(g, isHunk) && FileLines(f) == FileLines(g)
    ensures f == g
  {
    FileShape(f, isHunk);
    FileShape(g, isHunk);
    if !Synthetic(f) {
      HunksHaveNoFileHeader(f.hunks, isHunk);
      HunksHaveNoFileHeader(g.hunks, isHunk);
      SameSplit(f.metadata, HunksLines(f.hunks), g.metadata, HunksLines(g.hunks), isHunk);
    }
    SameHunks(f.hunks, g.hunks, isHunk);
  }

  /** The first file of a list, and where the next one begins. */
  lemma ListShape(files: seq<DiffFile>, isHunk: LinePredicate)
    requires WellFormed(files, isHunk) && files != []
    ensures var f, rest := FileLines(files[0]), Flatten(files[1..]);
            && f != [] && (forall i :: 1 <= i < |f| ==> !IsFileHeader(f[i]))
            && (rest == [] || IsFileHeader(rest[0])) && WellFormed(files[1..], isHunk)
  {
    FileShape(files[0], isHunk);
    if |files| > 1 {
      FileShape(files[1], isHunk);
      assert Flatten(files[1..]) == FileLines(files[1]) + Flatten(files[1..][1..]);
    }
  }

  /** A well-formed structure is determined by its lines, so the parser returns the only one. */
  lemma {:induction false} ParseIsUnique(x: seq<DiffFile>, y: seq<DiffFile>, isHunk: LinePredicate)
    requires WellFormed(x, isHunk) && WellFormed(y, isHunk) && Flatten(x) == Flatten(y)
    ensures x == y
  {
    if x != [] { ListShape(x, isHunk); }
    if y != [] { ListShape(y, isHunk); }
    if x != [] && y != [] {
      SameHead(FileLines(x[0]), Flatten(x[1..]), FileLines(y[0]), Flatten(y[1..]), IsFileHeader);
      SameFile(x[0], y[0], isHunk);
      ParseIsUnique(x[1..], y[1..], isHunk);
      assert x == [x[0]] + x[1..] && y == [y[0]] + y[1..];
    }
  }
}
