/**
 Rendering a parsed diff: which files, hunks and lines survive, the methods that write them, and
 what the compressed text is in terms of the input.
 */
module DiffRender {
  import opened Common
  import opened DiffContext
  import opened DiffParser
  import opened Indices

  const MAX_HUNKS_PER_FILE := 10
  const MAX_FILES := 20
  const MIN_DIFF_LINES := 30
  const FIXED_SLOTS := 128

  // A line of output: either a line of the input or a note the compressor adds.
  datatype OutLine = Input(text: string) | Note(text: string)

  function Unlines(ls: seq<OutLine>): string {
    if ls == [] then "" else Unlines(ls[..|ls| - 1]) + (ls[|ls| - 1].text + "\n")
  }

  lemma {:induction false} UnlinesAppend(a: seq<OutLine>, b: seq<OutLine>)
    ensures Unlines(a + b) == Unlines(a) + Unlines(b)
  {
    if b == [] {
      assert a + b == a;
    } else {
      var n := |b| - 1;
      assert (a + b)[..|a + b| - 1] == a + b[..n];
      UnlinesAppend(a, b[..n]);
    }
  }

  /** Writing `b` after `a` was written to `out`. */
  lemma WrittenAfter(out: string, a: seq<OutLine>, b: seq<OutLine>)
    ensures (out + Unlines(a)) + Unlines(b) == out + Unlines(a + b)
  {
    UnlinesAppend(a, b);
  }

  lemma UnlinesOne(l: OutLine)
    ensures Unlines([l]) == l.text + "\n"
  {
    assert [l][..0] == [];
  }

  function Decimal(n: nat): string {
    if n < 10 then [('0' as int + n) as char] else Decimal(n / 10) + [('0' as int + n % 10) as char]
  }

  function MoreHunks(n: nat): OutLine {
    Note("[#diff: " + Decimal(n) + " more hunks in this file]")
  }

  function MoreFiles(n: nat): OutLine {
    Note("[#diff: truncated " + Decimal(n) + " more files]")
  }

  /** Appending one line with its line feed. */
  method WriteLine(l: OutLine, out0: string) returns (out: string)
    ensures out == out0 + Unlines([l])
  {
    UnlinesOne(l);
    out := out0 + (l.text + "\n");
  }

  // ------------------------------------------------------------ what survives

  /** The surviving lines among the first `n` of a hunk. */
  ghost function KeptLines(lines: seq<DiffLine>, n: nat): seq<OutLine>
    requires n <= |lines|
  {
    if n == 0 then []
    else KeptLines(lines, n - 1) + if NearChange(lines, n - 1) then [Input(lines[n - 1].text)] else []
  }

  /** A hunk without surviving lines loses its header as well. */
  ghost function KeptHunk(h: Hunk): seq<OutLine> {
    var kept := KeptLines(h.lines, |h.lines|);
    if kept == [] then [] else [Input(h.header)] + kept
  }

  predicate HasChanges(h: Hunk) {
    exists i :: 0 <= i < |h.lines| && (h.lines[i].Addition? || h.lines[i].Deletion?)
  }

  /** How many of the first `n` hunks add or delete lines. */
  function ChangeCount(hunks: seq<Hunk>, n: nat): (c: nat)
    requires n <= |hunks|
    ensures c <= n
  {
    if n == 0 then 0 else ChangeCount(hunks, n - 1) + if HasChanges(hunks[n - 1]) then 1 else 0
  }

  /** Changing hunks come first, the others fill what is left of the cap, both in input order. */
  predicate HunkKept(hunks: seq<Hunk>, h: nat)
    requires h < |hunks|
  {
    if HasChanges(hunks[h]) then ChangeCount(hunks, h) < MAX_HUNKS_PER_FILE
    else ChangeCount(hunks, |hunks|) + (h - ChangeCount(hunks, h)) < MAX_HUNKS_PER_FILE
  }

  ghost function KeptHunks(hunks: seq<Hunk>, n: nat): seq<OutLine>
    requires n <= |hunks|
  {
    if n == 0 then []
    else KeptHunks(hunks, n - 1) + if HunkKept(hunks, n - 1) then KeptHunk(hunks[n - 1]) else []
  }

  function HunkNote(hunks: seq<Hunk>): seq<OutLine> {
    if |hunks| <= MAX_HUNKS_PER_FILE then []
    else [MoreHunks(|hunks| - MAX_HUNKS_PER_FILE)]
  }

  function Inputs(ls: seq<string>): seq<OutLine> {
    if ls == [] then [] else Inputs(ls[..|ls| - 1]) + [Input(ls[|ls| - 1])]
  }

  ghost function KeptFile(f: DiffFile): seq<OutLine> {
    Inputs(HeaderLines(f)) + (Inputs(f.metadata) + (KeptHunks(f.hunks, |f.hunks|) + HunkNote(f.hunks)))
  }

  ghost function KeptFiles(files: seq<DiffFile>, n: nat): seq<OutLine>
    requires n <= |files|
  {
    if n == 0 then [] else KeptFiles(files, n - 1) + KeptFile(files[n - 1])
  }

  function FileCap(files: seq<DiffFile>): (n: nat)
    ensures n <= |files|
  {
    if |files| <= MAX_FILES then |files| else MAX_FILES - 1
  }

  ghost function Compressed(files: seq<DiffFile>): seq<OutLine> {
    KeptFiles(files, FileCap(files)) + FileNote(files)
  }

  function FileNote(files: seq<DiffFile>): seq<OutLine> {
    if |files| <= MAX_FILES then []
    else [MoreFiles(|files| - (MAX_FILES - 1))]
  }

  // ------------------------------------------------------------ choosing hunks

  lemma {:induction false} ChangeCountGrows(hunks: seq<Hunk>, a: nat, b: nat)
    requires a <= b <= |hunks|
    ensures 0 <= ChangeCount(hunks, b) - ChangeCount(hunks, a) <= b - a
  {
    if a < b { ChangeCountGrows(hunks, a, b - 1); }
  }

  /** Up to the cap, every hunk is kept. */
  lemma FewHunksAreKept(hunks: seq<Hunk>, h: nat)
    requires h < |hunks| <= MAX_HUNKS_PER_FILE
    ensures HunkKept(hunks, h)
  {
    ChangeCountGrows(hunks, h + 1, |hunks|);
  }

  ghost predicate KeptChange(hunks: seq<Hunk>, h: nat) {
    h < |hunks| && HasChanges(hunks[h]) && HunkKept(hunks, h)
  }

  ghost predicate KeptPlain(hunks: seq<Hunk>, h: nat) {
    h < |hunks| && !HasChanges(hunks[h]) && HunkKept(hunks, h)
  }

  method CollectHunkIndices(hunks: seq<Hunk>) returns (kept: seq<nat>)
    ensures Ascending(kept) && forall h: nat :: h in kept <==> h < |hunks| && HunkKept(hunks, h)
    ensures |kept| == Min(MAX_HUNKS_PER_FILE, |hunks|)
  {
    kept := [];
    for i := 0 to |hunks|
      invariant |kept| == Min(MAX_HUNKS_PER_FILE, ChangeCount(hunks, i))
      invariant Distinct(kept) && forall h: nat :: h in kept <==> h < i && KeptChange(hunks, h)
    {
      if HasChanges(hunks[i]) && |kept| < MAX_HUNKS_PER_FILE {
        assert i !in kept;
        kept := kept + [i];
      }
    }
    var changes := ChangeCount(hunks, |hunks|);
    if |kept| < MAX_HUNKS_PER_FILE {
      for i := 0 to |hunks|
        invariant |kept| == Min(MAX_HUNKS_PER_FILE, changes + (i - ChangeCount(hunks, i)))
        invariant Distinct(kept)
        invariant forall h: nat :: h in kept <==> KeptChange(hunks, h) || (h < i && KeptPlain(hunks, h))
      {
        if !HasChanges(hunks[i]) && |kept| < MAX_HUNKS_PER_FILE {
          assert i !in kept;
          kept := kept + [i];
        }
      }
    } else {
      forall h: nat | h < |hunks| && !HasChanges(hunks[h]) ensures !HunkKept(hunks, h) {}
    }
    SortKeepsLength(kept, |hunks|);
    kept := SortDedup(kept, |hunks|);
  }

  /** The positions of the kept hunks in order, and how many hunks were dropped. */
  method CapHunks(hunks: seq<Hunk>) returns (kept: seq<nat>, truncated: nat)
    ensures KeptPositions(hunks, kept)
    ensures truncated == |hunks| - Min(MAX_HUNKS_PER_FILE, |hunks|)
  {
    if |hunks| <= MAX_HUNKS_PER_FILE {
      kept := seq(|hunks|, i => i);
      forall h: nat | h < |hunks| ensures HunkKept(hunks, h) && h in kept {
        FewHunksAreKept(hunks, h);
        assert kept[h] == h;
      }
      truncated := 0;
    } else {
      kept := CollectHunkIndices(hunks);
      truncated := |hunks| - |kept|;
    }
  }

  // ------------------------------------------------------------ writing

  method RenderMarked(lines: seq<DiffLine>, keep: array<bool>, out0: string) returns (out: string)
    requires |lines| <= keep.Length
    requires forall i :: 0 <= i < |lines| ==> keep[i] == NearChange(lines, i)
    ensures out == out0 + Unlines(KeptLines(lines, |lines|))
  {
    out := out0;
    for i := 0 to |lines|
      invariant out == out0 + Unlines(KeptLines(lines, i))
    {
      if keep[i] {
        WrittenAfter(out0, KeptLines(lines, i), [Input(lines[i].text)]);
        out := WriteLine(Input(lines[i].text), out);
      } else {
        assert KeptLines(lines, i) + [] == KeptLines(lines, i);
      }
    }
  }

  /** Short hunks use a fixed array of slots, long ones an array of their own length. */
  method RenderReducedContext(lines: seq<DiffLine>, out0: string) returns (out: string)
    ensures out == out0 + Unlines(KeptLines(lines, |lines|))
  {
    if lines == [] {
      return out0;
    }
    var keep := new bool[if |lines| <= FIXED_SLOTS then FIXED_SLOTS else |lines|](_ => false);
    MarkContextLines(lines, keep);
    out := RenderMarked(lines, keep, out0);
  }

  lemma {:induction false} UnlinesLength(ls: seq<OutLine>)
    ensures Unlines(ls) == "" <==> ls == []
  {
  }

  method RenderHunk(h: Hunk, out0: string) returns (out: string)
    ensures out == out0 + Unlines(KeptHunk(h))
  {
    ghost var kept := KeptLines(h.lines, |h.lines|);
    WrittenAfter(out0, [Input(h.header)], kept);
    out := WriteLine(Input(h.header), out0);
    var headerEnd := |out|;
    out := RenderReducedContext(h.lines, out);
    UnlinesLength(kept);
    if |out| == headerEnd {
      out := out[..|out0|];
    }
  }

  lemma {:induction false} NothingKeptBetween(hunks: seq<Hunk>, a: nat, b: nat)
    requires a <= b <= |hunks| && forall h: nat :: a <= h < b ==> !HunkKept(hunks, h)
    ensures KeptHunks(hunks, a) == KeptHunks(hunks, b)
  {
    if a < b { NothingKeptBetween(hunks, a, b - 1); }
  }

  /** Where the walk over the kept positions stands in the list of all hunks. */
  ghost function Reached(kept: seq<nat>, j: nat, total: nat): nat
    requires j <= |kept|
  {
    if j < |kept| then kept[j] else total
  }

  ghost predicate KeptPositions(hunks: seq<Hunk>, kept: seq<nat>) {
    Ascending(kept) && forall h: nat :: h in kept <==> h < |hunks| && HunkKept(hunks, h)
  }

  lemma FirstKept(hunks: seq<Hunk>, kept: seq<nat>)
    requires KeptPositions(hunks, kept)
    ensures Reached(kept, 0, |hunks|) <= |hunks| && KeptHunks(hunks, Reached(kept, 0, |hunks|)) == []
  {
    if kept != [] { assert kept[0] in kept; }
    NothingKeptBetween(hunks, 0, Reached(kept, 0, |hunks|));
  }

  lemma NextKept(hunks: seq<Hunk>, kept: seq<nat>, j: nat)
    requires KeptPositions(hunks, kept) && j < |kept|
    ensures kept[j] < |hunks| && Reached(kept, j + 1, |hunks|) <= |hunks|
    ensures KeptHunks(hunks, Reached(kept, j + 1, |hunks|)) == KeptHunks(hunks, kept[j]) + KeptHunk(hunks[kept[j]])
  {
    var h, next := kept[j], Reached(kept, j + 1, |hunks|);
    assert h in kept && HunkKept(hunks, h);
    if j + 1 < |kept| { assert kept[j + 1] in kept; }
    NothingInBetween(kept, j, next);
    assert h < next;
    OneKept(hunks, h, next);
  }

  lemma OneKept(hunks: seq<Hunk>, h: nat, next: nat)
    requires h < next <= |hunks| && HunkKept(hunks, h) && forall x: nat :: h < x < next ==> !HunkKept(hunks, x)
    ensures KeptHunks(hunks, next) == KeptHunks(hunks, h) + KeptHunk(hunks[h])
  {
    NothingKeptBetween(hunks, h + 1, next);
  }

  lemma NothingInBetween(kept: seq<nat>, j: nat, next: nat)
    requires Ascending(kept) && j < |kept| && (j + 1 < |kept| ==> next == kept[j + 1])
    ensures forall x: nat :: kept[j] < x < next ==> x !in kept
  {
    assert forall i :: 0 <= i < |kept| ==> kept[i] <= kept[j] || kept[i] >= next;
  }

  method RenderFileHunks(hunks: seq<Hunk>, out0: string) returns (out: string)
    ensures out == out0 + Unlines(KeptHunks(hunks, |hunks|) + HunkNote(hunks))
  {
    var kept, truncated := CapHunks(hunks);
    out := out0;
    FirstKept(hunks, kept);
    for j := 0 to |kept|
      invariant Reached(kept, j, |hunks|) <= |hunks|
      invariant out == out0 + Unlines(KeptHunks(hunks, Reached(kept, j, |hunks|)))
    {
      var h := kept[j];
      NextKept(hunks, kept, j);
      out := RenderHunk(hunks[h], out);
      WrittenAfter(out0, KeptHunks(hunks, h), KeptHunk(hunks[h]));
    }
    WrittenAfter(out0, KeptHunks(hunks, |hunks|), HunkNote(hunks));
    if truncated > 0 {
      out := WriteLine(MoreHunks(truncated), out);
    }
  }

  lemma InputsSnoc(ls: seq<string>, l: string)
    ensures Inputs(ls + [l]) == Inputs(ls) + [Input(l)]
  {
    assert (ls + [l])[..|ls|] == ls;
  }

  method RenderMetadata(metadata: seq<string>, out0: string) returns (out: string)
    ensures out == out0 + Unlines(Inputs(metadata))
  {
    out := out0;
    for i := 0 to |metadata|
      invariant out == out0 + Unlines(Inputs(metadata[..i]))
    {
      ghost var done := metadata[..i];
      assert metadata[..i + 1] == done + [metadata[i]];
      InputsSnoc(done, metadata[i]);
      WrittenAfter(out0, Inputs(done), [Input(metadata[i])]);
      out := WriteLine(Input(metadata[i]), out);
    }
    assert metadata[..|metadata|] == metadata;
  }

  lemma HeaderIsInput(f: DiffFile)
    ensures Unlines(Inputs(HeaderLines(f))) == if f.header == "" then "" else Unlines([Input(f.header)])
  {
    InputsSnoc([], f.header);
    assert [] + [f.header] == [f.header] && [] + [Input(f.header)] == [Input(f.header)];
  }

  /** The header unless it is synthetic, the metadata, the hunks. */
  method RenderDiffFile(f: DiffFile, out0: string) returns (out: string)
    ensures out == out0 + Unlines(KeptFile(f))
  {
    out := out0;
    HeaderIsInput(f);
    if f.header != "" {
      out := WriteLine(Input(f.header), out);
    }
    ghost var headed := out;
    out := RenderMetadata(f.metadata, out);
    out := RenderFileHunks(f.hunks, out);
    ghost var rest := KeptHunks(f.hunks, |f.hunks|) + HunkNote(f.hunks);
    WrittenAfter(headed, Inputs(f.metadata), rest);
    WrittenAfter(out0, Inputs(HeaderLines(f)), Inputs(f.metadata) + rest);
  }

  method RenderFiles(files: seq<DiffFile>, n: nat, out0: string) returns (out: string)
    requires n <= |files|
    ensures out == out0 + Unlines(KeptFiles(files, n))
  {
    out := out0;
    for i := 0 to n
      invariant out == out0 + Unlines(KeptFiles(files, i))
    {
      out := RenderDiffFile(files[i], out);
      WrittenAfter(out0, KeptFiles(files, i), KeptFile(files[i]));
    }
  }

  method CompressFiles(files: seq<DiffFile>, out0: string) returns (out: string)
    ensures out == out0 + Unlines(Compressed(files))
  {
    var n := FileCap(files);
    var truncated := |files| - n;
    out := RenderFiles(files, n, out0);
    WrittenAfter(out0, KeptFiles(files, n), FileNote(files));
    if truncated > 0 {
      out := WriteLine(MoreFiles(truncated), out);
    }
  }
}
