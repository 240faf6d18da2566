/** Lines of a diff hunk, and the in-place marker that selects which of them survive. */
module DiffContext {

  datatype DiffLine =
    | Context(text: string)
    | Addition(text: string)
    | Deletion(text: string)
    | Other(text: string)

  const MAX_CONTEXT_LINES := 2

  /** Some line that is not context lies within MAX_CONTEXT_LINES of position `i`. */
  ghost predicate NearChange(lines: seq<DiffLine>, i: int) {
    exists j :: 0 <= j < |lines| && !lines[j].Context? && Near(i, j)
  }

  predicate Near(i: int, j: int) {
    i - MAX_CONTEXT_LINES <= j <= i + MAX_CONTEXT_LINES
  }

  ghost predicate AllContext(lines: seq<DiffLine>, from: int, to: int) {
    forall j :: from <= j < to && 0 <= j < |lines| ==> lines[j].Context?
  }

  /** Marks the maximal run of non-context lines starting at `start`. */
  method MarkChangeBlock(lines: seq<DiffLine>, keep: array<bool>, start: nat) returns (i: nat)
    requires start <= |lines| <= keep.Length
    modifies keep
    ensures start <= i <= |lines| && (i < |lines| ==> lines[i].Context?)
    ensures forall j :: start <= j < i ==> !lines[j].Context?
    ensures forall j :: 0 <= j < keep.Length ==> keep[j] == (old(keep[j]) || start <= j < i)
  {
    i := start;
    while i < |lines| && !lines[i].Context?
      invariant start <= i <= |lines|
      invariant forall j :: start <= j < i ==> !lines[j].Context?
      invariant forall j :: 0 <= j < keep.Length ==> keep[j] == (old(keep[j]) || start <= j < i)
    {
      keep[i] := true;
      i := i + 1;
    }
  }

  /** Marks up to MAX_CONTEXT_LINES context lines directly before `start`. */
  method MarkContextBefore(lines: seq<DiffLine>, keep: array<bool>, start: nat)
    requires start <= |lines| <= keep.Length
    modifies keep
    ensures forall j :: 0 <= j < keep.Length ==>
              keep[j] == (old(keep[j]) || (start - MAX_CONTEXT_LINES <= j < start && AllContext(lines, j, start)))
  {
    var j, count := start, 0;
    while j > 0 && count < MAX_CONTEXT_LINES
      invariant j == start - count >= 0 && count <= MAX_CONTEXT_LINES && AllContext(lines, j, start)
      invariant forall x :: 0 <= x < keep.Length ==> keep[x] == (old(keep[x]) || j <= x < start)
    {
      j := j - 1;
      if !lines[j].Context? {
        break;
      }
      keep[j] := true;
      count := count + 1;
    }
  }

  /** Marks up to MAX_CONTEXT_LINES context lines from `start` on and stops after them. */
  method MarkContextAfter(lines: seq<DiffLine>, keep: array<bool>, start: nat) returns (i: nat)
    requires start <= |lines| <= keep.Length
    modifies keep
    ensures start <= i <= start + MAX_CONTEXT_LINES && i <= |lines| && AllContext(lines, start, i)
    ensures i < |lines| && lines[i].Context? ==> i == start + MAX_CONTEXT_LINES
    ensures forall j :: 0 <= j < keep.Length ==> keep[j] == (old(keep[j]) || start <= j < i)
  {
    i := start;
    var count := 0;
    while i < |lines| && count < MAX_CONTEXT_LINES
      invariant i == start + count <= |lines| && count <= MAX_CONTEXT_LINES && AllContext(lines, start, i)
      invariant forall j :: 0 <= j < keep.Length ==> keep[j] == (old(keep[j]) || start <= j < i)
    {
      if !lines[i].Context? {
        break;
      }
      keep[i] := true;
      count := count + 1;
      i := i + 1;
    }
  }

  /** Some change before position `i` lies near `x`. */
  ghost predicate NearSeen(lines: seq<DiffLine>, i: nat, x: int)
    requires i <= |lines|
  {
    exists j :: 0 <= j < i && !lines[j].Context? && Near(x, j)
  }

  /** The state of the scan at `i`: everything before is decided by the changes seen so far. */
  ghost predicate Scanned(lines: seq<DiffLine>, keep: seq<bool>, i: nat) {
    && i <= |lines| <= |keep|
    && (forall x :: 0 <= x < i ==> keep[x] == NearSeen(lines, i, x))
    && (forall x :: i <= x < |lines| ==> !keep[x])
    && (i < |lines| && lines[i].Context? ==> forall j :: 0 <= j < i && !lines[j].Context? ==> j < i - MAX_CONTEXT_LINES)
  }

  lemma SkipContext(lines: seq<DiffLine>, keep: seq<bool>, i: nat)
    requires Scanned(lines, keep, i) && i < |lines| && lines[i].Context?
    ensures Scanned(lines, keep, i + 1)
  {
    forall x | 0 <= x < i + 1 ensures keep[x] == NearSeen(lines, i + 1, x) {
      if x < i && NearSeen(lines, i, x) {
        var j :| 0 <= j < i && !lines[j].Context? && Near(x, j);
        assert NearSeen(lines, i + 1, x);
      }
    }
  }

  /** One block [s, e) with the context [e, i) after it, marked as the three helpers mark it. */
  lemma MarkBlock(lines: seq<DiffLine>, keep: seq<bool>, keep': seq<bool>, s: nat, e: nat, i: nat)
    requires Scanned(lines, keep, s) && |keep'| == |keep|
    requires s < e <= i <= e + MAX_CONTEXT_LINES && i <= |lines|
    requires forall j :: s <= j < e ==> !lines[j].Context?
    requires AllContext(lines, e, i)
    requires i < |lines| && lines[i].Context? ==> i == e + MAX_CONTEXT_LINES
    requires forall x :: 0 <= x < |keep| ==>
               keep'[x] == (keep[x] || (s - MAX_CONTEXT_LINES <= x < s && AllContext(lines, x, s)) || s <= x < i)
    ensures Scanned(lines, keep', i)
  {
    forall x | 0 <= x < i ensures keep'[x] == NearSeen(lines, i, x) {
      if x >= s {
        var j := if x < e then x else e - 1;
        assert !lines[j].Context? && Near(x, j);
      } else {
        BlockBehind(lines, s, e, i, x);
      }
    }
  }

  lemma BlockBehind(lines: seq<DiffLine>, s: nat, e: nat, i: nat, x: nat)
    requires x < s < e <= i <= |lines|
    requires forall j :: s <= j < e ==> !lines[j].Context?
    requires AllContext(lines, e, i)
    ensures NearSeen(lines, i, x)
            == (NearSeen(lines, s, x) || (s - MAX_CONTEXT_LINES <= x && AllContext(lines, x, s)))
  {
    if s - MAX_CONTEXT_LINES <= x {
      assert !lines[s].Context? && Near(x, s);
      if !AllContext(lines, x, s) {
        var j :| x <= j < s && 0 <= j < |lines| && !lines[j].Context?;
        assert Near(x, j);
      }
    }
    if NearSeen(lines, i, x) {
      var j :| 0 <= j < i && !lines[j].Context? && Near(x, j);
      assert j < s || s <= j < e;
    }
    if NearSeen(lines, s, x) {
      var j :| 0 <= j < s && !lines[j].Context? && Near(x, j);
      assert 0 <= j < i;
    }
  }

  /**
   The two-pointer marker keeps a line exactly when some non-context line lies within
   MAX_CONTEXT_LINES of it, for a hunk of any length.
   */
  method MarkContextLines(lines: seq<DiffLine>, keep: array<bool>)
    requires |lines| <= keep.Length && forall i :: 0 <= i < |lines| ==> !keep[i]
    modifies keep
    ensures forall i :: 0 <= i < |lines| ==> keep[i] == NearChange(lines, i)
  {
    var i := 0;
    while i < |lines|
      invariant i <= |lines| && Scanned(lines, keep[..], i)
    {
      ghost var before := keep[..];
      if lines[i].Context? {
        SkipContext(lines, keep[..], i);
        i := i + 1;
      } else {
        var blockStart := i;
        i := MarkChangeBlock(lines, keep, i);
        ghost var blockEnd := i;
        MarkContextBefore(lines, keep, blockStart);
        i := MarkContextAfter(lines, keep, i);
        MarkBlock(lines, before, keep[..], blockStart, blockEnd, i);
      }
    }
    forall x | 0 <= x < |lines| ensures keep[x] == NearChange(lines, x) {
      assert keep[..][x] == NearSeen(lines, |lines|, x);
    }
  }
}
