/**
 The line selector of the log compressor: four collecting loops, then sort, dedup and truncate,
 proved to return the first hundred of one declaratively given set of positions.
 */
module LogSelector {
  import opened Common
  import opened Indices
  import DedupKey

  datatype LineKind = Unscored | Error | Warning | Summary | Header | StackTrace

  const MAX_ERRORS := 10
  const ERROR_CONTEXT_LINES := 3
  const MAX_STACK_TRACES := 3
  const STACK_TRACE_MAX_LINES := 20
  const MAX_WARNINGS := 5
  const MAX_TOTAL_LINES := 100

  // ------------------------------------------------------------ which lines are wanted

  function CountKind(kinds: seq<LineKind>, k: LineKind, n: nat): (c: nat)
    requires n <= |kinds|
  {
    if n == 0 then 0 else CountKind(kinds, k, n - 1) + if kinds[n - 1] == k then 1 else 0
  }

  /** Position `x` is one of the first ten errors before `to`, or one of the three lines after it. */
  ghost predicate ErrorWanted(kinds: seq<LineKind>, to: nat, x: nat) {
    exists e: nat :: e < to <= |kinds| && ErrorAt(kinds, e, x)
  }

  ghost predicate ErrorAt(kinds: seq<LineKind>, e: nat, x: nat) {
    && e < |kinds| && kinds[e] == Error && CountKind(kinds, Error, e) < MAX_ERRORS
    && e <= x <= e + ERROR_CONTEXT_LINES && x < |kinds|
  }

  /** A maximal run of stack-trace lines starts at `s`. */
  predicate TraceStart(kinds: seq<LineKind>, s: nat) {
    s < |kinds| && kinds[s] == StackTrace && (s == 0 || kinds[s - 1] != StackTrace)
  }

  function TraceCount(kinds: seq<LineKind>, n: nat): (c: nat)
    requires n <= |kinds|
  {
    if n == 0 then 0 else TraceCount(kinds, n - 1) + if TraceStart(kinds, n - 1) then 1 else 0
  }

  ghost predicate AllTrace(kinds: seq<LineKind>, from: nat, to: nat) {
    to <= |kinds| && forall j :: from <= j < to ==> kinds[j] == StackTrace
  }

  /** Position `x` is among the first twenty lines of one of the first three runs before `to`. */
  ghost predicate TraceWanted(kinds: seq<LineKind>, to: nat, x: nat) {
    exists s: nat :: s < to <= |kinds| && TraceAt(kinds, s, x)
  }

  ghost predicate TraceAt(kinds: seq<LineKind>, s: nat, x: nat) {
    && TraceStart(kinds, s) && TraceCount(kinds, s) < MAX_STACK_TRACES
    && s <= x < s + STACK_TRACE_MAX_LINES && x < |kinds| && AllTrace(kinds, s, x + 1)
  }

  // Warnings are compared by the hash of their canonical key.
  type Hash = string -> int

  function KeysOf(lines: seq<string>, hash: Hash): (keys: seq<int>)
    ensures |keys| == |lines| && forall i :: 0 <= i < |lines| ==> keys[i] == hash(DedupKey.Key(lines[i]))
  {
    if lines == [] then []
    else KeysOf(lines[..|lines| - 1], hash) + [hash(DedupKey.Key(lines[|lines| - 1]))]
  }

  function WarningKeys(keys: seq<int>, kinds: seq<LineKind>, n: nat): set<int>
    requires n <= |keys| && n <= |kinds|
  {
    if n == 0 then {}
    else WarningKeys(keys, kinds, n - 1) + if kinds[n - 1] == Warning then {keys[n - 1]} else {}
  }

  /** Position `x` is the first warning with its key, and fewer than five keys came before it. */
  ghost predicate WarningWanted(keys: seq<int>, kinds: seq<LineKind>, x: nat) {
    && x < |keys| && x < |kinds| && kinds[x] == Warning
    && keys[x] !in WarningKeys(keys, kinds, x)
    && |WarningKeys(keys, kinds, x)| < MAX_WARNINGS
  }

  ghost predicate MarkerWanted(kinds: seq<LineKind>, x: nat) {
    x < |kinds| && (kinds[x] == Summary || kinds[x] == Header)
  }

  ghost predicate Wanted(lines: seq<string>, kinds: seq<LineKind>, hash: Hash, x: nat) {
    || ErrorWanted(kinds, |kinds|, x)
    || TraceWanted(kinds, |kinds|, x)
    || WarningWanted(KeysOf(lines, hash), kinds, x)
    || MarkerWanted(kinds, x)
  }

  // ------------------------------------------------------------ the collecting loops

  method PushErrorContext(kinds: seq<LineKind>, i: nat, selected0: seq<nat>) returns (selected: seq<nat>)
    requires i < |kinds|
    ensures forall x: nat :: x in selected <==>
              x in selected0 || (i <= x <= i + ERROR_CONTEXT_LINES && x < |kinds|)
  {
    selected := selected0 + [i];
    for j := 1 to ERROR_CONTEXT_LINES + 1
      invariant forall x: nat :: x in selected <==> x in selected0 || (i <= x < i + j && x < |kinds|)
    {
      if i + j < |kinds| {
        selected := selected + [i + j];
      }
    }
  }

  lemma ErrorStep(kinds: seq<LineKind>, i: nat, x: nat)
    requires i < |kinds|
    ensures ErrorWanted(kinds, i + 1, x) <==> ErrorWanted(kinds, i, x) || ErrorAt(kinds, i, x)
  {
    if ErrorWanted(kinds, i, x) {
      var e: nat :| e < i && ErrorAt(kinds, e, x);
      assert e < i + 1;
    }
  }

  method CollectErrorIndices(kinds: seq<LineKind>, selected0: seq<nat>) returns (selected: seq<nat>)
    ensures forall x: nat :: x in selected <==> x in selected0 || ErrorWanted(kinds, |kinds|, x)
  {
    selected := selected0;
    var errorCount := 0;
    for i := 0 to |kinds|
      invariant errorCount == Min(MAX_ERRORS, CountKind(kinds, Error, i))
      invariant forall x: nat :: x in selected <==> x in selected0 || ErrorWanted(kinds, i, x)
    {
      forall x: nat ensures ErrorWanted(kinds, i + 1, x) <==> ErrorWanted(kinds, i, x) || ErrorAt(kinds, i, x) {
        ErrorStep(kinds, i, x);
      }
      if kinds[i] == Error && errorCount < MAX_ERRORS {
        errorCount := errorCount + 1;
        selected := PushErrorContext(kinds, i, selected);
      }
    }
  }

  lemma {:induction false} NoStartInside(kinds: seq<LineKind>, s: nat, end: nat)
    requires TraceStart(kinds, s) && s < end && AllTrace(kinds, s, end)
    ensures TraceCount(kinds, end) == TraceCount(kinds, s) + 1
    ensures forall t: nat :: s < t < end ==> !TraceStart(kinds, t)
  {
    if end > s + 1 { NoStartInside(kinds, s, end - 1); }
  }

  /** One whole run [s, end) decided, or one other line (end == s + 1). */
  lemma TraceStep(kinds: seq<LineKind>, s: nat, end: nat, x: nat)
    requires s < end <= |kinds|
    requires forall t: nat :: s < t < end ==> !TraceStart(kinds, t)
    ensures TraceWanted(kinds, end, x) <==> TraceWanted(kinds, s, x) || TraceAt(kinds, s, x)
  {
    if TraceWanted(kinds, s, x) {
      var t: nat :| t < s && TraceAt(kinds, t, x);
      assert t < end;
    }
  }

  lemma RunMembers(kinds: seq<LineKind>, s: nat, end: nat, x: nat)
    requires TraceStart(kinds, s) && s < end && AllTrace(kinds, s, end)
    requires end < |kinds| ==> kinds[end] != StackTrace
    ensures TraceAt(kinds, s, x)
            <==> TraceCount(kinds, s) < MAX_STACK_TRACES && s <= x < s + Min(end - s, STACK_TRACE_MAX_LINES)
  {
  }

  method RunEnd(kinds: seq<LineKind>, i: nat) returns (end: nat)
    requires i < |kinds| && kinds[i] == StackTrace
    ensures i < end && AllTrace(kinds, i, end) && (end < |kinds| ==> kinds[end] != StackTrace)
  {
    end := i;
    while end < |kinds| && kinds[end] == StackTrace
      invariant i <= end && AllTrace(kinds, i, end)
    {
      end := end + 1;
    }
  }

  method PushRange(from: nat, to: nat, selected0: seq<nat>) returns (selected: seq<nat>)
    requires from <= to
    ensures forall x: nat :: x in selected <==> x in selected0 || from <= x < to
  {
    selected := selected0;
    for j := from to to
      invariant forall x: nat :: x in selected <==> x in selected0 || from <= x < j
    {
      selected := selected + [j];
    }
  }

  method CollectStackTraceIndices(kinds: seq<LineKind>, selected0: seq<nat>) returns (selected: seq<nat>)
    ensures forall x: nat :: x in selected <==> x in selected0 || TraceWanted(kinds, |kinds|, x)
  {
    selected := selected0;
    var traces, i := 0, 0;
    while i < |kinds|
      invariant i <= |kinds| && traces == Min(MAX_STACK_TRACES, TraceCount(kinds, i))
      invariant i < |kinds| && kinds[i] == StackTrace ==> TraceStart(kinds, i)
      invariant forall x: nat :: x in selected <==> x in selected0 || TraceWanted(kinds, i, x)
    {
      if kinds[i] == StackTrace {
        var end := RunEnd(kinds, i);
        NoStartInside(kinds, i, end);
        forall x: nat ensures TraceWanted(kinds, end, x) <==> TraceWanted(kinds, i, x) || TraceAt(kinds, i, x) {
          TraceStep(kinds, i, end, x);
        }
        forall x: nat ensures TraceAt(kinds, i, x)
                 <==> TraceCount(kinds, i) < MAX_STACK_TRACES && i <= x < i + Min(end - i, STACK_TRACE_MAX_LINES) {
          RunMembers(kinds, i, end, x);
        }
        if traces < MAX_STACK_TRACES {
          var take := Min(end - i, STACK_TRACE_MAX_LINES);
          selected := PushRange(i, i + take, selected);
          traces := traces + 1;
        }
        i := end;
      } else {
        forall x: nat ensures TraceWanted(kinds, i + 1, x) <==> TraceWanted(kinds, i, x) {
          TraceStep(kinds, i, i + 1, x);
        }
        i := i + 1;
      }
    }
  }

  /** The keys seen so far: all of them, until five are known. */
  ghost predicate Seen(seen: seq<int>, known: set<int>) {
    && |seen| == Min(MAX_WARNINGS, |known|)
    && (|seen| < MAX_WARNINGS ==> forall k :: k in seen <==> k in known)
  }

  lemma SeenGrows(seen: seq<int>, known: set<int>, k: int)
    requires Seen(seen, known)
    ensures Seen(if |seen| < MAX_WARNINGS && k !in seen then seen + [k] else seen, known + {k})
  {
    if k in known {
      assert known + {k} == known;
    } else {
      assert |known + {k}| == |known| + 1;
    }
  }

  lemma SeenDecides(seen: seq<int>, keys: seq<int>, kinds: seq<LineKind>, i: nat)
    requires i < |keys| && i < |kinds| && kinds[i] == Warning && Seen(seen, WarningKeys(keys, kinds, i))
    ensures WarningWanted(keys, kinds, i) <==> |seen| < MAX_WARNINGS && keys[i] !in seen
  {
    var known, k := WarningKeys(keys, kinds, i), keys[i];
    assert |seen| < MAX_WARNINGS <==> |known| < MAX_WARNINGS;
    if |seen| < MAX_WARNINGS {
      assert k in seen <==> k in known;
    }
  }

  ghost predicate WarningsSelected(
    selected: seq<nat>, selected0: seq<nat>, keys: seq<int>, kinds: seq<LineKind>, n: nat)
  {
    forall x: nat :: x in selected <==> x in selected0 || (x < n && WarningWanted(keys, kinds, x))
  }

  lemma WarningsStep(selected: seq<nat>, selected0: seq<nat>, keys: seq<int>, kinds: seq<LineKind>, i: nat)
    requires WarningsSelected(selected, selected0, keys, kinds, i)
    ensures WarningsSelected(
              if WarningWanted(keys, kinds, i) then selected + [i] else selected, selected0, keys, kinds, i + 1)
  {
  }

  method KeyOfLine(lines: seq<string>, hash: Hash, i: nat) returns (key: int)
    requires i < |lines|
    ensures key == KeysOf(lines, hash)[i]
  {
    var text := DedupKey.DedupKeyOf(lines[i]);
    key := hash(text);
  }

  method CollectWarningIndices(lines: seq<string>, kinds: seq<LineKind>, hash: Hash, selected0: seq<nat>)
      returns (selected: seq<nat>)
    ensures forall x: nat :: x in selected <==> x in selected0 || WarningWanted(KeysOf(lines, hash), kinds, x)
  {
    ghost var keys := KeysOf(lines, hash);
    selected := selected0;
    var seen: seq<int> := [];
    var n := Min(|kinds|, |lines|);
    for i := 0 to n
      invariant Seen(seen, WarningKeys(keys, kinds, i))
      invariant WarningsSelected(selected, selected0, keys, kinds, i)
    {
      WarningsStep(selected, selected0, keys, kinds, i);
      if kinds[i] == Warning {
        SeenDecides(seen, keys, kinds, i);
        SeenStep(seen, keys, kinds, i);
        if |seen| < MAX_WARNINGS {
          var key := KeyOfLine(lines, hash, i);
          if key !in seen {
            selected := selected + [i];
            seen := seen + [key];
          }
        }
      }
    }
  }

  lemma SeenStep(seen: seq<int>, keys: seq<int>, kinds: seq<LineKind>, i: nat)
    requires i < |keys| && i < |kinds| && kinds[i] == Warning && Seen(seen, WarningKeys(keys, kinds, i))
    ensures Seen(if |seen| < MAX_WARNINGS && keys[i] !in seen then seen + [keys[i]] else seen,
                 WarningKeys(keys, kinds, i + 1))
  {
    SeenGrows(seen, WarningKeys(keys, kinds, i), keys[i]);
  }

  method CollectSummaryAndHeaderIndices(kinds: seq<LineKind>, selected0: seq<nat>) returns (selected: seq<nat>)
    ensures forall x: nat :: x in selected <==> x in selected0 || MarkerWanted(kinds, x)
  {
    selected := selected0;
    for i := 0 to |kinds|
      invariant forall x: nat :: x in selected <==> x in selected0 || (x < i && MarkerWanted(kinds, x))
    {
      if kinds[i] == Summary || kinds[i] == Header {
        selected := selected + [i];
      }
    }
  }

  // ------------------------------------------------------------ the rule by sets

  function LinesBefore(kinds: seq<LineKind>, k: LineKind, n: nat): set<nat> {
    set i: nat | i < n && i < |kinds| && kinds[i] == k
  }

  /** Where maximal runs of stack-trace lines start. */
  function RunsBefore(kinds: seq<LineKind>, n: nat): set<nat> {
    set i: nat | i < n && TraceStart(kinds, i)
  }

  function HashesBefore(lines: seq<string>, kinds: seq<LineKind>, hash: Hash, n: nat): set<int> {
    set i: nat | i < n && i < |lines| && i < |kinds| && kinds[i] == Warning :: hash(DedupKey.Key(lines[i]))
  }

  ghost predicate NearError(kinds: seq<LineKind>, x: nat, e: nat) {
    e < |kinds| && kinds[e] == Error && |LinesBefore(kinds, Error, e)| < 10 && e <= x <= e + 3
  }

  ghost predicate InRun(kinds: seq<LineKind>, x: nat, s: nat) {
    && s in RunsBefore(kinds, |kinds|) && |RunsBefore(kinds, s)| < 3 && s <= x < s + 20
    && forall j :: s <= j <= x && j < |kinds| ==> kinds[j] == StackTrace
  }

  ghost predicate NewWarning(lines: seq<string>, kinds: seq<LineKind>, hash: Hash, x: nat) {
    && x < |kinds| && x < |lines| && kinds[x] == Warning
    && hash(DedupKey.Key(lines[x])) !in HashesBefore(lines, kinds, hash, x)
    && |HashesBefore(lines, kinds, hash, x)| < 5
  }

  /**
   One of the first ten errors or of the three lines after it, one of the first twenty lines of the
   first three stack traces, the first warning of one of the first five hashes, a summary or a header.
   */
  ghost predicate Listed(lines: seq<string>, kinds: seq<LineKind>, hash: Hash, x: nat) {
    && x < |kinds|
    && (|| (exists e: nat :: NearError(kinds, x, e))
        || (exists s: nat :: InRun(kinds, x, s))
        || NewWarning(lines, kinds, hash, x)
        || kinds[x] == Summary || kinds[x] == Header)
  }

  lemma {:induction false} CountIsSize(kinds: seq<LineKind>, k: LineKind, n: nat)
    requires n <= |kinds|
    ensures CountKind(kinds, k, n) == |LinesBefore(kinds, k, n)|
  {
    if n == 0 {
      assert LinesBefore(kinds, k, 0) == {};
    } else {
      CountIsSize(kinds, k, n - 1);
      OneMore(LinesBefore(kinds, k, n - 1), LinesBefore(kinds, k, n), n - 1, kinds[n - 1] == k);
    }
  }

  lemma {:induction false} RunsAreCounted(kinds: seq<LineKind>, n: nat)
    requires n <= |kinds|
    ensures TraceCount(kinds, n) == |RunsBefore(kinds, n)|
  {
    if n == 0 {
      assert RunsBefore(kinds, 0) == {};
    } else {
      RunsAreCounted(kinds, n - 1);
      OneMore(RunsBefore(kinds, n - 1), RunsBefore(kinds, n), n - 1, TraceStart(kinds, n - 1));
    }
  }

  lemma {:induction false} HashesAreKeys(lines: seq<string>, kinds: seq<LineKind>, hash: Hash, n: nat)
    requires n <= |lines| && n <= |kinds|
    ensures WarningKeys(KeysOf(lines, hash), kinds, n) == HashesBefore(lines, kinds, hash, n)
  {
    if n > 0 {
      HashesAreKeys(lines, kinds, hash, n - 1);
      HashesGrow(lines, kinds, hash, n);
    }
  }

  lemma HashesGrow(lines: seq<string>, kinds: seq<LineKind>, hash: Hash, n: nat)
    requires 0 < n <= |lines| && n <= |kinds|
    ensures HashesBefore(lines, kinds, hash, n) == HashesBefore(lines, kinds, hash, n - 1)
              + if kinds[n - 1] == Warning then {hash(DedupKey.Key(lines[n - 1]))} else {}
  {
    var was, now := HashesBefore(lines, kinds, hash, n - 1), HashesBefore(lines, kinds, hash, n);
    forall k | k in now ensures k in was || (kinds[n - 1] == Warning && k == hash(DedupKey.Key(lines[n - 1]))) {
      var i: nat :| i < n && kinds[i] == Warning && k == hash(DedupKey.Key(lines[i]));
    }
  }

  lemma ErrorByRule(kinds: seq<LineKind>, x: nat)
    requires x < |kinds|
    ensures ErrorWanted(kinds, |kinds|, x) <==> exists e: nat :: NearError(kinds, x, e)
  {
    forall e: nat ensures ErrorAt(kinds, e, x) <==> NearError(kinds, x, e) {
      if e < |kinds| { CountIsSize(kinds, Error, e); }
    }
  }

  lemma TraceByRule(kinds: seq<LineKind>, x: nat)
    requires x < |kinds|
    ensures TraceWanted(kinds, |kinds|, x) <==> exists s: nat :: InRun(kinds, x, s)
  {
    forall s: nat ensures TraceAt(kinds, s, x) <==> InRun(kinds, x, s) {
      if s < |kinds| { RunsAreCounted(kinds, s); }
    }
  }

  lemma WarningByRule(lines: seq<string>, kinds: seq<LineKind>, hash: Hash, x: nat)
    ensures WarningWanted(KeysOf(lines, hash), kinds, x) <==> NewWarning(lines, kinds, hash, x)
  {
    if x < |kinds| && x < |lines| { HashesAreKeys(lines, kinds, hash, x); }
  }

  lemma WantedIsListed(lines: seq<string>, kinds: seq<LineKind>, hash: Hash, x: nat)
    ensures Wanted(lines, kinds, hash, x) <==> Listed(lines, kinds, hash, x)
  {
    if x < |kinds| {
      ErrorByRule(kinds, x);
      TraceByRule(kinds, x);
      WarningByRule(lines, kinds, hash, x);
    }
  }

  // ------------------------------------------------------------ the selection

  /**
   Main result: the selection is ascending, holds only listed positions, at most a hundred of
   them, and leaves out a listed position only if a hundred smaller ones are kept.
   */
  method SelectLines(lines: seq<string>, kinds: seq<LineKind>, hash: Hash) returns (selected: seq<nat>)
    ensures Ascending(selected) && |selected| <= 100
    ensures forall x :: x in selected ==> Listed(lines, kinds, hash, x)
    ensures forall x: nat :: Listed(lines, kinds, hash, x) && x !in selected ==>
              |selected| == 100 && forall y :: y in selected ==> y < x
  {
    var all := CollectErrorIndices(kinds, []);
    all := CollectStackTraceIndices(kinds, all);
    all := CollectWarningIndices(lines, kinds, hash, all);
    all := CollectSummaryAndHeaderIndices(kinds, all);
    var sorted := SortDedup(all, |kinds|);
    assert forall x: nat :: x in sorted <==> Wanted(lines, kinds, hash, x);
    forall x: nat ensures Wanted(lines, kinds, hash, x) <==> Listed(lines, kinds, hash, x) {
      WantedIsListed(lines, kinds, hash, x);
    }
    selected := Truncated(sorted);
  }

  function Truncated(s: seq<nat>): (r: seq<nat>)
    ensures Ascending(s) ==>
              && Ascending(r) && |r| <= MAX_TOTAL_LINES && (forall x :: x in r ==> x in s)
              && forall x :: x in s && x !in r ==> |r| == MAX_TOTAL_LINES && forall y :: y in r ==> y < x
  {
    if |s| <= MAX_TOTAL_LINES then s
    else
      assert forall i :: 0 <= i < MAX_TOTAL_LINES ==> s[..MAX_TOTAL_LINES][i] == s[i];
      s[..MAX_TOTAL_LINES]
  }
}
