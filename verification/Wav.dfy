/** The WAV duration probe: a walk over RIFF chunks to the byte rate and the payload length. */
module Wav {
  import opened Common
  import opened Bytes

  const FMT: seq<byte> := [0x66, 0x6d, 0x74, 0x20]   // "fmt "
  const DATA: seq<byte> := [0x64, 0x61, 0x74, 0x61]  // "data"

  /** The payload length a `data` chunk stands for: what is present when it declares 0 or too much. */
  function EffectiveLength(b: seq<byte>, body: nat, declared: nat): Option<nat> {
    var available := if body <= |b| then |b| - body else 0;
    var effective := if declared == 0 || declared > available then available else declared;
    if effective < TWO_32 then Some(effective) else None
  }

  function Padded(size: nat): nat {
    size + 8 + (size + 8) % 2
  }

  // Byte rate and data length, as far as they are known.
  datatype Found = Found(rate: Option<nat>, len: Option<nat>) {
    predicate Both() { rate.Some? && len.Some? }
  }

  /** What the walk knows when it stops. */
  function Walk(b: seq<byte>, off: nat, rate: Option<nat>, len: Option<nat>): Found
    decreases |b| - off
  {
    if off + 8 > |b| then Found(rate, len)
    else
      var id, size, body := b[off..off + 4], LeU32(b, off + 4).value, off + 8;
      var rate' := if id == FMT then LeU32(b, body + 8) else rate;
      var len' := if id == DATA then EffectiveLength(b, body, size) else len;
      if rate'.Some? && len'.Some? then Found(rate', len') else Walk(b, off + Padded(size), rate', len')
  }

  /** Whole milliseconds of `len` bytes at `rate` bytes a second, if that is a positive u32. */
  function Duration(found: Found): Option<nat> {
    if !found.Both() || found.rate.value == 0 then None
    else
      var ms := found.len.value * 1000 / found.rate.value;
      if 0 < ms < TWO_32 then Some(ms) else None
  }

  lemma WalkStep(b: seq<byte>, off: nat, rate: Option<nat>, len: Option<nat>, size: nat,
                 rate1: Option<nat>, len1: Option<nat>)
    requires off + 8 <= |b| && LeU32(b, off + 4) == Some(size)
    requires rate1 == (if b[off..off + 4] == FMT then LeU32(b, off + 16) else rate)
    requires len1 == (if b[off..off + 4] == DATA then EffectiveLength(b, off + 8, size) else len)
    ensures Walk(b, off, rate, len)
            == if rate1.Some? && len1.Some? then Found(rate1, len1) else Walk(b, off + Padded(size), rate1, len1)
  {
  }

  /** The walk continued at `off` with what it knows leads to `goal`. */
  ghost predicate Pending(b: seq<byte>, off: nat, rate: Option<nat>, len: Option<nat>, goal: Found) {
    Walk(b, off, rate, len) == goal
  }

  lemma PendingStep(b: seq<byte>, off: nat, rate: Option<nat>, len: Option<nat>, size: nat,
                    rate1: Option<nat>, len1: Option<nat>, next: nat, goal: Found)
    requires Pending(b, off, rate, len, goal) && off + 8 <= |b| && LeU32(b, off + 4) == Some(size)
    requires rate1 == (if b[off..off + 4] == FMT then LeU32(b, off + 16) else rate)
    requires len1 == (if b[off..off + 4] == DATA then EffectiveLength(b, off + 8, size) else len)
    requires next == off + Padded(size)
    ensures if rate1.Some? && len1.Some? then Found(rate1, len1) == goal else Pending(b, next, rate1, len1, goal)
  {
    WalkStep(b, off, rate, len, size, rate1, len1);
  }

  /** One chunk: its size, and what is known after it. */
  method ReadChunk(b: seq<byte>, off: nat, rate: Option<nat>, len: Option<nat>)
      returns (size: nat, rate1: Option<nat>, len1: Option<nat>)
    requires off + 8 <= |b|
    ensures LeU32(b, off + 4) == Some(size)
    ensures rate1 == (if b[off..off + 4] == FMT then LeU32(b, off + 16) else rate)
    ensures len1 == (if b[off..off + 4] == DATA then EffectiveLength(b, off + 8, size) else len)
  {
    var id, body := b[off..off + 4], off + 8;
    size, rate1, len1 := LeU32(b, off + 4).value, rate, len;
    DifferentIds();
    if id == FMT {
      rate1 := LeU32(b, body + 8);
    } else if id == DATA {
      var available := |b| - body;
      var effective := if size == 0 || size > available then available else size;
      len1 := if effective < TWO_32 then Some(effective) else None;
    }
  }

  method WalkChunks(b: seq<byte>) returns (byteRate: Option<nat>, dataLen: Option<nat>)
    ensures Found(byteRate, dataLen) == Walk(b, 12, None, None)
  {
    var off := 12;
    byteRate, dataLen := None, None;
    ghost var goal := Walk(b, 12, None, None);
    while off + 8 <= |b|
      invariant Pending(b, off, byteRate, dataLen, goal)
      invariant byteRate.None? || dataLen.None?
      decreases |b| - off
    {
      var size, rate, len := ReadChunk(b, off, byteRate, dataLen);
      var advance := size + 8;
      var next := off + (advance + advance % 2);
      PendingStep(b, off, byteRate, dataLen, size, rate, len, next, goal);
      byteRate, dataLen := rate, len;
      if byteRate.Some? && dataLen.Some? {
        return;
      }
      off := next;
    }
  }

  /**
   `r` is the number of whole milliseconds that `len` bytes last at `rate` bytes a second; None at
   rate 0, below one millisecond and from 2^32 milliseconds on.
   */
  predicate IsDuration(r: Option<nat>, rate: nat, len: nat) {
    match r
    case Some(ms) => rate != 0 && ms * rate <= 1000 * len < (ms + 1) * rate && 0 < ms < 0x1_0000_0000
    case None => rate == 0 || 1000 * len < rate || 1000 * len >= 0x1_0000_0000 * rate
  }

  /** The same for what was found: None if one of the two is missing. */
  predicate IsDurationOf(r: Option<nat>, found: Found) {
    if found.Both() then IsDuration(r, found.rate.value, found.len.value) else r == None
  }

  lemma TimesGrows(a: nat, b: nat, rate: nat)
    requires a <= b
    ensures a * rate <= b * rate
  {
    assert b * rate == a * rate + (b - a) * rate;
  }

  /** `q` is the quotient rounded down. */
  ghost predicate Floor(x: nat, rate: nat, q: nat) {
    q * rate <= x < (q + 1) * rate
  }

  /** The duration is a quotient rounded down, if that is positive and fits. */
  lemma DurationIsFloor(rate: nat, len: nat, r: Option<nat>) returns (q: nat)
    requires rate > 0 && r == Duration(Found(Some(rate), Some(len)))
    ensures Floor(len * 1000, rate, q) && r == if 0 < q < 0x1_0000_0000 then Some(q) else None
  {
    q := len * 1000 / rate;
  }

  lemma FloorReaches(x: nat, rate: nat, q: nat, m: nat)
    requires Floor(x, rate, q)
    ensures q >= m <==> x >= m * rate
  {
    if q >= m { TimesGrows(m, q, rate); } else { TimesGrows(q + 1, m, rate); }
  }

  lemma FloorIsDuration(x: nat, rate: nat, len: nat, q: nat, r: Option<nat>)
    requires rate > 0 && x == 1000 * len && Floor(x, rate, q)
    requires r == if 0 < q < 0x1_0000_0000 then Some(q) else None
    ensures IsDuration(r, rate, len)
  {
    FloorReaches(x, rate, q, 1);
    FloorReaches(x, rate, q, 0x1_0000_0000);
  }

  lemma DurationIs(rate: nat, len: nat, r: Option<nat>)
    requires r == Duration(Found(Some(rate), Some(len)))
    ensures IsDuration(r, rate, len)
  {
    if rate > 0 {
      var q := DurationIsFloor(rate, len, r);
      FloorIsDuration(len * 1000, rate, len, q, r);
    }
  }

  lemma DurationIsOf(found: Found)
    ensures IsDurationOf(Duration(found), found)
  {
    if found.Both() { DurationIs(found.rate.value, found.len.value, Duration(found)); }
  }

  method Milliseconds(byteRate: Option<nat>, dataLen: Option<nat>) returns (r: Option<nat>)
    ensures r == Duration(Found(byteRate, dataLen))
  {
    if byteRate.None? || dataLen.None? || byteRate.value == 0 {
      return None;
    }
    var ms := dataLen.value * 1000 / byteRate.value;
    return if 0 < ms < TWO_32 then Some(ms) else None;
  }

  method WavDurationMs(b: seq<byte>) returns (r: Option<nat>)
    ensures r == Duration(Walk(b, 12, None, None)) && IsDurationOf(r, Walk(b, 12, None, None))
  {
    var byteRate, dataLen := WalkChunks(b);
    r := Milliseconds(byteRate, dataLen);
    DurationIsOf(Found(byteRate, dataLen));
  }

  // ------------------------------------------------------------ any file, byte by byte

  /** The size field of the chunk at `off`. */
  function SizeAt(b: seq<byte>, off: nat): nat
    requires off + 8 <= |b|
  {
    Number(b[off + 7], b[off + 6], b[off + 5], b[off + 4])
  }

  /** Where the next chunk stands: after twelve bytes, then after each chunk, at an even distance. */
  function NextChunk(b: seq<byte>, offs: seq<nat>): nat {
    if offs == [] then 12
    else
      var off := offs[|offs| - 1];
      if off + 8 > |b| then off
      else off + 8 + SizeAt(b, off) + if SizeAt(b, off) % 2 == 1 then 1 else 0
  }

  /** Chunks that follow each other, with their headers inside the file. */
  predicate Chain(b: seq<byte>, offs: seq<nat>) {
    offs != [] ==>
      var n := |offs| - 1;
      Chain(b, offs[..n]) && offs[n] == NextChunk(b, offs[..n]) && offs[n] + 8 <= |b|
  }

  /** What the last format chunk says: the word in bytes 8 to 11 after its header. */
  function RateIn(b: seq<byte>, offs: seq<nat>): Option<nat> {
    if offs == [] then None
    else
      var off := offs[|offs| - 1];
      if !(off + 4 <= |b| && b[off..off + 4] == Ascii("fmt ")) then RateIn(b, offs[..|offs| - 1])
      else if off + 20 <= |b| then Some(Number(b[off + 19], b[off + 18], b[off + 17], b[off + 16])) else None
  }

  /** What the last data chunk holds: what it declares, or all that follows if that is 0 or too much. */
  function LengthIn(b: seq<byte>, offs: seq<nat>): Option<nat> {
    if offs == [] then None
    else
      var off := offs[|offs| - 1];
      if !(off + 8 <= |b| && b[off..off + 4] == Ascii("data")) then LengthIn(b, offs[..|offs| - 1])
      else
        var declared, present := SizeAt(b, off), |b| - (off + 8);
        var n := if declared == 0 || declared > present then present else declared;
        if n < 0x1_0000_0000 then Some(n) else None
  }

  predicate BothIn(b: seq<byte>, offs: seq<nat>) {
    RateIn(b, offs).Some? && LengthIn(b, offs).Some?
  }

  /** All chunks up to where both are known, or up to the end of the file. */
  predicate Visited(b: seq<byte>, offs: seq<nat>) {
    && Chain(b, offs) && (BothIn(b, offs) || NextChunk(b, offs) + 8 > |b|)
    && forall i :: 0 <= i < |offs| ==> !BothIn(b, offs[..i])
  }

  lemma {:induction false} ChainPrefix(b: seq<byte>, offs: seq<nat>, i: nat)
    requires Chain(b, offs) && i < |offs|
    ensures Chain(b, offs[..i]) && offs[i] == NextChunk(b, offs[..i]) && offs[i] + 8 <= |b|
  {
    var n := |offs| - 1;
    if i < n {
      ChainPrefix(b, offs[..n], i);
      assert offs[..n][..i] == offs[..i];
    }
  }

  /** What the walk knows before and after the chunk at `off`, and where it goes on. */
  ghost predicate ReadsChunk(b: seq<byte>, off: nat, before: Found, after: Found, next: nat) {
    && off + 8 <= |b| && next == off + Padded(LeU32(b, off + 4).value)
    && after.rate == (if b[off..off + 4] == FMT then LeU32(b, off + 16) else before.rate)
    && after.len == (if b[off..off + 4] == DATA then EffectiveLength(b, off + 8, LeU32(b, off + 4).value)
                     else before.len)
  }

  lemma ReadsChunkStep(b: seq<byte>, off: nat, before: Found, after: Found, next: nat)
    requires ReadsChunk(b, off, before, after, next)
    ensures Walk(b, off, before.rate, before.len)
            == if after.Both() then after else Walk(b, next, after.rate, after.len)
  {
    WalkStep(b, off, before.rate, before.len, LeU32(b, off + 4).value, after.rate, after.len);
  }

  /** What the chunks at `offs` state. */
  function Stated(b: seq<byte>, offs: seq<nat>): Found {
    Found(RateIn(b, offs), LengthIn(b, offs))
  }

  lemma RateOfChunk(b: seq<byte>, offs: seq<nat>, off: nat)
    requires off + 8 <= |b|
    ensures RateIn(b, offs + [off]) == if b[off..off + 4] == FMT then LeU32(b, off + 16) else RateIn(b, offs)
  {
    assert (offs + [off])[..|offs|] == offs;
    IdsAreWords();
    if off + 20 <= |b| { LeIsLittle(b, off + 16); }
  }

  lemma LengthOfChunk(b: seq<byte>, offs: seq<nat>, off: nat)
    requires off + 8 <= |b|
    ensures LengthIn(b, offs + [off])
            == if b[off..off + 4] == DATA then EffectiveLength(b, off + 8, LeU32(b, off + 4).value)
               else LengthIn(b, offs)
  {
    assert (offs + [off])[..|offs|] == offs;
    IdsAreWords();
    LeIsLittle(b, off + 4);
  }

  lemma ChunkInChain(b: seq<byte>, offs: seq<nat>, off: nat)
    requires off + 8 <= |b|
    ensures ReadsChunk(b, off, Stated(b, offs), Stated(b, offs + [off]), NextChunk(b, offs + [off]))
  {
    RateOfChunk(b, offs, off);
    LengthOfChunk(b, offs, off);
    LeIsLittle(b, off + 4);
  }

  /** What the walk finds after them. */
  function WalkOn(b: seq<byte>, offs: seq<nat>): Found {
    Walk(b, NextChunk(b, offs), RateIn(b, offs), LengthIn(b, offs))
  }

  lemma WalkOnStep(b: seq<byte>, offs: seq<nat>, off: nat)
    requires off + 8 <= |b| && off == NextChunk(b, offs)
    ensures var more := offs + [off];
            WalkOn(b, offs) == if BothIn(b, more) then Stated(b, more) else WalkOn(b, more)
  {
    var more := offs + [off];
    ChunkInChain(b, offs, off);
    ReadsChunkStep(b, off, Stated(b, offs), Stated(b, more), NextChunk(b, more));
  }

  lemma WalkOnEnds(b: seq<byte>, offs: seq<nat>)
    requires NextChunk(b, offs) + 8 > |b|
    ensures WalkOn(b, offs) == Stated(b, offs)
  {
  }

  lemma {:induction false} WalkVisits(b: seq<byte>, offs: seq<nat>, i: nat)
    requires Visited(b, offs) && i <= |offs| && (i < |offs| || !BothIn(b, offs[..i]))
    ensures WalkOn(b, offs[..i]) == Stated(b, offs)
    decreases |offs| - i
  {
    if i == |offs| {
      assert offs[..i] == offs;
      WalkOnEnds(b, offs);
    } else {
      assert offs[..i + 1] == offs[..i] + [offs[i]];
      assert i + 1 == |offs| ==> offs[..i + 1] == offs;
      ChainPrefix(b, offs, i);
      WalkOnStep(b, offs[..i], offs[i]);
      if !BothIn(b, offs[..i + 1]) { WalkVisits(b, offs, i + 1); }
    }
  }

  /**
   Main result, on every byte string: the duration is that of the rate and the length which the
   chunks state that are visited.
   */
  lemma WavDurationOfBytes(b: seq<byte>, offs: seq<nat>)
    requires Visited(b, offs)
    ensures IsDurationOf(Duration(Walk(b, 12, None, None)), Stated(b, offs))
  {
    assert offs[..0] == [];
    WalkVisits(b, offs, 0);
    DurationIsOf(Stated(b, offs));
  }

  /** Every file has such a list of chunks. */
  lemma {:induction false} SomeVisit(b: seq<byte>, offs: seq<nat>) returns (all: seq<nat>)
    requires Chain(b, offs) && !BothIn(b, offs) && forall i :: 0 <= i < |offs| ==> !BothIn(b, offs[..i])
    ensures Visited(b, all)
    decreases |b| + 8 - NextChunk(b, offs)
  {
    all := offs;
    var off := NextChunk(b, offs);
    if off + 8 <= |b| {
      all := offs + [off];
      assert all[..|offs|] == offs && forall i :: 0 <= i < |offs| ==> all[..i] == offs[..i];
      if !BothIn(b, all) { all := SomeVisit(b, all); }
    }
  }

  // ------------------------------------------------------------ well-formed files

  datatype Chunk = Chunk(id: seq<byte>, body: seq<byte>)

  /** Ids have four bytes, sizes fit; a format chunk holds a byte rate, a data chunk is not empty. */
  predicate ChunkOk(c: Chunk) {
    && |c.id| == 4 && |c.body| < TWO_32
    && (c.id == FMT ==> |c.body| >= 12) && (c.id == DATA ==> c.body != [])
  }

  function ChunkBytes(c: Chunk): (s: seq<byte>)
    requires ChunkOk(c)
    ensures |s| == Padded(|c.body|)
  {
    (c.id + Le32(|c.body|)) + (c.body + if |c.body| % 2 == 1 then [0] else [])
  }

  predicate ChunksOk(cs: seq<Chunk>) {
    forall i :: 0 <= i < |cs| ==> ChunkOk(cs[i])
  }

  function ChunksBytes(cs: seq<Chunk>): seq<byte>
    requires ChunksOk(cs)
  {
    if cs == [] then [] else ChunkBytes(cs[0]) + ChunksBytes(cs[1..])
  }

  /** The body of the last chunk with the given id. */
  function LastBody(cs: seq<Chunk>, id: seq<byte>): Option<seq<byte>> {
    if cs == [] then None
    else if cs[|cs| - 1].id == id then Some(cs[|cs| - 1].body)
    else LastBody(cs[..|cs| - 1], id)
  }

  function RateOf(body: Option<seq<byte>>): Option<nat> {
    if body.None? then None else LeU32(body.value, 8)
  }

  function LengthOf(body: Option<seq<byte>>): Option<nat> {
    if body.None? then None else Some(|body.value|)
  }

  /** What the walk reads of a chunk that stands at `off`. */
  lemma ChunkReads(b: seq<byte>, off: nat, c: Chunk)
    requires ChunkOk(c) && At(b, off, ChunkBytes(c))
    ensures off + 8 <= |b| && b[off..off + 4] == c.id && LeU32(b, off + 4) == Some(|c.body|)
    ensures At(b, off + 8, c.body)
  {
    var pad: seq<byte> := if |c.body| % 2 == 1 then [0] else [];
    AtSplit(b, off, c.id + Le32(|c.body|), c.body + pad);
    AtSplit(b, off, c.id, Le32(|c.body|));
    AtSplit(b, off + 8, c.body, pad);
    LeReadsBack(b, off + 4, |c.body|);
  }

  lemma RateReads(b: seq<byte>, at: nat, body: seq<byte>)
    requires At(b, at, body) && |body| >= 12
    ensures LeU32(b, at + 8) == LeU32(body, 8)
  {
    var s := b[at..at + |body|];
    assert s[8] == b[at + 8] && s[9] == b[at + 9] && s[10] == b[at + 10] && s[11] == b[at + 11];
  }

  lemma DataReads(b: seq<byte>, at: nat, body: seq<byte>)
    requires At(b, at, body) && 0 < |body| < TWO_32
    ensures EffectiveLength(b, at, |body|) == Some(|body|)
  {
  }

  /** The walk over chunks instead of bytes. */
  function Fold(cs: seq<Chunk>, rate: Option<nat>, len: Option<nat>): Found {
    if cs == [] then Found(rate, len)
    else
      var rate' := if cs[0].id == FMT then LeU32(cs[0].body, 8) else rate;
      var len' := if cs[0].id == DATA then Some(|cs[0].body|) else len;
      if rate'.Some? && len'.Some? then Found(rate', len') else Fold(cs[1..], rate', len')
  }

  lemma FoldStep(cs: seq<Chunk>, rate: Option<nat>, len: Option<nat>, rate1: Option<nat>, len1: Option<nat>)
    requires cs != []
    requires rate1 == (if cs[0].id == FMT then LeU32(cs[0].body, 8) else rate)
    requires len1 == (if cs[0].id == DATA then Some(|cs[0].body|) else len)
    ensures Fold(cs, rate, len) == if rate1.Some? && len1.Some? then Found(rate1, len1) else Fold(cs[1..], rate1, len1)
  {
  }

  /** The walk finds at `off` what the chunk `c` holds. */
  ghost predicate ReadsAs(b: seq<byte>, off: nat, c: Chunk) {
    && off + 8 <= |b| && b[off..off + 4] == c.id && LeU32(b, off + 4) == Some(|c.body|)
    && (c.id == FMT ==> LeU32(b, off + 16) == LeU32(c.body, 8))
    && (c.id == DATA ==> EffectiveLength(b, off + 8, |c.body|) == Some(|c.body|))
  }

  lemma ChunkIsRead(b: seq<byte>, off: nat, c: Chunk)
    requires ChunkOk(c) && At(b, off, ChunkBytes(c))
    ensures ReadsAs(b, off, c)
  {
    ChunkReads(b, off, c);
    if c.id == FMT { RateReads(b, off + 8, c.body); }
    if c.id == DATA { DataReads(b, off + 8, c.body); }
  }

  lemma ReadStep(b: seq<byte>, off: nat, c: Chunk, next: nat, rate: Option<nat>, len: Option<nat>,
                 rate1: Option<nat>, len1: Option<nat>)
    requires ReadsAs(b, off, c) && next == off + Padded(|c.body|)
    requires rate1 == (if c.id == FMT then LeU32(c.body, 8) else rate)
    requires len1 == (if c.id == DATA then Some(|c.body|) else len)
    ensures Walk(b, off, rate, len)
            == if rate1.Some? && len1.Some? then Found(rate1, len1) else Walk(b, next, rate1, len1)
  {
    WalkStep(b, off, rate, len, |c.body|, rate1, len1);
  }

  lemma ChunkStep(b: seq<byte>, off: nat, c: Chunk, next: nat, rate: Option<nat>, len: Option<nat>,
                  rate1: Option<nat>, len1: Option<nat>)
    requires ChunkOk(c) && At(b, off, ChunkBytes(c)) && next == off + |ChunkBytes(c)|
    requires rate1 == (if c.id == FMT then LeU32(c.body, 8) else rate)
    requires len1 == (if c.id == DATA then Some(|c.body|) else len)
    ensures Walk(b, off, rate, len)
            == if rate1.Some? && len1.Some? then Found(rate1, len1) else Walk(b, next, rate1, len1)
  {
    ChunkIsRead(b, off, c);
    ReadStep(b, off, c, next, rate, len, rate1, len1);
  }

  /** A well-formed rest of a file at `off`. */
  ghost predicate Rest(b: seq<byte>, off: nat, cs: seq<Chunk>) {
    ChunksOk(cs) && off + |ChunksBytes(cs)| == |b| && At(b, off, ChunksBytes(cs))
  }

  lemma RestSplits(b: seq<byte>, off: nat, cs: seq<Chunk>) returns (next: nat)
    requires cs != [] && Rest(b, off, cs)
    ensures At(b, off, ChunkBytes(cs[0])) && next == off + |ChunkBytes(cs[0])| && Rest(b, next, cs[1..])
  {
    AtSplit(b, off, ChunkBytes(cs[0]), ChunksBytes(cs[1..]));
    next := off + |ChunkBytes(cs[0])|;
  }

  /** It is its first chunk and a shorter rest, which the walk reaches unless it knows enough. */
  lemma FirstChunk(b: seq<byte>, off: nat, cs: seq<Chunk>, rate: Option<nat>, len: Option<nat>,
                   rate1: Option<nat>, len1: Option<nat>) returns (next: nat)
    requires cs != [] && Rest(b, off, cs)
    requires rate1 == (if cs[0].id == FMT then LeU32(cs[0].body, 8) else rate)
    requires len1 == (if cs[0].id == DATA then Some(|cs[0].body|) else len)
    ensures Rest(b, next, cs[1..])
    ensures Walk(b, off, rate, len)
            == if rate1.Some? && len1.Some? then Found(rate1, len1) else Walk(b, next, rate1, len1)
  {
    next := RestSplits(b, off, cs);
    ChunkStep(b, off, cs[0], next, rate, len, rate1, len1);
  }

  lemma {:induction false} WalkIsFold(b: seq<byte>, off: nat, cs: seq<Chunk>, rate: Option<nat>, len: Option<nat>)
    requires Rest(b, off, cs)
    ensures Walk(b, off, rate, len) == Fold(cs, rate, len)
    decreases |cs|
  {
    if cs != [] {
      var rate1 := if cs[0].id == FMT then LeU32(cs[0].body, 8) else rate;
      var len1 := if cs[0].id == DATA then Some(|cs[0].body|) else len;
      FoldStep(cs, rate, len, rate1, len1);
      var next := FirstChunk(b, off, cs, rate, len, rate1, len1);
      WalkIsFold(b, next, cs[1..], rate1, len1);
    }
  }

  /** Both are known from some chunks. */
  predicate Enough(cs: seq<Chunk>) {
    LastBody(cs, FMT).Some? && LastBody(cs, DATA).Some?
  }

  /** The first `n` chunks are where both become known, or all chunks if that never happens. */
  predicate StopsAt(cs: seq<Chunk>, n: nat) {
    n <= |cs| && (n < |cs| ==> Enough(cs[..n])) && forall i :: 0 <= i < n ==> !Enough(cs[..i])
  }

  /** What is known from some chunks. */
  function Known(cs: seq<Chunk>): Found {
    Found(RateOf(LastBody(cs, FMT)), LengthOf(LastBody(cs, DATA)))
  }

  lemma KnownGrows(cs: seq<Chunk>, i: nat)
    requires i < |cs|
    ensures var c, k := cs[i], Known(cs[..i]);
            Known(cs[..i + 1]) == Found(if c.id == FMT then LeU32(c.body, 8) else k.rate,
                                        if c.id == DATA then Some(|c.body|) else k.len)
  {
    assert cs[..i + 1][..i] == cs[..i] && cs[..i + 1][i] == cs[i];
    DifferentIds();
  }

  lemma {:induction false} FormatHasRate(cs: seq<Chunk>)
    requires ChunksOk(cs) && LastBody(cs, FMT).Some?
    ensures |LastBody(cs, FMT).value| >= 12
  {
    if cs[|cs| - 1].id != FMT { FormatHasRate(cs[..|cs| - 1]); }
  }

  lemma EnoughIsBoth(cs: seq<Chunk>)
    requires ChunksOk(cs)
    ensures Enough(cs) <==> Known(cs).Both()
  {
    if LastBody(cs, FMT).Some? { FormatHasRate(cs); }
  }

  /** Folding well-formed chunks stops where both are known and learns what the chunks up to there hold. */
  lemma {:induction false} FoldFindsBoth(cs: seq<Chunk>, i: nat, n: nat)
    requires ChunksOk(cs) && StopsAt(cs, n) && i <= n && (i < n || !Enough(cs[..i]))
    ensures Fold(cs[i..], Known(cs[..i]).rate, Known(cs[..i]).len) == Known(cs[..n])
    decreases n - i
  {
    if i < n {
      var k := Known(cs[..i + 1]);
      KnownGrows(cs, i);
      EnoughIsBoth(cs[..i + 1]);
      assert cs[i..][0] == cs[i] && cs[i..][1..] == cs[i + 1..];
      FoldStep(cs[i..], Known(cs[..i]).rate, Known(cs[..i]).len, k.rate, k.len);
      if !k.Both() { FoldFindsBoth(cs, i + 1, n); }
    }
  }

  lemma DifferentIds()
    ensures FMT != DATA
  {
    assert FMT[0] != DATA[0];
  }

  /**
   Main result: on every RIFF/WAVE file of word-padded chunks, in any order and with any repeats,
   the probe takes the last format and the last data chunk up to where it has seen both, and gives
   the milliseconds that the data lasts at the rate that the format chunk states in its bytes 8 to
   11; None if the file lacks one of the two.
   */
  lemma WavDurationOfChunks(header: seq<byte>, cs: seq<Chunk>, n: nat, r: Option<nat>)
    requires |header| == 12 && ChunksOk(cs) && StopsAt(cs, n)
    requires r == Duration(Walk(header + ChunksBytes(cs), 12, None, None))
    ensures match (LastBody(cs[..n], Ascii("fmt ")), LastBody(cs[..n], Ascii("data")))
            case (Some(format), Some(data)) => |format| >= 12 && IsDuration(r, ByteRate(format), |data|)
            case _ => r == None
  {
    IdsAreWords();
    ChunksWalk(header, cs, n);
    if Enough(cs[..n]) {
      RateIsStated(cs[..n]);
      DurationIs(ByteRate(LastBody(cs[..n], FMT).value), |LastBody(cs[..n], DATA).value|, r);
    }
  }

  lemma ChunksWalk(header: seq<byte>, cs: seq<Chunk>, n: nat)
    requires |header| == 12 && ChunksOk(cs) && StopsAt(cs, n)
    ensures Walk(header + ChunksBytes(cs), 12, None, None) == Known(cs[..n])
  {
    assert cs[0..] == cs && cs[..0] == [];
    WalkIsFold(header + ChunksBytes(cs), 12, cs, None, None);
    FoldFindsBoth(cs, 0, n);
  }

  /** There is such a place in every file. */
  lemma {:induction false} StopsSomewhere(cs: seq<Chunk>, i: nat) returns (n: nat)
    requires i <= |cs| && forall j :: 0 <= j < i ==> !Enough(cs[..j])
    ensures StopsAt(cs, n)
    decreases |cs| - i
  {
    n := i;
    if i < |cs| && !Enough(cs[..i]) { n := StopsSomewhere(cs, i + 1); }
  }

  /** The byte rate in a format chunk. */
  function ByteRate(format: seq<byte>): nat
    requires |format| >= 12
  {
    Number(format[11], format[10], format[9], format[8])
  }

  lemma IdsAreWords()
    ensures FMT == Ascii("fmt ") && DATA == Ascii("data")
  {
  }

  lemma {:induction false} RateIsStated(cs: seq<Chunk>)
    requires ChunksOk(cs) && LastBody(cs, FMT).Some?
    ensures |LastBody(cs, FMT).value| >= 12 && RateOf(LastBody(cs, FMT)) == Some(ByteRate(LastBody(cs, FMT).value))
  {
    FormatHasRate(cs);
    LeIsLittle(LastBody(cs, FMT).value, 8);
  }

  // ------------------------------------------------------------ streamed files

  /** Chunks other than data chunks are walked past. */
  lemma {:induction false} WalkPast(b: seq<byte>, off: nat, cs: seq<Chunk>, i: nat, next: nat)
    requires ChunksOk(cs) && i <= |cs| && (forall j :: 0 <= j < |cs| ==> cs[j].id != DATA)
    requires At(b, off, ChunksBytes(cs[i..])) && next == off + |ChunksBytes(cs[i..])|
    ensures Walk(b, off, Known(cs[..i]).rate, None) == Walk(b, next, Known(cs).rate, None)
    decreases |cs| - i
  {
    if i == |cs| {
      assert cs[..i] == cs;
    } else {
      var rest := cs[i..];
      assert rest[0] == cs[i] && rest[1..] == cs[i + 1..];
      KnownGrows(cs, i);
      var mid := PassChunk(b, off, rest, Known(cs[..i]).rate, Known(cs[..i + 1]).rate);
      WalkPast(b, mid, cs, i + 1, next);
    }
  }

  lemma PassChunk(b: seq<byte>, off: nat, cs: seq<Chunk>, rate: Option<nat>, rate1: Option<nat>) returns (mid: nat)
    requires ChunksOk(cs) && cs != [] && cs[0].id != DATA && At(b, off, ChunksBytes(cs))
    requires rate1 == if cs[0].id == FMT then LeU32(cs[0].body, 8) else rate
    ensures At(b, mid, ChunksBytes(cs[1..])) && mid + |ChunksBytes(cs[1..])| == off + |ChunksBytes(cs)|
    ensures Walk(b, off, rate, None) == Walk(b, mid, rate1, None)
  {
    var c, rest := ChunkBytes(cs[0]), ChunksBytes(cs[1..]);
    AtSplit(b, off, c, rest);
    mid := off + |c|;
    ChunkStep(b, off, cs[0], mid, rate, None, rate1, None);
  }

  /** A data chunk at the end of a file, whose declared size is 0 or more than the file holds. */
  function StreamBytes(declared: nat, payload: seq<byte>): seq<byte>
    requires declared < TWO_32
  {
    (DATA + Le32(declared)) + payload
  }

  lemma StreamReads(b: seq<byte>, off: nat, declared: nat, payload: seq<byte>)
    requires declared < TWO_32 && At(b, off, StreamBytes(declared, payload))
    ensures off + 8 <= |b| && b[off..off + 4] == DATA && LeU32(b, off + 4) == Some(declared)
  {
    AtSplit(b, off, DATA + Le32(declared), payload);
    AtSplit(b, off, DATA, Le32(declared));
    LeReadsBack(b, off + 4, declared);
  }

  /** The walk takes what is present of a streamed data chunk. */
  lemma StreamStep(b: seq<byte>, off: nat, declared: nat, payload: seq<byte>, rate: nat)
    requires declared < TWO_32 && (declared == 0 || declared > |payload|) && |payload| < TWO_32
    requires At(b, off, StreamBytes(declared, payload)) && |b| == off + 8 + |payload|
    ensures Walk(b, off, Some(rate), None) == Found(Some(rate), Some(|payload|))
  {
    StreamReads(b, off, declared, payload);
    DifferentIds();
    assert EffectiveLength(b, off + 8, declared) == Some(|payload|);
    WalkStep(b, off, Some(rate), None, declared, Some(rate), Some(|payload|));
  }

  /**
   Streamed files: when the last chunk is a data chunk that declares 0 or more bytes than are
   there, the duration is that of the bytes present, whatever chunks precede it.
   */
  lemma StreamedDuration(header: seq<byte>, cs: seq<Chunk>, declared: nat, payload: seq<byte>, r: Option<nat>)
    requires |header| == 12 && ChunksOk(cs)
    requires LastBody(cs, Ascii("fmt ")).Some? && forall j :: 0 <= j < |cs| ==> cs[j].id != Ascii("data")
    requires declared < TWO_32 && (declared == 0 || declared > |payload|) && |payload| < TWO_32
    requires r == Duration(Walk(header + (ChunksBytes(cs) + StreamBytes(declared, payload)), 12, None, None))
    ensures |LastBody(cs, Ascii("fmt ")).value| >= 12
    ensures IsDuration(r, ByteRate(LastBody(cs, Ascii("fmt ")).value), |payload|)
  {
    IdsAreWords();
    StreamedWalk(header, cs, declared, payload);
    RateIsStated(cs);
    DurationIs(ByteRate(LastBody(cs, FMT).value), |payload|, r);
  }

  lemma PartsStand(header: seq<byte>, x: seq<byte>, y: seq<byte>)
    ensures At(header + (x + y), |header|, x) && At(header + (x + y), |header| + |x|, y)
  {
    var b := header + (x + y);
    assert b[|header|..|header| + |x|] == x && b[|header| + |x|..|header| + |x| + |y|] == y;
  }

  lemma StreamedWalk(header: seq<byte>, cs: seq<Chunk>, declared: nat, payload: seq<byte>)
    requires |header| == 12 && ChunksOk(cs)
    requires LastBody(cs, FMT).Some? && forall j :: 0 <= j < |cs| ==> cs[j].id != DATA
    requires declared < TWO_32 && (declared == 0 || declared > |payload|) && |payload| < TWO_32
    ensures Walk(header + (ChunksBytes(cs) + StreamBytes(declared, payload)), 12, None, None)
            == Found(RateOf(LastBody(cs, FMT)), Some(|payload|))
  {
    var chunks, stream := ChunksBytes(cs), StreamBytes(declared, payload);
    var b, next := header + (chunks + stream), 12 + |chunks|;
    PartsStand(header, chunks, stream);
    assert cs[0..] == cs && cs[..0] == [];
    WalkPast(b, 12, cs, 0, next);
    RateIsStated(cs);
    StreamStep(b, next, declared, payload, RateOf(LastBody(cs, FMT)).value);
  }
}
