/**
 The MP4 box search: depth first over size-prefixed boxes (section 4.2 of ISO/IEC 14496-12),
 descending into three container types.
 */
module BoxFinder {
  import opened Common
  import opened Bytes

  // A four-byte box type.
  datatype Kind = Kind(c0: byte, c1: byte, c2: byte, c3: byte)

  const MOOV := Kind(0x6d, 0x6f, 0x6f, 0x76)
  const TRAK := Kind(0x74, 0x72, 0x61, 0x6b)
  const MDIA := Kind(0x6d, 0x64, 0x69, 0x61)

  function KindBytes(k: Kind): (s: seq<byte>)
    ensures |s| == 4
  {
    [k.c0, k.c1, k.c2, k.c3]
  }

  predicate IsContainer(k: Kind) {
    k == MOOV || k == TRAK || k == MDIA
  }

  function KindAt(b: seq<byte>, off: nat): Kind
    requires off + 8 <= |b|
  {
    Kind(b[off + 4], b[off + 5], b[off + 6], b[off + 7])
  }

  lemma KindReads(b: seq<byte>, off: nat, k: Kind)
    requires At(b, off + 4, KindBytes(k))
    ensures off + 8 <= |b| && KindAt(b, off) == k
  {
    var s := b[off + 4..off + 8];
    assert s[0] == b[off + 4] && s[1] == b[off + 5] && s[2] == b[off + 6] && s[3] == b[off + 7];
  }

  /** The size of the box at `off` by its own fields; None where the 64-bit field is cut off. */
  function Advance(b: seq<byte>, off: nat, end: nat): Option<nat>
    requires off + 8 <= end && off + 8 <= |b|
  {
    var size := BeU32(b, off).value;
    if size == 0 then Some(end - off)
    else if size == 1 then
      var hi, lo := BeU32(b, off + 8), BeU32(b, off + 12);
      if hi.None? || lo.None? then None else Some(hi.value * TWO_32 + lo.value)
    else Some(size)
  }

  /**
   Where the box at `off` ends. None ends the search: the size is cut off or smaller than a
   header, or the 64-bit addition overflows.
   */
  function NextAt(b: seq<byte>, off: nat, end: nat): (next: Option<nat>)
    requires off + 8 <= end && off + 8 <= |b|
    ensures next.Some? ==> off + 8 <= next.value < TWO_64
  {
    var advance := Advance(b, off, end);
    if advance.None? || advance.value < 8 || off + advance.value >= TWO_64 then None
    else Some(off + advance.value)
  }

  // The result of a search and how many box headers it looked at.
  datatype Search = Search(hit: Option<nat>, headers: nat)

  /** The search of [off, end). */
  function Find(b: seq<byte>, kind: Kind, off: nat, end: nat): Search
    decreases end - off
  {
    if off + 8 > end then Search(None, 0)
    else if off + 8 > |b| then Search(None, 1)
    else if KindAt(b, off) == kind then Search(Some(off), 1)
    else
      var next := NextAt(b, off, end);
      if next.None? then Search(None, 1)
      else
        var inner := if IsContainer(KindAt(b, off)) then Find(b, kind, off + 8, Min(next.value, end))
                     else Search(None, 0);
        if inner.hit.Some? then Search(inner.hit, 1 + inner.headers)
        else
          var rest := Find(b, kind, next.value, end);
          Search(rest.hit, 1 + inner.headers + rest.headers)
  }

  method FindBox(b: seq<byte>, kind: Kind, start: nat, end: nat) returns (r: Option<nat>)
    ensures r == Find(b, kind, start, end).hit
    decreases end - start
  {
    var off := start;
    while off + 8 <= end
      invariant start <= off && Find(b, kind, off, end).hit == Find(b, kind, start, end).hit
      decreases end - off
    {
      if off + 8 > |b| {
        return None;
      }
      var ty := KindAt(b, off);
      if ty == kind {
        return Some(off);
      }
      var next := NextAt(b, off, end);
      if next.None? {
        return None;
      }
      if IsContainer(ty) {
        var found := FindBox(b, kind, off + 8, Min(next.value, end));
        if found.Some? {
          return found;
        }
      }
      off := next.value;
    }
    return None;
  }

  /** The containers are the boxes of these three names. */
  lemma ContainersByName(k: Kind)
    ensures IsContainer(k) <==> KindBytes(k) in {Ascii("moov"), Ascii("trak"), Ascii("mdia")}
  {
    NamesOf(k, MOOV, "moov");
    NamesOf(k, TRAK, "trak");
    NamesOf(k, MDIA, "mdia");
  }

  lemma NamesOf(k: Kind, named: Kind, name: string)
    requires |name| == 4 && (forall i :: 0 <= i < 4 ==> name[i] < '\U{0080}')
    requires named.c0 == name[0] as int && named.c1 == name[1] as int
    requires named.c2 == name[2] as int && named.c3 == name[3] as int
    ensures k == named <==> KindBytes(k) == Ascii(name)
  {
    var s, t := KindBytes(k), Ascii(name);
    if s == t { assert s[0] == t[0] && s[1] == t[1] && s[2] == t[2] && s[3] == t[3]; }
  }

  /** The first four bytes, then the type: what the search does with a box it is not looking for. */
  lemma BadSizeEndsSearch(b: seq<byte>, kind: Kind, off: nat, end: nat, size: nat)
    requires off + 8 <= end && off + 8 <= |b| && KindAt(b, off) != kind
    requires size == Number(b[off], b[off + 1], b[off + 2], b[off + 3])
    requires || 1 < size < 8
             || (size == 1 && off + 16 > |b|)
             || (size == 1 && off + 16 <= |b| && var n := LongSize(b, off); n < 8 || off + n >= 0x1_0000_0000_0000_0000)
    ensures Find(b, kind, off, end).hit == None
  {
    BeIsBig(b, off);
    if size == 1 && off + 16 <= |b| {
      BeIsBig(b, off + 8);
      BeIsBig(b, off + 12);
    }
  }

  /** The eight bytes after the type as a number. */
  function LongSize(b: seq<byte>, off: nat): nat
    requires off + 16 <= |b|
  {
    0x1_0000_0000 * Number(b[off + 8], b[off + 9], b[off + 10], b[off + 11])
    + Number(b[off + 12], b[off + 13], b[off + 14], b[off + 15])
  }

  /** A hit lies wholly inside the range and has the requested type. */
  lemma {:induction false} HitIsInside(b: seq<byte>, kind: Kind, off: nat, end: nat)
    requires Find(b, kind, off, end).hit.Some?
    ensures var h := Find(b, kind, off, end).hit.value;
            off <= h && h + 8 <= end && h + 8 <= |b| && KindAt(b, h) == kind
    decreases end - off
  {
    if KindAt(b, off) != kind {
      var next := NextAt(b, off, end).value;
      if IsContainer(KindAt(b, off)) && Find(b, kind, off + 8, Min(next, end)).hit.Some? {
        HitIsInside(b, kind, off + 8, Min(next, end));
      } else {
        HitIsInside(b, kind, next, end);
      }
    }
  }

  /**
   No more headers are looked at, nested ones included, than fit side by side into the range:
   descending never costs more than a linear scan.
   */
  lemma {:induction false} HeadersAreFew(b: seq<byte>, kind: Kind, off: nat, end: nat)
    ensures 8 * Find(b, kind, off, end).headers <= if off <= end then end - off else 0
    decreases end - off
  {
    if off + 8 <= end && off + 8 <= |b| && KindAt(b, off) != kind && NextAt(b, off, end).Some? {
      var next := NextAt(b, off, end).value;
      HeadersAreFew(b, kind, off + 8, Min(next, end));
      HeadersAreFew(b, kind, next, end);
    }
  }
}
