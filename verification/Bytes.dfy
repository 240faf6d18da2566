/** Reading and writing 32-bit words in byte strings. */
module Bytes {
  import opened Common

  type byte = x: int | 0 <= x < 256

  const TWO_24 := 0x100_0000
  const TWO_32 := 0x1_0000_0000
  const TWO_64 := 0x1_0000_0000_0000_0000

  /** The number with the given base-256 digits, most significant first. */
  function Word(ds: seq<byte>): nat {
    if ds == [] then 0 else Word(ds[..|ds| - 1]) * 256 + ds[|ds| - 1] as int
  }

  lemma WordOfFour(d3: byte, d2: byte, d1: byte, d0: byte)
    ensures Word([d3, d2, d1, d0])
            == (d3 as int * 256 + d2 as int) * 65536 + (d1 as int * 256 + d0 as int) < TWO_32
  {
    assert [d3, d2, d1, d0][..3] == [d3, d2, d1] && [d3, d2, d1][..2] == [d3, d2];
    assert [d3, d2][..1] == [d3] && [d3][..0] == [];
    assert Word([d3]) == d3 as int;
    assert Word([d3, d2]) == d3 as int * 256 + d2 as int;
    assert Word([d3, d2, d1]) == (d3 as int * 256 + d2 as int) * 256 + d1 as int;
  }

  function BeU32(b: seq<byte>, off: nat): (r: Option<nat>)
    ensures r.Some? <==> off + 4 <= |b|
    ensures r.Some? ==> r.value < TWO_32
  {
    if off + 4 <= |b| then
      WordOfFour(b[off], b[off + 1], b[off + 2], b[off + 3]);
      Some(Word([b[off], b[off + 1], b[off + 2], b[off + 3]]))
    else None
  }

  function LeU32(b: seq<byte>, off: nat): (r: Option<nat>)
    ensures r.Some? <==> off + 4 <= |b|
    ensures r.Some? ==> r.value < TWO_32
  {
    if off + 4 <= |b| then
      WordOfFour(b[off + 3], b[off + 2], b[off + 1], b[off]);
      Some(Word([b[off + 3], b[off + 2], b[off + 1], b[off]]))
    else None
  }

  /** Four base-256 digits as a number. */
  function Number(d3: nat, d2: nat, d1: nat, d0: nat): nat {
    16777216 * d3 + 65536 * d2 + 256 * d1 + d0
  }

  /** The most significant byte comes first. */
  lemma BeIsBig(b: seq<byte>, off: nat)
    requires off + 4 <= |b|
    ensures BeU32(b, off) == Some(Number(b[off], b[off + 1], b[off + 2], b[off + 3]))
  {
    WordOfFour(b[off], b[off + 1], b[off + 2], b[off + 3]);
  }

  /** The least significant byte comes first. */
  lemma LeIsLittle(b: seq<byte>, off: nat)
    requires off + 4 <= |b|
    ensures LeU32(b, off) == Some(Number(b[off + 3], b[off + 2], b[off + 1], b[off]))
  {
    WordOfFour(b[off + 3], b[off + 2], b[off + 1], b[off]);
  }

  function Be32(n: nat): (s: seq<byte>)
    requires n < TWO_32
    ensures |s| == 4
  {
    [n / 65536 / 256, n / 65536 % 256, n % 65536 / 256, n % 256]
  }

  function Le32(n: nat): (s: seq<byte>)
    requires n < TWO_32
    ensures |s| == 4
  {
    [n % 256, n % 65536 / 256, n / 65536 % 256, n / 65536 / 256]
  }

  lemma Be32IsWord(n: nat)
    requires n < TWO_32
    ensures Word(Be32(n)) == n
  {
    var x, y := n / 65536, n % 65536;
    WordOfFour(x / 256, x % 256, y / 256, n % 256);
    assert n == x * 65536 + y;
    assert x == x / 256 * 256 + x % 256 && y == y / 256 * 256 + y % 256;
    assert y % 256 == n % 256;
  }

  lemma BeReadsBack(b: seq<byte>, off: nat, n: nat)
    requires n < TWO_32 && off + 4 <= |b| && b[off..off + 4] == Be32(n)
    ensures BeU32(b, off) == Some(n)
  {
    var s := b[off..off + 4];
    assert s == [b[off], b[off + 1], b[off + 2], b[off + 3]];
    Be32IsWord(n);
  }

  lemma LeReadsBack(b: seq<byte>, off: nat, n: nat)
    requires n < TWO_32 && off + 4 <= |b| && b[off..off + 4] == Le32(n)
    ensures LeU32(b, off) == Some(n)
  {
    var s := b[off..off + 4];
    assert b[off] == s[0] && b[off + 1] == s[1] && b[off + 2] == s[2] && b[off + 3] == s[3];
    assert [s[3], s[2], s[1], s[0]] == Be32(n);
    Be32IsWord(n);
  }

  /** The bytes of a word in ASCII characters. */
  function Ascii(s: string): (r: seq<byte>)
    requires forall i :: 0 <= i < |s| ==> s[i] < '\U{0080}'
    ensures |r| == |s| && forall i :: 0 <= i < |s| ==> r[i] == s[i] as int
  {
    seq(|s|, i requires 0 <= i < |s| => s[i] as int)
  }

  /** `part` stands in `b` at position `at`. */
  ghost predicate At(b: seq<byte>, at: nat, part: seq<byte>) {
    at + |part| <= |b| && b[at..at + |part|] == part
  }

  lemma AtSplit(b: seq<byte>, at: nat, x: seq<byte>, y: seq<byte>)
    requires At(b, at, x + y)
    ensures At(b, at, x) && At(b, at + |x|, y)
  {
    var s := b[at..at + |x + y|];
    assert b[at..at + |x|] == s[..|x|] == x;
    assert b[at + |x|..at + |x| + |y|] == s[|x|..] == y;
  }
}
