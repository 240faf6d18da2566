/**
 The box search on well-formed files: size-prefixed boxes as section 4.2 of ISO/IEC 14496-12 lays
 them out, searched in a range that may cut the file anywhere.
 */
module BoxTree {
  import opened Common
  import opened Bytes
  import opened BoxFinder

  // Compact: a 32-bit size. Large: size field 1 and a 64-bit size after the type. ToEnd: size
  // field 0, the box reaches the end of what contains it.
  datatype Sizing = Compact | Large | ToEnd

  datatype Box =
    | Leaf(kind: Kind, sizing: Sizing, body: seq<byte>)
    | Node(kind: Kind, sizing: Sizing, children: Forest)

  datatype Forest = Nil | Cons(head: Box, tail: Forest)

  function HeaderSize(s: Sizing): nat {
    if s == Large then 16 else 8
  }

  function BodySize(x: Box): nat
    decreases x, 0
  {
    match x
    case Leaf(_, _, body) => |body|
    case Node(_, _, children) => ForestSize(children)
  }

  function BoxSize(x: Box): nat
    decreases x, 1
  {
    HeaderSize(x.sizing) + BodySize(x)
  }

  function ForestSize(f: Forest): nat {
    match f
    case Nil => 0
    case Cons(x, rest) => BoxSize(x) + ForestSize(rest)
  }

  /** Sizes fit their fields, only the last box reaches to the end, nodes are of the container types. */
  predicate BoxOk(x: Box, isLast: bool) {
    && (x.sizing == Compact ==> BoxSize(x) < TWO_32)
    && (x.sizing == Large ==> BoxSize(x) < TWO_64)
    && (x.sizing == ToEnd ==> isLast)
    && match x
       case Leaf(kind, _, _) => !IsContainer(kind)
       case Node(kind, _, children) => IsContainer(kind) && ForestOk(children)
  }

  predicate ForestOk(f: Forest) {
    match f
    case Nil => true
    case Cons(x, rest) => BoxOk(x, rest.Nil?) && ForestOk(rest)
  }

  function HeaderBytes(kind: Kind, sizing: Sizing, size: nat): (s: seq<byte>)
    requires size < if sizing == Compact then TWO_32 else TWO_64
    ensures |s| == HeaderSize(sizing)
  {
    match sizing
    case Compact => Be32(size) + KindBytes(kind)
    case Large => (Be32(1) + KindBytes(kind)) + (Be32(size / TWO_32) + Be32(size % TWO_32))
    case ToEnd => Be32(0) + KindBytes(kind)
  }

  /** `x` is written in `b` at `at`. */
  ghost predicate BoxAt(b: seq<byte>, at: nat, x: Box)
    decreases x
  {
    && BoxSize(x) < (if x.sizing == Compact then TWO_32 else TWO_64)
    && At(b, at, HeaderBytes(x.kind, x.sizing, BoxSize(x)))
    && match x
       case Leaf(_, _, body) => At(b, at + HeaderSize(x.sizing), body)
       case Node(_, _, children) => ForestAt(b, at + HeaderSize(x.sizing), children)
  }

  ghost predicate ForestAt(b: seq<byte>, at: nat, f: Forest)
    decreases f
  {
    match f
    case Nil => at <= |b|
    case Cons(x, rest) => BoxAt(b, at, x) && ForestAt(b, at + BoxSize(x), rest)
  }

  lemma {:induction false} ForestFits(b: seq<byte>, at: nat, f: Forest)
    requires ForestAt(b, at, f)
    ensures at + ForestSize(f) <= |b|
    decreases f
  {
    if f.Cons? {
      ForestFits(b, at + BoxSize(f.head), f.tail);
    }
  }

  // ------------------------------------------------------------ the bytes determine the tree

  /** The first word and the type of a written box. */
  lemma HeaderFields(b: seq<byte>, at: nat, x: Box)
    requires BoxAt(b, at, x)
    ensures at + 8 <= |b| && KindAt(b, at) == x.kind
    ensures BeU32(b, at) == Some(if x.sizing == Compact then BoxSize(x) else if x.sizing == Large then 1 else 0)
  {
    var n := BoxSize(x);
    var field := if x.sizing == Compact then n else if x.sizing == Large then 1 else 0;
    if x.sizing == Large {
      AtSplit(b, at, Be32(1) + KindBytes(x.kind), Be32(n / TWO_32) + Be32(n % TWO_32));
    }
    AtSplit(b, at, Be32(field), KindBytes(x.kind));
    KindReads(b, at, x.kind);
    BeReadsBack(b, at, field);
  }

  /** The 64-bit size of a written box. */
  lemma LargeSize(b: seq<byte>, at: nat, x: Box)
    requires BoxAt(b, at, x) && x.sizing == Large
    ensures at + 16 <= |b|
    ensures BeU32(b, at + 8) == Some(BoxSize(x) / TWO_32) && BeU32(b, at + 12) == Some(BoxSize(x) % TWO_32)
  {
    var hi, lo := BoxSize(x) / TWO_32, BoxSize(x) % TWO_32;
    AtSplit(b, at, Be32(1) + KindBytes(x.kind), Be32(hi) + Be32(lo));
    AtSplit(b, at + 8, Be32(hi), Be32(lo));
    BeReadsBack(b, at + 8, hi);
    BeReadsBack(b, at + 12, lo);
  }

  lemma SameHeader(b: seq<byte>, at: nat, x: Box, y: Box)
    requires BoxAt(b, at, x) && BoxAt(b, at, y)
    ensures x.kind == y.kind && x.sizing == y.sizing && (x.sizing != ToEnd ==> BoxSize(x) == BoxSize(y))
  {
    HeaderFields(b, at, x);
    HeaderFields(b, at, y);
    if x.sizing == Large && y.sizing == Large {
      LargeSize(b, at, x);
      LargeSize(b, at, y);
    }
  }

  lemma {:induction false} SameBox(b: seq<byte>, at: nat, x: Box, y: Box, isLast: bool, isLast': bool)
    requires BoxAt(b, at, x) && BoxAt(b, at, y) && BoxOk(x, isLast) && BoxOk(y, isLast')
    requires BoxSize(x) == BoxSize(y)
    ensures x == y
    decreases x, 1
  {
    SameHeader(b, at, x, y);
    if x.Node? {
      SameForest(b, at + HeaderSize(x.sizing), x.children, y.children);
    }
  }

  /** A well-formed tree is determined by its bytes and its size, so a file has only one. */
  lemma {:induction false} SameForest(b: seq<byte>, at: nat, f: Forest, g: Forest)
    requires ForestAt(b, at, f) && ForestAt(b, at, g) && ForestOk(f) && ForestOk(g)
    requires ForestSize(f) == ForestSize(g)
    ensures f == g
    decreases f, 0
  {
    if f.Cons? && g.Cons? {
      SameHeader(b, at, f.head, g.head);
      SameBox(b, at, f.head, g.head, f.tail.Nil?, g.tail.Nil?);
      SameForest(b, at + BoxSize(f.head), f.tail, g.tail);
    }
  }

  // ------------------------------------------------------------ 64-bit sizes of containers

  /** A box type as a 32-bit word. */
  function Code(k: Kind): nat {
    (k.c0 * 256 + k.c1) * 65536 + (k.c2 * 256 + k.c3)
  }

  /** The size fits 32 bits and is, as a word, neither `wanted` nor a container type. */
  predicate Harmless(n: nat, wanted: Kind) {
    n < TWO_32 && n != Code(wanted) && n != Code(MOOV) && n != Code(TRAK) && n != Code(MDIA)
  }

  /** So are the 64-bit sizes of all containers that the search of a range up to `end` comes across. */
  predicate BoxHarmless(x: Box, wanted: Kind, at: nat, end: nat) {
    && (x.sizing == Large && IsContainer(x.kind) && at + 16 <= end ==> Harmless(BoxSize(x), wanted))
    && (x.Node? && x.sizing != Large ==> ForestHarmless(x.children, wanted, at + 8, end))
  }

  predicate ForestHarmless(f: Forest, wanted: Kind, at: nat, end: nat) {
    match f
    case Nil => true
    case Cons(x, rest) => BoxHarmless(x, wanted, at, end) && ForestHarmless(rest, wanted, at + BoxSize(x), end)
  }

  /** Every size below 16 MiB is harmless: no box type begins with a zero byte. */
  lemma SmallIsHarmless(n: nat, wanted: Kind)
    requires n < TWO_24 && wanted.c0 != 0
    ensures Harmless(n, wanted)
  {
  }

  /** In files below 16 MiB all sizes are. */
  lemma {:induction false} SmallForestIsHarmless(f: Forest, wanted: Kind, at: nat, end: nat)
    requires ForestSize(f) < TWO_24 && wanted.c0 != 0
    ensures ForestHarmless(f, wanted, at, end)
    decreases f
  {
    if f.Cons? {
      SmallIsHarmless(BoxSize(f.head), wanted);
      assert BoxSize(f.head) == HeaderSize(f.head.sizing) + BodySize(f.head);
      if f.head.Node? { SmallForestIsHarmless(f.head.children, wanted, at + 8, end); }
      SmallForestIsHarmless(f.tail, wanted, at + BoxSize(f.head), end);
    }
  }

  // ------------------------------------------------------------ searching trees

  /**
   Pre-order search among the boxes whose header ends by `end`, which does not look into containers
   with a 64-bit size.
   */
  function SearchBox(x: Box, kind: Kind, at: nat, end: nat): Option<nat> {
    if at + 8 > end then None
    else if x.kind == kind then Some(at)
    else if x.Node? && x.sizing != Large then SearchForest(x.children, kind, at + 8, end)
    else None
  }

  function SearchForest(f: Forest, kind: Kind, at: nat, end: nat): Option<nat> {
    match f
    case Nil => None
    case Cons(x, rest) =>
      var r := SearchBox(x, kind, at, end);
      if r.Some? then r else SearchForest(rest, kind, at + BoxSize(x), end)
  }

  /** Nothing is found where no header fits. */
  lemma {:induction false} NoRoom(f: Forest, kind: Kind, at: nat, end: nat)
    requires at + 8 > end
    ensures SearchForest(f, kind, at, end) == None
  {
    if f.Cons? { NoRoom(f.tail, kind, at + BoxSize(f.head), end); }
  }

  /** A range that ends after the tree is as good as one that ends with it. */
  lemma {:induction false} RoomEnough(f: Forest, kind: Kind, at: nat, e: nat, end: nat)
    requires at + ForestSize(f) <= e && at + ForestSize(f) <= end
    ensures SearchForest(f, kind, at, e) == SearchForest(f, kind, at, end)
    decreases f
  {
    if f.Cons? {
      assert BoxSize(f.head) == HeaderSize(f.head.sizing) + BodySize(f.head);
      if f.head.Node? && f.head.sizing != Large { RoomEnough(f.head.children, kind, at + 8, e, end); }
      RoomEnough(f.tail, kind, at + BoxSize(f.head), e, end);
    }
  }

  /** So is harmlessness. */
  lemma {:induction false} HarmlessInside(f: Forest, kind: Kind, at: nat, e: nat, end: nat)
    requires ForestHarmless(f, kind, at, end) && e <= end
    ensures ForestHarmless(f, kind, at, e)
    decreases f
  {
    if f.Cons? {
      if f.head.Node? && f.head.sizing != Large { HarmlessInside(f.head.children, kind, at + 8, e, end); }
      HarmlessInside(f.tail, kind, at + BoxSize(f.head), e, end);
    }
  }

  // ------------------------------------------------------------ what the search reads

  /** What the search reads of a box header that stands at `at`. */
  ghost predicate Reads(b: seq<byte>, at: nat, end: nat, kind: Kind, n: nat) {
    at + 8 <= end && at + 8 <= |b| && KindAt(b, at) == kind && Advance(b, at, end) == Some(n)
  }

  lemma ShortHeaderReads(b: seq<byte>, at: nat, end: nat, kind: Kind, field: nat, n: nat)
    requires field < TWO_32 && field != 1 && At(b, at, Be32(field) + KindBytes(kind)) && at + 8 <= end
    requires n == if field == 0 then end - at else field
    ensures Reads(b, at, end, kind, n)
  {
    AtSplit(b, at, Be32(field), KindBytes(kind));
    KindReads(b, at, kind);
    BeReadsBack(b, at, field);
  }

  lemma LargeHeaderReads(b: seq<byte>, at: nat, end: nat, kind: Kind, n: nat)
    requires n < TWO_64 && At(b, at, HeaderBytes(kind, Large, n)) && at + 8 <= end
    ensures Reads(b, at, end, kind, n)
    ensures At(b, at + 8, Be32(n / TWO_32)) && At(b, at + 12, Be32(n % TWO_32))
  {
    var hi, lo := n / TWO_32, n % TWO_32;
    AtSplit(b, at, Be32(1) + KindBytes(kind), Be32(hi) + Be32(lo));
    AtSplit(b, at, Be32(1), KindBytes(kind));
    KindReads(b, at, kind);
    AtSplit(b, at + 8, Be32(hi), Be32(lo));
    BeReadsBack(b, at, 1);
    BeReadsBack(b, at + 8, hi);
    BeReadsBack(b, at + 12, lo);
  }

  /** How far the search goes for a box: its size, or to the end of the range. */
  function Step(x: Box, at: nat, end: nat): nat
    requires at <= end
  {
    if x.sizing == ToEnd then end - at else BoxSize(x)
  }

  lemma BoxReads(b: seq<byte>, at: nat, end: nat, x: Box)
    requires BoxAt(b, at, x) && at + 8 <= end
    ensures Reads(b, at, end, x.kind, Step(x, at, end))
  {
    var n := BoxSize(x);
    match x.sizing
    case Compact => ShortHeaderReads(b, at, end, x.kind, n, n);
    case ToEnd => ShortHeaderReads(b, at, end, x.kind, 0, end - at);
    case Large => LargeHeaderReads(b, at, end, x.kind, n);
  }

  lemma FindStep(b: seq<byte>, kind: Kind, at: nat, end: nat, k: Kind, n: nat)
    requires Reads(b, at, end, k, n) && 8 <= n && at + n < TWO_64
    ensures Find(b, kind, at, end).hit
            == if k == kind then Some(at)
               else
                 var inner := if IsContainer(k) then Find(b, kind, at + 8, Min(at + n, end)).hit else None;
                 if inner.Some? then inner else Find(b, kind, at + n, end).hit
  {
    assert NextAt(b, at, end) == Some(at + n);
  }

  /** A 64-bit size without a high half reads as the header of a box that fills the range. */
  lemma SizeReadsAsBox(b: seq<byte>, at: nat, end: nat, kind: Kind, n: nat) returns (k: Kind)
    requires n < TWO_32 && at + 16 <= end && At(b, at, HeaderBytes(kind, Large, n))
    ensures Reads(b, at + 8, end, k, end - (at + 8)) && Code(k) == n
  {
    LargeHeaderReads(b, at, end, kind, n);
    BeReadsBack(b, at + 8, 0);
    var s := Be32(n);
    k := Kind(s[0], s[1], s[2], s[3]);
    assert KindBytes(k) == s;
    KindReads(b, at + 8, k);
    Be32IsWord(n);
    WordOfFour(k.c0, k.c1, k.c2, k.c3);
  }

  /** A range filled by one box of no interest holds no hit. */
  lemma OpaqueFiller(b: seq<byte>, kind: Kind, at: nat, end: nat, k: Kind)
    requires at <= end && Reads(b, at, end, k, end - at) && end < TWO_64 && k != kind && !IsContainer(k)
    ensures Find(b, kind, at, end).hit == None
  {
    FindStep(b, kind, at, end, k, end - at);
  }

  /** Inside a container with a 64-bit size the search takes the size for a box and finds nothing. */
  lemma LargeHides(b: seq<byte>, kind: Kind, at: nat, k: Kind, n: nat, end: nat)
    requires n < TWO_64 && At(b, at, HeaderBytes(k, Large, n)) && end <= |b| < TWO_64
    requires at + 16 <= end ==> Harmless(n, kind)
    ensures Find(b, kind, at + 8, end).hit == None
  {
    if at + 16 <= end {
      var k' := SizeReadsAsBox(b, at, end, k, n);
      OpaqueFiller(b, kind, at + 8, end, k');
    }
  }

  /** The assumption is needed: a size that spells the wanted type is taken for a box of that type. */
  lemma SizeSpellsType(b: seq<byte>, kind: Kind, at: nat, k: Kind, n: nat, end: nat)
    requires n < TWO_64 && At(b, at, HeaderBytes(k, Large, n)) && at + 16 <= end <= |b|
    ensures n == Code(kind) ==> Find(b, kind, at + 8, end).hit == Some(at + 8)
  {
    if n == Code(kind) {
      var k' := SizeReadsAsBox(b, at, end, k, n);
      CodeIsInjective(k', kind);
    }
  }

  lemma CodeIsInjective(j: Kind, k: Kind)
    ensures Code(j) == Code(k) <==> j == k
  {
    if Code(j) == Code(k) {
      assert j.c0 * 256 + j.c1 == k.c0 * 256 + k.c1 && j.c2 * 256 + j.c3 == k.c2 * 256 + k.c3;
    }
  }

  // ------------------------------------------------------------ the search is that of the tree

  /** The parts of a written box that decide what is found inside it. */
  ghost predicate PartsAt(b: seq<byte>, at: nat, x: Box, n: nat) {
    && (x.sizing == Large ==> n < TWO_64 && At(b, at, HeaderBytes(x.kind, Large, n)))
    && (x.sizing != Large && x.Node? ==> ForestAt(b, at + 8, x.children) && n == 8 + ForestSize(x.children))
  }

  lemma BoxHasParts(b: seq<byte>, at: nat, x: Box)
    requires BoxAt(b, at, x)
    ensures PartsAt(b, at, x, BoxSize(x))
  {
  }

  /** What a well-formed box says about its inside. */
  ghost predicate InsideOk(x: Box, n: nat, wanted: Kind, at: nat, end: nat) {
    && (x.sizing == Large && IsContainer(x.kind) && at + 16 <= end ==> Harmless(n, wanted))
    && (x.sizing != Large ==> (IsContainer(x.kind) <==> x.Node?))
    && (x.Node? ==> IsContainer(x.kind) && ForestOk(x.children))
    && (x.Node? && x.sizing != Large ==> ForestHarmless(x.children, wanted, at + 8, end))
  }

  lemma BoxInsideOk(x: Box, isLast: bool, wanted: Kind, at: nat, end: nat)
    requires BoxOk(x, isLast) && BoxHarmless(x, wanted, at, end)
    ensures InsideOk(x, BoxSize(x), wanted, at, end)
  {
  }

  /** What the search finds inside a box that is not the one it looks for. */
  lemma {:induction false} InsideIsSearched(b: seq<byte>, kind: Kind, at: nat, x: Box, n: nat, end: nat, e: nat)
    requires PartsAt(b, at, x, n) && end <= |b| < TWO_64 && x.kind != kind && at + 8 <= end
    requires InsideOk(x, n, kind, at, end) && e == Min(at + n, end)
    ensures (if IsContainer(x.kind) then Find(b, kind, at + 8, e).hit else None) == SearchBox(x, kind, at, end)
    decreases x
  {
    if IsContainer(x.kind) {
      if x.sizing == Large {
        LargeHides(b, kind, at, x.kind, n, e);
      } else {
        HarmlessInside(x.children, kind, at + 8, e, end);
        FindSearchesForest(b, kind, at + 8, x.children, e);
        if at + n <= end { RoomEnough(x.children, kind, at + 8, e, end); }
      }
    }
  }

  /**
   On every well-formed box tree, for every range end inside it, the hit is the first match in
   pre-order through the containers, those with a 64-bit size excepted.
   */
  lemma {:induction false} FindSearchesForest(b: seq<byte>, kind: Kind, at: nat, f: Forest, end: nat)
    requires ForestAt(b, at, f) && ForestOk(f) && ForestHarmless(f, kind, at, end)
    requires end <= at + ForestSize(f) && |b| < TWO_64
    ensures Find(b, kind, at, end).hit == SearchForest(f, kind, at, end)
    decreases f
  {
    if at + 8 > end {
      NoRoom(f, kind, at, end);
    } else {
      var x, n := f.head, BoxSize(f.head);
      if x.sizing != ToEnd { FindSearchesForest(b, kind, at + n, f.tail, end); }
      ForestFits(b, at, f);
      BoxReads(b, at, end, x);
      if x.kind != kind {
        BoxHasParts(b, at, x);
        BoxInsideOk(x, f.tail.Nil?, kind, at, end);
        InsideIsSearched(b, kind, at, x, n, end, Min(at + n, end));
      }
      SearchesCombine(b, kind, at, f, end, n, Step(x, at, end));
    }
  }

  lemma SearchesCombine(b: seq<byte>, kind: Kind, at: nat, f: Forest, end: nat, n: nat, step: nat)
    requires f.Cons? && n == BoxSize(f.head) && Reads(b, at, end, f.head.kind, step)
    requires at + 8 <= end < TWO_64 && step == Step(f.head, at, end) && 8 <= n && at + n < TWO_64
    requires f.head.kind != kind ==>
               (if IsContainer(f.head.kind) then Find(b, kind, at + 8, Min(at + n, end)).hit else None)
               == SearchBox(f.head, kind, at, end)
    requires if f.head.sizing == ToEnd then f.tail.Nil? && end <= at + n
             else Find(b, kind, at + n, end).hit == SearchForest(f.tail, kind, at + n, end)
    ensures Find(b, kind, at, end).hit == SearchForest(f, kind, at, end)
  {
    FindStep(b, kind, at, end, f.head.kind, step);
  }

  // ------------------------------------------------------------ against the standard

  // A match, and whether it lies inside a container with a 64-bit size.
  datatype Match = Match(at: nat, hidden: bool)

  /** The first match in pre-order among the boxes whose header ends by `end`, as the standard lays them out. */
  function IsoBox(x: Box, kind: Kind, at: nat, end: nat, hidden: bool): Option<Match> {
    if at + 8 > end then None
    else if x.kind == kind then Some(Match(at, hidden))
    else if x.Node? then IsoForest(x.children, kind, at + HeaderSize(x.sizing), end, hidden || x.sizing == Large)
    else None
  }

  function IsoForest(f: Forest, kind: Kind, at: nat, end: nat, hidden: bool): Option<Match> {
    match f
    case Nil => None
    case Cons(x, rest) =>
      var r := IsoBox(x, kind, at, end, hidden);
      if r.Some? then r else IsoForest(rest, kind, at + BoxSize(x), end, hidden)
  }

  lemma {:induction false} IsoBoxRange(x: Box, kind: Kind, at: nat, end: nat, hidden: bool)
    ensures var r := IsoBox(x, kind, at, end, hidden);
            r.Some? ==> at <= r.value.at < at + BoxSize(x) && (hidden ==> r.value.hidden)
    decreases x
  {
    if x.Node? { IsoForestRange(x.children, kind, at + HeaderSize(x.sizing), end, hidden || x.sizing == Large); }
  }

  lemma {:induction false} IsoForestRange(f: Forest, kind: Kind, at: nat, end: nat, hidden: bool)
    ensures var r := IsoForest(f, kind, at, end, hidden);
            r.Some? ==> at <= r.value.at < at + ForestSize(f) && (hidden ==> r.value.hidden)
    decreases f
  {
    if f.Cons? {
      IsoBoxRange(f.head, kind, at, end, hidden);
      IsoForestRange(f.tail, kind, at + BoxSize(f.head), end, hidden);
    }
  }

  lemma {:induction false} SearchIsBeyond(f: Forest, kind: Kind, at: nat, end: nat)
    ensures SearchForest(f, kind, at, end).Some? ==> at <= SearchForest(f, kind, at, end).value
    decreases f
  {
    if f.Cons? {
      if f.head.Node? { SearchIsBeyond(f.head.children, kind, at + 8, end); }
      SearchIsBeyond(f.tail, kind, at + BoxSize(f.head), end);
    }
  }

  ghost predicate AgreesIfVisible(found: Option<nat>, iso: Option<Match>) {
    if iso.None? then found == None
    else if iso.value.hidden then found != Some(iso.value.at)
    else found == Some(iso.value.at)
  }

  lemma {:induction false} BoxAgrees(x: Box, kind: Kind, at: nat, end: nat)
    ensures AgreesIfVisible(SearchBox(x, kind, at, end), IsoBox(x, kind, at, end, false))
    decreases x
  {
    if at + 8 <= end && x.kind != kind && x.Node? {
      if x.sizing == Large {
        IsoForestRange(x.children, kind, at + 16, end, true);
      } else {
        ForestAgrees(x.children, kind, at + 8, end);
      }
    }
  }

  lemma {:induction false} ForestAgrees(f: Forest, kind: Kind, at: nat, end: nat)
    ensures AgreesIfVisible(SearchForest(f, kind, at, end), IsoForest(f, kind, at, end, false))
    decreases f
  {
    if f.Cons? {
      var next := at + BoxSize(f.head);
      BoxAgrees(f.head, kind, at, end);
      IsoBoxRange(f.head, kind, at, end, false);
      SearchIsBeyond(f.tail, kind, next, end);
      ForestAgrees(f.tail, kind, next, end);
    }
  }

  /** The search of a range finds what the standard's first match in it is. */
  ghost predicate MeetsStandard(b: seq<byte>, kind: Kind, at: nat, f: Forest, end: nat) {
    var iso := IsoForest(f, kind, at, end, false);
    Find(b, kind, at, end).hit == if iso.Some? then Some(iso.value.at) else None
  }

  predicate IsHidden(f: Forest, kind: Kind, at: nat, end: nat) {
    var iso := IsoForest(f, kind, at, end, false);
    iso.Some? && iso.value.hidden
  }

  /**
   Main result: for every range end inside a well-formed tree, the search returns the standard's
   first match exactly when that match is not inside a container with a 64-bit size: such a
   container is entered eight bytes too early.
   */
  lemma FindMeetsStandardExactly(b: seq<byte>, kind: Kind, at: nat, f: Forest, end: nat)
    requires ForestAt(b, at, f) && ForestOk(f) && ForestHarmless(f, kind, at, end)
    requires end <= at + ForestSize(f) && |b| < TWO_64
    ensures MeetsStandard(b, kind, at, f, end) <==> !IsHidden(f, kind, at, end)
  {
    FindSearchesForest(b, kind, at, f, end);
    ForestAgrees(f, kind, at, end);
  }

  /** Files below 16 MiB: nothing has to be assumed about sizes. */
  lemma SmallFileMeetsStandardExactly(b: seq<byte>, kind: Kind, f: Forest, end: nat)
    requires ForestAt(b, 0, f) && ForestOk(f) && end <= ForestSize(f) == |b| < TWO_24 && kind.c0 != 0
    ensures MeetsStandard(b, kind, 0, f, end) <==> !IsHidden(f, kind, 0, end)
  {
    SmallForestIsHarmless(f, kind, 0, end);
    FindMeetsStandardExactly(b, kind, 0, f, end);
  }

  // ------------------------------------------------------------ the failing case

  const FTYP := Kind(0x66, 0x74, 0x79, 0x70)
  const MVHD := Kind(0x6d, 0x76, 0x68, 0x64)

  function LargeMoov(body: seq<byte>): Box {
    Node(MOOV, Large, Cons(Leaf(MVHD, Compact, body), Nil))
  }

  /** A file type box, then a movie header inside a `moov` box with a 64-bit size. */
  function LargeMovie(brand: seq<byte>, body: seq<byte>): Forest {
    Cons(Leaf(FTYP, Compact, brand), Cons(LargeMoov(body), Nil))
  }

  lemma LargeMoovIsOk(body: seq<byte>)
    requires 24 + |body| < TWO_24
    ensures BoxSize(LargeMoov(body)) == 24 + |body| && BoxOk(LargeMoov(body), true)
  {
    var leaf := Leaf(MVHD, Compact, body);
    assert BoxSize(leaf) == 8 + |body| && ForestOk(Nil) && BoxOk(leaf, true);
    assert ForestSize(Cons(leaf, Nil)) == 8 + |body| && ForestOk(Cons(leaf, Nil));
  }

  lemma LargeMovieIsOk(brand: seq<byte>, body: seq<byte>)
    requires 32 + |brand| + |body| < TWO_24
    ensures ForestSize(LargeMovie(brand, body)) == 32 + |brand| + |body| && ForestOk(LargeMovie(brand, body))
  {
    LargeMoovIsOk(body);
    var ftyp := Leaf(FTYP, Compact, brand);
    assert BoxSize(ftyp) == 8 + |brand| && BoxOk(ftyp, false);
    var rest := Cons(LargeMoov(body), Nil);
    assert ForestSize(Nil) == 0 && ForestOk(Nil);
    assert ForestSize(rest) == 24 + |body| && ForestOk(rest);
  }

  lemma LargeMovieIso(brand: seq<byte>, body: seq<byte>, end: nat)
    requires 32 + |brand| <= end
    ensures IsoForest(LargeMovie(brand, body), MVHD, 0, end, false) == Some(Match(24 + |brand|, true))
  {
    var leaf, ftyp, at := Leaf(MVHD, Compact, body), Leaf(FTYP, Compact, brand), 8 + |brand|;
    assert IsoBox(leaf, MVHD, at + 16, end, true) == Some(Match(at + 16, true));
    assert IsoForest(Cons(leaf, Nil), MVHD, at + 16, end, true) == Some(Match(at + 16, true));
    assert IsoBox(LargeMoov(body), MVHD, at, end, false) == Some(Match(at + 16, true));
    assert IsoForest(Cons(LargeMoov(body), Nil), MVHD, at, end, false) == Some(Match(at + 16, true));
    assert IsoBox(ftyp, MVHD, 0, end, false) == None && BoxSize(ftyp) == at;
  }

  lemma LargeMovieSearched(brand: seq<byte>, body: seq<byte>, end: nat)
    ensures SearchForest(LargeMovie(brand, body), MVHD, 0, end) == None
  {
    var ftyp, at := Leaf(FTYP, Compact, brand), 8 + |brand|;
    var rest := Cons(LargeMoov(body), Nil);
    assert SearchBox(ftyp, MVHD, 0, end) == None && BoxSize(ftyp) == at;
    assert SearchBox(LargeMoov(body), MVHD, at, end) == None;
    assert SearchForest(Nil, MVHD, at + BoxSize(LargeMoov(body)), end) == None;
    assert SearchForest(rest, MVHD, at, end) == None;
  }

  /**
   The failing input, for every brand and header body: the header is in the range, the standard
   finds it, the search does not.
   */
  lemma LargeMovieIsMissed(b: seq<byte>, brand: seq<byte>, body: seq<byte>, end: nat)
    requires ForestAt(b, 0, LargeMovie(brand, body)) && |b| == 32 + |brand| + |body| < TWO_24
    requires 32 + |brand| <= end <= |b|
    ensures IsoForest(LargeMovie(brand, body), MVHD, 0, end, false) == Some(Match(24 + |brand|, true))
    ensures Find(b, MVHD, 0, end).hit == None
    ensures KindBytes(FTYP) == Ascii("ftyp") && KindBytes(MOOV) == Ascii("moov") && KindBytes(MVHD) == Ascii("mvhd")
  {
    NamesOf(FTYP, FTYP, "ftyp");
    NamesOf(MOOV, MOOV, "moov");
    NamesOf(MVHD, MVHD, "mvhd");
    LargeMovieIsOk(brand, body);
    LargeMovieIso(brand, body, end);
    LargeMovieSearched(brand, body, end);
    SmallForestIsHarmless(LargeMovie(brand, body), MVHD, 0, end);
    FindSearchesForest(b, MVHD, 0, LargeMovie(brand, body), end);
  }
}
