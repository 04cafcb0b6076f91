/**
 * The CBOR data item heads and the skip over one well-formed item, from sections 3, 3.1 and 3.2
 * of RFC 8949, as the generated codecs use them.
 */
module CborWire {
  import opened ByteStrings

  const U8: int := 0x100
  const U16: int := 0x1_0000
  const U32: int := 0x1_0000_0000
  const U64: int := 0x1_0000_0000_0000_0000

  // --- Big-endian numbers ---

  function Power(k: nat): nat {
    if k == 0 then 1 else 256 * Power(k - 1)
  }

  function BigEndian(n: nat, k: nat): (b: bytes)
    ensures |b| == k
  {
    if k == 0 then [] else BigEndian(n / 256, k - 1) + [n % 256]
  }

  function FromBigEndian(b: bytes): nat {
    if b == [] then 0 else FromBigEndian(b[..|b| - 1]) * 256 + b[|b| - 1]
  }

  lemma {:induction false} BigEndianRoundTrip(n: nat, k: nat)
    requires n < Power(k)
    ensures FromBigEndian(BigEndian(n, k)) == n
  {
    if k > 0 {
      assert n / 256 < Power(k - 1);
      BigEndianRoundTrip(n / 256, k - 1);
      assert BigEndian(n, k)[..k - 1] == BigEndian(n / 256, k - 1);
    }
  }

  lemma {:induction false} BigEndianOf(b: bytes)
    ensures FromBigEndian(b) < Power(|b|) && BigEndian(FromBigEndian(b), |b|) == b
  {
    if b != [] {
      var n, x := FromBigEndian(b[..|b| - 1]), b[|b| - 1];
      BigEndianOf(b[..|b| - 1]);
      assert (n * 256 + x) / 256 == n && (n * 256 + x) % 256 == x;
      assert b[..|b| - 1] + [x] == b;
    }
  }

  /** A number written in base 256, its most significant byte first. */
  function Weighted(b: bytes): nat {
    if b == [] then 0 else b[0] * Power(|b| - 1) + Weighted(b[1..])
  }

  lemma {:induction false} WeightedSnoc(b: bytes, x: byte)
    ensures Weighted(b + [x]) == 256 * Weighted(b) + x
  {
    if b == [] {
      assert ([] + [x])[1..] == [];
    } else {
      assert (b + [x])[1..] == b[1..] + [x];
      WeightedSnoc(b[1..], x);
      assert b[0] * (256 * Power(|b| - 1)) == 256 * (b[0] * Power(|b| - 1));
    }
  }

  /** Numbers are read most significant byte first. */
  lemma {:induction false} NetworkOrder(b: bytes)
    ensures FromBigEndian(b) == Weighted(b)
  {
    if b != [] {
      NetworkOrder(b[..|b| - 1]);
      WeightedSnoc(b[..|b| - 1], b[|b| - 1]);
      assert b[..|b| - 1] + [b[|b| - 1]] == b;
    }
  }

  lemma Powers()
    ensures Power(1) == U8 && Power(2) == U16 && Power(4) == U32 && Power(8) == U64
  {
    assert Power(3) == 0x100_0000 && Power(4) == U32;
    assert Power(5) == 0x100_0000_0000 && Power(6) == 0x1_0000_0000_0000;
    assert Power(7) == 0x100_0000_0000_0000;
  }

  // --- Heads ---

  /** An item head: the initial byte with its three-bit major type, and the shortest argument. */
  function Head(major: nat, n: nat): bytes
    requires major < 8 && n < U64
  {
    if n < 24 then [major * 32 + n]
    else if n < U8 then [major * 32 + 24] + BigEndian(n, 1)
    else if n < U16 then [major * 32 + 25] + BigEndian(n, 2)
    else if n < U32 then [major * 32 + 26] + BigEndian(n, 4)
    else [major * 32 + 27] + BigEndian(n, 8)
  }

  const INDEFINITE := 31

  datatype HeadRead = HeadRead(major: nat, info: nat, arg: nat, rest: bytes)

  function Width(info: nat): nat {
    if info == 24 then 1 else if info == 25 then 2 else if info == 26 then 4 else if info == 27 then 8 else 0
  }

  function ReadHead(b: bytes): (h: Option<HeadRead>)
    ensures h.Some? ==> |h.value.rest| < |b| && h.value.major < 8 && h.value.info < 32
  {
    if b == [] then None
    else
      var major, info := b[0] / 32, b[0] % 32;
      if info < 24 then Some(HeadRead(major, info, info, b[1..]))
      else if info < 28 then
        var w := Width(info);
        if |b| < 1 + w then None else Some(HeadRead(major, info, FromBigEndian(b[1..1 + w]), b[1 + w..]))
      else if info == INDEFINITE then Some(HeadRead(major, info, 0, b[1..]))
      else None
  }

  lemma ReadWide(major: nat, info: nat, n: nat, s: bytes)
    requires major < 8 && 24 <= info < 28 && n < Power(Width(info))
    ensures ReadHead([major * 32 + info] + BigEndian(n, Width(info)) + s) == Some(HeadRead(major, info, n, s))
  {
    var w := Width(info);
    var digits := BigEndian(n, w);
    var b := [major * 32 + info] + digits + s;
    BigEndianRoundTrip(n, w);
    hide BigEndian, FromBigEndian, Power;
    assert b[0] / 32 == major && b[0] % 32 == info;
    assert b[1..1 + w] == digits && b[1 + w..] == s;
  }

  /** The head of section 3 of RFC 8949: three bits of major type, five of information, then the argument in network order. */
  lemma HeadBytes(major: nat, n: nat)
    requires major < 8 && n < U64
    ensures var h := Head(major, n);
            && h[0] / 32 == major && Weighted(h[1..]) == (if n < 24 then 0 else n)
            && h[0] % 32 == (if n < 24 then n else if |h| == 2 then 24 else if |h| == 3 then 25 else if |h| == 5 then 26 else 27)
            && |h| == (if n < 24 then 1 else if n < 0x100 then 2 else if n < 0x1_0000 then 3 else if n < 0x1_0000_0000 then 5 else 9)
  {
    Powers();
    var h := Head(major, n);
    if n >= 24 {
      var w := |h| - 1;
      BigEndianRoundTrip(n, w);
      NetworkOrder(BigEndian(n, w));
      hide BigEndian, FromBigEndian, Power, Weighted;
      assert h[1..] == BigEndian(n, w);
    }
  }

  /** A head is read when the information is not reserved and the argument is there, in network order. */
  lemma HeadReads(b: bytes)
    ensures ReadHead(b).Some? <==> b != [] && b[0] % 32 !in {28, 29, 30} && |b| > Width(b[0] % 32)
    ensures ReadHead(b).Some? ==>
              var h, w := ReadHead(b).value, Width(b[0] % 32);
              && h.major == b[0] / 32 && h.info == b[0] % 32 && h.rest == b[1 + w..]
              && h.arg == (if h.info < 24 then h.info else if h.info == INDEFINITE then 0 else Weighted(b[1..1 + w]))
  {
    if ReadHead(b).Some? && 24 <= b[0] % 32 < 28 {
      NetworkOrder(b[1..1 + Width(b[0] % 32)]);
    }
    hide FromBigEndian, Weighted;
  }

  lemma Widths()
    ensures Width(24) == 1 && Width(25) == 2 && Width(26) == 4 && Width(27) == 8
    ensures forall info: nat :: info < 24 || info > 27 ==> Width(info) == 0
  {
  }

  /** Reading back a head gives its type and argument, whatever follows. */
  lemma HeadRoundTrip(major: nat, n: nat, s: bytes)
    requires major < 8 && n < U64
    ensures var h := ReadHead(Head(major, n) + s);
            h.Some? && h.value.major == major && h.value.arg == n && h.value.rest == s && h.value.info < 28
  {
    Powers();
    hide BigEndian, Power, ReadHead;
    if n < 24 {
      ReadShort(major, n, s);
    } else {
      var info := if n < U8 then 24 else if n < U16 then 25 else if n < U32 then 26 else 27;
      ReadWide(major, info, n, s);
    }
  }

  lemma ReadShort(major: nat, n: nat, s: bytes)
    requires major < 8 && n < 24
    ensures ReadHead([major * 32 + n] + s) == Some(HeadRead(major, n, n, s))
  {
    assert ([major * 32 + n] + s)[1..] == s;
  }

  /** A head that can be read ends where it ends, whatever is appended. */
  lemma HeadExtends(b: bytes, s: bytes)
    requires ReadHead(b).Some?
    ensures ReadHead(b + s) == Some(ReadHead(b).value.(rest := ReadHead(b).value.rest + s))
  {
    var w := Width(b[0] % 32);
    assert (b + s)[1 + w..] == b[1 + w..] + s;
    assert (b + s)[1..1 + w] == b[1..1 + w];
    assert (b + s)[1..] == b[1..] + s;
  }

  // --- Skipping one well-formed item ---

  /** What is left after one well-formed item. */
  function Skip(b: bytes): (r: Option<bytes>)
    ensures r.Some? ==> |r.value| < |b|
    decreases |b|, 0
  {
    match ReadHead(b)
    case None => None
    case Some(h) =>
      if h.major < 2 then (if h.info == INDEFINITE then None else Some(h.rest))
      else if h.major < 4 then
        if h.info == INDEFINITE then SkipChunks(h.rest, h.major)
        else if h.arg > |h.rest| then None else Some(h.rest[h.arg..])
      else if h.major < 6 then
        if h.info == INDEFINITE then SkipToBreak(h.rest, h.major == 5)
        else SkipMany(h.rest, if h.major == 4 then h.arg else 2 * h.arg)
      else if h.major == 6 then (if h.info == INDEFINITE then None else Skip(h.rest))
      else if h.info == INDEFINITE || (h.info == 24 && h.arg < 32) then None
      else Some(h.rest)
  }

  function SkipMany(b: bytes, n: nat): (r: Option<bytes>)
    ensures r.Some? ==> |r.value| <= |b|
    decreases |b|, n
  {
    if n == 0 then Some(b)
    else match Skip(b)
      case None => None
      case Some(rest) => SkipMany(rest, n - 1)
  }

  /** The definite-length chunks of an indefinite-length string, up to the break byte. */
  function SkipChunks(b: bytes, major: nat): (r: Option<bytes>)
    ensures r.Some? ==> |r.value| < |b|
    decreases |b|
  {
    if b == [] then None
    else if b[0] == 0xFF then Some(b[1..])
    else match ReadHead(b)
      case None => None
      case Some(h) =>
        if h.major != major || h.info == INDEFINITE || h.arg > |h.rest| then None
        else SkipChunks(h.rest[h.arg..], major)
  }

  /** The items of an indefinite-length array, or the pairs of a map, up to the break byte. */
  function SkipToBreak(b: bytes, pairs: bool): (r: Option<bytes>)
    ensures r.Some? ==> |r.value| < |b|
    decreases |b|, 1
  {
    if b == [] then None
    else if b[0] == 0xFF then Some(b[1..])
    else match Skip(b)
      case None => None
      case Some(rest) =>
        if !pairs then SkipToBreak(rest, pairs)
        else match Skip(rest)
          case None => None
          case Some(after) => SkipToBreak(after, pairs)
  }

  lemma DropJoin(b: bytes, n: nat, s: bytes)
    requires n <= |b|
    ensures (b + s)[n..] == b[n..] + s
  {
  }

  lemma {:induction false} ChunksExtend(b: bytes, major: nat, s: bytes)
    requires SkipChunks(b, major).Some?
    ensures SkipChunks(b + s, major) == Some(SkipChunks(b, major).value + s)
    decreases |b|
  {
    if b[0] == 0xFF {
      DropJoin(b, 1, s);
    } else {
      HeadExtends(b, s);
      var h := ReadHead(b).value;
      DropJoin(h.rest, h.arg, s);
      ChunksExtend(h.rest[h.arg..], major, s);
    }
  }

  /** An item is self-delimiting: where it ends does not depend on what follows. */
  lemma {:induction false} SkipExtends(b: bytes, s: bytes)
    requires Skip(b).Some?
    ensures Skip(b + s) == Some(Skip(b).value + s)
    decreases |b|, 0
  {
    HeadExtends(b, s);
    var h := ReadHead(b).value;
    if h.major in {2, 3} {
      if h.info == INDEFINITE {
        ChunksExtend(h.rest, h.major, s);
      } else {
        DropJoin(h.rest, h.arg, s);
      }
    } else if h.major in {4, 5} {
      if h.info == INDEFINITE {
        BreakExtends(h.rest, h.major == 5, s);
      } else {
        ManyExtends(h.rest, if h.major == 4 then h.arg else 2 * h.arg, s);
      }
    } else if h.major == 6 {
      SkipExtends(h.rest, s);
    }
  }

  lemma {:induction false} ManyExtends(b: bytes, n: nat, s: bytes)
    requires SkipMany(b, n).Some?
    ensures SkipMany(b + s, n) == Some(SkipMany(b, n).value + s)
    decreases |b|, n
  {
    if n > 0 {
      SkipExtends(b, s);
      ManyExtends(Skip(b).value, n - 1, s);
    }
  }

  lemma {:induction false} BreakExtends(b: bytes, pairs: bool, s: bytes)
    requires SkipToBreak(b, pairs).Some?
    ensures SkipToBreak(b + s, pairs) == Some(SkipToBreak(b, pairs).value + s)
    decreases |b|, 1
  {
    if b[0] == 0xFF {
      DropJoin(b, 1, s);
    } else {
      SkipExtends(b, s);
      var rest := Skip(b).value;
      if pairs {
        SkipExtends(rest, s);
        BreakExtends(Skip(rest).value, pairs, s);
      } else {
        BreakExtends(rest, pairs, s);
      }
    }
  }
}
