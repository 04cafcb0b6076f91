/**
 * The well-formed data items of section 3 of RFC 8949 as a grammar, and the skip of the generated
 * decoders as its recognizer.
 */
module CborItems {
  import opened ByteStrings
  import opened CborWire

  /** The information of a head and the argument it stands for or announces. */
  datatype Arg = Arg(info: nat, n: nat) {
    predicate Ok() {
      (info < 24 && n == info) || (24 <= info < 28 && n < Power(Width(info)))
    }
  }

  datatype Item =
    | Scalar(major: nat, arg: Arg)                        // an integer, a simple value or a float
    | Str(major: nat, arg: Arg, data: bytes)              // a byte or text string
    | Chunked(major: nat, chunks: seq<Item>)              // a string of indefinite length
    | Counted(major: nat, arg: Arg, items: seq<Item>)     // an array, or a map as its keys and values in turn
    | Open(major: nat, items: seq<Item>)                  // an array or a map of indefinite length
    | Tagged(arg: Arg, item: Item)

  predicate WellFormed(x: Item) {
    match x
    case Scalar(major, arg) => major in {0, 1, 7} && arg.Ok() && (major == 7 && arg.info == 24 ==> arg.n >= 32)
    case Str(major, arg, data) => major in {2, 3} && arg.Ok() && arg.n == |data|
    case Chunked(major, chunks) =>
      major in {2, 3} && forall i :: 0 <= i < |chunks| ==> chunks[i].Str? && chunks[i].major == major && WellFormed(chunks[i])
    case Counted(major, arg, items) =>
      && major in {4, 5} && arg.Ok() && |items| == (if major == 4 then arg.n else 2 * arg.n)
      && forall i :: 0 <= i < |items| ==> WellFormed(items[i])
    case Open(major, items) =>
      major in {4, 5} && (major == 5 ==> |items| % 2 == 0) && forall i :: 0 <= i < |items| ==> WellFormed(items[i])
    case Tagged(arg, item) => arg.Ok() && WellFormed(item)
  }

  function HeadOf(major: nat, arg: Arg): bytes
    requires major < 8 && arg.info < 28
  {
    [major * 32 + arg.info] + BigEndian(arg.n, Width(arg.info))
  }

  const BREAK: byte := 0xFF

  function Encoded(x: Item): (b: bytes)
    requires WellFormed(x)
    ensures b != [] && b[0] != BREAK
  {
    match x
    case Scalar(major, arg) => HeadOf(major, arg)
    case Str(major, arg, data) => HeadOf(major, arg) + data
    case Chunked(major, chunks) => [major * 32 + INDEFINITE] + EncodedAll(chunks) + [BREAK]
    case Counted(major, arg, items) => HeadOf(major, arg) + EncodedAll(items)
    case Open(major, items) => [major * 32 + INDEFINITE] + EncodedAll(items) + [BREAK]
    case Tagged(arg, item) => HeadOf(6, arg) + Encoded(item)
  }

  function EncodedAll(items: seq<Item>): bytes
    requires forall i :: 0 <= i < |items| ==> WellFormed(items[i])
  {
    if items == [] then [] else Encoded(items[0]) + EncodedAll(items[1..])
  }

  // --- Every well-formed item is skipped ---

  lemma HeadOfReads(major: nat, arg: Arg, s: bytes)
    requires major < 8 && arg.Ok()
    ensures ReadHead(HeadOf(major, arg) + s) == Some(HeadRead(major, arg.info, arg.n, s))
  {
    hide ReadHead;
    if arg.info < 24 {
      assert HeadOf(major, arg) == [major * 32 + arg.n];
      hide BigEndian, Power;
      ReadShort(major, arg.n, s);
    } else {
      hide BigEndian, Power;
      ReadWide(major, arg.info, arg.n, s);
    }
  }

  lemma OpenReads(major: nat, s: bytes)
    requires major < 8
    ensures ReadHead([major * 32 + INDEFINITE] + s) == Some(HeadRead(major, INDEFINITE, 0, s))
  {
    assert ([major * 32 + INDEFINITE] + s)[1..] == s;
  }

  lemma Rejoin(a: bytes, b: bytes, c: bytes, d: bytes)
    ensures a + b + c + d == a + (b + (c + d)) && a + b + c == a + (b + c)
  {
  }

  lemma DataSkips(data: bytes, s: bytes)
    ensures (data + s)[|data|..] == s
  {
  }

  lemma {:induction false} SkipsItem(x: Item, s: bytes)
    requires WellFormed(x)
    ensures Skip(Encoded(x) + s) == Some(s)
    decreases x, 1
  {
    hide ReadHead, HeadOf, BigEndian, Power;
    match x {
      case Scalar(major, arg) =>
        HeadOfReads(major, arg, s);
      case Str(major, arg, data) =>
        Rejoin(HeadOf(major, arg), data, s, []);
        HeadOfReads(major, arg, data + s);
        DataSkips(data, s);
      case Chunked(major, chunks) =>
        Rejoin([major * 32 + INDEFINITE], EncodedAll(chunks), [BREAK], s);
        OpenReads(major, EncodedAll(chunks) + ([BREAK] + s));
        SkipsChunks(chunks, major, s);
      case Counted(major, arg, items) =>
        Rejoin(HeadOf(major, arg), EncodedAll(items), s, []);
        HeadOfReads(major, arg, EncodedAll(items) + s);
        SkipsAll(items, s);
      case Open(major, items) =>
        Rejoin([major * 32 + INDEFINITE], EncodedAll(items), [BREAK], s);
        OpenReads(major, EncodedAll(items) + ([BREAK] + s));
        SkipsOpen(items, major == 5, s);
      case Tagged(arg, item) =>
        Rejoin(HeadOf(6, arg), Encoded(item), s, []);
        HeadOfReads(6, arg, Encoded(item) + s);
        SkipsItem(item, s);
    }
  }

  lemma {:induction false} SkipsAll(items: seq<Item>, s: bytes)
    requires forall i :: 0 <= i < |items| ==> WellFormed(items[i])
    ensures SkipMany(EncodedAll(items) + s, |items|) == Some(s)
    decreases items, 0
  {
    hide Encoded, Skip;
    if items == [] {
      assert [] + s == s;
    } else {
      Rejoin(Encoded(items[0]), EncodedAll(items[1..]), s, []);
      SkipsItem(items[0], EncodedAll(items[1..]) + s);
      SkipsAll(items[1..], s);
    }
  }

  lemma BreakFirst(s: bytes)
    ensures [] + ([BREAK] + s) == [BREAK] + s && ([BREAK] + s)[1..] == s
  {
  }

  lemma FirstByte(x: Item, t: bytes)
    requires WellFormed(x)
    ensures Encoded(x) + t != [] && (Encoded(x) + t)[0] != BREAK
  {
  }

  lemma {:induction false} SkipsOpen(items: seq<Item>, pairs: bool, s: bytes)
    requires (forall i :: 0 <= i < |items| ==> WellFormed(items[i])) && (pairs ==> |items| % 2 == 0)
    ensures SkipToBreak(EncodedAll(items) + ([BREAK] + s), pairs) == Some(s)
    decreases items, 0
  {
    hide Encoded, Skip, WellFormed;
    var tail := [BREAK] + s;
    if items == [] {
      BreakFirst(s);
    } else {
      var rest := EncodedAll(items[1..]) + tail;
      Rejoin(Encoded(items[0]), EncodedAll(items[1..]), tail, []);
      FirstByte(items[0], rest);
      SkipsItem(items[0], rest);
      if pairs {
        Rejoin(Encoded(items[1]), EncodedAll(items[1..][1..]), tail, []);
        SkipsItem(items[1], EncodedAll(items[1..][1..]) + tail);
        SkipsOpen(items[1..][1..], pairs, s);
      } else {
        SkipsOpen(items[1..], pairs, s);
      }
    }
  }

  lemma {:induction false} SkipsChunks(chunks: seq<Item>, major: nat, s: bytes)
    requires major < 8
    requires forall i :: 0 <= i < |chunks| ==> chunks[i].Str? && chunks[i].major == major && WellFormed(chunks[i])
    ensures SkipChunks(EncodedAll(chunks) + ([BREAK] + s), major) == Some(s)
    decreases chunks, 0
  {
    hide ReadHead, HeadOf, BigEndian, Power;
    var tail := [BREAK] + s;
    if chunks == [] {
      BreakFirst(s);
    } else {
      var x, rest := chunks[0], EncodedAll(chunks[1..]) + tail;
      Rejoin(Encoded(x), EncodedAll(chunks[1..]), tail, []);
      FirstByte(x, rest);
      Rejoin(HeadOf(major, x.arg), x.data, rest, []);
      HeadOfReads(major, x.arg, x.data + rest);
      DataSkips(x.data, rest);
      SkipsChunks(chunks[1..], major, s);
    }
  }

  // --- Whatever is skipped is a well-formed item ---

  /** What a definite head is read from. */
  lemma DefiniteRead(b: bytes) returns (arg: Arg)
    requires ReadHead(b).Some? && ReadHead(b).value.info != INDEFINITE
    ensures var h := ReadHead(b).value; arg == Arg(h.info, h.arg) && arg.Ok() && b == HeadOf(h.major, arg) + h.rest
  {
    var h := ReadHead(b).value;
    arg := Arg(h.info, h.arg);
    assert b[0] == h.major * 32 + h.info;
    if h.info >= 24 {
      var w := Width(h.info);
      BigEndianOf(b[1..1 + w]);
      assert b == [b[0]] + b[1..1 + w] + b[1 + w..];
    } else {
      assert b == [b[0]] + [] + b[1..];
    }
  }

  lemma OpenRead(b: bytes)
    requires ReadHead(b).Some? && ReadHead(b).value.info == INDEFINITE
    ensures b == [ReadHead(b).value.major * 32 + INDEFINITE] + ReadHead(b).value.rest
  {
  }

  lemma {:induction false} SkippedItem(b: bytes) returns (x: Item)
    requires Skip(b).Some?
    ensures WellFormed(x) && b == Encoded(x) + Skip(b).value
    decreases |b|, 0
  {
    hide ReadHead, HeadOf, BigEndian, FromBigEndian, Power, SkipMany, SkipToBreak, SkipChunks;
    var h, s := ReadHead(b).value, Skip(b).value;
    if h.info == INDEFINITE {
      OpenRead(b);
      if h.major in {2, 3} {
        var chunks := SkippedChunks(h.rest, h.major);
        x := Chunked(h.major, chunks);
        Rejoin([h.major * 32 + INDEFINITE], EncodedAll(chunks), [BREAK], s);
      } else {
        var items := SkippedOpen(h.rest, h.major == 5);
        x := Open(h.major, items);
        Rejoin([h.major * 32 + INDEFINITE], EncodedAll(items), [BREAK], s);
      }
    } else {
      var arg := DefiniteRead(b);
      if h.major in {0, 1, 7} {
        x := Scalar(h.major, arg);
      } else if h.major in {2, 3} {
        x := Str(h.major, arg, h.rest[..h.arg]);
        assert h.rest == h.rest[..h.arg] + s;
        Rejoin(HeadOf(h.major, arg), h.rest[..h.arg], s, []);
      } else if h.major == 6 {
        var item := SkippedItem(h.rest);
        x := Tagged(arg, item);
        Rejoin(HeadOf(6, arg), Encoded(item), s, []);
      } else {
        var items := SkippedAll(h.rest, if h.major == 4 then h.arg else 2 * h.arg);
        x := Counted(h.major, arg, items);
        Rejoin(HeadOf(h.major, arg), EncodedAll(items), s, []);
      }
    }
  }

  lemma EncodedCons(x: Item, items: seq<Item>)
    requires WellFormed(x) && forall i :: 0 <= i < |items| ==> WellFormed(items[i])
    ensures forall i :: 0 <= i < |[x] + items| ==> WellFormed(([x] + items)[i])
    ensures EncodedAll([x] + items) == Encoded(x) + EncodedAll(items)
  {
    hide WellFormed, Encoded;
    assert ([x] + items)[1..] == items;
  }

  lemma {:induction false} SkippedAll(b: bytes, n: nat) returns (items: seq<Item>)
    requires SkipMany(b, n).Some?
    ensures |items| == n && (forall i :: 0 <= i < n ==> WellFormed(items[i]))
    ensures b == EncodedAll(items) + SkipMany(b, n).value
    decreases |b|, n
  {
    hide Skip, Encoded, WellFormed;
    if n == 0 {
      items := [];
      assert [] + b == b;
    } else {
      var x := SkippedItem(b);
      var rest := SkippedAll(Skip(b).value, n - 1);
      items := [x] + rest;
      EncodedCons(x, rest);
      Rejoin(Encoded(x), EncodedAll(rest), SkipMany(b, n).value, []);
    }
  }

  lemma BreakRead(b: bytes)
    requires b != [] && b[0] == BREAK
    ensures b == [] + ([BREAK] + b[1..])
  {
  }

  lemma {:induction false} SkippedOpen(b: bytes, pairs: bool) returns (items: seq<Item>)
    requires SkipToBreak(b, pairs).Some?
    ensures (forall i :: 0 <= i < |items| ==> WellFormed(items[i])) && (pairs ==> |items| % 2 == 0)
    ensures b == EncodedAll(items) + ([BREAK] + SkipToBreak(b, pairs).value)
    decreases |b|, 1
  {
    hide Skip, Encoded, WellFormed;
    var tail := [BREAK] + SkipToBreak(b, pairs).value;
    if b[0] == BREAK {
      items := [];
      BreakRead(b);
    } else {
      var x := SkippedItem(b);
      var rest := Skip(b).value;
      if pairs {
        var y := SkippedItem(rest);
        var more := SkippedOpen(Skip(rest).value, pairs);
        EncodedCons(y, more);
        EncodedCons(x, [y] + more);
        Rejoin(Encoded(y), EncodedAll(more), tail, []);
        Rejoin(Encoded(x), EncodedAll([y] + more), tail, []);
        items := [x] + ([y] + more);
      } else {
        var more := SkippedOpen(rest, pairs);
        EncodedCons(x, more);
        Rejoin(Encoded(x), EncodedAll(more), tail, []);
        items := [x] + more;
      }
    }
  }

  lemma {:induction false} SkippedChunks(b: bytes, major: nat) returns (chunks: seq<Item>)
    requires major in {2, 3} && SkipChunks(b, major).Some?
    ensures forall i :: 0 <= i < |chunks| ==> chunks[i].Str? && chunks[i].major == major && WellFormed(chunks[i])
    ensures b == EncodedAll(chunks) + ([BREAK] + SkipChunks(b, major).value)
    decreases |b|
  {
    hide ReadHead, HeadOf, BigEndian, FromBigEndian, Power;
    var tail := [BREAK] + SkipChunks(b, major).value;
    if b[0] == BREAK {
      chunks := [];
      BreakRead(b);
    } else {
      var h := ReadHead(b).value;
      var arg := DefiniteRead(b);
      var data, s := h.rest[..h.arg], h.rest[h.arg..];
      var x := Str(major, arg, data);
      var more := SkippedChunks(s, major);
      assert h.rest == data + s;
      Rejoin(HeadOf(major, arg), data, s, []);
      EncodedCons(x, more);
      Rejoin(Encoded(x), EncodedAll(more), tail, []);
      chunks := [x] + more;
    }
  }

  /** The skip passes over exactly the well-formed items: what it leaves is what follows one. */
  lemma SkipExactly(b: bytes, s: bytes)
    ensures Skip(b) == Some(s) <==> exists x :: WellFormed(x) && b == Encoded(x) + s
  {
    if Skip(b) == Some(s) {
      var x := SkippedItem(b);
    }
    forall x | WellFormed(x) && b == Encoded(x) + s ensures Skip(b) == Some(s) {
      SkipsItem(x, s);
    }
  }
}
