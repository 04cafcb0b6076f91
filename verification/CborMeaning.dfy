/**
 * What a CBOR document denotes under a plan, said of its data items and not of its bytes, and the
 * generated decoders as readers of it.
 */
module CborMeaning {
  import opened ByteStrings
  import opened CborWire
  import opened CborItems
  import opened CborOrder
  import opened CborCodec
  import E = CborEnds

  // --- Denotation ---

  predicate IsText(x: Item): (r: bool)
    ensures r ==> x.Str?
  {
    x.Str? && x.major == 3
  }

  /** A number a field of so many bits takes. */
  function DenoteNumber(x: Item, w: CborCodec.Width, signed: bool): Option<Value> {
    if !x.Scalar? || x.major == 7 then None
    else
      var n := if x.major == 0 then x.arg.n else -1 - x.arg.n;
      if E.InBits(n, E.Bits(w), signed) then Some(Int(n)) else None
  }

  ghost function DenoteElem(x: Item, e: Elem, env: Env): Option<Value>
    requires env.Sound() && env.Knows(e)
    decreases x, 2
  {
    match e
    case StringElem => if IsText(x) then Some(Text(x.data)) else None
    case IntElem(w, signed) => DenoteNumber(x, w, signed)
    case WordElem(signed) => DenoteNumber(x, env.word, signed)
    case BoolElem => if x.Scalar? && x.major == 7 && x.arg.info in {20, 21} then Some(Bool(x.arg.info == 21)) else None
    case FloatElem => if x.Scalar? && x.major == 7 && x.arg.info == 27 then Some(Float(BigEndian(x.arg.n, 8))) else None
    case StructElem(name) => DenoteStruct(x, name, env)
  }

  /** A counted map under the map shape, or a counted array of one item a member under the array shape. */
  ghost function DenoteStruct(x: Item, name: string, env: Env): Option<Value>
    requires env.Sound() && name in env.defs
    decreases x, 1
  {
    MembersAssign(env, name);
    var members, zero := Members(env, name), ZeroFields(name, env);
    if !x.Counted? || x.major != (if env.asMap then 5 else 4) || x.arg.n >= I64 then None
    else if env.asMap then (if |x.items| == 2 * x.arg.n then DenotePairs(x.items, members, zero, env) else None)
    else if |x.items| == x.arg.n == |members| then DenoteInOrder(x.items, members, zero, env)
    else None
  }

  ghost function DenoteInOrder(items: seq<Item>, members: seq<Entry<Slot>>, out: seq<Value>, env: Env): Option<Value>
    requires env.Sound() && Assignable(members, out, env) && |items| == |members|
    decreases items, 0
  {
    if items == [] then Some(Rec(out))
    else
      match DenoteKind(items[0], members[0].item.kind, env)
      case None => None
      case Some(v) => DenoteInOrder(items[1..], members[1..], out[members[0].item.at := v], env)
  }

  /** The pairs assign the members they name, a later one over an earlier one, and any other key is passed over. */
  ghost function DenotePairs(items: seq<Item>, members: seq<Entry<Slot>>, out: seq<Value>, env: Env): Option<Value>
    requires env.Sound() && Assignable(members, out, env) && |items| % 2 == 0
    decreases items, 0
  {
    if items == [] then Some(Rec(out))
    else if !IsText(items[0]) then None
    else
      var i := KeyIndex(members, items[0].data);
      if i < 0 then DenotePairs(items[2..], members, out, env)
      else
        match DenoteKind(items[1], members[i].item.kind, env)
        case None => None
        case Some(v) => DenotePairs(items[2..], members, out[members[i].item.at := v], env)
  }

  /** The items of an array or a map, counted or open. */
  predicate Holds(x: Item, major: nat): (r: bool)
    ensures r ==> x.Counted? || x.Open?
  {
    (x.Counted? && x.major == major && x.arg.n < I64) || (x.Open? && x.major == major)
  }

  ghost function DenoteKind(x: Item, k: Kind, env: Env): Option<Value>
    requires env.Sound() && env.KnowsKind(k)
    decreases x, 3
  {
    match k
    case Single(e) => DenoteElem(x, e, env)
    case Slice(e) =>
      if !Holds(x, 4) then None
      else (match DenoteItems(x.items, e, env) case None => None case Some(values) => Some(List(values)))
    case FixedArray(e, len) =>
      if !Holds(x, 4) then None
      else
        (match DenoteItems(x.items, e, env)
         case None => None
         case Some(values) => if |values| > len then None else Some(Padded(values, len, e, env)))
    case ByteSlice => if x.Str? && x.major == 2 then Some(Blob(x.data)) else None
    case FixedBytes(len) => if x.Str? && x.major == 2 && |x.data| <= len then Some(Blob(Fill(x.data, len, 0))) else None
    case StringMap(e) =>
      if !Holds(x, 5) || |x.items| % 2 != 0 then None
      else (match DenoteEntries(x.items, e, [], env) case None => None case Some(entries) => Some(Dict(entries)))
  }

  ghost function DenoteItems(items: seq<Item>, e: Elem, env: Env): Option<seq<Value>>
    requires env.Sound() && env.Knows(e)
    decreases items, 0
  {
    if items == [] then Some([])
    else
      match DenoteElem(items[0], e, env)
      case None => None
      case Some(v) => E.After(v, DenoteItems(items[1..], e, env))
  }

  ghost function DenoteEntries(items: seq<Item>, e: Elem, got: seq<DictEntry>, env: Env): Option<seq<DictEntry>>
    requires env.Sound() && env.Knows(e) && |items| % 2 == 0
    decreases items, 0
  {
    if items == [] then Some(got)
    else if !IsText(items[0]) then None
    else
      match DenoteElem(items[1], e, env)
      case None => None
      case Some(v) => DenoteEntries(items[2..], e, PutEntry(got, items[0].data, v), env)
  }

  // --- The bytes of an item mean what the item denotes ---

  /** What the head of an encoding is read as. */
  lemma Front(x: Item, s: bytes)
    requires WellFormed(x)
    ensures ReadHead(Encoded(x) + s).Some?
    ensures var h := ReadHead(Encoded(x) + s).value;
            && (x.Scalar? ==> h == HeadRead(x.major, x.arg.info, x.arg.n, s))
            && (x.Str? ==> h == HeadRead(x.major, x.arg.info, x.arg.n, x.data + s))
            && (!x.Scalar? ==> h.major in {2, 3, 4, 5, 6})
            && (x.Chunked? ==> h.major == x.major && h.info == INDEFINITE)
            && (x.Counted? ==> h == HeadRead(x.major, x.arg.info, x.arg.n, EncodedAll(x.items) + s))
            && (x.Open? ==> h == HeadRead(x.major, INDEFINITE, 0, EncodedAll(x.items) + ([BREAK] + s)))
            && (x.Tagged? ==> h.major == 6)
  {
    hide ReadHead, HeadOf, BigEndian, Power;
    match x {
      case Scalar(major, arg) => HeadOfReads(major, arg, s);
      case Str(major, arg, data) =>
        Rejoin(HeadOf(major, arg), data, s, []);
        HeadOfReads(major, arg, data + s);
      case Chunked(major, chunks) =>
        Rejoin([major * 32 + INDEFINITE], EncodedAll(chunks), [BREAK], s);
        OpenReads(major, EncodedAll(chunks) + ([BREAK] + s));
      case Counted(major, arg, items) =>
        Rejoin(HeadOf(major, arg), EncodedAll(items), s, []);
        HeadOfReads(major, arg, EncodedAll(items) + s);
      case Open(major, items) =>
        Rejoin([major * 32 + INDEFINITE], EncodedAll(items), [BREAK], s);
        OpenReads(major, EncodedAll(items) + ([BREAK] + s));
      case Tagged(arg, item) =>
        Rejoin(HeadOf(6, arg), Encoded(item), s, []);
        HeadOfReads(6, arg, Encoded(item) + s);
    }
  }

  lemma DataFirst(data: bytes, s: bytes)
    ensures (data + s)[..|data|] == data && (data + s)[|data|..] == s
  {
  }

  lemma StringRead(b: bytes, h: HeadRead, data: bytes, s: bytes)
    requires ReadHead(b) == Some(h) && h.info < 28 && h.arg == |data| && h.rest == data + s
    ensures ReadString(b, h.major) == Got(data, s)
    ensures h.major == 3 ==> forall word: CborCodec.Width :: E.MeanScalar(b, StringElem, word) == Some(Text(data))
  {
    DataFirst(data, s);
    hide ReadHead;
  }

  lemma NoString(b: bytes, major: nat)
    requires ReadHead(b).Some? && (ReadHead(b).value.major != major || ReadHead(b).value.info == INDEFINITE)
    ensures ReadString(b, major).Bad?
    ensures major == 3 ==> forall word: CborCodec.Width :: E.MeanScalar(b, StringElem, word) == None
  {
    hide ReadHead;
  }

  lemma StringFront(x: Item, major: nat, s: bytes)
    requires WellFormed(x) && major in {2, 3}
    ensures ReadString(Encoded(x) + s, major).Got? <==> x.Str? && x.major == major
    ensures ReadString(Encoded(x) + s, major).Got? ==> ReadString(Encoded(x) + s, major) == Got(x.data, s)
    ensures major == 3 ==>
              forall word: CborCodec.Width ::
                E.MeanScalar(Encoded(x) + s, StringElem, word) == if IsText(x) then Some(Text(x.data)) else None
  {
    Front(x, s);
    hide ReadHead, Encoded, EncodedAll, ReadString, E.MeanScalar;
    if x.Str? && x.major == major {
      StringRead(Encoded(x) + s, ReadHead(Encoded(x) + s).value, x.data, s);
    } else {
      NoString(Encoded(x) + s, major);
    }
  }

  lemma CountFront(x: Item, major: nat, s: bytes)
    requires WellFormed(x) && major in {4, 5}
    ensures ReadCount(Encoded(x) + s, major).Got? <==> Holds(x, major)
    ensures Holds(x, major) ==>
              ReadCount(Encoded(x) + s, major) ==
              if x.Counted? then Got(Some(x.arg.n), EncodedAll(x.items) + s)
              else Got(None, EncodedAll(x.items) + ([BREAK] + s))
  {
    Front(x, s);
    hide ReadHead, Encoded, EncodedAll;
  }

  lemma NumberMeans(x: Item, h: HeadRead, w: CborCodec.Width, signed: bool)
    requires WellFormed(x) && h.major < 8
    requires x.Scalar? ==> h.major == x.major && h.info == x.arg.info && h.arg == x.arg.n
    requires !x.Scalar? ==> h.major in {2, 3, 4, 5, 6}
    ensures E.MeanNumber(h, w, signed) == DenoteNumber(x, w, signed)
  {
    hide E.InBits, E.Bits;
  }

  lemma ScalarMeans(x: Item, e: Elem, env: Env, s: bytes)
    requires env.Sound() && env.Knows(e) && !e.StructElem? && WellFormed(x)
    ensures E.MeanScalar(Encoded(x) + s, e, env.word) == DenoteElem(x, e, env)
  {
    if e.StringElem? {
      StringFront(x, 3, s);
      hide E.MeanScalar, Encoded, WellFormed;
    } else {
      Front(x, s);
      var h := ReadHead(Encoded(x) + s).value;
      hide ReadHead, Encoded, EncodedAll, BigEndian, E.MeanNumber, DenoteNumber;
      match e {
        case IntElem(w, signed) => NumberMeans(x, h, w, signed);
        case WordElem(signed) => NumberMeans(x, h, env.word, signed);
        case _ =>
      }
    }
  }

  lemma {:induction false} ElemMeans(x: Item, e: Elem, env: Env, s: bytes)
    requires env.Sound() && env.Knows(e) && WellFormed(x)
    ensures E.MeanElem(Encoded(x) + s, e, env) == DenoteElem(x, e, env)
    decreases x, 2
  {
    hide Encoded, WellFormed, E.MeanScalar, E.MeanStruct, DenoteStruct;
    if e.StructElem? {
      StructMeans(x, e.name, env, s);
    } else {
      ScalarMeans(x, e, env, s);
    }
  }

  lemma {:induction false} StructMeans(x: Item, name: string, env: Env, s: bytes)
    requires env.Sound() && name in env.defs && WellFormed(x)
    ensures E.MeanStruct(Encoded(x) + s, name, env) == DenoteStruct(x, name, env)
    decreases x, 1
  {
    var members, zero, major := Members(env, name), ZeroFields(name, env), if env.asMap then 5 else 4;
    MembersAssign(env, name);
    CountFront(x, major, s);
    hide ReadCount, Encoded, EncodedAll, Members, ZeroFields, E.MeanPairs, E.MeanInOrder, DenotePairs, DenoteInOrder;
    if Holds(x, major) && x.Counted? {
      if env.asMap {
        PairsMean(x.items, x.arg.n, members, zero, env, s);
      } else if |x.items| == |members| {
        InOrderMean(x.items, members, zero, env, s);
      }
    }
  }

  lemma InOrderUnfold(items: seq<Item>, members: seq<Entry<Slot>>, out: seq<Value>, env: Env, s: bytes)
    requires env.Sound() && Assignable(members, out, env) && |items| == |members| > 0
    requires forall i :: 0 <= i < |items| ==> WellFormed(items[i])
    ensures var rest := EncodedAll(items[1..]) + s;
            && EncodedAll(items) + s == Encoded(items[0]) + rest && Skip(Encoded(items[0]) + rest) == Some(rest)
            && E.MeanInOrder(EncodedAll(items) + s, members, out, env) ==
               (match E.MeanKind(Encoded(items[0]) + rest, members[0].item.kind, env)
                case None => None
                case Some(v) => E.MeanInOrder(rest, members[1..], out[members[0].item.at := v], env))
  {
    Rejoin(Encoded(items[0]), EncodedAll(items[1..]), s, []);
    SkipsItem(items[0], EncodedAll(items[1..]) + s);
    hide Encoded, Skip, E.MeanKind, WellFormed;
  }

  lemma {:induction false} InOrderMean(items: seq<Item>, members: seq<Entry<Slot>>, out: seq<Value>, env: Env, s: bytes)
    requires env.Sound() && Assignable(members, out, env) && |items| == |members|
    requires forall i :: 0 <= i < |items| ==> WellFormed(items[i])
    ensures E.MeanInOrder(EncodedAll(items) + s, members, out, env) == DenoteInOrder(items, members, out, env)
    decreases items, 0
  {
    if items != [] {
      InOrderUnfold(items, members, out, env, s);
      hide E.MeanInOrder, E.MeanKind, DenoteKind, Encoded, EncodedAll, Skip, WellFormed;
      KindMeans(items[0], members[0].item.kind, env, EncodedAll(items[1..]) + s);
      var v := DenoteKind(items[0], members[0].item.kind, env);
      if v.Some? {
        InOrderMean(items[1..], members[1..], out[members[0].item.at := v.value], env, s);
      }
    }
  }

  lemma TwoFirst(items: seq<Item>, s: bytes)
    requires |items| >= 2 && forall i :: 0 <= i < |items| ==> WellFormed(items[i])
    ensures forall i :: 0 <= i < |items[2..]| ==> WellFormed(items[2..][i])
    ensures var after := EncodedAll(items[2..]) + s;
            var rest := Encoded(items[1]) + after;
            && EncodedAll(items) + s == Encoded(items[0]) + rest && Skip(rest) == Some(after)
            && Skip(Encoded(items[0]) + rest) == Some(rest)
  {
    hide Encoded, Skip, WellFormed;
    assert items[1..][1..] == items[2..];
    var after := EncodedAll(items[2..]) + s;
    Rejoin(Encoded(items[1]), EncodedAll(items[2..]), s, []);
    Rejoin(Encoded(items[0]), EncodedAll(items[1..]), s, []);
    SkipsItem(items[1], after);
    SkipsItem(items[0], Encoded(items[1]) + after);
  }

  lemma PairsUnfold(items: seq<Item>, n: nat, members: seq<Entry<Slot>>, out: seq<Value>, env: Env, s: bytes)
    requires env.Sound() && Assignable(members, out, env) && |items| == 2 * n > 0
    requires forall i :: 0 <= i < |items| ==> WellFormed(items[i])
    ensures forall i :: 0 <= i < |items[2..]| ==> WellFormed(items[2..][i])
    ensures var after := EncodedAll(items[2..]) + s;
            E.MeanPairs(EncodedAll(items) + s, n, members, out, env) ==
            if !IsText(items[0]) then None
            else
              var i := KeyIndex(members, items[0].data);
              if i < 0 then E.MeanPairs(after, n - 1, members, out, env)
              else
                match E.MeanKind(Encoded(items[1]) + after, members[i].item.kind, env)
                case None => None
                case Some(v) => E.MeanPairs(after, n - 1, members, out[members[i].item.at := v], env)
  {
    TwoFirst(items, s);
    StringFront(items[0], 3, Encoded(items[1]) + (EncodedAll(items[2..]) + s));
    hide Encoded, EncodedAll, Skip, E.MeanKind, WellFormed, ReadString, KeyIndex;
  }

  lemma NoPairs(n: nat, members: seq<Entry<Slot>>, out: seq<Value>, env: Env, s: bytes)
    requires env.Sound() && Assignable(members, out, env) && n == 0
    ensures E.MeanPairs(EncodedAll([]) + s, n, members, out, env) == DenotePairs([], members, out, env)
  {
  }

  lemma DenotePairsUnfold(items: seq<Item>, members: seq<Entry<Slot>>, out: seq<Value>, env: Env)
    requires env.Sound() && Assignable(members, out, env) && |items| % 2 == 0 && items != []
    ensures IsText(items[0]) && KeyIndex(members, items[0].data) >= 0 ==>
              var i := KeyIndex(members, items[0].data);
              && members[i].item.at < |out| && env.KnowsKind(members[i].item.kind)
              && var v := DenoteKind(items[1], members[i].item.kind, env);
                 v.Some? ==> Assignable(members, out[members[i].item.at := v.value], env)
    ensures DenotePairs(items, members, out, env) ==
            if !IsText(items[0]) then None
            else
              var i := KeyIndex(members, items[0].data);
              if i < 0 then DenotePairs(items[2..], members, out, env)
              else
                match DenoteKind(items[1], members[i].item.kind, env)
                case None => None
                case Some(v) => DenotePairs(items[2..], members, out[members[i].item.at := v], env)
  {
    hide DenoteKind, KeyIndex;
  }

  lemma {:induction false} PairsMean(items: seq<Item>, n: nat, members: seq<Entry<Slot>>, out: seq<Value>, env: Env, s: bytes)
    requires env.Sound() && Assignable(members, out, env) && |items| == 2 * n
    requires forall i :: 0 <= i < |items| ==> WellFormed(items[i])
    ensures E.MeanPairs(EncodedAll(items) + s, n, members, out, env) == DenotePairs(items, members, out, env)
    decreases items, 0
  {
    hide *;
    if n == 0 {
      NoPairs(n, members, out, env, s);
    } else {
      PairsUnfold(items, n, members, out, env, s);
      DenotePairsUnfold(items, members, out, env);
      if IsText(items[0]) {
        var i := KeyIndex(members, items[0].data);
        if i < 0 {
          PairsMean(items[2..], n - 1, members, out, env, s);
        } else {
          var k := members[i].item.kind;
          KindMeans(items[1], k, env, EncodedAll(items[2..]) + s);
          if DenoteKind(items[1], k, env).Some? {
            PairsMean(items[2..], n - 1, members, out[members[i].item.at := DenoteKind(items[1], k, env).value], env, s);
          }
        }
      }
    }
  }

  lemma StringKindMeans(x: Item, k: Kind, env: Env, s: bytes)
    requires env.Sound() && env.KnowsKind(k) && WellFormed(x) && (k.ByteSlice? || k.FixedBytes?)
    ensures E.MeanKind(Encoded(x) + s, k, env) == DenoteKind(x, k, env)
  {
    StringFront(x, 2, s);
    hide ReadString, Encoded;
  }

  lemma {:induction false} KindMeans(x: Item, k: Kind, env: Env, s: bytes)
    requires env.Sound() && env.KnowsKind(k) && WellFormed(x)
    ensures E.MeanKind(Encoded(x) + s, k, env) == DenoteKind(x, k, env)
    decreases x, 3
  {
    match k {
      case Single(e) =>
        hide E.MeanElem, DenoteElem, Encoded, WellFormed;
        ElemMeans(x, e, env, s);
      case Slice(e) =>
        ListMeans(x, e, env, s);
        hide E.MeanList, DenoteItems, Encoded, WellFormed;
      case FixedArray(e, len) =>
        ListMeans(x, e, env, s);
        hide E.MeanList, DenoteItems, Encoded, WellFormed, Padded;
      case StringMap(e) =>
        MapMeans(x, e, env, s);
      case _ =>
        StringKindMeans(x, k, env, s);
    }
  }

  lemma MapUnfold(x: Item, b: bytes, e: Elem, env: Env)
    requires env.Sound() && env.Knows(e)
    ensures ReadCount(b, 5).Bad? ==> E.MeanKind(b, StringMap(e), env) == None
    ensures ReadCount(b, 5).Got? ==>
              var entries := E.MeanEntries(ReadCount(b, 5).rest, ReadCount(b, 5).value, e, [], env);
              E.MeanKind(b, StringMap(e), env) == if entries.None? then None else Some(Dict(entries.value))
    ensures !Holds(x, 5) || |x.items| % 2 != 0 ==> DenoteKind(x, StringMap(e), env) == None
    ensures Holds(x, 5) && |x.items| % 2 == 0 ==>
              var entries := DenoteEntries(x.items, e, [], env);
              DenoteKind(x, StringMap(e), env) == if entries.None? then None else Some(Dict(entries.value))
  {
    hide ReadCount, E.MeanEntries, DenoteEntries;
  }

  lemma HeldItems(x: Item, s: bytes)
    requires WellFormed(x) && Holds(x, 5)
    ensures (forall i :: 0 <= i < |x.items| ==> WellFormed(x.items[i])) && |x.items| % 2 == 0
    ensures x.Counted? || x.Open?
    ensures x.Counted? ==> 2 * x.arg.n == |x.items|
    ensures x.Open? ==> Ended(None, s) == [BREAK] + s
    ensures x.Counted? ==> Ended(Some(x.arg.n), s) == s
  {
  }

  lemma {:induction false} MapMeans(x: Item, e: Elem, env: Env, s: bytes)
    requires env.Sound() && env.Knows(e) && WellFormed(x)
    ensures E.MeanKind(Encoded(x) + s, StringMap(e), env) == DenoteKind(x, StringMap(e), env)
    decreases x, 2
  {
    CountFront(x, 5, s);
    MapUnfold(x, Encoded(x) + s, e, env);
    hide *;
    if Holds(x, 5) {
      HeldItems(x, s);
      var n: Option<nat> := if x.Open? then None else Some(x.arg.n);
      EntriesMean(x.items, n, e, [], env, s);
    }
  }

  lemma {:induction false} ListMeans(x: Item, e: Elem, env: Env, s: bytes)
    requires env.Sound() && env.Knows(e) && WellFormed(x)
    ensures E.MeanList(Encoded(x) + s, e, env) == if Holds(x, 4) then DenoteItems(x.items, e, env) else None
    decreases x, 2
  {
    CountFront(x, 4, s);
    hide ReadCount, E.MeanItems, DenoteItems, Encoded, EncodedAll;
    if Holds(x, 4) {
      ItemsMean(x.items, if x.Open? then None else Some(x.arg.n), e, env, s);
    }
  }

  /** What is counted is all there, and what is not ends with a break. */
  function Ended(n: Option<nat>, s: bytes): bytes {
    if n.None? then [BREAK] + s else s
  }

  lemma ItemsUnfold(items: seq<Item>, n: Option<nat>, e: Elem, env: Env, s: bytes)
    requires env.Sound() && env.Knows(e) && (n.Some? ==> n.value == |items|)
    requires forall i :: 0 <= i < |items| ==> WellFormed(items[i])
    ensures items == [] ==> E.MeanItems(EncodedAll(items) + Ended(n, s), n, e, env) == Some([])
    ensures items != [] ==>
              var rest := EncodedAll(items[1..]) + Ended(n, s);
              && n != Some(0)
              && E.MeanItems(EncodedAll(items) + Ended(n, s), n, e, env) ==
                 (match E.MeanElem(Encoded(items[0]) + rest, e, env)
                  case None => None
                  case Some(v) => E.After(v, E.MeanItems(rest, E.Fewer(n), e, env)))
  {
    if items != [] {
      var rest := EncodedAll(items[1..]) + Ended(n, s);
      Rejoin(Encoded(items[0]), EncodedAll(items[1..]), Ended(n, s), []);
      SkipsItem(items[0], rest);
      FirstByte(items[0], rest);
      hide Encoded, Skip, E.MeanElem, WellFormed;
    }
  }

  lemma {:induction false} ItemsMean(items: seq<Item>, n: Option<nat>, e: Elem, env: Env, s: bytes)
    requires env.Sound() && env.Knows(e) && (n.Some? ==> n.value == |items|)
    requires forall i :: 0 <= i < |items| ==> WellFormed(items[i])
    ensures E.MeanItems(EncodedAll(items) + Ended(n, s), n, e, env) == DenoteItems(items, e, env)
    decreases items, 0
  {
    ItemsUnfold(items, n, e, env, s);
    if items != [] {
      hide E.MeanItems, E.MeanElem, DenoteElem, Encoded, EncodedAll, WellFormed;
      ElemMeans(items[0], e, env, EncodedAll(items[1..]) + Ended(n, s));
      ItemsMean(items[1..], E.Fewer(n), e, env, s);
    }
  }

  lemma EntriesUnfold(items: seq<Item>, n: Option<nat>, e: Elem, got: seq<DictEntry>, env: Env, s: bytes)
    requires env.Sound() && env.Knows(e) && |items| % 2 == 0 && (n.Some? ==> 2 * n.value == |items|)
    requires forall i :: 0 <= i < |items| ==> WellFormed(items[i])
    ensures items == [] ==> E.MeanEntries(EncodedAll(items) + Ended(n, s), n, e, got, env) == Some(got)
    ensures items != [] ==>
              var after := EncodedAll(items[2..]) + Ended(n, s);
              && n != Some(0) && (forall i :: 0 <= i < |items[2..]| ==> WellFormed(items[2..][i]))
              && E.MeanEntries(EncodedAll(items) + Ended(n, s), n, e, got, env) ==
                 if !IsText(items[0]) then None
                 else
                   match E.MeanElem(Encoded(items[1]) + after, e, env)
                   case None => None
                   case Some(v) => E.MeanEntries(after, E.Fewer(n), e, PutEntry(got, items[0].data, v), env)
  {
    if items != [] {
      var rest := Encoded(items[1]) + (EncodedAll(items[2..]) + Ended(n, s));
      TwoFirst(items, Ended(n, s));
      StringFront(items[0], 3, rest);
      FirstByte(items[0], rest);
      hide Encoded, EncodedAll, Skip, E.MeanElem, WellFormed, ReadString, PutEntry;
    }
  }

  lemma DenoteEntriesUnfold(items: seq<Item>, e: Elem, got: seq<DictEntry>, env: Env)
    requires env.Sound() && env.Knows(e) && |items| % 2 == 0
    ensures items == [] ==> DenoteEntries(items, e, got, env) == Some(got)
    ensures items != [] ==>
              DenoteEntries(items, e, got, env) ==
              if !IsText(items[0]) then None
              else
                match DenoteElem(items[1], e, env)
                case None => None
                case Some(v) => DenoteEntries(items[2..], e, PutEntry(got, items[0].data, v), env)
  {
    hide DenoteElem, PutEntry;
  }

  lemma FewerLeft(items: seq<Item>, n: Option<nat>)
    requires items != [] && |items| % 2 == 0 && (n.Some? ==> 2 * n.value == |items|)
    ensures n != Some(0) && |items[2..]| % 2 == 0
    ensures E.Fewer(n).Some? ==> 2 * E.Fewer(n).value == |items[2..]|
    ensures forall s :: Ended(E.Fewer(n), s) == Ended(n, s)
  {
  }

  lemma {:induction false} EntriesMean(items: seq<Item>, n: Option<nat>, e: Elem, got: seq<DictEntry>, env: Env, s: bytes)
    requires env.Sound() && env.Knows(e) && |items| % 2 == 0 && (n.Some? ==> 2 * n.value == |items|)
    requires forall i :: 0 <= i < |items| ==> WellFormed(items[i])
    ensures E.MeanEntries(EncodedAll(items) + Ended(n, s), n, e, got, env) == DenoteEntries(items, e, got, env)
    decreases items, 0
  {
    hide *;
    EntriesUnfold(items, n, e, got, env, s);
    DenoteEntriesUnfold(items, e, got, env);
    if items != [] {
      FewerLeft(items, n);
      if IsText(items[0]) {
        ElemMeans(items[1], e, env, EncodedAll(items[2..]) + Ended(n, s));
        var v := DenoteElem(items[1], e, env);
        if v.Some? {
          EntriesMean(items[2..], E.Fewer(n), e, PutEntry(got, items[0].data, v.value), env, s);
        }
      }
    }
  }

  // --- The decoder reads documents ---

  /** No array or map of indefinite length, and no number the platform's word cannot hold, at any depth. */
  predicate Plain(x: Item, word: CborCodec.Width) {
    match x
    case Scalar(major, arg) => major == 7 || E.FitsWord(if major == 0 then arg.n else -1 - arg.n, word)
    case Str(_, _, _) => true
    case Chunked(_, _) => true
    case Counted(_, _, items) => forall i :: 0 <= i < |items| ==> Plain(items[i], word)
    case Open(_, _) => false
    case Tagged(_, item) => Plain(item, word)
  }

  lemma {:induction false} PlainBytes(x: Item, word: CborCodec.Width, s: bytes)
    requires WellFormed(x) && Plain(x, word)
    ensures E.Plain(Encoded(x) + s, word)
    decreases x, 1
  {
    Front(x, s);
    hide ReadHead, E.FitsWord, E.PlainMany;
    match x {
      case Counted(major, arg, items) => PlainAll(items, word, s);
      case Tagged(arg, item) =>
        TaggedFront(arg, item, s);
        PlainBytes(item, word, s);
      case _ =>
    }
  }

  lemma TaggedFront(arg: Arg, item: Item, s: bytes)
    requires WellFormed(Tagged(arg, item))
    ensures ReadHead(Encoded(Tagged(arg, item)) + s) == Some(HeadRead(6, arg.info, arg.n, Encoded(item) + s))
  {
    hide ReadHead, HeadOf;
    Rejoin(HeadOf(6, arg), Encoded(item), s, []);
    HeadOfReads(6, arg, Encoded(item) + s);
  }

  lemma {:induction false} PlainAll(items: seq<Item>, word: CborCodec.Width, s: bytes)
    requires forall i :: 0 <= i < |items| ==> WellFormed(items[i]) && Plain(items[i], word)
    ensures E.PlainMany(EncodedAll(items) + s, |items|, word)
    decreases items, 0
  {
    if items != [] {
      var rest := EncodedAll(items[1..]) + s;
      Rejoin(Encoded(items[0]), EncodedAll(items[1..]), s, []);
      hide Encoded, Skip, E.Plain, Plain, WellFormed;
      SkipsItem(items[0], rest);
      PlainBytes(items[0], word, rest);
      PlainAll(items[1..], word, s);
    }
  }

  /**
   * A plain document decodes exactly when it denotes a value of the struct, gives that value, and is
   * consumed to its last byte, whatever its heads, its order of pairs and its unknown keys.
   */
  lemma DecodesDocument(x: Item, name: string, env: Env, s: bytes)
    requires env.Sound() && name in env.defs && WellFormed(x) && Plain(x, env.word)
    ensures var r := ReadStruct(Encoded(x) + s, name, env);
            && (r.Got? <==> DenoteStruct(x, name, env).Some?)
            && (r.Got? ==> r == Got(DenoteStruct(x, name, env).value, s))
  {
    hide WellFormed, Plain, E.Plain, Encoded, Skip, ReadStruct, DenoteStruct, E.MeanStruct;
    PlainBytes(x, env.word, s);
    StructMeans(x, name, env, s);
    SkipsItem(x, s);
    E.DefiniteConsumed(Encoded(x) + s, name, env);
  }

  // --- The encoder writes documents ---

  /** The heads of the scalars: major types 0 and 1 for numbers, 3 for text, and of type 7 false, true and eight-byte floats. */
  lemma ScalarHeads(v: Value, e: Elem, env: Env)
    requires env.Sound() && env.Knows(e) && HasElem(v, e, env) && !e.StructElem?
    ensures v.Bool? ==> AppendElem(v, e, env) == Head(7, if v.b then 21 else 20)
    ensures v.Int? ==> -I64 <= v.n < U64 && AppendElem(v, e, env) == if v.n < 0 then Head(1, -1 - v.n) else Head(0, v.n)
    ensures v.Text? ==> |v.text| < I64 && AppendElem(v, e, env) == Head(3, |v.text|) + v.text
    ensures v.Float? ==> AppendElem(v, e, env) == [7 * 32 + 27] + v.bits && |v.bits| == 8
  {
  }

  /** A value's encoding holds nothing that cuts a field. */
  lemma {:induction false} UncutElem(v: Value, e: Elem, env: Env, s: bytes)
    requires env.Sound() && env.Knows(e) && HasElem(v, e, env) && (env.asMap ==> env.Unique())
    ensures E.MetElem(AppendElem(v, e, env) + s, e, env) == {}
    decreases v, 1
  {
    match e {
      case StructElem(name) => UncutStruct(v, name, env, s);
      case WordElem(signed) =>
        IntReadsBack(v.n, W64, signed, s);
        hide ReadInt, AppendInt;
      case _ =>
    }
  }

  lemma StructFront(v: Value, name: string, env: Env, s: bytes)
    requires env.Sound() && HasElem(v, StructElem(name), env)
    ensures var members := Members(env, name);
            && Fits(v, members, env) && E.Known(members, env)
            && E.MetStruct(AppendElem(v, StructElem(name), env) + s, name, env) ==
               if env.asMap then E.MetPairs(AppendMembers(v, members, env) + s, |members|, members, env)
               else E.MetInOrder(AppendMembers(v, members, env) + s, members, env)
  {
    var members, major := Members(env, name), if env.asMap then 5 else 4;
    MembersFit(v, name, env);
    E.KnownMembers(env, name);
    hide AppendMembers, E.MetPairs, E.MetInOrder, Members, Fits, E.Known;
    Rejoin(Head(major, |members|), AppendMembers(v, members, env), s, []);
    CountReadsBack(major, |members|, AppendMembers(v, members, env) + s);
    hide Head, ReadCount;
  }

  lemma AllOwn(name: string, env: Env)
    requires env.Unique() && env.asMap && name in env.defs
    ensures OwnKeys(Members(env, name)) && Members(env, name)[0..] == Members(env, name)
  {
    hide KeyIndex, Members;
    forall i | 0 <= i < |Members(env, name)| ensures KeyIndex(Members(env, name), Members(env, name)[i].name) == i {
      OwnKey(env, name, i);
    }
  }

  lemma StructKnown(v: Value, name: string, env: Env)
    requires HasElem(v, StructElem(name), env)
    ensures name in env.defs && v.Rec?
  {
  }

  lemma {:induction false} UncutStruct(v: Value, name: string, env: Env, s: bytes)
    requires env.Sound() && HasElem(v, StructElem(name), env) && (env.asMap ==> env.Unique())
    ensures E.MetStruct(AppendElem(v, StructElem(name), env) + s, name, env) == {}
    decreases v, 0
  {
    hide *;
    StructKnown(v, name, env);
    StructFront(v, name, env, s);
    if env.asMap {
      AllOwn(name, env);
      UncutPairs(v, 0, Members(env, name), env, s);
    } else {
      UncutInOrder(v, Members(env, name), env, s);
    }
  }

  ghost predicate OwnKeys(members: seq<Entry<Slot>>) {
    forall i :: 0 <= i < |members| ==> KeyIndex(members, members[i].name) == i
  }

  lemma MemberFirst(v: Value, members: seq<Entry<Slot>>, env: Env, s: bytes)
    requires env.Sound() && Fits(v, members, env) && members != [] && (env.asMap ==> env.Unique())
    ensures Fits(v, members[1..], env)
    ensures env.KnowsKind(members[0].item.kind) && members[0].item.at < |v.fields|
    ensures HasKind(v.fields[members[0].item.at], members[0].item.kind, env)
    ensures var rest := AppendMembers(v, members[1..], env) + s;
            var field := AppendKind(v.fields[members[0].item.at], members[0].item.kind, env) + rest;
            && ReadKind(field, members[0].item.kind, env) == Got(v.fields[members[0].item.at], rest)
            && (env.asMap ==> ReadString(AppendMembers(v, members, env) + s, 3) == Got(members[0].name, field))
            && (!env.asMap ==> AppendMembers(v, members, env) + s == field)
  {
    var value, k := v.fields[members[0].item.at], members[0].item.kind;
    var rest := AppendMembers(v, members[1..], env) + s;
    KindRoundTrip(value, k, env);
    hide AppendKind, HasKind, ReadKind, Head, ReadString;
    KindSpelled(AppendKind(value, k, env), k, value, env, rest);
    if env.asMap {
      var text := TextItem(members[0].name);
      Rejoin(text, AppendKind(value, k, env), AppendMembers(v, members[1..], env), s);
      Rejoin(AppendKind(value, k, env), AppendMembers(v, members[1..], env), s, []);
      StringReadsBack(3, members[0].name, AppendKind(value, k, env) + rest);
    } else {
      Rejoin([], AppendKind(value, k, env), AppendMembers(v, members[1..], env), s);
      Rejoin(AppendKind(value, k, env), AppendMembers(v, members[1..], env), s, []);
    }
  }

  lemma KindSpelled(body: bytes, k: Kind, v: Value, env: Env, s: bytes)
    requires env.Sound() && env.KnowsKind(k) && Spells(body, k, v, env)
    ensures ReadKind(body + s, k, env) == Got(v, s)
  {
  }

  lemma {:induction false} UncutInOrder(v: Value, members: seq<Entry<Slot>>, env: Env, s: bytes)
    requires env.Sound() && Fits(v, members, env) && E.Known(members, env) && !env.asMap
    ensures E.MetInOrder(AppendMembers(v, members, env) + s, members, env) == {}
    decreases v, 0, |members|
  {
    if members != [] {
      var value, k := v.fields[members[0].item.at], members[0].item.kind;
      MemberFirst(v, members, env, s);
      hide AppendMembers, AppendKind, ReadKind, E.MetKind, Fits, HasKind;
      UncutKind(value, k, env, AppendMembers(v, members[1..], env) + s);
      UncutInOrder(v, members[1..], env, s);
    }
  }

  lemma SuffixFits(v: Value, members: seq<Entry<Slot>>, i: nat, env: Env)
    requires env.Sound() && Fits(v, members, env) && i <= |members|
    ensures Fits(v, members[i..], env)
    ensures i < |members| ==> members[i..] != [] && members[i..][0] == members[i] && members[i..][1..] == members[i + 1..]
  {
  }

  lemma MetPairsOne(b: bytes, n: nat, members: seq<Entry<Slot>>, i: nat, v: Value, field: bytes, rest: bytes, env: Env)
    requires env.Sound() && E.Known(members, env) && n > 0 && i < |members| && KeyIndex(members, members[i].name) == i
    requires ReadString(b, 3) == Got(members[i].name, field)
    requires ReadKind(field, members[i].item.kind, env) == Got(v, rest)
    ensures E.MetPairs(b, n, members, env) ==
            E.MetKind(field, members[i].item.kind, env) + E.MetPairs(rest, n - 1, members, env)
  {
    hide *;
    E.MetPairsUnfold(b, n, members, env);
  }

  lemma PairAt(v: Value, i: nat, members: seq<Entry<Slot>>, env: Env, s: bytes)
    requires env.Sound() && Fits(v, members, env) && E.Known(members, env) && env.asMap && env.Unique() && OwnKeys(members)
    requires i < |members|
    ensures Fits(v, members[i..], env) && Fits(v, members[i + 1..], env) && v.Rec?
    ensures env.KnowsKind(members[i].item.kind) && members[i].item.at < |v.fields|
    ensures HasKind(v.fields[members[i].item.at], members[i].item.kind, env)
    ensures var rest := AppendMembers(v, members[i + 1..], env) + s;
            E.MetPairs(AppendMembers(v, members[i..], env) + s, |members| - i, members, env) ==
            E.MetKind(AppendKind(v.fields[members[i].item.at], members[i].item.kind, env) + rest, members[i].item.kind, env)
            + E.MetPairs(rest, |members| - i - 1, members, env)
  {
    SuffixFits(v, members, i, env);
    MemberFirst(v, members[i..], env, s);
    hide AppendMembers, AppendKind, ReadKind, ReadString, E.MetKind, E.MetPairs, Fits, HasKind, KeyIndex, E.Known;
    var rest := AppendMembers(v, members[i + 1..], env) + s;
    MetPairsOne(AppendMembers(v, members[i..], env) + s, |members| - i, members, i, v.fields[members[i].item.at],
                AppendKind(v.fields[members[i].item.at], members[i].item.kind, env) + rest, rest, env);
  }

  lemma NoneUncut(v: Value, members: seq<Entry<Slot>>, env: Env, s: bytes)
    requires env.Sound() && E.Known(members, env) && Fits(v, members[|members|..], env)
    ensures E.MetPairs(AppendMembers(v, members[|members|..], env) + s, 0, members, env) == {}
  {
  }

  lemma {:induction false} UncutPairs(v: Value, i: nat, members: seq<Entry<Slot>>, env: Env, s: bytes)
    requires env.Sound() && Fits(v, members, env) && E.Known(members, env) && env.asMap && env.Unique() && OwnKeys(members)
    requires i <= |members| && Fits(v, members[i..], env)
    ensures E.MetPairs(AppendMembers(v, members[i..], env) + s, |members| - i, members, env) == {}
    decreases v, 0, |members| - i
  {
    hide *;
    if i == |members| {
      NoneUncut(v, members, env, s);
    } else {
      PairAt(v, i, members, env, s);
      UncutKind(v.fields[members[i].item.at], members[i].item.kind, env, AppendMembers(v, members[i + 1..], env) + s);
      UncutPairs(v, i + 1, members, env, s);
    }
  }

  lemma {:induction false} UncutKind(v: Value, k: Kind, env: Env, s: bytes)
    requires env.Sound() && env.KnowsKind(k) && HasKind(v, k, env) && (env.asMap ==> env.Unique())
    ensures E.MetKind(AppendKind(v, k, env) + s, k, env) == {}
    decreases v, 2
  {
    match k {
      case Single(e) =>
        UncutElem(v, e, env, s);
      case Slice(e) =>
        UncutList(v, e, env, s);
      case FixedArray(e, n) =>
        UncutList(v, e, env, s);
      case StringMap(e) =>
        Rejoin(Head(5, |v.entries|), AppendEntries(v, e, 0, env), s, []);
        CountReadsBack(5, |v.entries|, AppendEntries(v, e, 0, env) + s);
        UncutEntries(v, e, 0, env, s);
        hide Head, ReadCount, AppendEntries, E.MetEntries;
      case _ =>
    }
  }

  lemma {:induction false} UncutList(v: Value, e: Elem, env: Env, s: bytes)
    requires env.Sound() && env.Knows(e) && (env.asMap ==> env.Unique())
    requires v.List? && |v.items| < I64 && forall i :: 0 <= i < |v.items| ==> HasElem(v.items[i], e, env)
    ensures E.MetCounted(Head(4, |v.items|) + AppendItems(v, e, 0, env) + s, 4, e, env, false) == {}
    decreases v, 1
  {
    Rejoin(Head(4, |v.items|), AppendItems(v, e, 0, env), s, []);
    CountReadsBack(4, |v.items|, AppendItems(v, e, 0, env) + s);
    UncutItems(v, e, 0, env, s);
    hide Head, ReadCount, AppendItems, E.MetItems;
  }

  lemma ItemFirst(v: Value, e: Elem, i: nat, env: Env, s: bytes)
    requires env.Sound() && env.Knows(e) && (env.asMap ==> env.Unique()) && v.List? && i < |v.items|
    requires forall j :: 0 <= j < |v.items| ==> HasElem(v.items[j], e, env)
    ensures var rest := AppendItems(v, e, i + 1, env) + s;
            && AppendItems(v, e, i, env) + s == AppendElem(v.items[i], e, env) + rest
            && ReadElem(AppendElem(v.items[i], e, env) + rest, e, env) == Got(v.items[i], rest)
  {
    hide AppendElem, ReadElem, HasElem;
    var rest := AppendItems(v, e, i + 1, env) + s;
    Rejoin(AppendElem(v.items[i], e, env), AppendItems(v, e, i + 1, env), s, []);
    ElemRoundTrip(v.items[i], e, env);
    SpellsMeans(AppendElem(v.items[i], e, env), e, v.items[i], env, rest);
  }

  lemma MetItemsOne(b: bytes, n: nat, e: Elem, env: Env, v: Value, rest: bytes)
    requires env.Sound() && env.Knows(e) && n > 0 && ReadElem(b, e, env) == Got(v, rest)
    ensures E.MetItems(b, n, e, env) == E.MetElem(b, e, env) + E.MetItems(rest, n - 1, e, env)
  {
    hide ReadElem, E.MetElem;
  }

  lemma NoneLeft(b: bytes, e: Elem, env: Env)
    requires env.Sound() && env.Knows(e)
    ensures E.MetItems(b, 0, e, env) == {} && E.MetEntries(b, 0, e, env) == {}
  {
  }

  lemma {:induction false} UncutItems(v: Value, e: Elem, i: nat, env: Env, s: bytes)
    requires env.Sound() && env.Knows(e) && (env.asMap ==> env.Unique())
    requires v.List? && i <= |v.items| && forall j :: 0 <= j < |v.items| ==> HasElem(v.items[j], e, env)
    ensures E.MetItems(AppendItems(v, e, i, env) + s, |v.items| - i, e, env) == {}
    decreases v, 0, |v.items| - i
  {
    hide *;
    if i == |v.items| {
      NoneLeft(AppendItems(v, e, i, env) + s, e, env);
    } else {
      var rest := AppendItems(v, e, i + 1, env) + s;
      ItemFirst(v, e, i, env, s);
      UncutElem(v.items[i], e, env, rest);
      UncutItems(v, e, i + 1, env, s);
      MetItemsOne(AppendElem(v.items[i], e, env) + rest, |v.items| - i, e, env, v.items[i], rest);
    }
  }

  lemma EntryFirst(v: Value, e: Elem, i: nat, env: Env, s: bytes)
    requires env.Sound() && env.Knows(e) && (env.asMap ==> env.Unique()) && v.Dict? && i < |v.entries|
    requires forall j :: 0 <= j < |v.entries| ==> |v.entries[j].key| < I64 && HasElem(v.entries[j].value, e, env)
    ensures var rest := AppendEntries(v, e, i + 1, env) + s;
            var field := AppendElem(v.entries[i].value, e, env) + rest;
            && ReadString(AppendEntries(v, e, i, env) + s, 3) == Got(v.entries[i].key, field)
            && ReadElem(field, e, env) == Got(v.entries[i].value, rest)
  {
    var key, value, more := v.entries[i].key, v.entries[i].value, AppendEntries(v, e, i + 1, env);
    Rejoin(TextItem(key), AppendElem(value, e, env), more, s);
    Rejoin(AppendElem(value, e, env), more, s, []);
    StringReadsBack(3, key, AppendElem(value, e, env) + (more + s));
    hide AppendElem, ReadElem, ReadString, HasElem, Head;
    ElemRoundTrip(value, e, env);
    SpellsMeans(AppendElem(value, e, env), e, value, env, more + s);
  }

  lemma MetEntriesOne(b: bytes, n: nat, e: Elem, env: Env, key: bytes, field: bytes, v: Value, rest: bytes)
    requires env.Sound() && env.Knows(e) && n > 0
    requires ReadString(b, 3) == Got(key, field) && ReadElem(field, e, env) == Got(v, rest)
    ensures E.MetEntries(b, n, e, env) == E.MetElem(field, e, env) + E.MetEntries(rest, n - 1, e, env)
  {
    hide ReadString, ReadElem, E.MetElem;
  }

  lemma {:induction false} UncutEntries(v: Value, e: Elem, i: nat, env: Env, s: bytes)
    requires env.Sound() && env.Knows(e) && (env.asMap ==> env.Unique()) && v.Dict? && i <= |v.entries|
    requires forall j :: 0 <= j < |v.entries| ==> |v.entries[j].key| < I64 && HasElem(v.entries[j].value, e, env)
    ensures E.MetEntries(AppendEntries(v, e, i, env) + s, |v.entries| - i, e, env) == {}
    decreases v, 0, |v.entries| - i
  {
    hide *;
    if i == |v.entries| {
      NoneLeft(AppendEntries(v, e, i, env) + s, e, env);
    } else {
      var value, rest := v.entries[i].value, AppendEntries(v, e, i + 1, env) + s;
      EntryFirst(v, e, i, env, s);
      UncutElem(value, e, env, rest);
      UncutEntries(v, e, i + 1, env, s);
      MetEntriesOne(AppendEntries(v, e, i, env) + s, |v.entries| - i, e, env, v.entries[i].key,
                    AppendElem(value, e, env) + rest, value, rest);
    }
  }

  /** A value of a struct is written as one well-formed document, and the document denotes the value. */
  lemma EncodesDocument(v: Value, name: string, env: Env) returns (x: Item)
    requires env.Sound() && HasElem(v, StructElem(name), env) && (env.asMap ==> env.Unique())
    ensures WellFormed(x) && Encoded(x) == AppendElem(v, StructElem(name), env)
    ensures DenoteStruct(x, name, env) == Some(v)
  {
    var b := AppendElem(v, StructElem(name), env);
    assert b + [] == b;
    RoundTrip(v, name, env, []);
    UncutStruct(v, name, env, []);
    hide AppendElem, ReadStruct, E.MetStruct, E.MeanStruct, DenoteStruct, Skip, Encoded, WellFormed;
    E.EndsExactly(b, name, env);
    x := SkippedItem(b);
    assert Encoded(x) + [] == Encoded(x);
    StructMeans(x, name, env, []);
  }

  // --- What a document does not name, and what it names twice ---

  predicate Zeroes(b: bytes) {
    forall i :: 0 <= i < |b| ==> b[i] == 0
  }

  /** Go's zero value of a type: nothing in it, at any depth. */
  predicate BlankElem(v: Value, e: Elem, env: Env)
    decreases v, 0
  {
    match e
    case StringElem => v.Text? && |v.text| == 0
    case IntElem(_, _) => v.Int? && -1 < v.n < 1
    case WordElem(_) => v.Int? && -1 < v.n < 1
    case BoolElem => v.Bool? && !v.b
    case FloatElem => v.Float? && |v.bits| == 8 && Zeroes(v.bits)
    case StructElem(name) =>
      && v.Rec? && name in env.defs && |v.fields| == |env.defs[name]|
      && forall i :: 0 <= i < |v.fields| ==> BlankKind(v.fields[i], env.defs[name][i].kind, env)
  }

  predicate BlankKind(v: Value, k: Kind, env: Env)
    decreases v, 1
  {
    match k
    case Single(e) => BlankElem(v, e, env)
    case Slice(_) => v.List? && |v.items| == 0
    case FixedArray(e, n) => v.List? && |v.items| == n && forall i :: 0 <= i < |v.items| ==> BlankElem(v.items[i], e, env)
    case ByteSlice => v.Blob? && |v.data| == 0
    case FixedBytes(n) => v.Blob? && |v.data| == n && Zeroes(v.data)
    case StringMap(_) => v.Dict? && |v.entries| == 0
  }

  lemma {:induction false} ZeroElemBlank(e: Elem, env: Env)
    requires env.Sound() && env.Knows(e)
    ensures BlankElem(ZeroElem(e, env), e, env)
    decreases if e.StructElem? then env.rank[e.name] + 1 else 0, 0
  {
    if e.StructElem? {
      ZeroFieldsBlank(e.name, env);
    }
  }

  lemma {:induction false} ZeroFieldsBlank(name: string, env: Env)
    requires env.Sound() && name in env.defs
    ensures forall i :: 0 <= i < |env.defs[name]| ==> BlankKind(ZeroFields(name, env)[i], env.defs[name][i].kind, env)
    decreases env.rank[name], 2
  {
    forall i | 0 <= i < |env.defs[name]| ensures BlankKind(ZeroFields(name, env)[i], env.defs[name][i].kind, env) {
      var k := env.defs[name][i].kind;
      assert ZeroFields(name, env)[i] == ZeroKind(k, env.rank[name], env);
      if (k.Single? || k.FixedArray?) {
        ZeroElemBlank(k.elem, env);
      }
    }
  }

  /** A fixed array holds the elements there are, in their order, and zero values behind them; fixed bytes, zeroes. */
  lemma PaddedExactly(items: seq<Value>, data: bytes, len: nat, e: Elem, env: Env)
    requires env.Sound() && env.Knows(e) && |items| <= len && |data| <= len
    ensures var padded := Padded(items, len, e, env);
            && padded.List? && |padded.items| == len
            && (forall i :: 0 <= i < |items| ==> padded.items[i] == items[i])
            && (forall i :: |items| <= i < len ==> BlankElem(padded.items[i], e, env))
    ensures |Fill(data, len, 0)| == len && data <= Fill(data, len, 0) && Zeroes(Fill(data, len, 0)[|data|..])
  {
    ZeroElemBlank(e, env);
    hide ZeroElem, BlankElem;
  }

  /** A cut leaves the fields as they were but for the one it was in, and that one too when nothing of it was kept. */
  lemma KeepExactly(out: seq<Value>, at: nat, kept: Option<Value>, j: nat)
    requires at < |out| && j < |out|
    ensures Keep(out, at, kept)[j] == (match kept case Some(v) => if j == at then v else out[j] case None => out[j])
  {
  }

  /** A field no pair names keeps Go's zero value, whatever the others hold. */
  lemma {:induction false} UnnamedStays(items: seq<Item>, members: seq<Entry<Slot>>, out: seq<Value>, at: nat, env: Env)
    requires env.Sound() && Assignable(members, out, env) && |items| % 2 == 0 && at < |out|
    requires forall i :: 0 <= i < |items| && i % 2 == 0 && IsText(items[i]) ==>
               var m := KeyIndex(members, items[i].data); m < 0 || members[m].item.at != at
    requires DenotePairs(items, members, out, env).Some?
    ensures var v := DenotePairs(items, members, out, env).value; v.Rec? && |v.fields| == |out| && v.fields[at] == out[at]
    decreases |items|
  {
    if items != [] {
      hide DenoteKind, KeyIndex;
      assert forall i :: 0 <= i < |items[2..]| && i % 2 == 0 ==> items[2..][i] == items[i + 2] && (i + 2) % 2 == 0;
      var m := KeyIndex(members, items[0].data);
      if m < 0 {
        UnnamedStays(items[2..], members, out, at, env);
      } else {
        var v := DenoteKind(items[1], members[m].item.kind, env).value;
        UnnamedStays(items[2..], members, out[members[m].item.at := v], at, env);
      }
    }
  }

  /** An entry assigned to a map replaces the one under its key and no other, and the keys stay in order. */
  lemma {:induction false} PutReplaces(entries: seq<DictEntry>, key: bytes, value: Value)
    requires KeysAscend(entries)
    ensures KeysAscend(PutEntry(entries, key, value))
    ensures forall x :: x in PutEntry(entries, key, value) <==> if x.key == key then x.value == value else x in entries
    decreases |entries|
  {
    if entries != [] {
      var last := |entries| - 1;
      var before := entries[..last];
      assert entries == before + [entries[last]];
      PutReplaces(before, key, value);
      LessTotal(entries[last].key, key);
      var put := PutEntry(entries, key, value);
      hide Less;
      forall i, j | 0 <= i < j < |put| ensures Less(put[i].key, put[j].key) {
        if Less(entries[last].key, key) {
          if j == |entries| && i < last {
            LessTransitive(entries[i].key, entries[last].key, key);
          }
        } else if j == |put| - 1 && entries[last].key != key {
          assert put[i] in PutEntry(before, key, value);
        }
      }
      forall x | x in before ensures x.key != entries[last].key && Less(x.key, entries[last].key) {
        LessTotal(x.key, entries[last].key);
        LessIrreflexive(entries[last].key);
      }
    }
  }

  lemma LessIrreflexive(a: bytes)
    ensures !Less(a, a)
  {
    LessTotal(a, a);
  }
}
