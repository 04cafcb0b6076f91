/**
 * Where a generated CBOR decoder stops short without an error. A field that meets an array or a
 * map of indefinite length, or a number the platform's int cannot hold, makes the emitted code
 * return the error it holds, which is none. This says exactly when: a struct read is what the
 * document means, and ends where its item ends, if and only if no field on the way met either.
 */
module CborEnds {
  import opened ByteStrings
  import opened CborWire
  import opened CborOrder
  import opened CborCodec

  datatype Cause = IndefiniteLength | OutOfWidth

  ghost predicate Known(members: seq<Entry<Slot>>, env: Env) {
    forall i :: 0 <= i < |members| ==> env.KnowsKind(members[i].item.kind)
  }

  lemma KnownMembers(env: Env, name: string)
    requires env.Sound() && name in env.defs
    ensures Known(Members(env, name), env)
  {
    MembersAssign(env, name);
  }

  // --- What the fields meet on the way ---

  /** A number 64 bits hold and the platform's int or uint does not. */
  predicate TooWide(b: bytes, signed: bool, word: Width) {
    var r := ReadInt(b, W64, signed);
    r.Got? && !(Lowest(word, signed) <= r.value.n <= Highest(word, signed))
  }

  ghost function MetElem(b: bytes, e: Elem, env: Env): set<Cause>
    requires env.Sound() && env.Knows(e)
    decreases |b|, 2, 0
  {
    match e
    case WordElem(signed) => if TooWide(b, signed, env.word) then {OutOfWidth} else {}
    case StructElem(name) => MetStruct(b, name, env)
    case _ => {}
  }

  ghost function MetStruct(b: bytes, name: string, env: Env): set<Cause>
    requires env.Sound() && name in env.defs
    decreases |b|, 1, 0
  {
    KnownMembers(env, name);
    var members := Members(env, name);
    match ReadCount(b, if env.asMap then 5 else 4)
    case Got(Some(n), rest) =>
      if env.asMap then MetPairs(rest, n, members, env)
      else if n == |members| then MetInOrder(rest, members, env) else {}
    case _ => {}
  }

  ghost function MetInOrder(b: bytes, members: seq<Entry<Slot>>, env: Env): set<Cause>
    requires env.Sound() && Known(members, env)
    decreases |b|, 4, |members|
  {
    if members == [] then {}
    else
      MetKind(b, members[0].item.kind, env) +
      match ReadKind(b, members[0].item.kind, env)
      case Got(_, rest) => MetInOrder(rest, members[1..], env)
      case _ => {}
  }

  ghost function MetPairs(b: bytes, n: nat, members: seq<Entry<Slot>>, env: Env): set<Cause>
    requires env.Sound() && Known(members, env)
    decreases |b|, 4, n
  {
    if n == 0 || ReadString(b, 3).Bad? then {}
    else
      var key, rest := ReadString(b, 3).value, ReadString(b, 3).rest;
      var i := KeyIndex(members, key);
      if i < 0 then
        match Skip(rest)
        case None => {}
        case Some(after) => MetPairs(after, n - 1, members, env)
      else
        MetKind(rest, members[i].item.kind, env) +
        match ReadKind(rest, members[i].item.kind, env)
        case Got(_, after) => MetPairs(after, n - 1, members, env)
        case _ => {}
  }

  ghost function MetKind(b: bytes, k: Kind, env: Env): set<Cause>
    requires env.Sound() && env.KnowsKind(k)
    decreases |b|, 3, 0
  {
    match k
    case Single(e) => MetElem(b, e, env)
    case Slice(e) => MetCounted(b, 4, e, env, false)
    case FixedArray(e, len) => if TooLong(b, len) then {} else MetCounted(b, 4, e, env, false)
    case StringMap(e) => MetCounted(b, 5, e, env, true)
    case ByteSlice => {}
    case FixedBytes(_) => {}
  }

  predicate TooLong(b: bytes, len: nat) {
    var r := ReadCount(b, 4);
    r.Got? && r.value.Some? && r.value.value > len
  }

  ghost function MetCounted(b: bytes, major: nat, e: Elem, env: Env, keyed: bool): set<Cause>
    requires env.Sound() && env.Knows(e)
    decreases |b|, 2, 1
  {
    match ReadCount(b, major)
    case Bad(_) => {}
    case Got(None, _) => {IndefiniteLength}
    case Got(Some(n), rest) => if keyed then MetEntries(rest, n, e, env) else MetItems(rest, n, e, env)
  }

  ghost function MetItems(b: bytes, n: nat, e: Elem, env: Env): set<Cause>
    requires env.Sound() && env.Knows(e)
    decreases |b|, 3, n
  {
    if n == 0 then {}
    else
      MetElem(b, e, env) +
      match ReadElem(b, e, env)
      case Got(_, rest) => MetItems(rest, n - 1, e, env)
      case _ => {}
  }

  ghost function MetEntries(b: bytes, n: nat, e: Elem, env: Env): set<Cause>
    requires env.Sound() && env.Knows(e)
    decreases |b|, 3, n
  {
    if n == 0 || ReadString(b, 3).Bad? then {}
    else
      var rest := ReadString(b, 3).rest;
      MetElem(rest, e, env) +
      match ReadElem(rest, e, env)
      case Got(_, after) => MetEntries(after, n - 1, e, env)
      case _ => {}
  }

  // --- What a document means under the plan, its items laid out as they stand ---

  /** The number, text, struct and so on that the item at the front denotes, if it has one of the type. */
  ghost function MeanElem(b: bytes, e: Elem, env: Env): Option<Value>
    requires env.Sound() && env.Knows(e)
    decreases |b|, 2, 0
  {
    if e.StructElem? then MeanStruct(b, e.name, env) else MeanScalar(b, e, env.word)
  }

  function Bits(w: Width): nat {
    match w case W8 => 8 case W16 => 16 case W32 => 32 case W64 => 64
  }

  function PowerOfTwo(k: nat): nat {
    if k == 0 then 1 else 2 * PowerOfTwo(k - 1)
  }

  /** Two's complement of so many bits, or unsigned, holds the number. */
  predicate InBits(n: int, bits: nat, signed: bool)
    requires bits > 0
  {
    if signed then -(PowerOfTwo(bits - 1) as int) <= n < PowerOfTwo(bits - 1) else 0 <= n < PowerOfTwo(bits)
  }

  /** The number an item of major type 0 or 1 is. */
  function Number(h: HeadRead): Option<int> {
    if h.info == INDEFINITE || h.major > 1 then None else Some(if h.major == 0 then h.arg else -1 - h.arg)
  }

  /** A number a field of so many bits takes. */
  function MeanNumber(h: HeadRead, w: Width, signed: bool): Option<Value> {
    if Number(h).Some? && InBits(Number(h).value, Bits(w), signed) then Some(Int(Number(h).value)) else None
  }

  /** What the item at the front is, read as a string, a number, a boolean or a float of eight bytes. */
  function MeanScalar(b: bytes, e: Elem, word: Width): Option<Value> {
    match ReadHead(b)
    case None => None
    case Some(h) =>
      match e
      case StringElem => if h.major == 3 && h.info != INDEFINITE && h.arg <= |h.rest| then Some(Text(h.rest[..h.arg])) else None
      case IntElem(w, signed) => MeanNumber(h, w, signed)
      case WordElem(signed) => MeanNumber(h, word, signed)
      case BoolElem => if h.major == 7 && h.info in {20, 21} then Some(Bool(h.info == 21)) else None
      case FloatElem => if h.major == 7 && h.info == 27 then Some(Float(BigEndian(h.arg, 8))) else None
      case StructElem(_) => None
  }

  lemma PowersOfTwo()
    ensures PowerOfTwo(7) == 0x80 && PowerOfTwo(8) == 0x100 && PowerOfTwo(15) == 0x8000 && PowerOfTwo(16) == 0x1_0000
    ensures PowerOfTwo(31) == 0x8000_0000 && PowerOfTwo(32) == 0x1_0000_0000
    ensures PowerOfTwo(63) == 0x8000_0000_0000_0000 && PowerOfTwo(64) == 0x1_0000_0000_0000_0000
  {
    assert PowerOfTwo(4) == 16 && PowerOfTwo(8) == 0x100 && PowerOfTwo(12) == 0x1000 && PowerOfTwo(16) == 0x1_0000;
    assert PowerOfTwo(20) == 0x10_0000 && PowerOfTwo(24) == 0x100_0000 && PowerOfTwo(28) == 0x1000_0000;
    assert PowerOfTwo(32) == 0x1_0000_0000 && PowerOfTwo(36) == 0x10_0000_0000 && PowerOfTwo(40) == 0x100_0000_0000;
    assert PowerOfTwo(44) == 0x1000_0000_0000 && PowerOfTwo(48) == 0x1_0000_0000_0000;
    assert PowerOfTwo(52) == 0x10_0000_0000_0000 && PowerOfTwo(56) == 0x100_0000_0000_0000;
    assert PowerOfTwo(60) == 0x1000_0000_0000_0000;
  }

  /** The bounds of a width are those of its bits. */
  lemma WidthBits(w: Width, signed: bool, n: int)
    ensures Lowest(w, signed) <= n <= Highest(w, signed) <==> InBits(n, Bits(w), signed)
  {
    PowersOfTwo();
    hide PowerOfTwo;
  }

  /** An integer is read exactly when the head is of a number the width holds. */
  lemma ReadIntExactly(b: bytes, w: Width, signed: bool)
    ensures ReadInt(b, w, signed).Got? <==> ReadHead(b).Some? && MeanNumber(ReadHead(b).value, w, signed).Some?
    ensures ReadInt(b, w, signed).Got? ==>
              ReadInt(b, w, signed) == Got(MeanNumber(ReadHead(b).value, w, signed).value, ReadHead(b).value.rest)
  {
    hide ReadHead, InBits, Lowest, Highest;
    if ReadHead(b).Some? {
      var h := ReadHead(b).value;
      WidthBits(w, signed, if h.major == 0 then h.arg else -1 - h.arg);
      if h.major == 1 && !signed {
        Unsigned(h, w);
      }
    }
  }

  lemma Unsigned(h: HeadRead, w: Width)
    requires h.major == 1
    ensures MeanNumber(h, w, false).None?
  {
  }

  /** A boolean is a head of major type 7 in one byte: 20 is false, 21 is true. */
  lemma ReadBoolExactly(b: bytes)
    ensures ReadBool(b).Got? <==> ReadHead(b).Some? && ReadHead(b).value.major == 7 && ReadHead(b).value.info in {20, 21}
    ensures ReadBool(b).Got? ==> ReadBool(b) == Got(Bool(ReadHead(b).value.info == 21), ReadHead(b).value.rest)
  {
  }

  /** A float of eight bytes is a head of major type 7 and information 27, its argument the bits. */
  lemma ReadFloatExactly(b: bytes)
    ensures ReadFloat(b).Got? <==> ReadHead(b).Some? && ReadHead(b).value.major == 7 && ReadHead(b).value.info == 27
    ensures ReadFloat(b).Got? ==> ReadFloat(b) == Got(Float(BigEndian(ReadHead(b).value.arg, 8)), ReadHead(b).value.rest)
  {
    if |b| >= 9 {
      BigEndianOf(b[1..9]);
    }
    Widths();
    hide BigEndian, FromBigEndian, Power;
  }

  /** A scalar is read exactly when the item has one to give, and then is that. */
  lemma ReadScalarExactly(b: bytes, e: Elem, env: Env)
    requires env.Sound() && env.Knows(e) && !e.StructElem?
    ensures ReadElem(b, e, env).Got? <==> MeanScalar(b, e, env.word).Some?
    ensures ReadElem(b, e, env).Got? ==>
              MeanScalar(b, e, env.word) == Some(ReadElem(b, e, env).value) && Skip(b) == Some(ReadElem(b, e, env).rest)
  {
    hide ReadHead, InBits, Lowest, Highest, Skip;
    if ReadElem(b, e, env).Got? {
      ScalarSkips(b, e, env);
    }
    match e {
      case StringElem =>
      case IntElem(w, signed) => ReadIntExactly(b, w, signed);
      case WordElem(signed) => ReadWordExactly(b, signed, env.word);
      case BoolElem => ReadBoolExactly(b);
      case FloatElem => ReadFloatExactly(b);
    }
  }

  lemma ReadWordExactly(b: bytes, signed: bool, word: Width)
    ensures ReadWord(b, signed, word).Got? <==> ReadHead(b).Some? && MeanNumber(ReadHead(b).value, word, signed).Some?
    ensures ReadWord(b, signed, word).Got? ==>
              ReadWord(b, signed, word).value == MeanNumber(ReadHead(b).value, word, signed).value
  {
    ReadIntExactly(b, W64, signed);
    hide ReadInt, ReadHead, InBits;
    if ReadHead(b).Some? && Number(ReadHead(b).value).Some? {
      var n := Number(ReadHead(b).value).value;
      WidthBits(W64, signed, n);
      WidthBits(word, signed, n);
    }
  }

  ghost function MeanStruct(b: bytes, name: string, env: Env): Option<Value>
    requires env.Sound() && name in env.defs
    decreases |b|, 1, 0
  {
    MembersAssign(env, name);
    var members := Members(env, name);
    match ReadCount(b, if env.asMap then 5 else 4)
    case Got(Some(n), rest) =>
      if env.asMap then MeanPairs(rest, n, members, ZeroFields(name, env), env)
      else if n == |members| then MeanInOrder(rest, members, ZeroFields(name, env), env) else None
    case _ => None
  }

  ghost function MeanInOrder(b: bytes, members: seq<Entry<Slot>>, out: seq<Value>, env: Env): Option<Value>
    requires env.Sound() && Assignable(members, out, env)
    decreases |b|, 4, |members|
  {
    if members == [] then Some(Rec(out))
    else
      match (MeanKind(b, members[0].item.kind, env), Skip(b))
      case (Some(v), Some(rest)) => MeanInOrder(rest, members[1..], out[members[0].item.at := v], env)
      case _ => None
  }

  ghost function MeanPairs(b: bytes, n: nat, members: seq<Entry<Slot>>, out: seq<Value>, env: Env): Option<Value>
    requires env.Sound() && Assignable(members, out, env)
    decreases |b|, 4, n
  {
    if n == 0 then Some(Rec(out))
    else if ReadString(b, 3).Bad? || Skip(ReadString(b, 3).rest).None? then None
    else
      var key, rest := ReadString(b, 3).value, ReadString(b, 3).rest;
      var i, after := KeyIndex(members, key), Skip(rest).value;
      if i < 0 then MeanPairs(after, n - 1, members, out, env)
      else
        match MeanKind(rest, members[i].item.kind, env)
        case None => None
        case Some(v) => MeanPairs(after, n - 1, members, out[members[i].item.at := v], env)
  }

  /** An array or a map means its elements, whether its head counts them or a break ends them. */
  ghost function MeanKind(b: bytes, k: Kind, env: Env): Option<Value>
    requires env.Sound() && env.KnowsKind(k)
    decreases |b|, 3, 0
  {
    match k
    case Single(e) => MeanElem(b, e, env)
    case Slice(e) =>
      (match MeanList(b, e, env)
       case None => None
       case Some(items) => Some(List(items)))
    case FixedArray(e, len) =>
      (match MeanList(b, e, env)
       case None => None
       case Some(items) => if |items| > len then None else Some(Padded(items, len, e, env)))
    case StringMap(e) =>
      (match ReadCount(b, 5)
       case Bad(_) => None
       case Got(n, rest) =>
         match MeanEntries(rest, n, e, [], env)
         case None => None
         case Some(entries) => Some(Dict(entries)))
    case _ =>
      match ReadKind(b, k, env)
      case Got(v, _) => Some(v)
      case _ => None
  }

  ghost function MeanList(b: bytes, e: Elem, env: Env): Option<seq<Value>>
    requires env.Sound() && env.Knows(e)
    decreases |b|, 2, 1
  {
    match ReadCount(b, 4)
    case Bad(_) => None
    case Got(n, rest) => MeanItems(rest, n, e, env)
  }

  /** No element is left: none of the count, or the break is next. */
  predicate Done(b: bytes, n: Option<nat>) {
    n == Some(0) || (n.None? && b != [] && b[0] == 0xFF)
  }

  function Fewer(n: Option<nat>): Option<nat>
    requires n != Some(0)
  {
    match n case None => None case Some(k) => Some(k - 1)
  }

  function After<T>(v: T, more: Option<seq<T>>): Option<seq<T>> {
    match more case None => None case Some(items) => Some([v] + items)
  }

  ghost function MeanItems(b: bytes, n: Option<nat>, e: Elem, env: Env): Option<seq<Value>>
    requires env.Sound() && env.Knows(e)
    decreases |b|, 3, 0
  {
    if Done(b, n) then Some([])
    else
      match (MeanElem(b, e, env), Skip(b))
      case (Some(v), Some(rest)) => After(v, MeanItems(rest, Fewer(n), e, env))
      case _ => None
  }

  ghost function MeanEntries(b: bytes, n: Option<nat>, e: Elem, got: seq<DictEntry>, env: Env): Option<seq<DictEntry>>
    requires env.Sound() && env.Knows(e)
    decreases |b|, 3, 0
  {
    if Done(b, n) then Some(got)
    else if ReadString(b, 3).Bad? then None
    else
      var key, rest := ReadString(b, 3).value, ReadString(b, 3).rest;
      match (MeanElem(rest, e, env), Skip(rest))
      case (Some(v), Some(after)) => MeanEntries(after, Fewer(n), e, PutEntry(got, key, v), env)
      case _ => None
  }

  // --- The primitives end where their items end ---

  lemma StringSkips(b: bytes, major: nat)
    requires major in {2, 3} && ReadString(b, major).Got?
    ensures Skip(b) == Some(ReadString(b, major).rest)
  {
  }

  lemma WordSkips(b: bytes, signed: bool, word: Width)
    requires !ReadWord(b, signed, word).Bad?
    ensures Skip(b) == Some(ReadWord(b, signed, word).rest)
  {
  }

  lemma ScalarSkips(b: bytes, e: Elem, env: Env)
    requires env.Sound() && !e.StructElem? && !ReadElem(b, e, env).Bad?
    ensures Skip(b) == Some(ReadElem(b, e, env).rest)
  {
    match e
    case StringElem => StringSkips(b, 3);
    case WordElem(signed) => WordSkips(b, signed, env.word);
    case FloatElem => assert b[1 + CborWire.Width(27)..] == b[9..];
    case _ =>
  }

  lemma CountSkips(b: bytes, major: nat)
    requires major in {4, 5} && ReadCount(b, major).Got? && ReadCount(b, major).value.Some?
    ensures var n, rest := ReadCount(b, major).value.value, ReadCount(b, major).rest;
            Skip(b) == SkipMany(rest, if major == 4 then n else 2 * n)
  {
  }

  lemma ManyStep(b: bytes, n: nat)
    requires n > 0
    ensures SkipMany(b, n) == match Skip(b) case None => None case Some(rest) => SkipMany(rest, n - 1)
  {
    hide Skip;
  }

  lemma TwoSkips(b: bytes, n: nat)
    requires n > 0
    ensures SkipMany(b, 2 * n) ==
            match Skip(b)
            case None => None
            case Some(rest) =>
              match Skip(rest)
              case None => None
              case Some(after) => SkipMany(after, 2 * (n - 1))
  {
    hide *;
    ManyStep(b, 2 * n);
    if Skip(b).Some? {
      ManyStep(Skip(b).value, 2 * n - 1);
    }
  }

  // --- Every read steps over whole items, but for the containers it cuts ---

  /** Heads of indefinite length less breaks, from here to the end of the input. */
  function Open(b: bytes): int
    decreases |b|
  {
    match ReadHead(b)
    case None => 0
    case Some(h) =>
      if h.info == INDEFINITE then (if h.major == 7 then -1 else if 2 <= h.major <= 5 then 1 else 0) + Open(h.rest)
      else if h.major in {2, 3} then (if h.arg > |h.rest| then 0 else Open(h.rest[h.arg..]))
      else Open(h.rest)
  }

  lemma {:induction false} ChunksBalance(b: bytes, major: nat)
    requires SkipChunks(b, major).Some? && major in {2, 3}
    ensures Open(b) == Open(SkipChunks(b, major).value) - 1
    decreases |b|
  {
    if b[0] != 0xFF {
      var h := ReadHead(b).value;
      ChunksBalance(h.rest[h.arg..], major);
    }
  }

  /** One item holds as many breaks as heads they end. */
  lemma {:induction false} SkipBalances(b: bytes)
    requires Skip(b).Some?
    ensures Open(b) == Open(Skip(b).value)
    decreases |b|, 0
  {
    var h := ReadHead(b).value;
    if h.major in {2, 3} {
      if h.info == INDEFINITE {
        ChunksBalance(h.rest, h.major);
      }
    } else if h.major in {4, 5} {
      if h.info == INDEFINITE {
        BreakBalances(h.rest, h.major == 5);
      } else {
        ManyBalances(h.rest, if h.major == 4 then h.arg else 2 * h.arg);
      }
    } else if h.major == 6 {
      SkipBalances(h.rest);
    }
  }

  lemma {:induction false} ManyBalances(b: bytes, n: nat)
    requires SkipMany(b, n).Some?
    ensures Open(b) == Open(SkipMany(b, n).value)
    decreases |b|, n
  {
    if n > 0 {
      SkipBalances(b);
      ManyBalances(Skip(b).value, n - 1);
    }
  }

  lemma {:induction false} BreakBalances(b: bytes, pairs: bool)
    requires SkipToBreak(b, pairs).Some?
    ensures Open(b) == Open(SkipToBreak(b, pairs).value) - 1
    decreases |b|, 1
  {
    if b[0] != 0xFF {
      SkipBalances(b);
      var rest := Skip(b).value;
      if pairs {
        SkipBalances(rest);
        rest := Skip(rest).value;
      }
      BreakBalances(rest, pairs);
    }
  }

  lemma CountOpens(b: bytes, major: nat)
    requires major in {4, 5} && ReadCount(b, major).Got?
    ensures Open(b) == Open(ReadCount(b, major).rest) + if ReadCount(b, major).value.None? then 1 else 0
  {
  }

  /** The read leaves a container open exactly when a field met one of indefinite length. */
  ghost predicate Stepped<T>(b: bytes, r: Read<T>, met: set<Cause>, word: Width) {
    && (!r.Bad? ==> Open(b) >= Open(r.rest) && (IndefiniteLength in met <==> Open(b) > Open(r.rest)))
    && (word == W64 ==> OutOfWidth !in met)
  }

  /** What comes first, then the remainder if the first gave a value. */
  lemma SteppedThen<T, U>(a: bytes, b: bytes, first: Read<T>, met: set<Cause>, r: Read<U>, more: set<Cause>, word: Width)
    requires Open(a) == Open(b) && Stepped(b, first, met, word)
    requires if first.Got? then Stepped(first.rest, r, more, word)
             else more == {} && r.Bad? == first.Bad? && (first.Cut? ==> r.rest == first.rest)
    ensures Stepped(a, r, met + more, word)
  {
    hide Open;
  }

  lemma SteppedOver<U>(a: bytes, b: bytes, r: Read<U>, more: set<Cause>, word: Width)
    requires Open(a) == Open(b) && Stepped(b, r, more, word)
    ensures Stepped(a, r, more, word)
  {
  }

  lemma SteppedAs<T, U>(a: bytes, r: Read<T>, q: Read<U>, met: set<Cause>, word: Width)
    requires Stepped(a, r, met, word) && q.Bad? == r.Bad? && (!q.Bad? ==> q.rest == r.rest)
    ensures Stepped(a, q, met, word)
  {
    hide Open;
  }

  lemma {:induction false} StepElem(b: bytes, e: Elem, env: Env)
    requires env.Sound() && env.Knows(e)
    ensures Stepped(b, ReadElem(b, e, env), MetElem(b, e, env), env.word)
    decreases |b|, 2, 0
  {
    if e.StructElem? {
      StepStruct(b, e.name, env);
    } else if !ReadElem(b, e, env).Bad? {
      hide Skip;
      ScalarSkips(b, e, env);
      SkipBalances(b);
    }
  }

  lemma {:induction false} StepStruct(b: bytes, name: string, env: Env)
    requires env.Sound() && name in env.defs
    ensures Stepped(b, ReadStruct(b, name, env), MetStruct(b, name, env), env.word)
    decreases |b|, 1, 0
  {
    hide ReadCount, Members, ReadPairs, ReadInOrder, MetPairs, MetInOrder, Open, ZeroFields;
    var members, zero, major := Members(env, name), ZeroFields(name, env), if env.asMap then 5 else 4;
    MembersAssign(env, name);
    KnownMembers(env, name);
    if ReadCount(b, major).Got? && ReadCount(b, major).value.Some? {
      var n, rest := ReadCount(b, major).value.value, ReadCount(b, major).rest;
      CountOpens(b, major);
      if env.asMap {
        StepPairs(rest, n, members, zero, env);
      } else if n == |members| {
        StepInOrder(rest, members, zero, env);
      }
    }
  }

  lemma {:induction false} StepInOrder(b: bytes, members: seq<Entry<Slot>>, out: seq<Value>, env: Env)
    requires env.Sound() && Assignable(members, out, env) && Known(members, env)
    ensures Stepped(b, ReadInOrder(b, members, out, env), MetInOrder(b, members, env), env.word)
    decreases |b|, 4, |members|
  {
    if members != [] {
      hide ReadKind, MetKind, Open;
      var r := ReadKind(b, members[0].item.kind, env);
      StepKind(b, members[0].item.kind, env);
      if r.Got? {
        StepInOrder(r.rest, members[1..], out[members[0].item.at := r.value], env);
      }
    }
  }

  /** The reads of a map's pairs, one pair unfolded. */
  lemma PairsUnfold(b: bytes, n: nat, members: seq<Entry<Slot>>, out: seq<Value>, env: Env)
    requires env.Sound() && Assignable(members, out, env) && Known(members, env) && n > 0 && ReadString(b, 3).Got?
    ensures var key, rest := ReadString(b, 3).value, ReadString(b, 3).rest;
            var i := KeyIndex(members, key);
            if i < 0 then
              && ReadPairs(b, n, members, out, env) ==
                 (if Skip(rest).None? then Bad(Malformed) else ReadPairs(Skip(rest).value, n - 1, members, out, env))
              && MetPairs(b, n, members, env) ==
                 (if Skip(rest).None? then {} else MetPairs(Skip(rest).value, n - 1, members, env))
            else
              var r := ReadKind(rest, members[i].item.kind, env);
              && ReadPairs(b, n, members, out, env) ==
                 (match r
                  case Bad(x) => Bad(x)
                  case Cut(kept, after) => Got(Rec(Keep(out, members[i].item.at, kept)), after)
                  case Got(v, after) => ReadPairs(after, n - 1, members, out[members[i].item.at := v], env))
              && MetPairs(b, n, members, env) == MetKind(rest, members[i].item.kind, env) +
                 if r.Got? then MetPairs(r.rest, n - 1, members, env) else {}
  {
    hide ReadString, ReadKind, MetKind, Skip, KeyIndex;
  }

  lemma PairsStop(b: bytes, n: nat, members: seq<Entry<Slot>>, out: seq<Value>, env: Env)
    requires env.Sound() && Assignable(members, out, env) && Known(members, env) && (n == 0 || ReadString(b, 3).Bad?)
    ensures Stepped(b, ReadPairs(b, n, members, out, env), MetPairs(b, n, members, env), env.word)
  {
    hide ReadString, Open;
  }

  lemma {:induction false} StepPairs(b: bytes, n: nat, members: seq<Entry<Slot>>, out: seq<Value>, env: Env)
    requires env.Sound() && Assignable(members, out, env) && Known(members, env)
    ensures Stepped(b, ReadPairs(b, n, members, out, env), MetPairs(b, n, members, env), env.word)
    decreases |b|, 4, n
  {
    hide *;
    if n == 0 || ReadString(b, 3).Bad? {
      PairsStop(b, n, members, out, env);
    } else {
      var key, rest := ReadString(b, 3).value, ReadString(b, 3).rest;
      PairsUnfold(b, n, members, out, env);
      StringSkips(b, 3);
      SkipBalances(b);
      var i, q := KeyIndex(members, key), ReadPairs(b, n, members, out, env);
      if i < 0 {
        if Skip(rest).None? {
          SteppedBad(b, q, env.word);
        } else {
          SkipBalances(rest);
          StepPairs(Skip(rest).value, n - 1, members, out, env);
          SteppedOver(b, Skip(rest).value, q, MetPairs(b, n, members, env), env.word);
        }
      } else {
        KnownSlot(members, out, i, env);
        var r, met := ReadKind(rest, members[i].item.kind, env), MetKind(rest, members[i].item.kind, env);
        StepKind(rest, members[i].item.kind, env);
        if r.Got? {
          AssignableKept(members, out, out[members[i].item.at := r.value], env);
          StepPairs(r.rest, n - 1, members, out[members[i].item.at := r.value], env);
        }
        SteppedThen(b, rest, r, met, q, if r.Got? then MetPairs(r.rest, n - 1, members, env) else {}, env.word);
      }
    }
  }

  lemma SteppedBad<T>(b: bytes, r: Read<T>, word: Width)
    requires r.Bad?
    ensures Stepped(b, r, {}, word)
  {
  }

  lemma KnownSlot(members: seq<Entry<Slot>>, out: seq<Value>, i: nat, env: Env)
    requires Assignable(members, out, env) && i < |members|
    ensures env.KnowsKind(members[i].item.kind) && members[i].item.at < |out|
  {
  }

  lemma {:induction false} StepKind(b: bytes, k: Kind, env: Env)
    requires env.Sound() && env.KnowsKind(k)
    ensures Stepped(b, ReadKind(b, k, env), MetKind(b, k, env), env.word)
    decreases |b|, 3, 0
  {
    hide ReadCount, ReadString, ReadItems, ReadEntries, ReadElem, MetItems, MetEntries, MetElem, Open, Skip;
    match k {
      case Single(e) =>
        StepElem(b, e, env);
      case Slice(e) =>
        StepList(b, e, env);
      case FixedArray(e, len) =>
        StepList(b, e, env);
      case StringMap(e) =>
        if ReadCount(b, 5).Got? {
          var n, rest := ReadCount(b, 5).value, ReadCount(b, 5).rest;
          CountOpens(b, 5);
          if n.Some? {
            StepEntries(rest, n.value, e, [], env);
          }
        }
      case _ =>
        if ReadString(b, 2).Got? {
          StringSkips(b, 2);
          SkipBalances(b);
        }
    }
  }

  lemma {:induction false} StepList(b: bytes, e: Elem, env: Env)
    requires env.Sound() && env.Knows(e)
    ensures ReadCount(b, 4).Got? ==>
              Open(b) == Open(ReadCount(b, 4).rest) + if ReadCount(b, 4).value.None? then 1 else 0
    ensures ReadCount(b, 4).Got? && ReadCount(b, 4).value.Some? ==>
              var n, rest := ReadCount(b, 4).value.value, ReadCount(b, 4).rest;
              Stepped(rest, ReadItems(rest, n, e, env), MetItems(rest, n, e, env), env.word)
    decreases |b|, 2, 1
  {
    hide Open;
    if ReadCount(b, 4).Got? {
      CountOpens(b, 4);
      if ReadCount(b, 4).value.Some? {
        StepItems(ReadCount(b, 4).rest, ReadCount(b, 4).value.value, e, env);
      }
    }
  }

  lemma {:induction false} StepItems(b: bytes, n: nat, e: Elem, env: Env)
    requires env.Sound() && env.Knows(e)
    ensures Stepped(b, ReadItems(b, n, e, env), MetItems(b, n, e, env), env.word)
    decreases |b|, 3, n
  {
    hide ReadElem, MetElem, Open, Stepped;
    if n == 0 {
      SteppedNone(b, ReadItems(b, n, e, env), env.word);
    } else {
      var r, q := ReadElem(b, e, env), ReadItems(b, n, e, env);
      StepElem(b, e, env);
      if r.Got? {
        StepItems(r.rest, n - 1, e, env);
        SteppedAs(r.rest, ReadItems(r.rest, n - 1, e, env), q, MetItems(r.rest, n - 1, e, env), env.word);
      }
      SteppedThen(b, b, r, MetElem(b, e, env), q, if r.Got? then MetItems(r.rest, n - 1, e, env) else {}, env.word);
    }
  }

  lemma SteppedNone<T>(b: bytes, r: Read<T>, word: Width)
    requires r.Bad? || (!r.Bad? && r.rest == b)
    ensures Stepped(b, r, {}, word)
  {
    hide Open;
  }

  lemma {:induction false} StepEntries(b: bytes, n: nat, e: Elem, got: seq<DictEntry>, env: Env)
    requires env.Sound() && env.Knows(e)
    ensures Stepped(b, ReadEntries(b, n, e, got, env), MetEntries(b, n, e, env), env.word)
    decreases |b|, 3, n
  {
    hide ReadString, ReadElem, MetElem, Open, Skip, PutEntry, Stepped;
    var q := ReadEntries(b, n, e, got, env);
    if n == 0 || ReadString(b, 3).Bad? {
      SteppedNone(b, q, env.word);
    } else {
      var key, rest := ReadString(b, 3).value, ReadString(b, 3).rest;
      StringSkips(b, 3);
      SkipBalances(b);
      var r := ReadElem(rest, e, env);
      StepElem(rest, e, env);
      if r.Got? {
        StepEntries(r.rest, n - 1, e, PutEntry(got, key, r.value), env);
      }
      SteppedThen(b, rest, r, MetElem(rest, e, env), q, if r.Got? then MetEntries(r.rest, n - 1, e, env) else {}, env.word);
    }
  }

  // --- With no container of indefinite length met, reading is meaning ---

  /** The read gives the meaning and leaves what the skip leaves, unless a number met was too wide. */
  ghost predicate Aligned<T>(r: Read<T>, met: set<Cause>, mean: Option<T>, skip: Option<bytes>) {
    && (mean.Some? <==> r.Got? && met == {})
    && (mean.Some? ==> skip.Some? && r == Got(mean.value, skip.value))
    && (r.Cut? ==> met != {})
  }

  lemma NoMeaning<T>(r: Read<T>, met: set<Cause>, mean: Option<T>, skip: Option<bytes>)
    requires mean.None? && (r.Bad? || met != {})
    ensures Aligned(r, met, mean, skip)
  {
  }

  /** An aligned read with no meaning was refused or met something. */
  lemma NoneMeans<T>(r: Read<T>, met: set<Cause>, mean: Option<T>, skip: Option<bytes>)
    requires Aligned(r, met, mean, skip)
    ensures mean.None? ==> r.Bad? || met != {}
    ensures mean.Some? ==> skip.Some? && r == Got(mean.value, skip.value) && met == {}
  {
  }

  lemma {:induction false} AlignElem(b: bytes, e: Elem, env: Env)
    requires env.Sound() && env.Knows(e) && IndefiniteLength !in MetElem(b, e, env)
    ensures Aligned(ReadElem(b, e, env), MetElem(b, e, env), MeanElem(b, e, env), Skip(b))
    decreases |b|, 2, 0
  {
    if e.StructElem? {
      AlignStruct(b, e.name, env);
    } else {
      hide Skip, ReadInt, MeanScalar;
      ReadScalarExactly(b, e, env);
    }
  }

  lemma {:induction false} AlignStruct(b: bytes, name: string, env: Env)
    requires env.Sound() && name in env.defs && IndefiniteLength !in MetStruct(b, name, env)
    ensures Aligned(ReadStruct(b, name, env), MetStruct(b, name, env), MeanStruct(b, name, env), Skip(b))
    decreases |b|, 1, 0
  {
    hide ReadCount, Members, ReadPairs, ReadInOrder, MetPairs, MetInOrder, MeanPairs, MeanInOrder, ZeroFields, Skip, SkipMany;
    var members, zero, major := Members(env, name), ZeroFields(name, env), if env.asMap then 5 else 4;
    MembersAssign(env, name);
    KnownMembers(env, name);
    if ReadCount(b, major).Got? && ReadCount(b, major).value.Some? {
      var n, rest := ReadCount(b, major).value.value, ReadCount(b, major).rest;
      CountSkips(b, major);
      if env.asMap {
        AlignPairs(rest, n, members, zero, env);
      } else if n == |members| {
        AlignInOrder(rest, members, zero, env);
      }
    }
  }

  lemma InOrderUnfold(b: bytes, members: seq<Entry<Slot>>, out: seq<Value>, env: Env)
    requires env.Sound() && Assignable(members, out, env) && Known(members, env) && members != []
    ensures env.KnowsKind(members[0].item.kind) && members[0].item.at < |out| && Known(members[1..], env)
    ensures forall v {:trigger out[members[0].item.at := v]} :: Assignable(members[1..], out[members[0].item.at := v], env)
    ensures var k, at, rest := members[0].item.kind, members[0].item.at, members[1..];
            && ReadInOrder(b, members, out, env) ==
               (match ReadKind(b, k, env)
                case Bad(x) => Bad(x)
                case Cut(kept, after) => Got(Rec(Keep(out, at, kept)), after)
                case Got(v, after) => ReadInOrder(after, rest, out[at := v], env))
            && MetInOrder(b, members, env) == MetKind(b, k, env) +
               (if ReadKind(b, k, env).Got? then MetInOrder(ReadKind(b, k, env).rest, rest, env) else {})
            && MeanInOrder(b, members, out, env) ==
               (match (MeanKind(b, k, env), Skip(b))
                case (Some(v), Some(after)) => MeanInOrder(after, rest, out[at := v], env)
                case _ => None)
  {
    hide ReadKind, MetKind, MeanKind, Skip;
  }

  lemma NoMembersAligned(b: bytes, out: seq<Value>, env: Env)
    requires env.Sound() && Known([], env)
    ensures Aligned(ReadInOrder(b, [], out, env), MetInOrder(b, [], env), MeanInOrder(b, [], out, env), SkipMany(b, 0))
  {
  }

  lemma {:induction false} AlignInOrder(b: bytes, members: seq<Entry<Slot>>, out: seq<Value>, env: Env)
    requires env.Sound() && Assignable(members, out, env) && Known(members, env)
    requires IndefiniteLength !in MetInOrder(b, members, env)
    ensures Aligned(ReadInOrder(b, members, out, env), MetInOrder(b, members, env), MeanInOrder(b, members, out, env),
                    SkipMany(b, |members|))
    decreases |b|, 4, |members|
  {
    hide *;
    if members == [] {
      NoMembersAligned(b, out, env);
    } else {
      InOrderUnfold(b, members, out, env);
      ManyStep(b, |members|);
      var k := members[0].item.kind;
      var r, met, m, all := ReadKind(b, k, env), MetKind(b, k, env), MeanKind(b, k, env), MetInOrder(b, members, env);
      AlignKind(b, k, env);
      NoneMeans(r, met, m, Skip(b));
      if m.None? {
        NoMeaning(ReadInOrder(b, members, out, env), all, MeanInOrder(b, members, out, env), SkipMany(b, |members|));
      } else {
        assert all == MetInOrder(r.rest, members[1..], env);
        AlignInOrder(r.rest, members[1..], out[members[0].item.at := r.value], env);
      }
    }
  }

  lemma MeanPairsUnfold(b: bytes, n: nat, members: seq<Entry<Slot>>, out: seq<Value>, env: Env)
    requires env.Sound() && Assignable(members, out, env) && n > 0 && ReadString(b, 3).Got?
    ensures var key, rest := ReadString(b, 3).value, ReadString(b, 3).rest;
            var i := KeyIndex(members, key);
            MeanPairs(b, n, members, out, env) ==
            if Skip(rest).None? then None
            else if i < 0 then MeanPairs(Skip(rest).value, n - 1, members, out, env)
            else match MeanKind(rest, members[i].item.kind, env)
                 case None => None
                 case Some(v) => MeanPairs(Skip(rest).value, n - 1, members, out[members[i].item.at := v], env)
  {
    hide ReadString, MeanKind, Skip, KeyIndex;
  }

  lemma PairsStopAligned(b: bytes, n: nat, members: seq<Entry<Slot>>, out: seq<Value>, env: Env)
    requires env.Sound() && Assignable(members, out, env) && Known(members, env) && (n == 0 || ReadString(b, 3).Bad?)
    ensures Aligned(ReadPairs(b, n, members, out, env), MetPairs(b, n, members, env), MeanPairs(b, n, members, out, env),
                    SkipMany(b, 2 * n))
  {
    hide ReadString, Skip;
  }

  lemma {:induction false} AlignPairs(b: bytes, n: nat, members: seq<Entry<Slot>>, out: seq<Value>, env: Env)
    requires env.Sound() && Assignable(members, out, env) && Known(members, env)
    requires IndefiniteLength !in MetPairs(b, n, members, env)
    ensures Aligned(ReadPairs(b, n, members, out, env), MetPairs(b, n, members, env), MeanPairs(b, n, members, out, env),
                    SkipMany(b, 2 * n))
    decreases |b|, 4, n
  {
    hide *;
    if n == 0 || ReadString(b, 3).Bad? {
      PairsStopAligned(b, n, members, out, env);
    } else {
      var key, rest := ReadString(b, 3).value, ReadString(b, 3).rest;
      PairsUnfold(b, n, members, out, env);
      MeanPairsUnfold(b, n, members, out, env);
      StringSkips(b, 3);
      TwoSkips(b, n);
      var i, q, all := KeyIndex(members, key), ReadPairs(b, n, members, out, env), MetPairs(b, n, members, env);
      var mean, skip := MeanPairs(b, n, members, out, env), SkipMany(b, 2 * n);
      if i < 0 {
        if Skip(rest).None? {
          NoMeaning(q, all, mean, skip);
        } else {
          AlignPairs(Skip(rest).value, n - 1, members, out, env);
        }
      } else {
        KnownSlot(members, out, i, env);
        var r, met, m := ReadKind(rest, members[i].item.kind, env), MetKind(rest, members[i].item.kind, env),
                         MeanKind(rest, members[i].item.kind, env);
        AlignKind(rest, members[i].item.kind, env);
        NoneMeans(r, met, m, Skip(rest));
        if m.None? {
          NoMeaning(q, all, mean, skip);
        } else {
          AssignableKept(members, out, out[members[i].item.at := r.value], env);
          assert all == MetPairs(r.rest, n - 1, members, env);
          AlignPairs(r.rest, n - 1, members, out[members[i].item.at := r.value], env);
        }
      }
    }
  }

  lemma {:induction false} AlignKind(b: bytes, k: Kind, env: Env)
    requires env.Sound() && env.KnowsKind(k) && IndefiniteLength !in MetKind(b, k, env)
    ensures Aligned(ReadKind(b, k, env), MetKind(b, k, env), MeanKind(b, k, env), Skip(b))
    decreases |b|, 3, 0
  {
    hide ReadCount, ReadString, ReadItems, ReadEntries, ReadElem, MetItems, MetEntries, MetElem, MeanElem, MeanItems, MeanEntries,
         Skip, SkipMany, Padded, Fill;
    match k {
      case Single(e) =>
        AlignElem(b, e, env);
      case Slice(e) =>
        AlignList(b, e, env);
      case FixedArray(e, len) =>
        if TooLong(b, len) {
          LongMeans(b, len, e, env);
        } else {
          AlignList(b, e, env);
        }
      case StringMap(e) =>
        if ReadCount(b, 5).Got? {
          var n, rest := ReadCount(b, 5).value, ReadCount(b, 5).rest;
          if n.Some? {
            CountSkips(b, 5);
            AlignEntries(rest, n.value, e, [], env);
          }
        }
      case _ =>
        if ReadString(b, 2).Got? {
          StringSkips(b, 2);
        }
    }
  }

  /** More elements than the array holds mean nothing. */
  lemma {:induction false} LongMeans(b: bytes, len: nat, e: Elem, env: Env)
    requires env.Sound() && env.Knows(e) && TooLong(b, len)
    ensures MeanList(b, e, env).Some? ==> |MeanList(b, e, env).value| > len
  {
    hide ReadCount, MeanItems;
    MeanLength(ReadCount(b, 4).rest, ReadCount(b, 4).value, e, env);
  }

  lemma {:induction false} MeanLength(b: bytes, n: Option<nat>, e: Elem, env: Env)
    requires env.Sound() && env.Knows(e)
    ensures MeanItems(b, n, e, env).Some? && n.Some? ==> |MeanItems(b, n, e, env).value| == n.value
    decreases |b|
  {
    hide MeanElem, Skip;
    if !Done(b, n) && Skip(b).Some? {
      MeanLength(Skip(b).value, Fewer(n), e, env);
    }
  }

  lemma {:induction false} AlignList(b: bytes, e: Elem, env: Env)
    requires env.Sound() && env.Knows(e) && IndefiniteLength !in MetCounted(b, 4, e, env, false)
    ensures ReadCount(b, 4).Bad? ==> MeanList(b, e, env).None?
    ensures ReadCount(b, 4).Got? ==>
              && ReadCount(b, 4).value.Some?
              && var n, rest := ReadCount(b, 4).value.value, ReadCount(b, 4).rest;
                 Aligned(ReadItems(rest, n, e, env), MetItems(rest, n, e, env), MeanList(b, e, env), Skip(b))
    decreases |b|, 2, 1
  {
    hide ReadCount, ReadItems, MetItems, MeanItems, Skip, SkipMany;
    if ReadCount(b, 4).Got? {
      CountSkips(b, 4);
      AlignItems(ReadCount(b, 4).rest, ReadCount(b, 4).value.value, e, env);
    }
  }

  lemma ItemsUnfold(b: bytes, n: nat, e: Elem, env: Env)
    requires env.Sound() && env.Knows(e) && n > 0
    ensures && MeanItems(b, Some(n), e, env) ==
               (match (MeanElem(b, e, env), Skip(b))
                case (Some(v), Some(rest)) => After(v, MeanItems(rest, Some(n - 1), e, env))
                case _ => None)
            && ReadItems(b, n, e, env) ==
               (match ReadElem(b, e, env)
                case Bad(x) => Bad(x)
                case Cut(_, rest) => Cut(Some([]), rest)
                case Got(v, rest) => ReadAfter(v, ReadItems(rest, n - 1, e, env)))
            && MetItems(b, n, e, env) == MetElem(b, e, env) +
               (match ReadElem(b, e, env)
                case Got(_, rest) => MetItems(rest, n - 1, e, env)
                case _ => {})
            && SkipMany(b, n) == if Skip(b).Some? then SkipMany(Skip(b).value, n - 1) else None
  {
    hide ReadElem, MetElem, MeanElem, Skip;
  }

  function ReadAfter<T>(v: T, more: Read<seq<T>>): Read<seq<T>> {
    match more
    case Bad(x) => Bad(x)
    case Cut(items, rest) => Cut(Some([v] + items.GetOr([])), rest)
    case Got(items, rest) => Got([v] + items, rest)
  }

  lemma AlignedAfter<T>(v: T, r: Read<seq<T>>, met: set<Cause>, mean: Option<seq<T>>, skip: Option<bytes>)
    requires Aligned(r, met, mean, skip)
    ensures Aligned(ReadAfter(v, r), met, After(v, mean), skip)
  {
  }

  lemma NoItems(b: bytes, e: Elem, env: Env)
    requires env.Sound() && env.Knows(e)
    ensures Aligned(ReadItems(b, 0, e, env), MetItems(b, 0, e, env), MeanItems(b, Some(0), e, env), SkipMany(b, 0))
  {
  }

  lemma {:induction false} AlignItems(b: bytes, n: nat, e: Elem, env: Env)
    requires env.Sound() && env.Knows(e) && IndefiniteLength !in MetItems(b, n, e, env)
    ensures Aligned(ReadItems(b, n, e, env), MetItems(b, n, e, env), MeanItems(b, Some(n), e, env), SkipMany(b, n))
    decreases |b|, 3, n
  {
    hide *;
    if n == 0 {
      NoItems(b, e, env);
    } else {
      ItemsUnfold(b, n, e, env);
      var r, m, q, all := ReadElem(b, e, env), MeanElem(b, e, env), ReadItems(b, n, e, env), MetItems(b, n, e, env);
      AlignElem(b, e, env);
      NoneMeans(r, MetElem(b, e, env), m, Skip(b));
      if m.None? {
        NoMeaning(q, all, MeanItems(b, Some(n), e, env), SkipMany(b, n));
      } else {
        assert all == MetItems(r.rest, n - 1, e, env);
        AlignItems(r.rest, n - 1, e, env);
        AlignedAfter(r.value, ReadItems(r.rest, n - 1, e, env), all, MeanItems(r.rest, Some(n - 1), e, env),
                     SkipMany(r.rest, n - 1));
      }
    }
  }

  lemma MeanEntriesUnfold(b: bytes, n: nat, e: Elem, got: seq<DictEntry>, env: Env)
    requires env.Sound() && env.Knows(e) && n > 0 && ReadString(b, 3).Got?
    ensures var key, rest := ReadString(b, 3).value, ReadString(b, 3).rest;
            && MeanEntries(b, Some(n), e, got, env) ==
               (match (MeanElem(rest, e, env), Skip(rest))
                case (Some(v), Some(after)) => MeanEntries(after, Some(n - 1), e, PutEntry(got, key, v), env)
                case _ => None)
            && ReadEntries(b, n, e, got, env) ==
               (match ReadElem(rest, e, env)
                case Bad(x) => Bad(x)
                case Cut(_, after) => Cut(None, after)
                case Got(v, after) => ReadEntries(after, n - 1, e, PutEntry(got, key, v), env))
            && MetEntries(b, n, e, env) == MetElem(rest, e, env) +
               match ReadElem(rest, e, env)
               case Got(_, after) => MetEntries(after, n - 1, e, env)
               case _ => {}
  {
    hide ReadString, ReadElem, MetElem, MeanElem, Skip, PutEntry;
  }

  lemma EntriesStopAligned(b: bytes, n: nat, e: Elem, got: seq<DictEntry>, env: Env)
    requires env.Sound() && env.Knows(e) && (n == 0 || ReadString(b, 3).Bad?)
    ensures Aligned(ReadEntries(b, n, e, got, env), MetEntries(b, n, e, env), MeanEntries(b, Some(n), e, got, env),
                    SkipMany(b, 2 * n))
  {
    hide ReadString, Skip;
  }

  lemma {:induction false} AlignEntries(b: bytes, n: nat, e: Elem, got: seq<DictEntry>, env: Env)
    requires env.Sound() && env.Knows(e) && IndefiniteLength !in MetEntries(b, n, e, env)
    ensures Aligned(ReadEntries(b, n, e, got, env), MetEntries(b, n, e, env), MeanEntries(b, Some(n), e, got, env),
                    SkipMany(b, 2 * n))
    decreases |b|, 3, n
  {
    hide *;
    if n == 0 || ReadString(b, 3).Bad? {
      EntriesStopAligned(b, n, e, got, env);
    } else {
      var key, rest := ReadString(b, 3).value, ReadString(b, 3).rest;
      MeanEntriesUnfold(b, n, e, got, env);
      StringSkips(b, 3);
      TwoSkips(b, n);
      var r, m, q, all := ReadElem(rest, e, env), MeanElem(rest, e, env), ReadEntries(b, n, e, got, env), MetEntries(b, n, e, env);
      AlignElem(rest, e, env);
      NoneMeans(r, MetElem(rest, e, env), m, Skip(rest));
      if m.None? {
        NoMeaning(q, all, MeanEntries(b, Some(n), e, got, env), SkipMany(b, 2 * n));
      } else {
        assert all == MetEntries(r.rest, n - 1, e, env);
        AlignEntries(r.rest, n - 1, e, PutEntry(got, key, r.value), env);
      }
    }
  }

  // --- The exact condition ---

  /**
   * A struct decoded without an error is what its document means, and ends where the item ends,
   * exactly when no field on the way met a container of indefinite length or a number too wide
   * for the platform. It ends there only if no such container was met; with 64-bit ints, if and
   * only if.
   */
  lemma EndsExactly(b: bytes, name: string, env: Env)
    requires env.Sound() && name in env.defs && ReadStruct(b, name, env).Got?
    ensures var r := ReadStruct(b, name, env);
            && (Skip(b) == Some(r.rest) && MeanStruct(b, name, env) == Some(r.value) <==> MetStruct(b, name, env) == {})
            && (Skip(b) == Some(r.rest) ==> IndefiniteLength !in MetStruct(b, name, env))
            && (env.word == W64 ==> (Skip(b) == Some(r.rest) <==> MetStruct(b, name, env) == {}))
  {
    hide Skip, ReadStruct, MeanStruct, MetStruct, Open;
    var r, met := ReadStruct(b, name, env), MetStruct(b, name, env);
    StepStruct(b, name, env);
    if Skip(b) == Some(r.rest) {
      SkipBalances(b);
    }
    if IndefiniteLength !in met {
      AlignStruct(b, name, env);
    }
    NoOtherCause(met);
  }

  lemma NoOtherCause(met: set<Cause>)
    ensures met == {} <==> IndefiniteLength !in met && OutOfWidth !in met
  {
    forall c | c in met ensures c == IndefiniteLength || c == OutOfWidth {
    }
  }

  /** Where no field meets either, decoding gives the document's meaning and refuses what has none. */
  lemma ReadsMeaning(b: bytes, name: string, env: Env)
    requires env.Sound() && name in env.defs && MetStruct(b, name, env) == {}
    ensures ReadStruct(b, name, env).Got? <==> MeanStruct(b, name, env).Some?
    ensures MeanStruct(b, name, env).Some? ==>
              Skip(b).Some? && ReadStruct(b, name, env) == Got(MeanStruct(b, name, env).value, Skip(b).value)
  {
    hide Skip, ReadStruct, MeanStruct, MetStruct;
    AlignStruct(b, name, env);
  }

  // --- What a caller can check beforehand ---

  /** The platform's int, and its uint, hold a number that 64 bits hold; where they are 64 bits wide, always. */
  predicate FitsWord(n: int, word: Width) {
    forall signed :: Lowest(W64, signed) <= n <= Highest(W64, signed) ==> Lowest(word, signed) <= n <= Highest(word, signed)
  }

  /**
   * The item at the front holds no array or map of indefinite length, and no number the platform's
   * word cannot hold, at any depth.
   */
  predicate Plain(b: bytes, word: Width)
    decreases |b|, 0
  {
    match ReadHead(b)
    case None => true
    case Some(h) =>
      if h.major < 2 then FitsWord(if h.major == 0 then h.arg else -1 - h.arg, word)
      else if h.major in {4, 5} then
        h.info != INDEFINITE && PlainMany(h.rest, if h.major == 4 then h.arg else 2 * h.arg, word)
      else h.major == 6 ==> Plain(h.rest, word)
  }

  predicate PlainMany(b: bytes, n: nat, word: Width)
    decreases |b|, n
  {
    n == 0 || (Plain(b, word) && match Skip(b) case None => true case Some(rest) => PlainMany(rest, n - 1, word))
  }

  lemma PlainWord(b: bytes, signed: bool, word: Width)
    requires Plain(b, word)
    ensures !TooWide(b, signed, word)
  {
    hide Plain, PlainMany, ReadHead;
    if ReadHead(b).Some? && ReadHead(b).value.major < 2 {
      PlainNumber(b, word);
    }
  }

  lemma PlainNumber(b: bytes, word: Width)
    requires Plain(b, word) && ReadHead(b).Some? && ReadHead(b).value.major < 2
    ensures FitsWord(if ReadHead(b).value.major == 0 then ReadHead(b).value.arg else -1 - ReadHead(b).value.arg, word)
  {
  }

  lemma PlainCount(b: bytes, major: nat, word: Width)
    requires Plain(b, word) && major in {4, 5} && ReadCount(b, major).Got?
    ensures ReadCount(b, major).value.Some?
    ensures var n := ReadCount(b, major).value.value;
            PlainMany(ReadCount(b, major).rest, if major == 4 then n else 2 * n, word)
  {
    hide PlainMany;
  }

  lemma PlainTwo(b: bytes, n: nat, word: Width)
    requires n > 0 && PlainMany(b, 2 * n, word) && Skip(b).Some?
    ensures Plain(Skip(b).value, word)
    ensures Skip(Skip(b).value).Some? ==> PlainMany(Skip(Skip(b).value).value, 2 * (n - 1), word)
  {
    hide Skip, Plain;
    assert 2 * n - 2 == 2 * (n - 1);
    assert PlainMany(Skip(b).value, 2 * n - 1, word);
  }

  /** Of plain items a field meets nothing that cuts it. */
  lemma {:induction false} PlainElem(b: bytes, e: Elem, env: Env)
    requires env.Sound() && env.Knows(e) && Plain(b, env.word)
    ensures MetElem(b, e, env) == {}
    decreases |b|, 2, 0
  {
    hide TooWide, Plain;
    match e {
      case StructElem(name) => PlainStruct(b, name, env);
      case WordElem(signed) => PlainWord(b, signed, env.word);
      case _ =>
    }
  }

  lemma {:induction false} PlainStruct(b: bytes, name: string, env: Env)
    requires env.Sound() && name in env.defs && Plain(b, env.word)
    ensures MetStruct(b, name, env) == {}
    decreases |b|, 1, 0
  {
    hide ReadCount, Members, MetPairs, MetInOrder, Plain, PlainMany;
    var members, major := Members(env, name), if env.asMap then 5 else 4;
    KnownMembers(env, name);
    if ReadCount(b, major).Got? {
      PlainCount(b, major, env.word);
      var n, rest := ReadCount(b, major).value.value, ReadCount(b, major).rest;
      if env.asMap {
        PlainPairs(rest, n, members, env);
      } else if n == |members| {
        PlainInOrder(rest, members, env);
      }
    }
  }

  lemma {:induction false} PlainInOrder(b: bytes, members: seq<Entry<Slot>>, env: Env)
    requires env.Sound() && Known(members, env) && PlainMany(b, |members|, env.word)
    ensures MetInOrder(b, members, env) == {}
    decreases |b|, 4, |members|
  {
    if members != [] {
      hide ReadKind, MetKind, MeanKind, Skip, Plain;
      var r := ReadKind(b, members[0].item.kind, env);
      PlainKind(b, members[0].item.kind, env);
      AlignKind(b, members[0].item.kind, env);
      if r.Got? {
        PlainInOrder(r.rest, members[1..], env);
      }
    }
  }

  lemma MetPairsUnfold(b: bytes, n: nat, members: seq<Entry<Slot>>, env: Env)
    requires env.Sound() && Known(members, env)
    ensures n == 0 || ReadString(b, 3).Bad? ==> MetPairs(b, n, members, env) == {}
    ensures n > 0 && ReadString(b, 3).Got? ==>
            var rest := ReadString(b, 3).rest;
            var i := KeyIndex(members, ReadString(b, 3).value);
            && (i >= 0 ==> env.KnowsKind(members[i].item.kind))
            && MetPairs(b, n, members, env) ==
               if i < 0 then if Skip(rest).None? then {} else MetPairs(Skip(rest).value, n - 1, members, env)
               else MetKind(rest, members[i].item.kind, env) +
                    if ReadKind(rest, members[i].item.kind, env).Got?
                    then MetPairs(ReadKind(rest, members[i].item.kind, env).rest, n - 1, members, env) else {}
  {
    hide ReadString, ReadKind, MetKind, Skip, KeyIndex;
  }

  lemma {:induction false} PlainPairs(b: bytes, n: nat, members: seq<Entry<Slot>>, env: Env)
    requires env.Sound() && Known(members, env) && PlainMany(b, 2 * n, env.word)
    ensures MetPairs(b, n, members, env) == {}
    decreases |b|, 4, n
  {
    hide *;
    MetPairsUnfold(b, n, members, env);
    if n > 0 && ReadString(b, 3).Got? {
      var rest, i := ReadString(b, 3).rest, KeyIndex(members, ReadString(b, 3).value);
      StringSkips(b, 3);
      PlainTwo(b, n, env.word);
      if i < 0 {
        if Skip(rest).Some? {
          PlainPairs(Skip(rest).value, n - 1, members, env);
        }
      } else {
        var k := members[i].item.kind;
        PlainKind(rest, k, env);
        AlignKind(rest, k, env);
          if ReadKind(rest, k, env).Got? {
          GotMeans(ReadKind(rest, k, env), MeanKind(rest, k, env), Skip(rest));
          PlainPairs(ReadKind(rest, k, env).rest, n - 1, members, env);
        }
      }
    }
  }

  lemma GotMeans<T>(r: Read<T>, mean: Option<T>, skip: Option<bytes>)
    requires Aligned(r, {}, mean, skip) && r.Got?
    ensures skip == Some(r.rest)
  {
  }

  lemma {:induction false} PlainKind(b: bytes, k: Kind, env: Env)
    requires env.Sound() && env.KnowsKind(k) && Plain(b, env.word)
    ensures MetKind(b, k, env) == {}
    decreases |b|, 3, 0
  {
    hide ReadCount, MetItems, MetEntries, MetElem, Plain, PlainMany;
    match k {
      case Single(e) =>
        PlainElem(b, e, env);
      case Slice(e) =>
        if ReadCount(b, 4).Got? {
          PlainCount(b, 4, env.word);
          PlainItems(ReadCount(b, 4).rest, ReadCount(b, 4).value.value, e, env);
        }
      case FixedArray(e, len) =>
        if ReadCount(b, 4).Got? && !TooLong(b, len) {
          PlainCount(b, 4, env.word);
          PlainItems(ReadCount(b, 4).rest, ReadCount(b, 4).value.value, e, env);
        }
      case StringMap(e) =>
        if ReadCount(b, 5).Got? {
          PlainCount(b, 5, env.word);
          PlainEntries(ReadCount(b, 5).rest, ReadCount(b, 5).value.value, e, env);
        }
      case _ =>
    }
  }

  lemma {:induction false} PlainItems(b: bytes, n: nat, e: Elem, env: Env)
    requires env.Sound() && env.Knows(e) && PlainMany(b, n, env.word)
    ensures MetItems(b, n, e, env) == {}
    decreases |b|, 3, n
  {
    if n > 0 {
      hide ReadElem, MetElem, MeanElem, Skip, Plain, Aligned;
      var r := ReadElem(b, e, env);
      PlainElem(b, e, env);
      AlignElem(b, e, env);
      if r.Got? {
        GotMeans(r, MeanElem(b, e, env), Skip(b));
        PlainItems(r.rest, n - 1, e, env);
      }
    }
  }

  lemma {:induction false} PlainEntries(b: bytes, n: nat, e: Elem, env: Env)
    requires env.Sound() && env.Knows(e) && PlainMany(b, 2 * n, env.word)
    ensures MetEntries(b, n, e, env) == {}
    decreases |b|, 3, n
  {
    hide ReadString, ReadElem, MetElem, MeanElem, Skip, Plain, PlainMany, Aligned;
    if n > 0 && ReadString(b, 3).Got? {
      var rest := ReadString(b, 3).rest;
      StringSkips(b, 3);
      PlainTwo(b, n, env.word);
      var r := ReadElem(rest, e, env);
      PlainElem(rest, e, env);
      AlignElem(rest, e, env);
      if r.Got? {
        GotMeans(r, MeanElem(rest, e, env), Skip(rest));
        PlainEntries(r.rest, n - 1, e, env);
      }
    }
  }

  /**
   * An item that holds no array or map of indefinite length and no number too wide for the platform
   * decodes when it has a meaning and only then; it is consumed exactly and read as it means.
   */
  lemma DefiniteConsumed(b: bytes, name: string, env: Env)
    requires env.Sound() && name in env.defs && Plain(b, env.word)
    ensures var r := ReadStruct(b, name, env);
            && (r.Got? <==> MeanStruct(b, name, env).Some?)
            && (r.Got? ==> Skip(b) == Some(r.rest) && MeanStruct(b, name, env) == Some(r.value))
  {
    hide Skip, ReadStruct, MeanStruct, MetStruct, Plain;
    PlainStruct(b, name, env);
    ReadsMeaning(b, name, env);
  }

  // --- The failures themselves ---

  lemma CountOfNone(major: nat, s: bytes)
    requires major in {4, 5}
    ensures ReadCount([major * 32 + INDEFINITE] + s, major) == Got(None, s)
  {
    assert ([major * 32 + INDEFINITE] + s)[1..] == s;
  }

  /** A field that expects an array or a map is cut by a head of indefinite length, with nothing stored. */
  lemma IndefiniteCuts(k: Kind, env: Env, s: bytes)
    requires env.Sound() && env.KnowsKind(k) && (k.Slice? || k.FixedArray? || k.StringMap?)
    ensures ReadKind([if k.StringMap? then 0xBF else 0x9F] + s, k, env) == Cut(None, s)
  {
    CountOfNone(if k.StringMap? then 5 else 4, s);
    hide ReadCount, ReadItems, ReadEntries;
  }

  /** A number of platform width that the platform cannot hold cuts its field once it is read. */
  lemma TooWideCuts(n: int, signed: bool, env: Env, s: bytes)
    requires env.Sound() && Lowest(W64, signed) <= n <= Highest(W64, signed)
    requires !(Lowest(env.word, signed) <= n <= Highest(env.word, signed))
    ensures ReadKind(AppendInt(n) + s, Single(WordElem(signed)), env) == Cut(None, s)
  {
    IntReadsBack(n, W64, signed, s);
    hide ReadInt, AppendInt;
  }

  /** The array shape: whatever cuts a member ends the struct after the members before it, with no error. */
  lemma ArrayShapeEnds(bodies: seq<bytes>, name: string, fields: seq<Value>, env: Env, tail: bytes)
    requires env.Sound() && !env.asMap && name in env.defs && |fields| == |env.defs[name]|
    requires |bodies| < |Members(env, name)| && Assignable(Members(env, name), fields, env)
    requires forall i :: 0 <= i < |bodies| ==>
               Spells(bodies[i], Members(env, name)[i].item.kind, fields[Members(env, name)[i].item.at], env)
    requires ReadKind(tail, Members(env, name)[|bodies|].item.kind, env).Cut?
    ensures var members, cut := Members(env, name), ReadKind(tail, Members(env, name)[|bodies|].item.kind, env);
            && |members| < I64
            && ReadStruct(Head(4, |members|) + (Concat(bodies) + tail), name, env) ==
               Got(Rec(Keep(Assigned(members[..|bodies|], fields, ZeroFields(name, env)), members[|bodies|].item.at, cut.kept)), cut.rest)
  {
    var members, zero := Members(env, name), ZeroFields(name, env);
    MembersAre(env, name);
    MembersAssign(env, name);
    CountReadsBack(4, |members|, Concat(bodies) + tail);
    hide Head, Concat, ReadCount, ReadKind, Members, ZeroFields, Spells, Assigned;
    InOrderSpells(bodies, members, fields, zero, env, tail);
    assert members[|bodies|..][0] == members[|bodies|];
  }

  /** The map shape: whatever cuts a member ends the struct after the pairs before it, with no error. */
  lemma MapShapeEnds(ps: seq<Pair>, n: nat, name: string, fields: seq<Value>, m: nat, env: Env, tail: bytes)
    requires env.Sound() && env.asMap && name in env.defs && |fields| == |env.defs[name]|
    requires |ps| < n < I64 && ShortKeys(ps) && Assignable(Members(env, name), fields, env) && m < |Members(env, name)|
    requires forall i :: 0 <= i < |ps| ==> PairFits(ps[i], Members(env, name), fields, env)
    requires |Members(env, name)[m].name| < I64 && KeyIndex(Members(env, name), Members(env, name)[m].name) == m
    requires ReadKind(tail, Members(env, name)[m].item.kind, env).Cut?
    ensures var members, cut := Members(env, name), ReadKind(tail, Members(env, name)[m].item.kind, env);
            && (forall i :: 0 <= i < |Named(ps, members)| ==> Named(ps, members)[i].item.at < |fields|)
            && ReadStruct(Head(5, n) + (PairBytes(ps) + (TextItem(members[m].name) + tail)), name, env) ==
               Got(Rec(Keep(Assigned(Named(ps, members), fields, ZeroFields(name, env)), members[m].item.at, cut.kept)), cut.rest)
  {
    var members, zero := Members(env, name), ZeroFields(name, env);
    var rest := TextItem(members[m].name) + tail;
    MembersAssign(env, name);
    CountReadsBack(5, n, PairBytes(ps) + rest);
    StringReadsBack(3, members[m].name, tail);
    hide Head, PairBytes, ReadCount, ReadString, ReadKind, Members, ZeroFields, PairFits, KeyIndex, Named, Assigned;
    PairsSpell(ps, n, members, fields, zero, env, rest);
  }
}
