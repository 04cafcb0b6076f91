/**
 * The CBOR codecs generated from one field plan, in both container shapes: the array shape is
 * positional, the map shape keyed. Decoding undoes encoding at any nesting, and the map shape
 * reads any arrangement of its pairs among unknown ones.
 */
module CborCodec {
  import opened ByteStrings
  import opened CborWire
  import opened CborOrder

  // --- Plans ---

  datatype Width = W8 | W16 | W32 | W64

  datatype Elem =
    | StringElem
    | IntElem(width: Width, signed: bool)
    | WordElem(signed: bool)
    | BoolElem
    | FloatElem
    | StructElem(name: string)

  datatype Kind =
    | Single(elem: Elem)
    | Slice(elem: Elem)
    | FixedArray(elem: Elem, n: nat)
    | ByteSlice
    | FixedBytes(n: nat)
    | StringMap(elem: Elem)

  datatype Member = Member(name: bytes, kind: Kind)

  /**
   * The struct types a codec reaches, in declaration order, the shape, and the width int and
   * uint have on the platform. Go lays a struct out above those it holds by value, so the ranks
   * of the latter are smaller.
   */
  datatype Env = Env(defs: map<string, seq<Member>>, rank: map<string, nat>, asMap: bool, word: Width) {
    predicate Sound() {
      forall t :: t in defs ==>
        && t in rank && |defs[t]| < I64
        && forall i :: 0 <= i < |defs[t]| ==> |defs[t][i].name| < I64 && Placed(defs[t][i].kind, rank[t])
    }

    /** No struct gives two members one name. */
    predicate Unique() {
      forall t :: t in defs ==> DistinctNames(Declared(defs[t]))
    }

    predicate Knows(e: Elem) {
      e.StructElem? ==> e.name in defs
    }

    /** The kind's struct is known, and of lower rank when it is held by value. */
    predicate Placed(k: Kind, above: nat) {
      match k
      case Single(e) => Knows(e) && (e.StructElem? ==> e.name in rank && rank[e.name] < above)
      case FixedArray(e, n) => n < I64 && Knows(e) && (e.StructElem? ==> e.name in rank && rank[e.name] < above)
      case Slice(e) => Knows(e)
      case StringMap(e) => Knows(e)
      case FixedBytes(n) => n < I64
      case ByteSlice => true
    }

    predicate KnowsKind(k: Kind) {
      match k
      case Single(e) => Knows(e)
      case FixedArray(e, n) => n < I64 && Knows(e)
      case Slice(e) => Knows(e)
      case StringMap(e) => Knows(e)
      case FixedBytes(n) => n < I64
      case ByteSlice => true
    }
  }

  /** A member in the order a codec writes it, with the struct field it belongs to. */
  datatype Slot = Slot(kind: Kind, at: nat)

  function Declared(d: seq<Member>): seq<Entry<Slot>> {
    seq(|d|, i requires 0 <= i < |d| => Entry(d[i].name, Slot(d[i].kind, i)))
  }

  /** The codec's member list: declaration order for the array, key order for the map. */
  function Members(env: Env, name: string): seq<Entry<Slot>>
    requires name in env.defs
  {
    if env.asMap then Sorted(Declared(env.defs[name])) else Declared(env.defs[name])
  }

  // --- Values ---

  /** A Go value; a nil slice or map is the empty one, and a map is its entries in key order. */
  datatype Value =
    | Text(text: bytes)
    | Int(n: int)
    | Bool(b: bool)
    | Float(bits: bytes)
    | Blob(data: bytes)
    | Rec(fields: seq<Value>)
    | List(items: seq<Value>)
    | Dict(entries: seq<DictEntry>)

  datatype DictEntry = DictEntry(key: bytes, value: Value)

  function Lowest(w: Width, signed: bool): int {
    if !signed then 0 else match w case W8 => -0x80 case W16 => -0x8000 case W32 => -0x8000_0000 case W64 => -I64
  }

  function Highest(w: Width, signed: bool): int {
    match w
    case W8 => if signed then 0x7F else 0xFF
    case W16 => if signed then 0x7FFF else 0xFFFF
    case W32 => if signed then 0x7FFF_FFFF else 0xFFFF_FFFF
    case W64 => if signed then I64 - 1 else U64 - 1
  }

  predicate HasElem(v: Value, e: Elem, env: Env)
    decreases v, 0
  {
    match e
    case StringElem => v.Text? && |v.text| < I64
    case IntElem(w, signed) => v.Int? && Lowest(w, signed) <= v.n <= Highest(w, signed)
    case WordElem(signed) => v.Int? && Lowest(env.word, signed) <= v.n <= Highest(env.word, signed)
    case BoolElem => v.Bool?
    case FloatElem => v.Float? && |v.bits| == 8
    case StructElem(name) =>
      && v.Rec? && name in env.defs && |v.fields| == |env.defs[name]|
      && forall i :: 0 <= i < |v.fields| ==> HasKind(v.fields[i], env.defs[name][i].kind, env)
  }

  predicate HasKind(v: Value, k: Kind, env: Env)
    decreases v, 1
  {
    match k
    case Single(e) => HasElem(v, e, env)
    case Slice(e) => v.List? && |v.items| < I64 && forall i :: 0 <= i < |v.items| ==> HasElem(v.items[i], e, env)
    case FixedArray(e, n) => v.List? && |v.items| == n < I64 && forall i :: 0 <= i < |v.items| ==> HasElem(v.items[i], e, env)
    case ByteSlice => v.Blob? && |v.data| < I64
    case FixedBytes(n) => v.Blob? && |v.data| == n < I64
    case StringMap(e) =>
      && v.Dict? && |v.entries| < I64 && KeysAscend(v.entries)
      && forall i :: 0 <= i < |v.entries| ==> |v.entries[i].key| < I64 && HasElem(v.entries[i].value, e, env)
  }

  predicate KeysAscend(entries: seq<DictEntry>) {
    forall i, j :: 0 <= i < j < |entries| ==> Less(entries[i].key, entries[j].key)
  }

  // --- Zero values ---

  function ZeroElem(e: Elem, env: Env): Value
    requires env.Sound() && env.Knows(e)
    decreases if e.StructElem? then env.rank[e.name] + 1 else 0, 0
  {
    match e
    case StringElem => Text([])
    case IntElem(_, _) => Int(0)
    case WordElem(_) => Int(0)
    case BoolElem => Bool(false)
    case FloatElem => Float([0, 0, 0, 0, 0, 0, 0, 0])
    case StructElem(name) => Rec(ZeroFields(name, env))
  }

  function ZeroFields(name: string, env: Env): (r: seq<Value>)
    requires env.Sound() && name in env.defs
    ensures |r| == |env.defs[name]|
    decreases env.rank[name], 2
  {
    seq(|env.defs[name]|, i requires 0 <= i < |env.defs[name]| => ZeroKind(env.defs[name][i].kind, env.rank[name], env))
  }

  function ZeroKind(k: Kind, above: nat, env: Env): Value
    requires env.Sound() && env.Placed(k, above)
    decreases above, 1
  {
    match k
    case Single(e) => ZeroElem(e, env)
    case Slice(_) => List([])
    case FixedArray(e, n) => List(Fill([], n, ZeroElem(e, env)))
    case ByteSlice => Blob([])
    case FixedBytes(n) => Blob(Fill([], n, 0))
    case StringMap(_) => Dict([])
  }

  /** The first elements given, the rest a filler, up to a length. */
  function Fill<T>(s: seq<T>, n: nat, filler: T): seq<T>
    requires |s| <= n
  {
    s + seq(n - |s|, i => filler)
  }

  // --- Encoding ---

  function TextItem(s: bytes): bytes
    requires |s| < I64
  {
    Head(3, |s|) + s
  }

  function AppendInt(n: int): bytes
    requires -I64 <= n < U64
  {
    if n >= 0 then Head(0, n) else Head(1, -1 - n)
  }

  function AppendElem(v: Value, e: Elem, env: Env): bytes
    requires env.Sound() && HasElem(v, e, env)
    decreases v, 1, 0
  {
    match e
    case StringElem => TextItem(v.text)
    case IntElem(_, _) => AppendInt(v.n)
    case WordElem(_) => AppendInt(v.n)
    case BoolElem => [if v.b then 0xF5 else 0xF4]
    case FloatElem => [0xFB] + v.bits
    case StructElem(name) =>
      MembersFit(v, name, env);
      Head(if env.asMap then 5 else 4, |Members(env, name)|) + AppendMembers(v, Members(env, name), env)
  }

  /** Each slot is a field of the value, of the slot's kind. */
  ghost predicate Fits(v: Value, members: seq<Entry<Slot>>, env: Env) {
    && v.Rec?
    && forall i :: 0 <= i < |members| ==>
         && |members[i].name| < I64 && members[i].item.at < |v.fields|
         && env.KnowsKind(members[i].item.kind) && HasKind(v.fields[members[i].item.at], members[i].item.kind, env)
  }

  lemma {:induction false} MembersAre(env: Env, name: string)
    requires name in env.defs
    ensures |Members(env, name)| == |env.defs[name]|
    ensures forall m :: m in Members(env, name) <==> m in Declared(env.defs[name])
  {
    var d := Declared(env.defs[name]);
    SortPermutes(d);
    forall m ensures m in Sorted(d) <==> m in d {
      assert m in Sorted(d) <==> m in multiset(Sorted(d));
      assert m in d <==> m in multiset(d);
    }
  }

  lemma {:induction false} MembersFit(v: Value, name: string, env: Env)
    requires env.Sound() && HasElem(v, StructElem(name), env)
    ensures Fits(v, Members(env, name), env) && |Members(env, name)| < I64
  {
    MembersAre(env, name);
    var members, d := Members(env, name), Declared(env.defs[name]);
    forall i | 0 <= i < |members|
      ensures |members[i].name| < I64 && members[i].item.at < |v.fields|
      ensures env.KnowsKind(members[i].item.kind) && HasKind(v.fields[members[i].item.at], members[i].item.kind, env)
    {
      assert members[i] in d;
    }
  }

  function AppendMembers(v: Value, members: seq<Entry<Slot>>, env: Env): bytes
    requires env.Sound() && Fits(v, members, env)
    decreases v, 0, |members|
  {
    if members == [] then []
    else
      (if env.asMap then TextItem(members[0].name) else [])
      + AppendKind(v.fields[members[0].item.at], members[0].item.kind, env)
      + AppendMembers(v, members[1..], env)
  }

  function AppendKind(v: Value, k: Kind, env: Env): bytes
    requires env.Sound() && HasKind(v, k, env)
    decreases v, 2, 0
  {
    match k
    case Single(e) => AppendElem(v, e, env)
    case Slice(e) => Head(4, |v.items|) + AppendItems(v, e, 0, env)
    case FixedArray(e, n) => Head(4, |v.items|) + AppendItems(v, e, 0, env)
    case ByteSlice => Head(2, |v.data|) + v.data
    case FixedBytes(n) => Head(2, |v.data|) + v.data
    case StringMap(e) => Head(5, |v.entries|) + AppendEntries(v, e, 0, env)
  }

  function AppendItems(v: Value, e: Elem, i: nat, env: Env): bytes
    requires env.Sound() && v.List? && i <= |v.items|
    requires forall j :: 0 <= j < |v.items| ==> HasElem(v.items[j], e, env)
    decreases v, 0, |v.items| - i
  {
    if i == |v.items| then [] else AppendElem(v.items[i], e, env) + AppendItems(v, e, i + 1, env)
  }

  function AppendEntries(v: Value, e: Elem, i: nat, env: Env): bytes
    requires env.Sound() && v.Dict? && i <= |v.entries|
    requires forall j :: 0 <= j < |v.entries| ==> |v.entries[j].key| < I64 && HasElem(v.entries[j].value, e, env)
    decreases v, 0, |v.entries| - i
  {
    if i == |v.entries| then []
    else TextItem(v.entries[i].key) + AppendElem(v.entries[i].value, e, env) + AppendEntries(v, e, i + 1, env)
  }

  // --- Decoding ---

  datatype Error = Malformed | WrongShape | TooMany

  /**
   * What a read gives and leaves, an error, or a cut: the emitted code returns the error it
   * holds, which is none, and keeps what it has stored.
   */
  datatype Read<+T> = Got(value: T, rest: bytes) | Cut(kept: Option<T>, rest: bytes) | Bad(error: Error)

  function ReadString(b: bytes, major: nat): (r: Read<bytes>)
    ensures !r.Cut? && (r.Got? ==> |r.rest| < |b|)
  {
    match ReadHead(b)
    case None => Bad(Malformed)
    case Some(h) =>
      if h.major != major || h.info == INDEFINITE || h.arg > |h.rest| then Bad(Malformed)
      else Got(h.rest[..h.arg], h.rest[h.arg..])
  }

  /** The count of an array or map, or that it is of indefinite length. */
  function ReadCount(b: bytes, major: nat): (r: Read<Option<nat>>)
    ensures !r.Cut? && (r.Got? ==> |r.rest| < |b|)
  {
    match ReadHead(b)
    case None => Bad(Malformed)
    case Some(h) =>
      if h.major != major || h.arg >= I64 then Bad(Malformed)
      else Got(if h.info == INDEFINITE then None else Some(h.arg), h.rest)
  }

  function ReadInt(b: bytes, w: Width, signed: bool): (r: Read<Value>)
    ensures !r.Cut? && (r.Got? ==> r.value.Int? && |r.rest| < |b|)
  {
    match ReadHead(b)
    case None => Bad(Malformed)
    case Some(h) =>
      if h.info == INDEFINITE || h.major > 1 || (h.major == 1 && !signed) then Bad(Malformed)
      else
        var n := if h.major == 0 then h.arg else -1 - h.arg;
        if Lowest(w, signed) <= n <= Highest(w, signed) then Got(Int(n), h.rest) else Bad(Malformed)
  }

  function ReadBool(b: bytes): (r: Read<Value>)
    ensures !r.Cut? && (r.Got? ==> |r.rest| < |b|)
  {
    if b != [] && b[0] in {0xF4, 0xF5} then Got(Bool(b[0] == 0xF5), b[1..]) else Bad(Malformed)
  }

  function ReadFloat(b: bytes): (r: Read<Value>)
    ensures !r.Cut? && (r.Got? ==> |r.rest| < |b|)
  {
    if |b| >= 9 && b[0] == 0xFB then Got(Float(b[1..9]), b[9..]) else Bad(Malformed)
  }

  /** The member a key names: the last, were two to share a name. */
  function KeyIndex(members: seq<Entry<Slot>>, key: bytes): (i: int)
    ensures -1 <= i < |members|
    ensures i >= 0 ==> members[i].name == key
    ensures forall j :: 0 <= j < |members| && members[j].name == key ==> j <= i
  {
    if members == [] then -1
    else if members[|members| - 1].name == key then |members| - 1
    else KeyIndex(members[..|members| - 1], key)
  }

  /** A number of platform width is read in 64 bits; one the platform's width cannot hold is cut. */
  function ReadWord(b: bytes, signed: bool, word: Width): (r: Read<Value>)
    ensures !r.Bad? ==> |r.rest| < |b|
  {
    match ReadInt(b, W64, signed)
    case Got(v, rest) => if Lowest(word, signed) <= v.n <= Highest(word, signed) then Got(v, rest) else Cut(None, rest)
    case Bad(x) => Bad(x)
  }

  function ReadElem(b: bytes, e: Elem, env: Env): (r: Read<Value>)
    requires env.Sound() && env.Knows(e)
    ensures !r.Bad? ==> |r.rest| < |b|
    ensures r.Cut? ==> e.WordElem? && r.kept.None?
    decreases |b|, 2, 0
  {
    match e
    case StringElem => AsValue(ReadString(b, 3), s => Text(s))
    case IntElem(w, signed) => ReadInt(b, w, signed)
    case WordElem(signed) => ReadWord(b, signed, env.word)
    case BoolElem => ReadBool(b)
    case FloatElem => ReadFloat(b)
    case StructElem(name) => ReadStruct(b, name, env)
  }

  /** A read with what it gave turned into a value. */
  function AsValue<T>(r: Read<T>, wrap: T -> Value): Read<Value> {
    match r
    case Got(x, rest) => Got(wrap(x), rest)
    case Cut(kept, rest) => Cut(match kept case None => None case Some(x) => Some(wrap(x)), rest)
    case Bad(e) => Bad(e)
  }

  /** Members a decoder can assign: known kinds, and fields the struct has. */
  ghost predicate Assignable(members: seq<Entry<Slot>>, out: seq<Value>, env: Env) {
    forall i :: 0 <= i < |members| ==> members[i].item.at < |out| && env.KnowsKind(members[i].item.kind)
  }

  lemma {:induction false} MembersAssign(env: Env, name: string)
    requires env.Sound() && name in env.defs
    ensures Assignable(Members(env, name), ZeroFields(name, env), env)
  {
    MembersAre(env, name);
    forall i | 0 <= i < |Members(env, name)|
      ensures Members(env, name)[i].item.at < |env.defs[name]| && env.KnowsKind(Members(env, name)[i].item.kind)
    {
      assert Members(env, name)[i] in Declared(env.defs[name]);
    }
  }

  function ReadStruct(b: bytes, name: string, env: Env): (r: Read<Value>)
    requires env.Sound() && name in env.defs
    ensures !r.Cut? && (r.Got? ==> |r.rest| < |b|)
    decreases |b|, 1, 0
  {
    MembersAssign(env, name);
    var members := Members(env, name);
    match ReadCount(b, if env.asMap then 5 else 4)
    case Bad(x) => Bad(x)
    case Got(None, _) => Bad(WrongShape)
    case Got(Some(n), rest) =>
      if env.asMap then ReadPairs(rest, n, members, ZeroFields(name, env), env)
      else if n != |members| then Bad(WrongShape)
      else ReadInOrder(rest, members, ZeroFields(name, env), env)
  }

  /** The fields when a cut ends their struct: one may have been written in part. */
  function Keep(out: seq<Value>, at: nat, kept: Option<Value>): (r: seq<Value>)
    requires at < |out|
    ensures |r| == |out|
  {
    if kept.None? then out else out[at := kept.value]
  }

  function ReadInOrder(b: bytes, members: seq<Entry<Slot>>, out: seq<Value>, env: Env): (r: Read<Value>)
    requires env.Sound() && Assignable(members, out, env)
    ensures !r.Cut? && (r.Got? ==> r.value.Rec? && |r.value.fields| == |out| && |r.rest| <= |b|)
    decreases |b|, 4, |members|
  {
    if members == [] then Got(Rec(out), b)
    else
      match ReadKind(b, members[0].item.kind, env)
      case Bad(x) => Bad(x)
      case Cut(kept, rest) => Got(Rec(Keep(out, members[0].item.at, kept)), rest)
      case Got(v, rest) => ReadInOrder(rest, members[1..], out[members[0].item.at := v], env)
  }

  function ReadPairs(b: bytes, n: nat, members: seq<Entry<Slot>>, out: seq<Value>, env: Env): (r: Read<Value>)
    requires env.Sound() && Assignable(members, out, env)
    ensures !r.Cut? && (r.Got? ==> r.value.Rec? && |r.value.fields| == |out| && |r.rest| <= |b|)
    decreases |b|, 4, n
  {
    if n == 0 then Got(Rec(out), b)
    else
      match ReadString(b, 3)
      case Bad(x) => Bad(x)
      case Got(key, rest) =>
        var i := KeyIndex(members, key);
        if i < 0 then
          match Skip(rest)
          case None => Bad(Malformed)
          case Some(after) => ReadPairs(after, n - 1, members, out, env)
        else
          match ReadKind(rest, members[i].item.kind, env)
          case Bad(x) => Bad(x)
          case Cut(kept, after) => Got(Rec(Keep(out, members[i].item.at, kept)), after)
          case Got(v, after) => ReadPairs(after, n - 1, members, out[members[i].item.at := v], env)
  }

  /**
   * One field. An indefinite-length array or map is cut before anything is stored. A cut among
   * the elements drops a slice or a map, which are built aside, and leaves a fixed array, which
   * is written in place, with the elements before it.
   */
  function ReadKind(b: bytes, k: Kind, env: Env): (r: Read<Value>)
    requires env.Sound() && env.KnowsKind(k)
    ensures !r.Bad? ==> |r.rest| < |b|
    decreases |b|, 3, 0
  {
    match k
    case Single(e) => ReadElem(b, e, env)
    case Slice(e) =>
      (match ReadCount(b, 4)
       case Bad(x) => Bad(x)
       case Got(None, rest) => Cut(None, rest)
       case Got(Some(n), rest) =>
         match ReadItems(rest, n, e, env)
         case Bad(x) => Bad(x)
         case Cut(_, after) => Cut(None, after)
         case Got(items, after) => Got(List(items), after))
    case FixedArray(e, len) =>
      (match ReadCount(b, 4)
       case Bad(x) => Bad(x)
       case Got(None, rest) => Cut(None, rest)
       case Got(Some(n), rest) =>
         if n > len then Bad(TooMany)
         else AsValue(ReadItems(rest, n, e, env), items => Padded(items, len, e, env)))
    case ByteSlice => AsValue(ReadString(b, 2), s => Blob(s))
    case FixedBytes(len) =>
      (match ReadString(b, 2)
       case Bad(x) => Bad(x)
       case Got(s, rest) => if |s| > len then Bad(TooMany) else Got(Blob(Fill(s, len, 0)), rest))
    case StringMap(e) =>
      (match ReadCount(b, 5)
       case Bad(x) => Bad(x)
       case Got(None, rest) => Cut(None, rest)
       case Got(Some(n), rest) =>
         match ReadEntries(rest, n, e, [], env)
         case Bad(x) => Bad(x)
         case Cut(_, after) => Cut(None, after)
         case Got(entries, after) => Got(Dict(entries), after))
  }

  /** A fixed array that holds these elements and zeroes after them. */
  function Padded(items: seq<Value>, len: nat, e: Elem, env: Env): Value
    requires env.Sound() && env.Knows(e)
  {
    List(if |items| <= len then Fill(items, len, ZeroElem(e, env)) else items)
  }

  function ReadItems(b: bytes, n: nat, e: Elem, env: Env): (r: Read<seq<Value>>)
    requires env.Sound() && env.Knows(e)
    ensures !r.Bad? ==> |r.rest| <= |b|
    ensures r.Got? ==> |r.value| == n
    ensures r.Cut? ==> r.kept.Some? && |r.kept.value| < n
    decreases |b|, 3, n
  {
    if n == 0 then Got([], b)
    else
      match ReadElem(b, e, env)
      case Bad(x) => Bad(x)
      case Cut(_, rest) => Cut(Some([]), rest)
      case Got(v, rest) =>
        match ReadItems(rest, n - 1, e, env)
        case Bad(x) => Bad(x)
        case Cut(more, after) => Cut(Some([v] + more.value), after)
        case Got(more, after) => Got([v] + more, after)
  }

  /** Assigning to a map: in key order, replacing an entry of the same key. */
  function PutEntry(entries: seq<DictEntry>, key: bytes, value: Value): seq<DictEntry> {
    if entries == [] then [DictEntry(key, value)]
    else
      var last := |entries| - 1;
      if entries[last].key == key then entries[..last] + [DictEntry(key, value)]
      else if Less(entries[last].key, key) then entries + [DictEntry(key, value)]
      else PutEntry(entries[..last], key, value) + [entries[last]]
  }

  function ReadEntries(b: bytes, n: nat, e: Elem, got: seq<DictEntry>, env: Env): (r: Read<seq<DictEntry>>)
    requires env.Sound() && env.Knows(e)
    ensures !r.Bad? ==> |r.rest| <= |b|
    decreases |b|, 3, n
  {
    if n == 0 then Got(got, b)
    else
      match ReadString(b, 3)
      case Bad(x) => Bad(x)
      case Got(key, rest) =>
        match ReadElem(rest, e, env)
        case Bad(x) => Bad(x)
        case Cut(_, after) => Cut(None, after)
        case Got(v, after) => ReadEntries(after, n - 1, e, PutEntry(got, key, v), env)
  }

  // --- The primitives, read back ---

  lemma {:induction false} StringReadsBack(major: nat, s: bytes, t: bytes)
    requires major < 8 && |s| < I64
    ensures ReadString(Head(major, |s|) + s + t, major) == Got(s, t)
  {
    HeadRoundTrip(major, |s|, s + t);
    assert Head(major, |s|) + s + t == Head(major, |s|) + (s + t);
    assert (s + t)[..|s|] == s && (s + t)[|s|..] == t;
    hide Head, ReadHead;
  }

  lemma {:induction false} CountReadsBack(major: nat, n: nat, t: bytes)
    requires major < 8 && n < I64
    ensures ReadCount(Head(major, n) + t, major) == Got(Some(n), t)
  {
    HeadRoundTrip(major, n, t);
    hide Head, ReadHead;
  }

  lemma {:induction false} IntReadsBack(n: int, w: Width, signed: bool, t: bytes)
    requires Lowest(w, signed) <= n <= Highest(w, signed)
    ensures -I64 <= n < U64 && ReadInt(AppendInt(n) + t, w, signed) == Got(Int(n), t)
  {
    hide Head, ReadHead;
    if n >= 0 {
      HeadRoundTrip(0, n, t);
    } else {
      HeadRoundTrip(1, -1 - n, t);
    }
  }

  // --- Spellings: byte strings a decoder reads as a value, whatever follows ---

  ghost predicate SpellsElem(body: bytes, e: Elem, v: Value, env: Env)
    requires env.Sound() && env.Knows(e)
  {
    forall s: bytes {:trigger body + s} :: ReadElem(body + s, e, env) == Got(v, s)
  }

  ghost predicate Spells(body: bytes, k: Kind, v: Value, env: Env)
    requires env.Sound() && env.KnowsKind(k)
  {
    forall s: bytes {:trigger body + s} :: ReadKind(body + s, k, env) == Got(v, s)
  }

  lemma {:induction false} SpellsMeans(body: bytes, e: Elem, v: Value, env: Env, s: bytes)
    requires env.Sound() && env.Knows(e) && SpellsElem(body, e, v, env)
    ensures ReadElem(body + s, e, env) == Got(v, s)
  {
  }

  datatype Pair = Pair(key: bytes, body: bytes)

  predicate ShortKeys(ps: seq<Pair>) {
    forall i :: 0 <= i < |ps| ==> |ps[i].key| < I64
  }

  function PairBytes(ps: seq<Pair>): bytes
    requires ShortKeys(ps)
  {
    if ps == [] then [] else TextItem(ps[0].key) + ps[0].body + PairBytes(ps[1..])
  }

  lemma {:induction false} Assoc(a: bytes, b: bytes, c: bytes)
    ensures a + b + c == a + (b + c)
  {
  }

  lemma {:induction false} FirstItem(bodies: seq<bytes>, v: Value, e: Elem, env: Env, s: bytes)
    requires env.Sound() && env.Knows(e) && bodies != [] && SpellsElem(bodies[0], e, v, env)
    ensures ReadElem(Concat(bodies) + s, e, env) == Got(v, Concat(bodies[1..]) + s)
  {
    Assoc(bodies[0], Concat(bodies[1..]), s);
    SpellsMeans(bodies[0], e, v, env, Concat(bodies[1..]) + s);
  }

  lemma {:induction false} ItemsStep(b: bytes, n: nat, v: Value, rest: bytes, more: seq<Value>, s: bytes, e: Elem, env: Env)
    requires env.Sound() && env.Knows(e) && n > 0
    requires ReadElem(b, e, env) == Got(v, rest) && ReadItems(rest, n - 1, e, env) == Got(more, s)
    ensures ReadItems(b, n, e, env) == Got([v] + more, s)
  {
    hide ReadElem;
  }

  lemma {:induction false} ItemsSpell(bodies: seq<bytes>, values: seq<Value>, e: Elem, env: Env, s: bytes)
    requires env.Sound() && env.Knows(e) && |bodies| == |values|
    requires forall i :: 0 <= i < |bodies| ==> SpellsElem(bodies[i], e, values[i], env)
    ensures ReadItems(Concat(bodies) + s, |bodies|, e, env) == Got(values, s)
  {
    if bodies == [] {
      assert [] + s == s;
    } else {
      hide *;
      FirstItem(bodies, values[0], e, env, s);
      ItemsSpell(bodies[1..], values[1..], e, env, s);
      ItemsStep(Concat(bodies) + s, |bodies|, values[0], Concat(bodies[1..]) + s, values[1..], s, e, env);
      assert values == [values[0]] + values[1..];
    }
  }

  /** A counted list of spelled elements spells a slice, and a fixed array when it is not too long. */
  lemma {:induction false} SliceSpells(bodies: seq<bytes>, values: seq<Value>, e: Elem, env: Env)
    requires env.Sound() && env.Knows(e) && |bodies| == |values| < I64
    requires forall i :: 0 <= i < |bodies| ==> SpellsElem(bodies[i], e, values[i], env)
    ensures Spells(Head(4, |bodies|) + Concat(bodies), Slice(e), List(values), env)
    ensures forall n: nat :: |bodies| <= n < I64 ==>
              Spells(Head(4, |bodies|) + Concat(bodies), FixedArray(e, n), List(Fill(values, n, ZeroElem(e, env))), env)
  {
    forall s: bytes
      ensures ReadCount(Head(4, |bodies|) + Concat(bodies) + s, 4) == Got(Some(|bodies|), Concat(bodies) + s)
      ensures ReadItems(Concat(bodies) + s, |bodies|, e, env) == Got(values, s)
    {
      Assoc(Head(4, |bodies|), Concat(bodies), s);
      CountReadsBack(4, |bodies|, Concat(bodies) + s);
      ItemsSpell(bodies, values, e, env, s);
    }
    hide Head, Concat, ReadCount, ReadItems, Fill, ZeroElem;
  }

  /** A fixed array longer than its type is refused, whatever the elements. */
  lemma {:induction false} LongArrayRefused(count: nat, e: Elem, n: nat, env: Env, s: bytes)
    requires env.Sound() && env.Knows(e) && n < count < I64
    ensures ReadKind(Head(4, count) + s, FixedArray(e, n), env) == Bad(TooMany)
  {
    CountReadsBack(4, count, s);
  }

  /** The entries of a map after assigning in document order. */
  function PutAll(got: seq<DictEntry>, more: seq<DictEntry>): seq<DictEntry>
    decreases |more|
  {
    if more == [] then got else PutAll(PutEntry(got, more[0].key, more[0].value), more[1..])
  }

  lemma {:induction false} EntryReads(ps: seq<Pair>, v: Value, e: Elem, got: seq<DictEntry>, env: Env, s: bytes)
    requires env.Sound() && env.Knows(e) && ps != [] && ShortKeys(ps) && SpellsElem(ps[0].body, e, v, env)
    ensures ShortKeys(ps[1..])
    ensures ReadEntries(PairBytes(ps) + s, |ps|, e, got, env) ==
            ReadEntries(PairBytes(ps[1..]) + s, |ps| - 1, e, PutEntry(got, ps[0].key, v), env)
  {
    hide ReadElem, ReadString, PutEntry, Head, PairBytes, SpellsElem;
    var rest := PairBytes(ps[1..]) + s;
    PairSplits(ps, s);
    StringReadsBack(3, ps[0].key, ps[0].body + rest);
    Assoc(Head(3, |ps[0].key|), ps[0].key, ps[0].body + rest);
    SpellsMeans(ps[0].body, e, v, env, rest);
  }

  lemma {:induction false} PutAllStep(got: seq<DictEntry>, more: seq<DictEntry>)
    requires more != []
    ensures PutAll(got, more) == PutAll(PutEntry(got, more[0].key, more[0].value), more[1..])
  {
  }

  /** The entries some pairs with given values make, in document order. */
  function EntriesOf(ps: seq<Pair>, values: seq<Value>): seq<DictEntry>
    requires |ps| == |values|
  {
    seq(|ps|, i requires 0 <= i < |ps| => DictEntry(ps[i].key, values[i]))
  }

  lemma {:induction false} EntriesTail(ps: seq<Pair>, values: seq<Value>)
    requires |ps| == |values| && ps != []
    ensures |EntriesOf(ps, values)| > 0 && EntriesOf(ps, values)[0] == DictEntry(ps[0].key, values[0])
    ensures EntriesOf(ps, values)[1..] == EntriesOf(ps[1..], values[1..])
  {
  }

  lemma {:induction false} NoEntries(e: Elem, got: seq<DictEntry>, env: Env, s: bytes)
    requires env.Sound() && env.Knows(e)
    ensures ShortKeys([]) && EntriesOf([], []) == []
    ensures ReadEntries(PairBytes([]) + s, 0, e, got, env) == Got(PutAll(got, []), s)
  {
    assert [] + s == s;
  }

  lemma {:induction false} EntriesSpell(ps: seq<Pair>, values: seq<Value>, e: Elem, got: seq<DictEntry>, env: Env, s: bytes)
    requires env.Sound() && env.Knows(e) && |ps| == |values| && ShortKeys(ps)
    requires forall i :: 0 <= i < |ps| ==> SpellsElem(ps[i].body, e, values[i], env)
    ensures ReadEntries(PairBytes(ps) + s, |ps|, e, got, env) == Got(PutAll(got, EntriesOf(ps, values)), s)
    decreases |ps|
  {
    hide *;
    if ps == [] {
      NoEntries(e, got, env, s);
    } else {
      EntryReads(ps, values[0], e, got, env, s);
      EntriesSpell(ps[1..], values[1..], e, PutEntry(got, ps[0].key, values[0]), env, s);
      EntriesTail(ps, values);
      PutAllStep(got, EntriesOf(ps, values));
    }
  }

  lemma {:induction false} PairSplits(ps: seq<Pair>, s: bytes)
    requires ps != [] && ShortKeys(ps)
    ensures PairBytes(ps) + s == TextItem(ps[0].key) + (ps[0].body + (PairBytes(ps[1..]) + s))
  {
    Assoc(TextItem(ps[0].key) + ps[0].body, PairBytes(ps[1..]), s);
    Assoc(TextItem(ps[0].key), ps[0].body, PairBytes(ps[1..]) + s);
  }

  /** A counted list of spelled pairs spells a map, its entries assigned in document order. */
  lemma {:induction false} MapSpells(ps: seq<Pair>, values: seq<Value>, e: Elem, env: Env)
    requires env.Sound() && env.Knows(e) && |ps| == |values| < I64 && ShortKeys(ps)
    requires forall i :: 0 <= i < |ps| ==> SpellsElem(ps[i].body, e, values[i], env)
    ensures Spells(Head(5, |ps|) + PairBytes(ps), StringMap(e),
                   Dict(PutAll([], EntriesOf(ps, values))), env)
  {
    hide Head, PairBytes, ReadCount, ReadEntries, PutAll, EntriesOf;
    forall s: bytes
      ensures ReadCount(Head(5, |ps|) + PairBytes(ps) + s, 5) == Got(Some(|ps|), PairBytes(ps) + s)
      ensures ReadEntries(PairBytes(ps) + s, |ps|, e, [], env) ==
              Got(PutAll([], EntriesOf(ps, values)), s)
    {
      Assoc(Head(5, |ps|), PairBytes(ps), s);
      CountReadsBack(5, |ps|, PairBytes(ps) + s);
      EntriesSpell(ps, values, e, [], env, s);
    }
  }

  // --- The structs ---

  /** Spellings of the first members, then whatever follows: those members are assigned. */
  lemma {:induction false} InOrderSpells(bodies: seq<bytes>, members: seq<Entry<Slot>>, fields: seq<Value>, out: seq<Value>,
                                         env: Env, s: bytes)
    requires env.Sound() && Assignable(members, out, env) && |bodies| <= |members| && |fields| == |out|
    requires forall i :: 0 <= i < |bodies| ==> Spells(bodies[i], members[i].item.kind, fields[members[i].item.at], env)
    ensures ReadInOrder(Concat(bodies) + s, members, out, env) ==
            ReadInOrder(s, members[|bodies|..], Assigned(members[..|bodies|], fields, out), env)
    decreases |members|
  {
    if bodies == [] {
      assert [] + s == s && members[..0] == [] && members[0..] == members;
    } else {
      hide *;
      var next := out[members[0].item.at := fields[members[0].item.at]];
      AssignableKept(members, out, next, env);
      FirstInOrder(bodies, members, fields, out, env, s);
      InOrderSpells(bodies[1..], members[1..], fields, next, env, s);
      AssignedStep(members[0], members[1..|bodies|], fields, out);
      assert members[..|bodies|] == [members[0]] + members[1..|bodies|];
      assert members[1..][..|bodies| - 1] == members[1..|bodies|] && members[1..][|bodies| - 1..] == members[|bodies|..];
    }
  }

  lemma {:induction false} FirstInOrder(bodies: seq<bytes>, members: seq<Entry<Slot>>, fields: seq<Value>, out: seq<Value>,
                                        env: Env, s: bytes)
    requires env.Sound() && Assignable(members, out, env) && bodies != [] && members != [] && |fields| == |out|
    requires env.KnowsKind(members[0].item.kind) && members[0].item.at < |fields|
    requires Spells(bodies[0], members[0].item.kind, fields[members[0].item.at], env)
    ensures Assignable(members[1..], out[members[0].item.at := fields[members[0].item.at]], env)
    ensures forall i :: 0 <= i < |members| ==> members[i].item.at < |out|
    ensures ReadInOrder(Concat(bodies) + s, members, out, env) ==
            ReadInOrder(Concat(bodies[1..]) + s, members[1..], out[members[0].item.at := fields[members[0].item.at]], env)
  {
    hide ReadKind;
    var rest := Concat(bodies[1..]) + s;
    Assoc(bodies[0], Concat(bodies[1..]), s);
    assert ReadKind(bodies[0] + rest, members[0].item.kind, env) == Got(fields[members[0].item.at], rest);
  }

  /** The fields some members assign. */
  function Assigned(members: seq<Entry<Slot>>, fields: seq<Value>, out: seq<Value>): (r: seq<Value>)
    requires |fields| == |out| && forall i :: 0 <= i < |members| ==> members[i].item.at < |out|
    ensures |r| == |out|
    decreases |members|
  {
    if members == [] then out
    else Assigned(members[1..], fields, out[members[0].item.at := fields[members[0].item.at]])
  }

  lemma {:induction false} AssignedIs(members: seq<Entry<Slot>>, fields: seq<Value>, out: seq<Value>, j: nat)
    requires |fields| == |out| && j < |out| && forall i :: 0 <= i < |members| ==> members[i].item.at < |out|
    ensures Assigned(members, fields, out)[j] ==
            if exists i :: 0 <= i < |members| && members[i].item.at == j then fields[j] else out[j]
    decreases |members|
  {
    if members != [] {
      var next := out[members[0].item.at := fields[members[0].item.at]];
      AssignedIs(members[1..], fields, next, j);
      if i :| 0 <= i < |members| && members[i].item.at == j {
        assert i > 0 ==> members[1..][i - 1].item.at == j;
      }
    }
  }

  /** Every field belongs to some member. */
  lemma {:induction false} FieldHasMember(env: Env, name: string, j: nat) returns (i: nat)
    requires name in env.defs && j < |env.defs[name]|
    ensures i < |Members(env, name)| && Members(env, name)[i].item.at == j
  {
    MembersAre(env, name);
    var m := Declared(env.defs[name])[j];
    assert m in Members(env, name);
    i :| 0 <= i < |Members(env, name)| && Members(env, name)[i] == m;
  }

  lemma {:induction false} ReadsArrayStruct(b: bytes, rest: bytes, name: string, env: Env)
    requires env.Sound() && !env.asMap && name in env.defs
    requires ReadCount(b, 4) == Got(Some(|Members(env, name)|), rest) && |rest| < |b|
    ensures Assignable(Members(env, name), ZeroFields(name, env), env)
    ensures ReadElem(b, StructElem(name), env) == ReadInOrder(rest, Members(env, name), ZeroFields(name, env), env)
  {
    MembersAssign(env, name);
    hide ReadCount, Members, ZeroFields, ReadInOrder;
  }

  lemma {:induction false} ReadsMapStruct(b: bytes, n: nat, rest: bytes, name: string, env: Env)
    requires env.Sound() && env.asMap && name in env.defs
    requires ReadCount(b, 5) == Got(Some(n), rest) && |rest| < |b|
    ensures Assignable(Members(env, name), ZeroFields(name, env), env)
    ensures ReadElem(b, StructElem(name), env) == ReadPairs(rest, n, Members(env, name), ZeroFields(name, env), env)
  {
    MembersAssign(env, name);
    hide ReadCount, Members, ZeroFields, ReadPairs;
  }

  predicate Assigns(members: seq<Entry<Slot>>, at: nat) {
    exists j :: 0 <= j < |members| && members[j].item.at == at
  }

  /** Assigning every member gives every field. */
  lemma {:induction false} AllAssigned(members: seq<Entry<Slot>>, name: string, fields: seq<Value>, zero: seq<Value>, env: Env)
    requires name in env.defs && |fields| == |zero| == |env.defs[name]|
    requires forall i :: 0 <= i < |members| ==> members[i].item.at < |zero|
    requires forall i :: 0 <= i < |Members(env, name)| ==> Assigns(members, Members(env, name)[i].item.at)
    ensures Assigned(members, fields, zero) == fields
  {
    forall j | 0 <= j < |fields| ensures Assigned(members, fields, zero)[j] == fields[j] {
      AssignedIs(members, fields, zero, j);
      var i := FieldHasMember(env, name, j);
      assert Assigns(members, Members(env, name)[i].item.at);
    }
  }

  lemma {:induction false} NoneInOrder(out: seq<Value>, env: Env, s: bytes)
    requires env.Sound()
    ensures ReadInOrder(s, [], out, env) == Got(Rec(out), s)
  {
  }

  /** The array shape: the members' spellings in order. */
  lemma {:induction false} ArrayStructSpells(bodies: seq<bytes>, name: string, fields: seq<Value>, env: Env)
    requires env.Sound() && !env.asMap && name in env.defs && |fields| == |env.defs[name]|
    requires |bodies| == |Members(env, name)| && Assignable(Members(env, name), fields, env)
    requires forall i :: 0 <= i < |bodies| ==>
               Spells(bodies[i], Members(env, name)[i].item.kind, fields[Members(env, name)[i].item.at], env)
    ensures |bodies| < I64 && SpellsElem(Head(4, |bodies|) + Concat(bodies), StructElem(name), Rec(fields), env)
  {
    var members, zero := Members(env, name), ZeroFields(name, env);
    MembersAre(env, name);
    MembersAssign(env, name);
    assert forall i :: 0 <= i < |members| ==> Assigns(members, members[i].item.at);
    AllAssigned(members, name, fields, zero, env);
    hide Head, Concat, ReadCount, ReadInOrder, Members, ZeroFields, ReadElem, Spells;
    forall s: bytes
      ensures ReadElem(Head(4, |bodies|) + Concat(bodies) + s, StructElem(name), env) == Got(Rec(fields), s)
    {
      Assoc(Head(4, |bodies|), Concat(bodies), s);
      CountReadsBack(4, |bodies|, Concat(bodies) + s);
      ReadsArrayStruct(Head(4, |bodies|) + Concat(bodies) + s, Concat(bodies) + s, name, env);
      InOrderSpells(bodies, members, fields, zero, env, s);
      NoneInOrder(fields, env, s);
      assert members[|members|..] == [] && members[..|members|] == members;
    }
  }

  // --- The map shape: any arrangement, among unknown keys ---

  /** A pair of a struct's map: a member's spelling, or an unknown key and some well-formed item. */
  ghost predicate PairFits(p: Pair, members: seq<Entry<Slot>>, fields: seq<Value>, env: Env)
    requires env.Sound() && Assignable(members, fields, env)
  {
    var i := KeyIndex(members, p.key);
    if i < 0 then Skip(p.body) == Some([])
    else Spells(p.body, members[i].item.kind, fields[members[i].item.at], env)
  }

  /** The members some pairs name, in document order. */
  function Named(ps: seq<Pair>, members: seq<Entry<Slot>>): (r: seq<Entry<Slot>>)
    ensures forall i :: 0 <= i < |r| ==> r[i] in members
    decreases |ps|
  {
    if ps == [] then []
    else
      var i := KeyIndex(members, ps[0].key);
      (if i < 0 then [] else [members[i]]) + Named(ps[1..], members)
  }

  lemma {:induction false} UnknownPair(ps: seq<Pair>, n: nat, members: seq<Entry<Slot>>, fields: seq<Value>, out: seq<Value>,
                                       env: Env, s: bytes)
    requires env.Sound() && Assignable(members, out, env) && |fields| == |out| && ps != [] && ShortKeys(ps) && n > 0
    requires KeyIndex(members, ps[0].key) < 0 && PairFits(ps[0], members, fields, env)
    ensures ReadPairs(PairBytes(ps) + s, n, members, out, env) ==
            ReadPairs(PairBytes(ps[1..]) + s, n - 1, members, out, env)
  {
    hide Head, PairBytes, ReadString, Skip, ReadKind, KeyIndex;
    var p, rest := ps[0], PairBytes(ps[1..]) + s;
    PairSplits(ps, s);
    StringReadsBack(3, p.key, p.body + rest);
    SkipExtends(p.body, rest);
    assert [] + rest == rest;
    Assoc(Head(3, |p.key|), p.key, p.body + rest);
  }

  lemma {:induction false} KnownPair(ps: seq<Pair>, n: nat, members: seq<Entry<Slot>>, fields: seq<Value>, out: seq<Value>,
                                     env: Env, s: bytes)
    requires env.Sound() && Assignable(members, out, env) && |fields| == |out| && ps != [] && ShortKeys(ps) && n > 0
    requires KeyIndex(members, ps[0].key) >= 0 && PairFits(ps[0], members, fields, env)
    ensures var m := members[KeyIndex(members, ps[0].key)].item;
            ReadPairs(PairBytes(ps) + s, n, members, out, env) ==
            ReadPairs(PairBytes(ps[1..]) + s, n - 1, members, out[m.at := fields[m.at]], env)
  {
    hide Head, PairBytes, ReadString, Skip, ReadKind, KeyIndex;
    var p, rest := ps[0], PairBytes(ps[1..]) + s;
    var m := members[KeyIndex(members, p.key)].item;
    PairSplits(ps, s);
    StringReadsBack(3, p.key, p.body + rest);
    assert ReadKind(p.body + rest, m.kind, env) == Got(fields[m.at], rest);
  }

  lemma {:induction false} NamedSteps(ps: seq<Pair>, members: seq<Entry<Slot>>)
    requires ps != []
    ensures var i := KeyIndex(members, ps[0].key);
            if i < 0 then Named(ps, members) == Named(ps[1..], members)
            else Named(ps, members) == [members[i]] + Named(ps[1..], members)
                 && Named(ps, members)[1..] == Named(ps[1..], members)
  {
  }

  /** Pairs that fit, then whatever follows: the members they name are assigned. */
  lemma {:induction false} PairsSpell(ps: seq<Pair>, n: nat, members: seq<Entry<Slot>>, fields: seq<Value>, out: seq<Value>,
                                      env: Env, s: bytes)
    requires env.Sound() && Assignable(members, out, env) && |fields| == |out| && ShortKeys(ps) && n >= |ps|
    requires forall i :: 0 <= i < |ps| ==> PairFits(ps[i], members, fields, env)
    ensures forall i :: 0 <= i < |Named(ps, members)| ==> Named(ps, members)[i].item.at < |out|
    ensures Assignable(members, Assigned(Named(ps, members), fields, out), env)
    ensures ReadPairs(PairBytes(ps) + s, n, members, out, env) ==
            ReadPairs(s, n - |ps|, members, Assigned(Named(ps, members), fields, out), env)
    decreases |ps|
  {
    hide *;
    if ps == [] {
      NoPairs(members, fields, out, env, s);
    } else {
      NamedSteps(ps, members);
      AssignableKept(members, out, fields, env);
      FirstPair(ps, members, fields, env);
      var i, more := KeyIndex(members, ps[0].key), Named(ps[1..], members);
      if i < 0 {
        UnknownPair(ps, n, members, fields, out, env, s);
        PairsSpell(ps[1..], n - 1, members, fields, out, env, s);
      } else {
        var next := out[members[i].item.at := fields[members[i].item.at]];
        KnownPair(ps, n, members, fields, out, env, s);
        AssignableKept(members, out, next, env);
        PairsSpell(ps[1..], n - 1, members, fields, next, env, s);
        AssignedStep(members[i], more, fields, out);
      }
    }
  }

  lemma {:induction false} NoPairs(members: seq<Entry<Slot>>, fields: seq<Value>, out: seq<Value>, env: Env, s: bytes)
    requires env.Sound() && Assignable(members, out, env) && |fields| == |out|
    ensures ShortKeys([]) && Named([], members) == [] && PairBytes([]) + s == s
    ensures ReadPairs(s, 0, members, out, env) == Got(Rec(out), s) && Assigned([], fields, out) == out
  {
  }

  lemma {:induction false} FirstPair(ps: seq<Pair>, members: seq<Entry<Slot>>, fields: seq<Value>, env: Env)
    requires env.Sound() && Assignable(members, fields, env) && ps != [] && ShortKeys(ps)
    ensures ShortKeys(ps[1..])
    ensures forall i :: 0 <= i < |members| ==> members[i].item.at < |fields|
  {
  }

  lemma {:induction false} AssignableKept(members: seq<Entry<Slot>>, out: seq<Value>, next: seq<Value>, env: Env)
    requires Assignable(members, out, env) && |next| == |out|
    ensures Assignable(members, next, env)
  {
  }

  lemma {:induction false} AssignedStep(m: Entry<Slot>, more: seq<Entry<Slot>>, fields: seq<Value>, out: seq<Value>)
    requires |fields| == |out| && m.item.at < |out| && forall i :: 0 <= i < |more| ==> more[i].item.at < |out|
    ensures forall i :: 0 <= i < |[m] + more| ==> ([m] + more)[i].item.at < |out|
    ensures Assigned([m] + more, fields, out) == Assigned(more, fields, out[m.item.at := fields[m.item.at]])
  {
    assert ([m] + more)[1..] == more;
  }

  /** Some pair names the member. */
  predicate Given(ps: seq<Pair>, members: seq<Entry<Slot>>, m: nat) {
    exists i :: 0 <= i < |ps| && KeyIndex(members, ps[i].key) == m
  }

  lemma {:induction false} NamedIs(ps: seq<Pair>, members: seq<Entry<Slot>>, i: nat)
    requires i < |ps| && KeyIndex(members, ps[i].key) >= 0
    ensures members[KeyIndex(members, ps[i].key)] in Named(ps, members)
    decreases |ps|
  {
    if i > 0 {
      NamedIs(ps[1..], members, i - 1);
    }
  }

  /**
   * The map shape reads a struct from its pairs in any order, with any well-formed items under
   * unknown keys between them, and consumes exactly the map.
   */
  lemma {:induction false} MapStructSpells(ps: seq<Pair>, name: string, fields: seq<Value>, env: Env)
    requires env.Sound() && env.asMap && name in env.defs && |fields| == |env.defs[name]|
    requires |ps| < I64 && ShortKeys(ps) && Assignable(Members(env, name), fields, env)
    requires forall i :: 0 <= i < |ps| ==> PairFits(ps[i], Members(env, name), fields, env)
    requires forall m :: 0 <= m < |Members(env, name)| ==> Given(ps, Members(env, name), m)
    ensures SpellsElem(Head(5, |ps|) + PairBytes(ps), StructElem(name), Rec(fields), env)
  {
    var members, zero := Members(env, name), ZeroFields(name, env);
    MembersAssign(env, name);
    var named := Named(ps, members);
    PairsSpell(ps, |ps|, members, fields, zero, env, []);
    forall m | 0 <= m < |members|
      ensures Assigns(named, members[m].item.at)
    {
      assert Given(ps, members, m);
      var i :| 0 <= i < |ps| && KeyIndex(members, ps[i].key) == m;
      NamedIs(ps, members, i);
    }
    AllAssigned(named, name, fields, zero, env);
    hide Head, PairBytes, ReadCount, ReadPairs, Members, ZeroFields, ReadElem, Spells, PairFits, KeyIndex;
    forall s: bytes
      ensures ReadElem(Head(5, |ps|) + PairBytes(ps) + s, StructElem(name), env) == Got(Rec(fields), s)
    {
      Assoc(Head(5, |ps|), PairBytes(ps), s);
      CountReadsBack(5, |ps|, PairBytes(ps) + s);
      ReadsMapStruct(Head(5, |ps|) + PairBytes(ps) + s, |ps|, PairBytes(ps) + s, name, env);
      PairsSpell(ps, |ps|, members, fields, zero, env, s);
      NoPairs(members, fields, fields, env, s);
    }
  }

  // --- Decoding undoes encoding ---

  function ElemBodies(v: Value, e: Elem, env: Env): seq<bytes>
    requires env.Sound() && v.List? && forall i :: 0 <= i < |v.items| ==> HasElem(v.items[i], e, env)
  {
    seq(|v.items|, i requires 0 <= i < |v.items| => AppendElem(v.items[i], e, env))
  }

  lemma {:induction false} ItemsJoin(v: Value, e: Elem, i: nat, env: Env)
    requires env.Sound() && v.List? && i <= |v.items|
    requires forall j :: 0 <= j < |v.items| ==> HasElem(v.items[j], e, env)
    ensures AppendItems(v, e, i, env) == Concat(ElemBodies(v, e, env)[i..])
    decreases |v.items| - i
  {
    hide AppendElem, HasElem;
    var all := ElemBodies(v, e, env);
    if i < |v.items| {
      ItemsJoin(v, e, i + 1, env);
      assert all[i..][0] == AppendElem(v.items[i], e, env) && all[i..][1..] == all[i + 1..];
    }
  }

  function EntryPairs(v: Value, e: Elem, env: Env): (r: seq<Pair>)
    requires env.Sound() && v.Dict?
    requires forall j :: 0 <= j < |v.entries| ==> |v.entries[j].key| < I64 && HasElem(v.entries[j].value, e, env)
    ensures ShortKeys(r)
  {
    seq(|v.entries|, i requires 0 <= i < |v.entries| => Pair(v.entries[i].key, AppendElem(v.entries[i].value, e, env)))
  }

  lemma {:induction false} EntriesJoin(v: Value, e: Elem, i: nat, env: Env)
    requires env.Sound() && v.Dict? && i <= |v.entries|
    requires forall j :: 0 <= j < |v.entries| ==> |v.entries[j].key| < I64 && HasElem(v.entries[j].value, e, env)
    ensures ShortKeys(EntryPairs(v, e, env)[i..])
    ensures AppendEntries(v, e, i, env) == PairBytes(EntryPairs(v, e, env)[i..])
    decreases |v.entries| - i
  {
    hide AppendElem, HasElem, TextItem;
    var all := EntryPairs(v, e, env);
    if i < |v.entries| {
      EntriesJoin(v, e, i + 1, env);
      assert all[i..][0] == Pair(v.entries[i].key, AppendElem(v.entries[i].value, e, env)) && all[i..][1..] == all[i + 1..];
    }
  }

  lemma {:induction false} PutAscending(got: seq<DictEntry>, more: seq<DictEntry>)
    requires KeysAscend(got + more)
    ensures PutAll(got, more) == got + more
    decreases |more|
  {
    if more == [] {
      assert got + more == got;
    } else {
      var all := got + more;
      if got != [] {
        assert all[|got| - 1] == got[|got| - 1] && all[|got|] == more[0];
        LessTotal(got[|got| - 1].key, more[0].key);
      }
      assert PutEntry(got, more[0].key, more[0].value) == got + [more[0]];
      assert (got + [more[0]]) + more[1..] == all;
      PutAscending(got + [more[0]], more[1..]);
    }
  }

  function MemberBody(v: Value, m: Entry<Slot>, env: Env): bytes
    requires env.Sound() && v.Rec? && m.item.at < |v.fields| && HasKind(v.fields[m.item.at], m.item.kind, env)
  {
    AppendKind(v.fields[m.item.at], m.item.kind, env)
  }

  function MemberBodies(v: Value, members: seq<Entry<Slot>>, env: Env): seq<bytes>
    requires env.Sound() && Fits(v, members, env)
  {
    seq(|members|, i requires 0 <= i < |members| => MemberBody(v, members[i], env))
  }

  function MemberPairs(v: Value, members: seq<Entry<Slot>>, env: Env): (r: seq<Pair>)
    requires env.Sound() && Fits(v, members, env)
    ensures ShortKeys(r)
  {
    seq(|members|, i requires 0 <= i < |members| => Pair(members[i].name, MemberBody(v, members[i], env)))
  }

  lemma {:induction false} PairsTail(v: Value, members: seq<Entry<Slot>>, env: Env)
    requires env.Sound() && Fits(v, members, env) && members != []
    ensures MemberPairs(v, members, env) != [] && MemberBodies(v, members, env) != []
    ensures MemberPairs(v, members, env)[0] == Pair(members[0].name, MemberBody(v, members[0], env))
    ensures MemberPairs(v, members, env)[1..] == MemberPairs(v, members[1..], env)
    ensures MemberBodies(v, members, env)[0] == MemberBody(v, members[0], env)
    ensures MemberBodies(v, members, env)[1..] == MemberBodies(v, members[1..], env)
  {
    hide MemberBody, HasKind;
  }

  lemma {:induction false} NoMembers(v: Value, env: Env)
    requires env.Sound() && Fits(v, [], env)
    ensures AppendMembers(v, [], env) == [] && PairBytes(MemberPairs(v, [], env)) == [] && Concat(MemberBodies(v, [], env)) == []
  {
  }

  lemma {:induction false} FirstMember(v: Value, members: seq<Entry<Slot>>, env: Env)
    requires env.Sound() && Fits(v, members, env) && members != []
    ensures v.Rec? && members[0].item.at < |v.fields| && HasKind(v.fields[members[0].item.at], members[0].item.kind, env)
    ensures Fits(v, members[1..], env) && |members[0].name| < I64
    ensures AppendMembers(v, members, env) ==
            if env.asMap then TextItem(members[0].name) + MemberBody(v, members[0], env) + AppendMembers(v, members[1..], env)
            else MemberBody(v, members[0], env) + AppendMembers(v, members[1..], env)
  {
    hide AppendKind, HasKind, TextItem;
    assert [] + MemberBody(v, members[0], env) == MemberBody(v, members[0], env);
  }

  lemma {:induction false} PairBytesStep(ps: seq<Pair>)
    requires ShortKeys(ps) && ps != []
    ensures ShortKeys(ps[1..]) && |ps[0].key| < I64
    ensures PairBytes(ps) == TextItem(ps[0].key) + ps[0].body + PairBytes(ps[1..])
  {
  }

  lemma {:induction false} JoinStep(bodies: seq<bytes>)
    requires bodies != []
    ensures Concat(bodies) == bodies[0] + Concat(bodies[1..])
  {
  }

  lemma {:induction false} MembersJoin(v: Value, members: seq<Entry<Slot>>, env: Env)
    requires env.Sound() && Fits(v, members, env)
    ensures AppendMembers(v, members, env) ==
            if env.asMap then PairBytes(MemberPairs(v, members, env)) else Concat(MemberBodies(v, members, env))
    decreases |members|
  {
    hide *;
    if members == [] {
      NoMembers(v, env);
    } else {
      FirstMember(v, members, env);
      PairsTail(v, members, env);
      MembersJoin(v, members[1..], env);
      PairBytesStep(MemberPairs(v, members, env));
      JoinStep(MemberBodies(v, members, env));
    }
  }

  lemma {:induction false} ScalarRoundTrip(v: Value, e: Elem, env: Env, s: bytes)
    requires env.Sound() && HasElem(v, e, env) && !e.StructElem?
    ensures ReadElem(AppendElem(v, e, env) + s, e, env) == Got(v, s)
  {
    match e
    case StringElem => StringReadsBack(3, v.text, s);
    case IntElem(w, signed) => IntReadsBack(v.n, w, signed, s);
    case WordElem(signed) => IntReadsBack(v.n, W64, signed, s);
    case BoolElem => assert (AppendElem(v, e, env) + s)[1..] == s;
    case FloatElem =>
      var b := [0xFB] + v.bits + s;
      assert b[1..9] == v.bits && b[9..] == s;
    case StructElem(_) =>
  }

  lemma {:induction false} ElemRoundTrip(v: Value, e: Elem, env: Env)
    requires env.Sound() && env.Knows(e) && HasElem(v, e, env) && (env.asMap ==> env.Unique())
    ensures SpellsElem(AppendElem(v, e, env), e, v, env)
    decreases v, 1
  {
    if e.StructElem? {
      StructRoundTrip(v, e.name, env);
    } else {
      forall s: bytes ensures ReadElem(AppendElem(v, e, env) + s, e, env) == Got(v, s) {
        ScalarRoundTrip(v, e, env, s);
      }
    }
  }

  lemma {:induction false} StructRoundTrip(v: Value, name: string, env: Env)
    requires env.Sound() && HasElem(v, StructElem(name), env) && (env.asMap ==> env.Unique())
    ensures SpellsElem(AppendElem(v, StructElem(name), env), StructElem(name), v, env)
    decreases v, 0
  {
    var members := Members(env, name);
    MembersFit(v, name, env);
    MembersJoin(v, members, env);
    AssignableKept(members, v.fields, v.fields, env);
    forall i | 0 <= i < |members|
      ensures Spells(MemberBody(v, members[i], env), members[i].item.kind, v.fields[members[i].item.at], env)
    {
      KindRoundTrip(v.fields[members[i].item.at], members[i].item.kind, env);
    }
    if env.asMap {
      var ps := MemberPairs(v, members, env);
      MembersAre(env, name);
      forall i | 0 <= i < |members| ensures KeyIndex(members, ps[i].key) == i && Given(ps, members, i) {
        OwnKey(env, name, i);
      }
      MapStructSpells(ps, name, v.fields, env);
    } else {
      ArrayStructSpells(MemberBodies(v, members, env), name, v.fields, env);
    }
  }

  /** With distinct names a member's own key leads to it. */
  lemma {:induction false} OwnKey(env: Env, name: string, i: nat)
    requires env.Unique() && env.asMap && name in env.defs && i < |Members(env, name)|
    ensures KeyIndex(Members(env, name), Members(env, name)[i].name) == i
  {
    var d := Declared(env.defs[name]);
    SortPermutes(d);
    DistinctPermutation(d, Sorted(d));
  }

  lemma {:induction false} ItemsRoundTrip(v: Value, e: Elem, env: Env)
    requires env.Sound() && env.Knows(e) && (env.asMap ==> env.Unique())
    requires v.List? && |v.items| < I64 && forall i :: 0 <= i < |v.items| ==> HasElem(v.items[i], e, env)
    ensures Spells(Head(4, |v.items|) + AppendItems(v, e, 0, env), Slice(e), v, env)
    ensures Spells(Head(4, |v.items|) + AppendItems(v, e, 0, env), FixedArray(e, |v.items|), v, env)
    decreases v, 0
  {
    var bodies := ElemBodies(v, e, env);
    forall i | 0 <= i < |bodies| ensures SpellsElem(bodies[i], e, v.items[i], env) {
      ElemRoundTrip(v.items[i], e, env);
    }
    hide HasElem, SpellsElem, Spells, AppendElem, Concat, AppendItems, Head;
    ItemsJoin(v, e, 0, env);
    assert bodies[0..] == bodies;
    SliceSpells(bodies, v.items, e, env);
    assert Fill(v.items, |v.items|, ZeroElem(e, env)) == v.items;
  }

  lemma {:induction false} DictRoundTrip(v: Value, e: Elem, env: Env)
    requires env.Sound() && env.Knows(e) && (env.asMap ==> env.Unique()) && HasKind(v, StringMap(e), env)
    ensures Spells(Head(5, |v.entries|) + AppendEntries(v, e, 0, env), StringMap(e), v, env)
    decreases v, 0
  {
    hide HasElem, SpellsElem, Spells, AppendElem, PairBytes, AppendEntries, Head, PutAll, Less, ReadElem, ReadKind;
    var ps, values := EntryPairs(v, e, env), seq(|v.entries|, i requires 0 <= i < |v.entries| => v.entries[i].value);
    forall i | 0 <= i < |ps| ensures SpellsElem(ps[i].body, e, values[i], env) {
      ElemRoundTrip(v.entries[i].value, e, env);
    }
    EntriesJoin(v, e, 0, env);
    assert ps[0..] == ps;
    MapSpells(ps, values, e, env);
    assert [] + v.entries == v.entries;
    PutAscending([], v.entries);
    assert EntriesOf(ps, values) == v.entries;
  }

  lemma {:induction false} KindRoundTrip(v: Value, k: Kind, env: Env)
    requires env.Sound() && env.KnowsKind(k) && HasKind(v, k, env) && (env.asMap ==> env.Unique())
    ensures Spells(AppendKind(v, k, env), k, v, env)
    decreases v, 2
  {
    match k {
      case Single(e) =>
        ElemRoundTrip(v, e, env);
      case Slice(e) =>
        ItemsRoundTrip(v, e, env);
      case FixedArray(e, n) =>
        ItemsRoundTrip(v, e, env);
        assert Fill(v.items, n, ZeroElem(e, env)) == v.items;
      case StringMap(e) =>
        DictRoundTrip(v, e, env);
      case ByteSlice =>
        forall s: bytes {
          StringReadsBack(2, v.data, s);
        }
      case FixedBytes(n) =>
        assert Fill(v.data, n, 0) == v.data;
        forall s: bytes {
          StringReadsBack(2, v.data, s);
        }
    }
  }

  /** Decoding an encoded struct gives it back and leaves exactly what followed, in either shape. */
  lemma {:induction false} RoundTrip(v: Value, name: string, env: Env, s: bytes)
    requires env.Sound() && HasElem(v, StructElem(name), env) && (env.asMap ==> env.Unique())
    ensures ReadStruct(AppendElem(v, StructElem(name), env) + s, name, env) == Got(v, s)
  {
    StructRoundTrip(v, name, env);
    SpellsMeans(AppendElem(v, StructElem(name), env), StructElem(name), v, env, s);
  }

  /** A value's own pairs in any order, with any unknown ones among them, decode to the value. */
  lemma {:induction false} AnyArrangement(v: Value, name: string, ps: seq<Pair>, env: Env, s: bytes)
    requires env.Sound() && env.asMap && env.Unique() && HasElem(v, StructElem(name), env)
    requires Fits(v, Members(env, name), env) && |ps| < I64 && ShortKeys(ps)
    requires var own := MemberPairs(v, Members(env, name), env);
             && (forall i :: 0 <= i < |own| ==> own[i] in ps)
             && (forall i :: 0 <= i < |ps| ==>
                   ps[i] in own || (KeyIndex(Members(env, name), ps[i].key) < 0 && Skip(ps[i].body) == Some([])))
    ensures ReadStruct(Head(5, |ps|) + PairBytes(ps) + s, name, env) == Got(v, s)
  {
    var members := Members(env, name);
    var own := MemberPairs(v, members, env);
    MembersFit(v, name, env);
    AssignableKept(members, v.fields, v.fields, env);
    forall i | 0 <= i < |ps| ensures PairFits(ps[i], members, v.fields, env) {
      if ps[i] in own {
        var j :| 0 <= j < |own| && own[j] == ps[i];
        OwnKey(env, name, j);
        KindRoundTrip(v.fields[members[j].item.at], members[j].item.kind, env);
      }
    }
    forall m | 0 <= m < |members| ensures Given(ps, members, m) {
      assert own[m] in ps;
      var i :| 0 <= i < |ps| && ps[i] == own[m];
      OwnKey(env, name, m);
      assert KeyIndex(members, ps[i].key) == m;
    }
    MapStructSpells(ps, name, v.fields, env);
    SpellsMeans(Head(5, |ps|) + PairBytes(ps), StructElem(name), v, env, s);
  }

  // --- Declaration order does not show in the map shape ---

  ghost function BodyOf(v: Value, env: Env): Slot -> bytes
    requires env.Sound() && v.Rec?
  {
    (m: Slot) => if m.at < |v.fields| && HasKind(v.fields[m.at], m.kind, env) then AppendKind(v.fields[m.at], m.kind, env) else []
  }

  function EntryBytes(entries: seq<Entry<bytes>>): bytes
    requires forall i :: 0 <= i < |entries| ==> |entries[i].name| < I64
  {
    if entries == [] then [] else TextItem(entries[0].name) + entries[0].item + EntryBytes(entries[1..])
  }

  lemma {:induction false} BodyIs(v: Value, m: Entry<Slot>, env: Env)
    requires env.Sound() && v.Rec? && m.item.at < |v.fields| && HasKind(v.fields[m.item.at], m.item.kind, env)
    ensures BodyOf(v, env)(m.item) == MemberBody(v, m, env)
  {
  }

  lemma {:induction false} MappedTail(members: seq<Entry<Slot>>, f: Slot -> bytes)
    requires members != []
    ensures |Mapped(members, f)| == |members| && Mapped(members, f)[0] == Entry(members[0].name, f(members[0].item))
    ensures Mapped(members, f)[1..] == Mapped(members[1..], f)
  {
  }

  lemma {:induction false} EntryBytesStep(entries: seq<Entry<bytes>>)
    requires entries != [] && |entries[0].name| < I64
    requires forall i :: 0 <= i < |entries[1..]| ==> |entries[1..][i].name| < I64
    ensures forall i :: 0 <= i < |entries| ==> |entries[i].name| < I64
    ensures EntryBytes(entries) == TextItem(entries[0].name) + entries[0].item + EntryBytes(entries[1..])
  {
    hide EntryBytes, TextItem;
    assert forall i :: 1 <= i < |entries| ==> entries[i] == entries[1..][i - 1];
    EntryBytesUnfolds(entries);
  }

  lemma {:induction false} EntryBytesUnfolds(entries: seq<Entry<bytes>>)
    requires entries != [] && forall i :: 0 <= i < |entries| ==> |entries[i].name| < I64
    ensures EntryBytes(entries) == TextItem(entries[0].name) + entries[0].item + EntryBytes(entries[1..])
  {
  }

  lemma {:induction false} MembersAsEntries(v: Value, members: seq<Entry<Slot>>, env: Env)
    requires env.Sound() && env.asMap && Fits(v, members, env)
    ensures forall i :: 0 <= i < |Mapped(members, BodyOf(v, env))| ==> |Mapped(members, BodyOf(v, env))[i].name| < I64
    ensures AppendMembers(v, members, env) == EntryBytes(Mapped(members, BodyOf(v, env)))
    decreases |members|
  {
    if members == [] {
      NoMembers(v, env);
    } else {
      hide *;
      FirstMember(v, members, env);
      MembersAsEntries(v, members[1..], env);
      BodyIs(v, members[0], env);
      MappedTail(members, BodyOf(v, env));
      EntryBytesStep(Mapped(members, BodyOf(v, env)));
    }
  }

  /** Two structs whose fields have the same names and encodings, however declared, encode alike. */
  lemma {:induction false} DeclarationOrder(v: Value, name: string, env: Env, w: Value, other: string, env2: Env)
    requires env.Sound() && env.asMap && HasElem(v, StructElem(name), env)
    requires env2.Sound() && env2.asMap && HasElem(w, StructElem(other), env2)
    requires DistinctNames(Declared(env.defs[name]))
    requires multiset(Mapped(Declared(env.defs[name]), BodyOf(v, env))) ==
             multiset(Mapped(Declared(env2.defs[other]), BodyOf(w, env2)))
    ensures AppendElem(v, StructElem(name), env) == AppendElem(w, StructElem(other), env2)
  {
    var a, b := Declared(env.defs[name]), Declared(env2.defs[other]);
    var f, g := BodyOf(v, env), BodyOf(w, env2);
    SortMapped(a, f);
    SortMapped(b, g);
    SortIgnoresOrder(Mapped(a, f), Mapped(b, g));
    assert |a| == |multiset(Mapped(a, f))| && |b| == |multiset(Mapped(b, g))|;
    MembersFit(v, name, env);
    MembersFit(w, other, env2);
    MembersAsEntries(v, Members(env, name), env);
    MembersAsEntries(w, Members(env2, other), env2);
    MembersAre(env, name);
    MembersAre(env2, other);
    hide HasKind, AppendMembers, EntryBytes, Sorted, Mapped, Head;
  }

  // --- Where the code does less than its callers may expect ---

  /** When two members share a name one of them is never assigned, whatever the document. */
  lemma {:induction false} SharedNameLost(b: bytes, n: nat, members: seq<Entry<Slot>>, out: seq<Value>, env: Env, o: nat)
    requires env.Sound() && Assignable(members, out, env) && o < |members|
    requires KeyIndex(members, members[o].name) != o
    requires forall i, j :: 0 <= i < |members| && 0 <= j < |members| && members[i].item.at == members[j].item.at ==> i == j
    ensures var r := ReadPairs(b, n, members, out, env);
            r.Got? ==> r.value.Rec? && |r.value.fields| == |out| && r.value.fields[members[o].item.at] == out[members[o].item.at]
    decreases n
  {
    hide ReadKind, ReadString, Skip, KeyIndex;
    if n > 0 && ReadString(b, 3).Got? {
      var key, rest := ReadString(b, 3).value, ReadString(b, 3).rest;
      var i := KeyIndex(members, key);
      if i < 0 {
        if Skip(rest).Some? {
          SharedNameLost(Skip(rest).value, n - 1, members, out, env, o);
        }
      } else {
        var r := ReadKind(rest, members[i].item.kind, env);
        if r.Got? {
          SharedNameLost(r.rest, n - 1, members, out[members[i].item.at := r.value], env, o);
        }
      }
    }
  }

  /** So the map-shape round trip fails on every struct that holds something there. */
  lemma {:induction false} SharedNameNoRoundTrip(v: Value, name: string, env: Env, o: nat)
    requires env.Sound() && env.asMap && HasElem(v, StructElem(name), env) && o < |Members(env, name)|
    requires KeyIndex(Members(env, name), Members(env, name)[o].name) != o
    requires Members(env, name)[o].item.at < |v.fields|
    requires v.fields[Members(env, name)[o].item.at] != ZeroFields(name, env)[Members(env, name)[o].item.at]
    ensures forall s: bytes :: ReadStruct(AppendElem(v, StructElem(name), env) + s, name, env) != Got(v, s)
  {
    var members, zero := Members(env, name), ZeroFields(name, env);
    MembersAssign(env, name);
    SlotsApart(env, name);
    forall s: bytes
      ensures ReadStruct(AppendElem(v, StructElem(name), env) + s, name, env) != Got(v, s)
    {
      var b := AppendElem(v, StructElem(name), env) + s;
      if ReadCount(b, 5).Got? && ReadCount(b, 5).value.Some? {
        SharedNameLost(ReadCount(b, 5).rest, ReadCount(b, 5).value.value, members, zero, env, o);
      }
    }
  }

  lemma {:induction false} SlotsApart(env: Env, name: string)
    requires name in env.defs
    ensures var members := Members(env, name);
            forall i, j :: 0 <= i < |members| && 0 <= j < |members| && members[i].item.at == members[j].item.at ==> i == j
  {
    var members, d := Members(env, name), Declared(env.defs[name]);
    MembersAre(env, name);
    SortPermutes(d);
    forall i, j | 0 <= i < j < |members| ensures members[i].item.at != members[j].item.at {
      assert members[i] in d && members[j] in d;
      if members[i].item.at == members[j].item.at {
        assert members[i] == members[j] == d[members[i].item.at];
        CountedTwice(members, i, j);
        OnceDeclared(env.defs[name], members[i].item.at);
      }
    }
  }

  lemma {:induction false} OnceDeclared(d: seq<Member>, at: nat)
    requires at < |d|
    ensures multiset(Declared(d))[Declared(d)[at]] == 1
  {
    var all := Declared(d);
    assert all == all[..at] + [all[at]] + all[at + 1..];
    assert all[at] !in all[..at] && all[at] !in all[at + 1..];
  }

  // --- Which kinds hold more than their zero value ---

  predicate VariesElem(e: Elem, env: Env)
    requires env.Sound() && env.Knows(e)
    decreases if e.StructElem? then env.rank[e.name] + 1 else 0, 0
  {
    e.StructElem? ==>
      exists i :: 0 <= i < |env.defs[e.name]| && Varies(env.defs[e.name][i].kind, env.rank[e.name], env)
  }

  predicate Varies(k: Kind, above: nat, env: Env)
    requires env.Sound() && env.Placed(k, above)
    decreases above, 1
  {
    match k
    case Single(e) => VariesElem(e, env)
    case FixedArray(e, n) => n > 0 && VariesElem(e, env)
    case FixedBytes(n) => n > 0
    case _ => true
  }

  lemma {:induction false} ZeroHasElem(e: Elem, env: Env)
    requires env.Sound() && env.Knows(e)
    ensures HasElem(ZeroElem(e, env), e, env)
    decreases if e.StructElem? then env.rank[e.name] + 1 else 0, 0
  {
    if e.StructElem? {
      var d := env.defs[e.name];
      forall i | 0 <= i < |d| ensures HasKind(ZeroFields(e.name, env)[i], d[i].kind, env) {
        ZeroHasKind(d[i].kind, env.rank[e.name], env);
      }
    }
  }

  lemma {:induction false} ZeroHasKind(k: Kind, above: nat, env: Env)
    requires env.Sound() && env.Placed(k, above)
    ensures HasKind(ZeroKind(k, above, env), k, env)
    decreases above, 1
  {
    match k
    case Single(e) => ZeroHasElem(e, env);
    case FixedArray(e, n) => ZeroHasElem(e, env);
    case _ =>
  }

  /** A field value and the zero values of the others. */
  lemma {:induction false} OneField(name: string, i: nat, v: Value, env: Env)
    requires env.Sound() && name in env.defs && i < |env.defs[name]| && HasKind(v, env.defs[name][i].kind, env)
    ensures HasElem(Rec(ZeroFields(name, env)[i := v]), StructElem(name), env)
  {
    var d := env.defs[name];
    forall j | 0 <= j < |d| ensures HasKind(ZeroFields(name, env)[i := v][j], d[j].kind, env) {
      ZeroHasKind(d[j].kind, env.rank[name], env);
    }
  }

  lemma {:induction false} OtherElem(e: Elem, env: Env) returns (v: Value)
    requires env.Sound() && env.Knows(e) && VariesElem(e, env)
    ensures HasElem(v, e, env) && v != ZeroElem(e, env)
    decreases if e.StructElem? then env.rank[e.name] + 1 else 0, 0
  {
    match e
    case StringElem => v := Text([0]);
    case BoolElem => v := Bool(true);
    case FloatElem => v := Float([1, 0, 0, 0, 0, 0, 0, 0]);
    case StructElem(name) =>
      var zero := ZeroFields(name, env);
      var i :| 0 <= i < |env.defs[name]| && Varies(env.defs[name][i].kind, env.rank[name], env);
      var w := OtherKind(env.defs[name][i].kind, env.rank[name], env);
      OneField(name, i, w, env);
      v := Rec(zero[i := w]);
      assert zero[i := w][i] != zero[i];
    case _ => v := Int(1);
  }

  lemma {:induction false} OtherKind(k: Kind, above: nat, env: Env) returns (v: Value)
    requires env.Sound() && env.Placed(k, above) && Varies(k, above, env)
    ensures HasKind(v, k, env) && v != ZeroKind(k, above, env)
    decreases above, 1
  {
    match k
    case Single(e) =>
      v := OtherElem(e, env);
    case Slice(e) =>
      ZeroHasElem(e, env);
      v := List([ZeroElem(e, env)]);
    case FixedArray(e, n) =>
      ZeroHasElem(e, env);
      var w := OtherElem(e, env);
      v := List(Fill([w], n, ZeroElem(e, env)));
      assert v.items[0] != ZeroKind(k, above, env).items[0];
    case ByteSlice =>
      v := Blob([0]);
    case FixedBytes(n) =>
      v := Blob(Fill([1], n, 0));
      assert v.data[0] != ZeroKind(k, above, env).data[0];
    case StringMap(e) =>
      ZeroHasElem(e, env);
      v := Dict([DictEntry([], ZeroElem(e, env))]);
  }

  // --- The map shape round trips exactly the structs whose names are distinct ---

  ghost predicate RoundTrips(name: string, env: Env)
    requires env.Sound() && name in env.defs
  {
    forall v, s :: HasElem(v, StructElem(name), env) ==>
      ReadStruct(AppendElem(v, StructElem(name), env) + s, name, env) == Got(v, s)
  }

  /** Of two members under one name the one written first is not the one its key names. */
  lemma {:induction false} SomeShadowed(env: Env, name: string) returns (o: nat)
    requires env.asMap && name in env.defs && !DistinctNames(Declared(env.defs[name]))
    ensures o < |Members(env, name)| && KeyIndex(Members(env, name), Members(env, name)[o].name) != o
  {
    var d, members := Declared(env.defs[name]), Members(env, name);
    MembersAre(env, name);
    var i, j :| 0 <= i < j < |d| && d[i].name == d[j].name;
    assert d[i] in members && d[j] in members && d[i].item.at != d[j].item.at;
    var a :| 0 <= a < |members| && members[a] == d[i];
    var b :| 0 <= b < |members| && members[b] == d[j];
    o := if a < b then a else b;
    hide KeyIndex, Members, Declared;
  }

  /**
   * Where the other structs give no name twice and every member can hold something, every
   * value of a struct survives the map shape if and only if its own names are distinct.
   */
  lemma {:induction false} RoundTripExactly(name: string, env: Env)
    requires env.Sound() && env.asMap && name in env.defs
    requires forall t :: t in env.defs && t != name ==> DistinctNames(Declared(env.defs[t]))
    requires forall i :: 0 <= i < |env.defs[name]| ==> Varies(env.defs[name][i].kind, env.rank[name], env)
    ensures RoundTrips(name, env) <==> DistinctNames(Declared(env.defs[name]))
  {
    hide HasElem, HasKind, AppendElem, ReadStruct, Members, Declared, DistinctNames, KeyIndex, Varies, ZeroFields;
    if DistinctNames(Declared(env.defs[name])) {
      assert env.Unique();
      forall v, s | HasElem(v, StructElem(name), env)
        ensures ReadStruct(AppendElem(v, StructElem(name), env) + s, name, env) == Got(v, s)
      {
        RoundTrip(v, name, env, s);
      }
    } else {
      var o := SomeShadowed(env, name);
      var at := ShadowedField(env, name, o);
      var w := OtherKind(env.defs[name][at].kind, env.rank[name], env);
      var v := Rec(ZeroFields(name, env)[at := w]);
      OneField(name, at, w, env);
      SharedNameNoRoundTrip(v, name, env, o);
      assert ReadStruct(AppendElem(v, StructElem(name), env) + [], name, env) != Got(v, []);
    }
  }

  lemma {:induction false} ShadowedField(env: Env, name: string, o: nat) returns (at: nat)
    requires env.Sound() && name in env.defs && o < |Members(env, name)|
    ensures at == Members(env, name)[o].item.at < |env.defs[name]| == |ZeroFields(name, env)|
    ensures ZeroFields(name, env)[at] == ZeroKind(env.defs[name][at].kind, env.rank[name], env)
  {
    MembersAssign(env, name);
    at := Members(env, name)[o].item.at;
  }
}
