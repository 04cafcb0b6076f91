/**
 * The emitted decoders as they run: loops over a reader that advances, assigning the fields of
 * a struct, with the map's keys settled by the compiled decision tree.
 */
module CborDecoder {
  import opened ByteStrings
  import opened CborWire
  import opened CborOrder
  import opened CborCodec
  import KeyTree

  // --- Settling a key ---

  function Names(members: seq<Entry<Slot>>): seq<bytes> {
    seq(|members|, i requires 0 <= i < |members| => members[i].name)
  }

  /** The tree stays in bounds on every key and reports the tree-safe member it equals, if any. */
  ghost predicate TreeFor(tree: seq<KeyTree.Stmt>, names: seq<bytes>) {
    forall key: bytes {:trigger KeyTree.Exec(tree, key, KeyTree.Found(-1, 0))} ::
      var r := KeyTree.Exec(tree, key, KeyTree.Found(-1, 0));
      r.Some? && KeyTree.Chosen(names, KeyTree.Exact, key, r.value)
  }

  /** No name the tree cannot hold is given twice: Go refuses a switch with equal cases. */
  predicate CasesDistinct(names: seq<bytes>) {
    forall i, j :: 0 <= i < j < |names| && !KeyTree.TreeSafeName(names[i]) ==> names[i] != names[j]
  }

  /**
   * The tree first, then a switch over the names it cannot hold. Of members that share a name
   * the last one answers, which the tree's compares settle by running in turn.
   */
  method Dispatch(tree: seq<KeyTree.Stmt>, members: seq<Entry<Slot>>, key: bytes) returns (idx: int)
    requires TreeFor(tree, Names(members)) && CasesDistinct(Names(members))
    ensures idx == KeyIndex(members, key)
  {
    idx := KeyTree.Exec(tree, key, KeyTree.Found(-1, 0)).value.idx;
    TreeChooses(tree, members, key, idx);
    if idx < 0 {
      for i := 0 to |members|
        invariant idx == -1
        invariant forall j :: 0 <= j < i ==> members[j].name != key
      {
        if !KeyTree.TreeSafeName(members[i].name) && members[i].name == key {
          NoLater(members, i);
          return i;
        }
      }
    }
  }

  lemma NoLater(members: seq<Entry<Slot>>, i: nat)
    requires i < |members| && CasesDistinct(Names(members)) && !KeyTree.TreeSafeName(members[i].name)
    ensures forall j :: i < j < |members| ==> members[j].name != members[i].name
  {
    forall j | i < j < |members| ensures members[j].name != members[i].name {
      assert Names(members)[i] != Names(members)[j];
    }
  }

  lemma TreeChooses(tree: seq<KeyTree.Stmt>, members: seq<Entry<Slot>>, key: bytes, idx: int)
    requires TreeFor(tree, Names(members)) && idx == KeyTree.Exec(tree, key, KeyTree.Found(-1, 0)).value.idx
    ensures idx >= 0 ==> idx < |members| && members[idx].name == key && forall i :: idx < i < |members| ==> members[i].name != key
    ensures idx < 0 ==> idx == -1 && forall i :: 0 <= i < |members| && KeyTree.TreeSafeName(members[i].name) ==> members[i].name != key
  {
    var r := KeyTree.Exec(tree, key, KeyTree.Found(-1, 0)).value;
    var names := Names(members);
    assert KeyTree.Chosen(names, KeyTree.Exact, key, r);
    forall i | 0 <= i < |members| && idx < i && (idx >= 0 || KeyTree.TreeSafeName(members[i].name))
      ensures members[i].name != key
    {
      assert names[i] == members[i].name;
    }
  }

  ghost predicate TreeFits(trees: map<string, seq<KeyTree.Stmt>>, t: string, env: Env)
    requires t in env.defs
  {
    t in trees && TreeFor(trees[t], Names(Members(env, t))) && CasesDistinct(Names(Members(env, t)))
  }

  /** The compiled trees of every struct type of a map-shape codec. */
  ghost predicate Compiled(trees: map<string, seq<KeyTree.Stmt>>, env: Env) {
    env.asMap ==> forall t :: t in env.defs ==> TreeFits(trees, t, env)
  }

  lemma TreeAdded(trees: map<string, seq<KeyTree.Stmt>>, t: string, tree: seq<KeyTree.Stmt>, env: Env)
    requires t in env.defs && t !in trees
    requires TreeFor(tree, Names(Members(env, t))) && CasesDistinct(Names(Members(env, t)))
    requires forall u :: u in trees ==> u in env.defs && TreeFits(trees, u, env)
    ensures forall u :: u in trees[t := tree] ==> u in env.defs && TreeFits(trees[t := tree], u, env)
  {
    hide TreeFor, Names, Members, CasesDistinct;
  }

  /** One struct's tree, if Go takes the switch beside it. */
  method CompileTree(env: Env, t: string) returns (tree: Option<seq<KeyTree.Stmt>>)
    requires t in env.defs
    ensures tree.Some? <==> CasesDistinct(Names(Members(env, t)))
    ensures tree.Some? ==> TreeFor(tree.value, Names(Members(env, t)))
  {
    hide Members;
    var names := Names(Members(env, t));
    if !CasesDistinct(names) {
      return None;
    }
    var code := KeyTree.CompileNames(names, KeyTree.Exact);
    tree := Some(code);
  }

  /** Every struct's tree, compiled from its member names. */
  method CompileTrees(env: Env) returns (ok: bool, trees: map<string, seq<KeyTree.Stmt>>)
    ensures ok <==> forall t :: t in env.defs ==> CasesDistinct(Names(Members(env, t)))
    ensures ok ==> Compiled(trees, env)
  {
    hide TreeFor, Names, Members, CasesDistinct;
    trees := map[];
    var todo := env.defs.Keys;
    while todo != {}
      invariant forall t :: t in env.defs <==> t in todo || t in trees
      invariant forall t :: t in todo ==> t !in trees
      invariant forall t :: t in trees ==> t in env.defs && TreeFits(trees, t, env)
      decreases |todo|
    {
      var t :| t in todo;
      var tree := CompileTree(env, t);
      if tree.None? {
        return false, trees;
      }
      TreeAdded(trees, t, tree.value, env);
      trees := trees[t := tree.value];
      todo := todo - {t};
    }
    ok := true;
  }

  // --- The reader ---

  /** A value, a return that holds no error and what it has stored, or an error. */
  datatype Answer<+T> = Ok(value: T) | End(kept: Option<T>) | Err(error: Error)

  /** What a read answers and leaves is what the specification says. */
  predicate Reports<T(==)>(spec: Read<T>, answer: Answer<T>, rest: bytes) {
    match spec
    case Got(v, after) => answer == Ok(v) && rest == after
    case Cut(kept, after) => answer == End(kept) && rest == after
    case Bad(e) => answer == Err(e)
  }

  class Reader {
    const data: bytes
    var pos: nat

    constructor (data: bytes)
      ensures Valid() && Rest() == data && this.data == data && pos == 0
    {
      this.data := data;
      pos := 0;
      new;
      assert data[0..] == data;
    }

    ghost predicate Valid()
      reads this
    {
      pos <= |data|
    }

    function Rest(): bytes
      requires Valid()
      reads this
    {
      data[pos..]
    }

    /** Moves to what is left of the unread input. */
    method Advance(rest: bytes)
      requires Valid() && |rest| <= |Rest()| && Rest()[|Rest()| - |rest|..] == rest
      modifies this
      ensures Valid() && Rest() == rest && pos >= old(pos)
    {
      pos := |data| - |rest|;
    }

    method Text(major: nat) returns (a: Answer<bytes>)
      requires Valid()
      modifies this
      ensures Valid() && Reports(ReadString(old(Rest()), major), a, Rest())
      ensures a.Ok? ==> pos > old(pos)
    {
      match ReadString(Rest(), major) {
        case Bad(e) =>
          a := Err(e);
        case Got(s, rest) =>
          StringSuffix(Rest(), major);
          Advance(rest);
          a := Ok(s);
      }
    }

    method Count(major: nat) returns (a: Answer<Option<nat>>)
      requires Valid()
      modifies this
      ensures Valid() && Reports(ReadCount(old(Rest()), major), a, Rest())
      ensures a.Ok? ==> pos > old(pos)
    {
      match ReadCount(Rest(), major) {
        case Bad(e) =>
          a := Err(e);
        case Got(n, rest) =>
          HeadSuffix(Rest());
          Advance(rest);
          a := Ok(n);
      }
    }

    method Scalar(e: Elem, env: Env) returns (a: Answer<Value>)
      requires Valid() && env.Sound() && !e.StructElem?
      modifies this
      ensures Valid() && Reports(ReadElem(old(Rest()), e, env), a, Rest())
      ensures !a.Err? ==> pos > old(pos)
    {
      hide ReadElem;
      match ReadElem(Rest(), e, env) {
        case Bad(x) =>
          a := Err(x);
        case Cut(kept, rest) =>
          ScalarSuffix(Rest(), e, env);
          Advance(rest);
          a := End(kept);
        case Got(v, rest) =>
          ScalarSuffix(Rest(), e, env);
          Advance(rest);
          a := Ok(v);
      }
    }

    method SkipItem() returns (ok: bool)
      requires Valid()
      modifies this
      ensures Valid() && ok == Skip(old(Rest())).Some?
      ensures ok ==> Rest() == Skip(old(Rest())).value && pos > old(pos)
    {
      match Skip(Rest()) {
        case None =>
          ok := false;
        case Some(rest) =>
          SkipSuffix(Rest());
          Advance(rest);
          ok := true;
      }
    }
  }

  // --- What a read leaves is the end of what it was given ---

  ghost predicate Ends(b: bytes, rest: bytes) {
    |rest| <= |b| && b[|b| - |rest|..] == rest
  }

  lemma EndsTrans(a: bytes, b: bytes, c: bytes)
    requires Ends(a, b) && Ends(b, c)
    ensures Ends(a, c)
  {
    assert a[|a| - |b|..][|b| - |c|..] == a[|a| - |c|..];
  }

  lemma EndsDrop(b: bytes, n: nat)
    requires n <= |b|
    ensures Ends(b, b[n..])
  {
  }

  lemma HeadSuffix(b: bytes)
    ensures ReadHead(b).Some? ==> Ends(b, ReadHead(b).value.rest)
  {
  }

  lemma StringSuffix(b: bytes, major: nat)
    ensures ReadString(b, major).Got? ==> Ends(b, ReadString(b, major).rest)
  {
    HeadSuffix(b);
    if ReadString(b, major).Got? {
      var h := ReadHead(b).value;
      EndsDrop(h.rest, h.arg);
      EndsTrans(b, h.rest, h.rest[h.arg..]);
    }
  }

  lemma ScalarSuffix(b: bytes, e: Elem, env: Env)
    requires env.Sound() && !e.StructElem?
    ensures !ReadElem(b, e, env).Bad? ==> Ends(b, ReadElem(b, e, env).rest)
  {
    hide ReadHead, ReadString;
    HeadSuffix(b);
    StringSuffix(b, 3);
  }

  lemma {:induction false} ChunksSuffix(b: bytes, major: nat)
    ensures SkipChunks(b, major).Some? ==> Ends(b, SkipChunks(b, major).value)
    decreases |b|
  {
    if SkipChunks(b, major).Some? && b[0] != 0xFF {
      HeadSuffix(b);
      var h := ReadHead(b).value;
      EndsDrop(h.rest, h.arg);
      EndsTrans(b, h.rest, h.rest[h.arg..]);
      ChunksSuffix(h.rest[h.arg..], major);
      EndsTrans(b, h.rest[h.arg..], SkipChunks(b, major).value);
    }
  }

  lemma {:induction false} SkipSuffix(b: bytes)
    ensures Skip(b).Some? ==> Ends(b, Skip(b).value)
    decreases |b|, 0
  {
    HeadSuffix(b);
    if Skip(b).Some? {
      var h := ReadHead(b).value;
      if h.major in {2, 3} {
        if h.info == INDEFINITE {
          ChunksSuffix(h.rest, h.major);
        } else {
          EndsDrop(h.rest, h.arg);
        }
      } else if h.major in {4, 5} {
        if h.info == INDEFINITE {
          BreakSuffix(h.rest, h.major == 5);
        } else {
          ManySuffix(h.rest, if h.major == 4 then h.arg else 2 * h.arg);
        }
      } else if h.major == 6 {
        SkipSuffix(h.rest);
      }
      EndsTrans(b, h.rest, Skip(b).value);
    }
  }

  lemma {:induction false} ManySuffix(b: bytes, n: nat)
    ensures SkipMany(b, n).Some? ==> Ends(b, SkipMany(b, n).value)
    decreases |b|, n
  {
    if n > 0 && SkipMany(b, n).Some? {
      SkipSuffix(b);
      ManySuffix(Skip(b).value, n - 1);
      EndsTrans(b, Skip(b).value, SkipMany(b, n).value);
    }
  }

  lemma {:induction false} BreakSuffix(b: bytes, pairs: bool)
    ensures SkipToBreak(b, pairs).Some? ==> Ends(b, SkipToBreak(b, pairs).value)
    decreases |b|, 1
  {
    if SkipToBreak(b, pairs).Some? && b[0] != 0xFF {
      SkipSuffix(b);
      var rest := Skip(b).value;
      if pairs {
        SkipSuffix(rest);
        EndsTrans(b, rest, Skip(rest).value);
        rest := Skip(rest).value;
      }
      BreakSuffix(rest, pairs);
      EndsTrans(b, rest, SkipToBreak(b, pairs).value);
    }
  }

  // --- The emitted decoders ---

  method DecodeElem(cr: Reader, e: Elem, env: Env, trees: map<string, seq<KeyTree.Stmt>>) returns (a: Answer<Value>)
    requires cr.Valid() && env.Sound() && env.Knows(e) && Compiled(trees, env)
    modifies cr
    ensures cr.Valid() && Reports(ReadElem(old(cr.Rest()), e, env), a, cr.Rest())
    ensures !a.Err? ==> cr.pos > old(cr.pos)
    decreases |cr.data| - cr.pos, 2
  {
    if e.StructElem? {
      a := DecodeStruct(cr, e.name, env, trees);
    } else {
      a := cr.Scalar(e, env);
    }
  }

  method DecodeStruct(cr: Reader, name: string, env: Env, trees: map<string, seq<KeyTree.Stmt>>)
    returns (a: Answer<Value>)
    requires cr.Valid() && env.Sound() && name in env.defs && Compiled(trees, env)
    modifies cr
    ensures cr.Valid() && Reports(ReadStruct(old(cr.Rest()), name, env), a, cr.Rest())
    ensures a.Ok? ==> cr.pos > old(cr.pos)
    decreases |cr.data| - cr.pos, 1
  {
    var members := Members(env, name);
    MembersAssign(env, name);
    var out := ZeroFields(name, env);
    var n := cr.Count(if env.asMap then 5 else 4);
    if n.Err? {
      return Err(n.error);
    }
    if n.value.None? {
      return Err(WrongShape);
    }
    if env.asMap {
      a := DecodePairs(cr, n.value.value, members, trees[name], out, env, trees);
    } else if n.value.value != |members| {
      a := Err(WrongShape);
    } else {
      a := DecodeInOrder(cr, members, out, env, trees);
    }
  }

  /** The array shape: each member read into its field, in order. */
  method DecodeInOrder(cr: Reader, members: seq<Entry<Slot>>, zero: seq<Value>, env: Env,
                       trees: map<string, seq<KeyTree.Stmt>>)
    returns (a: Answer<Value>)
    requires cr.Valid() && env.Sound() && Assignable(members, zero, env) && Compiled(trees, env)
    modifies cr
    ensures cr.Valid() && Reports(ReadInOrder(old(cr.Rest()), members, zero, env), a, cr.Rest())
    ensures a.Ok? ==> cr.pos >= old(cr.pos)
    decreases |cr.data| - cr.pos, 4
  {
    hide ReadKind, Compiled, Reader.Rest;
    var out := zero;
    assert members[0..] == members;
    for i := 0 to |members|
      invariant cr.Valid() && cr.pos >= old(cr.pos)
      invariant Assignable(members[i..], out, env)
      invariant ReadInOrder(old(cr.Rest()), members, zero, env) == ReadInOrder(cr.Rest(), members[i..], out, env)
    {
      assert members[i..][0] == members[i] && members[i..][1..] == members[i + 1..];
      var f := DecodeKind(cr, members[i].item.kind, env, trees);
      match f {
        case Err(x) =>
          return Err(x);
        case End(kept) =>
          return Ok(Rec(Keep(out, members[i].item.at, kept)));
        case Ok(v) =>
          out := out[members[i].item.at := v];
      }
    }
    a := Ok(Rec(out));
  }

  lemma PairKnown(b: bytes, n: nat, key: bytes, rest: bytes, members: seq<Entry<Slot>>, out: seq<Value>, env: Env)
    requires env.Sound() && Assignable(members, out, env) && n > 0 && ReadString(b, 3) == Got(key, rest)
    ensures var i := KeyIndex(members, key);
            ReadPairs(b, n, members, out, env) ==
            if i < 0 then
              (match Skip(rest)
               case None => Bad(Malformed)
               case Some(after) => ReadPairs(after, n - 1, members, out, env))
            else
              match ReadKind(rest, members[i].item.kind, env)
              case Bad(x) => Bad(x)
              case Cut(kept, after) => Got(Rec(Keep(out, members[i].item.at, kept)), after)
              case Got(v, after) => ReadPairs(after, n - 1, members, out[members[i].item.at := v], env)
  {
    hide ReadString, Skip, ReadKind, KeyIndex;
  }

  lemma PairBad(b: bytes, n: nat, members: seq<Entry<Slot>>, out: seq<Value>, env: Env)
    requires env.Sound() && Assignable(members, out, env) && n > 0 && ReadString(b, 3).Bad?
    ensures ReadPairs(b, n, members, out, env) == Bad(ReadString(b, 3).error)
  {
    hide ReadString;
  }

  lemma PairsDone(b: bytes, members: seq<Entry<Slot>>, out: seq<Value>, env: Env)
    requires env.Sound() && Assignable(members, out, env)
    ensures ReadPairs(b, 0, members, out, env) == Got(Rec(out), b)
  {
  }

  /** The map shape: each key settled by the tree, its member assigned or its item skipped. */
  method DecodePairs(cr: Reader, n: nat, members: seq<Entry<Slot>>, tree: seq<KeyTree.Stmt>, zero: seq<Value>,
                     env: Env, trees: map<string, seq<KeyTree.Stmt>>)
    returns (a: Answer<Value>)
    requires cr.Valid() && env.Sound() && Assignable(members, zero, env) && Compiled(trees, env)
    requires TreeFor(tree, Names(members)) && CasesDistinct(Names(members))
    modifies cr
    ensures cr.Valid() && Reports(ReadPairs(old(cr.Rest()), n, members, zero, env), a, cr.Rest())
    ensures a.Ok? ==> cr.pos >= old(cr.pos)
    decreases |cr.data| - cr.pos, 4
  {
    hide ReadKind, ReadPairs, ReadString, Skip, KeyIndex, Compiled, TreeFor, Reader.Rest;
    var out := zero;
    for i := 0 to n
      invariant cr.Valid() && cr.pos >= old(cr.pos) && Assignable(members, out, env)
      invariant ReadPairs(old(cr.Rest()), n, members, zero, env) == ReadPairs(cr.Rest(), n - i, members, out, env)
    {
      ghost var b := cr.Rest();
      var key := cr.Text(3);
      if key.Err? {
        PairBad(b, n - i, members, out, env);
        return Err(key.error);
      }
      PairKnown(b, n - i, key.value, cr.Rest(), members, out, env);
      var idx := Dispatch(tree, members, key.value);
      if idx < 0 {
        var ok := cr.SkipItem();
        if !ok {
          return Err(Malformed);
        }
      } else {
        var f := DecodeKind(cr, members[idx].item.kind, env, trees);
        match f {
          case Err(x) =>
            return Err(x);
          case End(kept) =>
            return Ok(Rec(Keep(out, members[idx].item.at, kept)));
          case Ok(v) =>
            out := out[members[idx].item.at := v];
        }
      }
    }
    PairsDone(cr.Rest(), members, out, env);
    a := Ok(Rec(out));
  }

  function Prepend<T>(items: seq<T>, r: Read<seq<T>>): Read<seq<T>> {
    match r
    case Bad(e) => Bad(e)
    case Cut(more, rest) => Cut(Some(items + more.GetOr([])), rest)
    case Got(more, rest) => Got(items + more, rest)
  }

  lemma PrependTwice<T>(items: seq<T>, x: T, r: Read<seq<T>>)
    ensures Prepend(items, Prepend([x], r)) == Prepend(items + [x], r)
    ensures !r.Cut? || r.kept.Some? ==> Prepend([], r) == r
  {
    var more := if r.Got? then r.value else if r.Cut? then r.kept.GetOr([]) else [];
    assert [] + more == more;
    assert items + ([x] + more) == (items + [x]) + more;
  }

  lemma ItemsStep(b: bytes, n: nat, e: Elem, env: Env)
    requires env.Sound() && env.Knows(e) && n > 0
    ensures ReadItems(b, n, e, env) ==
            match ReadElem(b, e, env)
            case Bad(x) => Bad(x)
            case Cut(_, rest) => Cut(Some([]), rest)
            case Got(v, rest) => Prepend([v], ReadItems(rest, n - 1, e, env))
  {
    hide ReadElem;
  }

  method DecodeItems(cr: Reader, n: nat, e: Elem, env: Env, trees: map<string, seq<KeyTree.Stmt>>)
    returns (a: Answer<seq<Value>>)
    requires cr.Valid() && env.Sound() && env.Knows(e) && Compiled(trees, env)
    modifies cr
    ensures cr.Valid() && Reports(ReadItems(old(cr.Rest()), n, e, env), a, cr.Rest())
    ensures !a.Err? ==> cr.pos >= old(cr.pos)
    decreases |cr.data| - cr.pos, 3
  {
    hide ReadElem, Compiled, Reader.Rest, ReadItems;
    var items := [];
    ItemsDone(cr.Rest(), e, env);
    PrependTwice<Value>([], Int(0), ReadItems(cr.Rest(), n, e, env));
    for i := 0 to n
      invariant cr.Valid() && cr.pos >= old(cr.pos)
      invariant ReadItems(old(cr.Rest()), n, e, env) == Prepend(items, ReadItems(cr.Rest(), n - i, e, env))
    {
      ItemsStep(cr.Rest(), n - i, e, env);
      var v := DecodeElem(cr, e, env, trees);
      if v.Err? {
        return Err(v.error);
      }
      if v.End? {
        assert items + [] == items;
        return End(Some(items));
      }
      PrependTwice(items, v.value, ReadItems(cr.Rest(), n - i - 1, e, env));
      items := items + [v.value];
    }
    ItemsDone(cr.Rest(), e, env);
    assert items + [] == items;
    a := Ok(items);
  }

  lemma ItemsDone(b: bytes, e: Elem, env: Env)
    requires env.Sound() && env.Knows(e)
    ensures ReadItems(b, 0, e, env) == Got([], b)
  {
  }

  /** A map field: each entry assigned as it is read, a repeated key keeping its last value. */
  method DecodeEntries(cr: Reader, n: nat, e: Elem, env: Env, trees: map<string, seq<KeyTree.Stmt>>)
    returns (a: Answer<seq<DictEntry>>)
    requires cr.Valid() && env.Sound() && env.Knows(e) && Compiled(trees, env)
    modifies cr
    ensures cr.Valid() && Reports(ReadEntries(old(cr.Rest()), n, e, [], env), a, cr.Rest())
    ensures !a.Err? ==> cr.pos >= old(cr.pos)
    decreases |cr.data| - cr.pos, 3
  {
    hide ReadElem, ReadString, PutEntry, Compiled, Reader.Rest;
    var got := [];
    for i := 0 to n
      invariant cr.Valid() && cr.pos >= old(cr.pos)
      invariant ReadEntries(old(cr.Rest()), n, e, [], env) == ReadEntries(cr.Rest(), n - i, e, got, env)
    {
      var key := cr.Text(3);
      if key.Err? {
        return Err(key.error);
      }
      var v := DecodeElem(cr, e, env, trees);
      if v.Err? {
        return Err(v.error);
      }
      if v.End? {
        return End(None);
      }
      got := PutEntry(got, key.value, v.value);
    }
    a := Ok(got);
  }

  /** One field: the arm of its kind. */
  method DecodeKind(cr: Reader, k: Kind, env: Env, trees: map<string, seq<KeyTree.Stmt>>) returns (a: Answer<Value>)
    requires cr.Valid() && env.Sound() && env.KnowsKind(k) && Compiled(trees, env)
    modifies cr
    ensures cr.Valid() && Reports(ReadKind(old(cr.Rest()), k, env), a, cr.Rest())
    ensures !a.Err? ==> cr.pos > old(cr.pos)
    decreases |cr.data| - cr.pos, 3
  {
    hide ReadElem, ReadString, ReadCount, ReadItems, ReadEntries, Compiled, Reader.Rest, ZeroElem, Fill, Padded;
    match k {
      case Single(e) =>
        a := DecodeElem(cr, e, env, trees);
      case ByteSlice =>
        var v := cr.Text(2);
        a := if v.Ok? then Ok(Blob(v.value)) else Err(v.error);
      case FixedBytes(len) =>
        var v := cr.Text(2);
        a := if v.Err? then Err(v.error) else if |v.value| > len then Err(TooMany) else Ok(Blob(Fill(v.value, len, 0)));
      case StringMap(e) =>
        var n := cr.Count(5);
        if n.Err? {
          return Err(n.error);
        }
        if n.value.None? {
          return End(None);
        }
        var entries := DecodeEntries(cr, n.value.value, e, env, trees);
        match entries {
          case Err(x) => a := Err(x);
          case End(_) => a := End(None);
          case Ok(m) => a := Ok(Dict(m));
        }
      case Slice(e) =>
        var n := cr.Count(4);
        if n.Err? {
          return Err(n.error);
        }
        if n.value.None? {
          return End(None);
        }
        var items := DecodeItems(cr, n.value.value, e, env, trees);
        match items {
          case Err(x) => a := Err(x);
          case End(_) => a := End(None);
          case Ok(slice) => a := Ok(List(slice));
        }
      case FixedArray(e, len) =>
        var n := cr.Count(4);
        if n.Err? {
          return Err(n.error);
        }
        if n.value.None? {
          return End(None);
        }
        if n.value.value > len {
          return Err(TooMany);
        }
        var items := DecodeItems(cr, n.value.value, e, env, trees);
        match items {
          case Err(x) => a := Err(x);
          case End(kept) => a := End(Some(Padded(kept.value, len, e, env)));
          case Ok(full) => a := Ok(Padded(full, len, e, env));
        }
    }
  }
}
