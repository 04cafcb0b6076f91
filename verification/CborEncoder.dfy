/** The emitted encoders as they run: loops that extend a byte slice. */
module CborEncoder {
  import opened ByteStrings
  import opened CborWire
  import opened CborOrder
  import opened CborCodec

  lemma Grow(dst: bytes, a: bytes, b: bytes)
    ensures dst + (a + b) == (dst + a) + b && dst + [] == dst
  {
  }

  method AppendElemTo(dst: bytes, v: Value, e: Elem, env: Env) returns (r: bytes)
    requires env.Sound() && HasElem(v, e, env)
    ensures r == dst + AppendElem(v, e, env)
    decreases v, 1, 0
  {
    match e {
      case StringElem => r := dst + TextItem(v.text);
      case IntElem(_, _) => r := dst + AppendInt(v.n);
      case WordElem(_) => r := dst + AppendInt(v.n);
      case BoolElem => r := dst + [if v.b then 0xF5 else 0xF4];
      case FloatElem => r := dst + ([0xFB] + v.bits);
      case StructElem(name) => r := AppendStructTo(dst, v, name, env);
    }
  }

  lemma MembersStep(v: Value, members: seq<Entry<Slot>>, i: nat, env: Env)
    requires env.Sound() && Fits(v, members, env) && i < |members|
    ensures Fits(v, members[i..], env) && Fits(v, members[i + 1..], env)
    ensures |members[i].name| < I64 && v.Rec? && members[i].item.at < |v.fields|
    ensures HasKind(v.fields[members[i].item.at], members[i].item.kind, env)
    ensures AppendMembers(v, members[i..], env) ==
            (if env.asMap then TextItem(members[i].name) else [])
            + AppendKind(v.fields[members[i].item.at], members[i].item.kind, env) + AppendMembers(v, members[i + 1..], env)
  {
    hide AppendKind, HasKind, TextItem;
    assert members[i..][0] == members[i] && members[i..][1..] == members[i + 1..];
  }

  lemma StructIs(v: Value, name: string, env: Env)
    requires env.Sound() && HasElem(v, StructElem(name), env)
    ensures name in env.defs && Fits(v, Members(env, name), env) && |Members(env, name)| < I64 && |Members(env, name)| < U64
    ensures AppendElem(v, StructElem(name), env) ==
            Head(if env.asMap then 5 else 4, |Members(env, name)|) + AppendMembers(v, Members(env, name), env)
  {
    MembersFit(v, name, env);
    hide Head, AppendMembers, Members;
  }

  /** One member: its key in the map shape, then its value. */
  method AppendMember(dst: bytes, v: Value, members: seq<Entry<Slot>>, i: nat, env: Env) returns (r: bytes)
    requires env.Sound() && Fits(v, members, env) && i < |members|
    ensures Fits(v, members[i..], env) && Fits(v, members[i + 1..], env)
    ensures dst + AppendMembers(v, members[i..], env) == r + AppendMembers(v, members[i + 1..], env)
    decreases v, 0, 0
  {
    hide *;
    MembersStep(v, members, i, env);
    var m := members[i];
    ghost var rest := AppendMembers(v, members[i + 1..], env);
    ghost var body := AppendKind(v.fields[m.item.at], m.item.kind, env);
    ghost var key := if env.asMap then TextItem(m.name) else [];
    Grow(dst, key + body, rest);
    Grow(dst, key, body);
    r := if env.asMap then dst + TextItem(m.name) else dst;
    FieldSmaller(v, m.item.at);
    r := AppendKindTo(r, v.fields[m.item.at], m.item.kind, env);
  }

  /** The container's header and its members, with their keys in the map shape. */
  method AppendStructTo(dst: bytes, v: Value, name: string, env: Env) returns (r: bytes)
    requires env.Sound() && HasElem(v, StructElem(name), env)
    ensures r == dst + AppendElem(v, StructElem(name), env)
    decreases v, 0, 1
  {
    hide *;
    StructIs(v, name, env);
    var members := Members(env, name);
    var head := Head(if env.asMap then 5 else 4, |members|);
    r := dst + head;
    assert members[0..] == members && members[|members|..] == [];
    Grow(dst, head, AppendMembers(v, members, env));
    for i := 0 to |members|
      invariant Fits(v, members[i..], env)
      invariant dst + (head + AppendMembers(v, members, env)) == r + AppendMembers(v, members[i..], env)
    {
      r := AppendMember(r, v, members, i, env);
    }
    NoMembers(v, env);
    assert r + [] == r;
  }

  lemma FieldSmaller(v: Value, i: nat)
    requires v.Rec? && i < |v.fields|
    ensures v.fields[i] < v
  {
  }

  method AppendKindTo(dst: bytes, v: Value, k: Kind, env: Env) returns (r: bytes)
    requires env.Sound() && HasKind(v, k, env)
    ensures r == dst + AppendKind(v, k, env)
    decreases v, 2, 0
  {
    match k {
      case Single(e) => r := AppendElemTo(dst, v, e, env);
      case Slice(e) => r := AppendItemsTo(dst, v, e, env);
      case FixedArray(e, _) => r := AppendItemsTo(dst, v, e, env);
      case StringMap(e) => r := AppendEntriesTo(dst, v, e, env);
      case _ => r := dst + (Head(2, |v.data|) + v.data);
    }
  }

  method AppendItemsTo(dst: bytes, v: Value, e: Elem, env: Env) returns (r: bytes)
    requires env.Sound() && v.List? && |v.items| < I64
    requires forall j :: 0 <= j < |v.items| ==> HasElem(v.items[j], e, env)
    ensures r == dst + (Head(4, |v.items|) + AppendItems(v, e, 0, env))
    decreases v, 0, 0
  {
    hide HasElem, Head, AppendElem;
    r := dst + Head(4, |v.items|);
    Grow(dst, Head(4, |v.items|), AppendItems(v, e, 0, env));
    for i := 0 to |v.items|
      invariant dst + (Head(4, |v.items|) + AppendItems(v, e, 0, env)) == r + AppendItems(v, e, i, env)
    {
      Grow(r, AppendElem(v.items[i], e, env), AppendItems(v, e, i + 1, env));
      r := AppendElemTo(r, v.items[i], e, env);
    }
    assert r + [] == r;
  }

  /** A map's entries under its keys in order. */
  method AppendEntriesTo(dst: bytes, v: Value, e: Elem, env: Env) returns (r: bytes)
    requires env.Sound() && HasKind(v, StringMap(e), env)
    ensures r == dst + (Head(5, |v.entries|) + AppendEntries(v, e, 0, env))
    decreases v, 0, 0
  {
    hide HasElem, Head, AppendElem, TextItem;
    r := dst + Head(5, |v.entries|);
    Grow(dst, Head(5, |v.entries|), AppendEntries(v, e, 0, env));
    for i := 0 to |v.entries|
      invariant dst + (Head(5, |v.entries|) + AppendEntries(v, e, 0, env)) == r + AppendEntries(v, e, i, env)
    {
      ghost var key, body := TextItem(v.entries[i].key), AppendElem(v.entries[i].value, e, env);
      Grow(r, key + body, AppendEntries(v, e, i + 1, env));
      Grow(r, key, body);
      r := r + TextItem(v.entries[i].key);
      r := AppendElemTo(r, v.entries[i].value, e, env);
    }
    assert r + [] == r;
  }
}
