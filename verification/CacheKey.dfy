/**
 * Cache keys: a typed, nested, self-delimiting code, and the emitter that composes it for a
 * field plan. Equal keys come from equal field values, whatever follows them.
 */
module CacheKey {
  import opened ByteStrings

  // --- Numbers and frames ---

  const SEPARATOR: byte := 0x3A
  const MINUS: byte := 0x2D
  const PLUS: byte := 0x2B
  const DOT: byte := 0x2E

  function FormatInt(n: int): bytes {
    if n < 0 then [MINUS] + Decimal(-n) else Decimal(n)
  }

  /** A value is written as its length, a colon, and itself. */
  function Frame(s: bytes): bytes {
    Decimal(|s|) + [SEPARATOR] + s
  }

  // --- Values and their keys ---

  /** A field value; floats and times by the text they format to. A nil slice is the empty one. */
  datatype Value =
    | StringValue(s: bytes)
    | BoolValue(b: bool)
    | IntValue(n: int)
    | UintValue(u: nat)
    | FloatValue(text: bytes)
    | BytesValue(s: bytes)
    | TimeValue(text: bytes)
    | OptionalValue(value: Option<Value>)
    | ArrayValue(values: seq<Value>)

  function BoolText(b: bool): bytes {
    if b then [0x74, 0x72, 0x75, 0x65] else [0x66, 0x61, 0x6C, 0x73, 0x65]
  }

  /** The string helpers. */
  function Key(v: Value): bytes {
    match v
    case StringValue(s) => Frame(s)
    case BoolValue(b) => Frame(BoolText(b))
    case IntValue(n) => Frame(FormatInt(n))
    case UintValue(u) => Frame(Decimal(u))
    case FloatValue(text) => Frame(text)
    case BytesValue(s) => Frame(s)
    case TimeValue(text) => Frame(text)
    case OptionalValue(o) => (match o case None => [MINUS] case Some(w) => [PLUS] + Key(w))
    case ArrayValue(values) => Decimal(|values|) + [SEPARATOR] + Keys(values)
  }

  function Keys(values: seq<Value>): bytes {
    if values == [] then [] else Key(values[0]) + Keys(values[1..])
  }

  // --- The append helpers ---

  function AppendFramed(dst: bytes, text: bytes): bytes {
    dst + Decimal(|text|) + [SEPARATOR] + text
  }

  function AppendKeyBool(dst: bytes, b: bool): bytes {
    if b then dst + [0x34, 0x3A, 0x74, 0x72, 0x75, 0x65] else dst + [0x35, 0x3A, 0x66, 0x61, 0x6C, 0x73, 0x65]
  }

  function AppendKeyOptional(dst: bytes, o: Option<Value>, encode: (bytes, Value) -> bytes): bytes {
    match o
    case None => dst + [MINUS]
    case Some(w) => encode(dst + [PLUS], w)
  }

  function AppendEach(dst: bytes, values: seq<Value>, encode: (bytes, Value) -> bytes): bytes {
    if values == [] then dst
    else encode(AppendEach(dst, values[..|values| - 1], encode), values[|values| - 1])
  }

  lemma {:induction false} KeysSnoc(values: seq<Value>, v: Value)
    ensures Keys(values + [v]) == Keys(values) + Key(v)
  {
    if values == [] {
      assert [v][1..] == [];
    } else {
      assert (values + [v])[1..] == values[1..] + [v];
      KeysSnoc(values[1..], v);
    }
  }

  /** A closure that extends its buffer by each element's key. */
  ghost predicate EncodesKeys(values: seq<Value>, encode: (bytes, Value) -> bytes) {
    forall b, v :: v in values ==> encode(b, v) == b + Key(v)
  }

  lemma {:induction false} EachAppendsKeys(dst: bytes, values: seq<Value>, encode: (bytes, Value) -> bytes)
    requires EncodesKeys(values, encode)
    ensures AppendEach(dst, values, encode) == dst + Keys(values)
  {
    hide Key;
    if values != [] {
      var last := |values| - 1;
      assert values == values[..last] + [values[last]];
      EachAppendsKeys(dst, values[..last], encode);
      KeysSnoc(values[..last], values[last]);
    }
  }

  /** The optional helper extends its buffer by the optional's key. */
  lemma OptionalAppends(dst: bytes, o: Option<Value>, encode: (bytes, Value) -> bytes)
    requires o.Some? ==> EncodesKeys([o.value], encode)
    ensures AppendKeyOptional(dst, o, encode) == dst + Key(OptionalValue(o))
  {
    if o.Some? {
      assert o.value in [o.value];
      assert encode(dst + [PLUS], o.value) == dst + [PLUS] + Key(o.value);
    }
  }

  /** The slice helper, as its loop extends the buffer: by the slice's key. */
  method AppendKeyArray(dst: bytes, values: seq<Value>, encode: (bytes, Value) -> bytes) returns (out: bytes)
    ensures out == AppendEach(dst + Decimal(|values|) + [SEPARATOR], values, encode)
    ensures EncodesKeys(values, encode) ==> out == dst + Key(ArrayValue(values))
  {
    out := dst + Decimal(|values|) + [SEPARATOR];
    ghost var head := out;
    for i := 0 to |values|
      invariant out == AppendEach(head, values[..i], encode)
    {
      assert values[..i + 1][..i] == values[..i];
      out := encode(out, values[i]);
    }
    assert values[..|values|] == values;
    if EncodesKeys(values, encode) {
      EachAppendsKeys(head, values, encode);
      assert Key(ArrayValue(values)) == Decimal(|values|) + [SEPARATOR] + Keys(values);
    }
  }

  /** The string helper for a slice, as its loop fills the builder. */
  method KeyArray(values: seq<Value>) returns (out: bytes)
    ensures out == Key(ArrayValue(values))
  {
    out := Decimal(|values|) + [SEPARATOR];
    for i := 0 to |values|
      invariant out == Decimal(|values|) + [SEPARATOR] + Keys(values[..i])
    {
      assert values[..i + 1] == values[..i] + [values[i]];
      KeysSnoc(values[..i], values[i]);
      out := out + Key(values[i]);
    }
    assert values[..|values|] == values;
  }

  // --- Frames split one way only ---

  lemma {:induction false} DecimalInjective(m: nat, n: nat)
    requires Decimal(m) == Decimal(n)
    ensures m == n
  {
    assert (m >= 10 <==> |Decimal(m)| >= 2) && (n >= 10 <==> |Decimal(n)| >= 2);
    if m >= 10 {
      var a, b := Decimal(m / 10), Decimal(n / 10);
      assert Decimal(m)[..|a|] == a && Decimal(n)[..|b|] == b;
      assert Decimal(m)[|a|] == 0x30 + m % 10 && Decimal(n)[|b|] == 0x30 + n % 10;
      DecimalInjective(m / 10, n / 10);
    }
  }

  /** A number ends at its colon. */
  lemma CountUnique(m: nat, n: nat, x: bytes, y: bytes)
    requires Decimal(m) + [SEPARATOR] + x == Decimal(n) + [SEPARATOR] + y
    ensures m == n && x == y
  {
    var a, b := Decimal(m), Decimal(n);
    var s := a + [SEPARATOR] + x;
    assert s == b + [SEPARATOR] + y;
    assert s[|a|] == SEPARATOR && s[|b|] == SEPARATOR;
    assert forall i :: 0 <= i < |a| ==> IsDigit(s[i]) by { assert forall i :: 0 <= i < |a| ==> s[i] == a[i]; }
    assert forall i :: 0 <= i < |b| ==> IsDigit(s[i]) by { assert forall i :: 0 <= i < |b| ==> s[i] == b[i]; }
    assert |a| == |b|;
    assert a == s[..|a|] == b;
    DecimalInjective(m, n);
    assert x == s[|a| + 1..] == y;
  }

  lemma FrameUnique(s: bytes, t: bytes, x: bytes, y: bytes)
    requires Frame(s) + x == Frame(t) + y
    ensures s == t && x == y
  {
    assert Frame(s) + x == Decimal(|s|) + [SEPARATOR] + (s + x);
    assert Frame(t) + y == Decimal(|t|) + [SEPARATOR] + (t + y);
    CountUnique(|s|, |t|, s + x, t + y);
    assert s == (s + x)[..|s|] && t == (t + y)[..|t|];
    assert x == (s + x)[|s|..] && y == (t + y)[|t|..];
  }

  lemma FormatIntInjective(m: int, n: int)
    requires FormatInt(m) == FormatInt(n)
    ensures m == n
  {
    assert (FormatInt(m)[0] == MINUS <==> m < 0) && (FormatInt(n)[0] == MINUS <==> n < 0);
    if m < 0 {
      assert Decimal(-m) == FormatInt(m)[1..] == Decimal(-n);
      DecimalInjective(-m, -n);
    } else {
      DecimalInjective(m, n);
    }
  }

  // --- Plans ---

  datatype Kind =
    | KindString | KindBool | KindInt | KindUint | KindFloat | KindBytes | KindTime
    | KindOptional | KindArray | KindOther

  /** How a field's type reaches a framing helper; elem is what a pointer or a slice holds. */
  datatype KeyType = KeyType(kind: Kind, elem: Option<KeyType>)

  predicate Plannable(t: KeyType) {
    match t.kind
    case KindOther => false
    case KindOptional | KindArray => t.elem.Some? && Plannable(t.elem.value)
    case _ => true
  }

  /** A type and what it wraps, and what that wraps. */
  function Parts(t: KeyType): seq<KeyType> {
    [t] + if t.kind in {KindOptional, KindArray} && t.elem.Some? then Parts(t.elem.value) else []
  }

  predicate HasHelper(t: KeyType) {
    t.kind != KindOther && (t.kind in {KindOptional, KindArray} ==> t.elem.Some?)
  }

  predicate AllHelped(parts: seq<KeyType>) {
    forall i :: 0 <= i < |parts| ==> HasHelper(parts[i])
  }

  lemma AllHelpedCons(t: KeyType, rest: seq<KeyType>)
    ensures AllHelped([t] + rest) <==> HasHelper(t) && AllHelped(rest)
  {
    hide HasHelper;
    var all := [t] + rest;
    assert all[0] == t;
    if AllHelped(all) {
      forall i | 0 <= i < |rest| ensures HasHelper(rest[i]) {
        assert all[i + 1] == rest[i];
      }
    }
  }

  /** A type can be planned when no part of it lacks a helper, or wraps nothing. */
  lemma {:induction false} PlannableExactly(t: KeyType)
    ensures Plannable(t) <==> AllHelped(Parts(t))
    decreases t
  {
    if t.kind in {KindOptional, KindArray} && t.elem.Some? {
      PlannableExactly(t.elem.value);
      AllHelpedCons(t, Parts(t.elem.value));
      hide AllHelped;
    } else {
      AllHelpedCons(t, []);
      assert AllHelped([]);
      assert [t] + [] == [t] && Parts(t) == [t];
      hide AllHelped;
    }
  }

  predicate HasType(v: Value, t: KeyType)
    decreases t, 1
  {
    match t.kind
    case KindString => v.StringValue?
    case KindBool => v.BoolValue?
    case KindInt => v.IntValue?
    case KindUint => v.UintValue?
    case KindFloat => v.FloatValue?
    case KindBytes => v.BytesValue?
    case KindTime => v.TimeValue?
    case KindOptional => t.elem.Some? && v.OptionalValue? && (v.value.Some? ==> HasType(v.value.value, t.elem.value))
    case KindArray => t.elem.Some? && v.ArrayValue? && AllHaveType(v.values, t.elem.value)
    case KindOther => false
  }

  predicate AllHaveType(values: seq<Value>, t: KeyType)
    decreases t, 2
  {
    forall i :: 0 <= i < |values| ==> HasType(values[i], t)
  }

  /** A value of a known type is read back from its key alone, whatever follows it. */
  lemma {:induction false} KeyUnique(t: KeyType, v: Value, w: Value, x: bytes, y: bytes)
    requires HasType(v, t) && HasType(w, t) && Key(v) + x == Key(w) + y
    ensures v == w && x == y
    decreases t, 0
  {
    match t.kind
    case KindString => FrameUnique(v.s, w.s, x, y);
    case KindBool => FrameUnique(BoolText(v.b), BoolText(w.b), x, y);
    case KindInt =>
      FrameUnique(FormatInt(v.n), FormatInt(w.n), x, y);
      FormatIntInjective(v.n, w.n);
    case KindUint =>
      FrameUnique(Decimal(v.u), Decimal(w.u), x, y);
      DecimalInjective(v.u, w.u);
    case KindFloat => FrameUnique(v.text, w.text, x, y);
    case KindBytes => FrameUnique(v.s, w.s, x, y);
    case KindTime => FrameUnique(v.text, w.text, x, y);
    case KindOptional =>
      assert (Key(v) + x)[0] == Key(v)[0] && (Key(w) + y)[0] == Key(w)[0];
      assert (Key(v) + x)[1..] == Key(v)[1..] + x && (Key(w) + y)[1..] == Key(w)[1..] + y;
      if v.value.Some? {
        assert Key(v)[1..] == Key(v.value.value) && Key(w)[1..] == Key(w.value.value);
        KeyUnique(t.elem.value, v.value.value, w.value.value, x, y);
      } else {
        assert Key(v)[1..] == [] == Key(w)[1..];
      }
    case KindArray =>
      assert Key(v) + x == Decimal(|v.values|) + [SEPARATOR] + (Keys(v.values) + x);
      assert Key(w) + y == Decimal(|w.values|) + [SEPARATOR] + (Keys(w.values) + y);
      CountUnique(|v.values|, |w.values|, Keys(v.values) + x, Keys(w.values) + y);
      KeysUnique(t.elem.value, v.values, w.values, x, y);
  }

  lemma {:induction false} KeysUnique(t: KeyType, vs: seq<Value>, ws: seq<Value>, x: bytes, y: bytes)
    requires AllHaveType(vs, t) && AllHaveType(ws, t) && |vs| == |ws| && Keys(vs) + x == Keys(ws) + y
    ensures vs == ws && x == y
    decreases t, 1, |vs|
  {
    if vs != [] {
      assert Keys(vs) + x == Key(vs[0]) + (Keys(vs[1..]) + x);
      assert Keys(ws) + y == Key(ws[0]) + (Keys(ws[1..]) + y);
      KeyUnique(t, vs[0], ws[0], Keys(vs[1..]) + x, Keys(ws[1..]) + y);
      KeysUnique(t, vs[1..], ws[1..], x, y);
      assert vs == [vs[0]] + vs[1..] && ws == [ws[0]] + ws[1..];
    } else {
      assert Keys(vs) + x == x && Keys(ws) + y == y;
    }
  }

  /** Two lists of values of one field plan. */
  predicate Fields(vs: seq<Value>, types: seq<KeyType>) {
    |vs| == |types| && forall i :: 0 <= i < |vs| ==> HasType(vs[i], types[i])
  }

  /** Equal keys of one plan come from equal fields, and what follows them is equal too. */
  lemma {:induction false} FieldListUnique(types: seq<KeyType>, vs: seq<Value>, ws: seq<Value>, x: bytes, y: bytes)
    requires Fields(vs, types) && Fields(ws, types) && Keys(vs) + x == Keys(ws) + y
    ensures vs == ws && x == y
  {
    if types != [] {
      assert Keys(vs) + x == Key(vs[0]) + (Keys(vs[1..]) + x);
      assert Keys(ws) + y == Key(ws[0]) + (Keys(ws[1..]) + y);
      KeyUnique(types[0], vs[0], ws[0], Keys(vs[1..]) + x, Keys(ws[1..]) + y);
      FieldListUnique(types[1..], vs[1..], ws[1..], x, y);
      assert vs == [vs[0]] + vs[1..] && ws == [ws[0]] + ws[1..];
    } else {
      assert Keys(vs) + x == x && Keys(ws) + y == y;
    }
  }

  // --- Identities ---

  function Identity(packagePath: bytes, name: bytes): bytes {
    if packagePath == [] then name else packagePath + [DOT] + name
  }

  function CacheKey(identity: bytes, vs: seq<Value>): bytes {
    Frame(identity) + Keys(vs)
  }

  /** A type name holds no dot, so the identity names one package and one type. */
  lemma IdentityUnique(p: bytes, m: bytes, q: bytes, n: bytes)
    requires DOT !in m && DOT !in n && Identity(p, m) == Identity(q, n)
    ensures p == q && m == n
  {
    NameAfterDot(p, m);
    NameAfterDot(q, n);
    var s := Identity(p, m);
    assert |m| == |n|;
    assert s[|s| - |m|..] == m && s[|s| - |n|..] == n;
    assert p != [] ==> s[..|s| - |m| - 1] == p;
    assert q != [] ==> s[..|s| - |n| - 1] == q;
  }

  lemma NameAfterDot(p: bytes, m: bytes)
    requires DOT !in m
    ensures var s := Identity(p, m);
            && (forall i :: |s| - |m| <= i < |s| ==> s[i] != DOT)
            && (if p == [] then |s| == |m| else |s| > |m| && s[|s| - |m| - 1] == DOT)
  {
    var s := Identity(p, m);
    forall i | |s| - |m| <= i < |s| ensures s[i] != DOT {
      assert s[i] == m[i - (|s| - |m|)];
    }
  }

  /** Keys of two types coincide only when the types are the same. */
  lemma KeysOfTypesNeverMeet(p: bytes, m: bytes, vs: seq<Value>, q: bytes, n: bytes, ws: seq<Value>)
    requires DOT !in m && DOT !in n
    requires CacheKey(Identity(p, m), vs) == CacheKey(Identity(q, n), ws)
    ensures p == q && m == n && Keys(vs) == Keys(ws)
  {
    FrameUnique(Identity(p, m), Identity(q, n), Keys(vs), Keys(ws));
    IdentityUnique(p, m, q, n);
  }

  // --- The emitted key method and its evaluation ---

  datatype Expr = Field(name: bytes) | Param(name: bytes)

  /** One emitted helper call; a wrapper carries the closure that frames what it holds. */
  datatype Call =
    | AppendScalar(kind: Kind, arg: Expr)
    | AppendOptional(arg: Expr, param: bytes, body: Call)
    | AppendArray(arg: Expr, param: bytes, body: Call)

  datatype Env = Env(fields: map<bytes, Value>, params: map<bytes, Value>)

  function Lookup(env: Env, e: Expr): Value {
    match e
    case Field(name) => if name in env.fields then env.fields[name] else StringValue([])
    case Param(name) => if name in env.params then env.params[name] else StringValue([])
  }

  /** A helper is of one kind; what it makes of another kind's value, no emitted code asks. */
  function Scalar(kind: Kind, b: bytes, v: Value): bytes {
    match (kind, v)
    case (KindString, StringValue(s)) => AppendFramed(b, s)
    case (KindBool, BoolValue(flag)) => AppendKeyBool(b, flag)
    case (KindInt, IntValue(n)) => AppendFramed(b, FormatInt(n))
    case (KindUint, UintValue(u)) => AppendFramed(b, Decimal(u))
    case (KindFloat, FloatValue(text)) => AppendFramed(b, text)
    case (KindBytes, BytesValue(s)) => AppendFramed(b, s)
    case (KindTime, TimeValue(text)) => AppendFramed(b, text)
    case _ => []
  }

  function Eval(call: Call, env: Env, b: bytes): bytes
    decreases call, 0
  {
    match call
    case AppendScalar(kind, arg) => Scalar(kind, b, Lookup(env, arg))
    case AppendOptional(arg, param, body) =>
      var v := Lookup(env, arg);
      if v.OptionalValue? then AppendKeyOptional(b, v.value, Closure(param, body, env)) else b
    case AppendArray(arg, param, body) =>
      var v := Lookup(env, arg);
      if v.ArrayValue? then AppendEach(b + Decimal(|v.values|) + [SEPARATOR], v.values, Closure(param, body, env)) else b
  }

  function Closure(param: bytes, body: Call, env: Env): (bytes, Value) -> bytes
    decreases body, 1
  {
    (b: bytes, v: Value) => Eval(body, env.(params := env.params[param := v]), b)
  }

  /** Every variable a call reads is bound where it stands, and no closure parameter hides an outer one. */
  predicate Scoped(call: Call, params: set<bytes>) {
    match call
    case AppendScalar(_, arg) => arg.Param? ==> arg.name in params
    case AppendOptional(arg, param, body) =>
      (arg.Param? ==> arg.name in params) && param !in params && Scoped(body, params + {param})
    case AppendArray(arg, param, body) =>
      (arg.Param? ==> arg.name in params) && param !in params && Scoped(body, params + {param})
  }

  /** Each append helper extends the buffer by the matching string helper's text. */
  lemma ScalarAppendsKey(t: KeyType, b: bytes, v: Value)
    requires HasType(v, t) && !t.kind.KindOptional? && !t.kind.KindArray?
    ensures Scalar(t.kind, b, v) == b + Key(v)
  {
    match v
    case StringValue(s) => FramedAppends(b, s);
    case BoolValue(flag) => BoolAppends(b, flag);
    case IntValue(n) => FramedAppends(b, FormatInt(n));
    case UintValue(u) => FramedAppends(b, Decimal(u));
    case FloatValue(text) => FramedAppends(b, text);
    case BytesValue(s) => FramedAppends(b, s);
    case TimeValue(text) => FramedAppends(b, text);
  }

  /** A helper of another kind does not write the value's key, so the one emitted is the one of its type. */
  lemma OtherHelperFails(kind: Kind, t: KeyType, b: bytes, v: Value)
    requires HasType(v, t) && kind != t.kind && !t.kind.KindOptional? && !t.kind.KindArray?
    ensures Scalar(kind, b, v) != b + Key(v)
  {
    assert |Decimal(0)| > 0;
    assert |Key(v)| > 0;
  }

  lemma FramedAppends(b: bytes, text: bytes)
    ensures AppendFramed(b, text) == b + Frame(text)
  {
  }

  lemma BoolAppends(b: bytes, flag: bool)
    ensures AppendKeyBool(b, flag) == b + Frame(BoolText(flag))
  {
    assert Decimal(4) == [0x34] && Decimal(5) == [0x35];
    assert Frame(BoolText(true)) == [0x34, 0x3A, 0x74, 0x72, 0x75, 0x65];
    assert Frame(BoolText(false)) == [0x35, 0x3A, 0x66, 0x61, 0x6C, 0x73, 0x65];
  }

  ghost predicate Frames(call: Call, t: KeyType, e: Expr) {
    forall env, b {:trigger Eval(call, env, b)} ::
      HasType(Lookup(env, e), t) ==> Eval(call, env, b) == b + Key(Lookup(env, e))
  }

  lemma ClosureFrames(param: bytes, body: Call, t: KeyType, env: Env, b: bytes, v: Value)
    requires Frames(body, t, Param(param)) && HasType(v, t)
    ensures Closure(param, body, env)(b, v) == b + Key(v)
  {
    assert Lookup(env.(params := env.params[param := v]), Param(param)) == v;
  }

  lemma OptionalFrames(t: KeyType, e: Expr, param: bytes, body: Call, env: Env, b: bytes)
    requires t.kind.KindOptional? && t.elem.Some? && Frames(body, t.elem.value, Param(param)) && HasType(Lookup(env, e), t)
    ensures Eval(AppendOptional(e, param, body), env, b) == b + Key(Lookup(env, e))
  {
    var v := Lookup(env, e);
    hide Key, Frames, Lookup, Closure;
    if v.value.Some? {
      forall d, w | w in [v.value.value] ensures Closure(param, body, env)(d, w) == d + Key(w) {
        ClosureFrames(param, body, t.elem.value, env, d, w);
      }
    }
    OptionalAppends(b, v.value, Closure(param, body, env));
  }

  lemma ArrayFrames(t: KeyType, e: Expr, param: bytes, body: Call, env: Env, b: bytes)
    requires t.kind.KindArray? && t.elem.Some? && Frames(body, t.elem.value, Param(param)) && HasType(Lookup(env, e), t)
    ensures Eval(AppendArray(e, param, body), env, b) == b + Key(Lookup(env, e))
  {
    var v := Lookup(env, e);
    assert Key(v) == Decimal(|v.values|) + [SEPARATOR] + Keys(v.values);
    hide Key, Frames, Lookup, Closure, Keys;
    forall d, w | w in v.values ensures Closure(param, body, env)(d, w) == d + Key(w) {
      ClosureFrames(param, body, t.elem.value, env, d, w);
    }
    EachAppendsKeys(b + Decimal(|v.values|) + [SEPARATOR], v.values, Closure(param, body, env));
  }

  lemma WrapFrames(t: KeyType, e: Expr, param: bytes, body: Call)
    requires (t.kind.KindOptional? || t.kind.KindArray?) && t.elem.Some? && Frames(body, t.elem.value, Param(param))
    ensures Frames(if t.kind.KindOptional? then AppendOptional(e, param, body) else AppendArray(e, param, body), t, e)
  {
    hide Key, Eval, HasType, Lookup;
    var call := if t.kind.KindOptional? then AppendOptional(e, param, body) else AppendArray(e, param, body);
    forall env, b | HasType(Lookup(env, e), t)
      ensures Eval(call, env, b) == b + Key(Lookup(env, e))
    {
      if t.kind.KindOptional? {
        OptionalFrames(t, e, param, body, env, b);
      } else {
        ArrayFrames(t, e, param, body, env, b);
      }
    }
  }

  function ParamName(depth: nat): bytes {
    [0x65] + Decimal(depth)
  }

  /** The closure parameters in scope at a depth. */
  function ParamsTo(depth: nat): set<bytes> {
    if depth == 0 then {} else ParamsTo(depth - 1) + {ParamName(depth)}
  }

  lemma {:induction false} ParamFresh(depth: nat, n: nat)
    requires depth < n
    ensures ParamName(n) !in ParamsTo(depth)
  {
    if depth > 0 {
      ParamFresh(depth - 1, n);
      if ParamName(n) == ParamName(depth) {
        assert Decimal(n) == ParamName(n)[1..] == ParamName(depth)[1..] == Decimal(depth);
        DecimalInjective(n, depth);
      }
    }
  }

  datatype FieldPlan = FieldPlan(name: bytes, keyType: KeyType)

  /** The emitted method: the identity, then one call a field onto the same buffer. */
  datatype Program = Program(identity: bytes, calls: seq<Call>)

  function Run(calls: seq<Call>, env: Env, b: bytes): bytes {
    if calls == [] then b
    else Eval(calls[|calls| - 1], env, Run(calls[..|calls| - 1], env, b))
  }

  function RunProgram(p: Program, fields: map<bytes, Value>): bytes {
    Run(p.calls, Env(fields, map[]), AppendFramed([], p.identity))
  }

  function ValuesOf(plan: seq<FieldPlan>, fields: map<bytes, Value>): seq<Value> {
    seq(|plan|, i requires 0 <= i < |plan| => Lookup(Env(fields, map[]), Field(plan[i].name)))
  }

  function TypesOf(plan: seq<FieldPlan>): seq<KeyType> {
    seq(|plan|, i requires 0 <= i < |plan| => plan[i].keyType)
  }

  class Emitter {
    const packagePath: bytes
    var depth: nat

    constructor (packagePath: bytes)
      ensures this.packagePath == packagePath && depth == 0
    {
      this.packagePath := packagePath;
      depth := 0;
    }

    /** The call that frames one value; a type is refused exactly when some part of it has no helper. */
    method EmitFrame(t: KeyType, e: Expr) returns (call: Option<Call>)
      modifies this`depth
      ensures depth == old(depth)
      ensures call.Some? <==> Plannable(t)
      ensures call.Some? ==> Frames(call.value, t, e)
      ensures call.Some? && (e.Param? ==> e.name in ParamsTo(depth)) ==> Scoped(call.value, ParamsTo(depth))
      decreases t, 1
    {
      match t.kind
      case KindOptional | KindArray => call := EmitWrap(t, e);
      case KindOther => call := None;
      case _ =>
        forall env, b | HasType(Lookup(env, e), t) {
          ScalarAppendsKey(t, b, Lookup(env, e));
        }
        call := Some(AppendScalar(t.kind, e));
    }

    /** An optional or an array, and the closure that frames its element under a parameter of its own. */
    method EmitWrap(t: KeyType, e: Expr) returns (call: Option<Call>)
      requires t.kind.KindOptional? || t.kind.KindArray?
      modifies this`depth
      ensures depth == old(depth)
      ensures call.Some? <==> Plannable(t)
      ensures call.Some? ==> Frames(call.value, t, e)
      ensures call.Some? && (e.Param? ==> e.name in ParamsTo(depth)) ==> Scoped(call.value, ParamsTo(depth))
      decreases t, 0
    {
      if t.elem.None? {
        return None;
      }
      depth := depth + 1;
      var param := ParamName(depth);
      var body := EmitFrame(t.elem.value, Param(param));
      depth := depth - 1;
      if body.None? {
        return None;
      }
      ParamFresh(depth, depth + 1);
      WrapFrames(t, e, param, body.value);
      return Some(if t.kind.KindOptional? then AppendOptional(e, param, body.value) else AppendArray(e, param, body.value));
    }

    /** Emits the key method of one type, refusing an empty plan and any field without a helper. */
    method EmitKey(name: bytes, plan: seq<FieldPlan>) returns (program: Option<Program>)
      modifies this`depth
      ensures program.Some? <==> plan != [] && forall i :: 0 <= i < |plan| ==> Plannable(plan[i].keyType)
      ensures program.Some? ==> forall fields {:trigger RunProgram(program.value, fields)} ::
                Fields(ValuesOf(plan, fields), TypesOf(plan)) ==>
                RunProgram(program.value, fields) == CacheKey(Identity(packagePath, name), ValuesOf(plan, fields))
      ensures program.Some? ==> forall i :: 0 <= i < |program.value.calls| ==> Scoped(program.value.calls[i], {})
    {
      if |plan| == 0 {
        return None;
      }
      var calls: seq<Call> := [];
      for i := 0 to |plan|
        invariant |calls| == i
        invariant forall j :: 0 <= j < i ==> Plannable(plan[j].keyType)
        invariant forall j :: 0 <= j < i ==> Frames(calls[j], plan[j].keyType, Field(plan[j].name)) && Scoped(calls[j], {})
      {
        depth := 0;
        var call := EmitFrame(plan[i].keyType, Field(plan[i].name));
        if call.None? {
          return None;
        }
        calls := calls + [call.value];
      }
      program := Some(Program(Identity(packagePath, name), calls));
      forall fields | Fields(ValuesOf(plan, fields), TypesOf(plan))
        ensures RunProgram(program.value, fields) == CacheKey(Identity(packagePath, name), ValuesOf(plan, fields))
      {
        assert AppendFramed([], Identity(packagePath, name)) == Frame(Identity(packagePath, name));
        forall j | 0 <= j < |plan| {
          PlanWrites(plan, calls, fields, j);
        }
        RunWrites(calls, Env(fields, map[]), ValuesOf(plan, fields), Frame(Identity(packagePath, name)));
      }
    }
  }

  /** Run in this environment, the call appends the key of v. */
  ghost predicate Writes(call: Call, env: Env, v: Value) {
    forall b {:trigger Eval(call, env, b)} :: Eval(call, env, b) == b + Key(v)
  }

  lemma {:induction false} RunWrites(calls: seq<Call>, env: Env, vs: seq<Value>, b: bytes)
    requires |calls| == |vs| && forall j :: 0 <= j < |vs| ==> Writes(calls[j], env, vs[j])
    ensures Run(calls, env, b) == b + Keys(vs)
  {
    hide Key, Eval;
    if vs != [] {
      var last := |vs| - 1;
      RunWrites(calls[..last], env, vs[..last], b);
      assert vs == vs[..last] + [vs[last]];
      KeysSnoc(vs[..last], vs[last]);
      hide Keys;
    }
  }

  lemma PlanWrites(plan: seq<FieldPlan>, calls: seq<Call>, fields: map<bytes, Value>, j: nat)
    requires |calls| == |plan| && Fields(ValuesOf(plan, fields), TypesOf(plan)) && j < |plan|
    requires Frames(calls[j], plan[j].keyType, Field(plan[j].name))
    ensures Writes(calls[j], Env(fields, map[]), ValuesOf(plan, fields)[j])
  {
    hide Key, Eval;
    assert HasType(ValuesOf(plan, fields)[j], TypesOf(plan)[j]);
  }

  /** Two values of one planned type have equal keys only when their planned fields are equal. */
  lemma EqualKeysEqualFields(plan: seq<FieldPlan>, identity: bytes, a: map<bytes, Value>, b: map<bytes, Value>)
    requires Fields(ValuesOf(plan, a), TypesOf(plan)) && Fields(ValuesOf(plan, b), TypesOf(plan))
    requires CacheKey(identity, ValuesOf(plan, a)) == CacheKey(identity, ValuesOf(plan, b))
    ensures ValuesOf(plan, a) == ValuesOf(plan, b)
  {
    var vs, ws := ValuesOf(plan, a), ValuesOf(plan, b);
    FrameUnique(identity, identity, Keys(vs), Keys(ws));
    assert Keys(vs) + [] == Keys(ws) + [];
    FieldListUnique(TypesOf(plan), vs, ws, [], []);
  }
}
