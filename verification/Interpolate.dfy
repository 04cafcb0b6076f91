/**
 * ${NAME} expansion of configuration values. Every value has one tokenization; expanding it
 * is substitution over that tokenization, and substituted text is never looked at again.
 */
module Interpolate {
  import opened ByteStrings

  const DOLLAR: byte := 0x24
  const LBRACE: byte := 0x7B
  const RBRACE: byte := 0x7D

  // --- Tokens ---

  /** Text is any byte but a dollar; Lone is a dollar that starts neither an escape nor a reference. */
  datatype Token = Text(b: byte) | Escape | Lone | Ref(name: bytes)

  function RenderToken(t: Token): bytes {
    match t
    case Text(b) => [b]
    case Escape => [DOLLAR, DOLLAR]
    case Lone => [DOLLAR]
    case Ref(name) => [DOLLAR, LBRACE] + name + [RBRACE]
  }

  function Render(ts: seq<Token>): bytes {
    if ts == [] then [] else RenderToken(ts[0]) + Render(ts[1..])
  }

  /** A reference that is never closed, or nothing. */
  predicate IsTail(tail: bytes) {
    tail == [] || (|tail| >= 2 && tail[0] == DOLLAR && tail[1] == LBRACE && forall j :: 2 <= j < |tail| ==> tail[j] != RBRACE)
  }

  /** ts and tail spell s, and no lone dollar stands where an escape or a reference would start. */
  predicate Tokenizes(s: bytes, ts: seq<Token>, tail: bytes)
    decreases |ts|
  {
    if ts == [] then s == tail && IsTail(tail)
    else
      && RenderToken(ts[0]) <= s
      && (ts[0].Text? ==> ts[0].b != DOLLAR)
      && (ts[0].Ref? ==> forall j :: 0 <= j < |ts[0].name| ==> ts[0].name[j] != RBRACE)
      && (ts[0].Lone? && |s| > 1 ==> s[1] != DOLLAR && s[1] != LBRACE)
      && Tokenizes(s[|RenderToken(ts[0])|..], ts[1..], tail)
  }

  /** The first token, or None at the end and at a reference that is never closed. */
  function NextToken(s: bytes): (t: Option<Token>)
    ensures t.Some? ==> 0 < |RenderToken(t.value)| <= |s|
  {
    if s == [] then None
    else if s[0] != DOLLAR then Some(Text(s[0]))
    else if |s| > 1 && s[1] == DOLLAR then Some(Escape)
    else if |s| == 1 || s[1] != LBRACE then Some(Lone)
    else
      var end := IndexOf(s[2..], RBRACE);
      if end < 0 then None else Some(Ref(s[2..2 + end]))
  }

  lemma NextSpells(s: bytes)
    requires NextToken(s).Some?
    ensures RenderToken(NextToken(s).value) <= s
    ensures NextToken(s).value.Ref? ==> forall j :: 0 <= j < |NextToken(s).value.name| ==> NextToken(s).value.name[j] != RBRACE
  {
    var t := NextToken(s).value;
    if t.Ref? {
      var end := |t.name|;
      assert forall i :: 0 <= i < end ==> t.name[i] == s[2..][i];
      assert RenderToken(t) == s[..end + 3];
    }
  }

  function Tokens(s: bytes): seq<Token> {
    match NextToken(s)
    case None => []
    case Some(t) => [t] + Tokens(s[|RenderToken(t)|..])
  }

  function Tail(s: bytes): bytes {
    match NextToken(s)
    case None => s
    case Some(t) => Tail(s[|RenderToken(t)|..])
  }

  /** Every string has a tokenization. */
  lemma {:induction false} TokenizationExists(s: bytes)
    ensures Tokenizes(s, Tokens(s), Tail(s))
    decreases |s|
  {
    match NextToken(s)
    case None => assert s != [] ==> forall j :: 2 <= j < |s| ==> s[j] == s[2..][j - 2];
    case Some(t) =>
      var rest := s[|RenderToken(t)|..];
      TokenizationExists(rest);
      assert Tokens(s)[1..] == Tokens(rest);
      NextSpells(s);
  }

  /** And only one. */
  lemma {:induction false} TokenizationUnique(s: bytes, ts: seq<Token>, tail: bytes)
    requires Tokenizes(s, ts, tail)
    ensures ts == Tokens(s) && tail == Tail(s)
    decreases |ts|
  {
    if ts != [] {
      hide Tokenizes, NextToken, RenderToken;
      FirstToken(s, ts, tail);
      TokenizesCons(s, ts, tail);
      TokenizationUnique(s[|RenderToken(ts[0])|..], ts[1..], tail);
      assert ts == [ts[0]] + ts[1..];
    } else if tail != [] {
      assert forall j :: 0 <= j < |s[2..]| ==> s[2..][j] != RBRACE;
    }
  }

  lemma FirstToken(s: bytes, ts: seq<Token>, tail: bytes)
    requires ts != [] && Tokenizes(s, ts, tail)
    ensures NextToken(s) == Some(ts[0])
  {
    var t := ts[0];
    var r := RenderToken(t);
    assert forall i :: 0 <= i < |r| ==> s[i] == r[i];
    match t
    case Text(_) =>
    case Escape => assert s[1] == r[1];
    case Lone =>
    case Ref(name) =>
      assert s[1] == r[1] && s[2..][..|name|] == name && s[2..][|name|] == RBRACE;
      var end := IndexOf(s[2..], RBRACE);
      assert forall i :: 0 <= i < |name| ==> s[2..][i] == name[i];
      assert forall i :: 0 <= i < end ==> s[2..][i] == s[2..][..end][i];
      assert end == |name|;
      assert s[2..2 + end] == s[2..][..end];
  }

  /** A tokenization spells its string. */
  lemma {:induction false} TokensSpell(s: bytes, ts: seq<Token>, tail: bytes)
    requires Tokenizes(s, ts, tail)
    ensures s == Render(ts) + tail
    decreases |ts|
  {
    if ts == [] {
      assert [] + tail == tail;
    } else {
      TokenizesCons(s, ts, tail);
      TokensSpell(s[|RenderToken(ts[0])|..], ts[1..], tail);
      assert Render(ts) == RenderToken(ts[0]) + Render(ts[1..]);
      hide *;
      Rejoin(s, RenderToken(ts[0]), Render(ts[1..]), tail);
    }
  }

  lemma Rejoin(s: bytes, r: bytes, a: bytes, tail: bytes)
    requires r <= s && s[|r|..] == a + tail
    ensures s == r + a + tail
  {
    assert s == r + s[|r|..];
  }

  lemma TokenizesCons(s: bytes, ts: seq<Token>, tail: bytes)
    requires ts != [] && Tokenizes(s, ts, tail)
    ensures RenderToken(ts[0]) <= s && Tokenizes(s[|RenderToken(ts[0])|..], ts[1..], tail)
  {
  }

  // --- Meaning ---

  datatype Error = Unterminated | EmptyName | InvalidName(name: bytes) | Undefined(name: bytes)

  datatype Expansion = Expanded(text: bytes, secret: bool) | Failed(error: Error)

  /** The composed environment: the defined names, and those whose value a secret source supplied. */
  datatype Environment = Environment(values: map<bytes, bytes>, secret: set<bytes>)

  predicate IsLetter(c: byte) {
    0x41 <= c <= 0x5A || 0x61 <= c <= 0x7A || c == 0x5F
  }

  predicate ValidName(name: bytes) {
    name != [] && forall i :: 0 <= i < |name| ==> IsLetter(name[i]) || (i > 0 && 0x30 <= name[i] <= 0x39)
  }

  /** The letters of either case, and the underscore. */
  predicate Lettered(c: byte) {
    c as char in CAPITALS || c as char in SMALL || c as char == '_'
  }

  lemma LetterExactly(c: byte)
    ensures IsLetter(c) <==> Lettered(c)
    ensures 0x30 <= c <= 0x39 <==> c as char in DIGITS
  {
    if 0x41 <= c <= 0x5A {
      LettersAre(c - 0x41);
      assert CAPITALS[c - 0x41] == c as char;
    } else if 0x61 <= c <= 0x7A {
      LettersAre(c - 0x61);
      assert SMALL[c - 0x61] == c as char;
    }
    DigitsInOrder(c as char);
    forall i | 0 <= i < 26 ensures CAPITALS[i] as int == 0x41 + i && SMALL[i] as int == 0x61 + i {
      LettersAre(i);
    }
  }

  /** A name is a letter or an underscore and then letters, underscores and digits. */
  lemma NameExactly(name: bytes)
    ensures ValidName(name) <==>
            name != [] && Lettered(name[0]) && forall i :: 0 < i < |name| ==> Lettered(name[i]) || name[i] as char in DIGITS
  {
    forall i | 0 <= i < |name| ensures IsLetter(name[i]) <==> Lettered(name[i])
      ensures 0x30 <= name[i] <= 0x39 <==> name[i] as char in DIGITS
    {
      LetterExactly(name[i]);
    }
    hide IsLetter, Lettered, DIGITS;
  }

  /** Tokens in their own characters. */
  lemma TokenText(t: Token)
    ensures Chars(RenderToken(Escape)) == "$$" && Chars(RenderToken(Lone)) == "$"
    ensures t.Ref? ==> Chars(RenderToken(t)) == "${" + Chars(t.name) + "}"
    ensures t.Text? ==> RenderToken(t) == [t.b]
  {
    if t.Ref? {
      assert RenderToken(t) == [DOLLAR, LBRACE] + t.name + [RBRACE];
    }
  }

  function RefError(name: bytes, env: Environment): Option<Error> {
    if name == [] then Some(EmptyName)
    else if !ValidName(name) then Some(InvalidName(name))
    else if name !in env.values then Some(Undefined(name))
    else None
  }

  function Value(t: Token, env: Environment): bytes {
    match t
    case Text(b) => [b]
    case Escape => [DOLLAR]
    case Lone => [DOLLAR]
    case Ref(name) => if name in env.values then env.values[name] else []
  }

  function Values(ts: seq<Token>, env: Environment): bytes {
    if ts == [] then [] else Value(ts[0], env) + Values(ts[1..], env)
  }

  predicate BadRef(t: Token, env: Environment) {
    t.Ref? && RefError(t.name, env).Some?
  }

  predicate SecretRef(t: Token, env: Environment) {
    t.Ref? && t.name in env.secret
  }

  /** The first token that is a bad reference. */
  function FirstBad(ts: seq<Token>, env: Environment): Option<Error> {
    if ts == [] then None
    else if BadRef(ts[0], env) then RefError(ts[0].name, env)
    else FirstBad(ts[1..], env)
  }

  predicate AnySecret(ts: seq<Token>, env: Environment) {
    exists i :: 0 <= i < |ts| && SecretRef(ts[i], env)
  }

  /** Substitution over a tokenization; the leftmost error wins. */
  function Meaning(ts: seq<Token>, tail: bytes, env: Environment): Expansion {
    match FirstBad(ts, env)
    case Some(e) => Failed(e)
    case None => if tail != [] then Failed(Unterminated) else Expanded(Values(ts, env), AnySecret(ts, env))
  }

  // --- The expander ---

  method CheckName(name: bytes) returns (error: Option<Error>)
    ensures error == if name == [] then Some(EmptyName) else if ValidName(name) then None else Some(InvalidName(name))
  {
    if name == [] {
      return Some(EmptyName);
    }
    for i := 0 to |name|
      invariant forall j :: 0 <= j < i ==> IsLetter(name[j]) || (j > 0 && 0x30 <= name[j] <= 0x39)
    {
      var c := name[i];
      if !IsLetter(c) && !(i > 0 && 0x30 <= c <= 0x39) {
        return Some(InvalidName(name));
      }
    }
    return None;
  }

  /** What the loop has made of the tokens before i, put in front of what the rest means. */
  function Resume(out: bytes, secret: bool, rest: Expansion): Expansion {
    match rest
    case Failed(e) => Failed(e)
    case Expanded(text, s) => Expanded(out + text, secret || s)
  }

  function MeaningOf(s: bytes, env: Environment): Expansion {
    Meaning(Tokens(s), Tail(s), env)
  }

  lemma MeaningCons(t: Token, ts: seq<Token>, tail: bytes, env: Environment, out: bytes, secret: bool)
    ensures Resume(out, secret, Meaning([t] + ts, tail, env)) ==
            if BadRef(t, env) then Failed(RefError(t.name, env).value)
            else Resume(out + Value(t, env), secret || SecretRef(t, env), Meaning(ts, tail, env))
  {
    assert ([t] + ts)[0] == t && ([t] + ts)[1..] == ts;
    SecretCons(t, ts, env);
    hide AnySecret, SecretRef, RefError, Value;
    assert out + (Value(t, env) + Values(ts, env)) == out + Value(t, env) + Values(ts, env);
  }

  /** One token of the input, read at position i. */
  lemma ResumeToken(raw: bytes, i: nat, t: Token, env: Environment, out: bytes, secret: bool)
    requires i <= |raw| && NextToken(raw[i..]) == Some(t)
    ensures i + |RenderToken(t)| <= |raw|
    ensures Resume(out, secret, MeaningOf(raw[i..], env)) ==
            if BadRef(t, env) then Failed(RefError(t.name, env).value)
            else Resume(out + Value(t, env), secret || SecretRef(t, env), MeaningOf(raw[i + |RenderToken(t)|..], env))
  {
    var s := raw[i..];
    var rest := s[|RenderToken(t)|..];
    assert rest == raw[i + |RenderToken(t)|..];
    assert Tokens(s) == [t] + Tokens(rest) && Tail(s) == Tail(rest);
    hide Tokens, Tail, NextToken, RenderToken, Meaning, Resume;
    MeaningCons(t, Tokens(rest), Tail(rest), env, out, secret);
  }

  /** The branch the loop takes at a dollar is the token that stands there. */
  lemma TokenAt(raw: bytes, i: nat)
    requires i < |raw|
    ensures raw[i] != DOLLAR ==> NextToken(raw[i..]) == Some(Text(raw[i]))
    ensures raw[i] == DOLLAR && i + 1 < |raw| && raw[i + 1] == DOLLAR ==> NextToken(raw[i..]) == Some(Escape)
    ensures raw[i] == DOLLAR && (i + 1 == |raw| || (raw[i + 1] != DOLLAR && raw[i + 1] != LBRACE)) ==>
              NextToken(raw[i..]) == Some(Lone)
    ensures raw[i] == DOLLAR && i + 1 < |raw| && raw[i + 1] == LBRACE ==>
              var end := IndexOf(raw[i + 2..], RBRACE);
              NextToken(raw[i..]) == if end < 0 then None else Some(Ref(raw[i + 2..i + 2 + end]))
  {
    var s := raw[i..];
    if i + 1 < |raw| && raw[i + 1] == LBRACE {
      assert s[2..] == raw[i + 2..];
      var end := IndexOf(raw[i + 2..], RBRACE);
      assert end >= 0 ==> s[2..2 + end] == raw[i + 2..i + 2 + end];
    }
  }

  lemma SecretCons(t: Token, ts: seq<Token>, env: Environment)
    ensures AnySecret([t] + ts, env) <==> SecretRef(t, env) || AnySecret(ts, env)
  {
    if AnySecret(ts, env) {
      var i :| 0 <= i < |ts| && SecretRef(ts[i], env);
      assert ([t] + ts)[i + 1] == ts[i];
    }
    if SecretRef(t, env) {
      assert ([t] + ts)[0] == t;
    }
  }

  lemma {:induction false} NoDollarMeaning(s: bytes, env: Environment)
    requires DOLLAR !in s
    ensures MeaningOf(s, env) == Expanded(s, false)
    decreases |s|
  {
    if s != [] {
      NoDollarMeaning(s[1..], env);
      assert s[0..] == s;
      ResumeToken(s, 0, Text(s[0]), env, [], false);
      assert s == [s[0]] + s[1..];
      ResumeNothing(MeaningOf(s, env));
    }
  }

  lemma ResumeNothing(e: Expansion)
    ensures Resume([], false, e) == e
  {
  }

  /** Expands raw as substitution over its tokenization. */
  method ExpandEnvRefs(raw: bytes, env: Environment) returns (r: Expansion)
    ensures r == MeaningOf(raw, env)
  {
    hide *;
    if DOLLAR !in raw {
      NoDollarMeaning(raw, env);
      return Expanded(raw, false);
    }
    var out: bytes, secret := [], false;
    var i := 0;
    ResumeNothing(MeaningOf(raw, env));
    assert raw[0..] == raw;
    while i < |raw|
      invariant i <= |raw|
      invariant MeaningOf(raw, env) == Resume(out, secret, MeaningOf(raw[i..], env))
    {
      if raw[i] != DOLLAR {
        TextStep(raw, i, env, out, secret);
        out := out + [raw[i]];
        i := i + 1;
      } else if i + 1 < |raw| && raw[i + 1] == DOLLAR {
        EscapeStep(raw, i, env, out, secret);
        out := out + [DOLLAR];
        i := i + 2;
      } else if i + 1 >= |raw| || raw[i + 1] != LBRACE {
        LoneStep(raw, i, env, out, secret);
        out := out + [DOLLAR];
        i := i + 1;
      } else {
        var end := IndexOf(raw[i + 2..], RBRACE);
        RefStep(raw, i, env, out, secret);
        if end < 0 {
          return Failed(Unterminated);
        }
        var name := raw[i + 2..i + 2 + end];
        var error := CheckName(name);
        if error.Some? {
          return Failed(error.value);
        }
        if name !in env.values {
          return Failed(Undefined(name));
        }
        if name in env.secret {
          secret := true;
        }
        out := out + env.values[name];
        i := i + 2 + end + 1;
      }
    }
    assert raw[i..] == [];
    EndMeaning(env, out, secret);
    return Expanded(out, secret);
  }

  lemma TextStep(raw: bytes, i: nat, env: Environment, out: bytes, secret: bool)
    requires i < |raw| && raw[i] != DOLLAR
    ensures Resume(out, secret, MeaningOf(raw[i..], env)) == Resume(out + [raw[i]], secret, MeaningOf(raw[i + 1..], env))
  {
    TokenAt(raw, i);
    hide NextToken, MeaningOf, Resume;
    ResumeToken(raw, i, Text(raw[i]), env, out, secret);
  }

  lemma EscapeStep(raw: bytes, i: nat, env: Environment, out: bytes, secret: bool)
    requires i + 1 < |raw| && raw[i] == DOLLAR && raw[i + 1] == DOLLAR
    ensures Resume(out, secret, MeaningOf(raw[i..], env)) == Resume(out + [DOLLAR], secret, MeaningOf(raw[i + 2..], env))
  {
    TokenAt(raw, i);
    hide NextToken, MeaningOf, Resume;
    ResumeToken(raw, i, Escape, env, out, secret);
  }

  lemma LoneStep(raw: bytes, i: nat, env: Environment, out: bytes, secret: bool)
    requires i < |raw| && raw[i] == DOLLAR
    requires i + 1 == |raw| || (raw[i + 1] != DOLLAR && raw[i + 1] != LBRACE)
    ensures Resume(out, secret, MeaningOf(raw[i..], env)) == Resume(out + [DOLLAR], secret, MeaningOf(raw[i + 1..], env))
  {
    TokenAt(raw, i);
    hide NextToken, MeaningOf, Resume;
    ResumeToken(raw, i, Lone, env, out, secret);
  }

  lemma RefStep(raw: bytes, i: nat, env: Environment, out: bytes, secret: bool)
    requires i + 1 < |raw| && raw[i] == DOLLAR && raw[i + 1] == LBRACE
    ensures var end := IndexOf(raw[i + 2..], RBRACE);
            Resume(out, secret, MeaningOf(raw[i..], env)) ==
            if end < 0 then Failed(Unterminated)
            else
              var name := raw[i + 2..i + 2 + end];
              if name == [] then Failed(EmptyName)
              else if !ValidName(name) then Failed(InvalidName(name))
              else if name !in env.values then Failed(Undefined(name))
              else Resume(out + env.values[name], secret || name in env.secret, MeaningOf(raw[i + 2 + end + 1..], env))
  {
    hide *;
    var end := IndexOf(raw[i + 2..], RBRACE);
    TokenAt(raw, i);
    if end < 0 {
      UnterminatedMeaning(raw[i..], env, out, secret);
    } else {
      var name := raw[i + 2..i + 2 + end];
      RefMeans(name, env);
      ResumeToken(raw, i, Ref(name), env, out, secret);
    }
  }

  lemma RefMeans(name: bytes, env: Environment)
    ensures |RenderToken(Ref(name))| == |name| + 3
    ensures BadRef(Ref(name), env) <==> name == [] || !ValidName(name) || name !in env.values
    ensures BadRef(Ref(name), env) ==> RefError(name, env).Some?
    ensures BadRef(Ref(name), env) ==>
              if name == [] then RefError(name, env).value == EmptyName
              else if !ValidName(name) then RefError(name, env).value == InvalidName(name)
              else RefError(name, env).value == Undefined(name)
    ensures name in env.values ==> Value(Ref(name), env) == env.values[name]
    ensures SecretRef(Ref(name), env) <==> name in env.secret
  {
  }

  lemma UnterminatedMeaning(s: bytes, env: Environment, out: bytes, secret: bool)
    requires s != [] && NextToken(s).None?
    ensures Resume(out, secret, MeaningOf(s, env)) == Failed(Unterminated)
  {
  }

  lemma EndMeaning(env: Environment, out: bytes, secret: bool)
    ensures MeaningOf([], env) == Expanded([], false)
    ensures Resume(out, secret, MeaningOf([], env)) == Expanded(out, secret)
  {
    assert out + [] == out;
  }

  // --- Escaping ---

  function Doubled(s: bytes): bytes {
    if s == [] then [] else (if s[0] == DOLLAR then [DOLLAR, DOLLAR] else [s[0]]) + Doubled(s[1..])
  }

  /** Doubling every dollar makes a value that expands to the original, from no variable at all. */
  lemma {:induction false} DoublingEscapes(s: bytes, env: Environment)
    ensures MeaningOf(Doubled(s), env) == Expanded(s, false)
  {
    if s != [] {
      DoublingEscapes(s[1..], env);
      var d := Doubled(s);
      assert d[0..] == d;
      ResumeNothing(MeaningOf(d, env));
      if s[0] == DOLLAR {
        assert d[2..] == Doubled(s[1..]);
        EscapeStep(d, 0, env, [], false);
      } else {
        assert d[1..] == Doubled(s[1..]);
        TextStep(d, 0, env, [], false);
      }
      hide MeaningOf, Doubled;
      assert s == [s[0]] + s[1..];
    } else {
      EndMeaning(env, [], false);
    }
  }
}
