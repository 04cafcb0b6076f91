/**
 * The redacted listing of the effective configuration: which keys a failed condition hides,
 * how a value is displayed, and how an array of tables expands in place.
 */
module Provenance {
  import opened ByteStrings
  import opened ConfigOverlay
  import D = DependsOn
  import L = ConfigLoad

  // --- Definitions ---

  datatype Kind = IntKind | DurationKind | TableArrayKind | OtherKind

  datatype Field = Field(key: Key, kind: Kind, nested: seq<Field>)

  datatype Mode = NoMode | Hide | Mask | Show

  datatype Definition = Definition(
    prefix: Key,
    target: L.Target,
    dependsOn: D.Parents,
    secrets: map<Key, Mode>,
    omitted: set<Key>,
    scaffold: seq<Field>)

  /** The bound definitions in registration order, and how a duration text reads. */
  datatype Policy = Policy(defs: seq<Definition>, duration: bytes -> Option<int>)

  function At<T>(m: map<Key, T>, k: Key, absent: T): T {
    if k in m then m[k] else absent
  }

  function Path(prefix: Key, key: Key): Key {
    if prefix == "" then key else prefix + "." + key
  }

  /** Every condition on a key, from all definitions in order. */
  function Conditions(defs: seq<Definition>, key: Key): seq<D.Dependency> {
    if defs == [] then []
    else Conditions(defs[..|defs| - 1], key) + At(defs[|defs| - 1].dependsOn, key, [])
  }

  function ConditionKeys(defs: seq<Definition>): set<Key> {
    if defs == [] then {} else ConditionKeys(defs[..|defs| - 1]) + defs[|defs| - 1].dependsOn.Keys
  }

  function Parents(defs: seq<Definition>): D.Parents {
    map k | k in ConditionKeys(defs) :: Conditions(defs, k)
  }

  function Falsy(defs: seq<Definition>): map<Key, bytes> {
    if defs == [] then map[] else Falsy(defs[..|defs| - 1]) + defs[|defs| - 1].target.falsy
  }

  function FieldKinds(prefix: Key, fields: seq<Field>): map<Key, Kind> {
    if fields == [] then map[]
    else
      var before, f := FieldKinds(prefix, fields[..|fields| - 1]), fields[|fields| - 1];
      if f.kind.TableArrayKind? then before else before[Path(prefix, f.key) := f.kind]
  }

  function Kinds(defs: seq<Definition>): map<Key, Kind> {
    if defs == [] then map[]
    else Kinds(defs[..|defs| - 1]) + FieldKinds(defs[|defs| - 1].prefix, defs[|defs| - 1].scaffold)
  }

  function Modes(defs: seq<Definition>): map<Key, Mode> {
    if defs == [] then map[] else Modes(defs[..|defs| - 1]) + defs[|defs| - 1].secrets
  }

  function Omitted(defs: seq<Definition>): set<Key> {
    if defs == [] then {} else Omitted(defs[..|defs| - 1]) + defs[|defs| - 1].omitted
  }

  /** The element fields of every array of tables, by its path with no indices. */
  function ArrayFields(prefix: Key, fields: seq<Field>): map<Key, seq<Field>>
    decreases fields
  {
    if fields == [] then map[]
    else
      var f := fields[0];
      var here := if f.kind.TableArrayKind? then map[Path(prefix, f.key) := f.nested] + ArrayFields(Path(prefix, f.key), f.nested) else map[];
      here + ArrayFields(prefix, fields[1..])
  }

  function AllArrayFields(defs: seq<Definition>): map<Key, seq<Field>> {
    if defs == [] then map[]
    else AllArrayFields(defs[..|defs| - 1]) + ArrayFields(defs[|defs| - 1].prefix, defs[|defs| - 1].scaffold)
  }

  // --- What the definitions say, all together ---

  /** Of the definitions from one on, none says anything of a key. */
  predicate SilentFrom<T>(defs: seq<Definition>, says: Definition -> map<Key, T>, k: Key, i: nat) {
    forall j :: i <= j < |defs| ==> k !in says(defs[j])
  }

  /** A map holds what the definitions say of each key, the last of them that says anything. */
  ghost predicate LastSays<T(!new)>(m: map<Key, T>, defs: seq<Definition>, says: Definition -> map<Key, T>) {
    && (forall k :: k in m <==> exists i :: 0 <= i < |defs| && k in says(defs[i]))
    && (forall k, i :: 0 <= i < |defs| && k in says(defs[i]) && SilentFrom(defs, says, k, i + 1) ==> k in m && m[k] == says(defs[i])[k])
  }

  lemma LastSaysSnoc<T(!new)>(m: map<Key, T>, defs: seq<Definition>, d: Definition, says: Definition -> map<Key, T>)
    requires LastSays(m, defs, says)
    ensures LastSays(m + says(d), defs + [d], says)
  {
    var all, after := defs + [d], m + says(d);
    assert all[|defs|] == d && forall i :: 0 <= i < |defs| ==> all[i] == defs[i];
    forall k ensures k in after <==> exists i :: 0 <= i < |all| && k in says(all[i]) {
      if k in m {
        var i :| 0 <= i < |defs| && k in says(defs[i]);
        assert k in says(all[i]);
      }
      if k in says(d) {
        assert k in says(all[|defs|]);
      }
    }
    forall k, i | 0 <= i < |all| && k in says(all[i]) && SilentFrom(all, says, k, i + 1)
      ensures k in after && after[k] == says(all[i])[k]
    {
      if i < |defs| {
        assert k !in says(all[|defs|]);
        forall j | i + 1 <= j < |defs| ensures k !in says(defs[j]) {
          assert k !in says(all[j]);
        }
        assert SilentFrom(defs, says, k, i + 1);
      }
    }
  }

  lemma {:induction false} ModesExactly(defs: seq<Definition>)
    ensures LastSays(Modes(defs), defs, (d: Definition) => d.secrets)
  {
    if defs != [] {
      ModesExactly(defs[..|defs| - 1]);
      LastSaysSnoc(Modes(defs[..|defs| - 1]), defs[..|defs| - 1], defs[|defs| - 1], (d: Definition) => d.secrets);
      assert defs[..|defs| - 1] + [defs[|defs| - 1]] == defs;
    }
  }

  lemma {:induction false} FalsyExactly(defs: seq<Definition>)
    ensures LastSays(Falsy(defs), defs, (d: Definition) => d.target.falsy)
  {
    if defs != [] {
      FalsyExactly(defs[..|defs| - 1]);
      LastSaysSnoc(Falsy(defs[..|defs| - 1]), defs[..|defs| - 1], defs[|defs| - 1], (d: Definition) => d.target.falsy);
      assert defs[..|defs| - 1] + [defs[|defs| - 1]] == defs;
    }
  }

  lemma {:induction false} KindsExactly(defs: seq<Definition>)
    ensures LastSays(Kinds(defs), defs, (d: Definition) => FieldKinds(d.prefix, d.scaffold))
  {
    if defs != [] {
      KindsExactly(defs[..|defs| - 1]);
      LastSaysSnoc(Kinds(defs[..|defs| - 1]), defs[..|defs| - 1], defs[|defs| - 1], (d: Definition) => FieldKinds(d.prefix, d.scaffold));
      assert defs[..|defs| - 1] + [defs[|defs| - 1]] == defs;
    }
  }

  lemma {:induction false} ArraysExactly(defs: seq<Definition>)
    ensures LastSays(AllArrayFields(defs), defs, (d: Definition) => ArrayFields(d.prefix, d.scaffold))
  {
    if defs != [] {
      ArraysExactly(defs[..|defs| - 1]);
      LastSaysSnoc(AllArrayFields(defs[..|defs| - 1]), defs[..|defs| - 1], defs[|defs| - 1],
                   (d: Definition) => ArrayFields(d.prefix, d.scaffold));
      assert defs[..|defs| - 1] + [defs[|defs| - 1]] == defs;
    }
  }

  /** A key's conditions are those any definition gives it, and it has parents when some definition gives it a list. */
  lemma {:induction false} ConditionsExactly(defs: seq<Definition>, k: Key, c: D.Dependency)
    ensures c in Conditions(defs, k) <==> exists i :: 0 <= i < |defs| && k in defs[i].dependsOn && c in defs[i].dependsOn[k]
    ensures k in ConditionKeys(defs) <==> exists i :: 0 <= i < |defs| && k in defs[i].dependsOn
  {
    if defs != [] {
      var last := |defs| - 1;
      ConditionsExactly(defs[..last], k, c);
      assert forall i :: 0 <= i < last ==> defs[..last][i] == defs[i];
      if c in Conditions(defs[..last], k) {
        var i :| 0 <= i < last && k in defs[..last][i].dependsOn && c in defs[..last][i].dependsOn[k];
        assert k in defs[i].dependsOn;
      }
      if k in ConditionKeys(defs[..last]) {
        var i :| 0 <= i < last && k in defs[..last][i].dependsOn;
        assert k in defs[i].dependsOn;
      }
    }
  }

  /** The parents walked are those conditions, under the keys that have any list of them. */
  lemma ParentsExactly(defs: seq<Definition>, k: Key, c: D.Dependency)
    ensures k in Parents(defs) <==> exists i :: 0 <= i < |defs| && k in defs[i].dependsOn
    ensures k in Parents(defs) ==>
              (c in Parents(defs)[k] <==> exists i :: 0 <= i < |defs| && k in defs[i].dependsOn && c in defs[i].dependsOn[k])
  {
    ConditionsExactly(defs, k, c);
  }

  /** The known keys are those of the definitions one after another, each in its own order. */
  lemma {:induction false} KnownKeysExactly(defs: seq<Definition>)
    ensures KnownKeys(defs) == Concat(seq(|defs|, i requires 0 <= i < |defs| => defs[i].target.knownKeys))
  {
    var all := seq(|defs|, i requires 0 <= i < |defs| => defs[i].target.knownKeys);
    if defs != [] {
      var last := |defs| - 1;
      KnownKeysExactly(defs[..last]);
      var before := seq(last, i requires 0 <= i < last => defs[..last][i].target.knownKeys);
      assert all == before + [defs[last].target.knownKeys];
      ConcatSnoc(before, defs[last].target.knownKeys);
    }
  }

  lemma {:induction false} OmittedExactly(defs: seq<Definition>, k: Key)
    ensures k in Omitted(defs) <==> exists i :: 0 <= i < |defs| && k in defs[i].omitted
  {
    if defs != [] {
      var last := |defs| - 1;
      OmittedExactly(defs[..last], k);
      if k in Omitted(defs[..last]) {
        var i :| 0 <= i < last && k in defs[..last][i].omitted;
        assert k in defs[i].omitted;
      }
      forall i | 0 <= i < |defs| && k in defs[i].omitted ensures k in Omitted(defs) {
        assert i < last ==> defs[..last][i] == defs[i];
      }
    }
  }

  /** A field stands under the prefix, a dot and its key, or under its key alone when there is no prefix. */
  predicate Stands(prefix: Key, key: Key, full: Key) {
    if |prefix| == 0 then full == key
    else |full| == |prefix| + 1 + |key| && prefix <= full && full[|prefix|] == '.' && full[|prefix| + 1..] == key
  }

  lemma PathExactly(prefix: Key, key: Key, full: Key)
    ensures full == Path(prefix, key) <==> Stands(prefix, key, full)
  {
    if prefix != "" {
      assert Path(prefix, key)[|prefix| + 1..] == key && prefix <= Path(prefix, key);
      if Stands(prefix, key, full) {
        assert full == full[..|prefix|] + [full[|prefix|]] + full[|prefix| + 1..];
      }
    }
  }

  /** The kinds of a definition's leaves, each under its path; arrays of tables have none. */
  lemma {:induction false} FieldKindsExactly(prefix: Key, fields: seq<Field>, k: Key)
    ensures k in FieldKinds(prefix, fields) <==>
            exists i :: 0 <= i < |fields| && fields[i].kind != TableArrayKind && Stands(prefix, fields[i].key, k)
    ensures k in FieldKinds(prefix, fields) ==>
              exists i :: 0 <= i < |fields| && fields[i].kind == FieldKinds(prefix, fields)[k] != TableArrayKind
                          && Stands(prefix, fields[i].key, k)
  {
    if fields != [] {
      var last := |fields| - 1;
      var f := fields[last];
      FieldKindsExactly(prefix, fields[..last], k);
      PathExactly(prefix, f.key, k);
      hide Path, Stands;
      forall i | 0 <= i < last ensures fields[..last][i] == fields[i] {
      }
      if k in FieldKinds(prefix, fields[..last]) && !(f.kind != TableArrayKind && Path(prefix, f.key) == k) {
        var i :| 0 <= i < last && fields[..last][i].kind == FieldKinds(prefix, fields[..last])[k] != TableArrayKind
                 && Stands(prefix, fields[..last][i].key, k);
        assert fields[i].kind == FieldKinds(prefix, fields)[k];
      }
    }
  }

  /** An array of tables stands under a path through arrays of tables, with these element fields. */
  predicate TablesAt(prefix: Key, fields: seq<Field>, k: Key, nested: seq<Field>)
    decreases fields
  {
    exists i :: 0 <= i < |fields| && fields[i].kind == TableArrayKind &&
                ((Stands(prefix, fields[i].key, k) && nested == fields[i].nested)
                 || TablesAt(Path(prefix, fields[i].key), fields[i].nested, k, nested))
  }

  lemma TablesAtCons(prefix: Key, fields: seq<Field>, k: Key, nested: seq<Field>)
    requires fields != []
    ensures TablesAt(prefix, fields, k, nested) <==>
            || (fields[0].kind == TableArrayKind &&
                ((Stands(prefix, fields[0].key, k) && nested == fields[0].nested)
                 || TablesAt(Path(prefix, fields[0].key), fields[0].nested, k, nested)))
            || TablesAt(prefix, fields[1..], k, nested)
  {
    assert forall i :: 1 <= i < |fields| ==> fields[1..][i - 1] == fields[i];
    hide Stands, Path;
    if TablesAt(prefix, fields[1..], k, nested) {
      var i :| 0 <= i < |fields[1..]| && fields[1..][i].kind == TableArrayKind &&
               ((Stands(prefix, fields[1..][i].key, k) && nested == fields[1..][i].nested)
                || TablesAt(Path(prefix, fields[1..][i].key), fields[1..][i].nested, k, nested));
      assert fields[i + 1].kind == TableArrayKind;
    }
  }

  lemma {:induction false} ArrayFieldsExactly(prefix: Key, fields: seq<Field>, k: Key)
    ensures k in ArrayFields(prefix, fields) <==> exists nested :: TablesAt(prefix, fields, k, nested)
    ensures k in ArrayFields(prefix, fields) ==> TablesAt(prefix, fields, k, ArrayFields(prefix, fields)[k])
    decreases fields
  {
    if fields != [] {
      var f := fields[0];
      ArrayFieldsExactly(prefix, fields[1..], k);
      PathExactly(prefix, f.key, k);
      if f.kind == TableArrayKind {
        ArrayFieldsExactly(Path(prefix, f.key), f.nested, k);
      }
      hide TablesAt, Stands, Path;
      if k in ArrayFields(prefix, fields) {
        TablesAtCons(prefix, fields, k, ArrayFields(prefix, fields)[k]);
      }
      forall nested | TablesAt(prefix, fields, k, nested) ensures k in ArrayFields(prefix, fields) {
        TablesAtCons(prefix, fields, k, nested);
      }
    }
  }

  // --- Conditions ---

  function Digits(s: bytes): Option<nat> {
    if s == [] then Some(0)
    else
      match Digits(s[..|s| - 1])
      case None => None
      case Some(n) => if 0x30 <= s[|s| - 1] <= 0x39 then Some(10 * n + s[|s| - 1] - 0x30) else None
  }

  function ParseInt(s: bytes): Option<int> {
    var signed := s != [] && (s[0] == 0x2B || s[0] == 0x2D);
    var body := if signed then s[1..] else s;
    if body == [] then None
    else match Digits(body)
      case None => None
      case Some(n) =>
        var v := if signed && s[0] == 0x2D then -(n as int) else n;
        if -I64 <= v < I64 then Some(v) else None
  }

  function ParseUint(s: bytes): Option<int> {
    if s == [] then None
    else match Digits(s)
      case None => None
      case Some(n) => if n < 2 * I64 then Some(n) else None
  }

  predicate Agree(a: Option<int>, b: Option<int>) {
    a.Some? && b.Some? && a.value == b.value
  }

  /** An effective value against a choice, in the terms of its own kind. */
  predicate SameValue(p: Policy, kind: Kind, raw: bytes, choice: bytes) {
    match kind
    case DurationKind => Agree(p.duration(raw), p.duration(choice))
    case IntKind => if ParseInt(raw).Some? then Agree(ParseInt(raw), ParseInt(choice)) else Agree(ParseUint(raw), ParseUint(choice))
    case _ => raw == choice
  }

  const FALSE: bytes := [0x66, 0x61, 0x6C, 0x73, 0x65]

  predicate EmptyParent(p: Policy, e: Option<Entry>, falsy: bytes, kind: Kind) {
    e.None? ||
    (&& e.value.multi.None?
     && ((falsy != [] && SameValue(p, kind, e.value.raw, falsy))
         || (!kind.IntKind? && !kind.DurationKind? && (e.value.raw == [] || e.value.raw == FALSE))))
  }

  predicate ConditionFails(p: Policy, slots: Slots, c: D.Dependency) {
    var e, kind := Find(slots, c.key), At(Kinds(p.defs), c.key, OtherKind);
    if c.op == "" then EmptyParent(p, e, At(Falsy(p.defs), c.key, []), kind)
    else
      var raw := if e.Some? then e.value.raw else [];
      var matched := exists i :: 0 <= i < |c.values| && SameValue(p, kind, raw, c.values[i]);
      if c.op == "!=" then matched else !matched
  }

  predicate AllDigits(s: bytes) {
    forall i :: 0 <= i < |s| ==> s[i] as char in DIGITS
  }

  lemma {:induction false} DigitsExactly(s: bytes)
    ensures Digits(s).Some? <==> AllDigits(s)
    ensures Digits(s).Some? ==> Digits(s).value == Weighted10(s)
  {
    if s != [] {
      var last := |s| - 1;
      DigitsExactly(s[..last]);
      Weighted10Snoc(s[..last], s[last]);
      assert s[..last] + [s[last]] == s;
      DigitsInOrder(s[last] as char);
      hide Weighted10;
    }
  }

  /** A text writes a number: decimal digits, with a sign ahead of them or none. */
  predicate Writes(s: bytes, v: int) {
    && s != []
    && (var signed := s[0] as char == '-' || s[0] as char == '+';
        var body := if signed then s[1..] else s;
        body != [] && AllDigits(body) && v == if s[0] as char == '-' then -Weighted10(body) else Weighted10(body))
  }

  /** A signed number is read exactly when it is written so and 64 bits hold it. */
  lemma ParseIntExactly(s: bytes, v: int)
    ensures ParseInt(s) == Some(v) <==> Writes(s, v) && -0x8000_0000_0000_0000 <= v <= 0x7FFF_FFFF_FFFF_FFFF
  {
    if s != [] {
      DigitsExactly(s);
      DigitsExactly(s[1..]);
    }
    hide Digits, Weighted10, AllDigits;
  }

  /** An unsigned one when it is digits alone and 64 bits hold it. */
  lemma ParseUintExactly(s: bytes, v: int)
    ensures ParseUint(s) == Some(v) <==> s != [] && AllDigits(s) && v == Weighted10(s) && v <= 0xFFFF_FFFF_FFFF_FFFF
  {
    DigitsExactly(s);
    hide Digits, Weighted10, AllDigits;
  }

  /** An int's values are the same when both are one signed number, or when both are one unsigned number no signed one holds. */
  ghost predicate Same(p: Policy, kind: Kind, a: bytes, b: bytes) {
    match kind
    case DurationKind => exists d: int :: p.duration(a) == Some(d) && p.duration(b) == Some(d)
    case IntKind =>
      if exists v: int :: Writes(a, v) && -0x8000_0000_0000_0000 <= v <= 0x7FFF_FFFF_FFFF_FFFF then
        exists v: int :: Writes(a, v) && Writes(b, v) && -0x8000_0000_0000_0000 <= v <= 0x7FFF_FFFF_FFFF_FFFF
      else
        a != [] && b != [] && AllDigits(a) && AllDigits(b) && Weighted10(a) == Weighted10(b) <= 0xFFFF_FFFF_FFFF_FFFF
    case _ => a == b
  }

  lemma SameExactly(p: Policy, kind: Kind, a: bytes, b: bytes)
    ensures SameValue(p, kind, a, b) <==> Same(p, kind, a, b)
  {
    hide ParseInt, ParseUint, Writes, AllDigits, Weighted10;
    if kind == IntKind {
      forall v ensures ParseInt(a) == Some(v) <==> Writes(a, v) && -0x8000_0000_0000_0000 <= v <= 0x7FFF_FFFF_FFFF_FFFF {
        ParseIntExactly(a, v);
      }
      forall v ensures ParseInt(b) == Some(v) <==> Writes(b, v) && -0x8000_0000_0000_0000 <= v <= 0x7FFF_FFFF_FFFF_FFFF {
        ParseIntExactly(b, v);
      }
      UnsignedSame(a, b);
      if ParseInt(a).Some? {
        assert Writes(a, ParseInt(a).value);
      }
      if ParseInt(b).Some? {
        assert Writes(b, ParseInt(b).value);
      }
    }
  }

  lemma UnsignedSame(a: bytes, b: bytes)
    ensures Agree(ParseUint(a), ParseUint(b)) <==>
            a != [] && b != [] && AllDigits(a) && AllDigits(b) && Weighted10(a) == Weighted10(b) <= 0xFFFF_FFFF_FFFF_FFFF
  {
    ParseUintExactly(a, Weighted10(a));
    ParseUintExactly(b, Weighted10(b));
    if ParseUint(a).Some? {
      ParseUintExactly(a, ParseUint(a).value);
    }
    if ParseUint(b).Some? {
      ParseUintExactly(b, ParseUint(b).value);
    }
    hide ParseUint, AllDigits, Weighted10;
  }

  /** A parent is set: it is there, and is a list or holds neither its falsy choice nor, unless a number, nothing or false. */
  ghost predicate IsSet(p: Policy, e: Option<Entry>, falsy: bytes, kind: Kind) {
    && e.Some?
    && (e.value.multi.None? ==>
          && (falsy == [] || !Same(p, kind, e.value.raw, falsy))
          && (kind in {IntKind, DurationKind} || (e.value.raw != [] && Chars(e.value.raw) != "false")))
  }

  /**
   * A condition rules its dependent out: without an operator, when the parent is not set; under !=,
   * when the parent has one of the values; under any other, when it has none of them. An absent
   * parent has the empty value.
   */
  ghost predicate RulesOut(p: Policy, slots: Slots, c: D.Dependency) {
    var e, kind := Find(slots, c.key), At(Kinds(p.defs), c.key, OtherKind);
    var raw := if e.Some? then e.value.raw else [];
    if |c.op| == 0 then !IsSet(p, e, At(Falsy(p.defs), c.key, []), kind)
    else if c.op == "!=" then exists i :: 0 <= i < |c.values| && Same(p, kind, raw, c.values[i])
    else forall i :: 0 <= i < |c.values| ==> !Same(p, kind, raw, c.values[i])
  }

  lemma FalseText(s: bytes)
    ensures s == FALSE <==> Chars(s) == "false"
  {
    assert Chars(FALSE) == "false";
    if Chars(s) == "false" {
      assert |s| == |Chars(s)| == 5;
      assert forall i :: 0 <= i < 5 ==> s[i] as char == "false"[i];
    }
  }

  lemma ConditionExactly(p: Policy, slots: Slots, c: D.Dependency)
    ensures ConditionFails(p, slots, c) <==> RulesOut(p, slots, c)
    ensures Fails(p, slots)(c) <==> RulesOut(p, slots, c)
  {
    var e, kind := Find(slots, c.key), At(Kinds(p.defs), c.key, OtherKind);
    var raw := if e.Some? then e.value.raw else [];
    hide SameValue, Same, Kinds, Find, Chars, FALSE, Falsy;
    SameExactly(p, kind, raw, At(Falsy(p.defs), c.key, []));
    FalseText(raw);
    forall i | 0 <= i < |c.values| ensures SameValue(p, kind, raw, c.values[i]) <==> Same(p, kind, raw, c.values[i]) {
      SameExactly(p, kind, raw, c.values[i]);
    }
  }

  function Fails(p: Policy, slots: Slots): D.Dependency -> bool {
    (c: D.Dependency) => ConditionFails(p, slots, c)
  }

  /** The hidden keys are exactly those from which a failing condition can be reached. */
  ghost predicate IsHidden(p: Policy, slots: Slots, hidden: set<Key>) {
    forall k :: k in hidden <==> D.Hidden(Parents(p.defs), Fails(p, slots), k, {})
  }

  method HiddenKeys(p: Policy, slots: Slots) returns (hidden: set<Key>)
    ensures IsHidden(p, slots, hidden)
  {
    var parents := Parents(p.defs);
    var keys: seq<Key>, left := [], parents.Keys;
    while left != {}
      invariant left <= parents.Keys
      invariant forall k :: k in keys <==> k in parents.Keys - left
      decreases left
    {
      var k :| k in left;
      left := left - {k};
      keys := keys + [k];
    }
    var walk := new D.Walk(parents, Fails(p, slots));
    hidden := walk.HiddenKeys(keys);
  }

  // --- Display ---

  const MASK: bytes := [0x2A, 0x2A, 0x2A, 0x2A, 0x2A]

  const SENSITIVE := ["password", "secret", "apikey", "api_key", "credential", "access_key", "accesskey", "token", "dsn", "private_key"]

  predicate Contains(s: string, token: string) {
    token <= s || (s != [] && Contains(s[1..], token))
  }

  predicate LooksSensitive(key: Key) {
    exists i :: 0 <= i < |SENSITIVE| && Contains(Lower(key), SENSITIVE[i])
  }

  predicate Occurs(s: string, token: string, i: nat) {
    i + |token| <= |s| && s[i..i + |token|] == token
  }

  lemma OccursLater(s: string, token: string, i: nat)
    requires s != []
    ensures Occurs(s, token, i + 1) <==> Occurs(s[1..], token, i)
  {
    if i + |token| < |s| {
      assert s[1..][i..i + |token|] == s[i + 1..i + 1 + |token|];
    }
  }

  lemma OccursFirst(s: string, token: string)
    ensures Occurs(s, token, 0) <==> token <= s
  {
    if |token| <= |s| {
      assert s[0..0 + |token|] == s[..|token|];
    }
  }

  lemma {:induction false} ContainsExactly(s: string, token: string)
    ensures Contains(s, token) <==> exists i: nat :: Occurs(s, token, i)
  {
    OccursFirst(s, token);
    if s == [] {
      forall i: nat | Occurs(s, token, i) ensures token <= s {
      }
    } else {
      ContainsExactly(s[1..], token);
      hide Occurs;
      if Contains(s[1..], token) {
        var i: nat :| Occurs(s[1..], token, i);
        OccursLater(s, token, i);
      }
      forall i: nat | Occurs(s, token, i) ensures token <= s || Contains(s[1..], token) {
        if i > 0 {
          OccursLater(s, token, i - 1);
        }
      }
    }
  }

  /** A sensitive word stands somewhere in the key, in letters of either case. */
  ghost predicate NamesSecret(key: Key) {
    exists t: nat, i: nat :: t < |SENSITIVE| && Occurs(Lower(key), SENSITIVE[t], i)
  }

  lemma SensitiveExactly(key: Key)
    ensures LooksSensitive(key) <==> NamesSecret(key)
  {
    hide Contains, Occurs, Lower;
    if LooksSensitive(key) {
      var t: nat :| t < |SENSITIVE| && Contains(Lower(key), SENSITIVE[t]);
      ContainsExactly(Lower(key), SENSITIVE[t]);
    }
    forall t: nat, i: nat | t < |SENSITIVE| && Occurs(Lower(key), SENSITIVE[t], i) ensures LooksSensitive(key) {
      ContainsExactly(Lower(key), SENSITIVE[t]);
    }
  }

  /** The text shown for a value, and whether it is the mask. */
  function DisplayValue(key: Key, raw: bytes, mode: Mode, secretOrigin: bool): (bytes, bool) {
    if raw == [] then (raw, false)
    else if secretOrigin || mode.Mask? then (MASK, true)
    else if mode.Show? then (raw, false)
    else if LooksSensitive(key) then (MASK, true)
    else (raw, false)
  }

  // --- The listing ---

  datatype Line = Line(key: Key, value: bytes, place: string, masked: bool, omittable: bool, arrayKey: Key, index: nat)

  predicate Omittable(p: Policy, key: Key, place: string) {
    key in Omitted(p.defs) && place == DEFAULT
  }

  /** The lines of one element: its fields in order, an inner array of tables expanded in place. */
  function ElementLines(p: Policy, slots: Slots, shown: Key, stable: Key, index: nat, fields: seq<Field>, n: nat): seq<Line>
    requires n <= |fields|
    decreases fields, 1, n
  {
    if n == 0 then []
    else ElementLines(p, slots, shown, stable, index, fields, n - 1) + FieldLines(p, slots, shown, stable, index, fields[n - 1])
  }

  function FieldLines(p: Policy, slots: Slots, shown: Key, stable: Key, index: nat, f: Field): seq<Line>
    decreases f, 2
  {
    var full := shown + "[" + Chars(Decimal(index)) + "]." + f.key;
    var stableField := stable + "." + f.key;
    var mode := At(Modes(p.defs), stableField, NoMode);
    if mode.Hide? then []
    else
      match Find(slots, f.key)
      case None => []
      case Some(e) =>
        if f.kind.TableArrayKind? then
          if !e.isTables then [] else TableLines(p, e.tables, full, stableField, f.nested, |e.tables|)
        else
          var (value, masked) := DisplayValue(full, e.raw, mode, e.secret);
          [Line(full, value, e.place, masked, Omittable(p, stableField, e.place), shown, index)]
  }

  function TableLines(p: Policy, tables: seq<Table>, shown: Key, stable: Key, fields: seq<Field>, n: nat): seq<Line>
    requires n <= |tables|
    decreases fields, 2, n
  {
    if n == 0 then []
    else TableLines(p, tables, shown, stable, fields, n - 1)
         + ElementLines(p, tables[n - 1].slots, shown, stable, n - 1, fields, |fields|)
  }

  /** What one key lists, once. */
  function KeyLines(p: Policy, slots: Slots, hidden: set<Key>, key: Key): seq<Line> {
    var mode := At(Modes(p.defs), key, NoMode);
    if key in hidden || mode.Hide? then []
    else
      match Find(slots, key)
      case None => []
      case Some(e) =>
        if e.isTables then
          TableLines(p, e.tables, key, key, At(AllArrayFields(p.defs), key, []), |e.tables|)
        else
          var (value, masked) := DisplayValue(key, e.raw, mode, e.secret);
          [Line(key, value, e.place, masked, Omittable(p, key, e.place), "", 0)]
  }

  function KnownKeys(defs: seq<Definition>): seq<Key> {
    if defs == [] then [] else KnownKeys(defs[..|defs| - 1]) + defs[|defs| - 1].target.knownKeys
  }

  function SlotKeys(slots: Slots): seq<Key> {
    seq(|slots|, i requires 0 <= i < |slots| => slots[i].key)
  }

  /** Each key where it first comes up. */
  function Listed(p: Policy, slots: Slots, hidden: set<Key>, keys: seq<Key>, n: nat): seq<Line>
    requires n <= |keys|
  {
    if n == 0 then []
    else
      Listed(p, slots, hidden, keys, n - 1)
      + if keys[n - 1] in keys[..n - 1] then [] else KeyLines(p, slots, hidden, keys[n - 1])
  }

  /** Registration order, then declaration order; keys no definition owns trail in sorted order. */
  function Listing(p: Policy, slots: Slots, hidden: set<Key>): seq<Line> {
    var keys := KnownKeys(p.defs) + SlotKeys(slots);
    Listed(p, slots, hidden, keys, |keys|)
  }

  // --- What the listing holds ---

  /** The keys in the order they first come up. */
  function Order(keys: seq<Key>, n: nat): seq<Key>
    requires n <= |keys|
  {
    if n == 0 then [] else Order(keys, n - 1) + if keys[n - 1] in keys[..n - 1] then [] else [keys[n - 1]]
  }

  function Segments(p: Policy, slots: Slots, hidden: set<Key>, keys: seq<Key>): seq<seq<Line>> {
    seq(|keys|, i requires 0 <= i < |keys| => KeyLines(p, slots, hidden, keys[i]))
  }

  lemma SegmentsMore(p: Policy, slots: Slots, hidden: set<Key>, keys: seq<Key>, k: Key)
    ensures Segments(p, slots, hidden, keys + [k]) == Segments(p, slots, hidden, keys) + [KeyLines(p, slots, hidden, k)]
  {
    hide KeyLines;
  }

  lemma {:induction false} ListedIs(p: Policy, slots: Slots, hidden: set<Key>, keys: seq<Key>, n: nat)
    requires n <= |keys|
    ensures Listed(p, slots, hidden, keys, n) == Concat(Segments(p, slots, hidden, Order(keys, n)))
  {
    if n == 0 {
      assert Segments(p, slots, hidden, []) == [];
    } else {
      hide KeyLines, Concat, Segments;
      var before, k := Order(keys, n - 1), keys[n - 1];
      ListedIs(p, slots, hidden, keys, n - 1);
      if k in keys[..n - 1] {
        assert before + [] == before;
        assert Listed(p, slots, hidden, keys, n - 1) + [] == Listed(p, slots, hidden, keys, n - 1);
      } else {
        ConcatSnoc(Segments(p, slots, hidden, before), KeyLines(p, slots, hidden, k));
        SegmentsMore(p, slots, hidden, before, k);
      }
    }
  }

  lemma {:induction false} OrderOnce(keys: seq<Key>, n: nat)
    requires n <= |keys|
    ensures forall i, j :: 0 <= i < j < |Order(keys, n)| ==> Order(keys, n)[i] != Order(keys, n)[j]
    ensures forall k :: k in Order(keys, n) <==> k in keys[..n]
  {
    if n > 0 {
      OrderOnce(keys, n - 1);
      assert keys[..n] == keys[..n - 1] + [keys[n - 1]];
    }
  }

  /** Distinct keys are listed as they stand, those that came up before left out. */
  function Fresh(keys: seq<Key>, known: seq<Key>): seq<Key> {
    if keys == [] then []
    else Fresh(keys[..|keys| - 1], known) + if keys[|keys| - 1] in known then [] else [keys[|keys| - 1]]
  }

  lemma {:induction false} OrderSplits(known: seq<Key>, more: seq<Key>, n: nat)
    requires n <= |more| && forall i, j :: 0 <= i < j < |more| ==> more[i] != more[j]
    ensures Order(known + more, |known| + n) == Order(known, |known|) + Fresh(more[..n], known)
  {
    var keys := known + more;
    if n > 0 {
      OrderSplits(known, more, n - 1);
      assert more[..n][..n - 1] == more[..n - 1];
      assert keys[|known| + n - 1] == more[n - 1];
      assert keys[..|known| + n - 1] == known + more[..n - 1];
      assert more[n - 1] !in more[..n - 1];
    } else {
      OrderPrefix(known, more, |known|);
      assert more[..0] == [];
    }
  }

  lemma {:induction false} OrderPrefix(known: seq<Key>, more: seq<Key>, n: nat)
    requires n <= |known|
    ensures Order(known + more, n) == Order(known, n)
  {
    if n > 0 {
      OrderPrefix(known, more, n - 1);
      assert (known + more)[..n - 1] == known[..n - 1];
    }
  }

  predicate KeysAscend(keys: seq<Key>) {
    forall i, j :: 0 <= i < j < |keys| ==> KeyLess(keys[i], keys[j])
  }

  lemma {:induction false} SlotsAscend(slots: Slots)
    requires Ascending(slots)
    ensures KeysAscend(SlotKeys(slots))
  {
    if slots != [] {
      SlotsAscend(slots[1..]);
      assert SlotKeys(slots)[1..] == SlotKeys(slots[1..]);
      forall i, j | 0 <= i < j < |slots| ensures KeyLess(slots[i].key, slots[j].key) {
        if i > 0 {
          assert slots[i].key == SlotKeys(slots[1..])[i - 1] && slots[j].key == SlotKeys(slots[1..])[j - 1];
        }
      }
    }
  }

  lemma {:induction false} FreshAscends(keys: seq<Key>, known: seq<Key>)
    requires KeysAscend(keys)
    ensures KeysAscend(Fresh(keys, known))
    ensures forall k :: k in Fresh(keys, known) <==> k in keys && k !in known
  {
    if keys != [] {
      var last := |keys| - 1;
      var before := Fresh(keys[..last], known);
      FreshAscends(keys[..last], known);
      assert keys == keys[..last] + [keys[last]];
      forall i | 0 <= i < |before| ensures KeyLess(before[i], keys[last]) {
        assert before[i] in keys[..last];
      }
    }
  }

  lemma AscendingOnce(keys: seq<Key>)
    requires KeysAscend(keys)
    ensures forall i, j :: 0 <= i < j < |keys| ==> keys[i] != keys[j]
  {
    forall i, j | 0 <= i < j < |keys| ensures keys[i] != keys[j] {
      KeyLessTotal(keys[i], keys[j]);
    }
  }

  /** The keys of a listing: the known ones as they first come up, then the held ones among the rest. */
  lemma {:induction false} KeyOrder(defined: seq<Key>, held: seq<Key>)
    requires KeysAscend(held)
    ensures Order(defined + held, |defined + held|) == Order(defined, |defined|) + Fresh(held, defined)
    ensures KeysAscend(Fresh(held, defined))
    ensures forall k :: k in Order(defined, |defined|) <==> k in defined
    ensures forall k :: k in Fresh(held, defined) <==> k in held && k !in defined
    ensures var all := Order(defined, |defined|) + Fresh(held, defined);
            forall i, j :: 0 <= i < j < |all| ==> all[i] != all[j]
  {
    hide Order, Fresh, KeysAscend;
    FreshAscends(held, defined);
    OrderOnce(defined, |defined|);
    AscendingOnce(held);
    assert defined[..|defined|] == defined && held[..|held|] == held;
    OrderSplits(defined, held, |held|);
    OrderOnce(defined + held, |defined + held|);
  }

  /**
   * The listing of an overlay in key order: one segment for each key, no key twice, the known
   * keys in registration and declaration order and behind them the stray ones in sorted order.
   */
  lemma {:induction false} ListingOrder(p: Policy, slots: Slots, hidden: set<Key>) returns (known: seq<Key>, stray: seq<Key>)
    requires Ascending(slots)
    ensures known == Order(KnownKeys(p.defs), |KnownKeys(p.defs)|) && KeysAscend(stray)
    ensures forall k :: k in known <==> k in KnownKeys(p.defs)
    ensures forall k :: k in stray <==> Find(slots, k).Some? && k !in known
    ensures forall i, j :: 0 <= i < j < |known + stray| ==> (known + stray)[i] != (known + stray)[j]
    ensures Listing(p, slots, hidden) == Concat(Segments(p, slots, hidden, known + stray))
  {
    hide KnownKeys, KeyLines, Concat, Ascending, Find, Order, Fresh, SlotKeys, KeysAscend, Listed, Segments;
    var defined, held := KnownKeys(p.defs), SlotKeys(slots);
    known, stray := Order(defined, |defined|), Fresh(held, defined);
    SlotsAscend(slots);
    KeyOrder(defined, held);
    ListedIs(p, slots, hidden, defined + held, |defined + held|);
    forall k ensures k in held <==> Find(slots, k).Some? {
      HeldIsFound(slots, k);
    }
  }

  lemma {:induction false} HeldIsFound(slots: Slots, k: Key)
    ensures k in SlotKeys(slots) <==> Find(slots, k).Some?
  {
    if slots != [] {
      HeldIsFound(slots[1..], k);
      assert SlotKeys(slots) == [slots[0].key] + SlotKeys(slots[1..]);
    }
  }

  // --- Which entry a line shows ---

  /** An entry to be shown: under which key, with its indices and without, and as which element of which array. */
  datatype Showing = Showing(entry: Entry, shown: Key, stable: Key, table: Key, index: nat)

  /**
   * A value is masked when there is one and it is of secret origin, or its tag says so, or it has no
   * tag and a sensitive word in its key.
   */
  ghost predicate Masked(p: Policy, s: Showing) {
    var mode := At(Modes(p.defs), s.stable, NoMode);
    && s.entry.raw != []
    && (s.entry.secret || mode == Mask || (mode == NoMode && NamesSecret(s.shown)))
  }

  /** A line shows an entry: under its key and at its place, its value or exactly where it is masked the mask. */
  ghost predicate Displays(p: Policy, l: Line, s: Showing) {
    && l.key == s.shown && l.place == s.entry.place && l.arrayKey == s.table && l.index == s.index
    && (l.masked <==> Masked(p, s))
    && l.value == (if l.masked then MASK else s.entry.raw)
    && (l.omittable <==> s.stable in Omitted(p.defs) && s.entry.place == DEFAULT)
  }

  function ElementEntries(p: Policy, slots: Slots, shown: Key, stable: Key, index: nat, fields: seq<Field>, n: nat): seq<Showing>
    requires n <= |fields|
    decreases fields, 1, n
  {
    if n == 0 then []
    else
      ElementEntries(p, slots, shown, stable, index, fields, n - 1)
      + FieldEntries(p, slots, shown, stable, index, fields[n - 1])
  }

  /** The entries an element's field lists: its own, or those of the tables it holds. */
  function FieldEntries(p: Policy, slots: Slots, shown: Key, stable: Key, index: nat, f: Field): seq<Showing>
    decreases f, 2
  {
    var full, path, e := ElementAt(shown, index) + f.key, stable + "." + f.key, Find(slots, f.key);
    if At(Modes(p.defs), path, NoMode) == Hide || e.None? then []
    else if f.kind != TableArrayKind then [Showing(e.value, full, path, shown, index)]
    else if e.value.isTables then TableEntries(p, e.value.tables, full, path, f.nested, |e.value.tables|)
    else []
  }

  function TableEntries(p: Policy, tables: seq<Table>, shown: Key, stable: Key, fields: seq<Field>, n: nat): seq<Showing>
    requires n <= |tables|
    decreases fields, 2, n
  {
    if n == 0 then []
    else
      TableEntries(p, tables, shown, stable, fields, n - 1)
      + ElementEntries(p, tables[n - 1].slots, shown, stable, n - 1, fields, |fields|)
  }

  ghost predicate DisplayAll(p: Policy, lines: seq<Line>, entries: seq<Showing>) {
    |lines| == |entries| && forall i :: 0 <= i < |lines| ==> Displays(p, lines[i], entries[i])
  }

  lemma DisplayJoin(p: Policy, a: seq<Line>, x: seq<Showing>, b: seq<Line>, y: seq<Showing>)
    requires DisplayAll(p, a, x) && DisplayAll(p, b, y)
    ensures DisplayAll(p, a + b, x + y)
  {
    hide Displays;
  }

  lemma OneDisplays(p: Policy, s: Showing)
    requires At(Modes(p.defs), s.stable, NoMode) != Hide
    ensures var (value, masked) := DisplayValue(s.shown, s.entry.raw, At(Modes(p.defs), s.stable, NoMode), s.entry.secret);
            Displays(p, Line(s.shown, value, s.entry.place, masked, Omittable(p, s.stable, s.entry.place), s.table, s.index), s)
  {
    SensitiveExactly(s.shown);
    hide LooksSensitive, NamesSecret, Modes, Omitted;
  }

  /** Every line below an element begins with the element's place in its array. */
  predicate Below(lines: seq<Line>, prefix: Key) {
    forall i :: 0 <= i < |lines| ==> prefix <= lines[i].key
  }

  function ElementAt(shown: Key, index: nat): Key {
    shown + "[" + Chars(Decimal(index)) + "]."
  }

  lemma BelowMore(lines: seq<Line>, shorter: Key, longer: Key)
    requires Below(lines, longer) && shorter <= longer
    ensures Below(lines, shorter)
  {
    forall i | 0 <= i < |lines| ensures shorter <= lines[i].key {
      assert longer <= lines[i].key;
    }
  }

  lemma {:induction false} ElementShows(p: Policy, slots: Slots, shown: Key, stable: Key, index: nat, fields: seq<Field>, n: nat)
    requires n <= |fields|
    ensures DisplayAll(p, ElementLines(p, slots, shown, stable, index, fields, n), ElementEntries(p, slots, shown, stable, index, fields, n))
    ensures Below(ElementLines(p, slots, shown, stable, index, fields, n), ElementAt(shown, index))
    decreases fields, 1, n
  {
    if n > 0 {
      hide FieldLines, FieldEntries, Displays, ElementAt;
      ElementShows(p, slots, shown, stable, index, fields, n - 1);
      FieldShows(p, slots, shown, stable, index, fields[n - 1]);
      DisplayJoin(p, ElementLines(p, slots, shown, stable, index, fields, n - 1),
                  ElementEntries(p, slots, shown, stable, index, fields, n - 1),
                  FieldLines(p, slots, shown, stable, index, fields[n - 1]),
                  FieldEntries(p, slots, shown, stable, index, fields[n - 1]));
    }
  }

  lemma {:induction false} FieldShows(p: Policy, slots: Slots, shown: Key, stable: Key, index: nat, f: Field)
    ensures DisplayAll(p, FieldLines(p, slots, shown, stable, index, f), FieldEntries(p, slots, shown, stable, index, f))
    ensures Below(FieldLines(p, slots, shown, stable, index, f), ElementAt(shown, index))
    decreases f, 2
  {
    hide TableLines, TableEntries, DisplayValue, Displays, Modes;
    var e := Find(slots, f.key);
    var full := ElementAt(shown, index) + f.key;
    assert full == shown + "[" + Chars(Decimal(index)) + "]." + f.key;
    hide Decimal;
    if At(Modes(p.defs), stable + "." + f.key, NoMode) != Hide && e.Some? && !f.kind.TableArrayKind? {
      OneDisplays(p, Showing(e.value, full, stable + "." + f.key, shown, index));
    }
    if f.kind.TableArrayKind? && e.Some? && e.value.isTables {
      TablesShow(p, e.value.tables, full, stable + "." + f.key, f.nested, |e.value.tables|);
      BelowMore(TableLines(p, e.value.tables, full, stable + "." + f.key, f.nested, |e.value.tables|), ElementAt(shown, index), full);
    }
  }

  lemma {:induction false} TablesShow(p: Policy, tables: seq<Table>, shown: Key, stable: Key, fields: seq<Field>, n: nat)
    requires n <= |tables|
    ensures DisplayAll(p, TableLines(p, tables, shown, stable, fields, n), TableEntries(p, tables, shown, stable, fields, n))
    ensures Below(TableLines(p, tables, shown, stable, fields, n), shown)
    decreases fields, 2, n
  {
    if n > 0 {
      hide ElementLines, ElementEntries, Displays;
      TablesShow(p, tables, shown, stable, fields, n - 1);
      var lines := ElementLines(p, tables[n - 1].slots, shown, stable, n - 1, fields, |fields|);
      ElementShows(p, tables[n - 1].slots, shown, stable, n - 1, fields, |fields|);
      BelowMore(lines, shown, ElementAt(shown, n - 1));
      DisplayJoin(p, TableLines(p, tables, shown, stable, fields, n - 1), TableEntries(p, tables, shown, stable, fields, n - 1),
                  lines, ElementEntries(p, tables[n - 1].slots, shown, stable, n - 1, fields, |fields|));
    }
  }

  /** The lines of later elements come after those of earlier ones, each under its element's place. */
  lemma {:induction false} ElementsInOrder(p: Policy, tables: seq<Table>, shown: Key, stable: Key, fields: seq<Field>, i: nat, n: nat)
    requires i <= n <= |tables|
    ensures var before, all := TableLines(p, tables, shown, stable, fields, i), TableLines(p, tables, shown, stable, fields, n);
            && before <= all
            && forall k :: |before| <= k < |all| ==> exists j :: i <= j < n && ElementAt(shown, j) <= all[k].key
    decreases n
  {
    if i < n {
      hide ElementLines, ElementAt;
      ElementsInOrder(p, tables, shown, stable, fields, i, n - 1);
      var lines := ElementLines(p, tables[n - 1].slots, shown, stable, n - 1, fields, |fields|);
      ElementShows(p, tables[n - 1].slots, shown, stable, n - 1, fields, |fields|);
      var before := TableLines(p, tables, shown, stable, fields, n - 1);
      var all := TableLines(p, tables, shown, stable, fields, n);
      assert all == before + lines;
      forall k | |before| <= k < |all| ensures ElementAt(shown, n - 1) <= all[k].key {
        assert all[k] == lines[k - |before|];
      }
    }
  }

  /** The entries the lines of a key show: none for a hidden one. */
  function KeyEntries(p: Policy, slots: Slots, hidden: set<Key>, key: Key): seq<Showing> {
    var e := Find(slots, key);
    if key in hidden || At(Modes(p.defs), key, NoMode) == Hide || e.None? then []
    else if e.value.isTables then TableEntries(p, e.value.tables, key, key, At(AllArrayFields(p.defs), key, []), |e.value.tables|)
    else [Showing(e.value, key, key, "", 0)]
  }

  /**
   * The lines of one key, line by line the entries under it: at most one under the key itself,
   * none when the key is hidden, and the mask exactly where the entry is to be masked.
   */
  lemma {:induction false} KeyShows(p: Policy, slots: Slots, hidden: set<Key>, key: Key)
    ensures DisplayAll(p, KeyLines(p, slots, hidden, key), KeyEntries(p, slots, hidden, key))
    ensures Below(KeyLines(p, slots, hidden, key), key)
    ensures key in hidden ==> KeyLines(p, slots, hidden, key) == []
    ensures Find(slots, key).Some? && !Find(slots, key).value.isTables ==>
              |KeyLines(p, slots, hidden, key)| <= 1 && forall l :: l in KeyLines(p, slots, hidden, key) ==> l.key == key
  {
    hide TableLines, TableEntries, DisplayValue, Displays, Modes;
    var e := Find(slots, key);
    if At(Modes(p.defs), key, NoMode) != Hide && e.Some? {
      OneDisplays(p, Showing(e.value, key, key, "", 0));
    }
    if e.Some? && e.value.isTables {
      TablesShow(p, e.value.tables, key, key, At(AllArrayFields(p.defs), key, []), |e.value.tables|);
    }
  }

  lemma {:induction false} DisplayConcat(p: Policy, parts: seq<seq<Line>>, entries: seq<seq<Showing>>)
    requires |parts| == |entries| && forall i :: 0 <= i < |parts| ==> DisplayAll(p, parts[i], entries[i])
    ensures DisplayAll(p, Concat(parts), Concat(entries))
  {
    hide DisplayAll;
    if parts == [] {
      NoLines(p);
    } else {
      DisplayConcat(p, parts[1..], entries[1..]);
      DisplayJoin(p, parts[0], entries[0], Concat(parts[1..]), Concat(entries[1..]));
    }
  }

  lemma NoLines(p: Policy)
    ensures DisplayAll(p, [], [])
  {
  }

  lemma {:induction false} InSomePart<T>(parts: seq<seq<T>>, x: T)
    requires x in Concat(parts)
    ensures exists i :: 0 <= i < |parts| && x in parts[i]
  {
    if x !in parts[0] {
      InSomePart(parts[1..], x);
      var i :| 0 <= i < |parts[1..]| && x in parts[1..][i];
      assert x in parts[i + 1];
    }
  }

  function EntriesOf(p: Policy, slots: Slots, hidden: set<Key>, keys: seq<Key>): seq<seq<Showing>> {
    seq(|keys|, i requires 0 <= i < |keys| => KeyEntries(p, slots, hidden, keys[i]))
  }

  /** The line comes from a key that no failed condition hides and the overlay holds. */
  predicate FromShown(p: Policy, slots: Slots, hidden: set<Key>, l: Line, k: Key) {
    && k !in hidden && !At(Modes(p.defs), k, NoMode).Hide? && Find(slots, k).Some?
    && k <= l.key && l in KeyLines(p, slots, hidden, k)
  }

  lemma ShownKey(p: Policy, slots: Slots, hidden: set<Key>, l: Line, k: Key)
    requires l in KeyLines(p, slots, hidden, k)
    ensures FromShown(p, slots, hidden, l, k)
  {
    KeyShows(p, slots, hidden, k);
    var i :| 0 <= i < |KeyLines(p, slots, hidden, k)| && KeyLines(p, slots, hidden, k)[i] == l;
    hide TableLines, DisplayValue;
  }

  /** Line by line the listing shows the entries of the keys in order, masked where they are to be and nothing of a hidden key. */
  lemma {:induction false} ListingShows(p: Policy, slots: Slots, hidden: set<Key>)
    requires Ascending(slots)
    ensures exists keys: seq<Key> {:trigger EntriesOf(p, slots, hidden, keys)} ::
              && (forall i, j :: 0 <= i < j < |keys| ==> keys[i] != keys[j])
              && DisplayAll(p, Listing(p, slots, hidden), Concat(EntriesOf(p, slots, hidden, keys)))
    ensures forall l :: l in Listing(p, slots, hidden) ==> exists k :: FromShown(p, slots, hidden, l, k)
  {
    hide Listing, KeyLines, KeyEntries, Concat, DisplayAll, Displays, Below, FromShown, Ascending, KeysAscend, KnownKeys, Order;
    var known, stray := ListingOrder(p, slots, hidden);
    var keys := known + stray;
    var parts := Segments(p, slots, hidden, keys);
    forall i | 0 <= i < |keys| ensures DisplayAll(p, parts[i], EntriesOf(p, slots, hidden, keys)[i]) {
      KeyShows(p, slots, hidden, keys[i]);
    }
    DisplayConcat(p, parts, EntriesOf(p, slots, hidden, keys));
    forall l | l in Listing(p, slots, hidden) ensures exists k :: FromShown(p, slots, hidden, l, k) {
      InSomePart(parts, l);
      var i :| 0 <= i < |parts| && l in parts[i];
      ShownKey(p, slots, hidden, l, keys[i]);
    }
  }

  // --- The listing as it is built ---

  method ExpandTables(p: Policy, tables: seq<Table>, shown: Key, stable: Key, fields: seq<Field>) returns (out: seq<Line>)
    ensures out == TableLines(p, tables, shown, stable, fields, |tables|)
    decreases fields
  {
    out := [];
    for i := 0 to |tables|
      invariant out == TableLines(p, tables, shown, stable, fields, i)
    {
      ghost var before := out;
      var element: seq<Line> := [];
      for j := 0 to |fields|
        invariant element == ElementLines(p, tables[i].slots, shown, stable, i, fields, j)
      {
        var lines := ExpandField(p, tables[i].slots, shown, stable, i, fields[j]);
        element := element + lines;
      }
      out := out + element;
    }
  }

  method ExpandField(p: Policy, slots: Slots, shown: Key, stable: Key, index: nat, f: Field) returns (lines: seq<Line>)
    ensures lines == FieldLines(p, slots, shown, stable, index, f)
    decreases f
  {
    hide TableLines, DisplayValue;
    var full := shown + "[" + Chars(Decimal(index)) + "]." + f.key;
    var stableField := stable + "." + f.key;
    var mode := At(Modes(p.defs), stableField, NoMode);
    var e := Find(slots, f.key);
    if mode.Hide? || e.None? {
      return [];
    }
    if f.kind.TableArrayKind? {
      if !e.value.isTables {
        return [];
      }
      lines := ExpandTables(p, e.value.tables, full, stableField, f.nested);
    } else {
      var (value, masked) := DisplayValue(full, e.value.raw, mode, e.value.secret);
      lines := [Line(full, value, e.value.place, masked, Omittable(p, stableField, e.value.place), shown, index)];
    }
  }

  method ListKeys(p: Policy, slots: Slots, hidden: set<Key>, keys: seq<Key>) returns (out: seq<Line>)
    ensures out == Listed(p, slots, hidden, keys, |keys|)
  {
    hide TableLines, DisplayValue;
    var seen: set<Key> := {};
    out := [];
    for i := 0 to |keys|
      invariant forall k :: k in seen <==> k in keys[..i]
      invariant out == Listed(p, slots, hidden, keys, i)
    {
      var key := keys[i];
      assert keys[..i + 1] == keys[..i] + [key];
      if key !in seen {
        seen := seen + {key};
        var mode := At(Modes(p.defs), key, NoMode);
        var e := Find(slots, key);
        if key !in hidden && !mode.Hide? && e.Some? {
          if e.value.isTables {
            var lines := ExpandTables(p, e.value.tables, key, key, At(AllArrayFields(p.defs), key, []));
            out := out + lines;
          } else {
            var (value, masked) := DisplayValue(key, e.value.raw, mode, e.value.secret);
            out := out + [Line(key, value, e.value.place, masked, Omittable(p, key, e.value.place), "", 0)];
          }
        }
      }
    }
  }

  /** The listing, with the keys a failed condition took out of it. */
  method ListProvenance(p: Policy, slots: Slots) returns (out: seq<Line>, hidden: set<Key>)
    ensures IsHidden(p, slots, hidden) && out == Listing(p, slots, hidden)
    ensures Ascending(slots) ==> forall l :: l in out ==> exists k :: FromShown(p, slots, hidden, l, k)
    ensures Ascending(slots) ==>
              exists keys: seq<Key> {:trigger EntriesOf(p, slots, hidden, keys)} ::
                && (forall i, j :: 0 <= i < j < |keys| ==> keys[i] != keys[j])
                && DisplayAll(p, out, Concat(EntriesOf(p, slots, hidden, keys)))
  {
    hide IsHidden, Listing, FromShown, Ascending, KnownKeys, SlotKeys, Listed, EntriesOf, DisplayAll;
    hidden := HiddenKeys(p, slots);
    out := ListKeys(p, slots, hidden, KnownKeys(p.defs) + SlotKeys(slots));
    ListingIs(p, slots, hidden);
    if Ascending(slots) {
      ListingShows(p, slots, hidden);
    }
  }

  lemma ListingIs(p: Policy, slots: Slots, hidden: set<Key>)
    ensures var keys := KnownKeys(p.defs) + SlotKeys(slots); Listing(p, slots, hidden) == Listed(p, slots, hidden, keys, |keys|)
  {
  }
}
