/**
 * The generated JSON encoder. The emitter decides at generation time which commas are
 * certain and which need the run-time flag; every program it emits is proved to write
 * exactly the present members and the rest entries, joined by single commas.
 */
module JsonEncode {
  import opened ByteStrings

  const OPEN: byte := 0x7B
  const CLOSE: byte := 0x7D
  const COLON: byte := 0x3A

  // --- When a member is written ---

  /** The field kinds the omit options tell apart. */
  datatype Kind =
    | Str | Number | Flag
    | Slice | Map | ByteSlice | ByteArray
    | Array(ofStruct: bool)
    | Pointer | AnyValue
    | Struct | Foreign

  /** A run-time value, as far as the omit tests look at it. */
  datatype Value =
    | TextValue(text: bytes)
    | NumberValue(number: int)
    | FlagValue(flag: bool)
    | Sequence(isNil: bool, len: nat)
    | Fixed(allZero: bool, len: nat)
    | Reference(isNil: bool)
    | Object(allZero: bool)

  predicate HasKind(v: Value, k: Kind) {
    match k
    case Str => v.TextValue?
    case Number => v.NumberValue?
    case Flag => v.FlagValue?
    case Slice | Map | ByteSlice => v.Sequence? && (v.isNil ==> v.len == 0)
    case ByteArray | Array(_) => v.Fixed?
    case Pointer | AnyValue => v.Reference?
    case Struct | Foreign => v.Object?
  }

  datatype Test = TextNotEmpty | LenPositive | NotNil | NotZero | IsTrue | NotZeroArray | NotZeroStruct

  /** The emitted condition; Doubled is one test spelled twice with nothing between, which is no expression. */
  datatype Condition = Unconditional | One(test: Test) | Both(left: Test, right: Test) | Doubled(test: Test)

  function NotEmptyExpr(k: Kind): Option<Test> {
    match k
    case Str => Some(TextNotEmpty)
    case Slice | Array(_) | ByteSlice | ByteArray | Map => Some(LenPositive)
    case AnyValue | Pointer => Some(NotNil)
    case _ => None
  }

  function NotZeroExpr(k: Kind): Option<Test> {
    match k
    case Str => Some(TextNotEmpty)
    case Number => Some(NotZero)
    case Flag => Some(IsTrue)
    case Slice | Map | AnyValue | Pointer | ByteSlice => Some(NotNil)
    case Array(ofStruct) => if ofStruct then None else Some(NotZeroArray)
    case ByteArray => Some(NotZeroArray)
    case Struct => Some(NotZeroStruct)
    case Foreign => None
  }

  function OmitCondition(k: Kind, omitEmpty: bool, omitZero: bool): Condition {
    var empty := if omitEmpty then NotEmptyExpr(k) else None;
    var zero := if omitZero then NotZeroExpr(k) else None;
    if empty.None? && zero.None? then Unconditional
    else if zero.None? then One(empty.value)
    else if empty.None? then One(zero.value)
    else if empty == zero then Doubled(empty.value)
    else if k.Slice? || k.Map? then One(empty.value)
    else Both(empty.value, zero.value)
  }

  predicate Passes(t: Test, v: Value) {
    match t
    case TextNotEmpty => v.TextValue? && v.text != []
    case LenPositive => (v.Sequence? || v.Fixed?) && v.len > 0
    case NotNil => (v.Sequence? || v.Reference?) && !v.isNil
    case NotZero => v.NumberValue? && v.number != 0
    case IsTrue => v.FlagValue? && v.flag
    case NotZeroArray => v.Fixed? && !v.allZero
    case NotZeroStruct => v.Object? && !v.allZero
  }

  predicate Holds(c: Condition, v: Value)
    requires !c.Doubled?
  {
    match c
    case Unconditional => true
    case One(t) => Passes(t, v)
    case Both(l, r) => Passes(l, v) && Passes(r, v)
  }

  /** The values omitempty names: the empty string, list, byte string and map, and null. */
  predicate IsEmpty(v: Value) {
    match v
    case TextValue(text) => text == []
    case Sequence(_, len) => len == 0
    case Fixed(_, len) => len == 0
    case Reference(isNil) => isNil
    case _ => false
  }

  /** The values omitzero names: the Go zero value. */
  predicate IsZero(v: Value) {
    match v
    case TextValue(text) => text == []
    case NumberValue(n) => n == 0
    case FlagValue(b) => !b
    case Sequence(isNil, _) => isNil
    case Fixed(allZero, _) => allZero
    case Reference(isNil) => isNil
    case Object(allZero) => allZero
  }

  /** The planner refuses both options on a foreign field and omitzero on an array of structs. */
  predicate PlannedOptions(k: Kind, omitEmpty: bool, omitZero: bool) {
    && (k.Foreign? ==> !omitEmpty && !omitZero)
    && (k == Array(true) ==> !omitZero)
  }

  /**
   * Either option alone drops what it names. Both together are emitted as an expression
   * exactly when the field is no string, any or pointer, and then either drops the member.
   */
  lemma OmitConditionMeaning(k: Kind, omitEmpty: bool, omitZero: bool)
    requires PlannedOptions(k, omitEmpty, omitZero)
    ensures OmitCondition(k, omitEmpty, omitZero).Doubled? <==>
            omitEmpty && omitZero && (k.Str? || k.AnyValue? || k.Pointer?)
    ensures !OmitCondition(k, omitEmpty, omitZero).Doubled? ==>
              forall v: Value | HasKind(v, k) ::
                Holds(OmitCondition(k, omitEmpty, omitZero), v) <==>
                !(omitEmpty && IsEmpty(v)) && !(omitZero && IsZero(v))
  {
  }

  /** A string field tagged with both options is emitted as a test written twice over. */
  lemma BothOptionsOnAString()
    ensures OmitCondition(Str, true, true) == Doubled(TextNotEmpty)
  {
  }

  // --- The emitted statements and their evaluation ---

  datatype Lead = AlwaysComma | CommaIfWroteOrLater | CommaIfLater

  datatype Stmt =
    | Put(text: bytes)
    | DeclareWrote
    | SetWrote
    | CommaIfWrote
    | PutValue(i: nat)
    | IfKept(i: nat, body: seq<Stmt>)
    | RestLoop(lead: Lead)

  datatype Member = Member(key: bytes, omittable: bool)

  /** One run: which omittable members pass their test, the encoded values, and the rest map. */
  datatype Run = Run(kept: seq<bool>, values: seq<bytes>, rest: map<bytes, Entry>)

  /** A rest entry as encoded. */
  datatype Entry = Entry(key: bytes, value: bytes)

  /** The rest entries in the order of their keys. */
  ghost function Rest(run: Run): seq<Entry> {
    var keys := SortedKeys(run.rest.Keys);
    seq(|keys|, i requires 0 <= i < |keys| => assert keys[i] in keys; run.rest[keys[i]])
  }

  /** wrote is None until the flag is declared. */
  datatype State = State(dst: bytes, wrote: Option<bool>)

  /** Runs statements; None is a read or a write of an undeclared flag, or a value out of range. */
  ghost function Exec(code: seq<Stmt>, run: Run, s: State): Option<State>
    decreases code
  {
    if code == [] then Some(s)
    else match Step(code[0], run, s)
         case None => None
         case Some(t) => Exec(code[1..], run, t)
  }

  ghost function Step(stmt: Stmt, run: Run, s: State): Option<State>
    decreases stmt
  {
    match stmt
    case Put(text) => Some(s.(dst := s.dst + text))
    case DeclareWrote => if s.wrote.None? then Some(s.(wrote := Some(false))) else None
    case SetWrote => if s.wrote.Some? then Some(s.(wrote := Some(true))) else None
    case CommaIfWrote =>
      if s.wrote.None? then None
      else Some(s.(dst := s.dst + if s.wrote.value then [COMMA] else []))
    case PutValue(i) => if i < |run.values| then Some(s.(dst := s.dst + run.values[i])) else None
    case IfKept(i, body) =>
      if i >= |run.kept| then None else if run.kept[i] then Exec(body, run, s) else Some(s)
    case RestLoop(lead) => Loop(lead, Rest(run), 0, s)
  }

  function Loop(lead: Lead, rest: seq<Entry>, i: nat, s: State): Option<State>
    requires i <= |rest|
    decreases |rest| - i
  {
    if i == |rest| then Some(s)
    else if lead.CommaIfWroteOrLater? && s.wrote.None? then None
    else
      var comma := match lead
                   case AlwaysComma => true
                   case CommaIfWroteOrLater => s.wrote.value || i > 0
                   case CommaIfLater => i > 0;
      Loop(lead, rest, i + 1,
           s.(dst := s.dst + (if comma then [COMMA] else []) + MemberText(rest[i].key, rest[i].value)))
  }

  lemma {:induction false} ExecConcat(a: seq<Stmt>, b: seq<Stmt>, run: Run, s: State)
    ensures Exec(a + b, run, s) == match Exec(a, run, s) case None => None case Some(t) => Exec(b, run, t)
  {
    if a == [] {
      assert a + b == b;
    } else {
      assert (a + b)[1..] == a[1..] + b;
      match Step(a[0], run, s)
      case None =>
      case Some(t) => ExecConcat(a[1..], b, run, t);
    }
  }

  lemma ExecOne(stmt: Stmt, run: Run, s: State)
    ensures Exec([stmt], run, s) == Step(stmt, run, s)
  {
    assert [stmt][1..] == [];
  }

  lemma ExecSnoc(a: seq<Stmt>, stmt: Stmt, run: Run, s: State)
    ensures Exec(a + [stmt], run, s) == match Exec(a, run, s) case None => None case Some(t) => Step(stmt, run, t)
  {
    ExecConcat(a, [stmt], run, s);
    match Exec(a, run, s)
    case None =>
    case Some(t) => ExecOne(stmt, run, t);
  }

  // --- What the encoder has to write ---

  function MemberText(key: bytes, value: bytes): bytes {
    key + [COLON] + value
  }

  predicate Present(members: seq<Member>, run: Run, i: nat)
    requires i < |members| <= |run.kept|
  {
    !members[i].omittable || run.kept[i]
  }

  /** The present members in declaration order. */
  function Written(members: seq<Member>, run: Run): seq<bytes>
    requires Fits(members, run)
  {
    if members == [] then []
    else
      var last := |members| - 1;
      Written(members[..last], run) +
      (if Present(members, run, last) then [MemberText(members[last].key, run.values[last])] else [])
  }

  predicate Fits(members: seq<Member>, run: Run) {
    |run.kept| >= |members| && |run.values| >= |members|
  }

  function RestTexts(rest: seq<Entry>): seq<bytes> {
    seq(|rest|, i requires 0 <= i < |rest| => MemberText(rest[i].key, rest[i].value))
  }

  ghost function Document(members: seq<Member>, hasRest: bool, run: Run): bytes
    requires Fits(members, run)
  {
    [OPEN] + Join(Written(members, run) + if hasRest then RestTexts(Rest(run)) else []) + [CLOSE]
  }

  lemma JoinSnoc(parts: seq<bytes>, p: bytes)
    ensures Join(parts + [p]) == Join(parts) + (if parts == [] then [] else [COMMA]) + p
  {
    assert (parts + [p])[..|parts|] == parts;
  }

  // --- The flag ---

  predicate AllOmittable(members: seq<Member>) {
    forall m :: m in members ==> m.omittable
  }

  /** Some member after the first, or the rest map, comes while every member so far could have dropped out. */
  predicate FlagNeeded(members: seq<Member>, hasRest: bool) {
    UndecidedBefore(members, |members|) || (hasRest && members != [] && AllOmittable(members))
  }

  /** One of the first n members follows only omittable ones. */
  predicate UndecidedBefore(members: seq<Member>, n: nat)
    requires n <= |members|
  {
    exists i :: 0 < i < n && AllOmittable(members[..i])
  }

  lemma UndecidedStep(members: seq<Member>, i: nat)
    requires i < |members|
    ensures UndecidedBefore(members, i + 1) <==> UndecidedBefore(members, i) || (i > 0 && AllOmittable(members[..i]))
    ensures AllOmittable(members[..i + 1]) <==> AllOmittable(members[..i]) && members[i].omittable
  {
    assert members[..i + 1] == members[..i] + [members[i]];
  }

  method NeedsWroteFlag(members: seq<Member>, hasRest: bool) returns (r: bool)
    ensures r == FlagNeeded(members, hasRest)
  {
    var certain := false;
    for i := 0 to |members|
      invariant certain == !AllOmittable(members[..i])
      invariant !UndecidedBefore(members, i)
    {
      UndecidedStep(members, i);
      if i > 0 && !certain {
        assert UndecidedBefore(members, |members|);
        return true;
      }
      if !members[i].omittable {
        certain := true;
      }
    }
    assert members[..|members|] == members;
    return hasRest && |members| > 0 && !certain;
  }

  function RestLead(members: nat, certain: bool, flagged: bool): Lead {
    if certain then AlwaysComma else if members > 0 && flagged then CommaIfWroteOrLater else CommaIfLater
  }

  predicate Reads(code: seq<Stmt>)
    decreases code
  {
    code != [] && (StmtReads(code[0]) || Reads(code[1..]))
  }

  predicate StmtReads(stmt: Stmt)
    decreases stmt
  {
    match stmt
    case CommaIfWrote => true
    case IfKept(_, body) => Reads(body)
    case RestLoop(lead) => lead.CommaIfWroteOrLater?
    case _ => false
  }

  lemma {:induction false} ReadsConcat(a: seq<Stmt>, b: seq<Stmt>)
    ensures Reads(a + b) <==> Reads(a) || Reads(b)
  {
    if a == [] {
      assert a + b == b;
    } else {
      assert (a + b)[1..] == a[1..] + b;
      ReadsConcat(a[1..], b);
    }
  }

  // --- The emitter ---

  /** What precedes a member's value: its key, led by a certain comma, a run-time one, or none. */
  function LeadIn(key: bytes, first: bool, certain: bool): seq<Stmt> {
    if first then [Put(key + [COLON])]
    else if certain then [Put([COMMA] + key + [COLON])]
    else [CommaIfWrote, Put(key + [COLON])]
  }

  /** Writes one member behind the code of those before it. */
  method EmitMember(members: seq<Member>, i: nat, flagged: bool, certain: bool, hasRest: bool, code: seq<Stmt>)
    returns (out: seq<Stmt>)
    requires i < |members| && flagged == FlagNeeded(members, hasRest) && certain == !AllOmittable(members[..i])
    requires EmittedUpTo(code, members, i, flagged, hasRest)
    ensures EmittedUpTo(out, members, i + 1, flagged, hasRest)
    ensures Reads(out) <==> Reads(code) || (i > 0 && !certain)
    ensures DeclareWrote in out <==> DeclareWrote in code
  {
    var f := members[i];
    var block := LeadIn(f.key, i == 0, certain) + [PutValue(i)];
    if f.omittable && flagged && !certain && (i < |members| - 1 || hasRest) {
      block := block + [SetWrote];
    }
    assert block == Block(f.key, i, i == 0, certain, Marks(members, i, flagged, hasRest));
    hide *;
    MemberEmitted(code, members, i, flagged, hasRest);
    BlockReads(f.key, i, certain, Marks(members, i, flagged, hasRest), f.omittable);
    var stmts := if f.omittable then [IfKept(i, block)] else block;
    ReadsConcat(code, stmts);
    out := code + stmts;
  }

  /** Writes the rest map's loop and the closing brace. */
  method EmitTail(members: seq<Member>, flagged: bool, certain: bool, hasRest: bool, code: seq<Stmt>)
    returns (out: seq<Stmt>)
    requires flagged == FlagNeeded(members, hasRest) && certain == !AllOmittable(members)
    requires EmittedUpTo(code, members, |members|, flagged, hasRest)
    ensures forall run {:trigger Exec(out, run, State([], None))} :: Fits(members, run) ==>
              var r := Exec(out, run, State([], None));
              r.Some? && r.value.dst == Document(members, hasRest, run)
    ensures Reads(out) <==> Reads(code) || (hasRest && !certain && members != [])
    ensures DeclareWrote in out <==> DeclareWrote in code
  {
    out := code;
    assert members[..|members|] == members;
    if hasRest {
      var lead := RestLead(|members|, certain, flagged);
      RestEmitted(code, members, flagged);
      ReadsConcat(code, [RestLoop(lead)]);
      ReadsOne(RestLoop(lead));
      out := code + [RestLoop(lead)];
    } else {
      forall run | Fits(members, run) ensures Written(members, run) + [] == Written(members, run) {
      }
    }
    Closed(out, members, hasRest);
    ReadsConcat(out, [Put([CLOSE])]);
    ReadsOne(Put([CLOSE]));
    out := out + [Put([CLOSE])];
  }

  lemma ReadsOne(stmt: Stmt)
    ensures Reads([stmt]) <==> StmtReads(stmt)
  {
    assert [stmt][1..] == [];
  }

  /**
   * Writes the encoder. Every run of it writes the document of its members, no run reads or
   * sets an undeclared flag, and the flag is declared exactly when some statement reads it.
   */
  method EmitEncode(members: seq<Member>, hasRest: bool) returns (code: seq<Stmt>)
    ensures forall run {:trigger Exec(code, run, State([], None))} :: Fits(members, run) ==>
              var r := Exec(code, run, State([], None));
              r.Some? && r.value.dst == Document(members, hasRest, run)
    ensures DeclareWrote in code <==> Reads(code)
  {
    hide Exec, Document;
    code := [Put([OPEN])];
    var flagged := NeedsWroteFlag(members, hasRest);
    if flagged {
      code := code + [DeclareWrote];
    }
    assert code == [Put([OPEN])] + if flagged then [DeclareWrote] else [];
    StartsRight(members, hasRest, flagged);
    var certain := false;
    for i := 0 to |members|
      invariant certain == !AllOmittable(members[..i])
      invariant EmittedUpTo(code, members, i, flagged, hasRest)
      invariant DeclareWrote in code <==> flagged
      invariant Reads(code) <==> UndecidedBefore(members, i)
    {
      code := EmitMember(members, i, flagged, certain, hasRest, code);
      UndecidedStep(members, i);
      if !members[i].omittable {
        certain := true;
      }
    }
    assert members[..|members|] == members;
    code := EmitTail(members, flagged, certain, hasRest, code);
  }

  /** The state every run is in behind the first i members. */
  ghost predicate EmittedUpTo(code: seq<Stmt>, members: seq<Member>, i: nat, flagged: bool, hasRest: bool)
    requires i <= |members|
  {
    forall run {:trigger Exec(code, run, State([], None))} :: Fits(members, run) ==>
      StateUpTo(Exec(code, run, State([], None)), members, i, flagged, hasRest, run)
  }

  ghost predicate StateUpTo(s: Option<State>, members: seq<Member>, i: nat, flagged: bool, hasRest: bool, run: Run)
    requires i <= |members| && Fits(members, run)
  {
    && s.Some?
    && s.value.dst == [OPEN] + Join(Written(members[..i], run))
    && (flagged <==> s.value.wrote.Some?)
    && (flagged && AllOmittable(members[..i]) && (i < |members| || hasRest) ==>
          s.value.wrote == Some(Written(members[..i], run) != []))
  }

  lemma StartsRight(members: seq<Member>, hasRest: bool, flagged: bool)
    ensures EmittedUpTo([Put([OPEN])] + if flagged then [DeclareWrote] else [], members, 0, flagged, hasRest)
    ensures !Reads([Put([OPEN])] + if flagged then [DeclareWrote] else [])
  {
    var code := [Put([OPEN])] + if flagged then [DeclareWrote] else [];
    assert !flagged ==> code == [Put([OPEN])];
    assert code[1..] == if flagged then [DeclareWrote] else [];
    assert [DeclareWrote][1..] == [];
    forall run | Fits(members, run)
      ensures StateUpTo(Exec(code, run, State([], None)), members, 0, flagged, hasRest, run)
    {
      ExecOne(Put([OPEN]), run, State([], None));
      ExecSnoc([Put([OPEN])], DeclareWrote, run, State([], None));
      assert [] + [OPEN] == [OPEN] + Join([]);
    }
  }

  lemma {:induction false} SomethingWritten(members: seq<Member>, run: Run)
    requires Fits(members, run) && !AllOmittable(members)
    ensures Written(members, run) != []
  {
    var last := |members| - 1;
    if members[last].omittable {
      assert members == members[..last] + [members[last]];
      SomethingWritten(members[..last], run);
    }
  }

  lemma LeadExec(key: bytes, first: bool, certain: bool, run: Run, s: State, nothing: bool)
    requires first ==> nothing
    requires certain ==> !nothing
    requires !first && !certain ==> s.wrote == Some(!nothing)
    ensures Exec(LeadIn(key, first, certain), run, s) ==
            Some(s.(dst := s.dst + ((if nothing then [] else [COMMA]) + key + [COLON])))
  {
    var comma: bytes := if nothing then [] else [COMMA];
    assert [] + key + [COLON] == key + [COLON];
    assert s.dst + comma + (key + [COLON]) == s.dst + (comma + key + [COLON]);
    ExecOne(LeadIn(key, first, certain)[0], run, s);
    if !first && !certain {
      ExecSnoc([CommaIfWrote], Put(key + [COLON]), run, s);
      assert LeadIn(key, first, certain) == [CommaIfWrote] + [Put(key + [COLON])];
      assert s.dst + [] == s.dst;
    } else {
      assert LeadIn(key, first, certain) == [LeadIn(key, first, certain)[0]];
    }
  }

  /** A member's block: what precedes the value, the value, and the mark that something was written. */
  function Block(key: bytes, i: nat, first: bool, certain: bool, marks: bool): seq<Stmt> {
    LeadIn(key, first, certain) + [PutValue(i)] + if marks then [SetWrote] else []
  }

  lemma StepValue(i: nat, run: Run, s: State)
    requires i < |run.values|
    ensures Step(PutValue(i), run, s) == Some(s.(dst := s.dst + run.values[i]))
    ensures s.wrote.Some? ==> Step(SetWrote, run, s) == Some(s.(wrote := Some(true)))
  {
  }

  lemma Rejoin(before: seq<bytes>, key: bytes, value: bytes)
    ensures [OPEN] + Join(before) + ((if before == [] then [] else [COMMA]) + key + [COLON]) + value ==
            [OPEN] + Join(before + [MemberText(key, value)])
  {
    hide Join;
    JoinSnoc(before, MemberText(key, value));
    var comma: bytes := if before == [] then [] else [COMMA];
    assert [OPEN] + Join(before) + (comma + key + [COLON]) + value ==
           [OPEN] + (Join(before) + comma + (key + [COLON] + value));
  }

  /** The block of one member, run in the state the members before it leave. */
  lemma BlockExec(key: bytes, i: nat, first: bool, certain: bool, marks: bool, before: seq<bytes>, run: Run, s: State)
    requires i < |run.values| && s.dst == [OPEN] + Join(before)
    requires first ==> before == []
    requires certain ==> before != []
    requires !first && !certain ==> s.wrote == Some(before != [])
    requires marks ==> s.wrote.Some?
    ensures Exec(Block(key, i, first, certain, marks), run, s) ==
            Some(State([OPEN] + Join(before + [MemberText(key, run.values[i])]), if marks then Some(true) else s.wrote))
  {
    hide Exec, Step, Join, LeadIn, MemberText;
    LeadExec(key, first, certain, run, s, before == []);
    var lead := LeadIn(key, first, certain);
    var t := s.(dst := s.dst + ((if before == [] then [] else [COMMA]) + key + [COLON]));
    ExecSnoc(lead, PutValue(i), run, s);
    StepValue(i, run, t);
    var u := t.(dst := t.dst + run.values[i]);
    Rejoin(before, key, run.values[i]);
    var valued := lead + [PutValue(i)];
    if marks {
      ExecSnoc(valued, SetWrote, run, s);
      StepValue(i, run, u);
    } else {
      assert valued + [] == valued;
    }
  }

  lemma WrittenSnoc(members: seq<Member>, i: nat, run: Run)
    requires i < |members| && Fits(members, run)
    ensures Written(members[..i + 1], run) ==
            Written(members[..i], run) + if Present(members, run, i) then [MemberText(members[i].key, run.values[i])] else []
  {
    assert members[..i + 1][..i] == members[..i];
  }

  predicate Marks(members: seq<Member>, i: nat, flagged: bool, hasRest: bool)
    requires i < |members|
  {
    members[i].omittable && flagged && AllOmittable(members[..i]) && (i < |members| - 1 || hasRest)
  }

  /** A member in front of which nothing is certain is the first, or the flag is declared and live. */
  lemma FlagLive(members: seq<Member>, i: nat, hasRest: bool)
    requires i < |members| && i > 0 && AllOmittable(members[..i])
    ensures FlagNeeded(members, hasRest)
  {
    assert UndecidedBefore(members, |members|);
  }

  lemma MemberState(members: seq<Member>, i: nat, flagged: bool, hasRest: bool, run: Run, s: State)
    requires i < |members| && Fits(members, run) && flagged == FlagNeeded(members, hasRest)
    requires StateUpTo(Some(s), members, i, flagged, hasRest, run)
    ensures var f := members[i];
            var block := Block(f.key, i, i == 0, !AllOmittable(members[..i]), Marks(members, i, flagged, hasRest));
            StateUpTo(if Present(members, run, i) then Exec(block, run, s) else Some(s), members, i + 1, flagged, hasRest, run)
  {
    hide *;
    FitsPrefix(members, i, run);
    var f, before := members[i], Written(members[..i], run);
    var certain, marks := !AllOmittable(members[..i]), Marks(members, i, flagged, hasRest);
    StateMeans(members, i, flagged, hasRest, run, s);
    if Present(members, run, i) {
      BlockExec(f.key, i, i == 0, certain, marks, before, run, s);
      WrittenState(members, i, flagged, hasRest, run, s, State([OPEN] + Join(before + [MemberText(f.key, run.values[i])]),
                                                              if marks then Some(true) else s.wrote));
    } else {
      SkippedState(members, i, flagged, hasRest, run, s);
    }
  }

  lemma FitsPrefix(members: seq<Member>, i: nat, run: Run)
    requires i < |members| && Fits(members, run)
    ensures Fits(members[..i], run) && |run.kept| >= |members| && |run.values| >= |members|
  {
  }

  lemma StateMeans(members: seq<Member>, i: nat, flagged: bool, hasRest: bool, run: Run, s: State)
    requires i < |members| && Fits(members, run) && flagged == FlagNeeded(members, hasRest)
    requires StateUpTo(Some(s), members, i, flagged, hasRest, run)
    ensures var before := Written(members[..i], run);
            && |run.values| > i && s.dst == [OPEN] + Join(before)
            && (i == 0 ==> before == [])
            && (!AllOmittable(members[..i]) ==> before != [])
            && (i > 0 && AllOmittable(members[..i]) ==> s.wrote == Some(before != []))
            && (Marks(members, i, flagged, hasRest) ==> s.wrote.Some?)
  {
    if !AllOmittable(members[..i]) {
      SomethingWritten(members[..i], run);
    } else if i > 0 {
      FlagLive(members, i, hasRest);
    }
  }

  lemma WrittenState(members: seq<Member>, i: nat, flagged: bool, hasRest: bool, run: Run, s: State, t: State)
    requires i < |members| && Fits(members, run) && Present(members, run, i)
    requires StateUpTo(Some(s), members, i, flagged, hasRest, run)
    requires t.dst == [OPEN] + Join(Written(members[..i], run) + [MemberText(members[i].key, run.values[i])])
    requires t.wrote == if Marks(members, i, flagged, hasRest) then Some(true) else s.wrote
    ensures StateUpTo(Some(t), members, i + 1, flagged, hasRest, run)
  {
    hide Join, Written, AllOmittable, MemberText;
    WrittenSnoc(members, i, run);
    UndecidedStep(members, i);
  }

  lemma SkippedState(members: seq<Member>, i: nat, flagged: bool, hasRest: bool, run: Run, s: State)
    requires i < |members| && Fits(members, run) && !Present(members, run, i)
    requires StateUpTo(Some(s), members, i, flagged, hasRest, run)
    ensures StateUpTo(Some(s), members, i + 1, flagged, hasRest, run)
  {
    hide Join, Written, AllOmittable;
    WrittenSnoc(members, i, run);
    UndecidedStep(members, i);
    assert Written(members[..i], run) + [] == Written(members[..i], run);
  }

  lemma MemberEmitted(code: seq<Stmt>, members: seq<Member>, i: nat, flagged: bool, hasRest: bool)
    requires i < |members| && flagged == FlagNeeded(members, hasRest)
    requires EmittedUpTo(code, members, i, flagged, hasRest)
    ensures var f := members[i];
            var block := Block(f.key, i, i == 0, !AllOmittable(members[..i]), Marks(members, i, flagged, hasRest));
            EmittedUpTo(code + (if f.omittable then [IfKept(i, block)] else block), members, i + 1, flagged, hasRest)
  {
    hide Block, FlagNeeded, StateUpTo, Exec, AllOmittable, Marks;
    var f := members[i];
    var block := Block(f.key, i, i == 0, !AllOmittable(members[..i]), Marks(members, i, flagged, hasRest));
    var stmts := if f.omittable then [IfKept(i, block)] else block;
    forall run | Fits(members, run)
      ensures StateUpTo(Exec(code + stmts, run, State([], None)), members, i + 1, flagged, hasRest, run)
    {
      var r := Exec(code, run, State([], None));
      assert StateUpTo(r, members, i, flagged, hasRest, run);
      StateThere(r, members, i, flagged, hasRest, run);
      ExecConcat(code, stmts, run, State([], None));
      MemberState(members, i, flagged, hasRest, run, r.value);
      if f.omittable {
        ExecOne(IfKept(i, block), run, r.value);
      }
    }
  }

  lemma StateThere(s: Option<State>, members: seq<Member>, i: nat, flagged: bool, hasRest: bool, run: Run)
    requires i <= |members| && Fits(members, run) && StateUpTo(s, members, i, flagged, hasRest, run)
    ensures s.Some?
  {
  }

  lemma BlockReads(key: bytes, i: nat, certain: bool, marks: bool, omittable: bool)
    ensures var block := Block(key, i, i == 0, certain, marks);
            var stmts := if omittable then [IfKept(i, block)] else block;
            (Reads(stmts) <==> i > 0 && !certain) && DeclareWrote !in stmts
  {
    var lead := LeadIn(key, i == 0, certain);
    ReadsOne(lead[0]);
    ReadsOne(SetWrote);
    ReadsOne(PutValue(i));
    ReadsOne(Put(key + [COLON]));
    ReadsOne(IfKept(i, Block(key, i, i == 0, certain, marks)));
    hide Reads;
    if |lead| == 2 {
      assert lead == [CommaIfWrote] + [Put(key + [COLON])];
      ReadsConcat([CommaIfWrote], [Put(key + [COLON])]);
    } else {
      assert lead == [lead[0]];
    }
    ReadsConcat(lead, [PutValue(i)]);
    ReadsConcat(lead + [PutValue(i)], [SetWrote]);
    assert lead + [PutValue(i)] + [] == lead + [PutValue(i)];
  }

  lemma {:induction false} LoopWrites(lead: Lead, rest: seq<Entry>, i: nat, s: State, before: seq<bytes>)
    requires i <= |rest|
    requires s.dst == [OPEN] + Join(before + RestTexts(rest)[..i])
    requires match lead
             case AlwaysComma => before != []
             case CommaIfWroteOrLater => s.wrote == Some(before != [])
             case CommaIfLater => before == []
    ensures Loop(lead, rest, i, s).Some?
    ensures Loop(lead, rest, i, s).value.dst == [OPEN] + Join(before + RestTexts(rest))
    decreases |rest| - i
  {
    hide Join, MemberText;
    var texts := RestTexts(rest);
    if i == |rest| {
      assert texts[..i] == texts;
    } else {
      assert before + texts[..i + 1] == (before + texts[..i]) + [texts[i]];
      JoinSnoc(before + texts[..i], texts[i]);
      var comma: bytes := if before + texts[..i] == [] then [] else [COMMA];
      LoopWrites(lead, rest, i + 1, s.(dst := s.dst + comma + texts[i]), before);
    }
  }

  lemma RestEmitted(code: seq<Stmt>, members: seq<Member>, flagged: bool)
    requires EmittedUpTo(code, members, |members|, flagged, true) && flagged == FlagNeeded(members, true)
    ensures var lead := RestLead(|members|, !AllOmittable(members), flagged);
            forall run {:trigger Exec(code + [RestLoop(lead)], run, State([], None))} :: Fits(members, run) ==>
              var r := Exec(code + [RestLoop(lead)], run, State([], None));
              r.Some? && r.value.dst == [OPEN] + Join(Written(members, run) + RestTexts(Rest(run)))
  {
    var lead := RestLead(|members|, !AllOmittable(members), flagged);
    forall run | Fits(members, run)
      ensures var r := Exec(code + [RestLoop(lead)], run, State([], None));
              r.Some? && r.value.dst == [OPEN] + Join(Written(members, run) + RestTexts(Rest(run)))
    {
      var s := Exec(code, run, State([], None)).value;
      ExecSnoc(code, RestLoop(lead), run, State([], None));
      assert members[..|members|] == members;
      var before := Written(members, run);
      if lead.AlwaysComma? {
        SomethingWritten(members, run);
      }
      assert before + RestTexts(Rest(run))[..0] == before;
      LoopWrites(lead, Rest(run), 0, s, before);
    }
  }

  lemma Closed(code: seq<Stmt>, members: seq<Member>, hasRest: bool)
    requires forall run {:trigger Exec(code, run, State([], None))} :: Fits(members, run) ==>
               var r := Exec(code, run, State([], None));
               r.Some? && r.value.dst == [OPEN] + Join(Written(members, run) + if hasRest then RestTexts(Rest(run)) else [])
    ensures forall run {:trigger Exec(code + [Put([CLOSE])], run, State([], None))} :: Fits(members, run) ==>
              var r := Exec(code + [Put([CLOSE])], run, State([], None));
              r.Some? && r.value.dst == Document(members, hasRest, run)
  {
    forall run | Fits(members, run)
      ensures var r := Exec(code + [Put([CLOSE])], run, State([], None));
              r.Some? && r.value.dst == Document(members, hasRest, run)
    {
      ExecSnoc(code, Put([CLOSE]), run, State([], None));
    }
  }

  // --- From tagged fields to the document ---

  datatype Field = Field(key: bytes, kind: Kind, omitEmpty: bool, omitZero: bool)

  function ConditionOf(f: Field): Condition {
    OmitCondition(f.kind, f.omitEmpty, f.omitZero)
  }

  function MembersOf(fields: seq<Field>): seq<Member> {
    seq(|fields|, i requires 0 <= i < |fields| => Member(fields[i].key, !ConditionOf(fields[i]).Unconditional?))
  }

  predicate Emittable(fields: seq<Field>) {
    forall i :: 0 <= i < |fields| ==>
      PlannedOptions(fields[i].kind, fields[i].omitEmpty, fields[i].omitZero) && !ConditionOf(fields[i]).Doubled?
  }

  /** The run the emitted encoder makes of some field values. */
  function RunOf(fields: seq<Field>, values: seq<Value>, texts: seq<bytes>, rest: map<bytes, Entry>): Run
    requires Emittable(fields) && |values| == |texts| == |fields|
  {
    Run(seq(|fields|, i requires 0 <= i < |fields| => Holds(ConditionOf(fields[i]), values[i])), texts, rest)
  }

  predicate Dropped(f: Field, v: Value) {
    (f.omitEmpty && IsEmpty(v)) || (f.omitZero && IsZero(v))
  }

  function Kept(fields: seq<Field>, values: seq<Value>, texts: seq<bytes>): seq<bytes>
    requires |values| == |texts| == |fields|
  {
    if fields == [] then []
    else
      var last := |fields| - 1;
      Kept(fields[..last], values[..last], texts[..last]) +
      (if Dropped(fields[last], values[last]) then [] else [MemberText(fields[last].key, texts[last])])
  }

  /** The document holds the fields neither of their options drops, in declaration order. */
  lemma {:induction false} WrittenFields(fields: seq<Field>, values: seq<Value>, texts: seq<bytes>, rest: map<bytes, Entry>)
    requires Emittable(fields) && |values| == |texts| == |fields|
    requires forall i :: 0 <= i < |fields| ==> HasKind(values[i], fields[i].kind)
    ensures Written(MembersOf(fields), RunOf(fields, values, texts, rest)) == Kept(fields, values, texts)
  {
    if fields != [] {
      var last := |fields| - 1;
      var run, shorter := RunOf(fields, values, texts, rest), RunOf(fields[..last], values[..last], texts[..last], rest);
      WrittenFields(fields[..last], values[..last], texts[..last], rest);
      assert MembersOf(fields)[..last] == MembersOf(fields[..last]);
      SameWritten(MembersOf(fields[..last]), shorter, run);
      OmitConditionMeaning(fields[last].kind, fields[last].omitEmpty, fields[last].omitZero);
    }
  }

  lemma {:induction false} SameWritten(members: seq<Member>, run: Run, other: Run)
    requires Fits(members, run) && Fits(members, other)
    requires forall i :: 0 <= i < |members| ==> run.kept[i] == other.kept[i] && run.values[i] == other.values[i]
    ensures Written(members, run) == Written(members, other)
  {
    if members != [] {
      SameWritten(members[..|members| - 1], run, other);
    }
  }
}
