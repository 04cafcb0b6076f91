/**
 * The member-name decision tree of the generated object walks: the emitter is
 * a compiler from a list of candidate names to a small statement language, and
 * every program it emits is proved to settle exactly the candidate that matches.
 */
module KeyTree {
  import opened ByteStrings

  const QUOTE: byte := 0x22
  const BACKSLASH: byte := 0x5C

  // --- Names and candidates ---

  predicate TreeSafeName(name: bytes) {
    && name != []
    && forall i :: 0 <= i < |name| ==> 0x20 <= name[i] < 0x7F && name[i] != QUOTE && name[i] != BACKSLASH
  }

  function Quoted(name: bytes): bytes {
    [QUOTE] + name + [QUOTE]
  }

  datatype Candidate = Candidate(lit: bytes, idx: nat)

  /** A JSON walk matches a literal as a prefix of the unread input, a CBOR walk matches the whole key. */
  datatype Mode = Prefix | Exact

  predicate Matches(mode: Mode, lit: bytes, input: bytes) {
    if mode.Prefix? then lit <= input else lit == input
  }

  // --- The emitted statements and their evaluation ---

  datatype Stmt =
    | SwitchLen(lenCases: seq<Case>)
    | SwitchByte(at: nat, byteCases: seq<Case>)
    | IfLongerThan(n: nat, body: seq<Stmt>)
    | IfPrefix(guarded: bool, c: Candidate)
    | IfWhole(c: Candidate)

  datatype Case = Case(tag: int, body: seq<Stmt>)

  /** The two variables the emitted code assigns. */
  datatype Found = Found(idx: int, k: nat)

  /** Runs statements over an input; None is an index or a slice out of range. */
  function Exec(code: seq<Stmt>, input: bytes, s: Found): Option<Found>
    decreases code
  {
    if code == [] then Some(s)
    else match Step(code[0], input, s)
         case None => None
         case Some(t) => Exec(code[1..], input, t)
  }

  function Step(stmt: Stmt, input: bytes, s: Found): Option<Found>
    decreases stmt
  {
    match stmt
    case SwitchLen(cases) => Select(cases, |input|, input, s)
    case SwitchByte(at, cases) => if at < |input| then Select(cases, input[at], input, s) else None
    case IfLongerThan(n, body) => if |input| > n then Exec(body, input, s) else Some(s)
    case IfPrefix(guarded, c) =>
      if guarded && |input| < |c.lit| then Some(s)
      else if |input| < |c.lit| then None
      else if input[..|c.lit|] == c.lit then Some(Found(c.idx, |c.lit|))
      else Some(s)
    case IfWhole(c) => if input == c.lit then Some(Found(c.idx, s.k)) else Some(s)
  }

  function Select(cases: seq<Case>, v: int, input: bytes, s: Found): Option<Found>
    decreases cases
  {
    if cases == [] then Some(s)
    else if cases[0].tag == v then Exec(cases[0].body, input, s)
    else Select(cases[1..], v, input, s)
  }

  /** How many whole-literal compares a run executes. */
  function Compares(code: seq<Stmt>, input: bytes): nat
    decreases code
  {
    if code == [] then 0 else StepCompares(code[0], input) + Compares(code[1..], input)
  }

  function StepCompares(stmt: Stmt, input: bytes): nat
    decreases stmt
  {
    match stmt
    case SwitchLen(cases) => SelectCompares(cases, |input|, input)
    case SwitchByte(at, cases) => if at < |input| then SelectCompares(cases, input[at], input) else 0
    case IfLongerThan(n, body) => if |input| > n then Compares(body, input) else 0
    case IfPrefix(guarded, c) => if guarded && |input| < |c.lit| then 0 else 1
    case IfWhole(_) => 1
  }

  function SelectCompares(cases: seq<Case>, v: int, input: bytes): nat
    decreases cases
  {
    if cases == [] then 0
    else if cases[0].tag == v then Compares(cases[0].body, input)
    else SelectCompares(cases[1..], v, input)
  }

  /** The same run with its whole-literal compares counted as they are made. */
  function Traced(code: seq<Stmt>, input: bytes, s: Found, n: nat): Option<(Found, nat)>
    decreases code
  {
    if code == [] then Some((s, n))
    else
      match TracedStep(code[0], input, s, n)
      case None => None
      case Some((t, m)) => Traced(code[1..], input, t, m)
  }

  function TracedStep(stmt: Stmt, input: bytes, s: Found, n: nat): Option<(Found, nat)>
    decreases stmt
  {
    match stmt
    case SwitchLen(cases) => TracedSelect(cases, |input|, input, s, n)
    case SwitchByte(at, cases) => if at < |input| then TracedSelect(cases, input[at], input, s, n) else None
    case IfLongerThan(m, body) => if |input| > m then Traced(body, input, s, n) else Some((s, n))
    case IfPrefix(guarded, c) =>
      if guarded && |input| < |c.lit| then Some((s, n))
      else if |input| < |c.lit| then None
      else if c.lit <= input then Some((Found(c.idx, |c.lit|), n + 1))
      else Some((s, n + 1))
    case IfWhole(c) => if c.lit == input then Some((Found(c.idx, s.k), n + 1)) else Some((s, n + 1))
  }

  function TracedSelect(cases: seq<Case>, v: int, input: bytes, s: Found, n: nat): Option<(Found, nat)>
    decreases cases
  {
    if cases == [] then Some((s, n))
    else if cases[0].tag == v then Traced(cases[0].body, input, s, n)
    else TracedSelect(cases[1..], v, input, s, n)
  }

  /** A run's result is its traced result, and it makes the compares that are counted for it. */
  predicate Follows(plain: Option<Found>, traced: Option<(Found, nat)>, n: nat, counted: nat) {
    && (plain.None? <==> traced.None?)
    && (traced.Some? ==> traced.value.0 == plain.value && traced.value.1 == n + counted)
  }

  lemma {:induction false} TracedExactly(code: seq<Stmt>, input: bytes, s: Found, n: nat)
    ensures Follows(Exec(code, input, s), Traced(code, input, s, n), n, Compares(code, input))
    decreases code
  {
    if code != [] {
      TracedStepExactly(code[0], input, s, n);
      hide Step, TracedStep, StepCompares;
      var t := TracedStep(code[0], input, s, n);
      if t.Some? {
        TracedExactly(code[1..], input, t.value.0, t.value.1);
      }
    }
  }

  lemma {:induction false} TracedStepExactly(stmt: Stmt, input: bytes, s: Found, n: nat)
    ensures Follows(Step(stmt, input, s), TracedStep(stmt, input, s, n), n, StepCompares(stmt, input))
    decreases stmt
  {
    match stmt {
      case SwitchLen(cases) => TracedSelectExactly(cases, |input|, input, s, n);
      case SwitchByte(at, cases) =>
        if at < |input| {
          TracedSelectExactly(cases, input[at], input, s, n);
        }
      case IfLongerThan(_, body) => TracedExactly(body, input, s, n);
      case _ =>
    }
  }

  lemma {:induction false} TracedSelectExactly(cases: seq<Case>, v: int, input: bytes, s: Found, n: nat)
    ensures Follows(Select(cases, v, input, s), TracedSelect(cases, v, input, s, n), n, SelectCompares(cases, v, input))
    decreases cases
  {
    if cases != [] {
      if cases[0].tag == v {
        TracedExactly(cases[0].body, input, s, n);
      } else {
        TracedSelectExactly(cases[1..], v, input, s, n);
      }
    }
  }

  // --- What the emitted code has to compute ---

  /** What the compare of one candidate leaves. */
  function Try(mode: Mode, c: Candidate, input: bytes, s: Found): Found {
    if Matches(mode, c.lit, input) then Found(c.idx, if mode.Prefix? then |c.lit| else s.k) else s
  }

  /** The last candidate that matches, or the state left alone. */
  function Settle(mode: Mode, cands: seq<Candidate>, input: bytes, s: Found): Found {
    if cands == [] then s else Settle(mode, cands[1..], input, Try(mode, cands[0], input, s))
  }

  /** Some input could match both. */
  predicate Clash(mode: Mode, a: bytes, b: bytes) {
    if mode.Prefix? then a <= b || b <= a else a == b
  }

  predicate Unambiguous(mode: Mode, cands: seq<Candidate>) {
    cands == [] ||
    ((forall d :: d in cands[1..] ==> !Clash(mode, cands[0].lit, d.lit)) && Unambiguous(mode, cands[1..]))
  }

  /** known is how many bytes of the input the enclosing guards have proven present. */
  predicate Admissible(mode: Mode, known: nat, input: bytes) {
    if mode.Prefix? then |input| >= known else known == 0 || |input| == known
  }

  ghost predicate Correct(code: seq<Stmt>, mode: Mode, cands: seq<Candidate>, known: nat) {
    forall input: bytes, s: Found {:trigger Exec(code, input, s)} ::
      Admissible(mode, known, input) ==> Exec(code, input, s) == Some(Settle(mode, cands, input, s))
  }

  /** One literal compare at most, whatever the input. */
  ghost predicate Economical(code: seq<Stmt>) {
    forall input: bytes {:trigger Compares(code, input)} :: Compares(code, input) <= 1
  }

  /** Some of the candidates differ at no position under their shortest length. */
  ghost predicate Stuck(mode: Mode, cands: seq<Candidate>) {
    exists sub: seq<Candidate>, minLen: nat {:trigger NoSplit(mode, sub, minLen)} ::
      NoSplit(mode, sub, minLen) && (forall c :: c in sub ==> c in cands)
  }

  ghost predicate NoSplit(mode: Mode, sub: seq<Candidate>, minLen: nat) {
    && |sub| >= 2
    && Unambiguous(mode, sub)
    && (forall c :: c in sub ==> minLen <= |c.lit|)
    && (exists c :: c in sub && minLen == |c.lit|)
    && (mode.Exact? ==> forall c :: c in sub ==> |c.lit| == minLen)
    && (forall k {:trigger BytesAt(sub, k)} :: (if mode.Exact? then 0 else 1) <= k < minLen ==> |BytesAt(sub, k)| <= 1)
  }

  predicate Usable(mode: Mode, cands: seq<Candidate>, known: nat) {
    && (forall c :: c in cands ==> c.lit != [])
    && (mode.Exact? && known > 0 ==> forall c :: c in cands ==> |c.lit| == known)
  }

  // --- Grouping ---

  datatype Key = Length | ByteAt(at: nat)

  function KeyOf(key: Key, c: Candidate): int {
    match key
    case Length => |c.lit|
    case ByteAt(at) => if at < |c.lit| then c.lit[at] else -1
  }

  /** The candidates with one key, in their order. */
  function Having(cands: seq<Candidate>, key: Key, v: int): seq<Candidate> {
    if cands == [] then []
    else (if KeyOf(key, cands[0]) == v then [cands[0]] else []) + Having(cands[1..], key, v)
  }

  lemma {:induction false} HavingMembers(cands: seq<Candidate>, key: Key, v: int)
    ensures forall c :: c in Having(cands, key, v) <==> c in cands && KeyOf(key, c) == v
    ensures |Having(cands, key, v)| <= |cands|
  {
    if cands != [] {
      HavingMembers(cands[1..], key, v);
    }
  }

  lemma {:induction false} HavingAppend(cands: seq<Candidate>, c: Candidate, key: Key, v: int)
    ensures Having(cands + [c], key, v) == Having(cands, key, v) + (if KeyOf(key, c) == v then [c] else [])
  {
    if cands != [] {
      assert (cands + [c])[1..] == cands[1..] + [c];
      HavingAppend(cands[1..], c, key, v);
    }
  }

  lemma {:induction false} HavingSmaller(cands: seq<Candidate>, key: Key, v: int)
    requires exists c :: c in cands && KeyOf(key, c) != v
    ensures |Having(cands, key, v)| < |cands|
  {
    HavingMembers(cands[1..], key, v);
    if KeyOf(key, cands[0]) == v {
      HavingSmaller(cands[1..], key, v);
    }
  }

  lemma {:induction false} HavingUnambiguous(mode: Mode, cands: seq<Candidate>, key: Key, v: int)
    requires Unambiguous(mode, cands)
    ensures Unambiguous(mode, Having(cands, key, v))
  {
    if cands != [] {
      HavingUnambiguous(mode, cands[1..], key, v);
      HavingMembers(cands[1..], key, v);
      if KeyOf(key, cands[0]) == v {
        assert Having(cands, key, v)[1..] == Having(cands[1..], key, v);
      } else {
        assert Having(cands, key, v) == Having(cands[1..], key, v);
      }
    }
  }

  /** Dropping candidates that cannot match changes nothing. */
  lemma {:induction false} SettleHaving(mode: Mode, cands: seq<Candidate>, key: Key, v: int, input: bytes, s: Found)
    requires forall c :: c in cands && Matches(mode, c.lit, input) ==> KeyOf(key, c) == v
    ensures Settle(mode, Having(cands, key, v), input, s) == Settle(mode, cands, input, s)
  {
    if cands != [] {
      SettleHaving(mode, cands[1..], key, v, input, Try(mode, cands[0], input, s));
      if KeyOf(key, cands[0]) == v {
        assert Having(cands, key, v)[1..] == Having(cands[1..], key, v);
      } else {
        assert Having(cands, key, v) == Having(cands[1..], key, v);
      }
    }
  }

  lemma {:induction false} SettleNone(mode: Mode, cands: seq<Candidate>, input: bytes, s: Found)
    requires forall c :: c in cands ==> !Matches(mode, c.lit, input)
    ensures Settle(mode, cands, input, s) == s
  {
    if cands != [] {
      SettleNone(mode, cands[1..], input, s);
    }
  }

  lemma {:induction false} SettleAppend(mode: Mode, cands: seq<Candidate>, c: Candidate, input: bytes, s: Found)
    ensures Settle(mode, cands + [c], input, s) == Try(mode, c, input, Settle(mode, cands, input, s))
  {
    if cands == [] {
      assert cands + [c] == [c] && [c][1..] == [];
    } else {
      assert (cands + [c])[1..] == cands[1..] + [c];
      SettleAppend(mode, cands[1..], c, input, Try(mode, cands[0], input, s));
    }
  }

  /** The keys in first-appearance order, and under each key its candidates. */
  ghost predicate Grouped(cands: seq<Candidate>, key: Key, order: seq<int>, groups: map<int, seq<Candidate>>) {
    && (forall i, j :: 0 <= i < j < |order| ==> order[i] != order[j])
    && (forall v :: v in order <==> v in groups)
    && (forall v :: v in groups ==> groups[v] != [])
    && (forall v :: Having(cands, key, v) == if v in groups then groups[v] else [])
  }

  lemma GroupNone(key: Key)
    ensures Grouped([], key, [], map[])
  {
  }

  lemma GroupAdd(cands: seq<Candidate>, c: Candidate, key: Key, order: seq<int>, groups: map<int, seq<Candidate>>)
    requires Grouped(cands, key, order, groups)
    ensures var v := KeyOf(key, c);
            Grouped(cands + [c], key, if v in groups then order else order + [v],
                    groups[v := (if v in groups then groups[v] else []) + [c]])
  {
    forall w {
      HavingAppend(cands, c, key, w);
    }
  }

  /** Collects the groups as both switches do. */
  method GroupBy(cands: seq<Candidate>, key: Key) returns (order: seq<int>, groups: map<int, seq<Candidate>>)
    ensures Grouped(cands, key, order, groups)
  {
    hide *;
    order, groups := [], map[];
    GroupNone(key);
    for i := 0 to |cands|
      invariant Grouped(cands[..i], key, order, groups)
    {
      var c := cands[i];
      var v := KeyOf(key, c);
      assert cands[..i + 1] == cands[..i] + [c];
      GroupAdd(cands[..i], c, key, order, groups);
      if v !in groups {
        order := order + [v];
      }
      groups := groups[v := (if v in groups then groups[v] else []) + [c]];
    }
    assert cands[..|cands|] == cands;
  }

  // --- Choosing the byte to switch on ---

  function BytesAt(cands: seq<Candidate>, k: nat): set<byte> {
    set c | c in cands && k < |c.lit| :: c.lit[k]
  }

  /** The leftmost position in first..minLen that tells the most candidates apart, or -1 when none tells any. */
  method BestSplit(cands: seq<Candidate>, first: nat, minLen: nat) returns (bestK: int)
    requires forall c :: c in cands ==> minLen <= |c.lit|
    ensures bestK == -1 ==> forall k :: first <= k < minLen ==> |BytesAt(cands, k)| <= 1
    ensures bestK != -1 ==> first <= bestK < minLen && |BytesAt(cands, bestK)| > 1
    ensures bestK != -1 ==> forall k :: first <= k < minLen ==> |BytesAt(cands, k)| <= |BytesAt(cands, bestK)|
    ensures bestK != -1 ==> forall k :: first <= k < bestK ==> |BytesAt(cands, k)| < |BytesAt(cands, bestK)|
  {
    bestK := -1;
    var bestN := 1;
    var k := first;
    while k < minLen
      invariant first <= k
      invariant bestK == -1 ==> bestN == 1
      invariant bestK != -1 ==> first <= bestK < k && bestK < minLen && bestN == |BytesAt(cands, bestK)| > 1
      invariant forall j :: first <= j < k && j < minLen ==> |BytesAt(cands, j)| <= bestN
      invariant bestK != -1 ==> forall j :: first <= j < bestK ==> |BytesAt(cands, j)| < bestN
    {
      var seen: set<byte> := {};
      for i := 0 to |cands|
        invariant seen == BytesAt(cands[..i], k)
      {
        assert cands[..i + 1] == cands[..i] + [cands[i]];
        seen := seen + {cands[i].lit[k]};
      }
      assert cands[..|cands|] == cands;
      if |seen| > bestN {
        bestK, bestN := k, |seen|;
      }
      k := k + 1;
    }
  }

  lemma OtherByte(cands: seq<Candidate>, k: nat, b: int)
    requires |BytesAt(cands, k)| > 1
    ensures exists c :: c in cands && KeyOf(ByteAt(k), c) != b
  {
    if forall c :: c in cands ==> KeyOf(ByteAt(k), c) == b {
      assert BytesAt(cands, k) <= (if 0 <= b < 256 then {b as byte} else {});
      SubsetSize(BytesAt(cands, k), if 0 <= b < 256 then {b as byte} else {});
    }
  }

  lemma SubsetSize<T>(a: set<T>, b: set<T>)
    requires a <= b
    ensures |a| <= |b|
  {
    assert b == a + (b - a);
  }

  // --- The emitter ---

  function Leaf(c: Candidate, known: nat, mode: Mode): Stmt {
    if mode.Exact? then IfWhole(c) else IfPrefix(known < |c.lit|, c)
  }

  function Leaves(cands: seq<Candidate>, known: nat, mode: Mode): seq<Stmt> {
    if cands == [] then [] else [Leaf(cands[0], known, mode)] + Leaves(cands[1..], known, mode)
  }

  lemma {:induction false} LeavesAppend(cands: seq<Candidate>, c: Candidate, known: nat, mode: Mode)
    ensures Leaves(cands + [c], known, mode) == Leaves(cands, known, mode) + [Leaf(c, known, mode)]
  {
    if cands != [] {
      assert (cands + [c])[1..] == cands[1..] + [c];
      LeavesAppend(cands[1..], c, known, mode);
    }
  }

  lemma MatchesClash(mode: Mode, a: bytes, b: bytes, input: bytes)
    requires Matches(mode, a, input) && Matches(mode, b, input)
    ensures Clash(mode, a, b)
  {
    if mode.Prefix? {
      assert a == input[..|a|] && b == input[..|b|];
      assert if |a| <= |b| then a == b[..|a|] else b == a[..|b|];
    }
  }

  lemma ExecOne(stmt: Stmt, input: bytes, s: Found)
    ensures Exec([stmt], input, s) == Step(stmt, input, s)
  {
    assert [stmt][1..] == [];
  }

  lemma {:induction false} LeavesExec(cands: seq<Candidate>, known: nat, mode: Mode, input: bytes, s: Found)
    requires Admissible(mode, known, input)
    ensures Exec(Leaves(cands, known, mode), input, s) == Some(Settle(mode, cands, input, s))
  {
    if cands != [] {
      var code, t := Leaves(cands, known, mode), Try(mode, cands[0], input, s);
      assert code[1..] == Leaves(cands[1..], known, mode);
      assert Step(code[0], input, s) == Some(t);
      LeavesExec(cands[1..], known, mode, input, t);
    }
  }

  lemma {:induction false} SelectCase(cases: seq<Case>, j: nat, input: bytes, s: Found)
    requires forall i, j :: 0 <= i < j < |cases| ==> cases[i].tag != cases[j].tag
    requires j < |cases|
    ensures Select(cases, cases[j].tag, input, s) == Exec(cases[j].body, input, s)
  {
    if j > 0 {
      SelectCase(cases[1..], j - 1, input, s);
    }
  }

  lemma {:induction false} SelectNone(cases: seq<Case>, v: int, input: bytes, s: Found)
    requires forall j :: 0 <= j < |cases| ==> cases[j].tag != v
    ensures Select(cases, v, input, s) == Some(s)
  {
    if cases != [] {
      SelectNone(cases[1..], v, input, s);
    }
  }

  ghost predicate CaseFor(k: Case, mode: Mode, cands: seq<Candidate>, key: Key, known: nat) {
    k.tag >= 0 && Correct(k.body, mode, Having(cands, key, k.tag), if key.Length? then k.tag else known)
  }

  /** The case bodies are right for their groups and the labels are the keys that occur. */
  ghost predicate CasesFor(cases: seq<Case>, mode: Mode, cands: seq<Candidate>, key: Key, known: nat) {
    && (forall i, j :: 0 <= i < j < |cases| ==> cases[i].tag != cases[j].tag)
    && (forall c :: c in cands ==> exists j :: 0 <= j < |cases| && cases[j].tag == KeyOf(key, c))
    && (forall j :: 0 <= j < |cases| ==> CaseFor(cases[j], mode, cands, key, known))
  }

  lemma SelectSettles(cases: seq<Case>, mode: Mode, cands: seq<Candidate>, key: Key, known: nat,
                      v: int, input: bytes, s: Found)
    requires CasesFor(cases, mode, cands, key, known)
    requires forall c :: c in cands && Matches(mode, c.lit, input) ==> KeyOf(key, c) == v
    requires v >= 0 && Admissible(mode, if key.Length? then v else known, input)
    ensures Select(cases, v, input, s) == Some(Settle(mode, cands, input, s))
  {
    if j :| 0 <= j < |cases| && cases[j].tag == v {
      SelectCase(cases, j, input, s);
      SettleHaving(mode, cands, key, v, input, s);
    } else {
      SelectNone(cases, v, input, s);
      SettleNone(mode, cands, input, s);
    }
  }

  lemma SwitchLenCorrect(cases: seq<Case>, cands: seq<Candidate>)
    requires CasesFor(cases, Exact, cands, Length, 0)
    ensures Correct([SwitchLen(cases)], Exact, cands, 0)
  {
    forall input: bytes, s: Found
      ensures Exec([SwitchLen(cases)], input, s) == Some(Settle(Exact, cands, input, s))
    {
      ExecOne(SwitchLen(cases), input, s);
      SelectSettles(cases, Exact, cands, Length, 0, |input|, input, s);
    }
  }

  lemma SwitchByteCorrect(cases: seq<Case>, mode: Mode, cands: seq<Candidate>, at: nat, known: nat)
    requires CasesFor(cases, mode, cands, ByteAt(at), known)
    requires at < known && forall c :: c in cands ==> at < |c.lit|
    ensures Correct([SwitchByte(at, cases)], mode, cands, known)
  {
    forall input: bytes, s: Found | Admissible(mode, known, input)
      ensures Exec([SwitchByte(at, cases)], input, s) == Some(Settle(mode, cands, input, s))
    {
      ExecOne(SwitchByte(at, cases), input, s);
      SelectSettles(cases, mode, cands, ByteAt(at), known, input[at], input, s);
    }
  }

  lemma GuardCorrect(body: seq<Stmt>, cands: seq<Candidate>, at: nat, known: nat)
    requires known <= at && Correct(body, Prefix, cands, at + 1)
    requires forall c :: c in cands ==> at < |c.lit|
    ensures Correct([IfLongerThan(at, body)], Prefix, cands, known)
  {
    forall input: bytes, s: Found | Admissible(Prefix, known, input)
      ensures Exec([IfLongerThan(at, body)], input, s) == Some(Settle(Prefix, cands, input, s))
    {
      ExecOne(IfLongerThan(at, body), input, s);
      if |input| <= at {
        SettleNone(Prefix, cands, input, s);
      }
    }
  }

  /**
   * Writes the nested switches. Correct says that on every input the guards admit,
   * running them never reads out of range and assigns the candidate that matches, the last
   * of them where several do.
   */
  method EmitKeyTree(cands: seq<Candidate>, known: nat, mode: Mode) returns (code: seq<Stmt>)
    requires Usable(mode, cands, known)
    ensures Correct(code, mode, cands, known)
    ensures Unambiguous(mode, cands) ==> Economical(code) || Stuck(mode, cands)
    decreases |cands|, if known == 0 then 1 else 0, 1
  {
    if |cands| == 0 {
      return [];
    }
    if mode.Exact? && known == 0 {
      var cases := EmitCases(cands, Length, known, mode);
      SwitchLenCorrect(cases, cands);
      SwitchEconomical(cases, 0);
      return [SwitchLen(cases)];
    }
    if |cands| == 1 {
      LeavesCorrect(cands, known, mode);
      forall input: bytes {
        ComparesOne(Leaf(cands[0], known, mode), input);
      }
      return [Leaf(cands[0], known, mode)];
    }
    var minLen := MinLength(cands);
    var bestK := BestSplit(cands, if mode.Exact? then 0 else 1, minLen);
    if bestK < 0 {
      code := EmitLeaves(cands, known, mode);
      LeavesCorrect(cands, known, mode);
      assert Unambiguous(mode, cands) ==> NoSplit(mode, cands, minLen);
      return;
    }
    var guarded := if known <= bestK then bestK + 1 else known;
    var cases := EmitCases(cands, ByteAt(bestK), guarded, mode);
    SwitchByteCorrect(cases, mode, cands, bestK, guarded);
    SwitchEconomical(cases, bestK);
    code := [SwitchByte(bestK, cases)];
    if known <= bestK {
      GuardCorrect(code, cands, bestK, known);
      code := [IfLongerThan(bestK, code)];
    }
  }

  /** One switch arm per key in first-appearance order, the group of that key compiled inside it. */
  method EmitCases(cands: seq<Candidate>, key: Key, known: nat, mode: Mode) returns (cases: seq<Case>)
    requires Usable(mode, cands, if key.Length? then 0 else known)
    requires match key
             case Length => mode.Exact?
             case ByteAt(at) => at < known && |BytesAt(cands, at)| > 1 && forall c :: c in cands ==> at < |c.lit|
    ensures CasesFor(cases, mode, cands, key, known)
    ensures Unambiguous(mode, cands) ==> (forall j :: 0 <= j < |cases| ==> Economical(cases[j].body)) || Stuck(mode, cands)
    decreases |cands|, if key.Length? then 1 else 0, 0
  {
    hide *;
    var order, groups := GroupBy(cands, key);
    GroupedMeans(cands, key, order, groups);
    cases := [];
    for i := 0 to |order|
      invariant |cases| == i
      invariant forall j :: 0 <= j < i ==> cases[j].tag == order[j] && CaseFor(cases[j], mode, cands, key, known)
      invariant Unambiguous(mode, cands) ==> (forall j :: 0 <= j < i ==> Economical(cases[j].body)) || Stuck(mode, cands)
    {
      var v := order[i];
      GroupUsable(cands, key, v, if key.Length? then 0 else known, mode);
      var body := EmitKeyTree(groups[v], if key.Length? then v else known, mode);
      CaseRight(v, body, mode, cands, key, known);
      StuckGroup(cands, key, v, mode);
      cases := cases + [Case(v, body)];
    }
    CasesComplete(cases, mode, cands, key, known, order, groups);
  }

  lemma {:induction false} SelectEconomical(cases: seq<Case>, v: int, input: bytes)
    requires forall j :: 0 <= j < |cases| ==> Economical(cases[j].body)
    ensures SelectCompares(cases, v, input) <= 1
  {
    if cases != [] {
      SelectEconomical(cases[1..], v, input);
    }
  }

  lemma SwitchEconomical(cases: seq<Case>, at: nat)
    ensures (forall j :: 0 <= j < |cases| ==> Economical(cases[j].body)) ==>
              && Economical([SwitchLen(cases)])
              && Economical([SwitchByte(at, cases)])
              && Economical([IfLongerThan(at, [SwitchByte(at, cases)])])
  {
    forall input: bytes
      ensures (forall j :: 0 <= j < |cases| ==> Economical(cases[j].body)) ==>
                && Compares([SwitchLen(cases)], input) <= 1
                && Compares([SwitchByte(at, cases)], input) <= 1
                && Compares([IfLongerThan(at, [SwitchByte(at, cases)])], input) <= 1
    {
      if forall j :: 0 <= j < |cases| ==> Economical(cases[j].body) {
        SelectEconomical(cases, |input|, input);
        if at < |input| {
          SelectEconomical(cases, input[at], input);
        }
      }
      ComparesOne(SwitchLen(cases), input);
      ComparesOne(SwitchByte(at, cases), input);
      ComparesOne(IfLongerThan(at, [SwitchByte(at, cases)]), input);
    }
  }

  lemma ComparesOne(stmt: Stmt, input: bytes)
    ensures Compares([stmt], input) == StepCompares(stmt, input)
  {
    assert [stmt][1..] == [];
  }

  lemma GroupedMeans(cands: seq<Candidate>, key: Key, order: seq<int>, groups: map<int, seq<Candidate>>)
    requires Grouped(cands, key, order, groups)
    ensures forall i :: 0 <= i < |order| ==>
              order[i] in groups && groups[order[i]] == Having(cands, key, order[i]) && groups[order[i]] != []
  {
    hide Having;
    forall i | 0 <= i < |order|
      ensures order[i] in groups && groups[order[i]] == Having(cands, key, order[i]) && groups[order[i]] != []
    {
      var v := order[i];
      assert v in order && v in groups && Having(cands, key, v) == groups[v];
    }
  }

  lemma CaseRight(v: nat, body: seq<Stmt>, mode: Mode, cands: seq<Candidate>, key: Key, known: nat)
    requires Correct(body, mode, Having(cands, key, v), if key.Length? then v else known)
    ensures CaseFor(Case(v, body), mode, cands, key, known)
  {
  }

  lemma CasesComplete(cases: seq<Case>, mode: Mode, cands: seq<Candidate>, key: Key, known: nat,
                      order: seq<int>, groups: map<int, seq<Candidate>>)
    requires Grouped(cands, key, order, groups) && |cases| == |order|
    requires forall j :: 0 <= j < |cases| ==> cases[j].tag == order[j] && CaseFor(cases[j], mode, cands, key, known)
    ensures CasesFor(cases, mode, cands, key, known)
  {
    forall c | c in cands ensures exists j :: 0 <= j < |cases| && cases[j].tag == KeyOf(key, c) {
      HavingMembers(cands, key, KeyOf(key, c));
      assert KeyOf(key, c) in order;
    }
  }

  lemma StuckGroup(cands: seq<Candidate>, key: Key, v: int, mode: Mode)
    ensures Stuck(mode, Having(cands, key, v)) ==> Stuck(mode, cands)
    ensures Unambiguous(mode, cands) ==> Unambiguous(mode, Having(cands, key, v))
  {
    HavingMembers(cands, key, v);
    if Unambiguous(mode, cands) {
      HavingUnambiguous(mode, cands, key, v);
    }
  }

  lemma GroupUsable(cands: seq<Candidate>, key: Key, v: int, known: nat, mode: Mode)
    requires Usable(mode, cands, known) && Having(cands, key, v) != []
    requires key.ByteAt? ==> |BytesAt(cands, key.at)| > 1 && forall c :: c in cands ==> key.at < |c.lit|
    requires key.Length? ==> mode.Exact? && known == 0
    ensures v >= 0 && Usable(mode, Having(cands, key, v), if key.Length? then v else known)
    ensures key.Length? ==> v > 0 && |Having(cands, key, v)| <= |cands|
    ensures key.ByteAt? ==> |Having(cands, key, v)| < |cands|
  {
    HavingMembers(cands, key, v);
    assert Having(cands, key, v)[0] in Having(cands, key, v);
    if key.ByteAt? {
      OtherByte(cands, key.at, v);
      HavingSmaller(cands, key, v);
    }
  }

  method MinLength(cands: seq<Candidate>) returns (minLen: nat)
    requires cands != []
    ensures forall c :: c in cands ==> minLen <= |c.lit|
    ensures exists c :: c in cands && minLen == |c.lit|
  {
    minLen := |cands[0].lit|;
    for i := 1 to |cands|
      invariant forall c :: c in cands[..i] ==> minLen <= |c.lit|
      invariant exists c :: c in cands[..i] && minLen == |c.lit|
    {
      assert cands[..i + 1] == cands[..i] + [cands[i]];
      minLen := if |cands[i].lit| < minLen then |cands[i].lit| else minLen;
    }
    assert cands[..|cands|] == cands;
  }

  /** The fallback for a position that tells nothing apart: every candidate compared in turn. */
  method EmitLeaves(cands: seq<Candidate>, known: nat, mode: Mode) returns (code: seq<Stmt>)
    ensures code == Leaves(cands, known, mode)
  {
    code := [];
    for i := 0 to |cands|
      invariant code == Leaves(cands[..i], known, mode)
    {
      assert cands[..i + 1] == cands[..i] + [cands[i]];
      LeavesAppend(cands[..i], cands[i], known, mode);
      code := code + [Leaf(cands[i], known, mode)];
    }
    assert cands[..|cands|] == cands;
  }

  lemma LeavesCorrect(cands: seq<Candidate>, known: nat, mode: Mode)
    ensures Correct(Leaves(cands, known, mode), mode, cands, known)
    ensures |cands| == 1 ==> Leaves(cands, known, mode) == [Leaf(cands[0], known, mode)]
  {
    forall input: bytes, s: Found | Admissible(mode, known, input)
      ensures Exec(Leaves(cands, known, mode), input, s) == Some(Settle(mode, cands, input, s))
    {
      LeavesExec(cands, known, mode, input, s);
    }
  }

  // --- A split position always exists ---

  /** Two candidates that cannot be confused differ under the shortest length, so the fallback is never written. */
  lemma SplitExists(mode: Mode, cands: seq<Candidate>, minLen: nat) returns (k: nat)
    requires Unambiguous(mode, cands) && |cands| >= 2
    requires forall c :: c in cands ==> minLen <= |c.lit|
    requires exists c :: c in cands && minLen == |c.lit|
    requires mode.Prefix? ==> forall c :: c in cands ==> c.lit != [] && c.lit[0] == QUOTE
    requires mode.Exact? ==> forall c :: c in cands ==> |c.lit| == minLen
    ensures (if mode.Exact? then 0 else 1) <= k < minLen && |BytesAt(cands, k)| > 1
  {
    var i :| 0 <= i < |cands| && |cands[i].lit| == minLen;
    var j := if i == 0 then 1 else 0;
    var a, b := cands[i].lit, cands[j].lit;
    NoClash(mode, cands, if i < j then i else j, if i < j then j else i);
    assert a != b[..minLen];
    k :| 0 <= k < minLen && a[k] != b[k];
    assert {a[k], b[k]} <= BytesAt(cands, k) by {
      assert cands[i] in cands && cands[j] in cands;
    }
    SubsetSize({a[k], b[k]}, BytesAt(cands, k));
  }

  lemma NeverStuck(mode: Mode, cands: seq<Candidate>)
    requires mode.Prefix? ==> forall c :: c in cands ==> c.lit != [] && c.lit[0] == QUOTE
    ensures !Stuck(mode, cands)
  {
    forall sub: seq<Candidate>, minLen: nat | NoSplit(mode, sub, minLen) && (forall c :: c in sub ==> c in cands)
      ensures false
    {
      var k := SplitExists(mode, sub, minLen);
    }
  }

  lemma {:induction false} NoClash(mode: Mode, cands: seq<Candidate>, i: nat, j: nat)
    requires Unambiguous(mode, cands) && i < j < |cands|
    ensures !Clash(mode, cands[i].lit, cands[j].lit)
  {
    if i == 0 {
      assert cands[j] == cands[1..][j - 1];
    } else {
      NoClash(mode, cands[1..], i - 1, j - 1);
    }
  }

  // --- From member names to the tree ---

  predicate Distinct<T(==)>(names: seq<T>) {
    forall i, j :: 0 <= i < j < |names| ==> names[i] != names[j]
  }

  function Literal(mode: Mode, name: bytes): bytes {
    if mode.Prefix? then Quoted(name) else name
  }

  /** The candidates a walk hands to the tree: every name it can match raw, with its field index. */
  function CandidatesOf(names: seq<bytes>, mode: Mode): seq<Candidate> {
    if names == [] then []
    else
      var last := |names| - 1;
      CandidatesOf(names[..last], mode) +
      (if TreeSafeName(names[last]) then [Candidate(Literal(mode, names[last]), last)] else [])
  }

  lemma {:induction false} CandidateMembers(names: seq<bytes>, mode: Mode, c: Candidate)
    ensures c in CandidatesOf(names, mode) <==>
            c.idx < |names| && TreeSafeName(names[c.idx]) && c.lit == Literal(mode, names[c.idx])
  {
    if names != [] {
      CandidateMembers(names[..|names| - 1], mode, c);
    }
  }

  lemma LiteralsClash(mode: Mode, a: bytes, b: bytes)
    requires TreeSafeName(a) && TreeSafeName(b) && Clash(mode, Literal(mode, a), Literal(mode, b))
    ensures a == b
  {
    if mode.Prefix? {
      if Quoted(a) <= Quoted(b) {
        QuotedPrefix(a, b, Quoted(b));
      } else {
        QuotedPrefix(b, a, Quoted(a));
      }
    }
  }

  /** A quoted tree-safe name begins an input only where that input's own name ends. */
  lemma QuotedPrefix(a: bytes, b: bytes, input: bytes)
    requires TreeSafeName(a) && (forall i :: 0 <= i < |b| ==> b[i] != QUOTE) && Quoted(b) <= input
    requires Quoted(a) <= input
    ensures a == b
  {
    assert forall i :: 1 <= i <= |a| ==> input[i] == Quoted(a)[i] == a[i - 1];
    assert forall i :: 1 <= i <= |b| ==> input[i] == Quoted(b)[i] == b[i - 1];
    assert input[|a| + 1] == Quoted(a)[|a| + 1] == QUOTE;
    assert input[|b| + 1] == Quoted(b)[|b| + 1] == QUOTE;
    assert |a| == |b|;
    assert a == input[1..|a| + 1] == b;
  }

  lemma {:induction false} UnambiguousAppend(mode: Mode, cands: seq<Candidate>, c: Candidate)
    requires Unambiguous(mode, cands) && forall d :: d in cands ==> !Clash(mode, d.lit, c.lit)
    ensures Unambiguous(mode, cands + [c])
  {
    if cands == [] {
      assert (cands + [c])[1..] == [];
    } else {
      assert (cands + [c])[1..] == cands[1..] + [c];
      UnambiguousAppend(mode, cands[1..], c);
    }
  }

  lemma {:induction false} CandidatesUnambiguous(names: seq<bytes>, mode: Mode)
    requires Distinct(names)
    ensures Unambiguous(mode, CandidatesOf(names, mode))
  {
    if names != [] {
      var last := |names| - 1;
      CandidatesUnambiguous(names[..last], mode);
      assert CandidatesOf(names[..last], mode) + [] == CandidatesOf(names[..last], mode);
      if TreeSafeName(names[last]) {
        var c := Candidate(Literal(mode, names[last]), last);
        forall d | d in CandidatesOf(names[..last], mode) ensures !Clash(mode, d.lit, c.lit) {
          CandidateMembers(names[..last], mode, d);
          if Clash(mode, d.lit, c.lit) {
            LiteralsClash(mode, names[d.idx], names[last]);
          }
        }
        UnambiguousAppend(mode, CandidatesOf(names[..last], mode), c);
      }
    }
  }

  /**
   * r names the last member whose literal the input carries, or says that no name the tree
   * can hold is there.
   */
  ghost predicate Chosen(names: seq<bytes>, mode: Mode, input: bytes, r: Found) {
    if r.idx == -1 then r.k == 0 && NoneFrom(names, mode, input, 0)
    else
      && 0 <= r.idx < |names|
      && TreeSafeName(names[r.idx])
      && Matches(mode, Literal(mode, names[r.idx]), input)
      && NoneFrom(names, mode, input, r.idx + 1)
      && r.k == if mode.Prefix? then |Quoted(names[r.idx])| else 0
  }

  /** No name the tree can hold matches from a position on. */
  predicate NoneFrom(names: seq<bytes>, mode: Mode, input: bytes, from: nat) {
    forall i :: from <= i < |names| && TreeSafeName(names[i]) ==> !Matches(mode, Literal(mode, names[i]), input)
  }

  /** One more name: the compare of its literal, were the tree to hold it, has the last word. */
  lemma ChosenStep(names: seq<bytes>, mode: Mode, input: bytes, r: Found)
    requires names != [] && Chosen(names[..|names| - 1], mode, input, r)
    ensures var last := |names| - 1;
            Chosen(names, mode, input,
                   if TreeSafeName(names[last]) then Try(mode, Candidate(Literal(mode, names[last]), last), input, r) else r)
  {
    hide TreeSafeName, Matches;
    var last := |names| - 1;
    assert forall i :: 0 <= i < last ==> names[..last][i] == names[i];
  }

  lemma CandidatesStep(names: seq<bytes>, mode: Mode, input: bytes, s: Found)
    requires names != []
    ensures var last := |names| - 1;
            var r := Settle(mode, CandidatesOf(names[..last], mode), input, s);
            Settle(mode, CandidatesOf(names, mode), input, s) ==
            if TreeSafeName(names[last]) then Try(mode, Candidate(Literal(mode, names[last]), last), input, r) else r
  {
    var last := |names| - 1;
    var before := CandidatesOf(names[..last], mode);
    if TreeSafeName(names[last]) {
      SettleAppend(mode, before, Candidate(Literal(mode, names[last]), last), input, s);
    } else {
      assert before + [] == before;
    }
  }

  lemma {:induction false} SettleChosen(names: seq<bytes>, mode: Mode, input: bytes)
    ensures Chosen(names, mode, input, Settle(mode, CandidatesOf(names, mode), input, Found(-1, 0)))
  {
    if names != [] {
      hide *;
      SettleChosen(names[..|names| - 1], mode, input);
      CandidatesStep(names, mode, input, Found(-1, 0));
      ChosenStep(names, mode, input, Settle(mode, CandidatesOf(names[..|names| - 1], mode), input, Found(-1, 0)));
    }
  }

  /** One index answers to an input: names that share a literal are one name. */
  lemma ChosenUnique(names: seq<bytes>, mode: Mode, input: bytes, r: Found, t: Found)
    requires Chosen(names, mode, input, r) && Chosen(names, mode, input, t)
    ensures r == t
    ensures r.idx >= 0 ==> forall i :: 0 <= i < |names| && TreeSafeName(names[i]) && Matches(mode, Literal(mode, names[i]), input)
                                       ==> names[i] == names[r.idx] && i <= r.idx
  {
    if r.idx >= 0 {
      forall i | 0 <= i < |names| && TreeSafeName(names[i]) && Matches(mode, Literal(mode, names[i]), input)
        ensures names[i] == names[r.idx]
      {
        MatchesClash(mode, Literal(mode, names[r.idx]), Literal(mode, names[i]), input);
        LiteralsClash(mode, names[r.idx], names[i]);
      }
    }
  }

  /**
   * Compiles a list of member names. On every input that holds at least the opening quote
   * the emitted tree stays in bounds and reports the matching member, the last one were
   * several to share a name, or none.
   */
  method CompileNames(names: seq<bytes>, mode: Mode) returns (code: seq<Stmt>)
    ensures forall input: bytes {:trigger Exec(code, input, Found(-1, 0))} :: (mode.Prefix? ==> input != []) ==>
              var r := Exec(code, input, Found(-1, 0));
              r.Some? && Chosen(names, mode, input, r.value)
    ensures Distinct(names) ==> Economical(code)
  {
    var cands: seq<Candidate> := [];
    for i := 0 to |names|
      invariant cands == CandidatesOf(names[..i], mode)
    {
      assert names[..i + 1][..i] == names[..i];
      if TreeSafeName(names[i]) {
        cands := cands + [Candidate(Literal(mode, names[i]), i)];
      }
    }
    assert names[..|names|] == names;
    forall c | c in cands ensures c.lit != [] && (mode.Prefix? ==> c.lit[0] == QUOTE) {
      CandidateMembers(names, mode, c);
    }
    if Distinct(names) {
      CandidatesUnambiguous(names, mode);
    }
    NeverStuck(mode, cands);
    var known := if mode.Prefix? then 1 else 0;
    code := EmitKeyTree(cands, known, mode);
    forall input: bytes | mode.Prefix? ==> input != []
      ensures var r := Exec(code, input, Found(-1, 0)); r.Some? && Chosen(names, mode, input, r.value)
    {
      SettleChosen(names, mode, input);
      assert Admissible(mode, known, input);
    }
  }
}
